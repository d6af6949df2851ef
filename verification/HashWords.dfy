// What the block functions of MD5 and SHA-1 have in common: 32-bit words, and blocks of 64
// bytes.

module HashWords {
  import opened ByteStrings

  type Words = seq<bv32>

  type Block = b: seq<Byte> | |b| == 64 witness seq(64, _ => 0)

  function Rotate(x: bv32, s: nat): bv32
    requires 0 < s < 32
  {
    (x << s) | (x >> (32 - s))
  }

  function Sum(a: bv32, b: bv32): bv32 {
    a + b
  }

  // -------- words as bytes --------

  function Narrow(x: bv32): bv8 {
    (x & 0xff) as bv8
  }

  function AsByte(b: bv8): Byte {
    b as nat
  }

  function Wide(b: Byte): bv32 {
    b as bv32
  }

  // (u_char) (w >> 8 * i)
  function Quarter(w: bv32, i: nat): Byte
    requires i < 4
  {
    AsByte(if i == 0 then Narrow(w) else if i == 1 then Narrow(w >> 8) else if i == 2 then Narrow(w >> 16)
           else Narrow(w >> 24))
  }

  // Four bytes as a word, the lowest first
  function Join(a: bv32, b: bv32, c: bv32, d: bv32): bv32 {
    a | (b << 8) | (c << 16) | (d << 24)
  }

  // Word n of some bytes, its high byte first or its low one
  function WordAt(bigEndian: bool, s: seq<Byte>, n: nat): bv32
    requires 4 * n + 4 <= |s|
  {
    if bigEndian then Join(Wide(s[4 * n + 3]), Wide(s[4 * n + 2]), Wide(s[4 * n + 1]), Wide(s[4 * n]))
    else Join(Wide(s[4 * n]), Wide(s[4 * n + 1]), Wide(s[4 * n + 2]), Wide(s[4 * n + 3]))
  }

  lemma SameNumber(b: bv8)
    ensures (b as bv32) as nat == b as nat
  {
  }

  lemma NumberBack(x: bv32)
    ensures (x as nat) as bv32 == x
  {
  }

  lemma WideByte(b: bv8)
    ensures Wide(AsByte(b)) == b as bv32
  {
    SameNumber(b);
    NumberBack(b as bv32);
  }

  lemma Quarters(w: bv32)
    ensures Join(Narrow(w) as bv32, Narrow(w >> 8) as bv32, Narrow(w >> 16) as bv32, Narrow(w >> 24) as bv32) == w
  {
  }

  // A word is read from the bytes it has been stored as.
  lemma StoredRead(w: bv32)
    ensures Join(Wide(Quarter(w, 0)), Wide(Quarter(w, 1)), Wide(Quarter(w, 2)), Wide(Quarter(w, 3))) == w
  {
    hide Narrow, Join, Wide, AsByte;
    WideByte(Narrow(w));
    WideByte(Narrow(w >> 8));
    WideByte(Narrow(w >> 16));
    WideByte(Narrow(w >> 24));
    Quarters(w);
  }

  // The bytes hold just these words.
  ghost predicate Stores(bigEndian: bool, s: seq<Byte>, words: Words) {
    |s| == 4 * |words| && forall n :: 0 <= n < |words| ==> WordAt(bigEndian, s, n) == words[n]
  }

  lemma StoresMore(bigEndian: bool, s: seq<Byte>, words: Words, t: seq<Byte>, w: bv32)
    requires Stores(bigEndian, s, words)
    requires t == if bigEndian then [Quarter(w, 3), Quarter(w, 2), Quarter(w, 1), Quarter(w, 0)]
                  else [Quarter(w, 0), Quarter(w, 1), Quarter(w, 2), Quarter(w, 3)]
    ensures Stores(bigEndian, s + t, words + [w])
  {
    hide Quarter, Join, Wide;
    StoredRead(w);
    forall n | 0 <= n < |words + [w]|
      ensures WordAt(bigEndian, s + t, n) == (words + [w])[n]
    {
      if n < |words| {
        assert WordAt(bigEndian, s + t, n) == WordAt(bigEndian, s, n);
      }
    }
  }

  // The last lines of ngx_md5_final and ngx_sha1_final
  method Store(bigEndian: bool, words: Words) returns (result: seq<Byte>)
    ensures Stores(bigEndian, result, words)
  {
    hide Quarter, Stores;
    result := [];
    NothingStored(bigEndian);
    var i := 0;
    while i < |words|
      invariant i <= |words| && Stores(bigEndian, result, words[..i])
    {
      var w := words[i];
      var t := if bigEndian then [Quarter(w, 3), Quarter(w, 2), Quarter(w, 1), Quarter(w, 0)]
               else [Quarter(w, 0), Quarter(w, 1), Quarter(w, 2), Quarter(w, 3)];
      StoresMore(bigEndian, result, words[..i], t, w);
      assert words[..i + 1] == words[..i] + [w];
      result := result + t;
      i := i + 1;
    }
    assert words[..i] == words;
  }

  lemma NothingStored(bigEndian: bool)
    ensures Stores(bigEndian, [], [])
  {
  }
}
