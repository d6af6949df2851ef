// The text of IPv6 addresses: ngx_inet6_ntop, ngx_inet6_addr and ngx_inet_addr.

module Inet6Text {
  import opened ByteStrings

  type Address = p: seq<Byte> | |p| == 16 witness seq(16, _ => 0)

  const INADDR_NONE: nat := 0xffff_ffff

  const ADDRSTRLEN: nat := |"ffff:ffff:ffff:ffff:ffff:ffff:255.255.255.255"|

  // -------- numbers as text --------

  function Digit(n: nat): char
    requires n < 16
  {
    if n < 10 then ('0' as int + n) as char else ('a' as int + n - 10) as char
  }

  lemma DigitIs(n: nat)
    requires n < 16
    ensures Digit(n) == "0123456789abcdef"[n]
  {
    Sixteen(n);
  }

  // "%xd" and "%ud"
  function Numeral(n: nat, base: nat): (s: string)
    requires 2 <= base <= 16
    ensures s != []
  {
    if n < base then [Digit(n)] else Numeral(n / base, base) + [Digit(n % base)]
  }

  // -------- the words of an address --------

  function Pair(hi: nat, lo: nat): nat {
    hi * 256 + lo
  }

  function Word(p: Address, k: nat): nat
    requires k < 8
  {
    Pair(p[2 * k], p[2 * k + 1])
  }

  lemma WordBytes(p: Address, k: nat)
    requires k < 8
    ensures Word(p, k) < 65536 && (Word(p, k) == 0 <==> p[2 * k] == 0 && p[2 * k + 1] == 0)
  {
  }

  ghost predicate ZeroRun(p: Address, z: nat, m: nat) {
    z + m <= 8 && forall j :: z <= j < z + m ==> Word(p, j) == 0
  }

  // The run of zero words that is left out: the first longest one of at least two.
  ghost predicate Compressed(p: Address, z: int, m: nat) {
    if z < 0 then forall y: nat, k: nat :: ZeroRun(p, y, k) ==> k < 2
    else
      && 2 <= m && ZeroRun(p, z, m)
      && forall y: nat, k: nat :: ZeroRun(p, y, k) ==> k <= m && (k == m ==> z <= y)
  }

  // The last four bytes are written as in IPv4.
  predicate Dotted(p: Address, z: int, m: nat) {
    z == 0 && ((m == 5 && p[10] == 0xff && p[11] == 0xff) || m == 6 || (m == 7 && p[14] != 0 && p[15] != 1))
  }

  // These are the addresses that embed one of IPv4: ::ffff:a.b.c.d and ::a.b.c.d, but for some
  // with nothing but the last word.
  lemma DottedWhen(p: Address, z: int, m: nat)
    requires Compressed(p, z, m) && -1 <= z
    ensures
      Dotted(p, z, m) <==>
      && (forall k :: 0 <= k < 5 ==> Word(p, k) == 0)
      && (Word(p, 5) == 0xffff || (Word(p, 5) == 0 && (Word(p, 6) != 0 || (p[14] != 0 && p[15] != 1))))
  {
    hide Word;
    WordIs(p, 5);
    WordIs(p, 7);
    if forall k :: 0 <= k < 5 ==> Word(p, k) == 0 {
      LongRun(p, z, m);
    } else {
      NoLongRun(p, z, m);
    }
  }

  lemma WordIs(p: Address, k: nat)
    requires k < 8
    ensures Word(p, k) == 0xffff <==> p[2 * k] == 0xff && p[2 * k + 1] == 0xff
    ensures Word(p, k) == 0 <==> p[2 * k] == 0 && p[2 * k + 1] == 0
  {
  }

  lemma LongRun(p: Address, z: int, m: nat)
    requires Compressed(p, z, m) && -1 <= z && forall k :: 0 <= k < 5 ==> Word(p, k) == 0
    ensures z == 0
    ensures m == if Word(p, 5) != 0 then 5 else if Word(p, 6) != 0 then 6 else if Word(p, 7) != 0 then 7 else 8
  {
    hide Word;
    var n := if Word(p, 5) != 0 then 5 else if Word(p, 6) != 0 then 6 else if Word(p, 7) != 0 then 7 else 8;
    assert ZeroRun(p, 0, n);
    assert z >= 0 && n <= m;
  }

  lemma NoLongRun(p: Address, z: int, m: nat)
    requires Compressed(p, z, m) && exists k :: 0 <= k < 5 && Word(p, k) != 0
    ensures !Dotted(p, z, m)
  {
    hide Word;
  }

  function DottedQuad(a: Byte, b: Byte, c: Byte, d: Byte): string {
    Numeral(a, 10) + "." + Numeral(b, 10) + "." + Numeral(c, 10) + "." + Numeral(d, 10)
  }

  // The words from number i up to number n.
  function Body(p: Address, i: nat, n: nat, z: int, m: nat): string
    requires n <= 8 && (z >= 0 ==> 0 < m)
    decreases n - i
  {
    if i >= n then ""
    else if i == z then ":" + Body(p, i + m, n, z, m)
    else Numeral(Word(p, i), 16) + (if i < 7 then ":" else "") + Body(p, i + 1, n, z, m)
  }

  function Text(p: Address, z: int, m: nat): string
    requires z >= 0 ==> 0 < m
  {
    (if z == 0 then ":" else "") + Body(p, 0, if Dotted(p, z, m) then 6 else 8, z, m)
    + (if Dotted(p, z, m) then DottedQuad(p[12], p[13], p[14], p[15]) else "")
  }

  // -------- ngx_inet6_ntop --------

  // The longest of the runs that end before word s.
  ghost predicate Best(p: Address, s: nat, z: int, m: nat) {
    && 1 <= m && (z < 0 ==> m == 1) && (z >= 0 ==> 2 <= m && z + m <= s && ZeroRun(p, z, m))
    && forall y: nat, k: nat :: ZeroRun(p, y, k) && y + k <= s ==> k <= m && (z >= 0 && k == m ==> z <= y)
  }

  // A run of n zero words ends at word k, with none before it.
  ghost predicate Open(p: Address, k: nat, n: nat) {
    n <= k <= 8 && ZeroRun(p, k - n, n) && (n < k ==> Word(p, k - n - 1) != 0)
  }

  lemma Closed(p: Address, k: nat, n: nat, z: int, m: nat)
    requires Open(p, k, n) && Best(p, k - n, z, m) && (k == 8 || Word(p, k) != 0)
    ensures Best(p, k, if m < n then k - n else z, if m < n then n else m)
    ensures k < 8 ==> Best(p, k + 1, if m < n then k - n else z, if m < n then n else m)
  {
    hide Word;
    forall y: nat, l: nat | ZeroRun(p, y, l) && 0 < l && y + l <= k + 1 && (k < 8 || y + l <= k)
      ensures y + l <= k && (y + l <= k - n || k - n <= y)
    {
      RunMisses(p, y, l, k);
      RunMisses(p, y, l, k - n - 1);
    }
  }

  // No run goes over a word that is not zero.
  lemma RunMisses(p: Address, y: nat, l: nat, k: int)
    requires ZeroRun(p, y, l)
    ensures 0 <= k < 8 && Word(p, k) != 0 ==> y + l <= k || k < y
  {
    hide Word;
  }

  lemma Chosen(p: Address, z: int, m: nat)
    requires Best(p, 8, z, m)
    ensures Compressed(p, z, m)
  {
  }

  lemma Longer(p: Address, k: nat, n: nat)
    requires Open(p, k, n) && k < 8 && Word(p, k) == 0
    ensures Open(p, k + 1, n + 1)
  {
    hide Word;
  }

  method FindRun(p: Address) returns (zero: int, max: nat)
    ensures zero == -1 || (0 <= zero && zero % 2 == 0)
    ensures Compressed(p, if zero < 0 then -1 else zero / 2, max) && 1 <= max
  {
    hide Best, Open, Compressed, Word;
    var last, n := -1, 0;
    zero, max := -1, 1;
    var i := 0;
    NothingSeen(p);
    while i < 16
      invariant i % 2 == 0 && i <= 16 && n <= i / 2 && Open(p, i / 2, n)
      invariant Best(p, i / 2 - n, if zero < 0 then -1 else zero / 2, max)
      invariant (zero == -1 || (0 <= zero && zero % 2 == 0)) && (n > 0 ==> last == i - 2 * n)
    {
      WordBytes(p, i / 2);
      if p[i] != 0 || p[i + 1] != 0 {
        Closed(p, i / 2, n, if zero < 0 then -1 else zero / 2, max);
        if max < n {
          zero := last;
          max := n;
        }
        n := 0;
        NothingOpen(p, i / 2 + 1);
      } else {
        Longer(p, i / 2, n);
        if n == 0 {
          last := i;
        }
        n := n + 1;
      }
      i := i + 2;
    }
    Closed(p, 8, n, if zero < 0 then -1 else zero / 2, max);
    if max < n {
      zero := last;
      max := n;
    }
    Chosen(p, if zero < 0 then -1 else zero / 2, max);
  }

  method Ntop(p: Address, len: nat) returns (text: string, ghost z: int, ghost m: nat)
    ensures Compressed(p, z, m) && 1 <= m && -1 <= z
    ensures text == if len < ADDRSTRLEN then "" else Text(p, z, m)
  {
    hide Compressed, Body, Word, Numeral, DottedQuad, Text;
    var zero, max := FindRun(p);
    z, m := if zero < 0 then -1 else zero / 2, max;
    TextParts(p, z, m);
    if len < ADDRSTRLEN {
      return "", z, m;
    }
    var dst := "";
    var n := 16;
    if zero == 0 {
      if (max == 5 && p[10] == 0xff && p[11] == 0xff) || max == 6 || (max == 7 && p[14] != 0 && p[15] != 1) {
        n := 12;
      }
      dst := dst + ":";
    }
    assert n == 12 <==> Dotted(p, z, m);
    dst := WriteWords(p, dst, n, zero, max);
    if n == 12 {
      dst := dst + DottedQuad(p[12], p[13], p[14], p[15]);
    }
    text := dst;
  }

  lemma TextParts(p: Address, z: int, m: nat)
    requires z >= 0 ==> 0 < m
    ensures Dotted(p, z, m) ==>
              Text(p, z, m) == ":" + Body(p, 0, 6, z, m) + DottedQuad(p[12], p[13], p[14], p[15])
    ensures !Dotted(p, z, m) ==> Text(p, z, m) == (if z == 0 then ":" else "") + Body(p, 0, 8, z, m)
  {
    hide Body, DottedQuad;
  }

  method WriteWords(p: Address, dst0: string, n: nat, zero: int, max: nat) returns (dst: string)
    requires (n == 12 || n == 16) && (zero == -1 || (0 <= zero && zero % 2 == 0)) && 1 <= max
    ensures dst == dst0 + Body(p, 0, n / 2, if zero < 0 then -1 else zero / 2, max)
  {
    hide Numeral, Word, Body;
    ghost var z := if zero < 0 then -1 else zero / 2;
    dst := dst0;
    var i := 0;
    while i < n
      invariant i % 2 == 0 && dst0 + Body(p, 0, n / 2, z, max) == dst + Body(p, i / 2, n / 2, z, max)
      decreases n - i
    {
      ghost var k := i / 2;
      BodyStep(p, k, n / 2, z, max, dst);
      if i == zero {
        dst := dst + ":";
        i := i + (max - 1) * 2;
      } else {
        WordPair(p, k);
        dst := dst + Numeral(Pair(p[i], p[i + 1]), 16);
        if i < 14 {
          dst := dst + ":";
        }
      }
      i := i + 2;
    }
    BodyDone(p, i / 2, n / 2, z, max, dst);
  }

  lemma WordPair(p: Address, k: nat)
    requires k < 8
    ensures Word(p, k) == Pair(p[2 * k], p[2 * k + 1])
  {
  }

  lemma BodyStep(p: Address, i: nat, n: nat, z: int, m: nat, dst: string)
    requires i < n <= 8 && (z >= 0 ==> 0 < m)
    ensures i == z ==> dst + Body(p, i, n, z, m) == dst + ":" + Body(p, i + m, n, z, m)
    ensures i != z ==> dst + Body(p, i, n, z, m)
                       == (if i < 7 then dst + Numeral(Word(p, i), 16) + ":" else dst + Numeral(Word(p, i), 16))
                          + Body(p, i + 1, n, z, m)
  {
    hide Word, Numeral;
  }

  lemma BodyDone(p: Address, i: nat, n: nat, z: int, m: nat, dst: string)
    requires n <= i && n <= 8 && (z >= 0 ==> 0 < m)
    ensures dst + Body(p, i, n, z, m) == dst
  {
  }

  lemma NothingSeen(p: Address)
    ensures Open(p, 0, 0) && Best(p, 0, -1, 1)
  {
  }

  lemma NothingOpen(p: Address, k: nat)
    requires 0 < k <= 8 && Word(p, k - 1) != 0
    ensures Open(p, k, 0)
  {
  }
}
