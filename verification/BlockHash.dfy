// The streaming part that ngx_md5.c and ngx_sha1.c have in common: bytes come in pieces of
// any length, and the block function sees them 64 at a time.

module BlockHash {
  import opened ByteStrings
  import opened HashWords
  import Md5
  import Sha1

  const WORD64: nat := 0x1_0000_0000_0000_0000

  datatype Algorithm = MD5 | SHA1

  function Width(alg: Algorithm): nat {
    if alg.MD5? then 4 else 5
  }

  function Init(alg: Algorithm): (w: Words)
    ensures |w| == Width(alg)
  {
    if alg.MD5? then Md5.INIT else Sha1.INIT
  }

  function Compress(alg: Algorithm, w: Words, p: Block): (w': Words)
    requires |w| == Width(alg)
    ensures |w'| == Width(alg)
  {
    if alg.MD5? then Md5.Compress(w, p) else Sha1.Compress(w, p)
  }

  // -------- the whole message at once --------

  // The block function over the whole blocks of the data.
  function Fold(alg: Algorithm, w: Words, data: seq<Byte>): (w': Words)
    requires |w| == Width(alg)
    ensures |w'| == Width(alg)
    decreases |data|
  {
    if |data| < 64 then w else Fold(alg, Compress(alg, w, data[..64]), data[64..])
  }

  function Zeros(n: nat): seq<Byte> {
    seq(n, _ => 0)
  }

  // x as eight bytes, the lowest first
  function LittleEndian(x: nat, n: nat): seq<Byte> {
    if n == 0 then [] else [x % 256] + LittleEndian(x / 256, n - 1)
  }

  function Reversed(s: seq<Byte>): seq<Byte> {
    if s == [] then [] else Reversed(s[1..]) + [s[0]]
  }

  // The length in bits, modulo 2^64.
  function LengthBytes(alg: Algorithm, len: nat): seq<Byte> {
    var bytes := LittleEndian(Counter(len * 8), 8);
    if alg.SHA1? then Reversed(bytes) else bytes
  }

  // bytes & 0x3f, and what a 64-bit counter shows
  function Off(len: nat): nat {
    len % 64
  }

  function Counter(len: nat): nat {
    len % WORD64
  }

  // A bit, zeros up to eight bytes before the end of a block, and the length.
  function Padded(alg: Algorithm, m: seq<Byte>): seq<Byte> {
    m + [0x80] + Zeros((119 - Off(|m|)) % 64) + LengthBytes(alg, |m|)
  }

  function Digest(alg: Algorithm, m: seq<Byte>): Words {
    Fold(alg, Init(alg), Padded(alg, m))
  }

  // -------- lemmas --------

  lemma {:induction false} FoldAppend(alg: Algorithm, w: Words, s: seq<Byte>, t: seq<Byte>)
    requires Off(|s|) == 0 && |w| == Width(alg)
    ensures Fold(alg, w, s + t) == Fold(alg, Fold(alg, w, s), t)
    decreases |s|
  {
    hide Compress;
    if s == [] {
      assert s + t == t;
    } else {
      assert (s + t)[..64] == s[..64] && (s + t)[64..] == s[64..] + t;
      FoldAppend(alg, Compress(alg, w, s[..64]), s[64..], t);
    }
  }

  lemma LengthOfBytes(alg: Algorithm, len: nat)
    ensures |LengthBytes(alg, len)| == 8
  {
    LittleLength(Counter(len * 8), 8);
    ReversedLength(LittleEndian(Counter(len * 8), 8));
  }

  lemma {:induction false} LittleLength(x: nat, n: nat)
    ensures |LittleEndian(x, n)| == n
  {
    if n > 0 {
      LittleLength(x / 256, n - 1);
    }
  }

  lemma {:induction false} ReversedLength(s: seq<Byte>)
    ensures |Reversed(s)| == |s|
  {
    if s != [] {
      ReversedLength(s[1..]);
    }
  }

  lemma Turn(a: int, k: int, n: int)
    requires n == 64 || n == WORD64
    ensures (a + k * n) % n == a % n
  {
  }

  lemma Aligned(len: nat)
    ensures Off(len) < 64 && Off(len) <= len && Off(len - Off(len)) == 0
  {
    Turn(0, len / 64, 64);
  }

  lemma Added(a: nat, b: nat)
    requires Off(a) == 0
    ensures Off(a + b) == Off(b) && Off(b) < 64 && (b < 64 ==> Off(b) == b) && Off(64) == 0
  {
    Turn(b, a / 64, 64);
  }

  lemma Counted(len: nat, more: nat)
    ensures Counter(Counter(len) + more) == Counter(len + more) && Off(Counter(len)) == Off(len)
  {
    var q, r := len / WORD64, len % WORD64;
    Turn(r + more, q, WORD64);
    assert len == r + q * WORD64 == r + (q * (WORD64 / 64)) * 64;
    Turn(r, q * (WORD64 / 64), 64);
  }

  lemma Eightfold(len: nat)
    ensures Counter(Counter(len) * 8) == Counter(len * 8)
  {
    var q, r := len / WORD64, len % WORD64;
    assert len * 8 == r * 8 + (q * 8) * WORD64;
    Turn(r * 8, q * 8, WORD64);
  }

  // What has come in whole blocks, and what is still in the buffer.
  function Done(m: seq<Byte>): seq<Byte> {
    m[..|m| - Off(|m|)]
  }

  function Left(m: seq<Byte>): seq<Byte> {
    m[|m| - Off(|m|)..]
  }

  lemma Parts(m: seq<Byte>)
    ensures m == Done(m) + Left(m) && Off(|Done(m)|) == 0 && |Left(m)| == Off(|m|) < 64
  {
    Aligned(|m|);
  }

  // Any cut into whole blocks and a rest is that one.
  lemma PartsAre(s: seq<Byte>, t: seq<Byte>)
    requires Off(|s|) == 0 && |t| < 64
    ensures Done(s + t) == s && Left(s + t) == t
  {
    Added(|s|, |t|);
  }

  lemma Cut(m: seq<Byte>, data: seq<Byte>, k: nat)
    requires k <= |data|
    ensures m + data == m + data[..k] + data[k..]
  {
  }

  // Whole blocks are left.
  ghost predicate Whole(data: seq<Byte>, p: nat) {
    p <= |data| && Off(|data| - p) == 0
  }

  lemma FoldStart(alg: Algorithm, w: Words, data: seq<Byte>)
    requires Off(|data|) == 0
    ensures Whole(data, 0) && data[0..] == data
  {
  }

  lemma FoldStep(alg: Algorithm, w: Words, data: seq<Byte>, p: nat)
    requires |w| == Width(alg) && Whole(data, p) && p < |data|
    ensures p + 64 <= |data| && Whole(data, p + 64)
    ensures Fold(alg, w, data[p..]) == Fold(alg, Compress(alg, w, data[p..p + 64]), data[p + 64..])
  {
    hide Compress;
    assert data[p..][..64] == data[p..p + 64] && data[p..][64..] == data[p + 64..];
  }

  lemma CompressIs(alg: Algorithm, w: Words, p: Block)
    requires |w| == Width(alg)
    ensures alg.MD5? ==> |w| == 4 && Compress(alg, w, p) == Md5.Compress(w, p)
    ensures alg.SHA1? ==> |w| == 5 && Compress(alg, w, p) == Sha1.Compress(w, p)
  {
    hide Md5.Compress, Sha1.Compress;
  }

  lemma FoldEnd(alg: Algorithm, w: Words, data: seq<Byte>)
    requires |w| == Width(alg)
    ensures |data| < 64 ==> Fold(alg, w, data) == w
  {
    hide Compress;
  }

  class Context {
    const alg: Algorithm
    var words: Words
    var bytes: nat
    const buffer: array<Byte>
    ghost var message: seq<Byte>

    ghost predicate Valid()
      reads this, buffer
    {
      && buffer.Length == 64 && bytes == Counter(|message|)
      && words == Fold(alg, Init(alg), Done(message)) && buffer[..Off(|message|)] == Left(message)
    }

    // ngx_md5_init, ngx_sha1_init
    constructor (alg: Algorithm)
      ensures Valid() && this.alg == alg && message == [] && fresh(buffer)
    {
      this.alg := alg;
      words := Init(alg);
      bytes := 0;
      buffer := new Byte[64];
      message := [];
    }

    // memcpy into the buffer
    method CopyIn(at: nat, data: seq<Byte>)
      requires buffer.Length == 64 && at + |data| <= 64
      modifies buffer
      ensures buffer[..at + |data|] == old(buffer[..at]) + data
    {
      var i := 0;
      while i < |data|
        invariant i <= |data| && buffer[..at + i] == old(buffer[..at]) + data[..i]
      {
        buffer[at + i] := data[i];
        i := i + 1;
      }
    }

    // ngx_md5_body, ngx_sha1_body: one block after the other
    method Body(data: seq<Byte>)
      requires Off(|data|) == 0 && |words| == Width(alg)
      modifies `words
      ensures |words| == Width(alg) && words == Fold(alg, old(words), data)
    {
      hide Fold, Compress, Off, Md5.Compress, Sha1.Compress;
      var p := 0;
      FoldStart(alg, words, data);
      while p < |data|
        invariant p <= |data| && Whole(data, p) && |words| == Width(alg)
        invariant Fold(alg, words, data[p..]) == Fold(alg, old(words), data)
      {
        FoldStep(alg, words, data, p);
        var block := data[p..p + 64];
        CompressIs(alg, words, block);
        var w;
        if alg.MD5? {
          w := Md5.Body(words, block);
        } else {
          w := Sha1.Body(words, block);
        }
        words := w;
        p := p + 64;
      }
      FoldEnd(alg, words, data[p..]);
    }

    // The buffer is full once `data` is in it, and goes through the block function.
    method Flush(used: nat, data: seq<Byte>, ghost m: seq<Byte>, ghost left: seq<Byte>)
      requires buffer.Length == 64 && used + |data| == 64 && Off(|m|) == 0
      requires words == Fold(alg, Init(alg), m) && buffer[..used] == left
      modifies `words, buffer
      ensures words == Fold(alg, Init(alg), m + left + data) && |m + left + data| == |m| + 64
    {
      hide Fold;
      CopyIn(used, data);
      assert buffer[..] == buffer[..64] == left + data;
      FoldAppend(alg, Init(alg), m, left + data);
      assert m + (left + data) == m + left + data;
      Body(buffer[..]);
    }

    // The rest of the data, when the buffer is empty.
    method Absorb(data0: seq<Byte>, ghost m0: seq<Byte>)
      requires buffer.Length == 64 && Off(|m0|) == 0 && words == Fold(alg, Init(alg), m0)
      requires message == m0 + data0 && bytes == Counter(|message|)
      modifies `words, buffer
      ensures Valid()
    {
      hide Fold, Done, Left, Off, Counter, LittleEndian, Reversed, Padded;
      var data, size := data0, |data0|;
      ghost var m := m0;
      if size >= 64 {
        var whole := size - Off(size);
        Aligned(size);
        Added(|m|, whole);
        FoldAppend(alg, Init(alg), m, data[..whole]);
        Body(data[..whole]);
        Cut(m0, data0, whole);
        m := m + data[..whole];
        data := data[whole..];
        size := Off(size);
      }
      CopyIn(0, data);
      Added(|m|, |data|);
      assert message == m + data && buffer[..|data|] == data;
      PartsAre(m, data);
    }

    // ngx_md5_update, ngx_sha1_update
    method Update(data: seq<Byte>)
      requires Valid()
      modifies this, buffer
      ensures Valid() && message == old(message) + data
    {
      hide Fold, Done, Left, Off, Counter;
      ghost var m := message;
      Parts(m);
      Counted(|m|, |data|);
      var used := Off(bytes);
      bytes := Counter(bytes + |data|);
      message := m + data;
      if used == 0 {
        Rounded(m);
        Absorb(data, m);
        return;
      }
      var room := 64 - used;
      if |data| < room {
        CopyIn(used, data);
        Added(|Done(m)|, used + |data|);
        assert message == Done(m) + (Left(m) + data);
        PartsAre(Done(m), Left(m) + data);
        return;
      }
      Flush(used, data[..room], Done(m), Left(m));
      assert message == Done(m) + Left(m) + data[..room] + data[room..];
      Added(|Done(m)|, 64);
      Absorb(data[room..], Done(m) + Left(m) + data[..room]);
    }

    // ngx_md5_final, ngx_sha1_final
    method Final() returns (result: seq<Byte>)
      requires Valid()
      modifies this, buffer
      ensures Stores(alg.SHA1?, result, Digest(alg, old(message)))
    {
      hide Fold, Done, Left, LengthBytes, Off, Counter, Padded;
      ghost var m := message;
      Counted(|m|, 0);
      Parts(m);
      LengthOfBytes(alg, |m|);
      var used := Off(bytes);
      CopyIn(used, [0x80]);
      used := used + 1;
      var room := 64 - used;
      ghost var done, left := Done(m), Left(m) + [0x80];
      if room < 8 {
        Flush(used, Zeros(room), done, left);
        Added(|done|, 64);
        done, left := done + left + Zeros(room), [];
        used := 0;
        room := 64;
      }
      PutLength(used, left, |m|);
      FoldAppend(alg, Init(alg), done, buffer[..]);
      PaddedParts(alg, m, done + buffer[..]);
      Added(|done|, 64);
      Body(buffer[..]);
      result := Store(alg.SHA1?, words);
    }

    // Zeros, and the length in the last eight bytes of the buffer
    method PutLength(used: nat, ghost left: seq<Byte>, ghost len: nat)
      requires buffer.Length == 64 && used <= 56 && buffer[..used] == left && bytes == Counter(len)
      modifies `bytes, buffer
      ensures buffer[..] == left + Zeros(56 - used) + LengthBytes(alg, len)
    {
      CopyIn(used, Zeros(56 - used));
      Eightfold(len);
      bytes := Counter(bytes * 8);
      LengthOfBytes(alg, len);
      ghost var all := LittleEndian(bytes, 8);
      LittleLength(bytes, 8);
      var x, i := bytes, 0;
      while i < 8
        invariant i <= 8 && buffer[..56] == left + Zeros(56 - used) && all[i..] == LittleEndian(x, 8 - i)
        invariant forall j :: 0 <= j < i ==> buffer[if alg.SHA1? then 63 - j else 56 + j] == all[j]
      {
        assert all[i] == x % 256 && all[i + 1..] == LittleEndian(x / 256, 8 - (i + 1)) by {
          assert all[i..][1..] == all[i + 1..];
        }
        buffer[if alg.SHA1? then 63 - i else 56 + i] := x % 256;
        x := x / 256;
        i := i + 1;
      }
      Backwards(alg, all, buffer[56..]);
      assert buffer[..] == buffer[..56] + buffer[56..];
    }
  }

  lemma Backwards(alg: Algorithm, all: seq<Byte>, s: seq<Byte>)
    requires |all| == |s| == 8 && forall j :: 0 <= j < 8 ==> s[if alg.SHA1? then 7 - j else j] == all[j]
    ensures s == if alg.SHA1? then Reversed(all) else all
  {
    if alg.SHA1? {
      ReversedLength(all);
      forall k | 0 <= k < 8
        ensures s[k] == Reversed(all)[k]
      {
        ReversedAt(all, k);
        assert s[if alg.SHA1? then 7 - (7 - k) else 7 - k] == all[7 - k];
      }
    }
  }

  lemma {:induction false} ReversedAt(s: seq<Byte>, k: nat)
    requires k < |s|
    ensures |Reversed(s)| == |s| && Reversed(s)[k] == s[|s| - 1 - k]
  {
    ReversedLength(s[1..]);
    if k < |s| - 1 {
      ReversedAt(s[1..], k);
    }
  }

  // What Final has put together is the padded message.
  lemma PaddedParts(alg: Algorithm, m: seq<Byte>, all: seq<Byte>)
    requires
      var used := Off(|m|) + 1;
      if 64 - used < 8 then all == Done(m) + (Left(m) + [0x80]) + Zeros(64 - used)
      + ([] + Zeros(56) + LengthBytes(alg, |m|))
      else all == Done(m) + ((Left(m) + [0x80]) + Zeros(56 - used) + LengthBytes(alg, |m|))
    ensures all == Padded(alg, m)
  {
    hide LengthBytes;
    Parts(m);
    if 63 - Off(|m|) < 8 {
      assert Zeros(63 - Off(|m|)) + Zeros(56) == Zeros((119 - Off(|m|)) % 64);
    }
  }

  lemma Rounded(m: seq<Byte>)
    ensures Off(|m|) == 0 ==> Done(m) == m && Left(m) == []
  {
  }

  // The padded message is whole blocks.
  lemma PaddedWhole(alg: Algorithm, m: seq<Byte>)
    ensures Off(|Padded(alg, m)|) == 0
  {
    hide LengthBytes;
    LengthOfBytes(alg, |m|);
    var used, q := |m| % 64, |m| / 64;
    if used <= 55 {
      Turn(0, q + 1, 64);
      assert |Padded(alg, m)| == 64 * (q + 1);
    } else {
      Turn(0, q + 2, 64);
      assert |Padded(alg, m)| == 64 * (q + 2);
    }
  }

  function Joined(pieces: seq<seq<Byte>>): seq<Byte> {
    if pieces == [] then [] else Joined(pieces[..|pieces| - 1]) + pieces[|pieces| - 1]
  }

  // However a message is cut into pieces, the digest is that of the whole.
  method Hash(alg: Algorithm, pieces: seq<seq<Byte>>) returns (result: seq<Byte>)
    ensures Stores(alg.SHA1?, result, Digest(alg, Joined(pieces)))
  {
    hide Digest, Stores;
    var ctx := new Context(alg);
    var i := 0;
    while i < |pieces|
      invariant i <= |pieces| && ctx.Valid() && ctx.alg == alg && ctx.message == Joined(pieces[..i])
      invariant fresh(ctx) && fresh(ctx.buffer)
    {
      assert pieces[..i + 1][..i] == pieces[..i];
      ctx.Update(pieces[i]);
      i := i + 1;
    }
    assert pieces[..i] == pieces;
    result := ctx.Final();
  }
}
