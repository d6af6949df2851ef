// The block function of SHA-1: ngx_sha1_body against section 6.1 of RFC 3174.

module Sha1 {
  import opened HashWords

  datatype Regs = Regs(a: bv32, b: bv32, c: bv32, d: bv32, e: bv32)

  // -------- the definition --------

  function Xor4(a: bv32, b: bv32, c: bv32, d: bv32): bv32 {
    a ^ b ^ c ^ d
  }

  // The message schedule; the words of a block have their high byte first.
  function W(p: Block, t: nat): bv32 {
    if t < 16 then WordAt(true, p, t)
    else Rotate(Xor4(W(p, t - 3), W(p, t - 8), W(p, t - 14), W(p, t - 16)), 1)
  }

  function RoundFunction(t: nat, b: bv32, c: bv32, d: bv32): bv32 {
    if t < 20 then (b & c) | (!b & d)
    else if 40 <= t < 60 then (b & c) | (b & d) | (c & d)
    else b ^ c ^ d
  }

  function K(t: nat): bv32 {
    if t < 20 then 0x5a827999 else if t < 40 then 0x6ed9eba1 else if t < 60 then 0x8f1bbcdc else 0xca62c1d6
  }

  // The STEP macro
  function Step(r: Regs, f: bv32, w: bv32, k: bv32): Regs {
    var temp := Sum(Sum(Sum(Sum(Rotate(r.a, 5), f), r.e), w), k);
    Regs(temp, r.a, Rotate(r.b, 30), r.c, r.d)
  }

  function Steps(r: Regs, p: Block, n: nat): Regs {
    if n == 0 then r
    else
      var s := Steps(r, p, n - 1);
      Step(s, RoundFunction(n - 1, s.b, s.c, s.d), W(p, n - 1), K(n - 1))
  }

  function Compress(w: Words, p: Block): (w': Words)
    requires |w| == 5
    ensures |w'| == 5
  {
    var r := Steps(Regs(w[0], w[1], w[2], w[3], w[4]), p, 80);
    [Sum(w[0], r.a), Sum(w[1], r.b), Sum(w[2], r.c), Sum(w[3], r.d), Sum(w[4], r.e)]
  }

  const INIT: Words := [0x67452301, 0xefcdab89, 0x98badcfe, 0x10325476, 0xc3d2e1f0]

  // -------- ngx_sha1_body --------

  method Schedule(p: Block) returns (words: array<bv32>)
    ensures fresh(words) && words.Length == 80
    ensures forall t :: 0 <= t < 80 ==> words[t] == W(p, t)
  {
    hide WordAt, Xor4, Rotate;
    words := new bv32[80];
    var i := 0;
    while i < 16
      invariant i <= 16 && forall t :: 0 <= t < i ==> words[t] == W(p, t)
    {
      words[i] := WordAt(true, p, i);
      i := i + 1;
    }
    while i < 80
      invariant 16 <= i <= 80 && forall t :: 0 <= t < i ==> words[t] == W(p, t)
    {
      words[i] := Rotate(Xor4(words[i - 3], words[i - 8], words[i - 14], words[i - 16]), 1);
      i := i + 1;
    }
  }

  // The steps are written out one by one in the code.
  method Body(w: Words, p: Block) returns (w': Words)
    requires |w| == 5
    ensures w' == Compress(w, p)
  {
    hide W, RoundFunction, Step, Sum;
    var words := Schedule(p);
    var r := Regs(w[0], w[1], w[2], w[3], w[4]);
    ghost var r0 := r;
    var t := 0;
    while t < 80
      invariant t <= 80 && r == Steps(r0, p, t)
    {
      r := Step(r, RoundFunction(t, r.b, r.c, r.d), words[t], K(t));
      t := t + 1;
    }
    w' := [Sum(w[0], r.a), Sum(w[1], r.b), Sum(w[2], r.c), Sum(w[3], r.d), Sum(w[4], r.e)];
  }
}
