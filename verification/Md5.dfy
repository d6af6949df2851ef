// The block function of MD5: the four rounds as ngx_md5_body writes them out, with the round
// functions in a cheaper form, against the indexed definition in section 3.4 of RFC 1321.

module Md5 {
  import opened ByteStrings
  import opened HashWords

  datatype Regs = Regs(a: bv32, b: bv32, c: bv32, d: bv32)

  // The words and constants in the order of the 64 steps
  const INDEX: seq<seq<nat>> := [
    [0, 1, 2, 3, 4, 5, 6, 7, 8, 9, 10, 11, 12, 13, 14, 15],
    [1, 6, 11, 0, 5, 10, 15, 4, 9, 14, 3, 8, 13, 2, 7, 12],
    [5, 8, 11, 14, 1, 4, 7, 10, 13, 0, 3, 6, 9, 12, 15, 2],
    [0, 7, 14, 5, 12, 3, 10, 1, 8, 15, 6, 13, 4, 11, 2, 9]
  ]

  // The constants of each round
  const T: seq<seq<bv32>> := [
    [0xd76aa478, 0xe8c7b756, 0x242070db, 0xc1bdceee, 0xf57c0faf, 0x4787c62a, 0xa8304613, 0xfd469501,
     0x698098d8, 0x8b44f7af, 0xffff5bb1, 0x895cd7be, 0x6b901122, 0xfd987193, 0xa679438e, 0x49b40821],
    [0xf61e2562, 0xc040b340, 0x265e5a51, 0xe9b6c7aa, 0xd62f105d, 0x02441453, 0xd8a1e681, 0xe7d3fbc8,
     0x21e1cde6, 0xc33707d6, 0xf4d50d87, 0x455a14ed, 0xa9e3e905, 0xfcefa3f8, 0x676f02d9, 0x8d2a4c8a],
    [0xfffa3942, 0x8771f681, 0x6d9d6122, 0xfde5380c, 0xa4beea44, 0x4bdecfa9, 0xf6bb4b60, 0xbebfbc70,
     0x289b7ec6, 0xeaa127fa, 0xd4ef3085, 0x04881d05, 0xd9d4d039, 0xe6db99e5, 0x1fa27cf8, 0xc4ac5665],
    [0xf4292244, 0x432aff97, 0xab9423a7, 0xfc93a039, 0x655b59c3, 0x8f0ccc92, 0xffeff47d, 0x85845dd1,
     0x6fa87e4f, 0xfe2ce6e0, 0xa3014314, 0x4e0811a1, 0xf7537e82, 0xbd3af235, 0x2ad7d2bb, 0xeb86d391]
  ]

  // The shifts of each round
  const SHIFTS: seq<seq<nat>> := [[7, 12, 17, 22], [5, 9, 14, 20], [4, 11, 16, 23], [6, 10, 15, 21]]

  // -------- the round functions --------

  // As in ngx_md5.c
  function Mix(round: nat, x: bv32, y: bv32, z: bv32): bv32 {
    if round == 0 then z ^ (x & (y ^ z))
    else if round == 1 then y ^ (z & (x ^ y))
    else if round == 2 then x ^ y ^ z
    else y ^ (x | !z)
  }

  // As in the RFC
  function RoundFunction(round: nat, x: bv32, y: bv32, z: bv32): bv32 {
    if round == 0 then (x & y) | (!x & z)
    else if round == 1 then (x & z) | (y & !z)
    else if round == 2 then x ^ y ^ z
    else y ^ (x | !z)
  }

  lemma MixRight(round: nat, x: bv32, y: bv32, z: bv32)
    ensures Mix(round, x, y, z) == RoundFunction(round, x, y, z)
  {
    MixF(x, y, z);
    MixF(z, x, y);
  }

  lemma MixF(x: bv32, y: bv32, z: bv32)
    ensures z ^ (x & (y ^ z)) == (x & y) | (!x & z)
  {
  }

  // -------- the definition --------

  function Constant(i: nat): bv32
    requires i < 64
  {
    T[i / 16][i % 16]
  }

  // The word that step i adds
  function WordOf(i: nat): (k: nat)
    ensures k < 16
  {
    if i < 16 then i else if i < 32 then (5 * i + 1) % 16 else if i < 48 then (3 * i + 5) % 16 else 7 * i % 16
  }

  function Plus(a: bv32, b: bv32, c: bv32, d: bv32): bv32 {
    a + b + c + d
  }

  // One step, after which the registers have moved on by one.
  function Step(r: Regs, x: seq<bv32>, i: nat): Regs
    requires |x| == 16 && i < 64
  {
    Regs(r.d,
         Sum(r.b, Rotate(Plus(r.a, RoundFunction(i / 16, r.b, r.c, r.d), x[WordOf(i)], Constant(i)), Amount(i))),
         r.b, r.c)
  }

  function Steps(r: Regs, x: seq<bv32>, n: nat): Regs
    requires |x| == 16 && n <= 64
  {
    if n == 0 then r else Step(Steps(r, x, n - 1), x, n - 1)
  }

  // The words of a block, the low byte first
  function X(p: Block): (x: seq<bv32>)
    ensures |x| == 16
  {
    seq(16, n requires 0 <= n < 16 => WordAt(false, p, n))
  }

  function Compress(w: Words, p: Block): (w': Words)
    requires |w| == 4
    ensures |w'| == 4
  {
    var r := Steps(Regs(w[0], w[1], w[2], w[3]), X(p), 64);
    [Sum(w[0], r.a), Sum(w[1], r.b), Sum(w[2], r.c), Sum(w[3], r.d)]
  }

  const INIT: Words := [0x67452301, 0xefcdab89, 0x98badcfe, 0x10325476]

  // -------- ngx_md5_body --------

  lemma IndexRight(r: nat, k: nat)
    requires r < 4 && k < 16
    ensures INDEX[r][k] == WordOf(16 * r + k)
  {
    Sixteen(k);
    assert r == 0 || r == 1 || r == 2 || r == 3;
  }

  // The word and the shift the code names in step i
  function Named(i: nat): (k: nat)
    requires i < 64
    ensures k == WordOf(i) < 16
  {
    IndexRight(i / 16, i % 16);
    INDEX[i / 16][i % 16]
  }

  function Amount(i: nat): (s: nat)
    requires i < 64
    ensures 0 < s < 32
  {
    SHIFTS[i / 16][i % 4]
  }

  // The STEP macro, with the word, constant and shift of step i
  function Stepped(round: nat, a: bv32, b: bv32, c: bv32, d: bv32, x: seq<bv32>, i: nat): bv32
    requires |x| == 16 && i < 64
  {
    Sum(b, Rotate(Plus(a, Mix(round, b, c, d), x[Named(i)], Constant(i)), Amount(i)))
  }

  lemma OneStep(r: Regs, x: seq<bv32>, i: nat)
    requires |x| == 16 && i < 64
    ensures Step(r, x, i) == Regs(r.d, Stepped(i / 16, r.a, r.b, r.c, r.d, x, i), r.b, r.c)
  {
    hide Rotate, Plus, Sum, Mix, RoundFunction, Named, Amount, Constant, WordOf;
    MixRight(i / 16, r.b, r.c, r.d);
  }

  // Four steps with the registers standing still, as the code has them.
  method Quad(r: Regs, x: seq<bv32>, q: nat) returns (r': Regs)
    requires |x| == 16 && q < 16
    ensures r' == Step(Step(Step(Step(r, x, 4 * q), x, 4 * q + 1), x, 4 * q + 2), x, 4 * q + 3)
  {
    hide Step, Stepped, Named, Amount, Constant, WordOf;
    var i, round := 4 * q, q / 4;
    ghost var r1 := Step(r, x, i);
    ghost var r2 := Step(r1, x, i + 1);
    ghost var r3 := Step(r2, x, i + 2);
    OneStep(r, x, i);
    OneStep(r1, x, i + 1);
    OneStep(r2, x, i + 2);
    OneStep(r3, x, i + 3);
    var a, b, c, d := r.a, r.b, r.c, r.d;
    a := Stepped(round, a, b, c, d, x, i);
    d := Stepped(round, d, a, b, c, x, i + 1);
    c := Stepped(round, c, d, a, b, x, i + 2);
    b := Stepped(round, b, c, d, a, x, i + 3);
    r' := Regs(a, b, c, d);
  }

  method Body(w: Words, p: Block) returns (w': Words)
    requires |w| == 4
    ensures w' == Compress(w, p)
  {
    hide Step, X, Sum;
    var x := X(p);
    var r := Regs(w[0], w[1], w[2], w[3]);
    ghost var r0 := r;
    var q := 0;
    StepsNone(r, x);
    while q < 16
      invariant q <= 16 && r == Steps(r0, x, 4 * q)
    {
      FourSteps(r0, x, 4 * q);
      r := Quad(r, x, q);
      q := q + 1;
    }
    w' := [Sum(w[0], r.a), Sum(w[1], r.b), Sum(w[2], r.c), Sum(w[3], r.d)];
  }

  lemma StepsNone(r: Regs, x: seq<bv32>)
    requires |x| == 16
    ensures Steps(r, x, 0) == r
  {
  }

  lemma FourSteps(r: Regs, x: seq<bv32>, n: nat)
    requires |x| == 16 && n + 4 <= 64
    ensures Steps(r, x, n + 4) == Step(Step(Step(Step(Steps(r, x, n), x, n), x, n + 1), x, n + 2), x, n + 3)
  {
    hide Step;
    var s1, s2, s3 := Steps(r, x, n + 1), Steps(r, x, n + 2), Steps(r, x, n + 3);
    assert s2 == Step(s1, x, n + 1) && s3 == Step(s2, x, n + 2);
  }
}
