// Published digests: MD5 of the alphabet (section A.5 of RFC 1321) and SHA-1 of "abc" (section
// 7.3 of RFC 3174), register by register. They fix the constants and functions that the block
// functions share with their definitions.

module DigestVectors {
  import opened ByteStrings
  import opened HashWords
  import opened BlockHash
  import Md5
  import Sha1

  // A short message in the only block of its padded form
  lemma PaddedBlock(alg: Algorithm, m: seq<Byte>)
    requires |m| < 32
    ensures
      var p := Padded(alg, m);
      && |p| == 64 && p[|m|] == 0x80
      && (forall i :: 0 <= i < |m| ==> p[i] == m[i])
      && (forall i :: |m| < i < 56 ==> p[i] == 0)
      && (forall i :: 56 <= i < 64 ==> p[i] == if i == (if alg.SHA1? then 63 else 56) then 8 * |m| else 0)
  {
    hide LengthBytes;
    LengthFacts(alg, |m|);
    assert Off(|m|) == |m| && (119 - |m|) % 64 == 55 - |m|;
  }

  lemma LengthFacts(alg: Algorithm, len: nat)
    requires len < 32
    ensures
      var s := LengthBytes(alg, len);
      |s| == 8 && forall i :: 0 <= i < 8 ==> s[i] == if i == (if alg.SHA1? then 7 else 0) then 8 * len else 0
  {
    hide Reversed;
    var x := 8 * len;
    assert Counter(len * 8) == x && x % 256 == x && x / 256 == 0;
    NoHighBytes(7);
    assert LittleEndian(x, 8) == [x] + Zeros(7);
    ZerosReversed(7);
    LastReversed(x, Zeros(7));
  }

  lemma {:induction false} NoHighBytes(n: nat)
    ensures LittleEndian(0, n) == Zeros(n)
  {
    if n > 0 {
      NoHighBytes(n - 1);
      assert Zeros(n) == [0] + Zeros(n - 1);
    }
  }

  lemma LastReversed(x: Byte, s: seq<Byte>)
    ensures Reversed([x] + s) == Reversed(s) + [x]
  {
    assert ([x] + s)[1..] == s;
  }

  lemma {:induction false} ZerosReversed(n: nat)
    ensures Reversed(Zeros(n)) == Zeros(n)
  {
    if n > 0 {
      ZerosReversed(n - 1);
      assert Zeros(n)[1..] == Zeros(n - 1) && Zeros(n) == Zeros(n - 1) + [0];
    }
  }

  // -------- MD5 --------

  const ALPHABET: seq<Byte> := [
    0x61, 0x62, 0x63, 0x64, 0x65, 0x66, 0x67, 0x68, 0x69, 0x6a, 0x6b, 0x6c, 0x6d,
    0x6e, 0x6f, 0x70, 0x71, 0x72, 0x73, 0x74, 0x75, 0x76, 0x77, 0x78, 0x79, 0x7a
  ]

  const LETTERS: seq<bv32> := [
    0x64636261, 0x68676665, 0x6c6b6a69, 0x706f6e6d, 0x74737271, 0x78777675, 0x00807a79, 0x00000000,
    0x00000000, 0x00000000, 0x00000000, 0x00000000, 0x00000000, 0x00000000, 0x000000d0, 0x00000000
  ]

  // Step i adds this word and this constant and turns by this amount.
  ghost predicate Uses(i: nat, w: bv32, t: bv32, s: nat) {
    i < 64 && LETTERS[Md5.WordOf(i)] == w && Md5.Constant(i) == t && Md5.Amount(i) == s
  }

  // The registers after n steps
  ghost predicate Md5At(n: nat, r: Md5.Regs) {
    n <= 64 && Md5.Steps(Md5.Regs(0x67452301, 0xefcdab89, 0x98badcfe, 0x10325476), LETTERS, n) == r
  }

  // One more step, after which the second register is v
  lemma Md5Next(r: Md5.Regs, i: nat, w: bv32, t: bv32, s: nat, v: bv32) returns (r': Md5.Regs)
    requires Md5At(i, r) && Uses(i, w, t, s) && 0 < s < 32
    requires v == Sum(r.b, Rotate(Md5.Plus(r.a, Md5.RoundFunction(i / 16, r.b, r.c, r.d), w, t), s))
    ensures r' == Md5.Regs(r.d, v, r.b, r.c) && Md5At(i + 1, r')
  {
    hide Sum, Rotate, Md5.Plus, Md5.RoundFunction, Md5.WordOf, Md5.Amount, Md5.Constant;
    r' := Md5.Regs(r.d, v, r.b, r.c);
  }

  lemma Uses0()
    ensures Uses(0, 0x64636261, 0xd76aa478, 7)
    ensures Uses(1, 0x68676665, 0xe8c7b756, 12)
    ensures Uses(2, 0x6c6b6a69, 0x242070db, 17)
    ensures Uses(3, 0x706f6e6d, 0xc1bdceee, 22)
  {
  }

  lemma Uses1()
    ensures Uses(4, 0x74737271, 0xf57c0faf, 7)
    ensures Uses(5, 0x78777675, 0x4787c62a, 12)
    ensures Uses(6, 0x00807a79, 0xa8304613, 17)
    ensures Uses(7, 0x00000000, 0xfd469501, 22)
  {
  }

  lemma Uses2()
    ensures Uses(8, 0x00000000, 0x698098d8, 7)
    ensures Uses(9, 0x00000000, 0x8b44f7af, 12)
    ensures Uses(10, 0x00000000, 0xffff5bb1, 17)
    ensures Uses(11, 0x00000000, 0x895cd7be, 22)
  {
  }

  lemma Uses3()
    ensures Uses(12, 0x00000000, 0x6b901122, 7)
    ensures Uses(13, 0x00000000, 0xfd987193, 12)
    ensures Uses(14, 0x000000d0, 0xa679438e, 17)
    ensures Uses(15, 0x00000000, 0x49b40821, 22)
  {
  }

  lemma Uses4()
    ensures Uses(16, 0x68676665, 0xf61e2562, 5)
    ensures Uses(17, 0x00807a79, 0xc040b340, 9)
    ensures Uses(18, 0x00000000, 0x265e5a51, 14)
    ensures Uses(19, 0x64636261, 0xe9b6c7aa, 20)
  {
  }

  lemma Uses5()
    ensures Uses(20, 0x78777675, 0xd62f105d, 5)
    ensures Uses(21, 0x00000000, 0x02441453, 9)
    ensures Uses(22, 0x00000000, 0xd8a1e681, 14)
    ensures Uses(23, 0x74737271, 0xe7d3fbc8, 20)
  {
  }

  lemma Uses6()
    ensures Uses(24, 0x00000000, 0x21e1cde6, 5)
    ensures Uses(25, 0x000000d0, 0xc33707d6, 9)
    ensures Uses(26, 0x706f6e6d, 0xf4d50d87, 14)
    ensures Uses(27, 0x00000000, 0x455a14ed, 20)
  {
  }

  lemma Uses7()
    ensures Uses(28, 0x00000000, 0xa9e3e905, 5)
    ensures Uses(29, 0x6c6b6a69, 0xfcefa3f8, 9)
    ensures Uses(30, 0x00000000, 0x676f02d9, 14)
    ensures Uses(31, 0x00000000, 0x8d2a4c8a, 20)
  {
  }

  lemma Uses8()
    ensures Uses(32, 0x78777675, 0xfffa3942, 4)
    ensures Uses(33, 0x00000000, 0x8771f681, 11)
    ensures Uses(34, 0x00000000, 0x6d9d6122, 16)
    ensures Uses(35, 0x000000d0, 0xfde5380c, 23)
  {
  }

  lemma Uses9()
    ensures Uses(36, 0x68676665, 0xa4beea44, 4)
    ensures Uses(37, 0x74737271, 0x4bdecfa9, 11)
    ensures Uses(38, 0x00000000, 0xf6bb4b60, 16)
    ensures Uses(39, 0x00000000, 0xbebfbc70, 23)
  {
  }

  lemma Uses10()
    ensures Uses(40, 0x00000000, 0x289b7ec6, 4)
    ensures Uses(41, 0x64636261, 0xeaa127fa, 11)
    ensures Uses(42, 0x706f6e6d, 0xd4ef3085, 16)
    ensures Uses(43, 0x00807a79, 0x04881d05, 23)
  {
  }

  lemma Uses11()
    ensures Uses(44, 0x00000000, 0xd9d4d039, 4)
    ensures Uses(45, 0x00000000, 0xe6db99e5, 11)
    ensures Uses(46, 0x00000000, 0x1fa27cf8, 16)
    ensures Uses(47, 0x6c6b6a69, 0xc4ac5665, 23)
  {
  }

  lemma Uses12()
    ensures Uses(48, 0x64636261, 0xf4292244, 6)
    ensures Uses(49, 0x00000000, 0x432aff97, 10)
    ensures Uses(50, 0x000000d0, 0xab9423a7, 15)
    ensures Uses(51, 0x78777675, 0xfc93a039, 21)
  {
  }

  lemma Uses13()
    ensures Uses(52, 0x00000000, 0x655b59c3, 6)
    ensures Uses(53, 0x706f6e6d, 0x8f0ccc92, 10)
    ensures Uses(54, 0x00000000, 0xffeff47d, 15)
    ensures Uses(55, 0x68676665, 0x85845dd1, 21)
  {
  }

  lemma Uses14()
    ensures Uses(56, 0x00000000, 0x6fa87e4f, 6)
    ensures Uses(57, 0x00000000, 0xfe2ce6e0, 10)
    ensures Uses(58, 0x00807a79, 0xa3014314, 15)
    ensures Uses(59, 0x00000000, 0x4e0811a1, 21)
  {
  }

  lemma Uses15()
    ensures Uses(60, 0x74737271, 0xf7537e82, 6)
    ensures Uses(61, 0x00000000, 0xbd3af235, 10)
    ensures Uses(62, 0x6c6b6a69, 0x2ad7d2bb, 15)
    ensures Uses(63, 0x00000000, 0xeb86d391, 21)
  {
  }

  lemma Md5Steps0(r0: Md5.Regs) returns (r: Md5.Regs)
    requires Md5At(0, r0) && r0 == Md5.Regs(0x67452301, 0xefcdab89, 0x98badcfe, 0x10325476)
    ensures Md5At(8, r) && r == Md5.Regs(0xfe15f787, 0xda9bbb0d, 0xb71122fc, 0xa811b278)
  {
    hide Md5At, Uses;
    Uses0();
    Uses1();
    r := r0;
    r := Md5Next(r, 0, 0x64636261, 0xd76aa478, 7, 0xd6d117a6);
    r := Md5Next(r, 1, 0x68676665, 0xe8c7b756, 12, 0xaab1aaaa);
    r := Md5Next(r, 2, 0x6c6b6a69, 0x242070db, 17, 0x227d8cf1);
    r := Md5Next(r, 3, 0x706f6e6d, 0xc1bdceee, 22, 0x4503b812);
    r := Md5Next(r, 4, 0x74737271, 0xf57c0faf, 7, 0xfe15f787);
    r := Md5Next(r, 5, 0x78777675, 0x4787c62a, 12, 0xa811b278);
    r := Md5Next(r, 6, 0x00807a79, 0xa8304613, 17, 0xb71122fc);
    r := Md5Next(r, 7, 0x00000000, 0xfd469501, 22, 0xda9bbb0d);
  }

  lemma Md5Steps1(r0: Md5.Regs) returns (r: Md5.Regs)
    requires Md5At(8, r0) && r0 == Md5.Regs(0xfe15f787, 0xda9bbb0d, 0xb71122fc, 0xa811b278)
    ensures Md5At(16, r) && r == Md5.Regs(0x1754a316, 0x608d6b7e, 0x00df74d5, 0x85567d90)
  {
    hide Md5At, Uses;
    Uses2();
    Uses3();
    r := r0;
    r := Md5Next(r, 8, 0x00000000, 0x698098d8, 7, 0xae752899);
    r := Md5Next(r, 9, 0x00000000, 0x8b44f7af, 12, 0x2bbe757f);
    r := Md5Next(r, 10, 0x00000000, 0xffff5bb1, 17, 0x7d4bd80b);
    r := Md5Next(r, 11, 0x00000000, 0x895cd7be, 22, 0x56cfa5cb);
    r := Md5Next(r, 12, 0x00000000, 0x6b901122, 7, 0x1754a316);
    r := Md5Next(r, 13, 0x00000000, 0xfd987193, 12, 0x85567d90);
    r := Md5Next(r, 14, 0x000000d0, 0xa679438e, 17, 0x00df74d5);
    r := Md5Next(r, 15, 0x00000000, 0x49b40821, 22, 0x608d6b7e);
  }

  lemma Md5Steps2(r0: Md5.Regs) returns (r: Md5.Regs)
    requires Md5At(16, r0) && r0 == Md5.Regs(0x1754a316, 0x608d6b7e, 0x00df74d5, 0x85567d90)
    ensures Md5At(24, r) && r == Md5.Regs(0x570c43e0, 0xc9f162d4, 0xc28ab49d, 0x977efd2a)
  {
    hide Md5At, Uses;
    Uses4();
    Uses5();
    r := r0;
    r := Md5Next(r, 16, 0x68676665, 0xf61e2562, 5, 0x2d8071cc);
    r := Md5Next(r, 17, 0x00807a79, 0xc040b340, 9, 0x5dcee119);
    r := Md5Next(r, 18, 0x00000000, 0x265e5a51, 14, 0xedfe7e4b);
    r := Md5Next(r, 19, 0x64636261, 0xe9b6c7aa, 20, 0x4c2145b3);
    r := Md5Next(r, 20, 0x78777675, 0xd62f105d, 5, 0x570c43e0);
    r := Md5Next(r, 21, 0x00000000, 0x02441453, 9, 0x977efd2a);
    r := Md5Next(r, 22, 0x00000000, 0xd8a1e681, 14, 0xc28ab49d);
    r := Md5Next(r, 23, 0x74737271, 0xe7d3fbc8, 20, 0xc9f162d4);
  }

  lemma Md5Steps3(r0: Md5.Regs) returns (r: Md5.Regs)
    requires Md5At(24, r0) && r0 == Md5.Regs(0x570c43e0, 0xc9f162d4, 0xc28ab49d, 0x977efd2a)
    ensures Md5At(32, r) && r == Md5.Regs(0xf54d8710, 0xaeb35766, 0x2e69afc7, 0x927b72e2)
  {
    hide Md5At, Uses;
    Uses6();
    Uses7();
    r := r0;
    r := Md5Next(r, 24, 0x00000000, 0x21e1cde6, 5, 0x25bfae3b);
    r := Md5Next(r, 25, 0x000000d0, 0xc33707d6, 9, 0x89980104);
    r := Md5Next(r, 26, 0x706f6e6d, 0xf4d50d87, 14, 0xf8c8365f);
    r := Md5Next(r, 27, 0x00000000, 0x455a14ed, 20, 0xe6d3b398);
    r := Md5Next(r, 28, 0x00000000, 0xa9e3e905, 5, 0xf54d8710);
    r := Md5Next(r, 29, 0x6c6b6a69, 0xfcefa3f8, 9, 0x927b72e2);
    r := Md5Next(r, 30, 0x00000000, 0x676f02d9, 14, 0x2e69afc7);
    r := Md5Next(r, 31, 0x00000000, 0x8d2a4c8a, 20, 0xaeb35766);
  }

  lemma Md5Steps4(r0: Md5.Regs) returns (r: Md5.Regs)
    requires Md5At(32, r0) && r0 == Md5.Regs(0xf54d8710, 0xaeb35766, 0x2e69afc7, 0x927b72e2)
    ensures Md5At(40, r) && r == Md5.Regs(0xb9c0c733, 0x8d41bf99, 0x23a9451b, 0xf1e6dc7a)
  {
    hide Md5At, Uses;
    Uses8();
    Uses9();
    r := r0;
    r := Md5Next(r, 32, 0x78777675, 0xfffa3942, 4, 0xb4bf680e);
    r := Md5Next(r, 33, 0x00000000, 0x8771f681, 11, 0x4c8ffa80);
    r := Md5Next(r, 34, 0x00000000, 0x6d9d6122, 16, 0x2361ed0a);
    r := Md5Next(r, 35, 0x000000d0, 0xfde5380c, 23, 0x06a5e211);
    r := Md5Next(r, 36, 0x68676665, 0xa4beea44, 4, 0xb9c0c733);
    r := Md5Next(r, 37, 0x74737271, 0x4bdecfa9, 11, 0xf1e6dc7a);
    r := Md5Next(r, 38, 0x00000000, 0xf6bb4b60, 16, 0x23a9451b);
    r := Md5Next(r, 39, 0x00000000, 0xbebfbc70, 23, 0x8d41bf99);
  }

  lemma Md5Steps5(r0: Md5.Regs) returns (r: Md5.Regs)
    requires Md5At(40, r0) && r0 == Md5.Regs(0xb9c0c733, 0x8d41bf99, 0x23a9451b, 0xf1e6dc7a)
    ensures Md5At(48, r) && r == Md5.Regs(0xb5d41f9c, 0x71d10367, 0x703d54d8, 0xa04b4904)
  {
    hide Md5At, Uses;
    Uses10();
    Uses11();
    r := r0;
    r := Md5Next(r, 40, 0x00000000, 0x289b7ec6, 4, 0xa3e88ead);
    r := Md5Next(r, 41, 0x64636261, 0xeaa127fa, 11, 0x02c0b11c);
    r := Md5Next(r, 42, 0x706f6e6d, 0xd4ef3085, 16, 0x66f6468d);
    r := Md5Next(r, 43, 0x00807a79, 0x04881d05, 23, 0x90a35af5);
    r := Md5Next(r, 44, 0x00000000, 0xd9d4d039, 4, 0xb5d41f9c);
    r := Md5Next(r, 45, 0x00000000, 0xe6db99e5, 11, 0xa04b4904);
    r := Md5Next(r, 46, 0x00000000, 0x1fa27cf8, 16, 0x703d54d8);
    r := Md5Next(r, 47, 0x6c6b6a69, 0xc4ac5665, 23, 0x71d10367);
  }

  lemma Md5Steps6(r0: Md5.Regs) returns (r: Md5.Regs)
    requires Md5At(48, r0) && r0 == Md5.Regs(0xb5d41f9c, 0x71d10367, 0x703d54d8, 0xa04b4904)
    ensures Md5At(56, r) && r == Md5.Regs(0xc1e942f1, 0x83877d1b, 0x23a68048, 0xd9bb987c)
  {
    hide Md5At, Uses;
    Uses12();
    Uses13();
    r := r0;
    r := Md5Next(r, 48, 0x64636261, 0xf4292244, 6, 0xfc32dd6e);
    r := Md5Next(r, 49, 0x00000000, 0x432aff97, 10, 0x65456b34);
    r := Md5Next(r, 50, 0x000000d0, 0xab9423a7, 15, 0xb35602cb);
    r := Md5Next(r, 51, 0x78777675, 0xfc93a039, 21, 0x33edb197);
    r := Md5Next(r, 52, 0x00000000, 0x655b59c3, 6, 0xc1e942f1);
    r := Md5Next(r, 53, 0x706f6e6d, 0x8f0ccc92, 10, 0xd9bb987c);
    r := Md5Next(r, 54, 0x00000000, 0xffeff47d, 15, 0x23a68048);
    r := Md5Next(r, 55, 0x68676665, 0x85845dd1, 21, 0x83877d1b);
  }

  lemma Md5Steps7(r0: Md5.Regs) returns (r: Md5.Regs)
    requires Md5At(56, r0) && r0 == Md5.Regs(0xc1e942f1, 0x83877d1b, 0x23a68048, 0xd9bb987c)
    ensures Md5At(64, r) && r == Md5.Regs(0x708ed9c2, 0x1116e6d8, 0xd38f1e7f, 0x2baf1354)
  {
    hide Md5At, Uses;
    Uses14();
    Uses15();
    r := r0;
    r := Md5Next(r, 56, 0x00000000, 0x6fa87e4f, 6, 0x0077c208);
    r := Md5Next(r, 57, 0x00000000, 0xfe2ce6e0, 10, 0x847fc2e7);
    r := Md5Next(r, 58, 0x00807a79, 0xa3014314, 15, 0xa3e2247f);
    r := Md5Next(r, 59, 0x00000000, 0x4e0811a1, 21, 0x5e6bc930);
    r := Md5Next(r, 60, 0x74737271, 0xf7537e82, 6, 0x708ed9c2);
    r := Md5Next(r, 61, 0x00000000, 0xbd3af235, 10, 0x2baf1354);
    r := Md5Next(r, 62, 0x6c6b6a69, 0x2ad7d2bb, 15, 0xd38f1e7f);
    r := Md5Next(r, 63, 0x00000000, 0xeb86d391, 21, 0x1116e6d8);
  }

  lemma Md5Ends()
    ensures Md5At(64, Md5.Regs(0x708ed9c2, 0x1116e6d8, 0xd38f1e7f, 0x2baf1354))
  {
    var r := Md5.Regs(0x67452301, 0xefcdab89, 0x98badcfe, 0x10325476);
    assert Md5At(0, r);
    r := Md5Steps0(r);
    r := Md5Steps1(r);
    r := Md5Steps2(r);
    r := Md5Steps3(r);
    r := Md5Steps4(r);
    r := Md5Steps5(r);
    r := Md5Steps6(r);
    r := Md5Steps7(r);
  }

  lemma Letters()
    ensures |Padded(MD5, ALPHABET)| == 64 && Md5.X(Padded(MD5, ALPHABET)) == LETTERS
  {
    hide Padded;
    PaddedBlock(MD5, ALPHABET);
    var p := Padded(MD5, ALPHABET);
    Letter(p, 0, 97, 98, 99, 100, 0x64636261);
    Letter(p, 1, 101, 102, 103, 104, 0x68676665);
    Letter(p, 2, 105, 106, 107, 108, 0x6c6b6a69);
    Letter(p, 3, 109, 110, 111, 112, 0x706f6e6d);
    Letter(p, 4, 113, 114, 115, 116, 0x74737271);
    Letter(p, 5, 117, 118, 119, 120, 0x78777675);
    Letter(p, 6, 121, 122, 128, 0, 0x00807a79);
    Letter(p, 7, 0, 0, 0, 0, 0x00000000);
    Letter(p, 8, 0, 0, 0, 0, 0x00000000);
    Letter(p, 9, 0, 0, 0, 0, 0x00000000);
    Letter(p, 10, 0, 0, 0, 0, 0x00000000);
    Letter(p, 11, 0, 0, 0, 0, 0x00000000);
    Letter(p, 12, 0, 0, 0, 0, 0x00000000);
    Letter(p, 13, 0, 0, 0, 0, 0x00000000);
    Letter(p, 14, 208, 0, 0, 0, 0x000000d0);
    Letter(p, 15, 0, 0, 0, 0, 0x00000000);
    Sixteens(Md5.X(p), LETTERS);
  }

  lemma Letter(p: Block, n: nat, a: Byte, b: Byte, c: Byte, d: Byte, w: bv32)
    requires n < 16 && p[4 * n] == a && p[4 * n + 1] == b && p[4 * n + 2] == c && p[4 * n + 3] == d
    requires Join(Wide(a), Wide(b), Wide(c), Wide(d)) == w
    ensures WordAt(false, p, n) == w
  {
  }

  lemma Sixteens(s: seq<bv32>, t: seq<bv32>)
    requires |s| == 16 && |t| == 16
    requires s[0] == t[0] && s[1] == t[1] && s[2] == t[2] && s[3] == t[3]
    requires s[4] == t[4] && s[5] == t[5] && s[6] == t[6] && s[7] == t[7]
    requires s[8] == t[8] && s[9] == t[9] && s[10] == t[10] && s[11] == t[11]
    requires s[12] == t[12] && s[13] == t[13] && s[14] == t[14] && s[15] == t[15]
    ensures s == t
  {
    forall k | 0 <= k < 16
      ensures s[k] == t[k]
    {
      Sixteen(k);
    }
  }

  lemma OneBlock(alg: Algorithm, m: seq<Byte>)
    requires |Padded(alg, m)| == 64
    ensures Digest(alg, m) == Compress(alg, Init(alg), Padded(alg, m))
  {
    hide Padded, Compress, Init;
    var p := Padded(alg, m);
    assert p[..64] == p && p[64..] == [];
    assert Fold(alg, Compress(alg, Init(alg), p), []) == Compress(alg, Init(alg), p);
  }

  lemma Md5Words()
    ensures Digest(MD5, ALPHABET) == [0xd7d3fcc3, 0x00e49261, 0x6c49fb7d, 0x3be167ca]
  {
    hide Md5.Steps, Md5.X, Padded;
    Md5Ends();
    Letters();
    OneBlock(MD5, ALPHABET);
  }

  // One more word of four bytes
  lemma StoredWord(bigEndian: bool, s: seq<Byte>, words: Words, a: Byte, b: Byte, c: Byte, d: Byte, w: bv32)
      returns (s': seq<Byte>, words': Words)
    requires Stores(bigEndian, s, words)
    requires w == if bigEndian then Join(Wide(d), Wide(c), Wide(b), Wide(a))
                  else Join(Wide(a), Wide(b), Wide(c), Wide(d))
    ensures s' == s + [a, b, c, d] && words' == words + [w] && Stores(bigEndian, s', words')
  {
    hide Join, Wide;
    s', words' := s + [a, b, c, d], words + [w];
    forall n | 0 <= n < |words'|
      ensures WordAt(bigEndian, s', n) == words'[n]
    {
      if n < |words| {
        assert WordAt(bigEndian, s', n) == WordAt(bigEndian, s, n);
      }
    }
  }

  lemma Md5OfAlphabet()
    ensures
      Stores(false,
             [0xc3, 0xfc, 0xd3, 0xd7] + [0x61, 0x92, 0xe4, 0x00] + [0x7d, 0xfb, 0x49, 0x6c]
             + [0xca, 0x67, 0xe1, 0x3b],
             Digest(MD5, ALPHABET))
  {
    hide Digest, Stores;
    Md5Words();
    NothingStored(false);
    var s, words: Words := [], [];
    s, words := StoredWord(false, s, words, 0xc3, 0xfc, 0xd3, 0xd7, 0xd7d3fcc3);
    assert s == [0xc3, 0xfc, 0xd3, 0xd7];
    s, words := StoredWord(false, s, words, 0x61, 0x92, 0xe4, 0x00, 0x00e49261);
    s, words := StoredWord(false, s, words, 0x7d, 0xfb, 0x49, 0x6c, 0x6c49fb7d);
    s, words := StoredWord(false, s, words, 0xca, 0x67, 0xe1, 0x3b, 0x3be167ca);
    assert words == [0xd7d3fcc3, 0x00e49261, 0x6c49fb7d, 0x3be167ca];
  }

  // -------- SHA-1 --------

  const ABC: seq<Byte> := [0x61, 0x62, 0x63]

  // Word t of the message schedule
  ghost predicate WordIs(t: nat, w: bv32) {
    |Padded(SHA1, ABC)| == 64 && Sha1.W(Padded(SHA1, ABC), t) == w
  }

  lemma WordFirst(t: nat, a: Byte, b: Byte, c: Byte, d: Byte, w: bv32)
    requires t < 16 && |Padded(SHA1, ABC)| == 64
    requires
      var p := Padded(SHA1, ABC);
      p[4 * t] == a && p[4 * t + 1] == b && p[4 * t + 2] == c && p[4 * t + 3] == d
    requires Join(Wide(d), Wide(c), Wide(b), Wide(a)) == w
    ensures WordIs(t, w)
  {
    hide Padded;
  }

  lemma WordNext(t: nat, a: bv32, b: bv32, c: bv32, d: bv32, w: bv32)
    requires 16 <= t && WordIs(t - 3, a) && WordIs(t - 8, b) && WordIs(t - 14, c) && WordIs(t - 16, d)
    requires Rotate(Sha1.Xor4(a, b, c, d), 1) == w
    ensures WordIs(t, w)
  {
    hide Padded, WordAt, Rotate, Sha1.Xor4;
  }

  lemma Schedule0()
    ensures WordIs(0, 0x61626380) && WordIs(1, 0x00000000)
    ensures WordIs(2, 0x00000000) && WordIs(3, 0x00000000)
    ensures WordIs(4, 0x00000000) && WordIs(5, 0x00000000)
    ensures WordIs(6, 0x00000000) && WordIs(7, 0x00000000)
    ensures WordIs(8, 0x00000000) && WordIs(9, 0x00000000)
    ensures WordIs(10, 0x00000000) && WordIs(11, 0x00000000)
    ensures WordIs(12, 0x00000000) && WordIs(13, 0x00000000)
    ensures WordIs(14, 0x00000000) && WordIs(15, 0x00000018)
  {
    hide Padded, WordIs;
    PaddedBlock(SHA1, ABC);
    WordFirst(0, 97, 98, 99, 128, 0x61626380);
    WordFirst(1, 0, 0, 0, 0, 0x00000000);
    WordFirst(2, 0, 0, 0, 0, 0x00000000);
    WordFirst(3, 0, 0, 0, 0, 0x00000000);
    WordFirst(4, 0, 0, 0, 0, 0x00000000);
    WordFirst(5, 0, 0, 0, 0, 0x00000000);
    WordFirst(6, 0, 0, 0, 0, 0x00000000);
    WordFirst(7, 0, 0, 0, 0, 0x00000000);
    WordFirst(8, 0, 0, 0, 0, 0x00000000);
    WordFirst(9, 0, 0, 0, 0, 0x00000000);
    WordFirst(10, 0, 0, 0, 0, 0x00000000);
    WordFirst(11, 0, 0, 0, 0, 0x00000000);
    WordFirst(12, 0, 0, 0, 0, 0x00000000);
    WordFirst(13, 0, 0, 0, 0, 0x00000000);
    WordFirst(14, 0, 0, 0, 0, 0x00000000);
    WordFirst(15, 0, 0, 0, 24, 0x00000018);
  }

  lemma Schedule1()
    ensures WordIs(16, 0xc2c4c700) && WordIs(17, 0x00000000)
    ensures WordIs(18, 0x00000030) && WordIs(19, 0x85898e01)
    ensures WordIs(20, 0x00000000) && WordIs(21, 0x00000060)
    ensures WordIs(22, 0x0b131c03) && WordIs(23, 0x00000030)
    ensures WordIs(24, 0x85898ec1) && WordIs(25, 0x16263806)
    ensures WordIs(26, 0x00000000) && WordIs(27, 0x00000180)
    ensures WordIs(28, 0x2c4c700c) && WordIs(29, 0x000000f0)
    ensures WordIs(30, 0x93afb507) && WordIs(31, 0x5898e048)
  {
    hide WordIs;
    Schedule0();
    WordNext(16, 0x00000000, 0x00000000, 0x00000000, 0x61626380, 0xc2c4c700);
    WordNext(17, 0x00000000, 0x00000000, 0x00000000, 0x00000000, 0x00000000);
    WordNext(18, 0x00000018, 0x00000000, 0x00000000, 0x00000000, 0x00000030);
    WordNext(19, 0xc2c4c700, 0x00000000, 0x00000000, 0x00000000, 0x85898e01);
    WordNext(20, 0x00000000, 0x00000000, 0x00000000, 0x00000000, 0x00000000);
    WordNext(21, 0x00000030, 0x00000000, 0x00000000, 0x00000000, 0x00000060);
    WordNext(22, 0x85898e01, 0x00000000, 0x00000000, 0x00000000, 0x0b131c03);
    WordNext(23, 0x00000000, 0x00000018, 0x00000000, 0x00000000, 0x00000030);
    WordNext(24, 0x00000060, 0xc2c4c700, 0x00000000, 0x00000000, 0x85898ec1);
    WordNext(25, 0x0b131c03, 0x00000000, 0x00000000, 0x00000000, 0x16263806);
    WordNext(26, 0x00000030, 0x00000030, 0x00000000, 0x00000000, 0x00000000);
    WordNext(27, 0x85898ec1, 0x85898e01, 0x00000000, 0x00000000, 0x00000180);
    WordNext(28, 0x16263806, 0x00000000, 0x00000000, 0x00000000, 0x2c4c700c);
    WordNext(29, 0x00000000, 0x00000060, 0x00000018, 0x00000000, 0x000000f0);
    WordNext(30, 0x00000180, 0x0b131c03, 0xc2c4c700, 0x00000000, 0x93afb507);
    WordNext(31, 0x2c4c700c, 0x00000030, 0x00000000, 0x00000018, 0x5898e048);
  }

  lemma Schedule2()
    ensures WordIs(32, 0x8e9a9202) && WordIs(33, 0x00000600)
    ensures WordIs(34, 0xb131c0f0) && WordIs(35, 0x16263bc6)
    ensures WordIs(36, 0x4ebed41e) && WordIs(37, 0x626380a1)
    ensures WordIs(38, 0x16263806) && WordIs(39, 0x000018c0)
    ensures WordIs(40, 0xd2e138c4) && WordIs(41, 0x00000f00)
    ensures WordIs(42, 0x3afb5079) && WordIs(43, 0x898e04e5)
    ensures WordIs(44, 0xe2ba3c2b) && WordIs(45, 0x000060c0)
    ensures WordIs(46, 0x053a37cd) && WordIs(47, 0x74458547)
  {
    hide WordIs;
    Schedule1();
    WordNext(32, 0x000000f0, 0x85898ec1, 0x00000030, 0xc2c4c700, 0x8e9a9202);
    WordNext(33, 0x93afb507, 0x16263806, 0x85898e01, 0x00000000, 0x00000600);
    WordNext(34, 0x5898e048, 0x00000000, 0x00000000, 0x00000030, 0xb131c0f0);
    WordNext(35, 0x8e9a9202, 0x00000180, 0x00000060, 0x85898e01, 0x16263bc6);
    WordNext(36, 0x00000600, 0x2c4c700c, 0x0b131c03, 0x00000000, 0x4ebed41e);
    WordNext(37, 0xb131c0f0, 0x000000f0, 0x00000030, 0x00000060, 0x626380a1);
    WordNext(38, 0x16263bc6, 0x93afb507, 0x85898ec1, 0x0b131c03, 0x16263806);
    WordNext(39, 0x4ebed41e, 0x5898e048, 0x16263806, 0x00000030, 0x000018c0);
    WordNext(40, 0x626380a1, 0x8e9a9202, 0x00000000, 0x85898ec1, 0xd2e138c4);
    WordNext(41, 0x16263806, 0x00000600, 0x00000180, 0x16263806, 0x00000f00);
    WordNext(42, 0x000018c0, 0xb131c0f0, 0x2c4c700c, 0x00000000, 0x3afb5079);
    WordNext(43, 0xd2e138c4, 0x16263bc6, 0x000000f0, 0x00000180, 0x898e04e5);
    WordNext(44, 0x00000f00, 0x4ebed41e, 0x93afb507, 0x2c4c700c, 0xe2ba3c2b);
    WordNext(45, 0x3afb5079, 0x626380a1, 0x5898e048, 0x000000f0, 0x000060c0);
    WordNext(46, 0x898e04e5, 0x16263806, 0x8e9a9202, 0x93afb507, 0x053a37cd);
    WordNext(47, 0xe2ba3c2b, 0x000018c0, 0x00000600, 0x5898e048, 0x74458547);
  }

  lemma Schedule3()
    ensures WordIs(48, 0xda9415ed) && WordIs(49, 0x26380a16)
    ensures WordIs(50, 0x626383a1) && WordIs(51, 0x4ebf54de)
    ensures WordIs(52, 0x3835b44b) && WordIs(53, 0x0000f600)
    ensures WordIs(54, 0x1e84c7a3) && WordIs(55, 0x98e04d98)
    ensures WordIs(56, 0x651d16a0) && WordIs(57, 0x62658ca1)
    ensures WordIs(58, 0x458544d6) && WordIs(59, 0x44584cb7)
    ensures WordIs(60, 0x7ba06619) && WordIs(61, 0x6380aea2)
    ensures WordIs(62, 0x0ae55269) && WordIs(63, 0x627b49a1)
  {
    hide WordIs;
    Schedule2();
    WordNext(48, 0x000060c0, 0xd2e138c4, 0xb131c0f0, 0x8e9a9202, 0xda9415ed);
    WordNext(49, 0x053a37cd, 0x00000f00, 0x16263bc6, 0x00000600, 0x26380a16);
    WordNext(50, 0x74458547, 0x3afb5079, 0x4ebed41e, 0xb131c0f0, 0x626383a1);
    WordNext(51, 0xda9415ed, 0x898e04e5, 0x626380a1, 0x16263bc6, 0x4ebf54de);
    WordNext(52, 0x26380a16, 0xe2ba3c2b, 0x16263806, 0x4ebed41e, 0x3835b44b);
    WordNext(53, 0x626383a1, 0x000060c0, 0x000018c0, 0x626380a1, 0x0000f600);
    WordNext(54, 0x4ebf54de, 0x053a37cd, 0xd2e138c4, 0x16263806, 0x1e84c7a3);
    WordNext(55, 0x3835b44b, 0x74458547, 0x00000f00, 0x000018c0, 0x98e04d98);
    WordNext(56, 0x0000f600, 0xda9415ed, 0x3afb5079, 0xd2e138c4, 0x651d16a0);
    WordNext(57, 0x1e84c7a3, 0x26380a16, 0x898e04e5, 0x00000f00, 0x62658ca1);
    WordNext(58, 0x98e04d98, 0x626383a1, 0xe2ba3c2b, 0x3afb5079, 0x458544d6);
    WordNext(59, 0x651d16a0, 0x4ebf54de, 0x000060c0, 0x898e04e5, 0x44584cb7);
    WordNext(60, 0x62658ca1, 0x3835b44b, 0x053a37cd, 0xe2ba3c2b, 0x7ba06619);
    WordNext(61, 0x458544d6, 0x0000f600, 0x74458547, 0x000060c0, 0x6380aea2);
    WordNext(62, 0x44584cb7, 0x1e84c7a3, 0xda9415ed, 0x053a37cd, 0x0ae55269);
    WordNext(63, 0x7ba06619, 0x98e04d98, 0x26380a16, 0x74458547, 0x627b49a1);
  }

  lemma Schedule4()
    ensures WordIs(64, 0x7cd45c9d) && WordIs(65, 0x000f0000)
    ensures WordIs(66, 0xfb50753a) && WordIs(67, 0xec6765e8)
    ensures WordIs(68, 0xba3c2be2) && WordIs(69, 0x0060c000)
    ensures WordIs(70, 0x3a37cd05) && WordIs(71, 0x458546f4)
    ensures WordIs(72, 0xb8599dd6) && WordIs(73, 0x380a1a26)
    ensures WordIs(74, 0x01e02203) && WordIs(75, 0xe7cc3456)
    ensures WordIs(76, 0xe6e60b69) && WordIs(77, 0x00f60a00)
    ensures WordIs(78, 0x5795ef4f) && WordIs(79, 0x822e0879)
  {
    hide WordIs;
    Schedule3();
    WordNext(64, 0x6380aea2, 0x651d16a0, 0x626383a1, 0xda9415ed, 0x7cd45c9d);
    WordNext(65, 0x0ae55269, 0x62658ca1, 0x4ebf54de, 0x26380a16, 0x000f0000);
    WordNext(66, 0x627b49a1, 0x458544d6, 0x3835b44b, 0x626383a1, 0xfb50753a);
    WordNext(67, 0x7cd45c9d, 0x44584cb7, 0x0000f600, 0x4ebf54de, 0xec6765e8);
    WordNext(68, 0x000f0000, 0x7ba06619, 0x1e84c7a3, 0x3835b44b, 0xba3c2be2);
    WordNext(69, 0xfb50753a, 0x6380aea2, 0x98e04d98, 0x0000f600, 0x0060c000);
    WordNext(70, 0xec6765e8, 0x0ae55269, 0x651d16a0, 0x1e84c7a3, 0x3a37cd05);
    WordNext(71, 0xba3c2be2, 0x627b49a1, 0x62658ca1, 0x98e04d98, 0x458546f4);
    WordNext(72, 0x0060c000, 0x7cd45c9d, 0x458544d6, 0x651d16a0, 0xb8599dd6);
    WordNext(73, 0x3a37cd05, 0x000f0000, 0x44584cb7, 0x62658ca1, 0x380a1a26);
    WordNext(74, 0x458546f4, 0xfb50753a, 0x7ba06619, 0x458544d6, 0x01e02203);
    WordNext(75, 0xb8599dd6, 0xec6765e8, 0x6380aea2, 0x44584cb7, 0xe7cc3456);
    WordNext(76, 0x380a1a26, 0xba3c2be2, 0x0ae55269, 0x7ba06619, 0xe6e60b69);
    WordNext(77, 0x01e02203, 0x0060c000, 0x627b49a1, 0x6380aea2, 0x00f60a00);
    WordNext(78, 0xe7cc3456, 0x3a37cd05, 0x7cd45c9d, 0x0ae55269, 0x5795ef4f);
    WordNext(79, 0xe6e60b69, 0x458546f4, 0x000f0000, 0x627b49a1, 0x822e0879);
  }

  ghost predicate Sha1At(n: nat, r: Sha1.Regs) {
    && |Padded(SHA1, ABC)| == 64
    && Sha1.Steps(Sha1.Regs(0x67452301, 0xefcdab89, 0x98badcfe, 0x10325476, 0xc3d2e1f0), Padded(SHA1, ABC), n) == r
  }

  // One more step, after which the first register is v
  lemma Sha1Next(r: Sha1.Regs, t: nat, w: bv32, v: bv32) returns (r': Sha1.Regs)
    requires Sha1At(t, r) && WordIs(t, w)
    requires v == Sum(Sum(Sum(Sum(Rotate(r.a, 5), Sha1.RoundFunction(t, r.b, r.c, r.d)), r.e), w), Sha1.K(t))
    ensures r' == Sha1.Regs(v, r.a, Rotate(r.b, 30), r.c, r.d) && Sha1At(t + 1, r')
  {
    hide Padded, Sum, Rotate, Sha1.RoundFunction, Sha1.K, Sha1.W;
    r' := Sha1.Regs(v, r.a, Rotate(r.b, 30), r.c, r.d);
  }

  lemma Sha1Steps0(r0: Sha1.Regs) returns (r: Sha1.Regs)
    requires Sha1At(0, r0) && r0 == Sha1.Regs(0x67452301, 0xefcdab89, 0x98badcfe, 0x10325476, 0xc3d2e1f0)
    ensures Sha1At(8, r) && r == Sha1.Regs(0x9e8c07d4, 0x993e30c1, 0x0ff1f290, 0xb3f52677, 0xf3763846)
  {
    hide Sha1At, WordIs;
    Schedule0();
    r := r0;
    r := Sha1Next(r, 0, 0x61626380, 0x0116fc33);
    r := Sha1Next(r, 1, 0x00000000, 0x8990536d);
    r := Sha1Next(r, 2, 0x00000000, 0xa1390f08);
    r := Sha1Next(r, 3, 0x00000000, 0xcdd8e11b);
    r := Sha1Next(r, 4, 0x00000000, 0xcfd499de);
    r := Sha1Next(r, 5, 0x00000000, 0x3fc7ca40);
    r := Sha1Next(r, 6, 0x00000000, 0x993e30c1);
    r := Sha1Next(r, 7, 0x00000000, 0x9e8c07d4);
  }

  lemma Sha1Steps1(r0: Sha1.Regs) returns (r: Sha1.Regs)
    requires Sha1At(8, r0) && r0 == Sha1.Regs(0x9e8c07d4, 0x993e30c1, 0x0ff1f290, 0xb3f52677, 0xf3763846)
    ensures Sha1At(16, r) && r == Sha1.Regs(0x20bdd62f, 0x196bee77, 0x644a3da5, 0x1181ed99, 0x18c623f9)
  {
    hide Sha1At, WordIs;
    Schedule0();
    r := r0;
    r := Sha1Next(r, 8, 0x00000000, 0x4b6ae328);
    r := Sha1Next(r, 9, 0x00000000, 0x8351f929);
    r := Sha1Next(r, 10, 0x00000000, 0xfbda9e89);
    r := Sha1Next(r, 11, 0x00000000, 0x63188fe4);
    r := Sha1Next(r, 12, 0x00000000, 0x4607b664);
    r := Sha1Next(r, 13, 0x00000000, 0x9128f695);
    r := Sha1Next(r, 14, 0x00000000, 0x196bee77);
    r := Sha1Next(r, 15, 0x00000018, 0x20bdd62f);
  }

  lemma Sha1Steps2(r0: Sha1.Regs) returns (r: Sha1.Regs)
    requires Sha1At(16, r0) && r0 == Sha1.Regs(0x20bdd62f, 0x196bee77, 0x644a3da5, 0x1181ed99, 0x18c623f9)
    ensures Sha1At(24, r) && r == Sha1.Regs(0xd541f12d, 0x21283486, 0x0ce88eff, 0x868dec32, 0x7f67875f)
  {
    hide Sha1At, WordIs;
    Schedule1();
    r := r0;
    r := Sha1Next(r, 16, 0xc2c4c700, 0x4e925823);
    r := Sha1Next(r, 17, 0x00000000, 0x82aa6728);
    r := Sha1Next(r, 18, 0x00000030, 0xdc64901d);
    r := Sha1Next(r, 19, 0x85898e01, 0xfd9e1d7d);
    r := Sha1Next(r, 20, 0x00000000, 0x1a37b0ca);
    r := Sha1Next(r, 21, 0x00000060, 0x33a23bfc);
    r := Sha1Next(r, 22, 0x0b131c03, 0x21283486);
    r := Sha1Next(r, 23, 0x00000030, 0xd541f12d);
  }

  lemma Sha1Steps3(r0: Sha1.Regs) returns (r: Sha1.Regs)
    requires Sha1At(24, r0) && r0 == Sha1.Regs(0xd541f12d, 0x21283486, 0x0ce88eff, 0x868dec32, 0x7f67875f)
    ensures Sha1At(32, r) && r == Sha1.Regs(0x3b845d33, 0x1267b407, 0x717eebd7, 0xa0dc2d4b, 0xd2aa1365)
  {
    hide Sha1At, WordIs;
    Schedule1();
    r := r0;
    r := Sha1Next(r, 24, 0x85898ec1, 0xc7567dc6);
    r := Sha1Next(r, 25, 0x16263806, 0x48413ba4);
    r := Sha1Next(r, 26, 0x00000000, 0xbe35fbd5);
    r := Sha1Next(r, 27, 0x00000180, 0x4aa84d97);
    r := Sha1Next(r, 28, 0x2c4c700c, 0x8370b52e);
    r := Sha1Next(r, 29, 0x000000f0, 0xc5fbaf5d);
    r := Sha1Next(r, 30, 0x93afb507, 0x1267b407);
    r := Sha1Next(r, 31, 0x5898e048, 0x3b845d33);
  }

  lemma Sha1Steps4(r0: Sha1.Regs) returns (r: Sha1.Regs)
    requires Sha1At(32, r0) && r0 == Sha1.Regs(0x3b845d33, 0x1267b407, 0x717eebd7, 0xa0dc2d4b, 0xd2aa1365)
    ensures Sha1At(40, r) && r == Sha1.Regs(0x32de1cba, 0x4c986405, 0xf718e5cf, 0x03d447f6, 0xf72eec32)
  {
    hide Sha1At, WordIs;
    Schedule2();
    r := r0;
    r := Sha1Next(r, 32, 0x8e9a9202, 0x046faa0a);
    r := Sha1Next(r, 33, 0x00000600, 0x2c0ebc11);
    r := Sha1Next(r, 34, 0xb131c0f0, 0x21796ad4);
    r := Sha1Next(r, 35, 0x16263bc6, 0xdcbbb0cb);
    r := Sha1Next(r, 36, 0x4ebed41e, 0x0f511fd8);
    r := Sha1Next(r, 37, 0x626380a1, 0xdc63973f);
    r := Sha1Next(r, 38, 0x16263806, 0x4c986405);
    r := Sha1Next(r, 39, 0x000018c0, 0x32de1cba);
  }

  lemma Sha1Steps5(r0: Sha1.Regs) returns (r: Sha1.Regs)
    requires Sha1At(40, r0) && r0 == Sha1.Regs(0x32de1cba, 0x4c986405, 0xf718e5cf, 0x03d447f6, 0xf72eec32)
    ensures Sha1At(48, r) && r == Sha1.Regs(0xbead02ca, 0xa01b846c, 0x8714787c, 0x503ca382, 0xfb86c6ab)
  {
    hide Sha1At, WordIs;
    Schedule2();
    r := r0;
    r := Sha1Next(r, 40, 0xd2e138c4, 0xfc87dedf);
    r := Sha1Next(r, 41, 0x00000f00, 0x970a0d5c);
    r := Sha1Next(r, 42, 0x3afb5079, 0x7f193dc5);
    r := Sha1Next(r, 43, 0x898e04e5, 0xee1b1aaf);
    r := Sha1Next(r, 44, 0xe2ba3c2b, 0x40f28e09);
    r := Sha1Next(r, 45, 0x000060c0, 0x1c51e1f2);
    r := Sha1Next(r, 46, 0x053a37cd, 0xa01b846c);
    r := Sha1Next(r, 47, 0x74458547, 0xbead02ca);
  }

  lemma Sha1Steps6(r0: Sha1.Regs) returns (r: Sha1.Regs)
    requires Sha1At(48, r0) && r0 == Sha1.Regs(0xbead02ca, 0xa01b846c, 0x8714787c, 0x503ca382, 0xfb86c6ab)
    ensures Sha1At(56, r) && r == Sha1.Regs(0x5e6456af, 0x7b71f76d, 0x09fa7c76, 0x792410db, 0x8e11eb59)
  {
    hide Sha1At, WordIs;
    Schedule3();
    r := r0;
    r := Sha1Next(r, 48, 0xda9415ed, 0xbaf39337);
    r := Sha1Next(r, 49, 0x26380a16, 0x120731c5);
    r := Sha1Next(r, 50, 0x626383a1, 0x641db2ce);
    r := Sha1Next(r, 51, 0x4ebf54de, 0x3847ad66);
    r := Sha1Next(r, 52, 0x3835b44b, 0xe490436d);
    r := Sha1Next(r, 53, 0x0000f600, 0x27e9f1d8);
    r := Sha1Next(r, 54, 0x1e84c7a3, 0x7b71f76d);
    r := Sha1Next(r, 55, 0x98e04d98, 0x5e6456af);
  }

  lemma Sha1Steps7(r0: Sha1.Regs) returns (r: Sha1.Regs)
    requires Sha1At(56, r0) && r0 == Sha1.Regs(0x5e6456af, 0x7b71f76d, 0x09fa7c76, 0x792410db, 0x8e11eb59)
    ensures Sha1At(64, r) && r == Sha1.Regs(0x6b61c9e1, 0xb66c020b, 0x9523272c, 0xf5d5b051, 0x8fd4b796)
  {
    hide Sha1At, WordIs;
    Schedule3();
    r := r0;
    r := Sha1Next(r, 56, 0x651d16a0, 0xc846093f);
    r := Sha1Next(r, 57, 0x62658ca1, 0xd262ff50);
    r := Sha1Next(r, 58, 0x458544d6, 0x09d785fd);
    r := Sha1Next(r, 59, 0x44584cb7, 0x3f52de5a);
    r := Sha1Next(r, 60, 0x7ba06619, 0xd756c147);
    r := Sha1Next(r, 61, 0x6380aea2, 0x548c9cb2);
    r := Sha1Next(r, 62, 0x0ae55269, 0xb66c020b);
    r := Sha1Next(r, 63, 0x627b49a1, 0x6b61c9e1);
  }

  lemma Sha1Steps8(r0: Sha1.Regs) returns (r: Sha1.Regs)
    requires Sha1At(64, r0) && r0 == Sha1.Regs(0x6b61c9e1, 0xb66c020b, 0x9523272c, 0xf5d5b051, 0x8fd4b796)
    ensures Sha1At(72, r) && r == Sha1.Regs(0x39859de7, 0xc199f8c7, 0x8fc96230, 0x125c24f0, 0xde37534a)
  {
    hide Sha1At, WordIs;
    Schedule4();
    r := r0;
    r := Sha1Next(r, 64, 0x7cd45c9d, 0x19dfa7ac);
    r := Sha1Next(r, 65, 0x000f0000, 0x101655f9);
    r := Sha1Next(r, 66, 0xfb50753a, 0x0c3df2b4);
    r := Sha1Next(r, 67, 0xec6765e8, 0x78dd4d2b);
    r := Sha1Next(r, 68, 0xba3c2be2, 0x497093c0);
    r := Sha1Next(r, 69, 0x0060c000, 0x3f2588c2);
    r := Sha1Next(r, 70, 0x3a37cd05, 0xc199f8c7);
    r := Sha1Next(r, 71, 0x458546f4, 0x39859de7);
  }

  lemma Sha1Steps9(r0: Sha1.Regs) returns (r: Sha1.Regs)
    requires Sha1At(72, r0) && r0 == Sha1.Regs(0x39859de7, 0xc199f8c7, 0x8fc96230, 0x125c24f0, 0xde37534a)
    ensures Sha1At(80, r) && r == Sha1.Regs(0x42541b35, 0x5738d5e1, 0x21834873, 0x681e6df6, 0xd8fdf6ad)
  {
    hide Sha1At, WordIs;
    Schedule4();
    r := r0;
    r := Sha1Next(r, 72, 0xb8599dd6, 0xedb42de4);
    r := Sha1Next(r, 73, 0x380a1a26, 0x11793f6f);
    r := Sha1Next(r, 74, 0x01e02203, 0x5ee76897);
    r := Sha1Next(r, 75, 0xe7cc3456, 0x63f7dab7);
    r := Sha1Next(r, 76, 0xe6e60b69, 0xa079b7d9);
    r := Sha1Next(r, 77, 0x00f60a00, 0x860d21cc);
    r := Sha1Next(r, 78, 0x5795ef4f, 0x5738d5e1);
    r := Sha1Next(r, 79, 0x822e0879, 0x42541b35);
  }

  lemma Sha1Ends()
    ensures Sha1At(80, Sha1.Regs(0x42541b35, 0x5738d5e1, 0x21834873, 0x681e6df6, 0xd8fdf6ad))
  {
    hide Padded;
    PaddedBlock(SHA1, ABC);
    var r := Sha1.Regs(0x67452301, 0xefcdab89, 0x98badcfe, 0x10325476, 0xc3d2e1f0);
    assert Sha1At(0, r);
    r := Sha1Steps0(r);
    r := Sha1Steps1(r);
    r := Sha1Steps2(r);
    r := Sha1Steps3(r);
    r := Sha1Steps4(r);
    r := Sha1Steps5(r);
    r := Sha1Steps6(r);
    r := Sha1Steps7(r);
    r := Sha1Steps8(r);
    r := Sha1Steps9(r);
  }

  lemma Sha1Words()
    ensures Digest(SHA1, ABC) == [0xa9993e36, 0x4706816a, 0xba3e2571, 0x7850c26c, 0x9cd0d89d]
  {
    hide Sha1.Steps, Padded;
    Sha1Ends();
    OneBlock(SHA1, ABC);
  }

  lemma Sha1OfAbc()
    ensures
      Stores(true,
             [0xa9, 0x99, 0x3e, 0x36] + [0x47, 0x06, 0x81, 0x6a] + [0xba, 0x3e, 0x25, 0x71]
             + [0x78, 0x50, 0xc2, 0x6c] + [0x9c, 0xd0, 0xd8, 0x9d],
             Digest(SHA1, ABC))
  {
    hide Digest, Stores;
    Sha1Words();
    NothingStored(true);
    var s, words: Words := [], [];
    s, words := StoredWord(true, s, words, 0xa9, 0x99, 0x3e, 0x36, 0xa9993e36);
    assert s == [0xa9, 0x99, 0x3e, 0x36];
    s, words := StoredWord(true, s, words, 0x47, 0x06, 0x81, 0x6a, 0x4706816a);
    s, words := StoredWord(true, s, words, 0xba, 0x3e, 0x25, 0x71, 0xba3e2571);
    s, words := StoredWord(true, s, words, 0x78, 0x50, 0xc2, 0x6c, 0x7850c26c);
    s, words := StoredWord(true, s, words, 0x9c, 0xd0, 0xd8, 0x9d, 0x9cd0d89d);
    assert words == [0xa9993e36, 0x4706816a, 0xba3e2571, 0x7850c26c, 0x9cd0d89d];
  }
}
