// Base64 and base64url: ngx_encode_base64_internal and ngx_decode_base64_internal.

module Base64 {
  import opened ByteStrings
  import opened Options

  const PAD: Byte := '=' as int

  // Not a digit
  const NONE: nat := 77

  // The first 62 digits as character codes; the last two differ
  const DIGITS: seq<seq<Byte>> := [
    [65, 66, 67, 68, 69, 70, 71, 72, 73, 74, 75, 76, 77, 78, 79, 80],
    [81, 82, 83, 84, 85, 86, 87, 88, 89, 90, 97, 98, 99, 100, 101, 102],
    [103, 104, 105, 106, 107, 108, 109, 110, 111, 112, 113, 114, 115, 116, 117, 118],
    [119, 120, 121, 122, 48, 49, 50, 51, 52, 53, 54, 55, 56, 57]
  ]

  // The values of the characters below 128, sixteen to a row; the others are no digits.
  const VALUES: seq<seq<nat>> := [
    [77, 77, 77, 77, 77, 77, 77, 77, 77, 77, 77, 77, 77, 77, 77, 77],
    [77, 77, 77, 77, 77, 77, 77, 77, 77, 77, 77, 77, 77, 77, 77, 77],
    [77, 77, 77, 77, 77, 77, 77, 77, 77, 77, 77, 62, 77, 77, 77, 63],
    [52, 53, 54, 55, 56, 57, 58, 59, 60, 61, 77, 77, 77, 77, 77, 77],
    [77, 0, 1, 2, 3, 4, 5, 6, 7, 8, 9, 10, 11, 12, 13, 14],
    [15, 16, 17, 18, 19, 20, 21, 22, 23, 24, 25, 77, 77, 77, 77, 77],
    [77, 26, 27, 28, 29, 30, 31, 32, 33, 34, 35, 36, 37, 38, 39, 40],
    [41, 42, 43, 44, 45, 46, 47, 48, 49, 50, 51, 77, 77, 77, 77, 77]
  ]

  const URL_VALUES: seq<seq<nat>> := [
    [77, 77, 77, 77, 77, 77, 77, 77, 77, 77, 77, 77, 77, 77, 77, 77],
    [77, 77, 77, 77, 77, 77, 77, 77, 77, 77, 77, 77, 77, 77, 77, 77],
    [77, 77, 77, 77, 77, 77, 77, 77, 77, 77, 77, 77, 77, 62, 77, 77],
    [52, 53, 54, 55, 56, 57, 58, 59, 60, 61, 77, 77, 77, 77, 77, 77],
    [77, 0, 1, 2, 3, 4, 5, 6, 7, 8, 9, 10, 11, 12, 13, 14],
    [15, 16, 17, 18, 19, 20, 21, 22, 23, 24, 25, 77, 77, 77, 77, 63],
    [77, 26, 27, 28, 29, 30, 31, 32, 33, 34, 35, 36, 37, 38, 39, 40],
    [41, 42, 43, 44, 45, 46, 47, 48, 49, 50, 51, 77, 77, 77, 77, 77]
  ]

  // basis[n], in the alphabet of URLs or not
  function Digit(url: bool, n: nat): Byte
    requires n < 64
  {
    if n == 62 then (if url then 45 else 43)
    else if n == 63 then (if url then 95 else 47)
    else DIGITS[n / 16][n % 16]
  }

  function Value(url: bool, c: Byte): nat {
    if c >= 128 then NONE
    else if url then URL_VALUES[c / 16][c % 16] else VALUES[c / 16][c % 16]
  }

  // -------- the alphabets --------

  // Section 4 and section 5 of RFC 4648
  function Letter(url: bool, n: nat): char
    requires n < 64
  {
    if n < 26 then ('A' as int + n) as char
    else if n < 52 then ('a' as int + n - 26) as char
    else if n < 62 then ('0' as int + n - 52) as char
    else if n == 62 then (if url then '-' else '+')
    else if url then '_' else '/'
  }

  lemma DigitIs(url: bool, n: nat)
    requires n < 64
    ensures Digit(url, n) as char == Letter(url, n)
  {
    Sixteen(n % 16);
  }

  // Nothing else has a value.
  lemma OnlyDigits(url: bool, c: Byte)
    ensures Value(url, c) == NONE || (Value(url, c) < 64 && Letter(url, Value(url, c)) == c as char)
  {
    hide Letter;
    var r := c / 16;
    if r < 4 {
      Marks(url, c);
    } else if r < 6 {
      Capitals(url, c);
    } else if r < 8 {
      Smalls(url, c);
    }
  }

  lemma Marks(url: bool, c: Byte)
    requires c < 64
    ensures Value(url, c) == NONE || (Value(url, c) < 64 && Letter(url, Value(url, c)) == c as char)
  {
    Sixteen(c % 16);
  }

  lemma Capitals(url: bool, c: Byte)
    requires 64 <= c < 96
    ensures Value(url, c) == NONE || (Value(url, c) < 64 && Letter(url, Value(url, c)) == c as char)
  {
    Sixteen(c % 16);
  }

  lemma Smalls(url: bool, c: Byte)
    requires 96 <= c < 128
    ensures Value(url, c) == NONE || (Value(url, c) < 64 && Letter(url, Value(url, c)) == c as char)
  {
    Sixteen(c % 16);
  }

  lemma Row0(url: bool, k: nat)
    requires k < 16
    ensures Value(url, DIGITS[0][k]) == 0 + k && DIGITS[0][k] != PAD
  {
    Sixteen(k);
  }

  lemma Row1(url: bool, k: nat)
    requires k < 16
    ensures Value(url, DIGITS[1][k]) == 16 + k && DIGITS[1][k] != PAD
  {
    Sixteen(k);
  }

  lemma Row2(url: bool, k: nat)
    requires k < 16
    ensures Value(url, DIGITS[2][k]) == 32 + k && DIGITS[2][k] != PAD
  {
    Sixteen(k);
  }

  lemma Row3(url: bool, k: nat)
    requires k < 14
    ensures Value(url, DIGITS[3][k]) == 48 + k && DIGITS[3][k] != PAD
  {
    Sixteen(k);
  }

  // Every digit has its value, and is not the padding.
  lemma DigitBack(url: bool, n: nat)
    requires n < 64
    ensures Value(url, Digit(url, n)) == n && Digit(url, n) != PAD
  {
    if n >= 62 {
      LastTwo(url);
    } else {
      hide Value;
      var k := n % 16;
      if n < 16 {
        Row0(url, k);
      } else if n < 32 {
        Row1(url, k);
      } else if n < 48 {
        Row2(url, k);
      } else {
        Row3(url, k);
      }
    }
  }

  lemma LastTwo(url: bool)
    ensures Value(url, Digit(url, 62)) == 62 && Value(url, Digit(url, 63)) == 63
    ensures Digit(url, 62) != PAD && Digit(url, 63) != PAD
  {
  }

  // -------- encoding --------

  // The digits of one, two or three bytes
  function Group(url: bool, s: seq<Byte>): seq<Byte>
    requires 1 <= |s| <= 3
  {
    if |s| == 1 then [Digit(url, s[0] / 4), Digit(url, s[0] % 4 * 16)]
    else if |s| == 2 then
      [Digit(url, s[0] / 4), Digit(url, s[0] % 4 * 16 + s[1] / 16), Digit(url, s[1] % 16 * 4)]
    else
      [Digit(url, s[0] / 4), Digit(url, s[0] % 4 * 16 + s[1] / 16), Digit(url, s[1] % 16 * 4 + s[2] / 64),
       Digit(url, s[2] % 64)]
  }

  function Padding(n: nat): seq<Byte> {
    if n == 1 then [PAD, PAD] else if n == 2 then [PAD] else []
  }

  function Encode(url: bool, s: seq<Byte>): seq<Byte> {
    if s == [] then []
    else if |s| <= 3 then Group(url, s)
    else Group(url, s[..3]) + Encode(url, s[3..])
  }

  // ngx_encode_base64 pads, ngx_encode_base64url does not.
  method EncodeBase64(url: bool, padding: bool, src: seq<Byte>) returns (dst: seq<Byte>)
    ensures dst == Encode(url, src) + if padding then Padding(|src| % 3) else []
  {
    hide Group, Encode, Digit;
    dst := [];
    var s: nat, len: nat := 0, |src|;
    assert src[0..] == src;
    while len > 2
      invariant s + len == |src| && s % 3 == 0 && dst + Encode(url, src[s..]) == Encode(url, src)
    {
      ghost var before := dst;
      EncodeStep(url, src, s);
      GroupOfThree(url, src[s], src[s + 1], src[s + 2]);
      dst := dst + [Digit(url, src[s] / 4), Digit(url, src[s] % 4 * 16 + src[s + 1] / 16),
                    Digit(url, src[s + 1] % 16 * 4 + src[s + 2] / 64), Digit(url, src[s + 2] % 64)];
      assert before + (Group(url, [src[s], src[s + 1], src[s + 2]]) + Encode(url, src[s + 3..]))
          == dst + Encode(url, src[s + 3..]);
      s := s + 3;
      len := len - 3;
    }
    EncodeLast(url, src, s);
    if len > 0 {
      dst := dst + [Digit(url, src[s] / 4)];
      if len == 1 {
        dst := dst + [Digit(url, src[s] % 4 * 16)];
        if padding {
          dst := dst + [PAD];
        }
      } else {
        dst := dst + [Digit(url, src[s] % 4 * 16 + src[s + 1] / 16)];
        dst := dst + [Digit(url, src[s + 1] % 16 * 4)];
      }
      if padding {
        dst := dst + [PAD];
      }
    }
  }

  lemma GroupOfThree(url: bool, a: Byte, b: Byte, c: Byte)
    ensures Group(url, [a, b, c]) == [Digit(url, a / 4), Digit(url, a % 4 * 16 + b / 16),
                                      Digit(url, b % 16 * 4 + c / 64), Digit(url, c % 64)]
  {
    hide Digit;
  }

  // The last one or two bytes
  lemma EncodeLast(url: bool, src: seq<Byte>, s: nat)
    requires s <= |src| < s + 3
    ensures |src| == s ==> Encode(url, src[s..]) == []
    ensures |src| == s + 1 ==> Encode(url, src[s..]) == [Digit(url, src[s] / 4), Digit(url, src[s] % 4 * 16)]
    ensures |src| == s + 2 ==>
              Encode(url, src[s..]) == [Digit(url, src[s] / 4), Digit(url, src[s] % 4 * 16 + src[s + 1] / 16),
                                        Digit(url, src[s + 1] % 16 * 4)]
  {
    hide Digit;
  }

  lemma EncodeStep(url: bool, src: seq<Byte>, s: nat)
    requires s + 3 <= |src|
    ensures Encode(url, src[s..]) == Group(url, [src[s], src[s + 1], src[s + 2]]) + Encode(url, src[s + 3..])
  {
    EncodeThree(url, src[s..]);
    assert src[s..][..3] == [src[s], src[s + 1], src[s + 2]] && src[s..][3..] == src[s + 3..];
  }

  lemma EncodeThree(url: bool, s: seq<Byte>)
    requires |s| >= 3
    ensures Encode(url, s) == Group(url, s[..3]) + Encode(url, s[3..])
  {
    hide Group;
    if |s| == 3 {
      assert s[..3] == s && s[3..] == [];
    }
  }

  // -------- decoding --------

  // The characters up to the padding
  function Body(t: seq<Byte>): seq<Byte> {
    if t == [] || t[0] == PAD then [] else [t[0]] + Body(t[1..])
  }

  ghost predicate AllDigits(url: bool, t: seq<Byte>) {
    forall i :: 0 <= i < |t| ==> Value(url, t[i]) != NONE
  }

  // The low bits of one value and the high bits of the next
  function Byte0(v: nat, w: nat): Byte {
    v * 4 % 256 + w / 16 % 4
  }

  function Byte1(v: nat, w: nat): Byte {
    v * 16 % 256 + w / 4 % 16
  }

  function Byte2(v: nat, w: nat): Byte {
    v * 64 % 256 + w % 64
  }

  function Ungroup(url: bool, t: seq<Byte>): seq<Byte>
    requires 2 <= |t| <= 4
  {
    [Byte0(Value(url, t[0]), Value(url, t[1]))]
    + (if |t| > 2 then [Byte1(Value(url, t[1]), Value(url, t[2]))] else [])
    + (if |t| > 3 then [Byte2(Value(url, t[2]), Value(url, t[3]))] else [])
  }

  function Decode(url: bool, t: seq<Byte>): seq<Byte> {
    if |t| < 2 then []
    else if |t| <= 4 then Ungroup(url, t)
    else Ungroup(url, t[..4]) + Decode(url, t[4..])
  }

  method DecodeBase64(url: bool, src: seq<Byte>) returns (r: Option<seq<Byte>>)
    ensures r == if AllDigits(url, Body(src)) && |Body(src)| % 4 != 1 then Some(Decode(url, Body(src))) else None
  {
    hide AllDigits, Body, Decode;
    var ok, len := FindBody(url, src);
    if !ok || len % 4 == 1 {
      return None;
    }
    var dst := DecodeBody(url, src[..len]);
    r := Some(dst);
  }

  // The characters up to the padding or the end, if they are all digits
  method FindBody(url: bool, src: seq<Byte>) returns (ok: bool, len: nat)
    ensures ok <==> AllDigits(url, Body(src))
    ensures ok ==> len <= |src| && Body(src) == src[..len]
  {
    hide Value;
    len := 0;
    assert src[0..] == src;
    while len < |src|
      invariant len <= |src| && Body(src) == src[..len] + Body(src[len..]) && AllDigits(url, src[..len])
    {
      assert src[len..][1..] == src[len + 1..];
      if src[len] == PAD {
        break;
      }
      if Value(url, src[len]) == NONE {
        assert Body(src)[len] == src[len];
        return false, len;
      }
      assert src[..len + 1] == src[..len] + [src[len]];
      len := len + 1;
    }
    assert Body(src) == src[..len];
    ok := true;
  }

  method DecodeBody(url: bool, body: seq<Byte>) returns (dst: seq<Byte>)
    requires |body| % 4 != 1
    ensures dst == Decode(url, body)
  {
    hide Decode, Ungroup, Value, Byte0, Byte1, Byte2;
    dst := [];
    var s: nat, len: nat := 0, |body|;
    assert body[0..] == body;
    while len > 3
      invariant s + len == |body| && len % 4 == |body| % 4 && dst + Decode(url, body[s..]) == Decode(url, body)
    {
      ghost var before := dst;
      DecodeStep(url, body, s);
      dst := dst + [Byte0(Value(url, body[s]), Value(url, body[s + 1])),
                    Byte1(Value(url, body[s + 1]), Value(url, body[s + 2])),
                    Byte2(Value(url, body[s + 2]), Value(url, body[s + 3]))];
      assert before + (dst[|before|..] + Decode(url, body[s + 4..])) == dst + Decode(url, body[s + 4..]);
      s := s + 4;
      len := len - 4;
    }
    DecodeLast(url, body, s);
    if len > 1 {
      dst := dst + [Byte0(Value(url, body[s]), Value(url, body[s + 1]))];
    }
    if len > 2 {
      dst := dst + [Byte1(Value(url, body[s + 1]), Value(url, body[s + 2]))];
    }
  }

  lemma DecodeLast(url: bool, t: seq<Byte>, s: nat)
    requires s <= |t| < s + 4 && |t| != s + 1
    ensures |t| == s ==> Decode(url, t[s..]) == []
    ensures |t| == s + 2 ==> Decode(url, t[s..]) == [Byte0(Value(url, t[s]), Value(url, t[s + 1]))]
    ensures |t| == s + 3 ==>
              Decode(url, t[s..]) == [Byte0(Value(url, t[s]), Value(url, t[s + 1])),
                                      Byte1(Value(url, t[s + 1]), Value(url, t[s + 2]))]
  {
    hide Value, Byte0, Byte1, Byte2;
  }

  lemma DecodeStep(url: bool, t: seq<Byte>, s: nat)
    requires s + 4 <= |t|
    ensures Decode(url, t[s..])
         == [Byte0(Value(url, t[s]), Value(url, t[s + 1])), Byte1(Value(url, t[s + 1]), Value(url, t[s + 2])),
             Byte2(Value(url, t[s + 2]), Value(url, t[s + 3]))] + Decode(url, t[s + 4..])
  {
    hide Value, Byte0, Byte1, Byte2, Decode;
    DecodeFour(url, t[s..]);
    assert t[s..][..4] == [t[s], t[s + 1], t[s + 2], t[s + 3]] && t[s..][4..] == t[s + 4..];
  }

  lemma DecodeFour(url: bool, t: seq<Byte>)
    requires |t| >= 4
    ensures Decode(url, t) == Ungroup(url, t[..4]) + Decode(url, t[4..])
  {
    hide Ungroup;
    if |t| == 4 {
      assert t[..4] == t && t[4..] == [];
    }
  }

  // -------- there and back --------

  // No group holds a padding character, and it decodes to its bytes.
  lemma GroupBack(url: bool, s: seq<Byte>)
    requires 1 <= |s| <= 3
    ensures Ungroup(url, Group(url, s)) == s && AllDigits(url, Group(url, s)) && PAD !in Group(url, s)
  {
    hide *;
    if |s| == 1 {
      assert s == [s[0]];
      BackOne(url, s[0]);
    } else if |s| == 2 {
      assert s == [s[0], s[1]];
      BackTwo(url, s[0], s[1]);
    } else {
      assert s == [s[0], s[1], s[2]];
      BackThree(url, s[0], s[1], s[2]);
    }
  }

  lemma BackOne(url: bool, a: Byte)
    ensures Ungroup(url, Group(url, [a])) == [a]
    ensures AllDigits(url, Group(url, [a])) && PAD !in Group(url, [a])
  {
    hide Digit, Value, Byte0, Byte1, Byte2;
    DigitBack(url, a / 4);
    DigitBack(url, a % 4 * 16);
    Halves0(a, 0);
  }

  lemma BackTwo(url: bool, a: Byte, b: Byte)
    ensures Ungroup(url, Group(url, [a, b])) == [a, b]
    ensures AllDigits(url, Group(url, [a, b])) && PAD !in Group(url, [a, b])
  {
    hide Digit, Value, Byte0, Byte1, Byte2;
    DigitBack(url, a / 4);
    DigitBack(url, a % 4 * 16 + b / 16);
    DigitBack(url, b % 16 * 4);
    Halves0(a, b);
    Halves1(a, b, 0);
  }

  lemma BackThree(url: bool, a: Byte, b: Byte, c: Byte)
    ensures Ungroup(url, Group(url, [a, b, c])) == [a, b, c]
    ensures AllDigits(url, Group(url, [a, b, c])) && PAD !in Group(url, [a, b, c])
  {
    hide Digit, Value, Byte0, Byte1, Byte2;
    DigitBack(url, a / 4);
    DigitBack(url, a % 4 * 16 + b / 16);
    DigitBack(url, b % 16 * 4 + c / 64);
    DigitBack(url, c % 64);
    Halves0(a, b);
    Halves1(a, b, c);
    Halves2(b, c);
  }

  lemma Halves0(a: Byte, b: Byte)
    ensures Byte0(a / 4, a % 4 * 16 + b / 16) == a
  {
  }

  lemma Halves1(a: Byte, b: Byte, c: Byte)
    ensures Byte1(a % 4 * 16 + b / 16, b % 16 * 4 + c / 64) == b
  {
  }

  lemma Halves2(b: Byte, c: Byte)
    ensures Byte2(b % 16 * 4 + c / 64, c % 64) == c
  {
  }

  // What Encode writes: digits only, never one over a multiple of four, and no padding.
  lemma {:induction false} EncodedDigits(url: bool, s: seq<Byte>)
    ensures AllDigits(url, Encode(url, s)) && PAD !in Encode(url, s) && |Encode(url, s)| % 4 != 1
    ensures |Encode(url, s)| == |s| / 3 * 4 + (if |s| % 3 == 0 then 0 else |s| % 3 + 1)
  {
    hide Group, Value;
    if |s| > 0 {
      var a := if |s| <= 3 then s else s[..3];
      GroupBack(url, a);
      GroupLength(url, a);
      if |s| > 3 {
        EncodedDigits(url, s[3..]);
        var g, e := Group(url, a), Encode(url, s[3..]);
        assert Encode(url, s) == g + e;
        forall i | 0 <= i < |g + e|
          ensures Value(url, (g + e)[i]) != NONE
        {
          assert (g + e)[i] == if i < |g| then g[i] else e[i - |g|];
        }
      }
    }
  }

  lemma GroupLength(url: bool, s: seq<Byte>)
    requires 1 <= |s| <= 3
    ensures |Group(url, s)| == |s| + 1
  {
    hide Digit;
  }

  lemma {:induction false} DecodedEncoded(url: bool, s: seq<Byte>)
    ensures Decode(url, Encode(url, s)) == s
  {
    hide Group, Ungroup;
    if |s| > 0 {
      var a := if |s| <= 3 then s else s[..3];
      GroupBack(url, a);
      GroupLength(url, a);
      if |s| > 3 {
        DecodedEncoded(url, s[3..]);
        var e := Encode(url, s[3..]);
        DecodeFour(url, Group(url, a) + e);
        assert (Group(url, a) + e)[..4] == Group(url, a) && (Group(url, a) + e)[4..] == e;
        assert s == s[..3] + s[3..];
      }
    }
  }

  lemma {:induction false} BodyPadded(t: seq<Byte>, n: nat)
    requires PAD !in t
    ensures Body(t + Padding(n)) == t
  {
    var u := t + Padding(n);
    if t != [] {
      assert u[1..] == t[1..] + Padding(n) && u[0] == t[0] && t[0] in t;
      assert forall c :: c in t[1..] ==> c in t;
      BodyPadded(t[1..], n);
    }
  }

  // The length macros of the header bound both results.
  lemma Lengths(url: bool, s: seq<Byte>, t: seq<Byte>)
    ensures |Encode(url, s) + Padding(|s| % 3)| == (|s| + 2) / 3 * 4
    ensures |Decode(url, Body(t))| <= (|t| + 3) / 4 * 3
  {
    hide Encode, Decode;
    EncodedDigits(url, s);
    DecodedLength(url, Body(t));
    BodyLength(t);
  }

  lemma {:induction false} DecodedLength(url: bool, t: seq<Byte>)
    ensures |Decode(url, t)| <= (|t| + 3) / 4 * 3
  {
    hide Value, Byte0, Byte1, Byte2;
    if |t| > 4 {
      DecodedLength(url, t[4..]);
    }
  }

  lemma {:induction false} BodyLength(t: seq<Byte>)
    ensures |Body(t)| <= |t|
  {
    if t != [] {
      BodyLength(t[1..]);
    }
  }

  // Decoding undoes encoding, with and without padding.
  method ThereAndBack(url: bool, padding: bool, s: seq<Byte>) returns (r: Option<seq<Byte>>)
    ensures r == Some(s)
  {
    hide Encode, Decode, Body, AllDigits, Padding;
    var t := EncodeBase64(url, padding, s);
    EncodedDigits(url, s);
    DecodedEncoded(url, s);
    BodyPadded(Encode(url, s), if padding then |s| % 3 else 0);
    NoPadding();
    r := DecodeBase64(url, t);
  }

  lemma NoPadding()
    ensures Padding(0) == []
  {
  }
}
