// Escaping and unescaping of URIs: ngx_escape_uri and ngx_unescape_uri.

module Uri {
  import opened ByteStrings

  const PERCENT: Byte := '%' as int
  const QUESTION: Byte := '?' as int

  // NGX_ESCAPE_REFRESH
  const REFRESH: nat := 4

  // The bits of the characters to escape, a word for 32 of them: uri, args, uri_component,
  // html, refresh, and memcached for the last two types. In the refresh map the bits of '}'
  // and '~' are not those of the comment beside them.
  const MAPS: seq<seq<bv32>> := [
    [0xffffffff, 0xd000002d, 0x50000000, 0xb8000001, 0xffffffff, 0xffffffff, 0xffffffff, 0xffffffff],
    [0xffffffff, 0xd800086d, 0x50000000, 0xb8000001, 0xffffffff, 0xffffffff, 0xffffffff, 0xffffffff],
    [0xffffffff, 0xfc009fff, 0x78000001, 0xb8000001, 0xffffffff, 0xffffffff, 0xffffffff, 0xffffffff],
    [0xffffffff, 0x500000ad, 0x50000000, 0xb8000001, 0xffffffff, 0xffffffff, 0xffffffff, 0xffffffff],
    [0xffffffff, 0x50000085, 0x50000000, 0xd8000001, 0xffffffff, 0xffffffff, 0xffffffff, 0xffffffff],
    [0xffffffff, 0x00000021, 0x00000000, 0x00000000, 0x00000000, 0x00000000, 0x00000000, 0x00000000],
    [0xffffffff, 0x00000021, 0x00000000, 0x00000000, 0x00000000, 0x00000000, 0x00000000, 0x00000000]
  ]

  predicate Set(w: bv32, k: nat)
    requires k < 32
  {
    w & ((1 as bv32) << k) != 0
  }

  // escape[c >> 5] & (1U << (c & 0x1f))
  predicate Escapes(kind: nat, c: Byte)
    requires kind < 7
  {
    Set(MAPS[kind][c / 32], c % 32)
  }

  function HexDigit(n: nat): Byte
    requires n < 16
  {
    if n < 10 then 48 + n else 65 + n - 10
  }

  // The value of a digit, or -1
  function HexValue(c: Byte): int {
    if 48 <= c <= 57 then c - 48
    else if 65 <= c <= 70 then c - 65 + 10
    else if 97 <= c <= 102 then c - 97 + 10
    else -1
  }

  // -------- which characters are escaped --------

  // The printable characters that are escaped, type by type
  function Specials(kind: nat): string {
    match kind
    case 0 => "\"#%<>?\\^`{|}"
    case 1 => "\"#%&+;<>?\\^`{|}"
    case 2 => "!\"#$%&'()*+,/:;<=>?@[\\]^`{|}"
    case 3 => "\"#%'<>\\^`{|}"
    case 4 => "\"'<>\\^`{|~"
    case _ => "%"
  }

  // The space and what is below it, the specials of the type, and in the first five types
  // what is above the tilde
  predicate Special(kind: nat, c: Byte) {
    c <= 32 || (c < 127 && c as char in Specials(kind)) || (kind < 5 && c >= 127)
  }

  // The maps escape just these.
  lemma EscapesSpecials(kind: nat, c: Byte)
    requires kind < 7
    ensures Escapes(kind, c) <==> Special(kind, c)
  {
    hide Set, Special;
    if c < 32 || c >= 128 {
      Outside(kind, c);
    } else if c < 64 {
      Marks(kind, c);
    } else if c < 96 {
      Capitals(kind, c);
    } else {
      Smalls(kind, c);
    }
  }

  lemma Outside(kind: nat, c: Byte)
    requires kind < 7 && (c < 32 || c >= 128)
    ensures Escapes(kind, c) <==> Special(kind, c)
  {
    ThirtyTwo(c % 32);
  }

  lemma ThirtyTwo(k: nat)
    requires k < 32
    ensures k == 0 || k == 1 || k == 2 || k == 3 || k == 4 || k == 5 || k == 6 || k == 7 ||
            k == 8 || k == 9 || k == 10 || k == 11 || k == 12 || k == 13 || k == 14 || k == 15 ||
            k == 16 || k == 17 || k == 18 || k == 19 || k == 20 || k == 21 || k == 22 || k == 23 ||
            k == 24 || k == 25 || k == 26 || k == 27 || k == 28 || k == 29 || k == 30 || k == 31
  {
  }

  lemma Codes(kind: nat, c: Byte)
    ensures
      c as char in Specials(kind) <==>
      match kind
      case 0 => c == 34 || c == 35 || c == 37 || c == 60 || c == 62 || c == 63 || c == 92 || c == 94 || c == 96 ||
                123 <= c <= 125
      case 1 => c == 34 || c == 35 || c == 37 || c == 38 || c == 43 || c == 59 || c == 60 || c == 62 || c == 63 ||
                c == 92 || c == 94 || c == 96 || 123 <= c <= 125
      case 2 => 33 <= c <= 44 || c == 47 || 58 <= c <= 64 || 91 <= c <= 94 || c == 96 || 123 <= c <= 125
      case 3 => c == 34 || c == 35 || c == 37 || c == 39 || c == 60 || c == 62 || c == 92 || c == 94 || c == 96 ||
                123 <= c <= 125
      case 4 => c == 34 || c == 39 || c == 60 || c == 62 || c == 92 || c == 94 || c == 96 || c == 123 ||
                c == 124 || c == 126
      case _ => c == 37
  {
  }

  lemma UriMarks(k: nat)
    requires k < 32
    ensures Set(0xd000002d, k) <==> k == 0 || k == 2 || k == 3 || k == 5 || k == 28 || k == 30 || k == 31
  {
    ThirtyTwo(k);
  }

  lemma ArgsMarks(k: nat)
    requires k < 32
    ensures Set(0xd800086d, k) <==> k == 0 || k == 2 || k == 3 || k == 5 || k == 6 || k == 11 || k == 27 ||
                                    k == 28 || k == 30 || k == 31
  {
    ThirtyTwo(k);
  }

  lemma ComponentMarks(k: nat)
    requires k < 32
    ensures Set(0xfc009fff, k) <==> 0 <= k <= 12 || k == 15 || 26 <= k <= 31
  {
    ThirtyTwo(k);
  }

  lemma HtmlMarks(k: nat)
    requires k < 32
    ensures Set(0x500000ad, k) <==> k == 0 || k == 2 || k == 3 || k == 5 || k == 7 || k == 28 || k == 30
  {
    ThirtyTwo(k);
  }

  lemma RefreshMarks(k: nat)
    requires k < 32
    ensures Set(0x50000085, k) <==> k == 0 || k == 2 || k == 7 || k == 28 || k == 30
  {
    ThirtyTwo(k);
  }

  lemma PlainMarks(k: nat)
    requires k < 32
    ensures Set(0x00000021, k) <==> k == 0 || k == 5
  {
    ThirtyTwo(k);
  }

  lemma UriCapitals(k: nat)
    requires k < 32
    ensures Set(0x50000000, k) <==> k == 28 || k == 30
  {
    ThirtyTwo(k);
  }

  lemma ComponentCapitals(k: nat)
    requires k < 32
    ensures Set(0x78000001, k) <==> k == 0 || 27 <= k <= 30
  {
    ThirtyTwo(k);
  }

  lemma UriSmalls(k: nat)
    requires k < 32
    ensures Set(0xb8000001, k) <==> k == 0 || 27 <= k <= 29 || k == 31
  {
    ThirtyTwo(k);
  }

  lemma RefreshSmalls(k: nat)
    requires k < 32
    ensures Set(0xd8000001, k) <==> k == 0 || k == 27 || k == 28 || k == 30 || k == 31
  {
    ThirtyTwo(k);
  }

  lemma NoBit(k: nat)
    requires k < 32
    ensures !Set(0, k)
  {
    ThirtyTwo(k);
  }

  lemma Marks(kind: nat, c: Byte)
    requires kind < 7 && 32 <= c < 64
    ensures Escapes(kind, c) <==> Special(kind, c)
  {
    hide Set, Specials;
    Codes(kind, c);
    assert c % 32 == c - 32;
    match kind {
      case 0 => UriMarks(c - 32);
      case 1 => ArgsMarks(c - 32);
      case 2 => ComponentMarks(c - 32);
      case 3 => HtmlMarks(c - 32);
      case 4 => RefreshMarks(c - 32);
      case _ => PlainMarks(c - 32);
    }
  }

  lemma Capitals(kind: nat, c: Byte)
    requires kind < 7 && 64 <= c < 96
    ensures Escapes(kind, c) <==> Special(kind, c)
  {
    hide Set, Specials;
    Codes(kind, c);
    assert c % 32 == c - 64;
    match kind {
      case 0 => UriCapitals(c - 64);
      case 1 => UriCapitals(c - 64);
      case 2 => ComponentCapitals(c - 64);
      case 3 => UriCapitals(c - 64);
      case 4 => UriCapitals(c - 64);
      case _ => NoBit(c - 64);
    }
  }

  lemma Smalls(kind: nat, c: Byte)
    requires kind < 7 && 96 <= c < 128
    ensures Escapes(kind, c) <==> Special(kind, c)
  {
    hide Set, Specials;
    Codes(kind, c);
    assert c % 32 == c - 96;
    match kind {
      case 0 => UriSmalls(c - 96);
      case 1 => UriSmalls(c - 96);
      case 2 => UriSmalls(c - 96);
      case 3 => UriSmalls(c - 96);
      case 4 => RefreshSmalls(c - 96);
      case _ => NoBit(c - 96);
    }
  }

  // The digits of an escape are not escaped themselves.
  lemma DigitPlain(kind: nat, n: nat)
    requires kind < 7 && n < 16
    ensures !Escapes(kind, HexDigit(n))
  {
    hide Escapes, Specials;
    EscapesSpecials(kind, HexDigit(n));
    Codes(kind, HexDigit(n));
  }

  // -------- ngx_escape_uri --------

  function EscapeOne(kind: nat, c: Byte): seq<Byte>
    requires kind < 7
  {
    if Escapes(kind, c) then [PERCENT, HexDigit(c / 16), HexDigit(c % 16)] else [c]
  }

  function Escaped(kind: nat, s: seq<Byte>): seq<Byte>
    requires kind < 7
  {
    if s == [] then [] else EscapeOne(kind, s[0]) + Escaped(kind, s[1..])
  }

  lemma {:induction false} EscapedSnoc(kind: nat, s: seq<Byte>, c: Byte)
    requires kind < 7
    ensures Escaped(kind, s + [c]) == Escaped(kind, s) + EscapeOne(kind, c)
  {
    hide EscapeOne;
    if s == [] {
      assert s + [c] == [c];
    } else {
      assert (s + [c])[1..] == s[1..] + [c];
      EscapedSnoc(kind, s[1..], c);
    }
  }

  // With no destination, the characters to escape are counted.
  method CountEscapes(kind: nat, src: seq<Byte>) returns (n: nat)
    requires kind < 7
    ensures |Escaped(kind, src)| == |src| + 2 * n
  {
    hide Escapes;
    n := 0;
    var i := 0;
    while i < |src|
      invariant i <= |src| && |Escaped(kind, src[..i])| == i + 2 * n
    {
      EscapedSnoc(kind, src[..i], src[i]);
      assert src[..i + 1] == src[..i] + [src[i]];
      if Escapes(kind, src[i]) {
        n := n + 1;
      }
      i := i + 1;
    }
    assert src[..i] == src;
  }

  // A percent sign and two digits, with capitals
  ghost predicate EscapeAt(t: seq<Byte>, j: nat) {
    j + 2 < |t| && t[j] == PERCENT && IsDigit(t[j + 1]) && IsDigit(t[j + 2])
  }

  predicate IsDigit(c: Byte) {
    c as char in "0123456789ABCDEF"
  }

  lemma DigitIs(n: nat)
    requires n < 16
    ensures IsDigit(HexDigit(n)) && HexDigit(n) as char == "0123456789ABCDEF"[n]
  {
    Sixteen(n);
  }

  ghost predicate OnlyEscapes(kind: nat, t: seq<Byte>) {
    forall j :: 0 <= j < |t| && Special(kind, t[j]) ==> EscapeAt(t, j)
  }

  // Of the special characters the escaped string has the percent signs of its escapes alone.
  lemma {:induction false} EscapesOnly(kind: nat, s: seq<Byte>)
    requires kind < 7
    ensures OnlyEscapes(kind, Escaped(kind, s))
  {
    hide Escapes, HexDigit, Special, IsDigit;
    if s != [] {
      var c, one, rest := s[0], EscapeOne(kind, s[0]), Escaped(kind, s[1..]);
      var t := one + rest;
      EscapesOnly(kind, s[1..]);
      EscapesSpecials(kind, c);
      forall j | 0 <= j < |t| && Special(kind, t[j])
        ensures EscapeAt(t, j)
      {
        if j >= |one| {
          assert t[j] == rest[j - |one|];
          assert EscapeAt(rest, j - |one|);
        } else {
          NoSpecial(kind, c / 16);
          NoSpecial(kind, c % 16);
          DigitIs(c / 16);
          DigitIs(c % 16);
        }
      }
    }
  }

  lemma NoSpecial(kind: nat, n: nat)
    requires kind < 7 && n < 16
    ensures !Special(kind, HexDigit(n))
  {
    hide Escapes, Special, HexDigit;
    DigitPlain(kind, n);
    EscapesSpecials(kind, HexDigit(n));
  }

  method EscapeUri(kind: nat, src: seq<Byte>) returns (dst: seq<Byte>)
    requires kind < 7
    ensures dst == Escaped(kind, src)
    ensures OnlyEscapes(kind, dst)
  {
    hide Escapes, HexDigit, OnlyEscapes;
    EscapesOnly(kind, src);
    dst := [];
    var i := 0;
    while i < |src|
      invariant i <= |src| && dst == Escaped(kind, src[..i])
    {
      var c := src[i];
      EscapedSnoc(kind, src[..i], c);
      assert src[..i + 1] == src[..i] + [c];
      if Escapes(kind, c) {
        dst := dst + [PERCENT, HexDigit(c / 16), HexDigit(c % 16)];
      } else {
        dst := dst + [c];
      }
      i := i + 1;
    }
    assert src[..i] == src;
  }

  // -------- ngx_unescape_uri --------

  // `first` is the first digit behind a percent sign.
  datatype State = Usual | Quoted | Second(first: Byte)

  // What is written for a character, the state behind it, and whether that is the end.
  datatype Step = Step(out: seq<Byte>, next: State, done: bool)

  // The NGX_UNESCAPE_URI and NGX_UNESCAPE_REDIRECT bits of the type
  datatype Mode = Mode(uri: bool, redirect: bool)

  // A character that was quoted, in a redirect: only some are unquoted.
  function Redirected(first: Byte, ch: Byte, c: Byte): seq<Byte> {
    if PERCENT < c < 0x7f then [c] else [PERCENT, first, ch]
  }

  function Unescape(mode: Mode, st: State, ch: Byte): Step {
    match st
    case Usual =>
      if ch == QUESTION && (mode.uri || mode.redirect) then Step([ch], Usual, true)
      else if ch == PERCENT then Step([], Quoted, false)
      else Step([ch], Usual, false)
    case Quoted =>
      if HexValue(ch) >= 0 then Step([], Second(ch), false) else Step([ch], Usual, false)
    case Second(first) =>
      if HexValue(ch) < 0 || HexValue(first) < 0 then Step([], Usual, false)
      else
        var c := HexValue(first) * 16 + HexValue(ch);
        if 48 <= ch <= 57 then Step(if mode.redirect then Redirected(first, ch, c) else [c], Usual, false)
        else if c == QUESTION && (mode.uri || mode.redirect) then Step([c], Usual, true)
        else if mode.uri then Step([c], Usual, false)
        else Step(if mode.redirect then Redirected(first, ch, c) else [c], Usual, false)
  }

  function Run(mode: Mode, st: State, t: seq<Byte>): seq<Byte>
    decreases |t|
  {
    if t == [] then []
    else
      var step := Unescape(mode, st, t[0]);
      if step.done then step.out else step.out + Run(mode, step.next, t[1..])
  }

  lemma RunCons(mode: Mode, st: State, c: Byte, t: seq<Byte>)
    ensures
      var step := Unescape(mode, st, c);
      Run(mode, st, [c] + t) == if step.done then step.out else step.out + Run(mode, step.next, t)
  {
    hide Unescape;
    assert ([c] + t)[1..] == t;
  }

  method UnescapeUri(mode: Mode, src: seq<Byte>) returns (dst: seq<Byte>, s: nat)
    ensures dst == Run(mode, Usual, src) && s <= |src|
    ensures s == |src| || (dst != [] && dst[|dst| - 1] == QUESTION)
  {
    hide Run, Redirected;
    dst := [];
    s := 0;
    var quoted: nat, decoded: nat := 0, 0;
    ghost var st := Usual;
    assert src[0..] == src;
    while s < |src|
      invariant s <= |src| && dst + Run(mode, st, src[s..]) == Run(mode, Usual, src)
      invariant quoted == (if st.Usual? then 0 else if st.Quoted? then 1 else 2)
      invariant st.Second? ==> 0 < s && st.first == src[s - 1] && HexValue(st.first) == decoded < 16
    {
      var ch := src[s];
      assert src[s..] == [ch] + src[s + 1..];
      RunCons(mode, st, ch, src[s + 1..]);
      ghost var step, before := Unescape(mode, st, ch), dst;
      s := s + 1;
      if quoted == 0 {
        if ch == QUESTION && (mode.uri || mode.redirect) {
          dst := dst + [ch];
          return;
        }
        if ch == PERCENT {
          quoted := 1;
        } else {
          dst := dst + [ch];
        }
      } else if quoted == 1 {
        if HexValue(ch) >= 0 {
          decoded := HexValue(ch);
          quoted := 2;
        } else {
          quoted := 0;
          dst := dst + [ch];
        }
      } else {
        quoted := 0;
        if 48 <= ch <= 57 {
          var c := decoded * 16 + (ch - 48);
          dst := dst + if mode.redirect then Redirected(src[s - 2], ch, c) else [c];
        } else if HexValue(ch) >= 0 {
          var c := decoded * 16 + HexValue(ch);
          if c == QUESTION && (mode.uri || mode.redirect) {
            dst := dst + [c];
            return;
          }
          dst := dst + if mode.redirect && !mode.uri then Redirected(src[s - 2], ch, c) else [c];
        }
      }
      assert dst == before + step.out;
      assert before + (step.out + Run(mode, step.next, src[s..])) == dst + Run(mode, step.next, src[s..]);
      st := step.next;
    }
    RunNone(mode, st);
    assert src[s..] == [];
  }

  lemma RunNone(mode: Mode, st: State)
    ensures Run(mode, st, []) == []
  {
  }

  // -------- unescaping what was escaped --------

  function Plain(): Mode {
    Mode(false, false)
  }

  lemma HexBack(n: nat)
    requires n < 16
    ensures HexValue(HexDigit(n)) == n && HexDigit(n) != PERCENT
  {
  }

  // A digit of that value, in capitals or not
  ghost predicate DigitOf(a: Byte, n: nat) {
    n < 16 && (a as char == "0123456789abcdef"[n] || a as char == "0123456789ABCDEF"[n])
  }

  lemma DigitValue(a: Byte, n: nat)
    requires DigitOf(a, n)
    ensures HexValue(a) == n && a != PERCENT
  {
    Sixteen(n);
  }

  // An escape is read whatever the case of its digits.
  lemma QuotedRead(a: Byte, b: Byte, c: Byte, t: seq<Byte>)
    requires DigitOf(a, c / 16) && DigitOf(b, c % 16)
    ensures Run(Plain(), Usual, [PERCENT, a, b] + t) == [c] + Run(Plain(), Usual, t)
  {
    hide Run, HexValue, DigitOf;
    DigitValue(a, c / 16);
    DigitValue(b, c % 16);
    assert [PERCENT, a, b] + t == [PERCENT] + ([a] + ([b] + t));
    RunCons(Plain(), Usual, PERCENT, [a] + ([b] + t));
    RunCons(Plain(), Quoted, a, [b] + t);
    RunCons(Plain(), Second(a), b, t);
    assert [] + ([] + ([c] + Run(Plain(), Usual, t))) == [c] + Run(Plain(), Usual, t);
  }

  // In a redirect the escapes of control characters, of what comes before the ampersand and
  // of what comes after the tilde stay.
  lemma QuotedRedirect(a: Byte, b: Byte, c: Byte, t: seq<Byte>)
    requires DigitOf(a, c / 16) && DigitOf(b, c % 16) && c != QUESTION
    ensures
      Run(Mode(false, true), Usual, [PERCENT, a, b] + t)
      == (if '&' as int <= c <= '~' as int then [c] else [PERCENT, a, b]) + Run(Mode(false, true), Usual, t)
  {
    hide Run, HexValue, DigitOf;
    var m, rest := Mode(false, true), Run(Mode(false, true), Usual, t);
    DigitValue(a, c / 16);
    DigitValue(b, c % 16);
    assert [PERCENT, a, b] + t == [PERCENT] + ([a] + ([b] + t));
    RunCons(m, Usual, PERCENT, [a] + ([b] + t));
    RunCons(m, Quoted, a, [b] + t);
    RunCons(m, Second(a), b, t);
    var out := if '&' as int <= c <= '~' as int then [c] else [PERCENT, a, b];
    assert [] + ([] + (out + rest)) == out + rest;
  }

  // An escaped character is unescaped.
  lemma QuotedBack(c: Byte, t: seq<Byte>)
    ensures Run(Plain(), Usual, [PERCENT, HexDigit(c / 16), HexDigit(c % 16)] + t) == [c] + Run(Plain(), Usual, t)
  {
    hide Run, HexDigit, HexValue;
    DigitIs(c / 16);
    DigitIs(c % 16);
    QuotedRead(HexDigit(c / 16), HexDigit(c % 16), c, t);
  }

  predicate Clean(kind: nat, s: seq<Byte>)
    requires kind < 7
  {
    Escapes(kind, PERCENT) || PERCENT !in s
  }

  lemma {:induction false} CleanBack(kind: nat, s: seq<Byte>)
    requires kind < 7 && Clean(kind, s)
    ensures Run(Plain(), Usual, Escaped(kind, s)) == s
  {
    hide Run, Escapes;
    if s == [] {
      RunNone(Plain(), Usual);
    } else {
      var c, rest := s[0], Escaped(kind, s[1..]);
      assert s == [c] + s[1..];
      CleanBack(kind, s[1..]);
      if Escapes(kind, c) {
        QuotedBack(c, rest);
      } else {
        RunCons(Plain(), Usual, c, rest);
      }
    }
  }

  // -------- the percent sign that is not escaped --------

  // Of the seven maps only the refresh map lets the percent sign through.
  lemma OnlyRefresh(kind: nat)
    requires kind < 7
    ensures Escapes(kind, PERCENT) <==> kind != REFRESH
  {
    hide Escapes, Specials;
    EscapesSpecials(kind, PERCENT);
    Codes(kind, PERCENT);
  }

  // What a string weighs when the percent sign is escaped as well.
  function Weight(s: seq<Byte>): nat {
    if s == [] then 0
    else (if s[0] == PERCENT || Escapes(REFRESH, s[0]) then 3 else 1) + Weight(s[1..])
  }

  lemma {:induction false} WeightAppend(s: seq<Byte>, t: seq<Byte>)
    ensures Weight(s + t) == Weight(s) + Weight(t)
  {
    if s == [] {
      assert s + t == t;
    } else {
      assert (s + t)[1..] == s[1..] + t;
      WeightAppend(s[1..], t);
    }
  }

  function Costs(c: Byte): nat {
    if c == PERCENT || Escapes(REFRESH, c) then 3 else 1
  }

  lemma WeightCons(c: Byte, s: seq<Byte>)
    ensures Weight([c] + s) == Costs(c) + Weight(s) && Weight([]) == 0 && Weight([c]) == Costs(c) && 1 <= Costs(c) <= 3
  {
    assert ([c] + s)[1..] == s;
    assert [c][1..] == [];
  }

  // What is written for an escape, from each state.
  lemma EscapeRun(st: State, c: Byte, t: seq<Byte>)
    requires Escapes(REFRESH, c)
    ensures
      var a, b, rest := HexDigit(c / 16), HexDigit(c % 16), Run(Plain(), Usual, t);
      Run(Plain(), st, EscapeOne(REFRESH, c) + t) ==
      match st
      case Usual => [c] + rest
      case Quoted => [PERCENT] + ([a] + ([b] + rest))
      case Second(_) => [a] + ([b] + rest)
  {
    hide Run, HexDigit, HexValue, Escapes;
    var a, b := HexDigit(c / 16), HexDigit(c % 16);
    HexBack(c / 16);
    HexBack(c % 16);
    NotPercent();
    if st.Usual? {
      QuotedBack(c, t);
    } else {
      assert [PERCENT, a, b] + t == [PERCENT] + ([a] + ([b] + t));
      RunCons(Plain(), st, PERCENT, [a] + ([b] + t));
      RunCons(Plain(), Usual, a, [b] + t);
      RunCons(Plain(), Usual, b, t);
      assert [] + ([a] + ([b] + Run(Plain(), Usual, t))) == [a] + ([b] + Run(Plain(), Usual, t));
    }
  }

  lemma NotPercent()
    ensures HexValue(PERCENT) < 0
  {
  }

  lemma DigitCosts(n: nat)
    requires n < 16
    ensures Costs(HexDigit(n)) == 1
  {
    DigitPlain(REFRESH, n);
    HexBack(n);
  }

  // One character that is not escaped.
  lemma StepPlain(st: State, c: Byte)
    ensures
      var step := Unescape(Plain(), st, c);
      && !step.done
      && match st
         case Usual => step.out == (if c == PERCENT then [] else [c]) && step.next == if c == PERCENT then Quoted
           else Usual
         case Quoted =>
           if HexValue(c) >= 0 then step.out == [] && step.next == Second(c) else step.out == [c] && step.next == Usual
         case Second(_) => |step.out| <= 1 && step.next == Usual
  {
    hide HexValue;
  }

  lemma ShortWeight(s: seq<Byte>)
    requires |s| <= 1
    ensures Weight(s) <= 3
  {
    if |s| == 1 {
      WeightCons(s[0], []);
    }
  }

  lemma EscapedCons(c: Byte, t: seq<Byte>)
    ensures Escaped(REFRESH, [c] + t) == EscapeOne(REFRESH, c) + Escaped(REFRESH, t)
    ensures !Escapes(REFRESH, c) ==> EscapeOne(REFRESH, c) == [c]
    ensures (Escapes(REFRESH, c) ==> Costs(c) == 3 && c != PERCENT) && (c == PERCENT ==> Costs(c) == 3)
  {
    hide Escapes;
    OnlyRefresh(REFRESH);
    assert ([c] + t)[1..] == t;
  }

  // What comes out never weighs more than what went in, and less when a percent sign did.
  lemma {:induction false} Lighter(st: State, s: seq<Byte>)
    ensures
      var out := Weight(Run(Plain(), st, Escaped(REFRESH, s)));
      match st
      case Usual => out <= Weight(s) && (PERCENT in s ==> out < Weight(s))
      case Quoted => out < Weight(s) + 3
      case Second(_) => out < Weight(s) + 4
    decreases |s|
  {
    hide Run, Escapes, HexDigit, HexValue, Weight, Costs, Unescape, EscapeOne, Escaped;
    if s == [] {
      NothingEscaped();
      RunNone(Plain(), st);
      WeightCons(0, []);
    } else {
      var c, t := s[0], s[1..];
      assert s == [c] + t;
      WeightCons(c, t);
      EscapedCons(c, t);
      if Escapes(REFRESH, c) {
        Lighter(Usual, t);
        EscapeRun(st, c, Escaped(REFRESH, t));
        EscapeWeight(c, Run(Plain(), Usual, Escaped(REFRESH, t)));
      } else {
        var step := Unescape(Plain(), st, c);
        StepPlain(st, c);
        RunCons(Plain(), st, c, Escaped(REFRESH, t));
        Lighter(step.next, t);
        WeightAppend(step.out, Run(Plain(), step.next, Escaped(REFRESH, t)));
        ShortWeight(step.out);
        WeightCons(c, []);
        WeightCons(0, []);
      }
    }
  }

  lemma NothingEscaped()
    ensures Escaped(REFRESH, []) == []
  {
  }

  lemma EscapeWeight(c: Byte, rest: seq<Byte>)
    ensures
      var a, b := HexDigit(c / 16), HexDigit(c % 16);
      && Weight([c] + rest) == Costs(c) + Weight(rest)
      && Weight([a] + ([b] + rest)) == 2 + Weight(rest)
      && Weight([PERCENT] + ([a] + ([b] + rest))) == 5 + Weight(rest)
  {
    hide HexDigit, Weight;
    var a, b := HexDigit(c / 16), HexDigit(c % 16);
    DigitCosts(c / 16);
    DigitCosts(c % 16);
    WeightCons(c, rest);
    WeightCons(b, rest);
    WeightCons(a, [b] + rest);
    WeightCons(PERCENT, [a] + ([b] + rest));
  }

  // Unescaping undoes escaping, but when a percent sign was let through.
  lemma RoundTrip(kind: nat, s: seq<Byte>)
    requires kind < 7
    ensures Run(Plain(), Usual, Escaped(kind, s)) == s <==> kind != REFRESH || PERCENT !in s
  {
    hide Run, Escaped, Escapes, Weight;
    OnlyRefresh(kind);
    if kind != REFRESH || PERCENT !in s {
      CleanBack(kind, s);
    } else {
      Lighter(Usual, s);
    }
  }

  // In the refresh map "%41" is not escaped, and comes back as "A".
  method Ambiguous() returns (escaped: seq<Byte>, back: seq<Byte>)
    ensures escaped == [PERCENT, 52, 49] && back == [65]
  {
    hide Escaped, Escapes, Run;
    assert HexDigit(4) == 52 && HexDigit(1) == 49;
    PlainText();
    escaped := EscapeUri(REFRESH, [PERCENT, 52, 49]);
    var s;
    back, s := UnescapeUri(Plain(), escaped);
    QuotedBack(65, []);
    RunNone(Plain(), Usual);
    assert [PERCENT, HexDigit(65 / 16), HexDigit(65 % 16)] + [] == [PERCENT, 52, 49];
  }

  lemma PlainText()
    ensures Escaped(REFRESH, [PERCENT, 52, 49]) == [PERCENT, 52, 49]
  {
    hide Escapes;
    assert HexDigit(4) == 52 && HexDigit(1) == 49;
    OnlyRefresh(REFRESH);
    DigitPlain(REFRESH, 4);
    DigitPlain(REFRESH, 1);
    var s := [PERCENT, 52, 49];
    assert s[1..] == [52, 49] && s[1..][1..] == [49] && s[1..][1..][1..] == [];
    assert Escaped(REFRESH, s[1..][1..]) == [49];
    assert Escaped(REFRESH, s[1..]) == [52, 49];
  }
}
