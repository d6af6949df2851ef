// Reading back the text of an IPv6 address gives the address, and when it does not.

module Inet6RoundTrip {
  import opened ByteStrings
  import opened Options
  import opened Inet6Text
  import opened Inet6Parse

  // -------- numerals --------

  lemma DigitChar(n: nat)
    requires n < 16
    ensures HexValue(Digit(n)) == n && Digit(n) != ':' && Digit(n) != '.'
    ensures n < 10 ==> '0' <= Digit(n) <= '9' && Digit(n) as int == '0' as int + n
  {
  }

  lemma {:induction false} NumeralLength(n: nat, base: nat, k: nat)
    requires 2 <= base <= 16 && 1 <= k && n < Power(base, k)
    ensures 1 <= |Numeral(n, base)| <= k
    decreases k
  {
    hide Digit;
    PowerOne(base);
    if n >= base && k > 1 {
      Quotient(n, base, Power(base, k - 1));
      NumeralLength(n / base, base, k - 1);
    }
  }

  function Power(base: nat, k: nat): nat {
    if k == 0 then 1 else base * Power(base, k - 1)
  }

  lemma PowerOne(base: nat)
    ensures Power(base, 1) == base
  {
    assert Power(base, 0) == 1;
  }

  lemma Quotient(n: nat, base: nat, m: nat)
    requires 0 < base && n < base * m
    ensures n / base < m
  {
  }

  lemma HexLength(w: nat)
    requires w < 65536
    ensures 1 <= |Numeral(w, 16)| <= 4
  {
    assert Power(16, 2) == 256 && Power(16, 4) == 16 * (16 * Power(16, 2));
    NumeralLength(w, 16, 4);
  }

  lemma DecLength(b: nat)
    requires b < 256
    ensures 1 <= |Numeral(b, 10)| <= 3
  {
    assert Power(10, 1) == 10 && Power(10, 3) == 10 * (10 * Power(10, 1));
    NumeralLength(b, 10, 3);
  }

  // The value of the digits read as hexadecimal ones.
  function AsHex(n: nat, base: nat): nat
    requires 2 <= base <= 16
  {
    if n < base then n else AsHex(n / base, base) * 16 + n % base
  }

  lemma {:induction false} AsHexSame(n: nat)
    ensures AsHex(n, 16) == n
  {
    if n >= 16 {
      AsHexSame(n / 16);
    }
  }

  lemma RunOne(st: State, c: char, rest: string)
    requires st.State? && !st.stop
    ensures Run(st, [c] + rest) == Run(Step(st, c, rest), rest)
  {
    hide Step;
    assert ([c] + rest)[1..] == rest;
  }

  lemma StepDigit(st: State, d: nat, rest: string)
    requires st.State? && d < 16 && st.nibbles < 4
    ensures Step(st, Digit(d), rest) == st.(nibbles := st.nibbles + 1, word := st.word * 16 + d)
  {
    hide QuadValue;
    DigitChar(d);
  }

  lemma NumeralStep(n: nat, base: nat)
    requires 2 <= base <= 16
    ensures n < base ==> Numeral(n, base) == [Digit(n)] && AsHex(n, base) == n
    ensures n >= base ==> Numeral(n, base) == Numeral(n / base, base) + [Digit(n % base)]
                          && AsHex(n, base) == AsHex(n / base, base) * 16 + n % base
  {
    hide Digit;
  }

  lemma QuotientBounds(n: nat, base: nat)
    requires 2 <= base <= n
    ensures 0 < n / base < n
  {
  }

  lemma {:induction false} DigitsRun(st: State, n: nat, base: nat, rest: string)
    requires st.State? && !st.stop && st.nibbles == 0 && st.word == 0 && 2 <= base <= 16 && |Numeral(n, base)| <= 4
    ensures Run(st, Numeral(n, base) + rest)
         == Run(st.(nibbles := |Numeral(n, base)|, word := AsHex(n, base)), rest)
    decreases n
  {
    hide Run, Digit, Step, Numeral, AsHex;
    NumeralStep(n, base);
    if n < base {
      StepDigit(st, n, rest);
      RunOne(st, Digit(n), rest);
    } else {
      var q, d := n / base, n % base;
      QuotientBounds(n, base);
      var st' := st.(nibbles := |Numeral(q, base)|, word := AsHex(q, base));
      assert Numeral(n, base) + rest == Numeral(q, base) + ([Digit(d)] + rest);
      DigitsRun(st, q, base, [Digit(d)] + rest);
      StepDigit(st', d, rest);
      RunOne(st', Digit(d), rest);
    }
  }

  // -------- dotted quads --------

  lemma QuadOne(o: Octets, c: char, rest: string)
    requires o.Octets?
    ensures QuadRun(o, [c] + rest) == QuadRun(QuadStep(o, c), rest)
  {
    hide QuadStep;
    assert ([c] + rest)[1..] == rest;
  }

  lemma {:induction false} OctetRun(o: Octets, n: nat, rest: string)
    requires o.Octets? && o.octet == 0 && n < 256
    ensures QuadRun(o, Numeral(n, 10) + rest) == QuadRun(o.(octet := n), rest)
    decreases n
  {
    hide QuadRun, Digit;
    if n < 10 {
      DigitChar(n);
      QuadOne(o, Digit(n), rest);
    } else {
      var d := n % 10;
      DigitChar(d);
      assert Numeral(n, 10) + rest == Numeral(n / 10, 10) + ([Digit(d)] + rest);
      OctetRun(o, n / 10, [Digit(d)] + rest);
      QuadOne(o.(octet := n / 10), Digit(d), rest);
    }
  }

  lemma OctetDot(o: Octets, n: nat, rest: string)
    requires o.Octets? && o.octet == 0 && n < 256
    ensures QuadRun(o, Numeral(n, 10) + "." + rest) == QuadRun(Octets((o.addr * 256 + n) % WORD32, 0, o.dots + 1), rest)
  {
    hide QuadRun, Numeral;
    assert Numeral(n, 10) + "." + rest == Numeral(n, 10) + (['.'] + rest);
    OctetRun(o, n, ['.'] + rest);
    QuadOne(o.(octet := n), '.', rest);
  }

  // ngx_inet_addr gives the four bytes back, but 255.255.255.255 stands for an error.
  lemma QuadBack(a: Byte, b: Byte, c: Byte, d: Byte)
    ensures QuadValue(DottedQuad(a, b, c, d)) == ((a * 256 + b) * 256 + c) * 256 + d
    ensures QuadValue(DottedQuad(a, b, c, d)) == INADDR_NONE <==> a == b == c == d == 255
  {
    hide QuadRun, Numeral;
    var t1, t2, t3 := Numeral(d, 10), Numeral(c, 10) + "." + Numeral(d, 10),
                      Numeral(b, 10) + "." + (Numeral(c, 10) + "." + Numeral(d, 10));
    assert DottedQuad(a, b, c, d) == Numeral(a, 10) + "." + t3;
    OctetDot(Octets(0, 0, 0), a, t3);
    OctetDot(Octets(a, 0, 1), b, t2);
    OctetDot(Octets(a * 256 + b, 0, 2), c, t1);
    assert t1 == t1 + "";
    OctetRun(Octets((a * 256 + b) * 256 + c, 0, 3), d, "");
    QuadEnd(Octets((a * 256 + b) * 256 + c, d, 3));
  }

  lemma QuadEnd(o: Octets)
    ensures QuadRun(o, "") == o
  {
  }

  // -------- the words --------

  ghost predicate Clean(st: State) {
    st.State? && !st.stop && st.nibbles == 0 && st.word == 0
  }

  lemma WordBack(p: Address, k: nat)
    requires k < 8
    ensures Bytes(Word(p, k)) == p[2 * k..2 * k + 2] && Word(p, k) < 65536
  {
  }

  lemma WordRun(st: State, w: nat, rest: string)
    requires Clean(st) && w < 65536
    ensures Run(st, Numeral(w, 16) + rest) == Run(st.(nibbles := |Numeral(w, 16)|, word := w), rest)
    ensures 1 <= |Numeral(w, 16)|
  {
    hide Run, Numeral, AsHex;
    HexLength(w);
    AsHexSame(w);
    DigitsRun(st, w, 16, rest);
  }

  lemma WordColon(st: State, w: nat, rest: string)
    requires Clean(st) && w < 65536 && 1 < st.left
    ensures Run(st, Numeral(w, 16) + ":" + rest)
         == Run(State(st.out + Bytes(w), st.zero, Some(rest), 0, 0, st.left - 1, false), rest)
  {
    hide Run, Numeral, Bytes, QuadValue, HexValue;
    assert Numeral(w, 16) + ":" + rest == Numeral(w, 16) + ([':'] + rest);
    WordRun(st, w, [':'] + rest);
    RunOne(st.(nibbles := |Numeral(w, 16)|, word := w), ':', rest);
  }

  lemma GapColon(st: State, rest: string)
    requires Clean(st) && st.zero < 0
    ensures Run(st, ":" + rest) == Run(st.(tail := Some(rest), zero := |st.out|), rest)
  {
    hide Run, Bytes, QuadValue, HexValue;
    RunOne(st, ':', rest);
  }

  // The words before the gap.
  lemma {:induction false} BeforeGap(p: Address, st: State, i: nat, n: nat, z: nat, m: nat, rest: string)
      returns (st': State)
    requires i <= z < 7 && z < n <= 8 && 0 < m && Clean(st) && st.out == p[..2 * i] && st.left == 8 - i
    ensures Clean(st') && st'.out == p[..2 * z] && st'.left == 8 - z && st'.zero == st.zero
    ensures Run(st, Body(p, i, n, z, m) + rest) == Run(st', Body(p, z, n, z, m) + rest)
    decreases z - i
  {
    hide Run, Numeral, Word, Bytes, Step;
    if i == z {
      st' := st;
    } else {
      var w, more := Word(p, i), Body(p, i + 1, n, z, m) + rest;
      WordBack(p, i);
      assert Body(p, i, n, z, m) + rest == Numeral(w, 16) + ":" + more;
      WordColon(st, w, more);
      assert p[..2 * i] + p[2 * i..2 * i + 2] == p[..2 * (i + 1)];
      st' := BeforeGap(p, State(st.out + Bytes(w), st.zero, Some(more), 0, 0, st.left - 1, false), i + 1, n, z, m,
                       rest);
    }
  }

  // The words behind the gap, or all when there is none.
  lemma {:induction false} AfterGap(p: Address, st: State, i: nat, z: int, m: nat) returns (st': State)
    requires z < i < 8 && (z >= 0 ==> 0 < m) && Clean(st) && 8 - i <= st.left
    ensures st'.State? && st'.out == st.out + p[2 * i..14] && st'.left == st.left - (7 - i) && st'.zero == st.zero
    ensures 0 < st'.nibbles && st'.word == Word(p, 7) && Run(st, Body(p, i, 8, z, m)) == st'
    decreases 8 - i
  {
    hide Run, Numeral, Word, Bytes, Step;
    var w := Word(p, i);
    WordBack(p, i);
    if i == 7 {
      assert Body(p, 8, 8, z, m) == "";
      assert Body(p, i, 8, z, m) == Numeral(w, 16) + "";
      WordRun(st, w, "");
      st' := st.(nibbles := |Numeral(w, 16)|, word := w);
      RunEnds(st', "");
    } else {
      var more := Body(p, i + 1, 8, z, m);
      assert Body(p, i, 8, z, m) == Numeral(w, 16) + ":" + more;
      WordColon(st, w, more);
      st' := AfterGap(p, State(st.out + Bytes(w), st.zero, Some(more), 0, 0, st.left - 1, false), i + 1, z, m);
      assert p[2 * i..14] == p[2 * i..2 * i + 2] + p[2 * i + 2..14];
    }
  }

  // -------- the whole text --------

  lemma FirstChar(p: Address, z: int, m: nat)
    requires z >= 0 ==> 0 < m
    ensures z != 0 ==> Body(p, 0, 8, z, m) != "" && Body(p, 0, 8, z, m)[0] != ':'
  {
    hide Word;
    NumeralHead(Word(p, 0), 16);
  }

  lemma {:induction false} NumeralHead(n: nat, base: nat)
    requires 2 <= base <= 16
    ensures Numeral(n, base)[0] != ':'
    decreases n
  {
    hide Digit;
    if n >= base {
      NumeralHead(n / base, base);
    } else {
      DigitChar(n);
    }
  }

  lemma NoGap(p: Address, m: nat)
    ensures Parse(Text(p, -1, m)) == Some(p[..])
  {
    hide Run, Body, Word, Bytes;
    var t := Text(p, -1, m);
    assert t == Body(p, 0, 8, -1, m);
    FirstChar(p, -1, m);
    var st := AfterGap(p, Init(), 0, -1, m);
    WordBack(p, 7);
    assert st.out + Bytes(st.word) == p;
  }

  lemma Gap(p: Address, z: nat, m: nat)
    requires 2 <= m && ZeroRun(p, z, m) && !Dotted(p, z, m)
    ensures Parse(Text(p, z, m)) == Some(p[..])
  {
    hide Run, Body, Word, Bytes, Finish, Dotted;
    var t, body, more := Text(p, z, m), Body(p, 0, 8, z, m), Body(p, z + m, 8, z, m);
    assert t == (if z == 0 then ":" else "") + body;
    FirstChar(p, z, m);
    var st := BeforeGap(p, Init(), 0, 8, z, m, "");
    GapStep(p, z, 8, m);
    assert body + "" == body && Body(p, z, 8, z, m) + "" == ":" + more;
    GapColon(st, more);
    var st1 := st.(tail := Some(more), zero := 2 * z);
    assert t != [] && (t[0] == ':' <==> z == 0);
    assert (if z == 0 then t[1..] else t) == body;
    assert Run(Init(), body) == Run(st1, more);
    assert Parse(t) == Finish(Run(st1, more));
    if z + m < 8 {
      var st2 := AfterGap(p, st1, z + m, z, m);
      Filled(p, z, m, st2);
    } else {
      BodyEnd(p, z + m, 8, z, m);
      RunEnds(st1, more);
      FilledEnd(p, z, m, st1);
    }
  }

  lemma GapStep(p: Address, z: nat, n: nat, m: nat)
    requires z < n <= 8 && 0 < m
    ensures Body(p, z, n, z, m) == ":" + Body(p, z + m, n, z, m)
  {
  }

  lemma BodyEnd(p: Address, i: nat, n: nat, z: int, m: nat)
    requires n <= i && n <= 8 && (z >= 0 ==> 0 < m)
    ensures Body(p, i, n, z, m) == ""
  {
  }

  lemma ZeroBytes(p: Address, z: nat, m: nat)
    requires ZeroRun(p, z, m)
    ensures p[2 * z..2 * (z + m)] == Zeros(2 * m)
  {
    hide Word;
    forall i | 2 * z <= i < 2 * (z + m)
      ensures p[i] == 0
    {
      assert Word(p, i / 2) == 0;
      WordBytes(p, i / 2);
    }
  }

  lemma Filled(p: Address, z: nat, m: nat, st: State)
    requires ZeroRun(p, z, m) && 2 <= m && z + m < 8 && st.State? && st.zero == 2 * z && 0 < st.nibbles
    requires st.out == p[..2 * z] + p[2 * (z + m)..14] && st.word == Word(p, 7) && st.left == 8 - z - (7 - (z + m))
    ensures Finish(st) == Some(p[..])
  {
    hide Word, Bytes;
    WordBack(p, 7);
    ZeroBytes(p, z, m);
    var out := st.out + Bytes(st.word);
    assert out == p[..2 * z] + p[2 * (z + m)..];
    assert out[..2 * z] == p[..2 * z] && out[2 * z..] == p[2 * (z + m)..];
    assert p == p[..2 * z] + p[2 * z..2 * (z + m)] + p[2 * (z + m)..];
  }

  lemma ZerosSplit(n: nat)
    ensures Zeros(2 * (n + 1)) == Zeros(2 * n) + [0, 0]
  {
  }

  lemma FilledEnd(p: Address, z: nat, m: nat, st: State)
    requires ZeroRun(p, z, m) && 2 <= m && z + m == 8 && Clean(st) && st.zero == 2 * z
    requires st.out == p[..2 * z] && st.left == 8 - z
    ensures Finish(st) == Some(p[..])
  {
    hide Word;
    ZeroBytes(p, z, m);
    var out := st.out + Bytes(st.word);
    assert Bytes(0) == [0, 0];
    assert out[..2 * z] == p[..2 * z] && out[2 * z..] == [0, 0];
    ZerosSplit(m - 1);
    assert p[2 * z..] == p[2 * z..2 * (z + m)] == Zeros(2 * (m - 1)) + [0, 0];
    assert p == p[..2 * z] + p[2 * z..];
    assert p == p[..2 * z] + Zeros(2 * (m - 1)) + [0, 0];
  }

  // -------- the dotted form --------

  lemma QuadEndRun(st: State, p: Address)
    requires Clean(st) && 2 <= st.left && st.tail == Some(DottedQuad(p[12], p[13], p[14], p[15]))
    ensures
      var q, r := DottedQuad(p[12], p[13], p[14], p[15]), Run(st, DottedQuad(p[12], p[13], p[14], p[15]));
      if p[12..] == [255, 255, 255, 255] then r == Failed
      else r.State? && r.out == st.out + p[12..14] && r.zero == st.zero && r.left == st.left - 1 && 0 < r.nibbles
           && Bytes(r.word) == p[14..]
  {
    hide Run, Numeral, AsHex, QuadValue, HexValue;
    var a, rest := p[12], Numeral(p[13], 10) + "." + Numeral(p[14], 10) + "." + Numeral(p[15], 10);
    var q := DottedQuad(p[12], p[13], p[14], p[15]);
    assert q == Numeral(a, 10) + (['.'] + rest);
    DecLength(a);
    DigitsRun(st, a, 10, ['.'] + rest);
    var st1 := st.(nibbles := |Numeral(a, 10)|, word := AsHex(a, 10));
    RunOne(st1, '.', rest);
    QuadBack(p[12], p[13], p[14], p[15]);
    QuadBytes(p[12], p[13], p[14], p[15]);
    RunEnds(Step(st1, '.', rest), rest);
    assert p[12..14] == [p[12], p[13]] && p[14..] == [p[14], p[15]];
    assert p[12..] == [p[12], p[13], p[14], p[15]];
  }

  lemma QuadBytes(a: Byte, b: Byte, c: Byte, d: Byte)
    ensures
      var v := ((a * 256 + b) * 256 + c) * 256 + d;
      Bytes(v / 65536) == [a, b] && Bytes(v) == [c, d]
  {
    var v := ((a * 256 + b) * 256 + c) * 256 + d;
    assert v / 65536 == a * 256 + b;
    assert v / 256 == (a * 256 + b) * 256 + c;
  }

  // All ones in the last four bytes read as an error.
  lemma DottedBack(p: Address, m: nat)
    requires ZeroRun(p, 0, m) && Dotted(p, 0, m)
    ensures Parse(Text(p, 0, m)) == if p[12..] == [255, 255, 255, 255] then None else Some(p[..])
  {
    hide Run, Word, Bytes, Finish, Numeral, DottedQuad, Body;
    var q, more := DottedQuad(p[12], p[13], p[14], p[15]), Body(p, m, 6, 0, m);
    GapStep(p, 0, 6, m);
    assert Text(p, 0, m) == ":" + (":" + (more + q));
    GapColon(Init(), more + q);
    var st := Init().(tail := Some(more + q), zero := 0);
    assert Parse(Text(p, 0, m)) == Finish(Run(st, more + q));
    if m == 5 {
      var w := Word(p, 5);
      assert w == 0xffff by {
        WordPair(p, 5);
      }
      OneWord(p);
      assert more + q == Numeral(w, 16) + ":" + q;
      WordColon(st, w, q);
      st := State(st.out + Bytes(w), 0, Some(q), 0, 0, 7, false);
      WordBack(p, 5);
    } else {
      BodyEnd(p, m, 6, 0, m);
      assert more + q == q;
    }
    QuadEndRun(st, p);
    ZeroBytes(p, 0, if m == 5 then 5 else 6);
    DottedFinish(p, if m == 5 then 5 else 6, Run(st, q));
  }

  lemma OneWord(p: Address)
    ensures Body(p, 5, 6, 0, 5) == Numeral(Word(p, 5), 16) + ":"
  {
    hide Word, Numeral;
    BodyEnd(p, 6, 6, 0, 5);
    assert Body(p, 5, 6, 0, 5) == Numeral(Word(p, 5), 16) + ":" + Body(p, 6, 6, 0, 5);
  }

  lemma DottedFinish(p: Address, k: nat, r: State)
    requires (k == 5 || k == 6) && p[..2 * k] == Zeros(2 * k)
    requires r.Failed? || (r.State? && r.out == p[2 * k..14] && r.zero == 0 && r.left == k + 1 && 0 < r.nibbles
             && Bytes(r.word) == p[14..])
    ensures Finish(r) == if r.Failed? then None else Some(p[..])
  {
    hide Bytes;
    if r.State? {
      var out := r.out + Bytes(r.word);
      assert out == p[2 * k..] && out[..0] == [] && out[0..] == out;
      assert p == Zeros(2 * k) + p[2 * k..];
      assert out[..r.zero] + Zeros(2 * (r.left - 1)) + out[r.zero..] == p;
    }
  }

  // Reading what was written gives the address back, but when the last four bytes are all
  // ones and written with dots.
  lemma RoundTrip(p: Address, z: int, m: nat)
    requires Compressed(p, z, m) && 1 <= m
    ensures Parse(Text(p, if z < 0 then -1 else z, m))
         == if Dotted(p, z, m) && p[12..] == [255, 255, 255, 255] then None else Some(p[..])
  {
    hide Parse, Text, Dotted;
    if z < 0 {
      NoGap(p, m);
      assert !Dotted(p, z, m) by {
        DottedStart(p, z, m);
      }
    } else if Dotted(p, z, m) {
      DottedStart(p, z, m);
      DottedBack(p, m);
    } else {
      Gap(p, z, m);
    }
  }

  lemma DottedStart(p: Address, z: int, m: nat)
    ensures Dotted(p, z, m) ==> z == 0
  {
  }

  // The address ::ffff:255.255.255.255 is written and not read back.
  lemma Broadcast(p: Address)
    requires p == Zeros(10) + [0xff, 0xff, 0xff, 0xff, 0xff, 0xff]
    ensures Compressed(p, 0, 5) && Parse(Text(p, 0, 5)) == None
  {
    hide Text, Parse, Word;
    forall k: nat | k < 8
      ensures Word(p, k) == 0 <==> k < 5
    {
      WordBytes(p, k);
    }
    forall y: nat, k: nat | ZeroRun(p, y, k)
      ensures k <= 5
    {
      assert 0 < k ==> Word(p, y + k - 1) == 0;
    }
    RoundTrip(p, 0, 5);
    assert p[12..] == [255, 255, 255, 255];
  }

  // ::255.255.255.255 and ::ffff:255.255.255.255
  ghost predicate Unreadable(p: Address) {
    && p[..10] == Zeros(10) && p[12..] == [255, 255, 255, 255]
    && p[10] == p[11] && (p[10] == 0 || p[10] == 255)
  }

  // The dotted form ends in four bytes of ones for just these two addresses.
  lemma Unread(p: Address, z: int, m: nat)
    requires Compressed(p, z, m) && 1 <= m
    ensures Dotted(p, z, m) && p[12..] == [255, 255, 255, 255] <==> Unreadable(p)
  {
    hide Word;
    if p[12..] == [255, 255, 255, 255] {
      assert p[12] == p[12..][0] && p[14] == p[12..][2] && p[15] == p[12..][3];
      WordBytes(p, 5);
      WordBytes(p, 6);
      WordBytes(p, 7);
      if Dotted(p, z, m) {
        ZeroBytes(p, 0, 5);
      }
      if Unreadable(p) {
        forall k: nat | k < 5
          ensures Word(p, k) == 0
        {
          WordBytes(p, k);
          assert p[2 * k] == p[..10][2 * k] && p[2 * k + 1] == p[..10][2 * k + 1];
        }
        assert ZeroRun(p, 0, 5);
        assert Word(p, 5) == 0 ==> ZeroRun(p, 0, 6);
        RunBelow(p, z, m, if p[10] == 0 then 6 else 5);
      }
    }
  }

  // A run of zero words ends before a word that is not zero, or starts behind it.
  lemma RunBelow(p: Address, z: int, m: nat, n: nat)
    requires 0 <= z && ZeroRun(p, z, m) && n <= 7 && n <= m && 5 <= n
    requires forall k :: n <= k < 8 ==> Word(p, k) != 0
    ensures z == 0 && m == n
  {
    hide Word;
    assert Word(p, z + m - 1) == 0;
  }

  // Writing an address and reading the text back
  method ThereAndBack(p: Address) returns (r: Option<seq<Byte>>)
    ensures r == if Unreadable(p) then None else Some(p[..])
  {
    hide Compressed, Text, Parse, Dotted, Unreadable;
    ghost var z, m;
    var text;
    text, z, m := Ntop(p, ADDRSTRLEN);
    RoundTrip(p, z, m);
    Unread(p, z, m);
    var addr := new Byte[16];
    var ok := Inet6Addr(text, addr);
    r := if ok then Some(addr[..]) else None;
  }

  // -------- how long the text is --------

  lemma {:induction false} BodyLength(p: Address, i: nat, n: nat, z: int, m: nat)
    requires n <= 8 && (z >= 0 ==> 0 < m)
    ensures |Body(p, i, n, z, m)| <= if i < n then 5 * (n - i) else 0
    decreases n - i
  {
    hide Word, Numeral;
    if i < n {
      if i == z {
        BodyLength(p, i + m, n, z, m);
      } else {
        WordBytes(p, i);
        HexLength(Word(p, i));
        BodyLength(p, i + 1, n, z, m);
      }
    }
  }

  // The text fits in the buffer the header declares.
  lemma TextFits(p: Address, z: int, m: nat)
    requires z >= 0 ==> 0 < m
    ensures |Text(p, z, m)| <= ADDRSTRLEN
  {
    hide Body, Numeral, Word;
    if Dotted(p, z, m) {
      GapStep(p, 0, 6, m);
      BodyLength(p, m, 6, z, m);
      DecLength(p[12]);
      DecLength(p[13]);
      DecLength(p[14]);
      DecLength(p[15]);
    } else {
      BodyLength(p, 0, 8, z, m);
    }
  }

  // No word is written with a leading zero.
  lemma {:induction false} NoLeadingZero(n: nat, base: nat)
    requires 2 <= base <= 16 && 0 < n
    ensures Numeral(n, base)[0] != '0'
    decreases n
  {
    if n >= base {
      QuotientBounds(n, base);
      NoLeadingZero(n / base, base);
    }
  }
}
