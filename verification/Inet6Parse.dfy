// ngx_inet_addr and ngx_inet6_addr, and how they read back what ngx_inet6_ntop writes.

module Inet6Parse {
  import opened ByteStrings
  import opened Options
  import opened Inet6Text

  const WORD32: nat := 0x1_0000_0000

  // -------- ngx_inet_addr --------

  datatype Octets = Broken | Octets(addr: nat, octet: nat, dots: nat)

  function QuadStep(o: Octets, c: char): Octets
    requires o.Octets?
  {
    if '0' <= c <= '9' then
      var octet := o.octet * 10 + (c as int - '0' as int);
      if octet > 255 then Broken else o.(octet := octet)
    else if c == '.' then Octets((o.addr * 256 + o.octet) % WORD32, 0, o.dots + 1)
    else Broken
  }

  function QuadRun(o: Octets, t: string): Octets
    decreases |t|
  {
    if t == [] || o.Broken? then o else QuadRun(QuadStep(o, t[0]), t[1..])
  }

  // The address in host order; INADDR_NONE is also what 255.255.255.255 stands for.
  function QuadValue(t: string): nat {
    var o := QuadRun(Octets(0, 0, 0), t);
    if o.Broken? || o.dots != 3 then INADDR_NONE else (o.addr * 256 + o.octet) % WORD32
  }

  method InetAddr(text: string) returns (r: nat)
    ensures r == QuadValue(text)
  {
    var addr: nat, octet: nat, n: nat := 0, 0, 0;
    var i := 0;
    assert text[0..] == text;
    while i < |text|
      invariant i <= |text| && QuadRun(Octets(addr, octet, n), text[i..]) == QuadRun(Octets(0, 0, 0), text)
    {
      var c := text[i];
      assert text[i..][1..] == text[i + 1..];
      if '0' <= c <= '9' {
        octet := octet * 10 + (c as int - '0' as int);
        if octet > 255 {
          return INADDR_NONE;
        }
      } else if c == '.' {
        addr := (addr * 256 + octet) % WORD32;
        octet := 0;
        n := n + 1;
      } else {
        return INADDR_NONE;
      }
      i := i + 1;
    }
    if n == 3 {
      return (addr * 256 + octet) % WORD32;
    }
    return INADDR_NONE;
  }

  // -------- ngx_inet6_addr --------

  // `zero` is where the left out words go, or -1; `tail` is the text behind the last colon;
  // `left` is the number of words still to come; `stop` says that an IPv4 address was read.
  datatype State =
    | Failed
    | State(out: seq<Byte>, zero: int, tail: Option<string>, nibbles: nat, word: nat, left: nat, stop: bool)

  function HexValue(c: char): int {
    if '0' <= c <= '9' then c as int - '0' as int
    else if 'a' <= c <= 'f' then c as int - 'a' as int + 10
    else if 'A' <= c <= 'F' then c as int - 'A' as int + 10
    else -1
  }

  // The digits of either case have their values, and nothing else has.
  lemma HexValueIs(c: char, n: nat)
    requires n < 16
    ensures HexValue(c) == n <==> c == "0123456789abcdef"[n] || c == "0123456789ABCDEF"[n]
    ensures HexValue(c) < 16
  {
    Sixteen(n);
  }

  function Bytes(w: nat): (b: seq<Byte>)
    ensures |b| == 2
  {
    [w / 256 % 256, w % 256]
  }

  function Step(st: State, c: char, rest: string): State
    requires st.State?
  {
    if c == ':' then
      if st.nibbles > 0 then
        if st.left <= 1 then Failed
        else State(st.out + Bytes(st.word), st.zero, Some(rest), 0, 0, st.left - 1, false)
      else if st.zero < 0 then st.(tail := Some(rest), zero := |st.out|)
      else Failed
    else if c == '.' && st.nibbles > 0 then
      if st.left < 2 || st.tail.None? || QuadValue(st.tail.value) == INADDR_NONE then Failed
      else
        var v := QuadValue(st.tail.value);
        st.(out := st.out + Bytes(v / 65536), word := v, left := st.left - 1, stop := true)
    else if st.nibbles >= 4 || HexValue(c) < 0 then Failed
    else st.(nibbles := st.nibbles + 1, word := st.word * 16 + HexValue(c))
  }

  function Run(st: State, t: string): State
    decreases |t|
  {
    if t == [] || st.Failed? || st.stop then st else Run(Step(st, t[0], t[1..]), t[1..])
  }

  function Zeros(n: nat): seq<Byte> {
    seq(n, _ => 0)
  }

  // What the loop has read becomes an address.
  function Finish(st: State): Option<seq<Byte>> {
    if st.Failed? || (st.nibbles == 0 && st.zero < 0) || st.left == 0 then None
    else
      var out := st.out + Bytes(st.word);
      if st.left == 1 then (if st.zero < 0 then Some(out) else None)
      else if 0 <= st.zero <= |st.out| then
        Some(out[..st.zero] + Zeros(2 * (st.left - 1)) + out[st.zero..])
      else None
  }

  function Init(): State {
    State([], -1, None, 0, 0, 8, false)
  }

  function Parse(t: string): Option<seq<Byte>> {
    if t == [] then None else Finish(Run(Init(), if t[0] == ':' then t[1..] else t))
  }

  method Inet6Addr(text: string, addr: array<Byte>) returns (ok: bool)
    requires addr.Length == 16
    modifies addr
    ensures Parse(text) == if ok then Some(addr[..]) else None
  {
    hide QuadValue, HexValue, Run, Finish, Bytes;
    if |text| == 0 {
      return false;
    }
    var p := 0;
    if text[0] == ':' {
      p := 1;
    }
    assert text[0..] == text;
    ghost var whole := Run(Init(), text[p..]);
    var zero: int, digit: int := -1, -1;
    var nibbles: nat, word: nat, n: nat, a: nat := 0, 0, 8, 0;
    ghost var st := Init();
    while p < |text|
      invariant p <= |text| && st.State? && Run(st, text[p..]) == whole && !st.stop
      invariant 1 <= n <= 8 && a == 2 * (8 - n) && Same(st, text, addr[..a], zero, digit, nibbles, word, n)
    {
      var c := text[p];
      RunStep(st, text, p);
      st := Step(st, c, text[p + 1..]);
      p := p + 1;
      if c == ':' {
        if nibbles > 0 {
          digit := p;
          WriteTwo(addr, a, word);
          a := a + 2;
          n := n - 1;
          if n > 0 {
            nibbles := 0;
            word := 0;
            continue;
          }
        } else {
          if zero == -1 {
            digit := p;
            zero := a;
            continue;
          }
        }
        RunEnds(st, text[p..]);
        return false;
      }
      if c == '.' && nibbles > 0 {
        if n < 2 || digit < 0 {
          RunEnds(st, text[p..]);
          return false;
        }
        word := InetAddr(text[digit..]);
        if word == INADDR_NONE {
          RunEnds(st, text[p..]);
          return false;
        }
        WriteTwo(addr, a, word / 65536);
        a := a + 2;
        n := n - 1;
        RunEnds(st, text[p..]);
        break;
      }
      if nibbles >= 4 {
        RunEnds(st, text[p..]);
        return false;
      }
      nibbles := nibbles + 1;
      if HexValue(c) < 0 {
        RunEnds(st, text[p..]);
        return false;
      }
      word := word * 16 + HexValue(c);
    }
    RunEnds(st, text[p..]);
    assert whole == st && Same(st, text, addr[..a], zero, digit, nibbles, word, n);
    ok := Complete(addr, a, zero, nibbles, word, n, st);
  }

  // The last word is written, and the gap is filled.
  method Complete(addr: array<Byte>, a0: nat, zero: int, nibbles: nat, word: nat, n0: nat, ghost st: State)
      returns (ok: bool)
    requires addr.Length == 16 && a0 == 2 * (8 - n0) && 1 <= n0 <= 8 && -1 <= zero <= a0
    requires st.State? && st.out == addr[..a0] && st.zero == zero && st.nibbles == nibbles && st.word == word
             && st.left == n0
    modifies addr
    ensures Finish(st) == if ok then Some(addr[..]) else None
  {
    hide Bytes;
    if nibbles == 0 && zero == -1 {
      return false;
    }
    WriteTwo(addr, a0, word);
    var a, n := a0 + 2, n0 - 1;
    if n > 0 {
      if zero >= 0 {
        ghost var out := addr[..a];
        assert out[..zero] == addr[..zero] && out[zero..] == addr[zero..a];
        Spread(addr, a, zero);
        return true;
      }
    } else {
      if zero == -1 {
        assert addr[..a] == addr[..];
        return true;
      }
    }
    return false;
  }

  lemma RunStep(st: State, text: string, p: nat)
    requires st.State? && !st.stop && p < |text|
    ensures Run(st, text[p..]) == Run(Step(st, text[p], text[p + 1..]), text[p + 1..])
  {
    hide Step;
    assert text[p..][1..] == text[p + 1..];
  }

  lemma RunEnds(st: State, t: string)
    requires st.Failed? || st.stop || t == []
    ensures Run(st, t) == st && Finish(Failed) == None
  {
    hide Step;
  }

  ghost predicate Same(st: State, text: string, out: seq<Byte>, zero: int, digit: int, nibbles: nat, word: nat,
                       n: nat) {
    && st.State? && st.out == out && st.zero == zero && -1 <= zero <= |out| && st.nibbles == nibbles && st.word == word
    && st.left == n && digit <= |text| && st.tail == (if digit < 0 then None else Some(text[digit..]))
  }

  method WriteTwo(addr: array<Byte>, a: nat, word: nat)
    requires a + 2 <= addr.Length
    modifies addr
    ensures addr[..a + 2] == old(addr[..a]) + Bytes(word)
  {
    addr[a] := word / 256 % 256;
    addr[a + 1] := word % 256;
  }

  // The bytes from `zero` on go to the end, and zero bytes fill the gap.
  method Spread(addr: array<Byte>, a: nat, zero: nat)
    requires zero <= a <= addr.Length
    modifies addr
    ensures addr[..] == old(addr[..zero]) + Zeros(addr.Length - a) + old(addr[zero..a])
  {
    MoveUp(addr, a, zero);
    Clear(addr, zero, addr.Length - a);
  }

  method MoveUp(addr: array<Byte>, a: nat, zero: nat)
    requires zero <= a <= addr.Length
    modifies addr
    ensures addr[..zero] == old(addr[..zero]) && addr[zero + addr.Length - a..] == old(addr[zero..a])
  {
    var n := addr.Length - a;
    var s := a - 1;
    while s >= zero
      invariant zero - 1 <= s < a
      invariant addr[..s + 1] == old(addr[..s + 1])
      invariant addr[s + 1 + n..] == old(addr[s + 1..a])
    {
      addr[s + n] := addr[s];
      s := s - 1;
    }
  }

  // memset
  method Clear(addr: array<Byte>, from: nat, n: nat)
    requires from + n <= addr.Length
    modifies addr
    ensures addr[..] == old(addr[..from]) + Zeros(n) + old(addr[from + n..])
  {
    var i := from;
    while i < from + n
      invariant from <= i <= from + n
      invariant addr[..i] == old(addr[..from]) + Zeros(i - from) && addr[from + n..] == old(addr[from + n..])
    {
      addr[i] := 0;
      i := i + 1;
    }
    assert addr[..] == addr[..i] + addr[i..];
  }
}
