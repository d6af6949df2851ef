// Names in DNS messages: ngx_resolver_create_name_query writes the question, and
// ngx_resolver_copy follows a name with compression pointers.

module DnsNames {
  import opened ByteStrings
  import opened Options

  const DOT: Byte := '.' as int

  // One pass follows at most so many labels and pointers.
  const STEPS: nat := 128

  type Label = seq<Byte>

  // -------- names and labels --------

  // A character goes in front of the first label; a dot starts a new one.
  function Grow(c: Byte, ls: seq<Label>): (r: seq<Label>)
    requires |ls| >= 1
    ensures |r| >= 1
  {
    if c == DOT then [[]] + ls else [[c] + ls[0]] + ls[1..]
  }

  function Split(s: seq<Byte>): (ls: seq<Label>)
    ensures |ls| >= 1
  {
    if s == [] then [[]] else Grow(s[0], Split(s[1..]))
  }

  // Every label with a dot behind it.
  function Dots(ls: seq<Label>): seq<Byte> {
    if ls == [] then [] else ls[0] + [DOT] + Dots(ls[1..])
  }

  // The labels with their lengths, without the end of the name.
  function Encode(ls: seq<Label>): seq<nat> {
    if ls == [] then [] else [|ls[0]|] + ls[0] + Encode(ls[1..])
  }

  lemma GrowParts(c: Byte, ls: seq<Label>)
    requires |ls| >= 1
    ensures c == DOT ==> Grow(c, ls)[0] == [] && Grow(c, ls)[1..] == ls
    ensures c != DOT ==> Grow(c, ls)[0] == [c] + ls[0] && Grow(c, ls)[1..] == ls[1..]
  {
  }

  lemma {:induction false} SplitDots(s: seq<Byte>)
    ensures Dots(Split(s)) == s + [DOT]
  {
    hide Grow;
    if s != [] {
      var ls := Split(s[1..]);
      SplitDots(s[1..]);
      GrowParts(s[0], ls);
      assert s == [s[0]] + s[1..];
      assert Dots(Grow(s[0], ls)) == [s[0]] + Dots(ls);
    }
  }

  lemma GrowAppend(c: Byte, a: seq<Label>, b: seq<Label>)
    requires |a| >= 1
    ensures Grow(c, a + b) == Grow(c, a) + b
  {
    assert (a + b)[1..] == a[1..] + b;
  }

  lemma SplitCons(c: Byte, s: seq<Byte>)
    ensures Split([c] + s) == Grow(c, Split(s))
  {
    assert ([c] + s)[1..] == s;
  }

  lemma {:induction false} SplitAppend(s: seq<Byte>, t: seq<Byte>)
    ensures Split(s + [DOT] + t) == Split(s) + Split(t)
  {
    hide Grow, Split;
    if s == [] {
      assert s + [DOT] + t == [DOT] + t;
      SplitCons(DOT, t);
      DotAlone(Split(t));
    } else {
      var u := s[1..];
      SplitAppend(u, t);
      assert s == [s[0]] + u && s + [DOT] + t == [s[0]] + (u + [DOT] + t);
      SplitCons(s[0], u);
      SplitCons(s[0], u + [DOT] + t);
      GrowAppend(s[0], Split(u), Split(t));
    }
  }

  lemma DotAlone(ls: seq<Label>)
    requires |ls| >= 1
    ensures Grow(DOT, ls) == Split([]) + ls
  {
  }

  ghost predicate Sized(l: Label, max: nat) {
    1 <= |l| <= max
  }

  ghost predicate AllSized(ls: seq<Label>, max: nat) {
    forall i :: 0 <= i < |ls| ==> Sized(ls[i], max)
  }

  // -------- ngx_resolver_create_name_query --------

  // What stands behind the length of the first label.
  ghost predicate Written(q: seq<nat>, ls: seq<Label>) {
    ls != [] && q == ls[0] + Encode(ls[1..]) + [0]
  }

  lemma WrittenMore(q: seq<nat>, ls: seq<Label>, c: Byte)
    requires Written(q, ls)
    ensures Written([if c == DOT then |ls[0]| else c] + q, Grow(c, ls))
  {
    hide Grow;
    GrowParts(c, ls);
    if c == DOT {
      assert Encode(ls) == [|ls[0]|] + ls[0] + Encode(ls[1..]);
    }
  }

  // The question is written backwards, from the end of the name. An empty name, and a label
  // that is empty or longer than 255, are declined.
  method CreateName(name: seq<Byte>) returns (ok: bool, query: seq<nat>)
    ensures ok <==> name != [] && AllSized(Split(name), 255)
    ensures ok ==> query == Encode(Split(name)) + [0]
  {
    hide Split, Grow, AllSized, Encode, Written;
    if name == [] {
      return false, [0];
    }
    var nlen := 1 + |name| + 1;
    var q := new nat[nlen];
    q[nlen - 1] := 0;
    var len := 0;
    var s := |name| - 1;
    ghost var ls: seq<Label> := [[]];
    assert name[|name|..] == [] && q[s + 2..] == [0];
    NothingWritten();
    while s >= 0
      invariant -1 <= s < |name| && ls == Split(name[s + 1..]) && len == |ls[0]|
      invariant Written(q[s + 2..], ls) && AllSized(ls[1..], 255)
    {
      assert name[s..] == [name[s]] + name[s + 1..];
      SplitCons(name[s], name[s + 1..]);
      WrittenMore(q[s + 2..], ls, name[s]);
      GrowParts(name[s], ls);
      ghost var rest := q[s + 2..];
      if name[s] != DOT {
        q[s + 1] := name[s];
        len := len + 1;
      } else {
        if len == 0 || len > 255 {
          Undersized(name, s, ls);
          return false, [];
        }
        SizedMore(ls);
        q[s + 1] := len;
        len := 0;
      }
      assert q[s + 1..] == [q[s + 1]] + rest;
      ls := Grow(name[s], ls);
      s := s - 1;
    }
    assert name[0..] == name;
    SizedMore(ls);
    if len == 0 || len > 255 {
      return false, [];
    }
    q[0] := len;
    assert q[..] == [len] + q[1..];
    WrittenAll(q[1..], ls);
    return true, q[..];
  }

  lemma NothingWritten()
    ensures Written([0], [[]]) && Split([])[1..] == [] && AllSized([], 255) && Split([]) == [[]]
  {
  }

  lemma SizedMore(ls: seq<Label>)
    requires ls != [] && AllSized(ls[1..], 255)
    ensures AllSized(ls, 255) <==> 1 <= |ls[0]| <= 255
  {
    if 1 <= |ls[0]| <= 255 {
      forall i | 0 <= i < |ls|
        ensures Sized(ls[i], 255)
      {
        assert i > 0 ==> ls[i] == ls[1..][i - 1];
      }
    } else {
      assert !Sized(ls[0], 255);
    }
  }

  lemma WrittenAll(q: seq<nat>, ls: seq<Label>)
    requires Written(q, ls)
    ensures [|ls[0]|] + q == Encode(ls) + [0]
  {
  }

  lemma Undersized(name: seq<Byte>, s: nat, ls: seq<Label>)
    requires s < |name| && name[s] == DOT && ls == Split(name[s + 1..]) && !(1 <= |ls[0]| <= 255)
    ensures !AllSized(Split(name), 255)
  {
    hide Split;
    assert name == name[..s] + [DOT] + name[s + 1..];
    SplitAppend(name[..s], name[s + 1..]);
    assert Split(name)[|Split(name[..s])|] == ls[0] && !Sized(ls[0], 255);
  }

  // -------- ngx_resolver_copy --------

  // The labels from position p on, following at most `steps` labels, pointers and the end.
  function Path(buf: seq<Byte>, p: nat, steps: nat): Option<seq<Label>>
    requires p < |buf|
    decreases steps
  {
    var n := buf[p];
    if steps == 0 then None
    else if n == 0 then Some([])
    else if n >= 192 then
      if p + 1 >= |buf| then None
      else
        var q := Target(n, buf[p + 1]);
        if q >= |buf| then None else Path(buf, q, steps - 1)
    else if n >= 64 || p + 1 + n >= |buf| then None
    else
      match Path(buf, p + 1 + n, steps - 1)
      case None => None
      case Some(ls) => Some([buf[p + 1..p + 1 + n]] + ls)
  }

  // One step of the path.
  lemma PathStep(buf: seq<Byte>, p: nat, steps: nat)
    requires p < |buf|
    ensures steps == 0 ==> Path(buf, p, steps) == None
    ensures 0 < steps ==>
              var n, r := buf[p], Path(buf, p, steps);
              if n == 0 then r == Some([])
              else if n >= 192 then
                if p + 1 < |buf| && Target(n, buf[p + 1]) < |buf| then
                  r == Path(buf, Target(n, buf[p + 1]), steps - 1)
                else r == None
              else if n >= 64 || p + 1 + n >= |buf| then r == None
              else
                var rest := Path(buf, p + 1 + n, steps - 1);
                if rest.None? then r == None else r == Some([buf[p + 1..p + 1 + n]] + rest.value)
  {
  }

  lemma LengthCons(l: Label, ls: seq<Label>)
    ensures Length([l] + ls) == 1 + |l| + Length(ls) && Length([]) == 0
  {
    assert ([l] + ls)[1..] == ls;
  }

  // ((n & 0x3f) << 8) + the next byte
  function Target(n: nat, next: nat): nat {
    n % 64 * 256 + next
  }

  function Length(ls: seq<Label>): nat {
    if ls == [] then 0 else 1 + |ls[0]| + Length(ls[1..])
  }

  lemma NoLength(ls: seq<Label>)
    ensures Length(ls) == 0 <==> ls == []
  {
  }

  lemma {:induction false} DotsLength(ls: seq<Label>)
    ensures |Dots(ls)| == Length(ls)
  {
    if ls != [] {
      DotsLength(ls[1..]);
    }
  }

  // The first pass: the length of the name, if it can be followed.
  method Measure(buf: seq<Byte>, src: nat) returns (ok: bool, len: nat)
    requires src < |buf|
    ensures ok <==> Path(buf, src, STEPS).Some?
    ensures ok ==> len == Length(Path(buf, src, STEPS).value)
  {
    hide Path, Target, Length;
    var p: nat := src;
    len := 0;
    var i: nat := 0;
    while i < STEPS
      invariant i <= STEPS && p < |buf|
      invariant Path(buf, src, STEPS).Some? <==> Path(buf, p, STEPS - i).Some?
      invariant Path(buf, src, STEPS).Some? ==>
                  Length(Path(buf, src, STEPS).value) == len + Length(Path(buf, p, STEPS - i).value)
    {
      PathStep(buf, p, STEPS - i);
      var n: nat := buf[p];
      p := p + 1;
      if n == 0 {
        LengthCons([], []);
        return true, len;
      }
      if n >= 64 {
        if n < 192 {
          return false, len;
        }
        if p >= |buf| {
          return false, len;
        }
        p := Target(n, buf[p]);
      } else {
        if p + n < |buf| && Path(buf, p + n, STEPS - i - 1).Some? {
          LengthCons(buf[p..p + n], Path(buf, p + n, STEPS - i - 1).value);
        }
        len := len + 1 + n;
        p := p + n;
      }
      if p >= |buf| {
        return false, len;
      }
      i := i + 1;
    }
    PathStep(buf, p, 0);
    return false, len;
  }

  function Lowered(ls: seq<Label>): seq<Byte> {
    Lower(Dots(ls))
  }

  // The second pass writes just as many bytes as the first one counted.
  method Copy(buf: seq<Byte>, src0: nat) returns (ok: bool, name: seq<Byte>)
    requires src0 < |buf|
    ensures ok <==> Path(buf, src0, STEPS).Some?
    ensures ok ==>
              var ls := Path(buf, src0, STEPS).value;
              if ls == [] then name == [] else name + [DOT] == Lowered(ls)
  {
    hide Path, Target, Length, Lowered, Dots, Lower;
    var len;
    ok, len := Measure(buf, src0);
    if !ok {
      return false, [];
    }
    ghost var all := Path(buf, src0, STEPS).value;
    DotsLength(all);
    if len == 0 {
      NoLength(all);
      return true, [];
    }
    NoLength(all);
    var data := new Byte[len];
    var dst: nat, src: nat := 0, src0;
    ghost var steps: nat, ls := STEPS, all;
    assert data[..0] + Lowered(all) == Lowered(all);
    PathStep(buf, src, steps);
    while buf[src] != 0
      invariant src < |buf| && Path(buf, src, steps) == Some(ls)
      invariant dst + Length(ls) == len && data[..dst] + Lowered(ls) == Lowered(all)
      decreases steps
    {
      PathStep(buf, src, steps);
      var n: nat := buf[src];
      src := src + 1;
      if n >= 64 {
        src := Target(n, buf[src]);
      } else {
        LengthCons(ls[0], ls[1..]);
        assert ls == [ls[0]] + ls[1..] && ls[0] == buf[src..src + n];
        ghost var before := data[..dst];
        WriteLabel(data, dst, buf, src, n);
        dst := dst + n + 1;
        src := src + n;
        LoweredMore(ls, data[..dst], before);
        ls := ls[1..];
      }
      steps := steps - 1;
    }
    PathStep(buf, src, steps);
    LengthCons([], []);
    LoweredNone();
    assert data[..dst] + [] == data[..dst] == data[..];
    DotsEnd(all);
    name := data[..dst - 1];
    assert data[..] == name + [data[dst - 1]];
  }

  // A label in lower case, and a dot.
  method WriteLabel(data: array<Byte>, dst: nat, buf: seq<Byte>, src: nat, n: nat)
    requires dst + n < data.Length && src + n <= |buf|
    modifies data
    ensures data[..dst + n + 1] == old(data[..dst]) + Lower(buf[src..src + n]) + [DOT]
  {
    CopyLow(data, dst, buf, src, n);
    data[dst + n] := DOT;
  }

  // ngx_strlow
  method CopyLow(data: array<Byte>, dst: nat, buf: seq<Byte>, src: nat, n: nat)
    requires dst + n <= data.Length && src + n <= |buf|
    modifies data
    ensures data[..dst + n] == old(data[..dst]) + Lower(buf[src..src + n])
  {
    LowerOne();
    var i := 0;
    while i < n
      invariant i <= n && data[..dst + i] == old(data[..dst]) + Lower(buf[src..src + i])
    {
      ghost var before := data[..dst + i];
      data[dst + i] := ToLower(buf[src + i]);
      assert data[..dst + i + 1] == before + [ToLower(buf[src + i])];
      assert buf[src..src + i + 1] == buf[src..src + i] + [buf[src + i]];
      LowerAppend(buf[src..src + i], [buf[src + i]]);
      i := i + 1;
    }
  }

  lemma LowerOne()
    ensures Lower([]) == [] && forall b: Byte :: Lower([b]) == [ToLower(b)]
  {
  }

  lemma LoweredNone()
    ensures Lowered([]) == []
  {
  }

  lemma LoweredMore(ls: seq<Label>, after: seq<Byte>, before: seq<Byte>)
    requires ls != [] && after == before + Lower(ls[0]) + [DOT]
    ensures after + Lowered(ls[1..]) == before + Lowered(ls)
  {
    LowerAppend(ls[0] + [DOT], Dots(ls[1..]));
    LowerAppend(ls[0], [DOT]);
    assert Lower([DOT]) == [DOT];
  }

  lemma {:induction false} DotsEnd(ls: seq<Label>)
    ensures ls != [] ==> Lowered(ls) != [] && Lowered(ls)[|Lowered(ls)| - 1] == DOT
  {
    if ls != [] {
      DotsEnd(ls[1..]);
      LoweredMore(ls, [] + Lower(ls[0]) + [DOT], []);
      if ls[1..] == [] {
        LoweredNone();
      }
    }
  }

  // -------- a question read back --------

  lemma SizedTail(ls: seq<Label>, max: nat)
    requires ls != []
    ensures AllSized(ls, max) <==> Sized(ls[0], max) && AllSized(ls[1..], max)
  {
    if Sized(ls[0], max) && AllSized(ls[1..], max) {
      forall i | 0 <= i < |ls|
        ensures Sized(ls[i], max)
      {
        assert i > 0 ==> ls[i] == ls[1..][i - 1];
      }
    }
    if AllSized(ls, max) {
      assert Sized(ls[0], max);
      forall i | 0 <= i < |ls[1..]|
        ensures Sized(ls[1..][i], max)
      {
        assert Sized(ls[i + 1], max);
      }
    }
  }

  // Every label that is followed has at most 63 bytes.
  lemma {:induction false} PathSized(buf: seq<Byte>, p: nat, steps: nat)
    requires p < |buf| && Path(buf, p, steps).Some?
    ensures AllSized(Path(buf, p, steps).value, 63) && |Path(buf, p, steps).value| < steps
    decreases steps
  {
    hide Path, Target, AllSized;
    PathStep(buf, p, steps);
    NoLabels();
    var n := buf[p];
    if n >= 192 {
      PathSized(buf, Target(n, buf[p + 1]), steps - 1);
    } else if n != 0 {
      PathSized(buf, p + 1 + n, steps - 1);
      SizedTail(Path(buf, p, steps).value, 63);
    }
  }

  // What the question holds is followed just when it has labels of at most 63 bytes, and not
  // too many. A length byte from 64 on is refused, and one from 192 on is taken for a pointer.
  lemma {:induction false} EncodedPath(buf: seq<Byte>, p: nat, ls: seq<Label>, steps: nat)
    requires AllSized(ls, 255) && p + |Encode(ls)| < |buf| && 0 < steps
    requires buf[p..p + |Encode(ls)| + 1] == Encode(ls) + [0]
    ensures Path(buf, p, steps) == Some(ls) <==> AllSized(ls, 63) && |ls| < steps
    ensures AllSized(ls, 191) && Path(buf, p, steps) != Some(ls) ==> Path(buf, p, steps) == None
    decreases steps
  {
    hide Path, Target, AllSized;
    PathStep(buf, p, steps);
    NoLabels();
    if Path(buf, p, steps).Some? {
      PathSized(buf, p, steps);
    }
    if ls == [] {
      assert buf[p] == buf[p..p + 1][0];
    } else {
      SizedTail(ls, 255);
      SizedTail(ls, 191);
      SizedTail(ls, 63);
      var n, rest := |ls[0]|, Encode(ls[1..]);
      assert Encode(ls) + [0] == [n] + ls[0] + (rest + [0]);
      Pieces(buf, p, n, ls[0], rest + [0]);
      if n < 64 {
        if steps == 1 {
          PathStep(buf, p + 1 + n, 0);
        } else {
          EncodedPath(buf, p + 1 + n, ls[1..], steps - 1);
        }
        assert ls == [ls[0]] + ls[1..];
      }
    }
  }

  lemma Pieces(buf: seq<Byte>, p: nat, n: nat, l: Label, rest: seq<nat>)
    requires |l| == n && p + 1 + n + |rest| <= |buf| && buf[p..p + 1 + n + |rest|] == [n] + l + rest
    ensures buf[p] == n && buf[p + 1..p + 1 + n] == l && buf[p + 1 + n..p + 1 + n + |rest|] == rest
  {
    var len := 1 + n + |rest|;
    Part(buf, p, len, 1, 1 + n);
    Part(buf, p, len, 1 + n, len);
    assert buf[p] == buf[p..p + len][0];
    assert ([n] + l + rest)[1..1 + n] == l && ([n] + l + rest)[1 + n..len] == rest;
  }

  lemma Part(buf: seq<Byte>, p: nat, len: nat, i: nat, j: nat)
    requires p + len <= |buf| && i <= j <= len
    ensures buf[p..p + len][i..j] == buf[p + i..p + j]
  {
    var s, t := buf[p..p + len][i..j], buf[p + i..p + j];
    assert |s| == |t|;
    forall k | 0 <= k < |s|
      ensures s[k] == t[k]
    {
      assert buf[p..p + len][i + k] == buf[p + i + k];
    }
  }

  lemma NoLabels()
    ensures (forall max :: AllSized([], max)) && Encode([]) == []
  {
  }

  // -------- labels that are too long --------

  lemma {:induction false} SplitClean(s: seq<Byte>)
    ensures forall l :: l in Split(s) ==> DOT !in l
  {
    if s != [] {
      SplitClean(s[1..]);
    }
  }

  // In labels of at most `max` bytes no dot is further away.
  lemma {:induction false} DotNear(ls: seq<Label>, max: nat, i: nat) returns (j: nat)
    requires AllSized(ls, max) && i < |Dots(ls)|
    ensures i <= j <= i + max && j < |Dots(ls)| && Dots(ls)[j] == DOT
  {
    SizedTail(ls, max);
    var n := |ls[0]|;
    if i <= n {
      j := n;
    } else {
      j := DotNear(ls[1..], max, i - n - 1);
      j := n + 1 + j;
    }
  }

  lemma NotAll(ls: seq<Label>, max: nat)
    ensures !AllSized(ls, max) ==> ls != []
  {
  }

  // A label without dots that is longer leaves a longer stretch without one.
  lemma {:induction false} LongStretch(ls: seq<Label>, max: nat) returns (i: nat)
    requires (forall l :: l in ls ==> l != [] && DOT !in l) && !AllSized(ls, max)
    ensures i + max < |Dots(ls)| && forall j :: i <= j <= i + max ==> Dots(ls)[j] != DOT
  {
    NotAll(ls, max);
    SizedTail(ls, max);
    var n := |ls[0]|;
    assert ls[0] in ls && forall l :: l in ls[1..] ==> l in ls;
    if n > max {
      i := 0;
      forall j | 0 <= j <= max
        ensures Dots(ls)[j] != DOT
      {
        assert Dots(ls)[j] == ls[0][j] && ls[0][j] in ls[0];
      }
    } else {
      i := LongStretch(ls[1..], max);
      i := n + 1 + i;
    }
  }

  // No other labels that can be followed spell the same name.
  lemma SpelledOnce(ls: seq<Label>, read: seq<Label>)
    requires (forall l :: l in ls ==> l != [] && DOT !in l) && AllSized(read, 63)
    requires Lowered(read) == Lowered(ls)
    ensures AllSized(ls, 63)
  {
    hide AllSized, Dots;
    if !AllSized(ls, 63) {
      var i := LongStretch(ls, 63);
      LowerLength(Dots(read));
      LowerLength(Dots(ls));
      var j := DotNear(read, 63, i);
      LoweredAt(read, j);
      LoweredAt(ls, j);
    }
  }

  lemma LoweredAt(ls: seq<Label>, j: nat)
    requires j < |Dots(ls)|
    ensures |Lowered(ls)| == |Dots(ls)| && (Lowered(ls)[j] == DOT <==> Dots(ls)[j] == DOT)
  {
  }

  // For every name that is put into a question: reading it back gives the name in lower case
  // if and only if it has at most 127 labels of at most 63 bytes, whatever surrounds it.
  method ReadBack(name: seq<Byte>, head: seq<Byte>, tail: seq<Byte>)
      returns (created: bool, ok: bool, back: seq<Byte>)
    ensures created <==> name != [] && AllSized(Split(name), 255)
    ensures created ==> (ok && Lowers(name, back) <==> AllSized(Split(name), 63) && |Split(name)| <= 127)
    ensures created && AllSized(Split(name), 191) ==> (ok <==> AllSized(Split(name), 63) && |Split(name)| <= 127)
  {
    hide Path, Split, Encode, AllSized, Lowers;
    ok, back := false, [];
    var query;
    created, query := CreateName(name);
    if !created {
      return;
    }
    EncodedBytes(Split(name));
    var question: seq<Byte> := query;
    var buf := head + question + tail;
    assert buf[|head|..|head| + |query|] == query;
    ok, back := CopyName(name, buf, |head|, |head|, STEPS);
  }

  // The same through a pointer to the question, which takes a step of its own. Pointers have
  // fourteen bits, the high ones first.
  method ReadPointed(name: seq<Byte>, head: seq<Byte>, gap: seq<Byte>, tail: seq<Byte>)
      returns (created: bool, ok: bool, back: seq<Byte>)
    requires |head| < 16384
    ensures created <==> name != [] && AllSized(Split(name), 255)
    ensures created ==> (ok && Lowers(name, back) <==> AllSized(Split(name), 63) && |Split(name)| <= 126)
    ensures created && AllSized(Split(name), 191) ==> (ok <==> AllSized(Split(name), 63) && |Split(name)| <= 126)
  {
    hide Path, Split, Encode, AllSized, Lowers;
    ok, back := false, [];
    var query;
    created, query := CreateName(name);
    if !created {
      return;
    }
    EncodedBytes(Split(name));
    var question: seq<Byte> := query;
    var pointer: seq<Byte> := [192 + |head| / 256, |head| % 256];
    var buf := head + question + gap + pointer + tail;
    var src := |head + question + gap|;
    assert buf[|head|..|head| + |query|] == query;
    assert buf[src] == pointer[0] && buf[src + 1] == pointer[1];
    PointerPath(buf, src, |head|, STEPS);
    ok, back := CopyName(name, buf, src, |head|, STEPS - 1);
  }

  // A pointer leads to the offset in its fourteen bits.
  lemma PointerPath(buf: seq<Byte>, p: nat, t: nat, steps: nat)
    requires p + 1 < |buf| && t < |buf| && t < 16384 && 0 < steps
    requires buf[p] == 192 + t / 256 && buf[p + 1] == t % 256
    ensures Path(buf, p, steps) == Path(buf, t, steps - 1)
  {
    hide Path;
    PathStep(buf, p, steps);
  }

  // Copying from a place whose path is that of the question
  method CopyName(name: seq<Byte>, buf: seq<Byte>, src: nat, ghost start: nat, ghost steps: nat)
      returns (ok: bool, back: seq<Byte>)
    requires name != [] && AllSized(Split(name), 255) && src < |buf| && 0 < steps
    requires start + |Encode(Split(name))| < |buf| && Path(buf, src, STEPS) == Path(buf, start, steps)
    requires buf[start..start + |Encode(Split(name))| + 1] == Encode(Split(name)) + [0]
    ensures ok && Lowers(name, back) <==> AllSized(Split(name), 63) && |Split(name)| < steps
    ensures AllSized(Split(name), 191) ==> (ok <==> AllSized(Split(name), 63) && |Split(name)| < steps)
  {
    hide Path, Split, Encode, AllSized, Lowered, Lower, Lowers;
    ghost var ls := Split(name);
    EncodedPath(buf, start, ls, steps);
    ok, back := Copy(buf, src);
    SplitDots(name);
    LowerDot(name);
    LowersIs(name, back);
    if ok {
      ghost var read := Path(buf, start, steps).value;
      PathSized(buf, start, steps);
      SameEnd(name, back, ls, read);
    }
    Smaller(ls, 63, 191);
  }

  // What has been read is the name, or spells another one.
  lemma SameEnd(name: seq<Byte>, back: seq<Byte>, ls: seq<Label>, read: seq<Label>)
    requires ls == Split(name) && name != [] && AllSized(ls, 255) && Lowered(ls) == Lower(name) + [DOT]
    requires AllSized(read, 63) && if read == [] then back == [] else back + [DOT] == Lowered(read)
    ensures read == ls ==> back == Lower(name)
    ensures back == Lower(name) ==> AllSized(ls, 63)
  {
    hide Split, AllSized, Lowered, Lower;
    if read == ls {
      SameFront(back, Lower(name));
    }
    if back == Lower(name) {
      LowerLength(name);
      SplitClean(name);
      NotEmpty(ls);
      SpelledOnce(ls, read);
    }
  }

  lemma Smaller(ls: seq<Label>, max: nat, more: nat)
    requires max <= more
    ensures AllSized(ls, max) ==> AllSized(ls, more)
  {
    assert forall i :: 0 <= i < |ls| && Sized(ls[i], max) ==> Sized(ls[i], more);
  }

  lemma LowerLength(name: seq<Byte>)
    ensures |Lower(name)| == |name|
  {
  }

  lemma NotEmpty(ls: seq<Label>)
    requires AllSized(ls, 255)
    ensures forall l :: l in ls ==> l != []
  {
    assert forall i :: 0 <= i < |ls| ==> Sized(ls[i], 255);
  }

  lemma SameFront(s: seq<Byte>, t: seq<Byte>)
    requires s + [DOT] == t + [DOT]
    ensures s == t
  {
    assert s == (s + [DOT])[..|s|] && t == (t + [DOT])[..|t|];
  }

  lemma {:induction false} EncodedBytes(ls: seq<Label>)
    requires AllSized(ls, 255)
    ensures forall i :: 0 <= i < |Encode(ls)| ==> Encode(ls)[i] < 256
  {
    if ls != [] {
      SizedTail(ls, 255);
      EncodedBytes(ls[1..]);
    }
  }

  lemma LowerDot(name: seq<Byte>)
    ensures Dots(Split(name)) == name + [DOT] ==> Lowered(Split(name)) == Lower(name) + [DOT]
  {
    hide Split, Dots;
    LowerAppend(name, [DOT]);
    assert Lower([DOT]) == [DOT];
  }

  // A label of 64 bytes is written and not read.
  method LongLabel() returns (created: bool, ok: bool)
    ensures created && !ok
  {
    hide Split;
    var name: seq<Byte> := seq(64, i => 97);
    OneLabel(name);
    var back;
    created, ok, back := ReadBack(name, [], []);
    assert !Sized(Split(name)[0], 63);
  }

  lemma {:induction false} OneLabel(s: seq<Byte>)
    requires DOT !in s
    ensures Split(s) == [s]
  {
    if s != [] {
      assert s[0] in s && s == [s[0]] + s[1..];
      OneLabel(s[1..]);
    }
  }
}
