// The page descriptors of ngx_slab.c and the runs of pages they describe.

module SlabRuns {
  import opened Ring

  // A descriptor address: the free list head, a slot list head, or page p's descriptor.
  datatype Ptr = Null | Free | Slot(k: nat) | Page(p: int)

  // The three words of every descriptor. A `prev` word holds an address and, in its two
  // low bits, the page type; `prev` and `tag` keep the two apart.
  datatype Table = Table(slab: map<Ptr, nat>, next: map<Ptr, Ptr>, prev: map<Ptr, Ptr>, tag: map<Ptr, nat>)

  const SLAB_PAGE := 0
  const SLAB_BIG := 1
  const SLAB_EXACT := 2
  const SLAB_SMALL := 3

  const PAGE_FREE := 0
  const PAGE_BUSY := 0xffffffffffffffff
  const PAGE_START := 0x8000000000000000

  // Writes go to existing descriptors only.
  function SetSlab(d: Table, x: Ptr, v: nat): (d': Table)
    requires x in d.slab
    ensures d'.slab.Keys == d.slab.Keys
  {
    d.(slab := d.slab[x := v])
  }

  function SetNext(d: Table, x: Ptr, y: Ptr): (d': Table)
    requires x in d.next
    ensures d'.next.Keys == d.next.Keys
  {
    d.(next := d.next[x := y])
  }

  function SetPrev(d: Table, x: Ptr, y: Ptr, tag: nat): (d': Table)
    requires x in d.prev && x in d.tag
    ensures d'.prev.Keys == d.prev.Keys && d'.tag.Keys == d.tag.Keys
  {
    d.(prev := d.prev[x := y], tag := d.tag[x := tag])
  }

  ghost predicate WellFormed(d: Table, n: nat, slots: nat) {
    && d.slab.Keys == d.next.Keys == d.prev.Keys == d.tag.Keys
    && (forall x :: x in d.slab <==> x.Free? || (x.Slot? && x.k < slots) || (x.Page? && 0 <= x.p < n))
  }

  datatype Kind = FreeRun | BusyRun | SlotRun | LimboRun

  // A run of `len` pages. A limbo run is on its way from busy to free.
  datatype Run = Run(len: nat, kind: Kind)

  // -------- the descriptors of a run --------

  ghost predicate Head(d: Table, s: int) {
    Page(s) in d.slab && Page(s) in d.next && Page(s) in d.prev && Page(s) in d.tag
  }

  ghost predicate Idle(d: Table, p: int) {
    Head(d, p) && d.slab[Page(p)] == PAGE_FREE && d.next[Page(p)] == Null && d.tag[Page(p)] == SLAB_PAGE
  }

  ghost predicate Busy(d: Table, p: int) {
    Head(d, p) && d.slab[Page(p)] == PAGE_BUSY && d.next[Page(p)] == Null && d.tag[Page(p)] == SLAB_PAGE
  }

  // The first descriptor of a run of busy pages.
  ghost predicate Started(d: Table, s: int, len: nat) {
    Head(d, s) && d.slab[Page(s)] == len + PAGE_START && d.tag[Page(s)] == SLAB_PAGE && d.next[Page(s)] == Null
  }

  // The first descriptor of a run of free pages. The back pointer of the run's last
  // page is right unless the run ends the page array.
  ghost predicate Opened(d: Table, n: nat, s: int, len: nat) {
    && Head(d, s) && d.slab[Page(s)] == len && d.tag[Page(s)] == SLAB_PAGE && d.next[Page(s)] != Null
    && (2 <= len && s + len < n ==> Head(d, s + len - 1) && d.prev[Page(s + len - 1)] == Page(s))
  }

  ghost predicate Describes(d: Table, n: nat, s: int, run: Run) {
    match run.kind
    case FreeRun => Opened(d, n, s, run.len) && forall p {:trigger Idle(d, p)} :: s < p < s + run.len ==> Idle(d, p)
    case BusyRun => Started(d, s, run.len) && forall p {:trigger Busy(d, p)} :: s < p < s + run.len ==> Busy(d, p)
    case SlotRun => run.len == 1 && Head(d, s) && d.tag[Page(s)] != SLAB_PAGE
    case LimboRun =>
      && Head(d, s) && d.slab[Page(s)] == run.len
      && forall p {:trigger Idle(d, p)} :: s < p < s + run.len ==> Idle(d, p)
  }

  // The runs cover the pages from s to e without gap or overlap.
  ghost predicate Chart(d: Table, n: nat, s: nat, runs: seq<Run>, e: nat)
    decreases |runs|
  {
    if |runs| == 0 then s == e
    else 0 < runs[0].len && Describes(d, n, s, runs[0]) && Chart(d, n, s + runs[0].len, runs[1..], e)
  }

  ghost function Total(runs: seq<Run>): nat {
    if |runs| == 0 then 0 else runs[0].len + Total(runs[1..])
  }

  ghost function FreeTotal(runs: seq<Run>): nat {
    if |runs| == 0 then 0 else (if runs[0].kind == FreeRun then runs[0].len else 0) + FreeTotal(runs[1..])
  }

  // The pages at which free runs start.
  ghost function Heads(s: nat, runs: seq<Run>): set<int>
    decreases |runs|
  {
    if |runs| == 0 then {}
    else (if runs[0].kind == FreeRun then {s as int} else {}) + Heads(s + runs[0].len, runs[1..])
  }

  // Two free runs never touch.
  ghost predicate Coalesced(runs: seq<Run>) {
    forall i :: 0 <= i < |runs| - 1 ==> !(runs[i].kind == FreeRun && runs[i + 1].kind == FreeRun)
  }

  ghost predicate Listed(runs: seq<Run>, list: seq<Ptr>) {
    && (forall x :: x in list ==> x.Page? && x.p in Heads(0, runs))
    && (forall p :: p in Heads(0, runs) ==> Page(p) in list)
  }

  // The table describes the runs, and the free list holds exactly the free ones.
  ghost predicate Laid(d: Table, n: nat, slots: nat, runs: seq<Run>, list: seq<Ptr>) {
    && 0 < n < PAGE_START && WellFormed(d, n, slots)
    && Chart(d, n, 0, runs, n) && Listed(runs, list) && IsRing(d.next, d.prev, Free, list)
  }

  // -------- cutting and joining charts --------

  lemma {:induction false} TotalAppend(a: seq<Run>, b: seq<Run>)
    ensures Total(a + b) == Total(a) + Total(b)
    ensures FreeTotal(a + b) == FreeTotal(a) + FreeTotal(b)
  {
    if |a| == 0 {
      assert a + b == b;
    } else {
      assert (a + b)[1..] == a[1..] + b;
      TotalAppend(a[1..], b);
    }
  }

  lemma {:induction false} HeadsAppend(s: nat, a: seq<Run>, b: seq<Run>)
    ensures Heads(s, a + b) == Heads(s, a) + Heads(s + Total(a), b)
    decreases |a|
  {
    if |a| == 0 {
      assert a + b == b;
    } else {
      assert (a + b)[1..] == a[1..] + b;
      HeadsAppend(s + a[0].len, a[1..], b);
    }
  }

  lemma {:induction false} ChartAppend(d: Table, n: nat, s: nat, a: seq<Run>, b: seq<Run>, e: nat)
    ensures Chart(d, n, s, a + b, e) <==> Chart(d, n, s, a, s + Total(a)) && Chart(d, n, s + Total(a), b, e)
    decreases |a|
  {
    if |a| == 0 {
      assert a + b == b;
    } else {
      assert (a + b)[1..] == a[1..] + b;
      ChartAppend(d, n, s + a[0].len, a[1..], b, e);
    }
  }

  lemma {:induction false} ChartTotal(d: Table, n: nat, s: nat, runs: seq<Run>, e: nat)
    requires Chart(d, n, s, runs, e)
    ensures s + Total(runs) == e && |runs| <= Total(runs)
    decreases |runs|
  {
    if |runs| > 0 {
      ChartTotal(d, n, s + runs[0].len, runs[1..], e);
    }
  }

  lemma {:induction false} HeadsRange(d: Table, n: nat, s: nat, runs: seq<Run>, e: nat)
    requires Chart(d, n, s, runs, e)
    ensures forall p :: p in Heads(s, runs) ==> s <= p < e
    ensures s <= e
    decreases |runs|
  {
    if |runs| > 0 {
      HeadsRange(d, n, s + runs[0].len, runs[1..], e);
    }
  }

  // One run between the runs before and after it.
  lemma ChartMiddle(d: Table, n: nat, s: nat, a: seq<Run>, r: Run, b: seq<Run>, e: nat)
    ensures Chart(d, n, s, a + [r] + b, e) <==>
            && Chart(d, n, s, a, s + Total(a)) && 0 < r.len && Describes(d, n, s + Total(a), r)
            && Chart(d, n, s + Total(a) + r.len, b, e)
  {
    assert a + [r] + b == a + ([r] + b);
    ChartAppend(d, n, s, a, [r] + b, e);
    assert ([r] + b)[1..] == b;
  }

  lemma HeadsMiddle(s: nat, a: seq<Run>, r: Run, b: seq<Run>)
    ensures Heads(s, a + [r] + b)
         == Heads(s, a) + (if r.kind == FreeRun then {(s + Total(a)) as int} else {}) + Heads(s + Total(a) + r.len, b)
    ensures FreeTotal(a + [r] + b) == FreeTotal(a) + (if r.kind == FreeRun then r.len else 0) + FreeTotal(b)
    ensures Total(a + [r] + b) == Total(a) + r.len + Total(b)
  {
    assert a + [r] + b == a + ([r] + b);
    HeadsAppend(s, a, [r] + b);
    TotalAppend(a, [r] + b);
    assert ([r] + b)[1..] == b;
  }

  lemma {:induction false} FindHead(s: nat, runs: seq<Run>, p: int) returns (a: seq<Run>, r: Run, b: seq<Run>)
    requires p in Heads(s, runs)
    ensures runs == a + [r] + b && p == s + Total(a) && r.kind == FreeRun
    decreases |runs|
  {
    if runs[0].kind == FreeRun && p == s {
      a, r, b := [], runs[0], runs[1..];
    } else {
      a, r, b := FindHead(s + runs[0].len, runs[1..], p);
      var a' := [runs[0]] + a;
      assert a'[1..] == a;
      a := a';
    }
  }

  // -------- frames --------

  // Pages s to e keep their words, but the heads in `h` may be relinked.
  ghost predicate Keeps(d: Table, d': Table, s: int, e: int, h: set<int>) {
    forall p {:trigger Kept(d, d', p, h)} :: s <= p < e ==> Kept(d, d', p, h)
  }

  ghost predicate Kept(d: Table, d': Table, p: int, h: set<int>) {
    Head(d, p) ==>
      && Head(d', p) && d'.slab[Page(p)] == d.slab[Page(p)] && d'.tag[Page(p)] == d.tag[Page(p)]
      && (if p in h then d.next[Page(p)] != Null ==> d'.next[Page(p)] != Null
          else d'.next[Page(p)] == d.next[Page(p)] && d'.prev[Page(p)] == d.prev[Page(p)])
  }

  lemma DescribesFrame(d: Table, d': Table, n: nat, s: nat, run: Run, h: set<int>)
    requires Describes(d, n, s, run) && 0 < run.len && Keeps(d, d', s, s + run.len, h)
    requires forall p :: s < p < s + run.len ==> p !in h
    requires run.kind != FreeRun ==> s !in h
    ensures Describes(d', n, s, run)
  {
    assert Kept(d, d', s, h);
    forall p | s < p < s + run.len
      ensures Idle(d, p) ==> Idle(d', p)
      ensures Busy(d, p) ==> Busy(d', p)
    {
      assert Kept(d, d', p, h);
    }
    if run.kind == FreeRun && 2 <= run.len {
      assert Kept(d, d', s + run.len - 1, h);
    }
  }

  lemma {:induction false} ChartFrame(d: Table, d': Table, n: nat, s: nat, runs: seq<Run>, e: nat, h: set<int>)
    requires Chart(d, n, s, runs, e) && Keeps(d, d', s, e, h)
    requires forall p :: s <= p < e && p in h ==> p in Heads(s, runs)
    ensures Chart(d', n, s, runs, e)
    decreases |runs|
  {
    if |runs| > 0 {
      var m := s + runs[0].len;
      HeadsRange(d, n, m, runs[1..], e);
      assert forall p :: s <= p < m && p in h ==> p in Heads(s, runs) && p !in Heads(m, runs[1..]);
      assert forall p :: m <= p < e && p in h ==> p in Heads(s, runs) && p != s;
      DescribesFrame(d, d', n, s, runs[0], h);
      ChartFrame(d, d', n, m, runs[1..], e, h);
    }
  }

  // -------- one run changes --------

  // Outside [s, e) only the links of listed heads, and the free list's own, may change.
  ghost predicate ChangesWithin(d: Table, d': Table, n: nat, s: int, e: int, h: set<int>) {
    && d'.slab.Keys == d.slab.Keys && d'.next.Keys == d.next.Keys
    && d'.prev.Keys == d.prev.Keys && d'.tag.Keys == d.tag.Keys
    && Keeps(d, d', 0, s, h) && Keeps(d, d', e, n, h)
    && (forall q :: q in d.slab && q.Slot? ==> SameWords(d, d', q))
  }

  ghost predicate SameWords(d: Table, d': Table, q: Ptr) {
    && (q in d.slab ==> q in d'.slab && d'.slab[q] == d.slab[q])
    && (q in d.next ==> q in d'.next && d'.next[q] == d.next[q])
    && (q in d.prev ==> q in d'.prev && d'.prev[q] == d.prev[q])
    && (q in d.tag ==> q in d'.tag && d'.tag[q] == d.tag[q])
  }

  // The runs around the changed pages are still described.
  lemma Around(d: Table, d': Table, n: nat, a: seq<Run>, r: Run, b: seq<Run>)
    requires Chart(d, n, 0, a + [r] + b, n)
    requires ChangesWithin(d, d', n, Total(a), Total(a) + r.len, Heads(0, a + [r] + b))
    ensures Chart(d', n, 0, a, Total(a)) && Chart(d', n, Total(a) + r.len, b, n) && 0 < r.len
  {
    var s, h := Total(a), Heads(0, a + [r] + b);
    ChartMiddle(d, n, 0, a, r, b, n);
    HeadsMiddle(0, a, r, b);
    HeadsRange(d, n, 0, a, s);
    HeadsRange(d, n, s + r.len, b, n);
    ChartFrame(d, d', n, 0, a, s, h);
    ChartFrame(d, d', n, s + r.len, b, n, h);
  }

  lemma WellFormedKept(d: Table, d': Table, n: nat, slots: nat)
    requires WellFormed(d, n, slots)
    requires d'.slab.Keys == d.slab.Keys && d'.next.Keys == d.next.Keys
    requires d'.prev.Keys == d.prev.Keys && d'.tag.Keys == d.tag.Keys
    ensures WellFormed(d', n, slots)
  {
    assert forall x :: x in d.slab <==> x in d.slab.Keys;
    assert forall x :: x in d'.slab <==> x in d'.slab.Keys;
  }

  // One run replaced by one other of the same length.
  lemma Replaced(d: Table, d': Table, n: nat, slots: nat, a: seq<Run>, r: Run, r': Run, b: seq<Run>, list: seq<Ptr>)
    requires WellFormed(d, n, slots) && Chart(d, n, 0, a + [r] + b, n)
    requires ChangesWithin(d, d', n, Total(a), Total(a) + r.len, Heads(0, a + [r] + b))
    requires r'.len == r.len && Describes(d', n, Total(a), r')
    ensures WellFormed(d', n, slots) && Chart(d', n, 0, a + [r'] + b, n)
  {
    hide Chart, Describes, Heads, Keeps, WellFormed, Total;
    Around(d, d', n, a, r, b);
    ChartMiddle(d', n, 0, a, r', b, n);
    WellFormedKept(d, d', n, slots);
  }

  lemma EmptyChart(d: Table, n: nat, s: nat)
    ensures Chart(d, n, s, [], s) && Total([]) == 0
  {
  }

  // One run replaced by two.
  lemma Divided(d: Table, d': Table, n: nat, slots: nat, a: seq<Run>, r: Run, r1: Run, r2: Run, b: seq<Run>)
    requires WellFormed(d, n, slots) && Chart(d, n, 0, a + [r] + b, n)
    requires ChangesWithin(d, d', n, Total(a), Total(a) + r.len, Heads(0, a + [r] + b))
    requires 0 < r1.len && 0 < r2.len && r1.len + r2.len == r.len
    requires Describes(d', n, Total(a), r1) && Describes(d', n, Total(a) + r1.len, r2)
    ensures WellFormed(d', n, slots) && Chart(d', n, 0, a + [r1, r2] + b, n)
  {
    hide Chart, Describes, Heads, Keeps, WellFormed, Total;
    Around(d, d', n, a, r, b);
    assert a + [r1, r2] + b == a + [r1] + ([r2] + b);
    ChartMiddle(d', n, 0, a, r1, [r2] + b, n);
    ChartMiddle(d', n, Total(a) + r1.len, [], r2, b, n);
    EmptyChart(d', n, Total(a) + r1.len);
    assert [] + [r2] + b == [r2] + b;
    WellFormedKept(d, d', n, slots);
  }
}
