// The pure part of ngx_slab_free_pages: a busy run becomes free again, merged with the
// free runs on either side of it.

module SlabFree {
  import opened Ring
  import opened SlabRuns
  import opened SlabPages

  ghost predicate NoLimbo(runs: seq<Run>) {
    forall r :: r in runs ==> r.kind != LimboRun
  }

  // -------- from busy to limbo --------

  // The header of the run gets its length, and the pages up to `e` are cleared.
  ghost predicate Clearing(d: Table, d': Table, s: int, len: nat, e: int) {
    && SameKeys(d, d')
    && Head(d', s) && d'.slab[Page(s)] == len
    && (Head(d, s) ==> d'.next[Page(s)] == d.next[Page(s)] && d'.prev[Page(s)] == d.prev[Page(s)]
                       && d'.tag[Page(s)] == d.tag[Page(s)])
    && (forall p {:trigger Idle(d', p)} :: s < p < e ==> Idle(d', p))
    && (forall q: Ptr {:trigger SameWords(d, d', q)} :: !(q.Page? && s <= q.p < e) ==> SameWords(d, d', q))
  }

  ghost predicate Released(d: Table, d': Table, s: int, len: nat) {
    Clearing(d, d', s, len, s + len)
  }

  lemma ReleaseLaid(d: Table, d': Table, n: nat, slots: nat, runs: seq<Run>, list: seq<Ptr>,
                    a: seq<Run>, r: Run, b: seq<Run>)
    requires runs == a + [r] + b && (r.kind == BusyRun || r.kind == SlotRun)
    requires Released(d, d', Total(a), r.len)
    requires Laid(d, n, slots, runs, list)
    ensures Laid(d', n, slots, a + [Run(r.len, LimboRun)] + b, list)
    ensures FreeTotal(a + [Run(r.len, LimboRun)] + b) == FreeTotal(runs)
    ensures SlotsKept(d, d', Page(Total(a)))
  {
    hide Chart, Heads, Total, FreeTotal, WellFormed, Listed, IsRing, Describes, Keeps, SlotsKept, Released;
    RunFacts(d, n, slots, runs, list, a, r, b);
    ReleaseKeeps(d, d', n, slots, runs, list, a, r, b);
    Replaced(d, d', n, slots, a, r, Run(r.len, LimboRun), b, list);
    ReleaseListed(d, d', n, slots, runs, list, a, r, b);
  }

  lemma RunFacts(d: Table, n: nat, slots: nat, runs: seq<Run>, list: seq<Ptr>, a: seq<Run>, r: Run, b: seq<Run>)
    requires runs == a + [r] + b && r.kind != FreeRun && Laid(d, n, slots, runs, list)
    ensures
      var s, e, h := Total(a), Total(a) + r.len, Heads(0, runs);
      && 0 < r.len && e <= n && Describes(d, n, s, r)
      && (forall p :: p in h ==> p < s || e <= p) && h == Heads(0, a) + Heads(e, b)
      && FreeTotal(runs) == FreeTotal(a) + FreeTotal(b)
      && d.slab.Keys == d.next.Keys == d.prev.Keys == d.tag.Keys
      && Chart(d, n, 0, a, s) && Chart(d, n, e, b, n)
  {
    hide IsRing, Listed, Heads, FreeTotal, Total, Chart;
    ChartMiddle(d, n, 0, a, r, b, n);
    HeadsMiddle(0, a, r, b);
    HeadsRange(d, n, 0, a, Total(a));
    HeadsRange(d, n, Total(a) + r.len, b, n);
  }

  lemma RunPages(d: Table, n: nat, slots: nat, runs: seq<Run>, list: seq<Ptr>, a: seq<Run>, r: Run, b: seq<Run>)
    requires runs == a + [r] + b && (r.kind == BusyRun || r.kind == SlotRun) && Laid(d, n, slots, runs, list)
    ensures 0 < r.len && forall p :: Total(a) <= p < Total(a) + r.len ==> Head(d, p)
  {
    hide IsRing, Listed, Heads, FreeTotal, Total, Chart;
    RunFacts(d, n, slots, runs, list, a, r, b);
    forall p | Total(a) <= p < Total(a) + r.len
      ensures Head(d, p)
    {
      assert p > Total(a) && r.kind == BusyRun ==> Busy(d, p);
    }
  }

  lemma ReleaseKeeps(d: Table, d': Table, n: nat, slots: nat, runs: seq<Run>, list: seq<Ptr>,
                     a: seq<Run>, r: Run, b: seq<Run>)
    requires runs == a + [r] + b && (r.kind == BusyRun || r.kind == SlotRun)
    requires Released(d, d', Total(a), r.len)
    requires Laid(d, n, slots, runs, list)
    ensures ChangesWithin(d, d', n, Total(a), Total(a) + r.len, Heads(0, runs))
    ensures Describes(d', n, Total(a), Run(r.len, LimboRun)) && SlotsKept(d, d', Page(Total(a)))
  {
    hide Chart, Heads, Total, FreeTotal, Listed, IsRing, WellFormed;
    var s := Total(a);
    RunFacts(d, n, slots, runs, list, a, r, b);
    forall p | !(s <= p < s + r.len)
      ensures Kept(d, d', p, Heads(0, runs))
    {
      assert SameWords(d, d', Page(p));
    }
    forall q | q in d.slab && q.Slot?
      ensures SameWords(d, d', q)
    {
    }
    forall q | q in d.slab && InSlots(d, q) && q != Page(s)
      ensures SameWords(d, d', q)
    {
      assert r.kind == BusyRun && q.Page? && s < q.p < s + r.len ==> Busy(d, q.p);
    }
  }

  lemma ReleaseListed(d: Table, d': Table, n: nat, slots: nat, runs: seq<Run>, list: seq<Ptr>,
                      a: seq<Run>, r: Run, b: seq<Run>)
    requires runs == a + [r] + b && (r.kind == BusyRun || r.kind == SlotRun)
    requires Released(d, d', Total(a), r.len)
    requires Laid(d, n, slots, runs, list)
    ensures Listed(a + [Run(r.len, LimboRun)] + b, list) && IsRing(d'.next, d'.prev, Free, list)
    ensures FreeTotal(a + [Run(r.len, LimboRun)] + b) == FreeTotal(runs)
  {
    hide Chart, Heads, Total, FreeTotal, WellFormed, Describes;
    RunFacts(d, n, slots, runs, list, a, r, b);
    HeadsMiddle(0, a, Run(r.len, LimboRun), b);
    forall x | x in Members(Free, list)
      ensures x in d'.next && x in d'.prev && d'.next[x] == d.next[x] && d'.prev[x] == d.prev[x]
    {
      assert SameWords(d, d', x);
    }
    RingFrame(d.next, d.prev, d'.next, d'.prev, Free, list);
  }

  // -------- leaving a slot list --------

  // Only slot lists and their pages change, and a slot page keeps being one.
  ghost predicate SlotsTouched(d: Table, d': Table) {
    && SameKeys(d, d')
    && (forall q {:trigger SameWords(d, d', q)} :: q in d.tag && !InSlots(d, q) ==> SameWords(d, d', q))
    && (forall q :: q in d.tag && q.Page? && d.tag[q] != SLAB_PAGE ==> q in d'.tag && d'.tag[q] != SLAB_PAGE)
  }

  ghost predicate SlotsRelinked(d: Table, d': Table) {
    SlotsTouched(d, d') && d'.slab == d.slab
  }

  lemma {:induction false} RelinkChart(d: Table, d': Table, n: nat, s: nat, runs: seq<Run>, e: nat)
    requires Chart(d, n, s, runs, e) && SlotsTouched(d, d') && (NoLimbo(runs) || d'.slab == d.slab)
    ensures Chart(d', n, s, runs, e)
    decreases |runs|
  {
    if |runs| > 0 {
      assert NoLimbo(runs) ==> runs[0] in runs && NoLimbo(runs[1..]);
      RelinkDescribes(d, d', n, s, runs[0]);
      RelinkChart(d, d', n, s + runs[0].len, runs[1..], e);
    }
  }

  lemma RelinkDescribes(d: Table, d': Table, n: nat, s: nat, run: Run)
    requires Describes(d, n, s, run) && 0 < run.len && SlotsTouched(d, d')
    requires run.kind == LimboRun ==> d'.slab == d.slab
    ensures Describes(d', n, s, run)
  {
    assert !InSlots(d, Page(s)) ==> SameWords(d, d', Page(s));
    forall p | s < p < s + run.len
      ensures Idle(d, p) ==> Idle(d', p)
      ensures Busy(d, p) ==> Busy(d', p)
    {
      if Idle(d, p) || Busy(d, p) {
        assert SameWords(d, d', Page(p));
      }
    }
    if run.kind == FreeRun && 2 <= run.len {
      assert Idle(d, s + run.len - 1) && SameWords(d, d', Page(s + run.len - 1));
    }
  }

  lemma RelinkLaid(d: Table, d': Table, n: nat, slots: nat, runs: seq<Run>, list: seq<Ptr>)
    requires Laid(d, n, slots, runs, list) && SlotsTouched(d, d') && (NoLimbo(runs) || d'.slab == d.slab)
    ensures Laid(d', n, slots, runs, list)
  {
    hide Heads, Chart;
    RelinkChart(d, d', n, 0, runs, n);
    WellFormedKept(d, d', n, slots);
    FirstListed(d, n, slots, runs, list);
    forall x | x in Members(Free, list)
      ensures x in d'.next && x in d'.prev && d'.next[x] == d.next[x] && d'.prev[x] == d.prev[x]
    {
      if x in list {
        ListMember(d, n, slots, runs, list, x);
      }
      assert SameWords(d, d', x);
    }
    RingFrame(d.next, d.prev, d'.next, d'.prev, Free, list);
  }

  // -------- what the code reads of the neighbours --------

  // The page after the run is the head of a free run exactly when the two tests say so.
  lemma UpperNeighbour(d: Table, n: nat, s: nat, b: seq<Run>)
    requires Chart(d, n, s, b, n) && NoLimbo(b)
    ensures s < n <==> b != []
    ensures s < n ==> Head(d, s)
    ensures b != [] ==> (b[0].kind == FreeRun <==> d.tag[Page(s)] == SLAB_PAGE && d.next[Page(s)] != Null)
    ensures b != [] && b[0].kind == FreeRun ==> d.slab[Page(s)] == b[0].len
  {
    HeadsRange(d, n, s, b, n);
    ChartTotal(d, n, s, b, n);
    assert b != [] ==> b[0] in b;
  }

  // The page before the run leads to the head of a free run exactly when the tests,
  // and the back pointer, say so.
  lemma LowerNeighbour(d: Table, n: nat, a: seq<Run>, r: Run, s: nat)
    requires Chart(d, n, 0, a + [r], s) && r.kind != LimboRun && s < n
    ensures 0 < s && Head(d, s - 1) && Total(a) + r.len == s && 0 < r.len
    ensures d.tag[Page(s - 1)] != SLAB_PAGE ==> r.kind != FreeRun
    ensures d.tag[Page(s - 1)] == SLAB_PAGE ==>
              var j := if d.slab[Page(s - 1)] == PAGE_FREE then d.prev[Page(s - 1)] else Page(s - 1);
              && (r.kind == FreeRun ==>
                    j == Page(Total(a)) && j in d.next && d.next[j] != Null && j in d.slab && d.slab[j] == r.len)
              && (r.kind != FreeRun ==> j == Page(s - 1) && d.next[j] == Null)
  {
    ChartMiddle(d, n, 0, a, r, [], s);
    assert a + [r] + [] == a + [r];
    assert Total(a) + r.len == s by {
      assert Chart(d, n, Total(a) + r.len, [], s);
    }
    if 1 < r.len {
      assert r.kind == FreeRun ==> Idle(d, s - 1);
      assert r.kind == BusyRun ==> Busy(d, s - 1);
    }
  }

  lemma AfterPending(d: Table, n: nat, slots: nat, runs: seq<Run>, list: seq<Ptr>, a: seq<Run>, len: nat, b: seq<Run>)
    requires Pending(runs, a, len, b) && Laid(d, n, slots, runs, list)
    ensures Chart(d, n, Total(a) + len, b, n) && Head(d, Total(a)) && d.slab[Page(Total(a))] == len
  {
    hide IsRing, Listed, Heads, FreeTotal, Total, Chart;
    RunFacts(d, n, slots, runs, list, a, Run(len, LimboRun), b);
  }

  lemma BeforePending(d: Table, n: nat, slots: nat, runs: seq<Run>, list: seq<Ptr>, a: seq<Run>, len: nat, b: seq<Run>)
    requires Pending(runs, a, len, b) && NoLimbo(a) && Laid(d, n, slots, runs, list)
    ensures Total(a) > 0 <==> a != []
    ensures a != [] ==>
      var s, r := Total(a) - 1, a[|a| - 1];
      && Head(d, s) && (r.kind == FreeRun ==> d.tag[Page(s)] == SLAB_PAGE)
      && (d.tag[Page(s)] == SLAB_PAGE ==>
            var j := if d.slab[Page(s)] == PAGE_FREE then d.prev[Page(s)] else Page(s);
            && j in d.next && j in d.slab && (d.next[j] != Null <==> r.kind == FreeRun)
            && (r.kind == FreeRun ==> j == Page(Total(a[..|a| - 1])) && d.slab[j] == r.len))
  {
    hide IsRing, Listed, Heads, FreeTotal, Total, Describes, Chart, WellFormed;
    RunFacts(d, n, slots, runs, list, a, Run(len, LimboRun), b);
    if a != [] {
      var a0, r := a[..|a| - 1], a[|a| - 1];
      assert a == a0 + [r] && r in a;
      LowerNeighbour(d, n, a0, r, Total(a));
    } else {
      EmptyChart(d, n, 0);
    }
  }

  lemma NoLimboParts(a: seq<Run>, r: Run, b: seq<Run>)
    requires NoLimbo(a + [r] + b)
    ensures NoLimbo(a) && NoLimbo(b) && NoLimbo(if FreeAbove(b) then b[1..] else b)
  {
    var runs := a + [r] + b;
    assert forall x :: x in a || x in b ==> x in runs;
    assert b != [] ==> forall x :: x in b[1..] ==> x in b;
  }

  lemma KeptThroughout(d1: Table, d2: Table, d3: Table, d4: Table, d5: Table, page: Ptr, start: Ptr)
    requires SlotsKept(d1, d2, page) && SlotsKept(d2, d3, page) && SlotsKept(d3, d4, page) && SlotsKept(d4, d5, start)
    requires d1.slab.Keys == d1.next.Keys == d1.prev.Keys == d1.tag.Keys
    requires SameKeys(d1, d2) && SameKeys(d2, d3) && SameKeys(d3, d4)
    requires start == page || !InSlots(d4, start)
    ensures SlotsKept(d1, d5, page)
  {
    hide SlotsKept;
    SlotsKeptTwice(d1, d2, d3, page);
    SlotsKeptTwice(d1, d3, d4, page);
    assert SlotsKept(d4, d5, page) by {
      KeptElsewhere(d4, d5, page, start);
    }
    SlotsKeptTwice(d1, d4, d5, page);
  }

  lemma SlotsSame(d: Table, page: Ptr)
    ensures SlotsKept(d, d, page)
  {
  }

  lemma KeptElsewhere(d: Table, d': Table, page: Ptr, start: Ptr)
    requires SlotsKept(d, d', start) && (start == page || !InSlots(d, start))
    ensures SlotsKept(d, d', page)
  {
  }

  // -------- the runs afterwards --------

  lemma HandedOutNoLimbo(a: seq<Run>, r: Run, b: seq<Run>, pages: nat)
    requires 0 < pages <= r.len && NoLimbo(a + [r] + b)
    ensures NoLimbo(HandedOut(a, r, b, pages))
  {
    forall x | x in HandedOut(a, r, b, pages)
      ensures x.kind != LimboRun
    {
      assert x in a || x in b ==> x in a + [r] + b;
    }
  }

  ghost predicate FreeBelow(a: seq<Run>) {
    a != [] && a[|a| - 1].kind == FreeRun
  }

  ghost predicate FreeAbove(b: seq<Run>) {
    b != [] && b[0].kind == FreeRun
  }

  ghost function Freed(a: seq<Run>, len: nat, b: seq<Run>): seq<Run> {
    var a', below := if FreeBelow(a) then a[..|a| - 1] else a, if FreeBelow(a) then a[|a| - 1].len else 0;
    var b', above := if FreeAbove(b) then b[1..] else b, if FreeAbove(b) then b[0].len else 0;
    a' + [Run(below + len + above, FreeRun)] + b'
  }

  // A run leaves the free list, if it is on it.
  ghost predicate Cut(free: bool, list: seq<Ptr>, list': seq<Ptr>, x: Ptr) {
    if free then exists k :: 0 <= k < |list| && list[k] == x && list' == Without(list, k) else list' == list
  }

  // The free neighbours leave the list, and the joined run comes first.
  ghost predicate Relisted(list: seq<Ptr>, list': seq<Ptr>, a: seq<Run>, len: nat, b: seq<Run>) {
    var a' := if FreeBelow(a) then a[..|a| - 1] else a;
    exists list1, list2 {:trigger Cut(FreeAbove(b), list, list1, Page(Total(a) + len)),
                                  Cut(FreeBelow(a), list1, list2, Page(Total(a')))} ::
      && Cut(FreeAbove(b), list, list1, Page(Total(a) + len)) && Cut(FreeBelow(a), list1, list2, Page(Total(a')))
      && list' == [Page(Total(a'))] + list2
  }

  lemma CoalescedParts(a: seq<Run>, r: Run, b: seq<Run>)
    requires Coalesced(a + [r] + b)
    ensures Coalesced(a) && Coalesced(b)
  {
    var runs := a + [r] + b;
    assert forall i :: 0 <= i < |a| ==> runs[i] == a[i];
    forall i | 0 <= i < |b| - 1
      ensures !(b[i].kind == FreeRun && b[i + 1].kind == FreeRun)
    {
      var j := |a| + 1 + i;
      assert b[i] == runs[j] && b[i + 1] == runs[j + 1];
    }
  }

  lemma CoalescedAround(a: seq<Run>, r: Run, b: seq<Run>)
    requires Coalesced(a) && Coalesced(b) && !FreeBelow(a) && !FreeAbove(b)
    ensures Coalesced(a + [r] + b)
  {
    var runs := a + [r] + b;
    forall i | 0 <= i < |runs| - 1
      ensures !(runs[i].kind == FreeRun && runs[i + 1].kind == FreeRun)
    {
      if i + 1 < |a| {
        assert runs[i] == a[i] && runs[i + 1] == a[i + 1];
      } else if i > |a| {
        assert runs[i] == b[i - |a| - 1] && runs[i + 1] == b[i - |a|];
      }
    }
  }

  lemma LeavingCoalesced(a: seq<Run>, b: seq<Run>)
    requires Coalesced(a) && Coalesced(b)
    ensures FreeBelow(a) ==> Coalesced(a[..|a| - 1]) && !FreeBelow(a[..|a| - 1])
    ensures FreeAbove(b) ==> Coalesced(b[1..]) && !FreeAbove(b[1..])
  {
    if FreeBelow(a) && |a| > 1 {
      assert a[|a| - 2 + 1].kind == FreeRun;
    }
  }

  lemma FreedCoalesced(a: seq<Run>, r: Run, b: seq<Run>)
    requires Coalesced(a + [r] + b) && NoLimbo(a + [r] + b)
    ensures Coalesced(Freed(a, r.len, b)) && NoLimbo(Freed(a, r.len, b))
  {
    hide Coalesced;
    CoalescedParts(a, r, b);
    LeavingCoalesced(a, b);
    NoLimboParts(a, r, b);
    var x, below := if FreeBelow(a) then a[..|a| - 1] else a, if FreeBelow(a) then a[|a| - 1].len else 0;
    var y, above := if FreeAbove(b) then b[1..] else b, if FreeAbove(b) then b[0].len else 0;
    CoalescedAround(x, Run(below + r.len + above, FreeRun), y);
    assert NoLimbo(x) by {
      assert forall z :: z in x ==> z in a;
    }
    forall z | z in Freed(a, r.len, b)
      ensures z.kind != LimboRun
    {
      assert z in x || z in y || z.kind == FreeRun;
    }
  }

  lemma AtMostOne(list: seq<Ptr>, x: Ptr)
    requires Distinct(list)
    ensures |list| > 1 ==> exists i :: 0 <= i < |list| && list[i] != x
  {
    if |list| > 1 {
      assert list[0] != list[1];
    }
  }

  // When nothing is handed out, the page array is one free run.
  lemma AllFree(d: Table, n: nat, slots: nat, runs: seq<Run>, list: seq<Ptr>)
    requires Laid(d, n, slots, runs, list) && Coalesced(runs)
    requires forall r :: r in runs ==> r.kind == FreeRun
    ensures runs == [Run(n, FreeRun)] && list == [Page(0)] && FreeTotal(runs) == n
    ensures d.slab[Page(0)] == n
  {
    ChartTotal(d, n, 0, runs, n);
    assert |runs| > 0;
    forall i | 0 <= i < |runs|
      ensures runs[i].kind == FreeRun
    {
      assert runs[i] in runs;
    }
    assert runs[1..] == [] && runs == [runs[0]];
    assert Heads(0, runs) == {0};
    assert Page(0) in list;
    forall i | 0 <= i < |list|
      ensures list[i] == Page(0)
    {
      assert list[i] in list;
    }
    AtMostOne(list, Page(0));
  }

  // -------- the slot list a page leaves --------

  ghost predicate SlotLinked(d: Table, x: Ptr) {
    && x.Page? && x in d.slab && x in d.next && x in d.prev && x in d.tag && d.tag[x] != SLAB_PAGE
    && d.prev[x] in d.slab && InSlots(d, d.prev[x]) && d.next[x] in d.slab && InSlots(d, d.next[x])
    && d.prev[x] != x && d.next[x] != x
  }

  ghost function Unlinked(d: Table, x: Ptr): Table {
    if x in d.next && x in d.prev && x in d.tag && d.next[x] != Null
       && d.prev[x] in d.next && d.next[x] in d.prev && d.next[x] in d.tag then CutOut(d, x)
    else d
  }

  lemma UnlinkRelinks(d: Table, d': Table, x: Ptr)
    requires d.slab.Keys == d.next.Keys == d.prev.Keys == d.tag.Keys
    requires SlotLinked(d, x) && d.next[x] != Null && d' == CutOut(d, x)
    ensures SlotsRelinked(d, d')
  {
    var a, b := d.prev[x], d.next[x];
    assert a in d.next && b in d.prev && b in d.tag;
    forall q | q in d.tag && !InSlots(d, q)
      ensures SameWords(d, d', q)
    {
    }
  }

  // Clearing the page's other words first makes no difference to the slot lists.
  lemma UnlinkSlots(d: Table, d1: Table, d2: Table, s: int, len: nat)
    requires d.slab.Keys == d.next.Keys == d.prev.Keys == d.tag.Keys
    requires Head(d, s) && Released(d, d1, s, len) && SlotsKept(d, d1, Page(s))
    requires d.next[Page(s)] != Null ==> SlotLinked(d, Page(s)) && SlotLinked(d1, Page(s)) && d2 == CutOut(d1, Page(s))
    requires d.next[Page(s)] == Null ==> d2 == d1
    ensures SlotsKept(Unlinked(d, Page(s)), d2, Page(s)) && SameKeys(Unlinked(d, Page(s)), d2)
    ensures Unlinked(d, Page(s)).slab.Keys == d.slab.Keys && SameKeys(d, Unlinked(d, Page(s)))
  {
    var x, u := Page(s), Unlinked(d, Page(s));
    if d.next[x] != Null {
      assert d.prev[x] in d.next && d.next[x] in d.prev && d.next[x] in d.tag;
      forall q | q in u.slab && InSlots(u, q) && q != x
        ensures SameWords(u, d2, q)
      {
        assert q != d.next[x] ==> u.tag[q] == d.tag[q];
        assert q in d.slab && InSlots(d, q);
        assert SameWords(d, d1, q);
      }
    }
  }

  lemma StillLinked(d: Table, d1: Table, s: int, len: nat)
    requires Head(d, s) && Released(d, d1, s, len) && SlotsKept(d, d1, Page(s))
    requires SlotLinked(d, Page(s))
    ensures SlotLinked(d1, Page(s))
  {
    assert SameWords(d, d1, d.prev[Page(s)]) && SameWords(d, d1, d.next[Page(s)]);
  }

  // -------- the two joins --------

  lemma UpperAdjoins(d: Table, n: nat, slots: nat, runs: seq<Run>, list: seq<Ptr>,
                     a: seq<Run>, len: nat, b: seq<Run>) returns (k: nat)
    requires Pending(runs, a, len, b) && FreeAbove(b) && Laid(d, n, slots, runs, list)
    ensures Adjoining(list, k, runs, a, Run(len, LimboRun), b[0], b[1..])
  {
    hide Chart, Heads, Total, Describes, WellFormed, IsRing, FreeTotal;
    var r1 := Run(len, LimboRun);
    assert a + [r1] + b == a + [r1, b[0]] + b[1..];
    PairHeads(a, r1, b[0], b[1..]);
    assert Page(Total(a) + len) in list;
    k :| 0 <= k < |list| && list[k] == Page(Total(a) + len);
  }

  lemma LowerAdjoins(d: Table, n: nat, slots: nat, runs: seq<Run>, list: seq<Ptr>,
                     a: seq<Run>, len: nat, b: seq<Run>) returns (k: nat)
    requires Pending(runs, a, len, b) && FreeBelow(a) && Laid(d, n, slots, runs, list)
    ensures Adjoining(list, k, runs, a[..|a| - 1], a[|a| - 1], Run(len, LimboRun), b)
    ensures Total(a[..|a| - 1]) + a[|a| - 1].len == Total(a)
  {
    hide Chart, Heads, Total, Describes, WellFormed, IsRing, FreeTotal;
    var a0, r, r2 := a[..|a| - 1], a[|a| - 1], Run(len, LimboRun);
    assert a + [r2] + b == a0 + [r, r2] + b;
    PairHeads(a0, r, r2, b);
    assert Page(Total(a0)) in list;
    k :| 0 <= k < |list| && list[k] == Page(Total(a0));
    TotalSnoc(a);
  }

  lemma TotalSnoc(a: seq<Run>)
    requires a != []
    ensures Total(a[..|a| - 1]) + a[|a| - 1].len == Total(a)
  {
    assert a == a[..|a| - 1] + [a[|a| - 1]];
    TotalAppend(a[..|a| - 1], [a[|a| - 1]]);
    assert Total([a[|a| - 1]]) == a[|a| - 1].len;
  }
}
