// What the writes of ngx_slab_alloc_pages and ngx_slab_free_pages do to the runs of
// pages and to the free list.

module SlabPages {
  import opened Ring
  import opened SlabRuns

  // The head of a listed free run, with its neighbours in the free list.
  ghost predicate Linkable(d: Table, n: nat, s: int, len: nat, h: set<int>, a: Ptr, b: Ptr) {
    && d.slab.Keys == d.next.Keys == d.prev.Keys == d.tag.Keys
    && 0 <= s && 0 < len && s + len <= n && (forall p :: s <= p < s + len ==> Head(d, p))
    && Head(d, s) && s in h && d.prev[Page(s)] == a && d.next[Page(s)] == b && d.tag[Page(s)] == SLAB_PAGE
    && Neighbour(d, s, len, h, a) && Neighbour(d, s, len, h, b)
  }

  ghost predicate Neighbour(d: Table, s: int, len: nat, h: set<int>, a: Ptr) {
    && a in d.slab && a in d.next && a in d.prev && a in d.tag
    && (a.Free? || (a.Page? && a.p in h && !(s <= a.p < s + len) && d.tag[a] == SLAB_PAGE))
  }

  // The head of a run is taken out of the free list: two pointer writes.
  function CutOut(d: Table, x: Ptr): Table
    requires x in d.next && x in d.prev && x in d.tag
    requires d.prev[x] in d.next && d.next[x] in d.prev && d.next[x] in d.tag
  {
    SetPrev(SetNext(d, d.prev[x], d.next[x]), d.next[x], d.prev[x], d.tag[x])
  }

  // The header of the rest of a divided run, and the back pointer to it.
  ghost function RestHeader(d: Table, page: int, pages: int): Table
    requires Head(d, page) && Head(d, page + pages) && 0 < pages < d.slab[Page(page)]
    requires Head(d, page + d.slab[Page(page)] - 1)
  {
    var x, y, len := Page(page), Page(page + pages), d.slab[Page(page)];
    var d1 := SetPrev(d, Page(page + len - 1), y, 0);
    SetPrev(SetNext(SetSlab(d1, y, len - pages), y, d.next[x]), y, d.prev[x], d.tag[x])
  }

  // The rest of a run takes the place of its head in the free list.
  ghost function SplitOff(d: Table, page: int, pages: int): Table
    requires Head(d, page) && Head(d, page + pages) && 0 < pages < d.slab[Page(page)]
    requires Head(d, page + d.slab[Page(page)] - 1)
    requires d.prev[Page(page)] in d.next && d.next[Page(page)] in d.prev && d.next[Page(page)] in d.tag
  {
    var x, y := Page(page), Page(page + pages);
    SetPrev(SetNext(RestHeader(d, page, pages), d.prev[x], y), d.next[x], y, 0)
  }

  // The first page of a run handed out.
  function MarkStart(d: Table, x: Ptr, pages: nat): Table
    requires x in d.slab && x in d.next && x in d.prev && x in d.tag
  {
    SetPrev(SetNext(SetSlab(d, x, pages + PAGE_START), x, Null), x, Null, SLAB_PAGE)
  }

  ghost predicate Divisible(d: Table, s: int, pages: nat) {
    && Head(d, s) && Head(d, s + pages) && 0 < pages < d.slab[Page(s)] && Head(d, s + d.slab[Page(s)] - 1)
    && d.prev[Page(s)] in d.next && d.next[Page(s)] in d.prev && d.next[Page(s)] in d.tag
    && d.prev[Page(s)] != Page(s)
  }

  ghost function Divide(d: Table, s: int, pages: nat): Table
    requires Divisible(d, s, pages)
  {
    MarkStart(SplitOff(d, s, pages), Page(s), pages)
  }

  // The four words at one address after a run has been divided.
  lemma DividedAt(d: Table, s: int, pages: nat, q: Ptr)
    requires Divisible(d, s, pages)
    requires q in d.slab && q in d.next && q in d.prev && q in d.tag
    ensures
      var d', x, y, z := Divide(d, s, pages), Page(s), Page(s + pages), Page(s + d.slab[Page(s)] - 1);
      var a, b := d.prev[x], d.next[x];
      && q in d'.slab && q in d'.next && q in d'.prev && q in d'.tag
      && d'.slab[q] == (if q == x then pages + PAGE_START else if q == y then d.slab[x] - pages else d.slab[q])
      && d'.next[q] == (if q == x then Null else if q == a then y else if q == y then b else d.next[q])
      && d'.prev[q] == (if q == x then Null else if q == b then y else if q == y then a else if q == z then y
                       else d.prev[q])
      && d'.tag[q] == (if q == x then 0 else if q == b then 0 else if q == y then d.tag[x] else if q == z then 0
                      else d.tag[q])
  {
  }

  ghost predicate SameKeys(d: Table, d': Table) {
    && d'.slab.Keys == d.slab.Keys && d'.next.Keys == d.next.Keys
    && d'.prev.Keys == d.prev.Keys && d'.tag.Keys == d.tag.Keys
  }

  lemma DividedKeys(d: Table, n: nat, s: int, len: nat, h: set<int>, a: Ptr, b: Ptr, pages: nat)
    requires Linkable(d, n, s, len, h, a, b) && d.slab[Page(s)] == len && 0 < pages < len
    requires Divisible(d, s, pages)
    ensures SameKeys(d, Divide(d, s, pages))
  {
    assert Head(d, s + pages) && Head(d, s + len - 1);
  }

  lemma DividedKeeps(d: Table, n: nat, s: int, len: nat, h: set<int>, a: Ptr, b: Ptr, pages: nat)
    requires Linkable(d, n, s, len, h, a, b) && d.slab[Page(s)] == len && 0 < pages < len
    requires Divisible(d, s, pages)
    ensures ChangesWithin(d, Divide(d, s, pages), n, s, s + len, h) && Started(Divide(d, s, pages), s, pages)
  {
    hide Divide;
    var d' := Divide(d, s, pages);
    DividedKeys(d, n, s, len, h, a, b, pages);
    DividedAt(d, s, pages, Page(s));
    forall p | !(s <= p < s + len)
      ensures Kept(d, d', p, h)
    {
      if Head(d, p) {
        DividedAt(d, s, pages, Page(p));
      }
    }
    forall q | q in d.slab && q.Slot?
      ensures SameWords(d, d', q)
    {
      DividedAt(d, s, pages, q);
    }
  }

  lemma DividedRest(d: Table, n: nat, s: int, len: nat, h: set<int>, a: Ptr, b: Ptr, pages: nat)
    requires Linkable(d, n, s, len, h, a, b) && d.slab[Page(s)] == len && 0 < pages < len && b != Null
    requires Describes(d, n, s, Run(len, FreeRun))
    requires Divisible(d, s, pages)
    ensures Describes(Divide(d, s, pages), n, s + pages, Run(len - pages, FreeRun))
    ensures forall p {:trigger Head(Divide(d, s, pages), p)} :: s <= p < s + len ==> Head(Divide(d, s, pages), p)
  {
    hide Divide;
    var d' := Divide(d, s, pages);
    assert Head(d, s + pages) && Head(d, s + len - 1);
    forall p | s <= p < s + len
      ensures Head(d', p)
      ensures s + pages < p ==> Idle(d', p)
    {
      assert Head(d, p);
      assert s < p ==> Idle(d, p);
      DividedAt(d, s, pages, Page(p));
    }
    DividedAt(d, s, pages, Page(s + pages));
    DividedAt(d, s, pages, Page(s + len - 1));
  }

  lemma DividedRing(d: Table, n: nat, s: int, len: nat, h: set<int>, a: Ptr, b: Ptr, pages: nat, list: seq<Ptr>, k: nat)
    requires Linkable(d, n, s, len, h, a, b) && d.slab[Page(s)] == len && 0 < pages < len
    requires IsRing(d.next, d.prev, Free, list) && k < |list| && list[k] == Page(s)
    requires a == Nth(Free, list, k) && b == Nth(Free, list, k + 2)
    requires forall x :: x in list ==> x.Page? && x.p in h
    requires forall p :: s < p < s + len ==> p !in h
    requires Divisible(d, s, pages)
    ensures
      var d' := Divide(d, s, pages);
      IsRing(d'.next, d'.prev, Free, With(Without(list, k), k, Page(s + pages)))
  {
    hide Divide, SameKeys;
    var d' := Divide(d, s, pages);
    var x, y, t := Page(s), Page(s + pages), Without(list, k);
    RemoveAt(d.next, d.prev, Free, list, k);
    WithoutDistinct(list, k);
    NthWithout(Free, list, k, k);
    if k + 1 <= |t| {
      NthWithout(Free, list, k, k + 1);
    }
    assert y !in list && (len > pages + 1 ==> Page(s + len - 1) !in list);
    var next1, prev1 := d.next[a := b], d.prev[b := a];
    DividedAt(d, s, pages, y);
    DividedAt(d, s, pages, a);
    DividedAt(d, s, pages, b);
    forall q | q in Members(Free, t)
      ensures q in d'.next && q in d'.prev && (q != a ==> d'.next[q] == next1[q]) && (q != b ==> d'.prev[q] == prev1[q])
    {
      assert q in d.next && q in d.prev && q != x;
      DividedAt(d, s, pages, q);
    }
    InsertAt(next1, prev1, Free, t, k, y, d'.next, d'.prev);
  }

  // A whole run leaves the free list.
  ghost predicate Removable(d: Table, s: int) {
    Head(d, s) && d.prev[Page(s)] in d.next && d.next[Page(s)] in d.prev && d.next[Page(s)] in d.tag
  }

  ghost function TakeOut(d: Table, s: int, len: nat): Table
    requires Removable(d, s)
  {
    MarkStart(CutOut(d, Page(s)), Page(s), len)
  }

  lemma TakeOutAt(d: Table, s: int, len: nat, q: Ptr)
    requires Removable(d, s) && q in d.slab && q in d.next && q in d.prev && q in d.tag
    ensures
      var d', x := TakeOut(d, s, len), Page(s);
      var a, b := d.prev[x], d.next[x];
      && q in d'.slab && q in d'.next && q in d'.prev && q in d'.tag
      && d'.slab[q] == (if q == x then len + PAGE_START else d.slab[q])
      && d'.next[q] == (if q == x then Null else if q == a then b else d.next[q])
      && d'.prev[q] == (if q == x then Null else if q == b then a else d.prev[q])
      && d'.tag[q] == (if q == x then 0 else if q == b then d.tag[x] else d.tag[q])
  {
  }

  lemma TakeOutKeeps(d: Table, n: nat, s: int, len: nat, h: set<int>, a: Ptr, b: Ptr)
    requires Linkable(d, n, s, len, h, a, b) && a != Null && b != Null
    requires Removable(d, s)
    ensures ChangesWithin(d, TakeOut(d, s, len), n, s, s + len, h) && Started(TakeOut(d, s, len), s, len)
    ensures forall p {:trigger Head(TakeOut(d, s, len), p)} :: s <= p < s + len ==> Head(TakeOut(d, s, len), p)
  {
    var d' := TakeOut(d, s, len);
    assert d'.slab.Keys == d.slab.Keys && d'.next.Keys == d.next.Keys;
    assert d'.prev.Keys == d.prev.Keys && d'.tag.Keys == d.tag.Keys;
    TakeOutAt(d, s, len, Page(s));
    hide TakeOut;
    forall p
      ensures Head(d, p) ==> Head(d', p)
      ensures !(s <= p < s + len) ==> Kept(d, d', p, h)
    {
      if Head(d, p) {
        TakeOutAt(d, s, len, Page(p));
      }
    }
    forall q | q in d.slab && q.Slot?
      ensures SameWords(d, d', q)
    {
      TakeOutAt(d, s, len, q);
    }
  }

  lemma TakeOutRing(d: Table, n: nat, s: int, len: nat, h: set<int>, a: Ptr, b: Ptr, list: seq<Ptr>, k: nat)
    requires Linkable(d, n, s, len, h, a, b)
    requires IsRing(d.next, d.prev, Free, list) && k < |list| && list[k] == Page(s)
    requires Removable(d, s)
    ensures IsRing(TakeOut(d, s, len).next, TakeOut(d, s, len).prev, Free, Without(list, k))
  {
    var d', t := TakeOut(d, s, len), Without(list, k);
    RemoveAt(d.next, d.prev, Free, list, k);
    WithoutDistinct(list, k);
    assert Page(s) !in Members(Free, t);
    RingFrame(d.next[a := b], d.prev[b := a], d'.next, d'.prev, Free, t);
  }

  // -------- filling the rest of a run handed out --------

  ghost predicate Filled(d: Table, d': Table, s: int, e: int) {
    && d'.slab.Keys == d.slab.Keys && d'.next.Keys == d.next.Keys
    && d'.prev.Keys == d.prev.Keys && d'.tag.Keys == d.tag.Keys
    && (forall p {:trigger Busy(d', p)} :: s <= p < e ==> Busy(d', p))
    && (forall q: Ptr {:trigger SameWords(d, d', q)} :: !(q.Page? && s <= q.p < e) ==> SameWords(d, d', q))
  }

  // A run handed out, or the first part of one, and the words kept around it.
  lemma FilledKeeps(d: Table, d1: Table, d2: Table, n: nat, s: int, len: nat, pages: nat, h: set<int>)
    requires ChangesWithin(d, d1, n, s, s + len, h) && Started(d1, s, pages) && 0 < pages <= len && 0 <= s
    requires Filled(d1, d2, s + 1, s + pages)
    ensures ChangesWithin(d, d2, n, s, s + len, h) && Describes(d2, n, s, Run(pages, BusyRun))
  {
    assert SameWords(d1, d2, Page(s));
    forall p | 0 <= p < s || s + len <= p < n
      ensures Kept(d, d2, p, h)
    {
      assert Kept(d, d1, p, h) && SameWords(d1, d2, Page(p));
    }
    forall q | q in d.slab && q.Slot?
      ensures SameWords(d, d2, q)
    {
      assert SameWords(d, d1, q) && SameWords(d1, d2, q);
    }
  }

  lemma FilledRest(d1: Table, d2: Table, n: nat, s: int, run: Run, f: int)
    requires Filled(d1, d2, f, s) && Describes(d1, n, s, run) && run.kind == FreeRun && 0 < run.len
    ensures Describes(d2, n, s, run)
  {
    assert SameWords(d1, d2, Page(s)) && SameWords(d1, d2, Page(s + run.len - 1));
    forall p | s < p < s + run.len
      ensures Idle(d2, p)
    {
      assert Idle(d1, p) && SameWords(d1, d2, Page(p));
    }
  }

  lemma FilledRing(d1: Table, d2: Table, s: int, e: int, list: seq<Ptr>)
    requires Filled(d1, d2, s, e) && IsRing(d1.next, d1.prev, Free, list)
    requires forall x :: x in list ==> x.Page? && !(s <= x.p < e)
    ensures IsRing(d2.next, d2.prev, Free, list)
  {
    forall x | x in Members(Free, list)
      ensures x in d2.next && x in d2.prev && d2.next[x] == d1.next[x] && d2.prev[x] == d1.prev[x]
    {
      assert SameWords(d1, d2, x);
    }
    RingFrame(d1.next, d1.prev, d2.next, d2.prev, Free, list);
  }

  // -------- the free list entry of a run --------

  lemma ListDistinct(d: Table, n: nat, slots: nat, runs: seq<Run>, list: seq<Ptr>)
    requires Laid(d, n, slots, runs, list)
    ensures Distinct(list) && Free !in list
  {
    hide Chart, WellFormed, Listed;
  }

  // A listed run, with the runs before and after it.
  ghost predicate Entry(list: seq<Ptr>, k: nat, runs: seq<Run>, a: seq<Run>, r: Run, b: seq<Run>) {
    && k < |list| && list[k] == Page(Total(a)) && runs == a + [r] + b && r.kind == FreeRun
  }

  lemma EntryHeads(d: Table, n: nat, slots: nat, runs: seq<Run>, list: seq<Ptr>,
                   k: nat, a: seq<Run>, r: Run, b: seq<Run>)
    requires Laid(d, n, slots, runs, list) && Entry(list, k, runs, a, r, b)
    ensures Heads(0, runs) == Heads(0, a) + {Total(a) as int} + Heads(Total(a) + r.len, b)
    ensures forall p :: p in Heads(0, a) ==> 0 <= p < Total(a)
    ensures var e := Total(a) + r.len; forall p :: p in Heads(e, b) ==> e <= p
    ensures 0 < r.len && Describes(d, n, Total(a), r) && Total(a) + r.len <= n
  {
    hide WellFormed, IsRing, Listed, Describes, Heads, Chart, Total;
    ChartMiddle(d, n, 0, a, r, b, n);
    HeadsMiddle(0, a, r, b);
    HeadsRange(d, n, 0, a, Total(a));
    HeadsRange(d, n, Total(a) + r.len, b, n);
  }

  lemma EntryPages(d: Table, n: nat, s: nat, r: Run)
    requires Describes(d, n, s, r) && r.kind == FreeRun && 0 < r.len
    ensures forall p :: s <= p < s + r.len ==> Head(d, p)
    ensures Head(d, s) && d.slab[Page(s)] == r.len && d.tag[Page(s)] == SLAB_PAGE
  {
    forall p | s <= p < s + r.len
      ensures Head(d, p)
    {
      assert s < p ==> Idle(d, p);
    }
  }

  lemma EntryLinks(d: Table, n: nat, slots: nat, runs: seq<Run>, list: seq<Ptr>,
                   k: nat, a: seq<Run>, r: Run, b: seq<Run>)
    requires Laid(d, n, slots, runs, list) && Entry(list, k, runs, a, r, b)
    ensures Page(Total(a)) in d.prev && d.prev[Page(Total(a))] == Nth(Free, list, k)
    ensures Page(Total(a)) in d.next && d.next[Page(Total(a))] == Nth(Free, list, k + 2)
    ensures d.slab.Keys == d.next.Keys == d.prev.Keys == d.tag.Keys
    ensures forall x :: x in list ==> x.Page? && x.p in Heads(0, runs)
  {
    hide Chart, Heads;
    LinkAt(d.next, d.prev, Free, list, k);
    LinkAt(d.next, d.prev, Free, list, k + 1);
    assert Nth(Free, list, k + 1) == list[k];
  }

  lemma EntryLinkable(d: Table, n: nat, slots: nat, runs: seq<Run>, list: seq<Ptr>,
                      k: nat, a: seq<Run>, r: Run, b: seq<Run>)
    requires Laid(d, n, slots, runs, list) && Entry(list, k, runs, a, r, b)
    ensures
      var s, p, q := Total(a), Nth(Free, list, k), Nth(Free, list, k + 2);
      && Linkable(d, n, s, r.len, Heads(0, runs), p, q) && Removable(d, s)
      && d.slab[Page(s)] == r.len && Describes(d, n, s, r) && p != Null && q != Null
      && (forall x :: x in list ==> x.Page? && x.p in Heads(0, runs))
      && (forall p :: s < p < s + r.len ==> p !in Heads(0, runs))
  {
    hide Laid, Describes, Chart, Heads, Total;
    EntryHeads(d, n, slots, runs, list, k, a, r, b);
    EntryPages(d, n, Total(a), r);
    EntryLinks(d, n, slots, runs, list, k, a, r, b);
    EntryNeighbour(d, n, slots, runs, list, k, a, r, b, k);
    EntryNeighbour(d, n, slots, runs, list, k, a, r, b, k + 2);
  }

  lemma ListMember(d: Table, n: nat, slots: nat, runs: seq<Run>, list: seq<Ptr>, q: Ptr)
    requires Laid(d, n, slots, runs, list) && q in list
    ensures q.Page? && q.p in Heads(0, runs) && Head(d, q.p) && d.tag[q] == SLAB_PAGE
  {
    hide WellFormed, IsRing;
    var a', r', b' := FindHead(0, runs, q.p);
    ChartMiddle(d, n, 0, a', r', b', n);
  }

  lemma EntryNeighbour(d: Table, n: nat, slots: nat, runs: seq<Run>, list: seq<Ptr>,
                       k: nat, a: seq<Run>, r: Run, b: seq<Run>, i: nat)
    requires Laid(d, n, slots, runs, list) && Entry(list, k, runs, a, r, b) && i != k + 1 && i <= |list| + 1
    ensures Neighbour(d, Total(a), r.len, Heads(0, runs), Nth(Free, list, i)) && Nth(Free, list, i) != Null
  {
    hide Chart, Heads, Describes, Total, Listed;
    var q := Nth(Free, list, i);
    if q != Free {
      assert q == list[i - 1] && q in list && q != list[k];
      ListMember(d, n, slots, runs, list, q);
      EntryHeads(d, n, slots, runs, list, k, a, r, b);
    }
  }

  // -------- the page array after a run has been handed out --------

  ghost function HandedOut(a: seq<Run>, r: Run, b: seq<Run>, pages: nat): seq<Run>
    requires 0 < pages <= r.len
  {
    if pages == r.len then a + [Run(pages, BusyRun)] + b
    else a + [Run(pages, BusyRun), Run(r.len - pages, FreeRun)] + b
  }

  ghost function ListAfter(list: seq<Ptr>, k: nat, s: int, len: nat, pages: nat): seq<Ptr>
    requires k < |list|
  {
    if pages == len then Without(list, k) else With(Without(list, k), k, Page(s + pages))
  }

  lemma HandOutWhole(d: Table, d2: Table, n: nat, slots: nat, runs: seq<Run>, list: seq<Ptr>,
                     k: nat, a: seq<Run>, r: Run, b: seq<Run>)
    requires Laid(d, n, slots, runs, list) && Entry(list, k, runs, a, r, b) && 0 < r.len
    requires Removable(d, Total(a))
    requires Filled(TakeOut(d, Total(a), r.len), d2, Total(a) + 1, Total(a) + r.len)
    ensures Laid(d2, n, slots, HandedOut(a, r, b, r.len), Without(list, k))
    ensures ChangesWithin(d, d2, n, Total(a), Total(a) + r.len, Heads(0, runs))
  {
    hide Chart, Heads, TakeOut, IsRing, Listed, Filled, ChangesWithin, Linkable, Keeps, Started, Opened, WellFormed,
         Describes, Total, Removable, Divisible, Head, Distinct, FreeTotal;
    var s, p, q, h := Total(a), Nth(Free, list, k), Nth(Free, list, k + 2), Heads(0, runs);
    var d1 := TakeOut(d, s, r.len);
    EntryLinkable(d, n, slots, runs, list, k, a, r, b);
    TakeOutKeeps(d, n, s, r.len, h, p, q);
    FilledKeeps(d, d1, d2, n, s, r.len, r.len, h);
    Replaced(d, d2, n, slots, a, r, Run(r.len, BusyRun), b, list);
    TakeOutRing(d, n, s, r.len, h, p, q, list, k);
    ListedWhole(d, n, slots, runs, list, k, a, r, b);
    ListOutside(d, n, slots, runs, list, k, a, r, b);
    ListDistinct(d, n, slots, runs, list);
    WithoutDistinct(list, k);
    FilledRing(d1, d2, s + 1, s + r.len, Without(list, k));
  }

  lemma ListedWhole(d: Table, n: nat, slots: nat, runs: seq<Run>, list: seq<Ptr>,
                    k: nat, a: seq<Run>, r: Run, b: seq<Run>)
    requires Laid(d, n, slots, runs, list) && Entry(list, k, runs, a, r, b)
    ensures 0 < r.len && Listed(HandedOut(a, r, b, r.len), Without(list, k))
  {
    EntryHeads(d, n, slots, runs, list, k, a, r, b);
    HeadsMiddle(0, a, Run(r.len, BusyRun), b);
    ListDistinct(d, n, slots, runs, list);
    WithoutDistinct(list, k);
  }

  lemma HeadsTwo(a: seq<Run>, r1: Run, r2: Run, b: seq<Run>)
    requires r1.kind != FreeRun && r2.kind == FreeRun
    ensures Heads(0, a + [r1, r2] + b)
         == Heads(0, a) + {(Total(a) + r1.len) as int} + Heads(Total(a) + r1.len + r2.len, b)
    ensures FreeTotal(a + [r1, r2] + b) == FreeTotal(a) + r2.len + FreeTotal(b)
  {
    assert a + [r1, r2] + b == (a + [r1]) + [r2] + b;
    HeadsMiddle(0, a + [r1], r2, b);
    TotalAppend(a, [r1]);
    HeadsAppend(0, a, [r1]);
  }

  lemma ListedPart(d: Table, n: nat, slots: nat, runs: seq<Run>, list: seq<Ptr>,
                   k: nat, a: seq<Run>, r: Run, b: seq<Run>, pages: nat)
    requires Laid(d, n, slots, runs, list) && Entry(list, k, runs, a, r, b) && 0 < pages < r.len
    ensures Listed(HandedOut(a, r, b, pages), With(Without(list, k), k, Page(Total(a) + pages)))
    ensures Page(Total(a) + pages) !in Without(list, k)
  {
    hide Chart, Describes, WellFormed, IsRing, Heads, Total;
    EntryHeads(d, n, slots, runs, list, k, a, r, b);
    var r1, r2 := Run(pages, BusyRun), Run(r.len - pages, FreeRun);
    HeadsTwo(a, r1, r2, b);
    ListDistinct(d, n, slots, runs, list);
    WithoutDistinct(list, k);
    WithDistinct(Without(list, k), k, Page(Total(a) + pages));
  }

  lemma HandOutPart(d: Table, d2: Table, n: nat, slots: nat, runs: seq<Run>, list: seq<Ptr>,
                    k: nat, a: seq<Run>, r: Run, b: seq<Run>, pages: nat)
    requires Laid(d, n, slots, runs, list) && Entry(list, k, runs, a, r, b) && 0 < pages < r.len
    requires Divisible(d, Total(a), pages)
    requires Filled(Divide(d, Total(a), pages), d2, Total(a) + 1, Total(a) + pages)
    ensures Laid(d2, n, slots, HandedOut(a, r, b, pages), With(Without(list, k), k, Page(Total(a) + pages)))
    ensures ChangesWithin(d, d2, n, Total(a), Total(a) + r.len, Heads(0, runs))
  {
    hide Chart, Heads, Divide, IsRing, Listed, Filled, ChangesWithin, Linkable, Keeps, Started, Opened, WellFormed,
         Describes, Total, Removable, Divisible, Head, Distinct, FreeTotal;
    var s, p, q, h := Total(a), Nth(Free, list, k), Nth(Free, list, k + 2), Heads(0, runs);
    var d1, r2 := Divide(d, s, pages), Run(r.len - pages, FreeRun);
    EntryLinkable(d, n, slots, runs, list, k, a, r, b);
    DividedKeeps(d, n, s, r.len, h, p, q, pages);
    DividedRest(d, n, s, r.len, h, p, q, pages);
    FilledKeeps(d, d1, d2, n, s, r.len, pages, h);
    FilledRest(d1, d2, n, s + pages, r2, s + 1);
    Divided(d, d2, n, slots, a, r, Run(pages, BusyRun), r2, b);
    DividedRing(d, n, s, r.len, h, p, q, pages, list, k);
    ListedPart(d, n, slots, runs, list, k, a, r, b, pages);
    ListOutside(d, n, slots, runs, list, k, a, r, b);
    ListDistinct(d, n, slots, runs, list);
    WithoutDistinct(list, k);
    WithDistinct(Without(list, k), k, Page(s + pages));
    FilledRing(d1, d2, s + 1, s + pages, With(Without(list, k), k, Page(s + pages)));
  }

  lemma ListOutside(d: Table, n: nat, slots: nat, runs: seq<Run>, list: seq<Ptr>,
                    k: nat, a: seq<Run>, r: Run, b: seq<Run>)
    requires Laid(d, n, slots, runs, list) && Entry(list, k, runs, a, r, b)
    ensures forall x :: x in list ==> x.Page? && !(Total(a) + 1 <= x.p < Total(a) + r.len)
  {
    EntryHeads(d, n, slots, runs, list, k, a, r, b);
  }

  // -------- merging with a neighbour --------

  // Two adjacent runs become one: `out`, one of their heads, leaves the free list, and
  // the header of the upper run is cleared.
  ghost predicate Mergeable(d: Table, lo: int, hi: int, out: int) {
    && Head(d, lo) && Head(d, hi) && lo < hi && (out == lo || out == hi)
    && d.prev[Page(out)] in d.next && d.next[Page(out)] in d.prev && d.next[Page(out)] in d.tag
    && d.prev[Page(out)] !in {Page(lo), Page(hi)} && d.next[Page(out)] !in {Page(lo), Page(hi)}
  }

  function ClearHeader(d: Table, x: Ptr): Table
    requires x in d.slab && x in d.next && x in d.prev && x in d.tag
  {
    SetPrev(SetNext(SetSlab(d, x, PAGE_FREE), x, Null), x, Null, SLAB_PAGE)
  }

  ghost function Merge(d: Table, lo: int, hi: int, out: int): Table
    requires Mergeable(d, lo, hi, out)
  {
    ClearHeader(CutOut(SetSlab(d, Page(lo), d.slab[Page(lo)] + d.slab[Page(hi)]), Page(out)), Page(hi))
  }

  lemma MergedAt(d: Table, lo: int, hi: int, out: int, q: Ptr)
    requires Mergeable(d, lo, hi, out) && q in d.slab && q in d.next && q in d.prev && q in d.tag
    ensures
      var d', x, y, z := Merge(d, lo, hi, out), Page(lo), Page(hi), Page(out);
      var a, b := d.prev[z], d.next[z];
      && q in d'.slab && q in d'.next && q in d'.prev && q in d'.tag
      && d'.slab[q] == (if q == y then 0 else if q == x then d.slab[x] + d.slab[y] else d.slab[q])
      && d'.next[q] == (if q == y then Null else if q == a then b else d.next[q])
      && d'.prev[q] == (if q == y then Null else if q == b then a else d.prev[q])
      && d'.tag[q] == (if q == y then 0 else if q == b then d.tag[z] else d.tag[q])
    ensures SameKeys(d, Merge(d, lo, hi, out))
  {
  }

  lemma {:induction false} ChartAround(d: Table, d': Table, n: nat, a: seq<Run>, m: seq<Run>, b: seq<Run>)
    requires Chart(d, n, 0, a + m + b, n)
    requires ChangesWithin(d, d', n, Total(a), Total(a) + Total(m), Heads(0, a + m + b))
    ensures Chart(d', n, 0, a, Total(a)) && Chart(d', n, Total(a) + Total(m), b, n)
  {
    hide Describes;
    var s, e, h := Total(a), Total(a) + Total(m), Heads(0, a + m + b);
    ChartAppend(d, n, 0, a + m, b, n);
    ChartAppend(d, n, 0, a, m, Total(a + m));
    TotalAppend(a, m);
    HeadsAppend(0, a + m, b);
    HeadsAppend(0, a, m);
    HeadsRange(d, n, 0, a, s);
    HeadsRange(d, n, s, m, e);
    HeadsRange(d, n, e, b, n);
    ChartFrame(d, d', n, 0, a, s, h);
    ChartFrame(d, d', n, e, b, n, h);
  }

  lemma TotalTwo(r1: Run, r2: Run)
    ensures Total([r1, r2]) == r1.len + r2.len
  {
    assert [r1, r2][1..] == [r2] && [r2][1..] == [];
    assert Total([r2]) == r2.len;
  }

  // Two runs replaced by one.
  lemma Joined(d: Table, d': Table, n: nat, slots: nat, a: seq<Run>, r1: Run, r2: Run, r: Run, b: seq<Run>)
    requires WellFormed(d, n, slots) && Chart(d, n, 0, a + [r1, r2] + b, n)
    requires ChangesWithin(d, d', n, Total(a), Total(a) + r1.len + r2.len, Heads(0, a + [r1, r2] + b))
    requires r.len == r1.len + r2.len && 0 < r.len && Describes(d', n, Total(a), r)
    ensures WellFormed(d', n, slots) && Chart(d', n, 0, a + [r] + b, n)
  {
    hide Chart, Describes, Heads, Keeps, WellFormed;
    TotalTwo(r1, r2);
    ChartAround(d, d', n, a, [r1, r2], b);
    ChartMiddle(d', n, 0, a, r, b, n);
    WellFormedKept(d, d', n, slots);
  }

  // The upper or the lower one of two adjacent runs is in the free list, the other is
  // the limbo run; they become one limbo run.
  ghost predicate Adjoining(list: seq<Ptr>, k: nat, runs: seq<Run>, a: seq<Run>, r1: Run, r2: Run, b: seq<Run>) {
    && k < |list| && runs == a + [r1, r2] + b
    && ((r1.kind == LimboRun && r2.kind == FreeRun && list[k] == Page(Total(a) + r1.len))
        || (r1.kind == FreeRun && r2.kind == LimboRun && list[k] == Page(Total(a))))
  }

  ghost function FreeOf(a: seq<Run>, r1: Run, r2: Run): int {
    if r1.kind == FreeRun then Total(a) else Total(a) + r1.len
  }

  lemma MergeKeeps(d: Table, n: nat, s: int, len1: nat, len2: nat, out: int, h: set<int>, a: Ptr, b: Ptr)
    requires d.slab.Keys == d.next.Keys == d.prev.Keys == d.tag.Keys
    requires Mergeable(d, s, s + len1, out) && 0 <= s && 0 < len1 && 0 < len2 && s + len1 + len2 <= n
    requires d.prev[Page(out)] == a && d.next[Page(out)] == b && d.tag[Page(out)] == SLAB_PAGE
    requires a == Free || (a.Page? && a.p in h) requires b == Free || (b.Page? && b.p in h && d.tag[b] == SLAB_PAGE)
    ensures ChangesWithin(d, Merge(d, s, s + len1, out), n, s, s + len1 + len2, h)
  {
    hide Merge;
    var d' := Merge(d, s, s + len1, out);
    MergedAt(d, s, s + len1, out, Page(s));
    forall p | !(s <= p < s + len1 + len2)
      ensures Kept(d, d', p, h)
    {
      if Head(d, p) {
        MergedAt(d, s, s + len1, out, Page(p));
      }
    }
    forall q | q in d.slab && q.Slot?
      ensures SameWords(d, d', q)
    {
      MergedAt(d, s, s + len1, out, q);
    }
  }

  lemma MergeDescribes(d: Table, n: nat, s: int, r1: Run, r2: Run, out: int, a: Ptr, b: Ptr)
    requires 0 < r1.len && 0 < r2.len && Mergeable(d, s, s + r1.len, out)
    requires Describes(d, n, s, r1) && Describes(d, n, s + r1.len, r2)
    requires {r1.kind, r2.kind} == {FreeRun, LimboRun}
    requires d.prev[Page(out)] == a && d.next[Page(out)] == b
    requires forall x :: x in {a, b} && x.Page? ==> !(s <= x.p < s + r1.len + r2.len)
    ensures Describes(Merge(d, s, s + r1.len, out), n, s, Run(r1.len + r2.len, LimboRun))
  {
    hide Merge;
    var d', hi := Merge(d, s, s + r1.len, out), s + r1.len;
    assert r1.kind in {FreeRun, LimboRun} && r2.kind in {FreeRun, LimboRun};
    MergedAt(d, s, hi, out, Page(s));
    MergedAt(d, s, hi, out, Page(hi));
    forall p | s < p < s + r1.len + r2.len
      ensures Idle(d', p)
    {
      assert p != hi ==> Idle(d, p);
      MergedAt(d, s, hi, out, Page(p));
    }
  }

  lemma MergeRing(d: Table, lo: int, hi: int, out: int, list: seq<Ptr>, k: nat)
    requires Mergeable(d, lo, hi, out) && IsRing(d.next, d.prev, Free, list) && k < |list| && list[k] == Page(out)
    requires forall x :: x in Without(list, k) ==> x !in {Page(lo), Page(hi)}
    requires d.slab.Keys == d.next.Keys == d.prev.Keys == d.tag.Keys
    ensures IsRing(Merge(d, lo, hi, out).next, Merge(d, lo, hi, out).prev, Free, Without(list, k))
  {
    hide Merge;
    var d', t, a, b := Merge(d, lo, hi, out), Without(list, k), d.prev[Page(out)], d.next[Page(out)];
    RemoveAt(d.next, d.prev, Free, list, k);
    var next1, prev1 := d.next[a := b], d.prev[b := a];
    WithoutDistinct(list, k);
    forall q | q in Members(Free, t)
      ensures q in d'.next && q in d'.prev && d'.next[q] == next1[q] && d'.prev[q] == prev1[q]
    {
      assert q in d.next && q in d.prev && q !in {Page(lo), Page(hi)};
      MergedAt(d, lo, hi, out, q);
    }
    RingFrame(next1, prev1, d'.next, d'.prev, Free, t);
  }

  lemma PairChart(d: Table, n: nat, a: seq<Run>, r1: Run, r2: Run, b: seq<Run>)
    requires Chart(d, n, 0, a + [r1, r2] + b, n)
    ensures
      var s := Total(a);
      && 0 < r1.len && 0 < r2.len && s + r1.len + r2.len <= n
      && Describes(d, n, s, r1) && Describes(d, n, s + r1.len, r2)
      && Chart(d, n, 0, a, s) && Chart(d, n, s + r1.len + r2.len, b, n)
  {
    hide Describes, Chart, Heads;
    assert a + [r1, r2] + b == a + [r1] + ([r2] + b);
    ChartMiddle(d, n, 0, a, r1, [r2] + b, n);
    ChartMiddle(d, n, Total(a) + r1.len, [], r2, b, n);
    assert [] + [r2] + b == [r2] + b;
    EmptyChart(d, n, 0);
    HeadsRange(d, n, Total(a) + r1.len + r2.len, b, n);
  }

  lemma PairHeads(a: seq<Run>, r1: Run, r2: Run, b: seq<Run>)
    ensures Heads(0, a + [r1, r2] + b)
         == Heads(0, a) + (if r1.kind == FreeRun then {Total(a) as int} else {})
            + (if r2.kind == FreeRun then {(Total(a) + r1.len) as int} else {})
            + Heads(Total(a) + r1.len + r2.len, b)
    ensures FreeTotal(a + [r1, r2] + b)
         == FreeTotal(a) + (if r1.kind == FreeRun then r1.len else 0) + (if r2.kind == FreeRun then r2.len else 0)
            + FreeTotal(b)
  {
    assert a + [r1, r2] + b == a + [r1] + ([r2] + b);
    HeadsMiddle(0, a, r1, [r2] + b);
    HeadsMiddle(Total(a) + r1.len, [], r2, b);
    assert [] + [r2] + b == [r2] + b;
  }

  lemma TwoHeads(d: Table, n: nat, slots: nat, runs: seq<Run>, list: seq<Ptr>,
                 k: nat, a: seq<Run>, r1: Run, r2: Run, b: seq<Run>)
    requires Laid(d, n, slots, runs, list) && Adjoining(list, k, runs, a, r1, r2, b)
    ensures
      var s, m, e, h := Total(a), Total(a) + r1.len, Total(a) + r1.len + r2.len, Heads(0, runs);
      && 0 < r1.len && 0 < r2.len && e <= n
      && Describes(d, n, s, r1) && Describes(d, n, m, r2)
      && h == Heads(0, a) + {FreeOf(a, r1, r2)} + Heads(e, b)
      && (forall p :: p in Heads(0, a) ==> 0 <= p < s) && (forall p :: p in Heads(e, b) ==> e <= p)
      && FreeTotal(runs) == FreeTotal(a) + (if r1.kind == FreeRun then r1.len else r2.len) + FreeTotal(b)
  {
    hide Describes, WellFormed, IsRing, Listed, Chart, Heads, Total, FreeTotal;
    PairChart(d, n, a, r1, r2, b);
    PairHeads(a, r1, r2, b);
    HeadsRange(d, n, 0, a, Total(a));
    HeadsRange(d, n, Total(a) + r1.len + r2.len, b, n);
  }

  lemma PairPages(d: Table, n: nat, s: int, r1: Run, r2: Run)
    requires Describes(d, n, s, r1) && Describes(d, n, s + r1.len, r2)
    ensures Head(d, s) && Head(d, s + r1.len)
    ensures r1.kind == FreeRun ==> d.tag[Page(s)] == SLAB_PAGE && d.next[Page(s)] != Null
    ensures r2.kind == FreeRun ==> d.tag[Page(s + r1.len)] == SLAB_PAGE && d.next[Page(s + r1.len)] != Null
  {
  }

  // The links of the listed one of the two runs.
  lemma AdjoiningLinks(d: Table, n: nat, slots: nat, runs: seq<Run>, list: seq<Ptr>,
                       k: nat, a: seq<Run>, r1: Run, r2: Run, b: seq<Run>)
    requires Laid(d, n, slots, runs, list) && Adjoining(list, k, runs, a, r1, r2, b)
    ensures
      var s, out, h := Total(a), FreeOf(a, r1, r2), Heads(0, runs);
      && Mergeable(d, s, s + r1.len, out)
      && (forall q :: q in {d.prev[Page(out)], d.next[Page(out)]} ==>
            && (q == Free || (q in list && q.Page? && q.p in h && d.tag[q] == SLAB_PAGE))
            && (q.Page? ==> !(s <= q.p < s + r1.len + r2.len)))
      && d.tag[Page(out)] == SLAB_PAGE && d.next[Page(out)] != Null
      && d.slab.Keys == d.next.Keys == d.prev.Keys == d.tag.Keys
      && (forall x :: x in Without(list, k) ==> x != Page(out) && x.Page? && x.p in h)
  {
    hide Chart, Heads, Total, Describes, FreeTotal, Listed;
    var out := FreeOf(a, r1, r2);
    TwoHeads(d, n, slots, runs, list, k, a, r1, r2, b);
    PairPages(d, n, Total(a), r1, r2);
    LinkAt(d.next, d.prev, Free, list, k);
    LinkAt(d.next, d.prev, Free, list, k + 1);
    assert Nth(Free, list, k + 1) == list[k];
    WithoutDistinct(list, k);
    forall x | x in list
      ensures x.Page? && x.p in Heads(0, runs)
    {
      ListMember(d, n, slots, runs, list, x);
    }
    forall q | q in {d.prev[Page(out)], d.next[Page(out)]}
      ensures q == Free || (q in list && q != list[k] && q.Page? && q.p in Heads(0, runs) && d.tag[q] == SLAB_PAGE)
      ensures q in d.slab
    {
      if q != Free {
        var i := if q == d.prev[Page(out)] then k - 1 else k + 1;
        assert q == list[i];
        ListMember(d, n, slots, runs, list, q);
      }
    }
  }

  ghost function MergedRuns(a: seq<Run>, r1: Run, r2: Run, b: seq<Run>): seq<Run> {
    a + [Run(r1.len + r2.len, LimboRun)] + b
  }

  lemma MergeLaid(d: Table, d': Table, n: nat, slots: nat, runs: seq<Run>, list: seq<Ptr>, list': seq<Ptr>,
                  k: nat, a: seq<Run>, r1: Run, r2: Run, b: seq<Run>)
    requires Adjoining(list, k, runs, a, r1, r2, b) && list' == Without(list, k)
    requires Mergeable(d, Total(a), Total(a) + r1.len, FreeOf(a, r1, r2))
    requires d' == Merge(d, Total(a), Total(a) + r1.len, FreeOf(a, r1, r2))
    requires Laid(d, n, slots, runs, list)
    ensures Laid(d', n, slots, MergedRuns(a, r1, r2, b), list')
    ensures ChangesWithin(d, d', n, Total(a), Total(a) + r1.len + r2.len, Heads(0, runs))
  {
    hide Chart, Heads, Total, Describes, WellFormed, Listed, Merge, Mergeable, Keeps, IsRing, ChangesWithin, Without;
    TwoHeads(d, n, slots, runs, list, k, a, r1, r2, b);
    MergeAll(d, d', n, slots, runs, list, list', k, a, r1, r2, b);
    Joined(d, d', n, slots, a, r1, r2, Run(r1.len + r2.len, LimboRun), b);
    ListedMerged(d, n, slots, runs, list, k, a, r1, r2, b);
  }

  lemma MergeAll(d: Table, d': Table, n: nat, slots: nat, runs: seq<Run>, list: seq<Ptr>, list': seq<Ptr>,
                 k: nat, a: seq<Run>, r1: Run, r2: Run, b: seq<Run>)
    requires Adjoining(list, k, runs, a, r1, r2, b) && list' == Without(list, k)
    requires Mergeable(d, Total(a), Total(a) + r1.len, FreeOf(a, r1, r2))
    requires d' == Merge(d, Total(a), Total(a) + r1.len, FreeOf(a, r1, r2))
    requires Laid(d, n, slots, runs, list)
    ensures ChangesWithin(d, d', n, Total(a), Total(a) + r1.len + r2.len, Heads(0, runs))
    ensures Describes(d', n, Total(a), Run(r1.len + r2.len, LimboRun))
    ensures IsRing(d'.next, d'.prev, Free, list')
  {
    hide Chart, Heads, Total, Describes, WellFormed, Listed, Merge, Keeps, ChangesWithin;
    var s, m, out := Total(a), Total(a) + r1.len, FreeOf(a, r1, r2);
    TwoHeads(d, n, slots, runs, list, k, a, r1, r2, b);
    AdjoiningLinks(d, n, slots, runs, list, k, a, r1, r2, b);
    MergeKeeps(d, n, s, r1.len, r2.len, out, Heads(0, runs), d.prev[Page(out)], d.next[Page(out)]);
    MergeDescribes(d, n, s, r1, r2, out, d.prev[Page(out)], d.next[Page(out)]);
    MergeRing(d, s, m, out, list, k);
  }

  lemma ListedMerged(d: Table, n: nat, slots: nat, runs: seq<Run>, list: seq<Ptr>,
                     k: nat, a: seq<Run>, r1: Run, r2: Run, b: seq<Run>)
    requires Laid(d, n, slots, runs, list) && Adjoining(list, k, runs, a, r1, r2, b)
    ensures Listed(MergedRuns(a, r1, r2, b), Without(list, k))
    ensures FreeTotal(MergedRuns(a, r1, r2, b)) + (if r1.kind == FreeRun then r1.len else r2.len) == FreeTotal(runs)
  {
    hide Chart, Heads, Total, Describes, WellFormed, FreeTotal;
    TwoHeads(d, n, slots, runs, list, k, a, r1, r2, b);
    HeadsMiddle(0, a, Run(r1.len + r2.len, LimboRun), b);
    ListDistinct(d, n, slots, runs, list);
    WithoutDistinct(list, k);
  }

  // A page of a slot list, or a slot list head.
  predicate InSlots(d: Table, q: Ptr) {
    q.Slot? || (q.Page? && q in d.tag && d.tag[q] != SLAB_PAGE)
  }

  // Slot lists and their pages, except `page`, keep their words.
  ghost predicate SlotsKept(d: Table, d': Table, page: Ptr) {
    forall q {:trigger SameWords(d, d', q)} :: q in d.slab && InSlots(d, q) && q != page ==> SameWords(d, d', q)
  }

  lemma SlotsKeptTwice(d: Table, d1: Table, d2: Table, page: Ptr)
    requires SlotsKept(d, d1, page) && SlotsKept(d1, d2, page)
    requires d.slab.Keys == d.next.Keys == d.prev.Keys == d.tag.Keys && d1.slab.Keys == d.slab.Keys
    ensures SlotsKept(d, d2, page)
  {
    forall q | q in d.slab && InSlots(d, q) && q != page
      ensures SameWords(d, d2, q)
    {
      assert SameWords(d, d1, q);
      assert q in d1.slab.Keys && InSlots(d1, q);
      assert SameWords(d1, d2, q);
    }
  }

  lemma MergeSlots(d: Table, d': Table, n: nat, slots: nat, runs: seq<Run>, list: seq<Ptr>,
                   k: nat, a: seq<Run>, r1: Run, r2: Run, b: seq<Run>)
    requires Adjoining(list, k, runs, a, r1, r2, b)
    requires Mergeable(d, Total(a), Total(a) + r1.len, FreeOf(a, r1, r2))
    requires d' == Merge(d, Total(a), Total(a) + r1.len, FreeOf(a, r1, r2))
    requires Laid(d, n, slots, runs, list)
    ensures SlotsKept(d, d', Page(if r1.kind == LimboRun then Total(a) else Total(a) + r1.len))
  {
    hide Chart, Heads, Total, Describes, WellFormed, Listed, Merge, IsRing;
    var lo, hi, out := Total(a), Total(a) + r1.len, FreeOf(a, r1, r2);
    AdjoiningLinks(d, n, slots, runs, list, k, a, r1, r2, b);
    forall q | q in d.slab && InSlots(d, q) && q != Page(if r1.kind == LimboRun then lo else hi)
      ensures SameWords(d, d', q)
    {
      MergedAt(d, lo, hi, out, q);
    }
  }

  // -------- putting a run on the free list --------

  ghost predicate Listable(d: Table, s: int, len: nat) {
    && Head(d, s) && 0 < len && Head(d, s + len - 1)
    && Free in d.next && Free in d.prev && Free in d.tag
    && d.next[Free] in d.prev && d.next[Free] in d.tag && d.next[Free] != Page(s)
  }

  ghost function Enlist(d: Table, s: int, len: nat): Table
    requires Listable(d, s, len)
  {
    var x := Page(s);
    var d1 := if len == 1 then d else SetPrev(d, Page(s + len - 1), x, 0);
    SetNext(SetPrev(SetNext(SetPrev(d1, x, Free, 0), x, d.next[Free]), d.next[Free], x, 0), Free, x)
  }

  lemma EnlistedAt(d: Table, s: int, len: nat, q: Ptr)
    requires Listable(d, s, len) && q in d.slab && q in d.next && q in d.prev && q in d.tag
    ensures
      var d', x, z, b := Enlist(d, s, len), Page(s), Page(s + len - 1), d.next[Free];
      && q in d'.slab && q in d'.next && q in d'.prev && q in d'.tag
      && d'.slab[q] == d.slab[q]
      && d'.next[q] == (if q == Free then x else if q == x then b else d.next[q])
      && d'.prev[q] == (if q == b then x else if q == x then Free else if q == z then x else d.prev[q])
      && d'.tag[q] == (if q == b || q == x || q == z then 0 else d.tag[q])
    ensures SameKeys(d, Enlist(d, s, len))
  {
  }

  // The limbo run is about to be listed.
  ghost predicate Pending(runs: seq<Run>, a: seq<Run>, len: nat, b: seq<Run>) {
    runs == a + [Run(len, LimboRun)] + b
  }

  lemma PendingFacts(d: Table, n: nat, slots: nat, runs: seq<Run>, list: seq<Ptr>, a: seq<Run>, len: nat, b: seq<Run>)
    requires Pending(runs, a, len, b) && Laid(d, n, slots, runs, list)
    ensures
      var s, e, h := Total(a), Total(a) + len, Heads(0, runs);
      && 0 < len && e <= n && Describes(d, n, s, Run(len, LimboRun))
      && (forall p :: p in h ==> p < s || e <= p) && h == Heads(0, a) + Heads(e, b)
      && FreeTotal(runs) == FreeTotal(a) + FreeTotal(b)
      && (forall p :: s <= p < e ==> Head(d, p))
      && d.slab.Keys == d.next.Keys == d.prev.Keys == d.tag.Keys
  {
    hide IsRing, Listed, Heads, FreeTotal, Total;
    ChartMiddle(d, n, 0, a, Run(len, LimboRun), b, n);
    HeadsMiddle(0, a, Run(len, LimboRun), b);
    HeadsRange(d, n, 0, a, Total(a));
    HeadsRange(d, n, Total(a) + len, b, n);
    forall p | Total(a) <= p < Total(a) + len
      ensures Head(d, p)
    {
      assert p > Total(a) ==> Idle(d, p);
    }
  }

  lemma FirstListed(d: Table, n: nat, slots: nat, runs: seq<Run>, list: seq<Ptr>)
    requires Laid(d, n, slots, runs, list)
    ensures Free in d.next && Free in d.prev && Free in d.tag && Free in d.slab
    ensures
      var b := d.next[Free];
      && b == Nth(Free, list, 1) && b in d.slab && b in d.prev && b in d.tag
      && (b == Free || (b in list && b.Page? && b.p in Heads(0, runs) && d.tag[b] == SLAB_PAGE))
  {
    hide Chart, Heads;
    LinkAt(d.next, d.prev, Free, list, 0);
    if d.next[Free] != Free {
      assert d.next[Free] == list[0];
      ListMember(d, n, slots, runs, list, list[0]);
    }
  }

  lemma EnlistLaid(d: Table, d': Table, n: nat, slots: nat, runs: seq<Run>, list: seq<Ptr>,
                   a: seq<Run>, len: nat, b: seq<Run>)
    requires Pending(runs, a, len, b) && Listable(d, Total(a), len)
    requires d' == Enlist(d, Total(a), len)
    requires Laid(d, n, slots, runs, list)
    ensures Laid(d', n, slots, a + [Run(len, FreeRun)] + b, [Page(Total(a))] + list)
    ensures FreeTotal(a + [Run(len, FreeRun)] + b) == FreeTotal(runs) + len
  {
    hide Chart, Heads, Total, FreeTotal, Describes, WellFormed, Listed, Enlist, Keeps, IsRing, ChangesWithin, Listable;
    PendingFacts(d, n, slots, runs, list, a, len, b);
    EnlistKeeps(d, d', n, slots, runs, list, a, len, b);
    Replaced(d, d', n, slots, a, Run(len, LimboRun), Run(len, FreeRun), b, list);
    EnlistRing(d, d', n, slots, runs, list, a, len, b);
    EnlistListed(d, n, slots, runs, list, a, len, b);
  }

  lemma EnlistKeeps(d: Table, d': Table, n: nat, slots: nat, runs: seq<Run>, list: seq<Ptr>,
                    a: seq<Run>, len: nat, b: seq<Run>)
    requires Pending(runs, a, len, b) && Listable(d, Total(a), len)
    requires d' == Enlist(d, Total(a), len)
    requires Laid(d, n, slots, runs, list)
    ensures ChangesWithin(d, d', n, Total(a), Total(a) + len, Heads(0, runs))
    ensures Describes(d', n, Total(a), Run(len, FreeRun))
    ensures SlotsKept(d, d', Page(Total(a)))
  {
    hide Chart, Heads, Total, FreeTotal, WellFormed, Listed, Enlist, IsRing;
    var s := Total(a);
    PendingFacts(d, n, slots, runs, list, a, len, b);
    FirstListed(d, n, slots, runs, list);
    EnlistedAt(d, s, len, Page(s));
    EnlistedAt(d, s, len, Page(s + len - 1));
    forall p | !(s <= p < s + len)
      ensures Kept(d, d', p, Heads(0, runs))
    {
      if Head(d, p) {
        EnlistedAt(d, s, len, Page(p));
      }
    }
    forall p | s < p < s + len
      ensures Idle(d', p)
    {
      assert Idle(d, p);
      EnlistedAt(d, s, len, Page(p));
    }
    forall q | q in d.slab && InSlots(d, q) && q != Page(s)
      ensures SameWords(d, d', q)
    {
      EnlistedAt(d, s, len, q);
      assert q == Page(s + len - 1) ==> Idle(d, s + len - 1);
    }
  }

  lemma EnlistRing(d: Table, d': Table, n: nat, slots: nat, runs: seq<Run>, list: seq<Ptr>,
                   a: seq<Run>, len: nat, b: seq<Run>)
    requires Pending(runs, a, len, b) && Listable(d, Total(a), len)
    requires d' == Enlist(d, Total(a), len)
    requires Laid(d, n, slots, runs, list)
    ensures IsRing(d'.next, d'.prev, Free, [Page(Total(a))] + list)
  {
    hide Chart, Heads, Total, FreeTotal, Enlist, Describes, WellFormed, Listed;
    var s, x := Total(a), Page(Total(a));
    PendingUnlisted(d, n, slots, runs, list, a, len, b);
    FirstListed(d, n, slots, runs, list);
    EnlistedAt(d, s, len, x);
    EnlistedAt(d, s, len, Free);
    EnlistedAt(d, s, len, d.next[Free]);
    forall q | q in Members(Free, list)
      ensures q in d'.next && q in d'.prev && (q != Free ==> d'.next[q] == d.next[q])
      ensures q != d.next[Free] ==> d'.prev[q] == d.prev[q]
    {
      EnlistedAt(d, s, len, q);
    }
    InsertAt(d.next, d.prev, Free, list, 0, x, d'.next, d'.prev);
    assert With(list, 0, x) == [x] + list;
  }

  lemma PendingUnlisted(d: Table, n: nat, slots: nat, runs: seq<Run>, list: seq<Ptr>, a: seq<Run>, len: nat,
                        b: seq<Run>)
    requires Pending(runs, a, len, b) && Laid(d, n, slots, runs, list)
    ensures 0 < len && Page(Total(a)) !in list && Page(Total(a) + len - 1) !in list
    ensures Head(d, Total(a)) && Head(d, Total(a) + len - 1)
    ensures d.slab.Keys == d.next.Keys == d.prev.Keys == d.tag.Keys
  {
    hide Chart, Heads, FreeTotal, Describes, IsRing;
    PendingFacts(d, n, slots, runs, list, a, len, b);
  }

  lemma EnlistListed(d: Table, n: nat, slots: nat, runs: seq<Run>, list: seq<Ptr>, a: seq<Run>, len: nat, b: seq<Run>)
    requires Pending(runs, a, len, b) && Laid(d, n, slots, runs, list)
    ensures Listed(a + [Run(len, FreeRun)] + b, [Page(Total(a))] + list)
    ensures FreeTotal(a + [Run(len, FreeRun)] + b) == FreeTotal(runs) + len
  {
    hide Chart, Heads, Total, Describes, WellFormed, FreeTotal, IsRing;
    PendingFacts(d, n, slots, runs, list, a, len, b);
    HeadsMiddle(0, a, Run(len, FreeRun), b);
    var x := Page(Total(a));
    assert ([x] + list)[0] == x;
    assert forall y :: y in list ==> y in [x] + list;
  }

  // Handing out part of a free run leaves the slot lists alone.
  lemma ChangesKeepSlots(d: Table, d': Table, n: nat, slots: nat, runs: seq<Run>, list: seq<Ptr>,
                         k: nat, a: seq<Run>, r: Run, b: seq<Run>)
    requires Entry(list, k, runs, a, r, b) && Laid(d, n, slots, runs, list)
    requires ChangesWithin(d, d', n, Total(a), Total(a) + r.len, Heads(0, runs))
    ensures SlotsKept(d, d', Null)
  {
    hide Chart, Heads, Total, IsRing, FreeTotal;
    EntryHeads(d, n, slots, runs, list, k, a, r, b);
    forall q | q in d.slab && InSlots(d, q) && q != Null
      ensures SameWords(d, d', q)
    {
      if q.Page? {
        if Page(q.p) in list {
          ListMember(d, n, slots, runs, list, q);
        }
        assert Total(a) < q.p < Total(a) + r.len ==> Idle(d, q.p);
        assert Kept(d, d', q.p, Heads(0, runs));
      }
    }
  }

  // The first-fit search found nothing.
  lemma NoFit(d: Table, n: nat, slots: nat, runs: seq<Run>, list: seq<Ptr>, pages: nat, r: Run)
    requires Laid(d, n, slots, runs, list) && r in runs && r.kind == FreeRun
    requires forall i :: 0 <= i < |list| ==> list[i] in d.slab && d.slab[list[i]] < pages
    ensures r.len < pages
  {
    hide Chart, Heads, Total, IsRing, WellFormed, FreeTotal;
    var i :| 0 <= i < |runs| && runs[i] == r;
    var a, b := runs[..i], runs[i + 1..];
    assert runs == a + [r] + b;
    ChartMiddle(d, n, 0, a, r, b, n);
    HeadsMiddle(0, a, r, b);
    assert Page(Total(a)) in list;
  }

  // The run whose head is at position k of the free list.
  lemma FindEntry(d: Table, n: nat, slots: nat, runs: seq<Run>, list: seq<Ptr>, k: nat)
      returns (a: seq<Run>, r: Run, b: seq<Run>)
    requires Laid(d, n, slots, runs, list) && k < |list|
    ensures Entry(list, k, runs, a, r, b)
  {
    hide Chart, Total, IsRing, WellFormed, FreeTotal;
    assert list[k] in list;
    a, r, b := FindHead(0, runs, list[k].p);
  }

  // One step along the free list.
  lemma ListStep(d: Table, n: nat, slots: nat, runs: seq<Run>, list: seq<Ptr>, i: nat)
    requires Laid(d, n, slots, runs, list) && i <= |list|
    ensures i == |list| <==> Nth(Free, list, i + 1) == Free
    ensures i < |list| ==> Nth(Free, list, i + 1) == list[i] && list[i] in d.slab && list[i] in d.next
                           && d.next[list[i]] == Nth(Free, list, i + 2)
    ensures Free in d.next && d.next[Free] == Nth(Free, list, 1)
  {
    hide Chart, Heads, Total, FreeTotal;
    LinkAt(d.next, d.prev, Free, list, 0);
    if i < |list| {
      LinkAt(d.next, d.prev, Free, list, i + 1);
      assert list[i] in list;
      ListMember(d, n, slots, runs, list, list[i]);
    }
  }

  lemma HandedOutTotal(a: seq<Run>, r: Run, b: seq<Run>, pages: nat)
    requires 0 < pages <= r.len && r.kind == FreeRun
    ensures FreeTotal(HandedOut(a, r, b, pages)) == FreeTotal(a + [r] + b) - pages
  {
    HeadsMiddle(0, a, r, b);
    if pages == r.len {
      HeadsMiddle(0, a, Run(pages, BusyRun), b);
    } else {
      HeadsTwo(a, Run(pages, BusyRun), Run(r.len - pages, FreeRun), b);
    }
  }

  lemma HandedOutCoalesced(a: seq<Run>, r: Run, b: seq<Run>, pages: nat)
    requires 0 < pages <= r.len && r.kind == FreeRun && Coalesced(a + [r] + b)
    ensures Coalesced(HandedOut(a, r, b, pages))
  {
    var f, f' := a + [r] + b, HandedOut(a, r, b, pages);
    var shift := if pages == r.len then 0 else 1;
    forall i | 0 <= i < |f'| - 1
      ensures !(f'[i].kind == FreeRun && f'[i + 1].kind == FreeRun)
    {
      if i + 1 < |a| {
        assert f'[i] == f[i] && f'[i + 1] == f[i + 1];
      } else if i > |a| + shift {
        assert f'[i] == f[i - shift] && f'[i + 1] == f[i + 1 - shift];
      } else if i == |a| + shift {
        assert f'[i + 1] == f[|a| + 1] && f[|a|].kind == FreeRun;
      } else {
        assert f'[|a|].kind == BusyRun;
      }
    }
  }

  lemma DividedHeads(d: Table, n: nat, s: int, len: nat, h: set<int>, a: Ptr, b: Ptr, pages: nat)
    requires Linkable(d, n, s, len, h, a, b) && d.slab[Page(s)] == len && 0 < pages < len
    requires Divisible(d, s, pages)
    ensures forall p {:trigger Head(Divide(d, s, pages), p)} :: s <= p < s + pages ==> Head(Divide(d, s, pages), p)
  {
    hide Divide;
    forall p | s <= p < s + pages
      ensures Head(Divide(d, s, pages), p)
    {
      assert Head(d, p);
      DividedAt(d, s, pages, Page(p));
    }
  }

  lemma LinkableParts(d: Table, n: nat, s: int, len: nat, h: set<int>, a: Ptr, b: Ptr, pages: nat)
    requires Linkable(d, n, s, len, h, a, b) && d.slab[Page(s)] == len && 0 < pages <= len
    ensures Removable(d, s) && (pages < len ==> Divisible(d, s, pages))
  {
    assert Head(d, s) && Head(d, s + len - 1) && (pages < len ==> Head(d, s + pages));
  }
}
