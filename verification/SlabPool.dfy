// The slab pool of ngx_slab.c.

module SlabPool {
  import opened Ring
  import opened SlabRuns
  import opened SlabPages
  import opened SlabFree
  import opened MachineWords
  import opened SlabSlots
  import opened SlabLayouts
  import opened SlabChunks
  import opened SlabBlocks
  import opened SlabArea
  import opened SlabSteps
  import opened SlabChecks

  function Addresses(n: nat, slots: nat): set<Ptr> {
    (set p | 0 <= p < n :: Page(p)) + (set k | 0 <= k < slots :: Slot(k)) + {Free}
  }

  // The descriptors as ngx_slab_init leaves them: one free run of all pages, whose last
  // page has no back pointer, and empty slot lists.
  function InitTable(n: nat, slots: nat): Table {
    Table(
      map x | x in Addresses(n, slots) :: if x == Page(0) then n else 0,
      map x | x in Addresses(n, slots) ::
        if x == Page(0) then Free else if x == Free then Page(0) else if x.Slot? then x else Null,
      map x | x in Addresses(n, slots) :: if x == Page(0) then Free else Null,
      map x | x in Addresses(n, slots) :: SLAB_PAGE)
  }

  lemma InitLaid(n: nat, slots: nat)
    requires 0 < n < PAGE_START
    ensures Laid(InitTable(n, slots), n, slots, [Run(n, FreeRun)], [Page(0)])
    ensures FreeTotal([Run(n, FreeRun)]) == n
  {
    var d, runs := InitTable(n, slots), [Run(n, FreeRun)];
    assert runs[1..] == [] && Heads(0, runs) == {0};
    assert Page(0) in [Page(0)];
    InitWords(n, slots);
    EmptyChart(d, n, n);
    assert IsRing(d.next, d.prev, Free, [Page(0)]);
  }

  lemma InitWords(n: nat, slots: nat)
    requires 0 < n < PAGE_START
    ensures WellFormed(InitTable(n, slots), n, slots) && Describes(InitTable(n, slots), n, 0, Run(n, FreeRun))
    ensures IsRing(InitTable(n, slots).next, InitTable(n, slots).prev, Free, [Page(0)])
  {
    var d := InitTable(n, slots);
    assert forall x :: x in d.slab <==> x in Addresses(n, slots);
    forall p | 0 < p < n
      ensures Idle(d, p)
    {
      assert Page(p) in Addresses(n, slots);
    }
  }

  function EmptyClass(): SizeClass {
    SizeClass({}, {}, [])
  }

  lemma InitSound(g: Geo, n: nat)
    requires Sane(g, n) && 0 < n < PAGE_START
    ensures Sound(g, InitTable(n, Slots(g)), map[], n, [Run(n, FreeRun)], [Page(0)],
                  seq(Slots(g), _ => EmptyClass()), seq(Slots(g), _ => Stat(0, 0)))
    ensures NoneHeld([Run(n, FreeRun)], seq(Slots(g), _ => EmptyClass()))
  {
    hide Laid, SlotsOk, InitTable, Holds;
    InitLaid(n, Slots(g));
    InitSlots(g, n);
    InitHolds(n);
  }

  lemma InitSlots(g: Geo, n: nat)
    requires Sane(g, n)
    ensures SlotsOk(g, InitTable(n, Slots(g)), map[], seq(Slots(g), _ => EmptyClass()), seq(Slots(g), _ => Stat(0, 0)))
  {
    var d := InitTable(n, Slots(g));
    forall k | 0 <= k < Slots(g)
      ensures SlotOk(g, d, map[], k, EmptyClass(), Stat(0, 0))
    {
      assert Slot(k) in Addresses(n, Slots(g));
      EmptyRing(d.next, d.prev, Slot(k));
    }
  }

  lemma InitHolds(n: nat)
    ensures forall p, r: Run :: r.kind != FreeRun ==> !Holds(0, [Run(n, FreeRun)], p, r)
  {
    var runs := [Run(n, FreeRun)];
    assert runs[1..] == [];
  }

  // The page count fits in the header words.
  lemma PagesFit(g: Geo, n: nat)
    requires Sane(g, n)
    ensures n < PAGE_START - 1
  {
    PowMonotone(6, g.pageShift);
    assert Pow2(6) == 64;
    MulMonotone(64, PageSize(g), n);
  }

  class SlabPool {
    const g: Geo
    const n: nat
    const slots: nat
    const end: nat
    var d: Table
    var bm: Bitmaps
    var stats: seq<Stat>
    var pfree: nat
    ghost var runs: seq<Run>
    ghost var list: seq<Ptr>
    ghost var sts: seq<SizeClass>

    ghost predicate PagesValid()
      reads this
    {
      && Laid(d, n, slots, runs, list) && Coalesced(runs) && NoLimbo(runs)
      && pfree == FreeTotal(runs)
    }

    ghost predicate Valid()
      reads this
    {
      Sound(g, d, bm, n, runs, list, sts, stats) && pfree == FreeTotal(runs) && slots == Slots(g)
      && PageAddr(g, n) <= end
    }

    // ngx_slab_init, for the memory from `base` up to `end`.
    constructor (pageShift: nat, minShift: nat, base: nat, end: nat)
      requires 6 <= pageShift <= 16 && minShift < pageShift && 0 < base && end < 0x1_0000_0000_0000_0000
      requires HasRoom(pageShift, minShift, base, end) && 0 < AreaOf(pageShift, minShift, base, end).pages
      ensures Valid() && this.end == end && g == Geo(pageShift, minShift, g.start) && pfree == n
      ensures Fitted(pageShift, Descriptors(pageShift, minShift, base), end, g.start, n)
      ensures NoneHeld(runs, sts)
    {
      hide Fitted, HasRoom, AreaOf;
      var area := AreaOf(pageShift, minShift, base, end);
      var g, n := Geo(pageShift, minShift, area.start), area.pages;
      RoomBelow(pageShift, minShift, base, end);
      Usable(pageShift, minShift, Descriptors(pageShift, minShift, base), end, area.start, n);
      this.g, this.n, this.end, slots := g, n, end, Slots(g);
      d := InitTable(n, Slots(g));
      bm, stats := map[], seq(Slots(g), _ => Stat(0, 0));
      pfree := n;
      runs, list, sts := [Run(n, FreeRun)], [Page(0)], seq(Slots(g), _ => EmptyClass());
      PagesFit(g, n);
      InitLaid(n, Slots(g));
      InitSound(g, n);
    }

    // The first pages of a run are marked busy, all but the header.
    method FillBusy(page: int, pages: nat)
      requires forall p :: page <= p < page + pages ==> Head(d, p)
      requires 0 < pages
      modifies `d
      ensures Filled(old(d), d, page + 1, page + pages)
    {
      var left := pages - 1;
      var p := page + 1;
      while left > 0
        invariant 0 <= left && p + left == page + pages && page + 1 <= p
        invariant Filled(old(d), d, page + 1, p)
        invariant forall q :: page <= q < page + pages ==> Head(d, q)
      {
        ghost var d0 := d;
        assert Head(d, p);
        d := SetSlab(d, Page(p), PAGE_BUSY);
        d := SetNext(d, Page(p), Null);
        d := SetPrev(d, Page(p), Null, SLAB_PAGE);
        FillOne(old(d), d0, d, page + 1, p);
        p := p + 1;
        left := left - 1;
      }
    }

    // ngx_slab_alloc_pages: first fit along the free list.
    method AllocPages(pages: nat)
        returns (r: Ptr, ghost k: nat, ghost a: seq<Run>, ghost run: Run, ghost b: seq<Run>)
      requires PagesValid() && 0 < pages
      modifies `d, `pfree, `runs, `list
      ensures PagesValid()
      ensures r == Null ==> d == old(d) && runs == old(runs) && list == old(list) && pfree == old(pfree)
      ensures r == Null ==> forall x :: x in runs && x.kind == FreeRun ==> x.len < pages
      ensures r != Null ==>
                && Entry(old(list), k, old(runs), a, run, b) && r == Page(Total(a)) && pages <= run.len
                && (forall i :: 0 <= i < k ==> old(list)[i] in old(d).slab && old(d).slab[old(list)[i]] < pages)
                && runs == HandedOut(a, run, b, pages)
                && list == ListAfter(old(list), k, Total(a), run.len, pages)
                && pfree == old(pfree) - pages
                && SlotsKept(old(d), d, Null)
    {
      hide Laid, Coalesced, Chart, Heads, Total, FreeTotal, HandedOut, NoLimbo, Without, With;
      ListStep(d, n, slots, runs, list, 0);
      var page := d.next[Free];
      k, a, run, b := 0, [], Run(0, FreeRun), [];
      while page != Free
        invariant d == old(d) && runs == old(runs) && list == old(list) && pfree == old(pfree)
        invariant k <= |list| && page == Nth(Free, list, k + 1) && (page == Free <==> k == |list|)
        invariant forall i :: 0 <= i < k ==> list[i] in d.slab && d.slab[list[i]] < pages
        decreases |list| - k
      {
        ListStep(d, n, slots, runs, list, k);
        if d.slab[page] >= pages {
          a, run, b := FindEntry(d, n, slots, runs, list, k);
          Take(page, pages, k, a, run, b);
          return page, k, a, run, b;
        }
        page := d.next[page];
        k := k + 1;
        ListStep(d, n, slots, runs, list, k);
      }
      forall x | x in runs && x.kind == FreeRun
        ensures x.len < pages
      {
        NoFit(d, n, slots, runs, list, pages, x);
      }
      r := Null;
    }

    // The body of that loop once a run is long enough.
    method Take(page: Ptr, pages: nat, ghost k: nat, ghost a: seq<Run>, ghost run: Run, ghost b: seq<Run>)
      requires PagesValid() && Entry(list, k, runs, a, run, b) && page == Page(Total(a)) && page in d.slab
      requires 0 < pages <= d.slab[page]
      modifies `d, `pfree, `runs, `list
      ensures PagesValid() && pages <= run.len
      ensures runs == HandedOut(a, run, b, pages) && list == ListAfter(old(list), k, Total(a), run.len, pages)
      ensures pfree == old(pfree) - pages && SlotsKept(old(d), d, Null)
    {
      hide Laid, Coalesced, Chart, Heads, FreeTotal, NoLimbo, Without, With, Describes, Keeps, ChangesWithin,
           Linkable, SlotsKept, Filled, Divide, TakeOut, Total, Divisible, Removable, HandedOut;
      ghost var s, p, q := Total(a), Nth(Free, list, k), Nth(Free, list, k + 2);
      EntryLinkable(d, n, slots, runs, list, k, a, run, b);
      HandedOutTotal(a, run, b, pages);
      HandedOutCoalesced(a, run, b, pages);
      HandedOutNoLimbo(a, run, b, pages);
      if d.slab[page] > pages {
        Detach(page.p, pages, run.len, Heads(0, runs), p, q);
        HandOutPart(old(d), d, n, slots, runs, list, k, a, run, b, pages);
      } else {
        DetachWhole(page.p, run.len, Heads(0, runs), p, q);
        HandOutWhole(old(d), d, n, slots, runs, list, k, a, run, b);
      }
      ChangesKeepSlots(old(d), d, n, slots, runs, list, k, a, run, b);
      pfree := pfree - pages;
      runs, list := HandedOut(a, run, b, pages), ListAfter(list, k, s, run.len, pages);
    }

    // The first pages of a longer run are taken, the rest takes its place in the list.
    method Detach(page: int, pages: nat, ghost len: nat, ghost h: set<int>, ghost a: Ptr, ghost b: Ptr)
      requires Linkable(d, n, page, len, h, a, b) && d.slab[Page(page)] == len && 0 < pages < len
      modifies `d
      ensures Divisible(old(d), page, pages) && Filled(Divide(old(d), page, pages), d, page + 1, page + pages)
    {
      hide Filled, Linkable, Divide, Divisible;
      LinkableParts(d, n, page, len, h, a, b, pages);
      DividedHeads(d, n, page, len, h, a, b, pages);
      WriteDivided(page, pages);
      FillBusy(page, pages);
    }

    method WriteDivided(page: int, pages: nat)
      requires Divisible(d, page, pages)
      modifies `d
      ensures d == Divide(old(d), page, pages)
    {
      hide RestHeader, MarkStart;
      var x, y := Page(page), Page(page + pages);
      WriteRest(page, pages);
      var p := d.prev[x];
      d := SetNext(d, p, y);
      d := SetPrev(d, d.next[x], y, 0);
      assert d == SplitOff(old(d), page, pages);
      WriteStart(x, pages);
    }

    // The header of a run handed out.
    method WriteStart(x: Ptr, pages: nat)
      requires x in d.slab && x in d.next && x in d.prev && x in d.tag
      modifies `d
      ensures d == MarkStart(old(d), x, pages)
    {
      d := SetSlab(d, x, pages + PAGE_START);
      d := SetNext(d, x, Null);
      d := SetPrev(d, x, Null, SLAB_PAGE);
    }

    method WriteRest(page: int, pages: nat)
      requires Divisible(d, page, pages)
      modifies `d
      ensures d == RestHeader(old(d), page, pages) && SameKeys(old(d), d)
      ensures Head(d, page) && d.next[Page(page)] == old(d).next[Page(page)]
      ensures d.prev[Page(page)] == old(d).prev[Page(page)]
    {
      var x, y, t := Page(page), Page(page + pages), d;
      t := SetPrev(t, Page(page + t.slab[x] - 1), y, 0);
      t := SetSlab(t, y, t.slab[x] - pages);
      t := SetNext(t, y, t.next[x]);
      t := SetPrev(t, y, t.prev[x], t.tag[x]);
      d := t;
    }

    // A whole run is taken out of the list.
    method DetachWhole(page: int, ghost len: nat, ghost h: set<int>, ghost a: Ptr, ghost b: Ptr)
      requires Linkable(d, n, page, len, h, a, b) && d.slab[Page(page)] == len && a != Null && b != Null
      modifies `d
      ensures Removable(old(d), page) && Filled(TakeOut(old(d), page, len), d, page + 1, page + len)
    {
      hide Filled, Linkable, TakeOut, Removable;
      var pages := HeaderOf(page, len, h, a, b);
      LinkableParts(d, n, page, len, h, a, b, len);
      TakeOutKeeps(d, n, page, len, h, a, b);
      WriteTakenOut(page, pages);
      FillBusy(page, pages);
    }

    method HeaderOf(page: int, ghost len: nat, ghost h: set<int>, ghost a: Ptr, ghost b: Ptr) returns (pages: nat)
      requires Linkable(d, n, page, len, h, a, b) && d.slab[Page(page)] == len
      ensures pages == len && 0 < len
    {
      pages := d.slab[Page(page)];
    }

    method WriteTakenOut(page: int, pages: nat)
      requires Removable(d, page)
      modifies `d
      ensures d == TakeOut(old(d), page, pages)
    {
      var x := Page(page);
      var p := d.prev[x];
      d := SetNext(d, p, d.next[x]);
      d := SetPrev(d, d.next[x], d.prev[x], d.tag[x]);
      WriteStart(x, pages);
    }

    // ngx_slab_free_pages. The run `r` of `pages` pages is given back.
    method FreePages(page: int, pages0: nat, ghost a: seq<Run>, ghost r: Run, ghost b: seq<Run>)
      requires PagesValid() && runs == a + [r] + b && (r.kind == BusyRun || r.kind == SlotRun)
      requires page == Total(a) && pages0 == r.len
      requires Head(d, page) && (d.next[Page(page)] != Null ==> SlotLinked(d, Page(page)))
      modifies `d, `pfree, `runs, `list
      ensures PagesValid() && runs == Freed(a, pages0, b) && pfree == old(pfree) + pages0
      ensures Relisted(old(list), list, a, pages0, b)
      ensures SlotsKept(Unlinked(old(d), Page(page)), d, Page(page))
    {
      hide Laid, Coalesced, Chart, Heads, Total, FreeTotal, NoLimbo, Released, SlotsKept, Unlinked, Describes,
           SlotLinked, Freed, Relisted;
      FreedCoalesced(a, r, b);
      RunFacts(d, n, slots, runs, list, a, r, b);
      pfree := pfree + pages0;
      Release(page, pages0, a, r, b);
      Unlink(page, pages0, a, b, old(d));
      NoLimboParts(a, r, b);
      Rejoin(page, pages0, a, b, Unlinked(old(d), Page(page)));
    }

    // The run is joined with its free neighbours and listed.
    method Rejoin(page: int, pages0: nat, ghost a: seq<Run>, ghost b: seq<Run>, ghost u: Table)
      requires Laid(d, n, slots, runs, list) && Pending(runs, a, pages0, b) && NoLimbo(a) && NoLimbo(b)
      requires page == Total(a) && 0 < pages0
      requires SlotsKept(u, d, Page(page)) && SameKeys(u, d) && u.slab.Keys == u.next.Keys == u.prev.Keys == u.tag.Keys
      modifies `d, `runs, `list
      ensures Laid(d, n, slots, runs, list) && runs == Freed(a, pages0, b) && Relisted(old(list), list, a, pages0, b)
      ensures FreeTotal(runs) == FreeTotal(old(runs)) + pages0
      ensures SlotsKept(u, d, Page(page))
    {
      hide Laid, Chart, Heads, Total, FreeTotal, NoLimbo, SlotsKept, InSlots, Cut;
      ghost var d2 := d;
      var left, start;
      ghost var a1, b1;
      left, b1 := JoinUpper(page, pages0 - 1, a, pages0, b);
      ghost var d3 := d;
      start, left, a1 := JoinLower(page, left, a, left + 1, b1);
      ghost var d4 := d;
      Link(start, left, a1, b1);
      KeptThroughout(u, d2, d3, d4, d, Page(page), Page(start));
    }

    // The header gets the length, the other pages are cleared.
    method Release(page: int, pages: nat, ghost a: seq<Run>, ghost r: Run, ghost b: seq<Run>)
      requires Laid(d, n, slots, runs, list) && runs == a + [r] + b && (r.kind == BusyRun || r.kind == SlotRun)
      requires page == Total(a) && pages == r.len
      modifies `d, `runs
      ensures Laid(d, n, slots, runs, list) && Pending(runs, a, pages, b) && FreeTotal(runs) == FreeTotal(old(runs))
      ensures Released(old(d), d, page, pages) && SlotsKept(old(d), d, Page(page))
    {
      hide Laid, Chart, Heads, Total, FreeTotal, SlotsKept, Released;
      RunPages(d, n, slots, runs, list, a, r, b);
      ClearPages(page, pages);
      ReleaseLaid(old(d), d, n, slots, runs, list, a, r, b);
      runs := a + [Run(pages, LimboRun)] + b;
    }

    method ClearPages(page: int, pages: nat)
      requires 0 < pages && forall p :: page <= p < page + pages ==> Head(d, p)
      modifies `d
      ensures Released(old(d), d, page, pages)
    {
      assert Head(d, page);
      d := SetSlab(d, Page(page), pages);
      ClearNone(old(d), d, page, pages);
      var p := page + 1;
      while p < page + pages
        invariant page + 1 <= p <= page + pages
        invariant Clearing(old(d), d, page, pages, p)
        invariant forall q :: page <= q < page + pages ==> Head(d, q)
      {
        ghost var d0 := d;
        assert Head(d, p);
        d := ClearHeader(d, Page(p));
        ClearOne(old(d), d0, d, page, pages, p);
        p := p + 1;
      }
    }

    // A page that stood in a slot list leaves it.
    method Unlink(page: int, pages: nat, ghost a: seq<Run>, ghost b: seq<Run>, ghost d0: Table)
      requires Laid(d, n, slots, runs, list) && Pending(runs, a, pages, b)
      requires d0.slab.Keys == d0.next.Keys == d0.prev.Keys == d0.tag.Keys && Head(d0, page)
      requires Released(d0, d, page, pages) && SlotsKept(d0, d, Page(page))
      requires d0.next[Page(page)] != Null ==> SlotLinked(d0, Page(page))
      modifies `d
      ensures Laid(d, n, slots, runs, list)
      ensures SlotsKept(Unlinked(d0, Page(page)), d, Page(page))
      ensures SameKeys(Unlinked(d0, Page(page)), d) && SameKeys(d0, Unlinked(d0, Page(page)))
    {
      hide Laid, Chart, Heads, Total, FreeTotal, SlotsKept, Unlinked, SlotsRelinked;
      var x := Page(page);
      if d.next[x] != Null {
        StillLinked(d0, d, page, pages);
        WriteCutOut(x);
        UnlinkRelinks(old(d), d, x);
        RelinkLaid(old(d), d, n, slots, runs, list);
      }
      UnlinkSlots(d0, old(d), d, page, pages);
    }

    // The run is joined with a free run after it.
    method JoinUpper(page: int, left0: nat, ghost a: seq<Run>, ghost len: nat, ghost b: seq<Run>)
        returns (left: nat, ghost b1: seq<Run>)
      requires Laid(d, n, slots, runs, list) && Pending(runs, a, len, b) && NoLimbo(b)
      requires page == Total(a) && left0 + 1 == len
      modifies `d, `runs, `list
      ensures Laid(d, n, slots, runs, list) && Pending(runs, a, left + 1, b1)
      ensures b1 == (if FreeAbove(b) then b[1..] else b) && left == left0 + (if FreeAbove(b) then b[0].len else 0)
      ensures FreeTotal(runs) + left == FreeTotal(old(runs)) + left0
      ensures Cut(FreeAbove(b), old(list), list, Page(Total(a) + len))
      ensures SameKeys(old(d), d) && SlotsKept(old(d), d, Page(page))
    {
      hide Laid, Chart, Heads, Total, FreeTotal, SlotsKept, NoLimbo;
      left, b1 := left0, b;
      SlotsSame(d, Page(page));
      PendingFacts(d, n, slots, runs, list, a, len, b);
      AfterPending(d, n, slots, runs, list, a, len, b);
      UpperNeighbour(d, n, Total(a) + len, b);
      var join := page + d.slab[Page(page)];
      if join < n {
        if d.tag[Page(join)] == SLAB_PAGE {
          if d.next[Page(join)] != Null {
            left := left + d.slab[Page(join)];
            b1 := b[1..];
            MergeUpper(page, join, a, len, b);
          }
        }
      }
    }

    method MergeUpper(page: int, join: int, ghost a: seq<Run>, ghost len: nat, ghost b: seq<Run>)
      requires Laid(d, n, slots, runs, list) && Pending(runs, a, len, b) && FreeAbove(b)
      requires page == Total(a) && join == page + len
      modifies `d, `runs, `list
      ensures Laid(d, n, slots, runs, list) && Pending(runs, a, len + b[0].len, b[1..])
      ensures FreeTotal(runs) + b[0].len == FreeTotal(old(runs)) && Cut(true, old(list), list, Page(join))
      ensures SameKeys(old(d), d) && SlotsKept(old(d), d, Page(page))
    {
      hide Laid, Chart, Heads, Total, FreeTotal, SlotsKept, Merge;
      ghost var k := UpperAdjoins(d, n, slots, runs, list, a, len, b);
      ghost var r1 := Run(len, LimboRun);
      AdjoiningLinks(d, n, slots, runs, list, k, a, r1, b[0], b[1..]);
      WriteMerged(page, join, join);
      MergeLaid(old(d), d, n, slots, runs, list, Without(list, k), k, a, r1, b[0], b[1..]);
      MergeSlots(old(d), d, n, slots, runs, list, k, a, r1, b[0], b[1..]);
      ListedMerged(old(d), n, slots, runs, list, k, a, r1, b[0], b[1..]);
      runs, list := MergedRuns(a, r1, b[0], b[1..]), Without(list, k);
    }

    // The header of the upper of two adjacent runs goes, the lower one grows, and `out`,
    // the one of the two that stood in the free list, leaves it.
    method WriteMerged(lo: int, hi: int, out: int)
      requires Mergeable(d, lo, hi, out)
      modifies `d
      ensures d == Merge(old(d), lo, hi, out) && SameKeys(old(d), d)
    {
      hide CutOut, ClearHeader, SetPrev, SetNext;
      MergedAt(d, lo, hi, out, Page(lo));
      d := SetSlab(d, Page(lo), d.slab[Page(lo)] + d.slab[Page(hi)]);
      WriteCutOut(Page(out));
      d := ClearHeader(d, Page(hi));
    }

    // A descriptor leaves the list it is in.
    method WriteCutOut(x: Ptr)
      requires x in d.next && x in d.prev && x in d.tag && d.prev[x] != x
      requires d.prev[x] in d.next && d.next[x] in d.prev && d.next[x] in d.tag
      modifies `d
      ensures d == CutOut(old(d), x) && d.slab == old(d).slab
      ensures SameKeys(old(d), d)
    {
      var prev := d.prev[x];
      d := SetNext(d, prev, d.next[x]);
      d := SetPrev(d, d.next[x], d.prev[x], d.tag[x]);
    }

    // The run is joined with a free run before it.
    method JoinLower(page: int, left0: nat, ghost a: seq<Run>, ghost len: nat, ghost b: seq<Run>)
        returns (start: int, left: nat, ghost a1: seq<Run>)
      requires Laid(d, n, slots, runs, list) && Pending(runs, a, len, b) && NoLimbo(a)
      requires page == Total(a) && left0 + 1 == len
      modifies `d, `runs, `list
      ensures Laid(d, n, slots, runs, list) && Pending(runs, a1, left + 1, b) && start == Total(a1)
      ensures a1 == (if FreeBelow(a) then a[..|a| - 1] else a)
      ensures left == left0 + (if FreeBelow(a) then a[|a| - 1].len else 0)
      ensures FreeTotal(runs) + left == FreeTotal(old(runs)) + left0
      ensures Cut(FreeBelow(a), old(list), list, Page(Total(a1)))
      ensures SameKeys(old(d), d) && SlotsKept(old(d), d, Page(page))
      ensures start == page || !InSlots(d, Page(start))
    {
      hide Laid, Chart, Heads, Total, FreeTotal, SlotsKept, NoLimbo;
      start, left, a1 := page, left0, a;
      SlotsSame(d, Page(page));
      PendingFacts(d, n, slots, runs, list, a, len, b);
      BeforePending(d, n, slots, runs, list, a, len, b);
      if page > 0 {
        var join := Page(page - 1);
        if d.tag[join] == SLAB_PAGE {
          if d.slab[join] == PAGE_FREE {
            join := d.prev[join];
          }
          if d.next[join] != Null {
            start, left, a1 := join.p, left + d.slab[join], a[..|a| - 1];
            MergeLower(join.p, page, a, len, b);
          }
        }
      }
    }

    method MergeLower(join: int, page: int, ghost a: seq<Run>, ghost len: nat, ghost b: seq<Run>)
      requires Laid(d, n, slots, runs, list) && Pending(runs, a, len, b) && FreeBelow(a)
      requires page == Total(a) && join == Total(a[..|a| - 1])
      modifies `d, `runs, `list
      ensures Laid(d, n, slots, runs, list) && Pending(runs, a[..|a| - 1], len + a[|a| - 1].len, b)
      ensures FreeTotal(runs) + a[|a| - 1].len == FreeTotal(old(runs)) && Cut(true, old(list), list, Page(join))
      ensures SameKeys(old(d), d) && SlotsKept(old(d), d, Page(page)) && !InSlots(d, Page(join))
    {
      hide Laid, Chart, Heads, Total, FreeTotal, SlotsKept, Merge;
      ghost var k := LowerAdjoins(d, n, slots, runs, list, a, len, b);
      ghost var a0, r1, r2 := a[..|a| - 1], a[|a| - 1], Run(len, LimboRun);
      AdjoiningLinks(d, n, slots, runs, list, k, a0, r1, r2, b);
      MergedAt(d, join, page, join, Page(join));
      WriteMerged(join, page, join);
      MergeLaid(old(d), d, n, slots, runs, list, Without(list, k), k, a0, r1, r2, b);
      MergeSlots(old(d), d, n, slots, runs, list, k, a0, r1, r2, b);
      ListedMerged(old(d), n, slots, runs, list, k, a0, r1, r2, b);
      runs, list := MergedRuns(a0, r1, r2, b), Without(list, k);
    }

    // The run goes to the front of the free list.
    method Link(start: int, left: nat, ghost a: seq<Run>, ghost b: seq<Run>)
      requires Laid(d, n, slots, runs, list) && Pending(runs, a, left + 1, b) && start == Total(a)
      modifies `d, `runs, `list
      ensures Laid(d, n, slots, runs, list) && runs == a + [Run(left + 1, FreeRun)] + b
      ensures list == [Page(start)] + old(list)
      ensures FreeTotal(runs) == FreeTotal(old(runs)) + left + 1
      ensures SameKeys(old(d), d) && SlotsKept(old(d), d, Page(start))
    {
      hide Laid, Chart, Heads, Total, FreeTotal, SlotsKept, Enlist;
      PendingUnlisted(d, n, slots, runs, list, a, left + 1, b);
      FirstListed(d, n, slots, runs, list);
      EnlistedAt(d, start, left + 1, Free);
      WriteEnlisted(start, left);
      EnlistKeeps(old(d), d, n, slots, runs, list, a, left + 1, b);
      EnlistLaid(old(d), d, n, slots, runs, list, a, left + 1, b);
      runs, list := a + [Run(left + 1, FreeRun)] + b, [Page(start)] + list;
    }

    method WriteEnlisted(start: int, left: nat)
      requires Listable(d, start, left + 1)
      modifies `d
      ensures d == Enlist(old(d), start, left + 1) && SameKeys(old(d), d)
    {
      EnlistedAt(d, start, left + 1, Page(start));
      var x := Page(start);
      if left > 0 {
        d := SetPrev(d, Page(start + left), x, SLAB_PAGE);
      }
      d := SetPrev(d, x, Free, SLAB_PAGE);
      d := SetNext(d, x, d.next[Free]);
      d := SetPrev(d, d.next[x], x, SLAB_PAGE);
      d := SetNext(d, Free, x);
    }

    // -------- chunks --------

    // The first clear bit of a page's bitmap is set, and the page is found full or not.
    method MarkSmall(p: int, sh: nat) returns (i: nat, full: bool)
      requires 6 <= g.pageShift && sh < ExactShift(g) && Header(g, d, bm, p, sh) && !AllUsed(g, d, bm, p, sh)
      modifies `bm
      ensures i < Chunks(g, sh) && !Used(g, d, old(bm), p, sh, i) && FirstFree(g, d, old(bm), p, sh, i)
      ensures Changed(g, d, old(bm), d, bm, p, sh, i, true)
      ensures full <==> AllUsed(g, d, bm, p, sh)
    {
      hide Chunks, Pow2, SetBit, AllUsed, Bit, Changed;
      SmallFull(g, d, bm, p, sh);
      var w := 0;
      while bm[p][w] == Ones(64)
        invariant w < |bm[p]| && forall v :: 0 <= v < w ==> bm[p][v] == Ones(64)
        decreases |bm[p]| - w
      {
        w := w + 1;
      }
      assert bm[p][w] in bm[p];
      AllSet(bm[p][w], 64);
      var b := FirstClear(bm[p][w], 64);
      SmallFirst(g, d, bm, p, sh, w, b);
      SmallChanged(g, d, bm, bm[p := PutWord(bm[p], w, PutBit(bm[p][w], b, true))], p, sh, w, b, true);
      bm := bm[p := PutWord(bm[p], w, PutBit(bm[p][w], b, true))];
      i := 64 * w + b;
      ChangedOnly(g, d, old(bm), d, bm, p, sh, i, true);
      ChangedHeader(g, d, old(bm), d, bm, p, sh, i, true);
      SmallFull(g, d, bm, p, sh);
      full := bm[p][w] == Ones(64);
      while full && w + 1 < |bm[p]|
        invariant w < |bm[p]| && forall v :: 0 <= v < w ==> bm[p][v] == Ones(64)
        invariant full <==> bm[p][w] == Ones(64)
        decreases |bm[p]| - w
      {
        w := w + 1;
        full := bm[p][w] == Ones(64);
      }
    }

    method MarkExact(p: int, sh: nat) returns (i: nat, full: bool)
      requires 6 <= g.pageShift && sh == ExactShift(g) && Header(g, d, bm, p, sh) && !AllUsed(g, d, bm, p, sh)
      modifies `d
      ensures i < Chunks(g, sh) && !Used(g, old(d), bm, p, sh, i) && FirstFree(g, old(d), bm, p, sh, i)
      ensures Changed(g, old(d), bm, d, bm, p, sh, i, true)
      ensures full <==> AllUsed(g, d, bm, p, sh)
    {
      hide Chunks, Pow2, SetBit, AllUsed, Bit, Changed;
      ChunkCount(g, sh);
      ExactFull(g, d, bm, p, sh);
      AllSet(d.slab[Page(p)], 64);
      i := FirstClear(d.slab[Page(p)], 64);
      ExactChanged(g, d, bm, p, sh, i, true);
      d := SetSlab(d, Page(p), PutBit(d.slab[Page(p)], i, true));
      ChangedHeader(g, old(d), bm, d, bm, p, sh, i, true);
      ExactFull(g, d, bm, p, sh);
      full := d.slab[Page(p)] == Ones(64);
    }

    method MarkBig(p: int, sh: nat) returns (i: nat, full: bool)
      requires 6 <= g.pageShift && ExactShift(g) < sh < g.pageShift
      requires Header(g, d, bm, p, sh) && !AllUsed(g, d, bm, p, sh)
      modifies `d
      ensures i < Chunks(g, sh) && !Used(g, old(d), bm, p, sh, i) && FirstFree(g, old(d), bm, p, sh, i)
      ensures Changed(g, old(d), bm, d, bm, p, sh, i, true)
      ensures full <==> AllUsed(g, d, bm, p, sh)
    {
      hide Chunks, Pow2, SetBit, Bit, Changed, High, Low;
      i := 0;
      while Bit(d.slab[Page(p)], 32 + i)
        invariant i <= Chunks(g, sh) && FirstFree(g, d, bm, p, sh, i)
        decreases Chunks(g, sh) - i
      {
        assert i < Chunks(g, sh);
        i := i + 1;
      }
      BigChanged(g, d, bm, p, sh, i, true);
      d := SetSlab(d, Page(p), PutBit(d.slab[Page(p)], 32 + i, true));
      ChangedHeader(g, old(d), bm, d, bm, p, sh, i, true);
      BigFull(g, d, bm, p, sh);
      full := High(d.slab[Page(p)], 32) == Ones(Chunks(g, sh));
    }

    method Mark(p: int, sh: nat) returns (i: nat, full: bool)
      requires 6 <= g.pageShift && sh < g.pageShift && Header(g, d, bm, p, sh) && !AllUsed(g, d, bm, p, sh)
      modifies `d, `bm
      ensures i < Chunks(g, sh) && !Used(g, old(d), old(bm), p, sh, i) && FirstFree(g, old(d), old(bm), p, sh, i)
      ensures Changed(g, old(d), old(bm), d, bm, p, sh, i, true)
      ensures full <==> AllUsed(g, d, bm, p, sh)
    {
      hide Chunks, Header, AllUsed, Used, Changed, FirstFree;
      if sh < ExactShift(g) {
        i, full := MarkSmall(p, sh);
      } else if sh == ExactShift(g) {
        i, full := MarkExact(p, sh);
      } else {
        i, full := MarkBig(p, sh);
      }
    }

    // A page leaves the list of its chunk size for good.
    method DropPage(x: Ptr, tag: nat)
      requires Droppable(d, x) && d.prev[x] != x
      modifies `d
      ensures d == Drop(old(d), x, tag)
    {
      hide CutOut;
      WriteCutOut(x);
      d := SetNext(d, x, Null);
      d := SetPrev(d, x, Null, tag);
    }

    // A chunk of the first page listed for chunk size k.
    method TakeChunk(k: nat, page: Ptr) returns (addr: int, ghost h: Holder)
      requires Valid() && k < slots && sts[k].list != [] && page == sts[k].list[0]
      modifies `d, `bm, `stats, `sts
      ensures Valid() && h.ByChunk? && h.k == k && addr == BlockOf(g, h).addr
      ensures Gains(runs, old(sts), runs, sts, h)
    {
      hide Laid, Coalesced, NoLimbo, Homes, Words, Lists, Counts, Own, Chunks, Header, AllUsed, Used, Changed,
           FirstFree, TypeOf, Full, PageWords, Gains, Within, Drop, AllInhabited, FreeTotal;
      var sh := g.minShift + k;
      assert SlotOk(g, d, bm, k, sts[k], stats[k]);
      ListedPage(g, d, bm, k, sh, sts[k], 0);
      LaidKeys(d, n, slots, runs, list);
      var i, full := Mark(page.p, sh);
      ghost var c, st, d1, bm1 := Chunk(page.p, i), sts[k], d, bm;
      ghost var st' := st.(taken := st.taken + {c});
      ChangedOnly(g, old(d), old(bm), d, bm, page.p, sh, i, true);
      if full {
        DropReady(g, old(d), d, k, sh, st);
        DropPage(page, TypeOf(g, sh));
        st' := st'.(list := Without(st.list, 0));
        TakeLast(g, old(d), old(bm), d1, bm1, d, k, st, stats[k], c, 0);
      } else {
        TakeSome(g, old(d), old(bm), d, bm, k, st, stats[k], c);
      }
      SlotStep(g, old(d), old(bm), n, runs, list, sts, stats, d, bm, k, st', stats[k].(used := stats[k].used + 1));
      ChunkGained(runs, sts, k, st', c);
      stats := stats[k := stats[k].(used := stats[k].used + 1)];
      sts := sts[k := st'];
      addr, h := PageAddr(g, page.p) + i * Pow2(sh), ByChunk(k, c);
    }

    // The bitmap of a new small page: the own chunks and one more are in use.
    method WriteBitmap(p: int, sh: nat)
      requires 6 <= g.pageShift && sh < ExactShift(g)
      modifies `bm
      ensures p in bm && |bm[p]| == Chunks(g, sh) / 64 && FirstBits(bm[p], Own(g, sh) + 1)
      ensures forall q :: q in old(bm) && q != p ==> q in bm && bm[q] == old(bm)[q]
    {
      hide Chunks, Own, Ones;
      OwnCount(g, sh);
      ChunkCount(g, sh);
      var used, size := Own(g, sh) + 1, Chunks(g, sh) / 64;
      var words: seq<nat> := [];
      while |words| < used / 64
        invariant |words| <= used / 64 && forall w :: 0 <= w < |words| ==> words[w] == Ones(64)
      {
        words := words + [Ones(64)];
      }
      words := words + [Ones(used % 64)];
      while |words| < size
        invariant used / 64 < |words| <= size && FirstBits(words, used)
      {
        words := words + [0];
      }
      bm := bm[p := words];
    }

    // The first word of a new slot page, and the bitmap if it has one.
    method FirstWord(p: int, sh: nat) returns (w: nat)
      requires 6 <= g.pageShift <= 16 && sh < g.pageShift
      modifies `bm
      ensures forall q :: q in old(bm) && q != p ==> q in bm && bm[q] == old(bm)[q]
      ensures FreshWord(g, bm, p, sh, w)
    {
      hide Chunks, Own;
      if sh < ExactShift(g) {
        WriteBitmap(p, sh);
        w := sh;
      } else if sh == ExactShift(g) {
        w := 1;
      } else {
        w := SetBit(sh, 32);
      }
    }

    // The descriptor of a page becomes the one page of a slot list.
    method WriteInstalled(h: Ptr, x: Ptr, w: nat, tag: nat)
      requires x in d.slab && x in d.next && x in d.prev && x in d.tag && h in d.next
      modifies `d
      ensures d == Install(old(d), h, x, w, tag)
    {
      d := SetSlab(d, x, w);
      d := SetNext(d, x, h);
      d := SetPrev(d, x, h, tag);
      d := SetNext(d, h, x);
    }

    // A chunk of a new page.
    method NewChunk(k: nat) returns (addr: int, ghost h: Holder)
      requires Valid() && k < slots && sts[k].list == []
      modifies this
      ensures Valid()
      ensures addr == 0 ==> d == old(d) && bm == old(bm) && stats == old(stats) && pfree == old(pfree)
                            && runs == old(runs) && list == old(list) && sts == old(sts)
                            && forall x :: x in runs ==> x.kind != FreeRun
      ensures addr != 0 ==>
                h.ByChunk? && h.k == k && addr == BlockOf(g, h).addr && Gains(old(runs), old(sts), runs, sts, h)
    {
      hide Laid, Coalesced, NoLimbo, Homes, Words, Lists, Counts, Own, Chunks, TypeOf, Full, Gains, AllInhabited,
           FreeTotal, HandedOut, Total, Heads, SlotsKept, Install, Fresh, FreshWord;
      ghost var a, run, b, i;
      var page;
      page, i, a, run, b := AllocPages(1);
      if page == Null {
        NoFreeRun(d, n, slots, runs, list);
        return 0, ByPages(0, 0);
      }
      PagesGained(g, old(d), bm, n, old(runs), old(list), sts, stats, d, list, a, run, b, 1);
      ghost var b1 := HandedOutForm(a, run, b, 1);
      addr, h := InstallChunk(k, page.p, old(runs), a, b1);
    }

    // The page just allocated becomes the one listed page of chunk size k.
    method InstallChunk(k: nat, p: int, ghost runs0: seq<Run>, ghost a: seq<Run>, ghost b: seq<Run>)
        returns (addr: int, ghost h: Holder)
      requires Valid() && k < slots && sts[k].list == [] && runs == a + [Run(1, BusyRun)] + b && p == Total(a)
      requires Gains(runs0, sts, runs, sts, ByPages(p, 1))
      modifies this
      ensures Valid() && h.ByChunk? && h.k == k && addr == BlockOf(g, h).addr && addr > 0
      ensures Gains(runs0, old(sts), runs, sts, h)
    {
      hide Laid, Coalesced, NoLimbo, Homes, Words, Lists, Counts, Own, Chunks, TypeOf, Full, Gains, AllInhabited,
           FreeTotal, Total, SlotsKept, Install, Fresh, FreshWord;
      ghost var d0, bm0 := d, bm;
      BusyHead(d, n, slots, runs, list, a, 1, b);
      SlotHead(g, d, bm, n, runs, list, sts, stats, k);
      var sh := g.minShift + k;
      var w := FirstWord(p, sh);
      WriteInstalled(Slot(k), Page(p), w, TypeOf(g, sh));
      FreshInstalled(g, d0, d, bm, k, p, sh, w);
      ghost var c, st := Chunk(p, Own(g, sh)), sts[k];
      ghost var st' := SizeClass(st.pages + {p}, st.taken + {c}, [Page(p)]);
      var stat := Stat(stats[k].used + 1, stats[k].total + (Chunks(g, sh) - Own(g, sh)));
      InstallStep(g, d0, bm0, n, a, b, list, sts, stats, d, bm, k, w, st', stat);
      InstallGains(d0, n, slots, list, runs0, a, b, sts, k, st', c);
      stats := stats[k := stat];
      runs, sts := a + [Run(1, SlotRun)] + b, sts[k := st'];
      addr, h := PageAddr(g, p) + Own(g, sh) * Pow2(sh), ByChunk(k, c);
      GainsHeld(runs0, old(sts), runs, sts, h);
      BlockPositive(g, d, bm, n, runs, list, sts, stats, h);
    }

    // ngx_slab_alloc_locked
    method AllocLocked(size: nat) returns (addr: int, ghost h: Holder)
      requires Valid()
      modifies this
      ensures Valid()
      ensures addr == 0 ==> d == old(d) && bm == old(bm) && stats == old(stats) && pfree == old(pfree)
                            && runs == old(runs) && list == old(list) && sts == old(sts)
                            && (forall x :: x in runs && x.kind == FreeRun ==> x.len < PagesFor(g, size))
                            && (size <= PageSize(g) / 2 ==> exists k ::
                                 0 <= k < |sts| && Serves(g, k, size) && sts[k].list == [])
      ensures addr != 0 ==>
                addr == BlockOf(g, h).addr && size <= BlockOf(g, h).bytes
                && Gains(old(runs), old(sts), runs, sts, h)
      ensures addr != 0 ==> if size <= PageSize(g) / 2 then h.ByChunk? && Serves(g, h.k, size)
                            else h.ByPages? && h.len == PagesFor(g, size)
    {
      hide Laid, Coalesced, NoLimbo, Homes, Words, Lists, Counts, Gains, AllInhabited, FreeTotal, Chunks, Own, High,
           Low, Pow2, BlockOf;
      if size > PageSize(g) / 2 {
        var pages := High(size, g.pageShift) + (if Low(size, g.pageShift) != 0 then 1 else 0);
        PagesEnough(g, size);
        addr, h := NewPages(pages);
        BlockSize(g, h);
        return;
      }
      var k := 0;
      if size > Pow2(g.minShift) {
        var shift := ShiftFor(size);
        ServesSize(g, size, shift);
        k := shift - g.minShift;
      }
      SlotHead(g, d, bm, n, runs, list, sts, stats, k);
      var page := d.next[Slot(k)];
      if d.next[page] != page {
        addr, h := TakeChunk(k, page);
        GainsHeld(old(runs), old(sts), runs, sts, h);
        BlockPositive(g, d, bm, n, runs, list, sts, stats, h);
      } else {
        addr, h := NewChunk(k);
      }
      BlockSize(g, h);
    }

    // A run of pages.
    method NewPages(pages: nat) returns (addr: int, ghost h: Holder)
      requires Valid() && 0 < pages
      modifies `d, `pfree, `runs, `list
      ensures Valid()
      ensures addr == 0 ==> d == old(d) && pfree == old(pfree) && runs == old(runs) && list == old(list)
                            && forall x :: x in runs && x.kind == FreeRun ==> x.len < pages
      ensures addr != 0 ==>
                h.ByPages? && h.len == pages && addr == BlockOf(g, h).addr && Gains(old(runs), sts, runs, sts, h)
    {
      hide Laid, Coalesced, NoLimbo, Homes, SlotsOk, Gains, AllInhabited, FreeTotal, HandedOut, Total, SlotsKept;
      ghost var a, run, b, i;
      var page;
      page, i, a, run, b := AllocPages(pages);
      if page == Null {
        return 0, ByPages(0, 0);
      }
      PagesGained(g, old(d), bm, n, old(runs), old(list), sts, stats, d, list, a, run, b, pages);
      addr, h := PageAddr(g, page.p), ByPages(page.p, pages);
      GainsHeld(old(runs), sts, runs, sts, h);
      BlockPositive(g, d, bm, n, runs, list, sts, stats, h);
    }

    // -------- giving back --------

    // The bit of a chunk is cleared, and the page is found empty or not.
    method Unmark(p: int, sh: nat, i: nat) returns (empty: bool)
      requires 6 <= g.pageShift && sh < g.pageShift && Header(g, d, bm, p, sh) && i < Chunks(g, sh)
      modifies `d, `bm
      ensures Changed(g, old(d), old(bm), d, bm, p, sh, i, false)
      ensures empty <==> NoneUsed(g, d, bm, p, sh)
    {
      hide Chunks, Pow2, ClearBit, Bit, Changed, High, Low, Own, NoneUsed;
      ChunkCount(g, sh);
      if sh < ExactShift(g) {
        var w := i / 64;
        SmallChanged(g, d, bm, bm[p := PutWord(bm[p], w, PutBit(bm[p][w], i % 64, false))], p, sh, w, i % 64, false);
        bm := bm[p := PutWord(bm[p], w, PutBit(bm[p][w], i % 64, false))];
        ChangedHeader(g, d, old(bm), d, bm, p, sh, i, false);
        empty := EmptySmall(p, sh);
      } else if sh == ExactShift(g) {
        ExactChanged(g, d, bm, p, sh, i, false);
        d := SetSlab(d, Page(p), PutBit(d.slab[Page(p)], i, false));
        ChangedHeader(g, old(d), bm, d, bm, p, sh, i, false);
        ExactEmpty(g, d, bm, p, sh);
        empty := d.slab[Page(p)] == 0;
      } else {
        BigChanged(g, d, bm, p, sh, i, false);
        d := SetSlab(d, Page(p), PutBit(d.slab[Page(p)], 32 + i, false));
        ChangedHeader(g, old(d), bm, d, bm, p, sh, i, false);
        BigEmpty(g, d, bm, p, sh);
        empty := High(d.slab[Page(p)], 32) == 0;
      }
    }

    // No chunk but the own ones is in use.
    method EmptySmall(p: int, sh: nat) returns (empty: bool)
      requires 6 <= g.pageShift && sh < ExactShift(g) && Header(g, d, bm, p, sh)
      ensures empty <==> NoneUsed(g, d, bm, p, sh)
    {
      hide Chunks, Own, High, NoneUsed;
      ChunkCount(g, sh);
      OwnCount(g, sh);
      SmallEmpty(g, d, bm, p, sh);
      var own := Own(g, sh);
      var w := own / 64;
      if High(bm[p][w], own % 64) != 0 {
        return false;
      }
      w := w + 1;
      while w < |bm[p]|
        invariant own / 64 < w <= |bm[p]| && forall v :: own / 64 < v < w ==> bm[p][v] == 0
      {
        if bm[p][w] != 0 {
          return false;
        }
        w := w + 1;
      }
      return true;
    }

    // A page that was full goes back to its list.
    method PushPage(h: Ptr, x: Ptr, tag: nat)
      requires Pushable(d, h, x) && d.next[h] != x && h != x
      modifies `d
      ensures d == Push(old(d), h, x, tag)
    {
      d := SetNext(d, x, d.next[h]);
      d := SetNext(d, h, x);
      d := SetPrev(d, x, h, tag);
      d := SetPrev(d, d.next[x], x, tag);
    }

    // A chunk that is handed out is given back; `full` says what the page's words tell.
    method GiveChunk(k: nat, p: int, i: nat)
      requires Valid() && k < slots && Chunk(p, i) in sts[k].taken
      modifies this
      ensures Valid() && Loses(old(runs), old(sts), runs, sts, ByChunk(k, Chunk(p, i)))
    {
      hide Laid, Coalesced, NoLimbo, Homes, Words, Lists, Own, Chunks, Header, AllUsed, NoneUsed, Used, Changed,
           TypeOf, Full, PageWords, Loses, Within, Push, AllInhabited, FreeTotal, Lives, Holds;
      var sh, x := g.minShift + k, Page(p);
      ghost var c, st, stat := Chunk(p, i), sts[k], stats[k];
      ghost var st' := st.(taken := st.taken - {c});
      assert SlotOk(g, d, bm, k, st, stat);
      LaidKeys(d, n, slots, runs, list);
      TakenPage(g, d, bm, k, sh, st, p);
      if (if sh == ExactShift(g) then d.slab[x] == Ones(64) else d.next[x] == Null) {
        PushReady(g, d, bm, k, sh, st, p);
        PushPage(Slot(k), x, TypeOf(g, sh));
        ghost var d1 := d;
        var empty := Unmark(p, sh, i);
        GiveFull(g, old(d), old(bm), d1, d, bm, k, st, stat, c);
        st' := st'.(list := [x] + st.list);
        Given(k, p, c, st', empty, old(d), old(bm));
      } else {
        var empty := Unmark(p, sh, i);
        GiveListed(g, old(d), old(bm), d, bm, k, st, stat, c);
        Given(k, p, c, st', empty, old(d), old(bm));
      }
    }

    // A page without a chunk handed out is given back.
    method Evict(k: nat, p: int, ghost sts0: seq<SizeClass>, ghost c: Chunk)
      requires Core(g, d, bm, n, runs, list, sts, stats) && pfree == FreeTotal(runs) && slots == Slots(g)
      requires PageAddr(g, n) <= end
      requires k < slots && k < |sts| && c.page == p && p in sts[k].pages && !Lives(p, sts[k].taken)
      requires AllInhabited(sts0) && |sts0| == |sts| && sts == sts0[k := sts[k]] && c in sts0[k].taken
      requires sts[k].taken == sts0[k].taken - {c} && sts[k].pages == sts0[k].pages
      modifies this
      ensures Valid() && Loses(old(runs), sts0, runs, sts, ByChunk(k, c))
    {
      hide Laid, Coalesced, NoLimbo, Homes, Words, Lists, Counts, Own, Chunks, Loses, AllInhabited, FreeTotal, Lives,
           Holds, Total, Freed, SlotsKept, Unlinked, SlotLinked, Inhabited, Full, TypeOf;
      ghost var sh := g.minShift + k;
      assert SlotOk(g, d, bm, k, sts[k], stats[k]);
      ghost var a, b := HomeAt(runs, sts, k, p);
      OwnCount(g, sh);
      ghost var i := ListedAt(g, d, k, sh, sts[k], p);
      LaidKeys(d, n, slots, runs, list);
      PageTag(g, d, bm, sh, sts[k], p);
      EvictSlot(g, d, bm, k, sts[k], stats[k], p, i);
      FreePages(p, 1, a, Run(1, SlotRun), b);
      ghost var st', sts1 := SizeClass(sts[k].pages - {p}, sts[k].taken, Without(sts[k].list, i)), sts;
      var total := stats[k].total - (Chunks(g, g.minShift + k) - Own(g, g.minShift + k));
      EvictStep(g, old(d), bm, n, a, b, old(list), sts, stats, d, list, k, i, st', stats[k].(total := total));
      EvictInhabited(sts0, k, st', c);
      EvictLoses(old(d), n, slots, old(list), a, b, sts0, k, st', c);
      stats := stats[k := stats[k].(total := total)];
      sts := sts[k := st'];
      assert sts == sts0[k := st'];
    }

    // The rest of giving back a chunk: an empty page is freed, and the counters follow.
    method Given(k: nat, p: int, ghost c: Chunk, ghost st': SizeClass, empty: bool, ghost d0: Table, ghost bm0: Bitmaps)
      requires Sound(g, d0, bm0, n, runs, list, sts, stats) && pfree == FreeTotal(runs) && slots == Slots(g)
      requires PageAddr(g, n) <= end
      requires k < slots && k < |sts| && c in sts[k].taken && st'.taken == sts[k].taken - {c}
               && st'.pages == sts[k].pages
      requires k < |stats| && SlotOk(g, d, bm, k, st', stats[k].(used := stats[k].used - 1))
      requires Within(d0, d, bm0, bm, k, sts[k].pages)
      requires p == c.page && p in st'.pages && (empty <==> NoneUsed(g, d, bm, p, g.minShift + k))
      modifies this
      ensures Valid() && Loses(old(runs), old(sts), runs, sts, ByChunk(k, c))
    {
      hide Laid, Coalesced, NoLimbo, Homes, Words, Lists, Own, Chunks, NoneUsed, Full, SlotsOk, PageWords, Loses,
           Within, AllInhabited, FreeTotal, Lives, Holds, Total, Freed, SlotsKept, Unlinked, SlotLinked;
      ghost var sh := g.minShift + k;
      ghost var sts0, stat' := sts, stats[k].(used := stats[k].used - 1);
      EmptyPage(g, d, bm, k, st', stat', p);
      SlotStep(g, d0, bm0, n, runs, list, sts, stats, d, bm, k, st', stat');
      stats := stats[k := stats[k].(used := stats[k].used - 1)];
      sts := sts[k := st'];
      if !empty {
        ChunkLost(runs, sts0, k, st', c);
        StillInhabited(sts0, k, st', c);
      } else {
        Evict(k, p, sts0, c);
      }
    }

    // ngx_slab_free_locked
    method FreeLocked(addr: nat) returns (out: Outcome, ghost h: Holder)
      requires Valid() && !(PageAddr(g, n) <= addr <= end)
      requires 6 <= g.pageShift && |sts| + g.minShift <= g.pageShift && !InBitmap(g, sts, addr)
      modifies this
      ensures Valid()
      ensures out == Done ==> addr == BlockOf(g, h).addr && Loses(old(runs), old(sts), runs, sts, h)
      ensures out != Done ==> NoBlockAt(g, runs, sts, addr)
                              && d == old(d) && bm == old(bm) && stats == old(stats) && pfree == old(pfree)
                              && runs == old(runs) && list == old(list) && sts == old(sts)
    {
      hide Laid, Coalesced, NoLimbo, Homes, SlotsOk, AllInhabited, FreeTotal, Loses, High, Low, Pow2, Own, Chunks,
           Held, Header, NoBlockAt, InBitmap, Used, TypeOf, Holds;
      h := ByPages(0, 0);
      PagesFit(g, n);
      if addr < g.start || addr > end {
        Refused(g, d, bm, n, runs, list, sts, stats, addr);
        return OutsidePool, h;
      }
      PageOfAddress(g, n, addr);
      var p := High(addr - g.start, g.pageShift);
      LaidKind(d, n, slots, runs, list, p);
      var slab, tag := d.slab[Page(p)], d.tag[Page(p)];
      if tag == SLAB_PAGE {
        out, h := FreeRunAt(p, addr);
      } else {
        ghost var k := ChunkFound(g, d, bm, n, runs, list, sts, stats, addr);
        out, h := FreeChunkAt(p, ShiftOf(g, tag, slab), addr, k);
      }
    }

    // A block that is handed out is given back by its address.
    method FreeLive(addr: nat, ghost h0: Holder)
      requires Valid() && Held(runs, sts, h0) && addr == BlockOf(g, h0).addr
      modifies this
      ensures Valid() && Loses(old(runs), old(sts), runs, sts, h0)
    {
      hide Laid, Coalesced, NoLimbo, Homes, SlotsOk, AllInhabited, FreeTotal, Loses, High, Low, Pow2, Own, Chunks,
           Held, InBitmap, BlockOf, Holds;
      BlockPlaced(g, d, bm, n, runs, list, sts, stats, h0);
      LiveNotInBitmap(g, d, bm, n, runs, list, sts, stats, h0);
      ghost var d0, bm0, runs0, list0, sts0, stats0 := d, bm, runs, list, sts, stats;
      var out;
      ghost var h;
      out, h := FreeLocked(addr);
      assert out == Done;
      LosesHeld(runs0, sts0, runs, sts, h);
      OneBlockAt(g, d0, bm0, n, runs0, list0, sts0, stats0, h, h0);
    }

    method FreeChunkAt(p: nat, sh: nat, addr: nat, ghost k: nat) returns (out: Outcome, ghost h: Holder)
      requires Valid() && Inside(g, n, addr) && p == High(addr - g.start, g.pageShift) && n < PAGE_START - 1
      requires k < |sts| && |sts| == Slots(g) && p in sts[k].pages && sh == g.minShift + k
               && Header(g, d, bm, p, sh) && Head(d, p)
      requires ShiftOf(g, d.tag[Page(p)], d.slab[Page(p)]) == sh && d.tag[Page(p)] != SLAB_PAGE
      requires !InBitmap(g, sts, addr)
      modifies this
      ensures Valid()
      ensures out == Done ==> addr == BlockOf(g, h).addr && Loses(old(runs), old(sts), runs, sts, h)
      ensures out != Done ==> NoBlockAt(g, runs, sts, addr)
                              && d == old(d) && bm == old(bm) && stats == old(stats) && pfree == old(pfree)
                              && runs == old(runs) && list == old(list) && sts == old(sts)
    {
      hide Laid, Coalesced, NoLimbo, Homes, SlotsOk, AllInhabited, FreeTotal, Loses, High, Low, Pow2, Own, Chunks,
           Held, NoBlockAt, InBitmap, NoReads, Used, TypeOf, Holds, Header, ShiftOf;
      h := ByPages(0, 0);
      if Low(addr, sh) != 0 {
        NoChunkRead(g, d, bm, n, addr);
        Refused(g, d, bm, n, runs, list, sts, stats, addr);
        return WrongChunk, h;
      }
      ChunkTaken(g, d, bm, n, sts, stats, k, p, addr);
      var i := High(Low(addr, g.pageShift), sh);
      var marked := BitOf(p, sh, i);
      if !marked {
        NoChunkRead(g, d, bm, n, addr);
        Refused(g, d, bm, n, runs, list, sts, stats, addr);
        return AlreadyFree, h;
      }
      GiveChunk(sh - g.minShift, p, i);
      return Done, ByChunk(k, Chunk(p, i));
    }

    // The bit of chunk i, read where the layout keeps it.
    method BitOf(p: int, sh: nat, i: nat) returns (b: bool)
      requires 6 <= g.pageShift && sh < g.pageShift && Header(g, d, bm, p, sh) && i < Chunks(g, sh)
      ensures b <==> Used(g, d, bm, p, sh, i)
    {
      hide Chunks, Bit;
      ChunkCount(g, sh);
      if sh < ExactShift(g) {
        b := Bit(bm[p][i / 64], i % 64);
      } else if sh == ExactShift(g) {
        b := Bit(d.slab[Page(p)], i);
      } else {
        b := Bit(d.slab[Page(p)], 32 + i);
      }
    }

    method FreeRunAt(p: nat, addr: nat) returns (out: Outcome, ghost h: Holder)
      requires Valid() && Inside(g, n, addr) && p == High(addr - g.start, g.pageShift) && p < n < PAGE_START - 1
      requires Head(d, p) && d.tag[Page(p)] == SLAB_PAGE && addr == PageAddr(g, p) + Low(addr, g.pageShift)
      modifies `d, `pfree, `runs, `list
      ensures Valid()
      ensures out == Done ==> addr == BlockOf(g, h).addr && Loses(old(runs), sts, runs, sts, h)
      ensures out != Done ==> NoBlockAt(g, runs, sts, addr)
                              && d == old(d) && pfree == old(pfree) && runs == old(runs) && list == old(list)
    {
      hide Laid, Coalesced, NoLimbo, Homes, SlotsOk, AllInhabited, FreeTotal, Loses, High, Low, Pow2, Held, NoBlockAt,
           NoReads, Holds, Used, ShiftOf, Freed, SlotsKept, Unlinked, Total, SlotLinked;
      h := ByPages(0, 0);
      var slab := d.slab[Page(p)];
      if Low(addr, g.pageShift) != 0 {
        NoPagesRead(g, d, bm, n, addr);
        Refused(g, d, bm, n, runs, list, sts, stats, addr);
        return WrongChunk, h;
      }
      if slab < PAGE_START {
        NoPagesRead(g, d, bm, n, addr);
        Refused(g, d, bm, n, runs, list, sts, stats, addr);
        return PageFree, h;
      }
      if slab == PAGE_BUSY {
        NoPagesRead(g, d, bm, n, addr);
        Refused(g, d, bm, n, runs, list, sts, stats, addr);
        return WrongPage, h;
      }
      var size := slab - PAGE_START;
      LaidKind(d, n, slots, runs, list, p);
      ghost var a, b := HoldsFind(0, runs, p, Run(size, BusyRun));
      BusyHead(d, n, slots, runs, list, a, size, b);
      FreePages(p, size, a, Run(size, BusyRun), b);
      PagesLost(g, old(d), bm, n, old(runs), old(list), sts, stats, d, list, a, size, b);
      return Done, ByPages(p, size);
    }
  }

  lemma FillOne(d: Table, d0: Table, d1: Table, s: int, p: int)
    requires Filled(d, d0, s, p) && s <= p && Head(d0, p)
    requires d1 == SetPrev(SetNext(SetSlab(d0, Page(p), PAGE_BUSY), Page(p), Null), Page(p), Null, SLAB_PAGE)
    ensures Filled(d, d1, s, p + 1)
    ensures forall q :: Head(d0, q) ==> Head(d1, q)
  {
    forall q | s <= q < p + 1
      ensures Busy(d1, q)
    {
      assert q != p ==> Busy(d0, q);
    }
    forall q: Ptr | !(q.Page? && s <= q.p < p + 1)
      ensures SameWords(d, d1, q)
    {
      assert SameWords(d, d0, q);
    }
  }

  lemma ClearNone(d: Table, d1: Table, s: int, len: nat)
    requires Head(d, s) && d1 == SetSlab(d, Page(s), len)
    ensures Clearing(d, d1, s, len, s + 1)
    ensures forall q :: Head(d, q) ==> Head(d1, q)
  {
  }

  lemma ClearOne(d: Table, d0: Table, d1: Table, s: int, len: nat, p: int)
    requires Clearing(d, d0, s, len, p) && s < p && Head(d0, p) && d1 == ClearHeader(d0, Page(p))
    ensures Clearing(d, d1, s, len, p + 1)
    ensures forall q :: Head(d0, q) ==> Head(d1, q)
  {
    forall q | s < q < p + 1
      ensures Idle(d1, q)
    {
      assert q != p ==> Idle(d0, q);
    }
    forall q: Ptr | !(q.Page? && s <= q.p < p + 1)
      ensures SameWords(d, d1, q)
    {
      assert SameWords(d, d0, q);
    }
  }
}
