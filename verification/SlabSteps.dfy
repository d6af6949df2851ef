// The state of the whole pool after each kind of step, and what the step hands out or
// takes back.

module SlabSteps {
  import opened Ring
  import opened SlabRuns
  import opened SlabPages
  import opened SlabFree
  import opened MachineWords
  import opened SlabSlots
  import opened SlabLayouts
  import opened SlabChunks
  import opened SlabBlocks

  // What is handed out afterwards: `h` as well, or `h` no more.
  ghost predicate Gains(runs: seq<Run>, sts: seq<SizeClass>, runs': seq<Run>, sts': seq<SizeClass>, h: Holder) {
    && !Held(runs, sts, h)
    && forall x: Holder {:trigger Held(runs', sts', x)} :: Held(runs', sts', x) <==> Held(runs, sts, x) || x == h
  }

  ghost predicate Loses(runs: seq<Run>, sts: seq<SizeClass>, runs': seq<Run>, sts': seq<SizeClass>, h: Holder) {
    && Held(runs, sts, h)
    && forall x: Holder {:trigger Held(runs', sts', x)} :: Held(runs', sts', x) <==> Held(runs, sts, x) && x != h
  }

  lemma KeysSame(d: Table, d': Table, n: nat, slots: nat, runs: seq<Run>, runs': seq<Run>, list: seq<Ptr>,
                 list': seq<Ptr>)
    requires Laid(d, n, slots, runs, list) && Laid(d', n, slots, runs', list')
    ensures SameKeys(d, d') && d.slab.Keys == d.next.Keys == d.prev.Keys == d.tag.Keys
  {
    hide Chart, Listed, IsRing;
    assert forall x :: x in d.slab.Keys <==> x in d'.slab.Keys;
  }

  // -------- pages --------

  lemma PagesGained(g: Geo, d: Table, bm: Bitmaps, n: nat, runs: seq<Run>, list: seq<Ptr>, sts: seq<SizeClass>,
                    stats: seq<Stat>, d': Table, list': seq<Ptr>, a: seq<Run>, run: Run, b: seq<Run>, pages: nat)
    requires Sound(g, d, bm, n, runs, list, sts, stats) && runs == a + [run] + b && run.kind == FreeRun
    requires 0 < pages <= run.len && SlotsKept(d, d', Null)
    requires Laid(d', n, Slots(g), HandedOut(a, run, b, pages), list')
    requires Coalesced(HandedOut(a, run, b, pages)) && NoLimbo(HandedOut(a, run, b, pages))
    ensures Sound(g, d', bm, n, HandedOut(a, run, b, pages), list', sts, stats)
    ensures Gains(runs, sts, HandedOut(a, run, b, pages), sts, ByPages(Total(a), pages))
  {
    hide Laid, Coalesced, NoLimbo, SlotsOk, Holds, HandedOut, SlotsKept, Total, AllInhabited;
    var runs' := HandedOut(a, run, b, pages);
    KeysSame(d, d', n, Slots(g), runs, runs', list, list');
    SlotsFrame(g, d, d', bm, sts, stats, Null);
    forall p, r: Run | r.kind != FreeRun
      ensures Holds(0, runs', p, r) <==> Holds(0, runs, p, r) || (p == Total(a) && r == Run(pages, BusyRun))
    {
      HandedOutHolds(a, run, b, pages, p, r);
    }
    if Holds(0, runs, Total(a), Run(pages, BusyRun)) {
      HoldsMiddle(0, a, run, b, Total(a), run);
      ChartApart(d, n, Slots(g), runs, list, Total(a), run, Total(a), Run(pages, BusyRun));
    }
    HomesKept(runs, runs', sts);
    HeldPages(runs, runs', sts, ByPages(Total(a), pages), true);
  }

  lemma ChartApart(d: Table, n: nat, slots: nat, runs: seq<Run>, list: seq<Ptr>, p: int, r: Run, p': int, r': Run)
    requires Laid(d, n, slots, runs, list) && Holds(0, runs, p, r) && Holds(0, runs, p', r')
    ensures (p == p' && r == r') || p + r.len <= p' || p' + r'.len <= p
    ensures 0 < r.len && 0 < r'.len
  {
    hide Holds, Chart, WellFormed, Listed, IsRing, Describes;
    HoldsApart(d, n, 0, runs, n, p, r, p', r');
    HoldsDescribed(d, n, runs, p, r);
    HoldsDescribed(d, n, runs, p', r');
  }

  lemma HomesKept(runs: seq<Run>, runs': seq<Run>, sts: seq<SizeClass>)
    requires Homes(runs, sts)
    requires forall p :: Holds(0, runs', p, Run(1, SlotRun)) <==> Holds(0, runs, p, Run(1, SlotRun))
    ensures Homes(runs', sts)
  {
    hide Holds;
  }

  lemma HeldPages(runs: seq<Run>, runs': seq<Run>, sts: seq<SizeClass>, h: Holder, more: bool)
    requires h.ByPages? && (Held(runs, sts, h) <==> !more)
    requires forall p, len :: Holds(0, runs', p, Run(len, BusyRun)) <==>
                              if ByPages(p, len) == h then more else Holds(0, runs, p, Run(len, BusyRun))
    ensures if more then Gains(runs, sts, runs', sts, h) else Loses(runs, sts, runs', sts, h)
  {
    hide Holds;
    forall x: Holder
      ensures Held(runs', sts, x) <==> if x == h then more else Held(runs, sts, x)
    {
      assert x.ByPages? ==> x == ByPages(x.page, x.len);
    }
  }

  lemma PagesLost(g: Geo, d: Table, bm: Bitmaps, n: nat, runs: seq<Run>, list: seq<Ptr>, sts: seq<SizeClass>,
                  stats: seq<Stat>, d': Table, list': seq<Ptr>, a: seq<Run>, len: nat, b: seq<Run>)
    requires Sound(g, d, bm, n, runs, list, sts, stats) && runs == a + [Run(len, BusyRun)] + b
    requires Head(d, Total(a)) && d.next[Page(Total(a))] == Null && d.tag[Page(Total(a))] == SLAB_PAGE
    requires SlotsKept(Unlinked(d, Page(Total(a))), d', Page(Total(a)))
    requires Laid(d', n, Slots(g), Freed(a, len, b), list') && Coalesced(Freed(a, len, b)) && NoLimbo(Freed(a, len, b))
    ensures Sound(g, d', bm, n, Freed(a, len, b), list', sts, stats)
    ensures Loses(runs, sts, Freed(a, len, b), sts, ByPages(Total(a), len))
  {
    hide Laid, Coalesced, NoLimbo, SlotsOk, Holds, Freed, SlotsKept, Total, AllInhabited;
    var runs', x := Freed(a, len, b), Page(Total(a));
    KeysSame(d, d', n, Slots(g), runs, runs', list, list');
    FreshSeparate(g, d, bm, sts, stats, Total(a));
    SlotsFrame(g, d, d', bm, sts, stats, x);
    forall p, r: Run | r.kind != FreeRun
      ensures Holds(0, runs', p, r) <==> Holds(0, runs, p, r) && !(p == Total(a) && r == Run(len, BusyRun))
    {
      LaidFreedHolds(d, n, Slots(g), list, a, Run(len, BusyRun), b, p, r);
    }
    HoldsMiddle(0, a, Run(len, BusyRun), b, Total(a), Run(len, BusyRun));
    HomesKept(runs, runs', sts);
    HeldPages(runs, runs', sts, ByPages(Total(a), len), false);
  }

  lemma LaidFreedHolds(d: Table, n: nat, slots: nat, list: seq<Ptr>, a: seq<Run>, run: Run, b: seq<Run>, p: int, r: Run)
    requires Laid(d, n, slots, a + [run] + b, list) && run.kind != FreeRun && r.kind != FreeRun
    ensures Holds(0, Freed(a, run.len, b), p, r) <==> Holds(0, a + [run] + b, p, r) && !(p == Total(a) && r == run)
  {
    hide Holds, Freed, Chart, WellFormed, IsRing, Listed;
    FreedHolds(d, n, a, run, b, p, r);
  }

  // -------- chunks --------

  // A chunk size has changed within its own words and keeps its pages.
  lemma SlotStep(g: Geo, d: Table, bm: Bitmaps, n: nat, runs: seq<Run>, list: seq<Ptr>, sts: seq<SizeClass>,
                 stats: seq<Stat>, d': Table, bm': Bitmaps, k: nat, st': SizeClass, stat': Stat)
    requires Core(g, d, bm, n, runs, list, sts, stats) && k < |sts|
    requires SlotOk(g, d', bm', k, st', stat') && st'.pages == sts[k].pages
    requires Within(d, d', bm, bm', k, sts[k].pages)
    ensures Core(g, d', bm', n, runs, list, sts[k := st'], stats[k := stat'])
  {
    hide Laid, Coalesced, NoLimbo, Holds, Words, Lists, Counts, Within;
    assert SlotOk(g, d, bm, k, sts[k], stats[k]);
    SlotLaid(g, d, bm, d', bm', k, sts[k], stats[k], st', stat', n, Slots(g), runs, list);
    OwnSeparate(g, d, bm, sts, stats, k);
    OneSlot(g, d, bm, d', bm', sts, stats, k, sts[k].pages, st', stat');
    var sts' := sts[k := st'];
    forall p | Holds(0, runs, p, Run(1, SlotRun))
      ensures exists j :: 0 <= j < |sts'| && p in sts'[j].pages
    {
      var j :| 0 <= j < |sts| && p in sts[j].pages;
      assert p in sts'[j].pages;
    }
  }

  lemma ChunkGained(runs: seq<Run>, sts: seq<SizeClass>, k: nat, st': SizeClass, c: Chunk)
    requires k < |sts| && c !in sts[k].taken && st'.taken == sts[k].taken + {c} && st'.pages == sts[k].pages
    requires AllInhabited(sts)
    ensures Gains(runs, sts, runs, sts[k := st'], ByChunk(k, c)) && AllInhabited(sts[k := st'])
  {
    hide Holds;
    forall p | p in st'.pages
      ensures Lives(p, st'.taken)
    {
      assert Inhabited(sts[k]) && Lives(p, sts[k].taken);
      var i: nat :| Chunk(p, i) in sts[k].taken;
      assert Chunk(p, i) in st'.taken;
    }
  }

  lemma ChunkLost(runs: seq<Run>, sts: seq<SizeClass>, k: nat, st': SizeClass, c: Chunk)
    requires k < |sts| && c in sts[k].taken && st'.taken == sts[k].taken - {c}
    ensures Loses(runs, sts, runs, sts[k := st'], ByChunk(k, c))
  {
    hide Holds;
  }

  lemma StillInhabited(sts: seq<SizeClass>, k: nat, st': SizeClass, c: Chunk)
    requires k < |sts| && AllInhabited(sts) && st'.taken == sts[k].taken - {c} && st'.pages == sts[k].pages
    requires Lives(c.page, st'.taken)
    ensures AllInhabited(sts[k := st'])
  {
    forall p | p in st'.pages
      ensures Lives(p, st'.taken)
    {
      if p != c.page {
        assert Inhabited(sts[k]) && Lives(p, sts[k].taken);
        var i: nat :| Chunk(p, i) in sts[k].taken;
        assert Chunk(p, i) in st'.taken;
      }
    }
  }

  // -------- a page is installed --------

  lemma InstallStep(g: Geo, d: Table, bm: Bitmaps, n: nat, a: seq<Run>, b: seq<Run>, list: seq<Ptr>,
                    sts: seq<SizeClass>, stats: seq<Stat>, d': Table, bm': Bitmaps, k: nat, w: nat, st': SizeClass,
                    stat': Stat)
    requires Sound(g, d, bm, n, a + [Run(1, BusyRun)] + b, list, sts, stats) && k < |sts| && sts[k].list == []
    requires Head(d, Total(a)) && d.tag[Page(Total(a))] == SLAB_PAGE && Slot(k) in d.next
    requires d' == Install(d, Slot(k), Page(Total(a)), w, TypeOf(g, g.minShift + k))
    requires forall q :: q in bm && q != Total(a) ==> q in bm' && bm'[q] == bm[q]
    requires g.minShift + k < g.pageShift && Fresh(g, d', bm', Total(a), g.minShift + k)
    requires
      var sh, p := g.minShift + k, Total(a);
      && st' == SizeClass(sts[k].pages + {p}, sts[k].taken + {Chunk(p, Own(g, sh))}, [Page(p)])
      && stat' == Stat(stats[k].used + 1, stats[k].total + (Chunks(g, sh) - Own(g, sh)))
    ensures Sound(g, d', bm', n, a + [Run(1, SlotRun)] + b, list, sts[k := st'], stats[k := stat'])
    ensures !Held(a + [Run(1, BusyRun)] + b, sts, ByChunk(k, Chunk(Total(a), Own(g, g.minShift + k))))
    ensures FreeTotal(a + [Run(1, SlotRun)] + b) == FreeTotal(a + [Run(1, BusyRun)] + b)
  {
    hide Laid, Coalesced, NoLimbo, Holds, Words, Lists, Counts, Install, Own, Chunks, Total, Fresh, TypeOf, FreeTotal;
    var runs, runs', p := a + [Run(1, BusyRun)] + b, a + [Run(1, SlotRun)] + b, Total(a);
    InstallCoalesced(a, b);
    FreshSeparate(g, d, bm, sts, stats, p);
    assert SlotOk(g, d, bm, k, sts[k], stats[k]);
    InstallSlot(g, d, bm, d', bm', k, sts[k], stats[k], p, w);
    InstallLaid(d, k, w, TypeOf(g, g.minShift + k), n, Slots(g), list, a, b);
    OwnSeparate(g, d, bm, sts, stats, k);
    OneSlot(g, d, bm, d', bm', sts, stats, k, sts[k].pages + {p}, st', stat');
    InstallHomes(d, n, Slots(g), list, a, b, sts, k, st');
    InstallInhabited(sts, k, st', p, Own(g, g.minShift + k));
  }

  lemma InstallCoalesced(a: seq<Run>, b: seq<Run>)
    requires Coalesced(a + [Run(1, BusyRun)] + b)
    ensures Coalesced(a + [Run(1, SlotRun)] + b)
  {
    var runs, runs' := a + [Run(1, BusyRun)] + b, a + [Run(1, SlotRun)] + b;
    forall i | 0 <= i < |runs'| - 1
      ensures !(runs'[i].kind == FreeRun && runs'[i + 1].kind == FreeRun)
    {
      assert i != |a| ==> runs'[i] == runs[i];
      assert i + 1 != |a| ==> runs'[i + 1] == runs[i + 1];
    }
  }

  lemma InstallHomes(d: Table, n: nat, slots: nat, list: seq<Ptr>, a: seq<Run>, b: seq<Run>, sts: seq<SizeClass>,
                     k: nat, st': SizeClass)
    requires Laid(d, n, slots, a + [Run(1, BusyRun)] + b, list)
    requires Homes(a + [Run(1, BusyRun)] + b, sts) && k < |sts| && st'.pages == sts[k].pages + {Total(a) as int}
    ensures Homes(a + [Run(1, SlotRun)] + b, sts[k := st'])
  {
    hide Holds, Total, Chart, WellFormed, Listed, IsRing;
    var runs, runs', sts' := a + [Run(1, BusyRun)] + b, a + [Run(1, SlotRun)] + b, sts[k := st'];
    forall p
      ensures Holds(0, runs', p, Run(1, SlotRun)) <==> Holds(0, runs, p, Run(1, SlotRun)) || p == Total(a)
    {
      InstalledHolds(a, b, p, Run(1, SlotRun), d, n);
    }
    forall p | Holds(0, runs', p, Run(1, SlotRun))
      ensures exists j :: 0 <= j < |sts'| && p in sts'[j].pages
    {
      if p == Total(a) {
        assert p in sts'[k].pages;
      } else {
        var j :| 0 <= j < |sts| && p in sts[j].pages;
        assert p in sts'[j].pages;
      }
    }
  }

  lemma InstallInhabited(sts: seq<SizeClass>, k: nat, st': SizeClass, p: int, i: nat)
    requires k < |sts| && AllInhabited(sts)
    requires st'.pages == sts[k].pages + {p} && st'.taken == sts[k].taken + {Chunk(p, i)}
    ensures AllInhabited(sts[k := st'])
  {
    forall q | q in st'.pages
      ensures Lives(q, st'.taken)
    {
      if q == p {
        assert Chunk(p, i) in st'.taken;
      } else {
        assert Inhabited(sts[k]) && Lives(q, sts[k].taken);
        var j: nat :| Chunk(q, j) in sts[k].taken;
        assert Chunk(q, j) in st'.taken;
      }
    }
  }

  // Taking a page and installing it hands out just the one chunk.
  lemma InstallGains(d: Table, n: nat, slots: nat, list: seq<Ptr>, runs0: seq<Run>, a: seq<Run>, b: seq<Run>,
                     sts: seq<SizeClass>, k: nat, st': SizeClass, c: Chunk)
    requires Laid(d, n, slots, a + [Run(1, BusyRun)] + b, list) && k < |sts|
    requires Gains(runs0, sts, a + [Run(1, BusyRun)] + b, sts, ByPages(Total(a), 1))
    requires c !in sts[k].taken && st'.taken == sts[k].taken + {c}
    ensures Gains(runs0, sts, a + [Run(1, SlotRun)] + b, sts[k := st'], ByChunk(k, c))
  {
    hide Holds, Total, Chart, WellFormed, Listed, IsRing;
    var runs, runs', sts' := a + [Run(1, BusyRun)] + b, a + [Run(1, SlotRun)] + b, sts[k := st'];
    forall x: Holder
      ensures Held(runs', sts', x) <==> Held(runs0, sts, x) || x == ByChunk(k, c)
    {
      if x.ByPages? {
        InstalledHolds(a, b, x.page, Run(x.len, BusyRun), d, n);
        assert Held(runs, sts, x) <==> Held(runs0, sts, x) || x == ByPages(Total(a), 1);
      } else {
        assert Held(runs, sts, x) <==> Held(runs0, sts, x) || x == ByPages(Total(a), 1);
      }
    }
  }

  // -------- a page is evicted --------

  lemma EvictStep(g: Geo, d: Table, bm: Bitmaps, n: nat, a: seq<Run>, b: seq<Run>, list: seq<Ptr>, sts: seq<SizeClass>,
                  stats: seq<Stat>, d': Table, list': seq<Ptr>, k: nat, i: nat, st': SizeClass, stat': Stat)
    requires Core(g, d, bm, n, a + [Run(1, SlotRun)] + b, list, sts, stats) && k < |sts|
    requires (Total(a) as int) in sts[k].pages && !Lives(Total(a), sts[k].taken)
    requires i < |sts[k].list| && sts[k].list[i] == Page(Total(a))
    requires SlotsKept(Unlinked(d, Page(Total(a))), d', Page(Total(a)))
    requires Laid(d', n, Slots(g), Freed(a, 1, b), list') && Coalesced(Freed(a, 1, b)) && NoLimbo(Freed(a, 1, b))
    requires g.minShift + k < g.pageShift
             && st' == SizeClass(sts[k].pages - {Total(a) as int}, sts[k].taken, Without(sts[k].list, i))
    requires stat' == stats[k].(total := stats[k].total - (Chunks(g, g.minShift + k) - Own(g, g.minShift + k)))
    ensures Core(g, d', bm, n, Freed(a, 1, b), list', sts[k := st'], stats[k := stat'])
  {
    hide Laid, Coalesced, NoLimbo, Holds, Words, Lists, Counts, Own, Chunks, Total, Freed, SlotsKept, Unlinked,
         Without, Lives;
    var runs, p := a + [Run(1, SlotRun)] + b, Total(a);
    var u := Unlinked(d, Page(p));
    var sts' := sts[k := st'];
    assert SlotOk(g, d, bm, k, sts[k], stats[k]);
    KeysSame(d, d', n, Slots(g), runs, Freed(a, 1, b), list, list');
    EvictSlot(g, d, bm, k, sts[k], stats[k], p, i);
    OwnSeparate(g, d, bm, sts, stats, k);
    OneSlot(g, d, bm, u, bm, sts, stats, k, sts[k].pages, st', stat');
    assert forall j :: 0 <= j < |sts'| ==> p !in sts'[j].pages;
    SlotsFrame(g, u, d', bm, sts', stats[k := stat'], Page(p));
    EvictHomes(d, n, Slots(g), list, a, b, sts, k, st');
  }

  lemma EvictHomes(d: Table, n: nat, slots: nat, list: seq<Ptr>, a: seq<Run>, b: seq<Run>, sts: seq<SizeClass>,
                   k: nat, st': SizeClass)
    requires Laid(d, n, slots, a + [Run(1, SlotRun)] + b, list)
    requires Homes(a + [Run(1, SlotRun)] + b, sts) && k < |sts| && st'.pages == sts[k].pages - {Total(a) as int}
    requires forall j :: 0 <= j < |sts| && j != k ==> (Total(a) as int) !in sts[j].pages
    ensures Homes(Freed(a, 1, b), sts[k := st'])
  {
    hide Holds, Total, Laid, Freed;
    var runs, runs', sts' := a + [Run(1, SlotRun)] + b, Freed(a, 1, b), sts[k := st'];
    forall p
      ensures Holds(0, runs', p, Run(1, SlotRun)) <==> Holds(0, runs, p, Run(1, SlotRun)) && p != Total(a)
    {
      LaidFreedHolds(d, n, slots, list, a, Run(1, SlotRun), b, p, Run(1, SlotRun));
    }
    forall p | Holds(0, runs', p, Run(1, SlotRun))
      ensures exists j :: 0 <= j < |sts'| && p in sts'[j].pages
    {
      var j :| 0 <= j < |sts| && p in sts[j].pages;
      assert p in sts'[j].pages;
    }
  }

  lemma EvictInhabited(sts: seq<SizeClass>, k: nat, st': SizeClass, c: Chunk)
    requires k < |sts| && AllInhabited(sts)
    requires st'.pages == sts[k].pages - {c.page} && st'.taken == sts[k].taken - {c}
    ensures AllInhabited(sts[k := st'])
  {
    forall p | p in st'.pages
      ensures Lives(p, st'.taken)
    {
      assert Inhabited(sts[k]) && Lives(p, sts[k].taken);
      var i: nat :| Chunk(p, i) in sts[k].taken;
      assert Chunk(p, i) in st'.taken;
    }
  }

  lemma EvictLoses(d: Table, n: nat, slots: nat, list: seq<Ptr>, a: seq<Run>, b: seq<Run>, sts: seq<SizeClass>,
                   k: nat, st': SizeClass, c: Chunk)
    requires Laid(d, n, slots, a + [Run(1, SlotRun)] + b, list) && k < |sts|
    requires c in sts[k].taken && st'.taken == sts[k].taken - {c}
    ensures Loses(a + [Run(1, SlotRun)] + b, sts, Freed(a, 1, b), sts[k := st'], ByChunk(k, c))
  {
    hide Holds, Total, Laid, Freed;
    var runs, runs', sts' := a + [Run(1, SlotRun)] + b, Freed(a, 1, b), sts[k := st'];
    forall x: Holder
      ensures Held(runs', sts', x) <==> Held(runs, sts, x) && x != ByChunk(k, c)
    {
      if x.ByPages? {
        LaidFreedHolds(d, n, slots, list, a, Run(1, SlotRun), b, x.page, Run(x.len, BusyRun));
      }
    }
  }

  // -------- what the methods need to know --------

  lemma HandedOutForm(a: seq<Run>, run: Run, b: seq<Run>, pages: nat) returns (b': seq<Run>)
    requires 0 < pages <= run.len
    ensures HandedOut(a, run, b, pages) == a + [Run(pages, BusyRun)] + b'
  {
    b' := if pages == run.len then b else [Run(run.len - pages, FreeRun)] + b;
    assert pages != run.len ==>
      a + [Run(pages, BusyRun), Run(run.len - pages, FreeRun)] + b == a + [Run(pages, BusyRun)] + b';
  }

  lemma BusyHead(d: Table, n: nat, slots: nat, runs: seq<Run>, list: seq<Ptr>, a: seq<Run>, len: nat, b: seq<Run>)
    requires runs == a + [Run(len, BusyRun)] + b && Laid(d, n, slots, runs, list)
    ensures Head(d, Total(a)) && d.tag[Page(Total(a))] == SLAB_PAGE && d.next[Page(Total(a))] == Null
    ensures d.slab[Page(Total(a))] == len + PAGE_START
  {
    hide IsRing, Listed, Heads, FreeTotal, Total, Chart, WellFormed;
    RunFacts(d, n, slots, runs, list, a, Run(len, BusyRun), b);
  }

  lemma NoFreeRun(d: Table, n: nat, slots: nat, runs: seq<Run>, list: seq<Ptr>)
    requires Laid(d, n, slots, runs, list)
    requires forall x :: x in runs && x.kind == FreeRun ==> x.len < 1
    ensures forall x :: x in runs ==> x.kind != FreeRun
  {
    hide IsRing, Listed, Heads, Chart, WellFormed, Describes;
    forall x | x in runs
      ensures x.kind != FreeRun
    {
      var i :| 0 <= i < |runs| && runs[i] == x;
      assert runs == runs[..i] + [x] + runs[i + 1..];
      ChartMiddle(d, n, 0, runs[..i], x, runs[i + 1..], n);
    }
  }

  // The list of a chunk size, as its head shows it.
  lemma SlotHead(g: Geo, d: Table, bm: Bitmaps, n: nat, runs: seq<Run>, list: seq<Ptr>, sts: seq<SizeClass>,
                 stats: seq<Stat>, k: nat)
    requires Core(g, d, bm, n, runs, list, sts, stats) && k < |sts|
    ensures |sts| == |stats| == Slots(g) && Slot(k) in d.next && d.next[Slot(k)] in d.next
    ensures d.next[d.next[Slot(k)]] == d.next[Slot(k)] <==> sts[k].list == []
    ensures sts[k].list != [] ==> d.next[Slot(k)] == sts[k].list[0]
  {
    hide Laid, Coalesced, NoLimbo, Homes, Words, Counts, Full;
    assert SlotOk(g, d, bm, k, sts[k], stats[k]);
    var list := sts[k].list;
    LinkAt(d.next, d.prev, Slot(k), list, 0);
    if list != [] {
      assert list[0] in list;
      LinkAt(d.next, d.prev, Slot(k), list, 1);
      NthDistinct(Slot(k), list, 1, 2);
    }
  }

  // -------- sizes --------

  // The pages a request for `size` bytes takes when it is not served by chunks.
  function PagesFor(g: Geo, size: nat): nat {
    if size <= PageSize(g) / 2 then 1
    else High(size, g.pageShift) + (if Low(size, g.pageShift) != 0 then 1 else 0)
  }

  // Chunk size k is the smallest that holds `size` bytes.
  ghost predicate Serves(g: Geo, k: nat, size: nat) {
    size <= Pow2(g.minShift + k) && (k > 0 ==> Pow2(g.minShift + k - 1) < size)
  }

  lemma PagesEnough(g: Geo, size: nat)
    requires size > PageSize(g) / 2 && 1 <= g.pageShift
    ensures 0 < PagesFor(g, size) && size <= PagesFor(g, size) * PageSize(g)
    ensures (PagesFor(g, size) - 1) * PageSize(g) < size
  {
    hide High, Low;
    var q, r := High(size, g.pageShift), Low(size, g.pageShift);
    Whole(size, g.pageShift);
    Distribute(q, 1, PageSize(g));
    Distribute(q, -1, PageSize(g));
    if q == 0 {
      assert size == r;
    }
  }

  lemma ServesSize(g: Geo, size: nat, shift: nat)
    requires 1 <= g.pageShift && Pow2(g.minShift) < size <= PageSize(g) / 2
    requires 0 < shift && Pow2(shift - 1) < size <= Pow2(shift)
    ensures g.minShift < shift < g.pageShift && Serves(g, shift - g.minShift, size)
  {
    assert PageSize(g) == 2 * Pow2(g.pageShift - 1);
    if shift >= g.pageShift {
      PowMonotone(g.pageShift - 1, shift - 1);
    }
    if shift <= g.minShift {
      PowMonotone(shift, g.minShift);
    }
  }

  lemma BlockSize(g: Geo, h: Holder)
    ensures BlockOf(g, h).bytes == if h.ByChunk? then Pow2(g.minShift + h.k) else h.len * PageSize(g)
  {
  }

  // No block is at address 0.
  lemma BlockPositive(g: Geo, d: Table, bm: Bitmaps, n: nat, runs: seq<Run>, list: seq<Ptr>, sts: seq<SizeClass>,
                      stats: seq<Stat>, h: Holder)
    requires Sound(g, d, bm, n, runs, list, sts, stats) && Held(runs, sts, h)
    ensures 0 < BlockOf(g, h).addr
  {
    hide Laid, Coalesced, NoLimbo, SlotsOk, Homes, BlockOf;
    BlockPlaced(g, d, bm, n, runs, list, sts, stats, h);
  }

  lemma GainsHeld(runs: seq<Run>, sts: seq<SizeClass>, runs': seq<Run>, sts': seq<SizeClass>, h: Holder)
    requires Gains(runs, sts, runs', sts', h)
    ensures Held(runs', sts', h)
  {
    hide Held;
  }

  lemma LosesHeld(runs: seq<Run>, sts: seq<SizeClass>, runs': seq<Run>, sts': seq<SizeClass>, h: Holder)
    requires Loses(runs, sts, runs', sts', h)
    ensures Held(runs, sts, h)
  {
    hide Held;
  }

  lemma HomeAt(runs: seq<Run>, sts: seq<SizeClass>, k: nat, p: int) returns (a: seq<Run>, b: seq<Run>)
    requires Homes(runs, sts) && k < |sts| && p in sts[k].pages
    ensures runs == a + [Run(1, SlotRun)] + b && p == Total(a)
  {
    hide Holds;
    a, b := HoldsFind(0, runs, p, Run(1, SlotRun));
  }
}
