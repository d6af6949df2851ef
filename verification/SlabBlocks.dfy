// The blocks of memory that are handed out, and why they never overlap.

module SlabBlocks {
  import opened Ring
  import opened SlabRuns
  import opened SlabPages
  import opened SlabFree
  import opened MachineWords
  import opened SlabSlots
  import opened SlabChunks

  // -------- where the runs are --------

  // Run `r` starts at page p.
  ghost predicate Holds(s: nat, runs: seq<Run>, p: int, r: Run)
    decreases |runs|
  {
    |runs| > 0 && ((p == s && r == runs[0]) || Holds(s + runs[0].len, runs[1..], p, r))
  }

  lemma {:induction false} HoldsAppend(s: nat, a: seq<Run>, b: seq<Run>, p: int, r: Run)
    ensures Holds(s, a + b, p, r) <==> Holds(s, a, p, r) || Holds(s + Total(a), b, p, r)
    decreases |a|
  {
    if |a| == 0 {
      assert a + b == b;
    } else {
      assert (a + b)[1..] == a[1..] + b;
      HoldsAppend(s + a[0].len, a[1..], b, p, r);
    }
  }

  lemma HoldsMiddle(s: nat, a: seq<Run>, m: Run, b: seq<Run>, p: int, r: Run)
    ensures Holds(s, a + [m] + b, p, r) <==>
            Holds(s, a, p, r) || (p == s + Total(a) && r == m) || Holds(s + Total(a) + m.len, b, p, r)
  {
    assert a + [m] + b == a + ([m] + b);
    HoldsAppend(s, a, [m] + b, p, r);
    assert ([m] + b)[1..] == b;
  }

  lemma {:induction false} HoldsFind(s: nat, runs: seq<Run>, p: int, r: Run) returns (a: seq<Run>, b: seq<Run>)
    requires Holds(s, runs, p, r)
    ensures runs == a + [r] + b && p == s + Total(a)
    decreases |runs|
  {
    if p == s && r == runs[0] {
      a, b := [], runs[1..];
    } else {
      a, b := HoldsFind(s + runs[0].len, runs[1..], p, r);
      var a' := [runs[0]] + a;
      assert a'[1..] == a;
      a := a';
    }
  }

  lemma HoldsDescribed(d: Table, n: nat, runs: seq<Run>, p: int, r: Run)
    requires Chart(d, n, 0, runs, n) && Holds(0, runs, p, r)
    ensures 0 <= p && p + r.len <= n && 0 < r.len && Describes(d, n, p, r)
  {
    hide Chart, Describes, Holds;
    var a, b := HoldsFind(0, runs, p, r);
    ChartMiddle(d, n, 0, a, r, b, n);
    HeadsRange(d, n, Total(a) + r.len, b, n);
  }

  lemma {:induction false} HoldsAfter(d: Table, n: nat, s: nat, runs: seq<Run>, e: nat, p: int, r: Run)
    requires Chart(d, n, s, runs, e) && Holds(s, runs, p, r)
    ensures s <= p && p + r.len <= e && 0 < r.len
    decreases |runs|
  {
    if p == s && r == runs[0] {
      HeadsRange(d, n, s + runs[0].len, runs[1..], e);
    } else {
      HoldsAfter(d, n, s + runs[0].len, runs[1..], e, p, r);
    }
  }

  lemma {:induction false} HoldsApart(d: Table, n: nat, s: nat, runs: seq<Run>, e: nat, p: int, r: Run, p': int,
                                      r': Run)
    requires Chart(d, n, s, runs, e) && Holds(s, runs, p, r) && Holds(s, runs, p', r')
    ensures (p == p' && r == r') || p + r.len <= p' || p' + r'.len <= p
    decreases |runs|
  {
    var m, rest := s + runs[0].len, runs[1..];
    if Holds(m, rest, p, r) {
      HoldsAfter(d, n, m, rest, e, p, r);
    }
    if Holds(m, rest, p', r') {
      HoldsAfter(d, n, m, rest, e, p', r');
    }
    if Holds(m, rest, p, r) && Holds(m, rest, p', r') {
      HoldsApart(d, n, m, rest, e, p, r, p', r');
    }
  }

  lemma HandedOutHolds(a: seq<Run>, run: Run, b: seq<Run>, pages: nat, p: int, r: Run)
    requires 0 < pages <= run.len && run.kind == FreeRun && r.kind != FreeRun
    ensures Holds(0, HandedOut(a, run, b, pages), p, r) <==>
            Holds(0, a + [run] + b, p, r) || (p == Total(a) && r == Run(pages, BusyRun))
  {
    hide Holds;
    var r1, r2 := Run(pages, BusyRun), Run(run.len - pages, FreeRun);
    HoldsMiddle(0, a, run, b, p, r);
    if pages == run.len {
      HoldsMiddle(0, a, r1, b, p, r);
    } else {
      assert a + [r1, r2] + b == a + [r1] + ([r2] + b);
      HoldsMiddle(0, a, r1, [r2] + b, p, r);
      assert [r2] + b == [] + [r2] + b;
      HoldsMiddle(Total(a) + pages, [], r2, b, p, r);
      HoldsNone(Total(a) + pages, p, r);
    }
  }

  lemma HoldsNone(s: nat, p: int, r: Run)
    ensures !Holds(s, [], p, r) && Total([]) == 0
  {
  }

  // Of the runs that are not free only the one given back goes.
  lemma FreedHolds(d: Table, n: nat, a: seq<Run>, run: Run, b: seq<Run>, p: int, r: Run)
    requires Chart(d, n, 0, a + [run] + b, n) && run.kind != FreeRun && r.kind != FreeRun
    ensures Holds(0, Freed(a, run.len, b), p, r) <==> Holds(0, a + [run] + b, p, r) && !(p == Total(a) && r == run)
  {
    hide Holds, Chart, Total, Describes;
    var a', below := if FreeBelow(a) then a[..|a| - 1] else a, if FreeBelow(a) then a[|a| - 1].len else 0;
    var b', above := if FreeAbove(b) then b[1..] else b, if FreeAbove(b) then b[0].len else 0;
    var s, e := Total(a), Total(a) + run.len;
    ChartMiddle(d, n, 0, a, run, b, n);
    HoldsMiddle(0, a, run, b, p, r);
    HoldsMiddle(0, a', Run(below + run.len + above, FreeRun), b', p, r);
    assert Total(a') + below == s && (Holds(0, a', p, r) <==> Holds(0, a, p, r)) by {
      if FreeBelow(a) {
        TotalSnoc(a);
        assert a == a' + [a[|a| - 1]] + [];
        HoldsMiddle(0, a', a[|a| - 1], [], p, r);
        HoldsNone(s, p, r);
      }
    }
    assert Holds(e + above, b', p, r) <==> Holds(e, b, p, r) by {
      if FreeAbove(b) {
        assert b == [] + [b[0]] + b';
        HoldsMiddle(e, [], b[0], b', p, r);
        HoldsNone(e, p, r);
      }
    }
    if Holds(0, a, p, r) {
      HoldsAfter(d, n, 0, a, s, p, r);
    }
    if Holds(e, b, p, r) {
      HoldsAfter(d, n, e, b, n, p, r);
    }
  }

  lemma InstalledHolds(a: seq<Run>, b: seq<Run>, p: int, r: Run, d: Table, n: nat)
    requires Chart(d, n, 0, a + [Run(1, BusyRun)] + b, n)
    ensures Holds(0, a + [Run(1, SlotRun)] + b, p, r) <==>
            (Holds(0, a + [Run(1, BusyRun)] + b, p, r) && !(p == Total(a) && r == Run(1, BusyRun)))
            || (p == Total(a) && r == Run(1, SlotRun))
  {
    hide Holds, Chart, Total, Describes;
    ChartMiddle(d, n, 0, a, Run(1, BusyRun), b, n);
    HoldsMiddle(0, a, Run(1, BusyRun), b, p, r);
    HoldsMiddle(0, a, Run(1, SlotRun), b, p, r);
    if Holds(0, a, p, r) {
      HoldsAfter(d, n, 0, a, Total(a), p, r);
    }
    if Holds(Total(a) + 1, b, p, r) {
      HoldsAfter(d, n, Total(a) + 1, b, n, p, r);
    }
  }

  // -------- what is handed out --------

  datatype Holder = ByChunk(k: nat, chunk: Chunk) | ByPages(page: int, len: nat)

  datatype Block = Block(addr: int, bytes: nat)

  ghost predicate Held(runs: seq<Run>, sts: seq<SizeClass>, h: Holder) {
    match h
    case ByChunk(k, c) => k < |sts| && c in sts[k].taken
    case ByPages(p, len) => Holds(0, runs, p, Run(len, BusyRun))
  }

  ghost predicate NoneHeld(runs: seq<Run>, sts: seq<SizeClass>) {
    forall h :: !Held(runs, sts, h)
  }

  function PageAddr(g: Geo, p: int): int {
    g.start + p * PageSize(g)
  }

  function BlockOf(g: Geo, h: Holder): Block {
    match h
    case ByChunk(k, c) => Block(PageAddr(g, c.page) + c.index * Pow2(g.minShift + k), Pow2(g.minShift + k))
    case ByPages(p, len) => Block(PageAddr(g, p), len * PageSize(g))
  }

  // The pages of the chunk sizes are the slot pages of the page array.
  ghost predicate Homes(runs: seq<Run>, sts: seq<SizeClass>) {
    && (forall k, p :: 0 <= k < |sts| && p in sts[k].pages ==> Holds(0, runs, p, Run(1, SlotRun)))
    && (forall p :: Holds(0, runs, p, Run(1, SlotRun)) ==> exists k :: 0 <= k < |sts| && p in sts[k].pages)
  }

  ghost predicate AllInhabited(sts: seq<SizeClass>) {
    forall k :: 0 <= k < |sts| ==> Inhabited(sts[k])
  }

  // The state of the pool, but that a page may be without a chunk handed out.
  ghost predicate Core(g: Geo, d: Table, bm: Bitmaps, n: nat, runs: seq<Run>, list: seq<Ptr>,
                       sts: seq<SizeClass>, stats: seq<Stat>) {
    && Sane(g, n) && Laid(d, n, Slots(g), runs, list) && Coalesced(runs) && NoLimbo(runs)
    && SlotsOk(g, d, bm, sts, stats) && Homes(runs, sts)
  }

  ghost predicate Sound(g: Geo, d: Table, bm: Bitmaps, n: nat, runs: seq<Run>, list: seq<Ptr>,
                        sts: seq<SizeClass>, stats: seq<Stat>) {
    Core(g, d, bm, n, runs, list, sts, stats) && AllInhabited(sts)
  }

  // The pages a block lies in, and where the block is in them.
  ghost function PageOf(h: Holder): int {
    if h.ByChunk? then h.chunk.page else h.page
  }

  ghost function LenOf(h: Holder): nat {
    if h.ByChunk? then 1 else h.len
  }

  lemma HolderPages(g: Geo, d: Table, bm: Bitmaps, n: nat, runs: seq<Run>, list: seq<Ptr>, sts: seq<SizeClass>,
                    stats: seq<Stat>, h: Holder)
    requires Sound(g, d, bm, n, runs, list, sts, stats) && Held(runs, sts, h)
    ensures Holds(0, runs, PageOf(h), Run(LenOf(h), if h.ByChunk? then SlotRun else BusyRun))
    ensures h.ByChunk? ==> h.k < Slots(g) && h.chunk.page in sts[h.k].pages
                           && Own(g, g.minShift + h.k) <= h.chunk.index < Chunks(g, g.minShift + h.k)
  {
    hide Laid, Coalesced, NoLimbo, Holds, Own, Chunks, Words, Lists;
    if h.ByChunk? {
      assert SlotOk(g, d, bm, h.k, sts[h.k], stats[h.k]);
    }
  }

  lemma BlockInPages(g: Geo, h: Holder)
    requires 6 <= g.pageShift
    requires h.ByChunk? ==> g.minShift + h.k < g.pageShift && h.chunk.index < Chunks(g, g.minShift + h.k)
    requires h.ByPages? ==> 0 < h.len
    ensures
      var b := BlockOf(g, h);
      PageAddr(g, PageOf(h)) <= b.addr && b.addr + b.bytes <= PageAddr(g, PageOf(h) + LenOf(h)) && 0 < b.bytes
  {
    hide Pow2, Chunks;
    var size, p, len := PageSize(g), PageOf(h), LenOf(h);
    if h.ByChunk? {
      var sh := g.minShift + h.k;
      ChunkCount(g, sh);
      MulMonotone(h.chunk.index + 1, Chunks(g, sh), Pow2(sh));
      Distribute(h.chunk.index, 1, Pow2(sh));
    } else {
      MulMonotone(1, h.len, size);
    }
    Distribute(p, len, size);
  }

  lemma Distribute(a: int, b: int, c: int)
    ensures (a + b) * c == a * c + b * c
  {
  }

  lemma PagesInOrder(g: Geo, p: int, q: int)
    requires p <= q
    ensures PageAddr(g, p) <= PageAddr(g, q)
  {
    MulMonotone(0, q - p, PageSize(g));
    assert q * PageSize(g) == p * PageSize(g) + (q - p) * PageSize(g);
  }

  ghost predicate Disjoint(b: Block, c: Block) {
    b.addr + b.bytes <= c.addr || c.addr + c.bytes <= b.addr
  }

  // Two blocks that are handed out at the same time never overlap.
  lemma BlocksDisjoint(g: Geo, d: Table, bm: Bitmaps, n: nat, runs: seq<Run>, list: seq<Ptr>, sts: seq<SizeClass>,
                       stats: seq<Stat>, h: Holder, h': Holder)
    requires Sound(g, d, bm, n, runs, list, sts, stats)
    requires Held(runs, sts, h) && Held(runs, sts, h') && h != h'
    ensures Disjoint(BlockOf(g, h), BlockOf(g, h'))
  {
    hide Holds, Chart, Coalesced, NoLimbo, Describes, Own, Chunks, SlotsOk, WellFormed, Listed, Homes, BlockOf, Pow2;
    HolderPages(g, d, bm, n, runs, list, sts, stats, h);
    HolderPages(g, d, bm, n, runs, list, sts, stats, h');
    HoldsDescribed(d, n, runs, PageOf(h), Run(LenOf(h), if h.ByChunk? then SlotRun else BusyRun));
    HoldsDescribed(d, n, runs, PageOf(h'), Run(LenOf(h'), if h'.ByChunk? then SlotRun else BusyRun));
    HoldsApart(d, n, 0, runs, n, PageOf(h), Run(LenOf(h), if h.ByChunk? then SlotRun else BusyRun),
               PageOf(h'), Run(LenOf(h'), if h'.ByChunk? then SlotRun else BusyRun));
    BlockInPages(g, h);
    BlockInPages(g, h');
    if PageOf(h) + LenOf(h) <= PageOf(h') {
      PagesInOrder(g, PageOf(h) + LenOf(h), PageOf(h'));
    } else if PageOf(h') + LenOf(h') <= PageOf(h) {
      PagesInOrder(g, PageOf(h') + LenOf(h'), PageOf(h));
    } else {
      SamePage(g, d, bm, sts, stats, h, h');
    }
  }

  lemma SamePage(g: Geo, d: Table, bm: Bitmaps, sts: seq<SizeClass>, stats: seq<Stat>, h: Holder, h': Holder)
    requires 6 <= g.pageShift && g.minShift < g.pageShift && SlotsOk(g, d, bm, sts, stats)
    requires h.ByChunk? && h'.ByChunk? && h != h' && h.k < |sts| && h'.k < |sts| && h.chunk.page == h'.chunk.page
    requires h.chunk.page in sts[h.k].pages && h'.chunk.page in sts[h'.k].pages
    ensures Disjoint(BlockOf(g, h), BlockOf(g, h'))
  {
    hide Own, Chunks, Words, Lists, Counts;
    assert SlotOk(g, d, bm, h.k, sts[h.k], stats[h.k]) && SlotOk(g, d, bm, h'.k, sts[h'.k], stats[h'.k]);
    PagesApart(g, d, bm, h.k, h'.k, sts[h.k], sts[h'.k], h.chunk.page);
    var i, j, size := h.chunk.index, h'.chunk.index, Pow2(g.minShift + h.k);
    if i < j {
      MulMonotone(i + 1, j, size);
    } else {
      MulMonotone(j + 1, i, size);
    }
  }

  // Every block lies in the page area, at a multiple of its chunk size or of the page size,
  // and never in the bitmap at the start of a page of small chunks.
  lemma BlockPlaced(g: Geo, d: Table, bm: Bitmaps, n: nat, runs: seq<Run>, list: seq<Ptr>, sts: seq<SizeClass>,
                    stats: seq<Stat>, h: Holder)
    requires Sound(g, d, bm, n, runs, list, sts, stats) && Held(runs, sts, h)
    ensures
      var b := BlockOf(g, h);
      && g.start <= b.addr && b.addr + b.bytes <= PageAddr(g, n) && 0 < b.bytes
      && Low(b.addr, if h.ByChunk? then g.minShift + h.k else g.pageShift) == 0
      && (forall k, p :: 0 <= k < |sts| && p in sts[k].pages && g.minShift + k < ExactShift(g) ==>
            Disjoint(b, Block(PageAddr(g, p), Chunks(g, g.minShift + k) / 8)))
  {
    hide Holds, Chart, Coalesced, NoLimbo, Describes, Own, Chunks, SlotsOk, WellFormed, Listed, BlockOf, Pow2;
    var kind := if h.ByChunk? then SlotRun else BusyRun;
    HolderPages(g, d, bm, n, runs, list, sts, stats, h);
    HoldsDescribed(d, n, runs, PageOf(h), Run(LenOf(h), kind));
    BlockInPages(g, h);
    BlockAligned(g, n, h);
    PagesInOrder(g, 0, PageOf(h));
    PagesInOrder(g, PageOf(h) + LenOf(h), n);
    assert |sts| == Slots(g) by {
      SlotCount(g, d, bm, sts, stats);
    }
    forall k, p | 0 <= k < |sts| && p in sts[k].pages && g.minShift + k < ExactShift(g)
      ensures Disjoint(BlockOf(g, h), Block(PageAddr(g, p), Chunks(g, g.minShift + k) / 8))
    {
      BitmapInPage(g, g.minShift + k, p);
      HoldsApart(d, n, 0, runs, n, PageOf(h), Run(LenOf(h), kind), p, Run(1, SlotRun));
      if PageOf(h) + LenOf(h) <= p {
        PagesInOrder(g, PageOf(h) + LenOf(h), p);
      } else if p + 1 <= PageOf(h) {
        PagesInOrder(g, p + 1, PageOf(h));
      } else {
        AfterBitmap(g, d, bm, sts, stats, h, k);
      }
    }
  }

  lemma SlotCount(g: Geo, d: Table, bm: Bitmaps, sts: seq<SizeClass>, stats: seq<Stat>)
    requires 6 <= g.pageShift && g.minShift < g.pageShift && SlotsOk(g, d, bm, sts, stats)
    ensures |sts| == |stats| == Slots(g)
  {
  }

  lemma BitmapInPage(g: Geo, sh: nat, p: int)
    requires 6 <= g.pageShift && sh < ExactShift(g)
    ensures PageAddr(g, p) + Chunks(g, sh) / 8 <= PageAddr(g, p + 1)
  {
    ChunkCount(g, sh);
    MulMonotone(1, Pow2(sh), Chunks(g, sh));
    assert PageAddr(g, p + 1) == PageAddr(g, p) + PageSize(g);
  }

  lemma AfterBitmap(g: Geo, d: Table, bm: Bitmaps, sts: seq<SizeClass>, stats: seq<Stat>, h: Holder, k: nat)
    requires 6 <= g.pageShift && g.minShift < g.pageShift && SlotsOk(g, d, bm, sts, stats)
    requires h.ByChunk? && h.k < |sts| && h.chunk.page in sts[h.k].pages && h.chunk in sts[h.k].taken
    requires k < |sts| && h.chunk.page in sts[k].pages && g.minShift + k < ExactShift(g)
    ensures Disjoint(BlockOf(g, h), Block(PageAddr(g, h.chunk.page), Chunks(g, g.minShift + k) / 8))
  {
    hide Own, Chunks, Words, Lists;
    assert SlotOk(g, d, bm, h.k, sts[h.k], stats[h.k]) && SlotOk(g, d, bm, k, sts[k], stats[k]);
    PagesApart(g, d, bm, h.k, k, sts[h.k], sts[k], h.chunk.page);
    OwnCount(g, g.minShift + k);
    MulMonotone(Own(g, g.minShift + k), h.chunk.index, Pow2(g.minShift + k));
  }

  // The address gives back the page and the chunk, as ngx_slab_free_locked computes them,
  // and is a multiple of the chunk size.
  lemma AddressParts(g: Geo, n: nat, p: nat, i: nat, sh: nat)
    requires Sane(g, n) && sh < g.pageShift && i < Chunks(g, sh)
    ensures
      var addr := PageAddr(g, p) + i * Pow2(sh);
      && addr >= g.start && High(addr - g.start, g.pageShift) == p
      && High(Low(addr, g.pageShift), sh) == i && Low(addr, sh) == 0
  {
    hide High, Low, Chunks, Pow2;
    var r, q := i * Pow2(sh), High(g.start, g.pageShift);
    ChunkOffset(g, i, sh);
    MulMonotone(0, p, PageSize(g));
    Parts(p, r, g.pageShift);
    AlignedStart(g, n);
    Distribute(q, p, PageSize(g));
    Parts(q + p, r, g.pageShift);
    Parts(i, 0, sh);
    LowLow((q + p) * Pow2(g.pageShift) + r, sh, g.pageShift);
  }

  lemma BlockAligned(g: Geo, n: nat, h: Holder)
    requires Sane(g, n) && 0 <= PageOf(h)
    requires h.ByChunk? ==> g.minShift + h.k < g.pageShift && h.chunk.index < Chunks(g, g.minShift + h.k)
    ensures BlockOf(g, h).addr >= 0
    ensures Low(BlockOf(g, h).addr, if h.ByChunk? then g.minShift + h.k else g.pageShift) == 0
  {
    hide High, Low, Chunks, Pow2;
    if h.ByChunk? {
      AddressParts(g, n, h.chunk.page, h.chunk.index, g.minShift + h.k);
    } else {
      var q := High(g.start, g.pageShift);
      AlignedStart(g, n);
      Distribute(q, h.page, PageSize(g));
      Parts(q + h.page, 0, g.pageShift);
    }
  }

  lemma ChunkOffset(g: Geo, i: nat, sh: nat)
    requires 6 <= g.pageShift && sh < g.pageShift && i < Chunks(g, sh)
    ensures i * Pow2(sh) < PageSize(g)
  {
    hide High, Low, Chunks, Pow2;
    ChunkCount(g, sh);
    MulMonotone(i + 1, Chunks(g, sh), Pow2(sh));
    Distribute(i, 1, Pow2(sh));
  }

  lemma AlignedStart(g: Geo, n: nat)
    requires Sane(g, n)
    ensures g.start == High(g.start, g.pageShift) * PageSize(g)
  {
    hide High, Low, Pow2;
    var size := PageSize(g);
    var q: nat := g.start / size;
    assert g.start == q * size;
    Parts(q, 0, g.pageShift);
  }

  // Per chunk size `used` is the number of chunks handed out, and `total` that of the chunks
  // its pages have room for, but for their own ones.
  lemma StatsRight(g: Geo, d: Table, bm: Bitmaps, n: nat, runs: seq<Run>, list: seq<Ptr>, sts: seq<SizeClass>,
                   stats: seq<Stat>, k: nat)
    requires Sound(g, d, bm, n, runs, list, sts, stats) && k < |stats|
    ensures |sts| == |stats| == Slots(g)
    ensures forall c :: c in sts[k].taken <==> Held(runs, sts, ByChunk(k, c))
    ensures stats[k].used == |sts[k].taken|
    ensures stats[k].total == |sts[k].pages| * (Chunks(g, g.minShift + k) - Own(g, g.minShift + k))
  {
    hide Laid, Coalesced, NoLimbo, Homes, Words, Lists, Own, Chunks;
    assert SlotOk(g, d, bm, k, sts[k], stats[k]);
  }

  // When nothing is handed out, the pool is as it was at the start: one run of all pages.
  lemma NothingHeld(g: Geo, d: Table, bm: Bitmaps, n: nat, runs: seq<Run>, list: seq<Ptr>, sts: seq<SizeClass>,
                    stats: seq<Stat>)
    requires Sound(g, d, bm, n, runs, list, sts, stats)
    requires NoneHeld(runs, sts)
    ensures runs == [Run(n, FreeRun)] && list == [Page(0)] && FreeTotal(runs) == n && d.slab[Page(0)] == n
  {
    hide Laid, Coalesced, SlotsOk;
    forall r | r in runs
      ensures r.kind == FreeRun
    {
      var i :| 0 <= i < |runs| && runs[i] == r;
      var a, b := runs[..i], runs[i + 1..];
      assert runs == a + [r] + b;
      HoldsMiddle(0, a, r, b, Total(a), r);
      assert r.kind == BusyRun ==> Held(runs, sts, ByPages(Total(a), r.len));
      SlotRunHeld(g, d, n, runs, list, sts, a, r, b);
    }
    AllFree(d, n, Slots(g), runs, list);
  }

  lemma SlotRunHeld(g: Geo, d: Table, n: nat, runs: seq<Run>, list: seq<Ptr>, sts: seq<SizeClass>,
                    a: seq<Run>, r: Run, b: seq<Run>)
    requires runs == a + [r] + b && Homes(runs, sts) && AllInhabited(sts) && g.minShift < g.pageShift
    requires Laid(d, n, Slots(g), runs, list)
    ensures r.kind == SlotRun ==> exists h :: Held(runs, sts, h)
  {
    hide Holds, IsRing, Listed, WellFormed;
    if r.kind == SlotRun {
      ChartMiddle(d, n, 0, a, r, b, n);
      HoldsMiddle(0, a, r, b, Total(a), r);
      assert r == Run(1, SlotRun);
      var k :| 0 <= k < |sts| && Total(a) in sts[k].pages;
      assert Lives(Total(a), sts[k].taken);
      var i: nat :| Chunk(Total(a), i) in sts[k].taken;
      assert Held(runs, sts, ByChunk(k, Chunk(Total(a), i)));
    }
  }
}
