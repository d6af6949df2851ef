// What ngx_slab_free_locked reads off an address, and that it tells exactly whether a
// block that is handed out starts there.

module SlabChecks {
  import opened Ring
  import opened SlabRuns
  import opened SlabPages
  import opened SlabFree
  import opened MachineWords
  import opened SlabSlots
  import opened SlabLayouts
  import opened SlabChunks
  import opened SlabBlocks

  datatype Outcome = Done | OutsidePool | WrongChunk | AlreadyFree | PageFree | WrongPage

  // The kind of a page, as its words show it.
  lemma {:induction false} PageKind(d: Table, n: nat, s: nat, runs: seq<Run>, e: nat, p: int)
    requires Chart(d, n, s, runs, e) && NoLimbo(runs) && s <= p < e <= n < PAGE_START - 1
    ensures Head(d, p)
    ensures d.tag[Page(p)] != SLAB_PAGE ==> Holds(s, runs, p, Run(1, SlotRun))
    ensures d.tag[Page(p)] == SLAB_PAGE && PAGE_START <= d.slab[Page(p)] != PAGE_BUSY ==>
              Holds(s, runs, p, Run(d.slab[Page(p)] - PAGE_START, BusyRun))
    decreases |runs|
  {
    var r, m := runs[0], s + runs[0].len;
    assert r in runs && NoLimbo(runs[1..]);
    HeadsRange(d, n, m, runs[1..], e);
    if p >= m {
      PageKind(d, n, m, runs[1..], e, p);
    } else if p > s {
      assert r.kind == FreeRun ==> Idle(d, p);
      assert r.kind == BusyRun ==> Busy(d, p);
    }
  }

  lemma LaidKind(d: Table, n: nat, slots: nat, runs: seq<Run>, list: seq<Ptr>, p: int)
    requires Laid(d, n, slots, runs, list) && NoLimbo(runs) && 0 <= p < n < PAGE_START - 1
    ensures Head(d, p)
    ensures d.tag[Page(p)] != SLAB_PAGE ==> Holds(0, runs, p, Run(1, SlotRun))
    ensures d.tag[Page(p)] == SLAB_PAGE && PAGE_START <= d.slab[Page(p)] != PAGE_BUSY ==>
              Holds(0, runs, p, Run(d.slab[Page(p)] - PAGE_START, BusyRun))
  {
    hide Chart, Holds, WellFormed, Listed, IsRing, NoLimbo;
    PageKind(d, n, 0, runs, n, p);
  }

  // slab & NGX_SLAB_SHIFT_MASK, or the exact shift
  function ShiftOf(g: Geo, tag: nat, slab: nat): nat
    requires 6 <= g.pageShift
  {
    if tag == SLAB_EXACT then ExactShift(g) else Low(slab, 4)
  }

  lemma HeaderShift(g: Geo, d: Table, bm: Bitmaps, p: int, sh: nat)
    requires 6 <= g.pageShift <= 16 && sh < g.pageShift && Header(g, d, bm, p, sh)
    ensures ShiftOf(g, d.tag[Page(p)], d.slab[Page(p)]) == sh
  {
    hide Low, High, Chunks;
    assert Pow2(4) == 16;
    SmallWord(sh, 4);
    LowLow(d.slab[Page(p)], 4, 32);
  }

  // An address in the page area, taken apart.
  ghost predicate Inside(g: Geo, n: nat, addr: nat) {
    g.start <= addr < PageAddr(g, n)
  }

  lemma PageOfAddress(g: Geo, n: nat, addr: nat)
    requires Sane(g, n) && Inside(g, n, addr)
    ensures
      var p := High(addr - g.start, g.pageShift);
      && p < n && addr == PageAddr(g, p) + Low(addr, g.pageShift) && Low(addr, g.pageShift) < PageSize(g)
  {
    hide High, Low, Pow2;
    var off := addr - g.start;
    var p, r := High(off, g.pageShift), Low(off, g.pageShift);
    Whole(off, g.pageShift);
    AlignedStart(g, n);
    var q := High(g.start, g.pageShift);
    Distribute(q, p, PageSize(g));
    Parts(q + p, r, g.pageShift);
    if p >= n {
      MulMonotone(n, p, PageSize(g));
    }
  }

  // What the tests read at the address of a block that is handed out.
  ghost predicate Reads(g: Geo, d: Table, bm: Bitmaps, h: Holder, addr: nat)
    requires 6 <= g.pageShift && addr >= g.start
  {
    && PageOf(h) == High(addr - g.start, g.pageShift) && Head(d, PageOf(h))
    && match h
       case ByPages(p, len) =>
         && d.tag[Page(p)] == SLAB_PAGE && d.slab[Page(p)] == len + PAGE_START && d.slab[Page(p)] != PAGE_BUSY
         && Low(addr, g.pageShift) == 0
       case ByChunk(k, c) =>
         var sh := g.minShift + k;
         && d.tag[Page(c.page)] != SLAB_PAGE && ShiftOf(g, d.tag[Page(c.page)], d.slab[Page(c.page)]) == sh
         && Low(addr, sh) == 0 && c.index == High(Low(addr, g.pageShift), sh)
         && Used(g, d, bm, c.page, sh, c.index)
  }

  lemma HeldReads(g: Geo, d: Table, bm: Bitmaps, n: nat, runs: seq<Run>, list: seq<Ptr>, sts: seq<SizeClass>,
                  stats: seq<Stat>, h: Holder, addr: nat)
    requires Sound(g, d, bm, n, runs, list, sts, stats) && Held(runs, sts, h) && n < PAGE_START - 1
    ensures BlockOf(g, h).addr == addr ==> Inside(g, n, addr) && Reads(g, d, bm, h, addr)
  {
    hide Holds, Chart, Coalesced, NoLimbo, Describes, Own, Chunks, SlotsOk, WellFormed, Listed, Homes, BlockOf, Pow2,
         High, Low, Used, Reads;
    HolderPages(g, d, bm, n, runs, list, sts, stats, h);
    HoldsDescribed(d, n, runs, PageOf(h), Run(LenOf(h), if h.ByChunk? then SlotRun else BusyRun));
    BlockPlaced(g, d, bm, n, runs, list, sts, stats, h);
    if BlockOf(g, h).addr == addr {
      if h.ByPages? {
        PagesRead(g, d, bm, n, h, addr);
      } else {
        ChunkRead(g, d, bm, n, sts, stats, h, addr);
      }
    }
  }

  lemma PagesRead(g: Geo, d: Table, bm: Bitmaps, n: nat, h: Holder, addr: nat)
    requires Sane(g, n) && h.ByPages? && 0 <= h.page && h.page + h.len <= n < PAGE_START - 1
    requires Describes(d, n, h.page, Run(h.len, BusyRun)) && BlockOf(g, h).addr == addr && addr >= g.start
    ensures Reads(g, d, bm, h, addr)
  {
    hide Low, Used;
    PowInjective(0, g.pageShift);
    AddressParts(g, n, h.page, 0, 0);
  }

  lemma ChunkRead(g: Geo, d: Table, bm: Bitmaps, n: nat, sts: seq<SizeClass>, stats: seq<Stat>, h: Holder, addr: nat)
    requires Sane(g, n) && SlotsOk(g, d, bm, sts, stats) && h.ByChunk? && h.k < |sts|
    requires h.chunk.page in sts[h.k].pages && 0 <= h.chunk.page && h.chunk in sts[h.k].taken
    requires h.chunk.index < Chunks(g, g.minShift + h.k)
    requires BlockOf(g, h).addr == addr && addr >= g.start
    ensures Reads(g, d, bm, h, addr)
  {
    hide High, Low, Own, Chunks, Used, Lists, Counts, Header;
    var sh := g.minShift + h.k;
    assert SlotOk(g, d, bm, h.k, sts[h.k], stats[h.k]);
    AddressParts(g, n, h.chunk.page, h.chunk.index, sh);
    PageTag(g, d, bm, sh, sts[h.k], h.chunk.page);
    HeaderShift(g, d, bm, h.chunk.page, sh);
    assert PageWords(g, d, bm, h.chunk.page, sh, sts[h.k].taken);
    assert Used(g, d, bm, h.chunk.page, sh, h.chunk.index) <==>
           h.chunk.index < Own(g, sh) || Chunk(h.chunk.page, h.chunk.index) in sts[h.k].taken;
    assert h.chunk == Chunk(h.chunk.page, h.chunk.index);
  }

  ghost predicate NoBlockAt(g: Geo, runs: seq<Run>, sts: seq<SizeClass>, addr: nat) {
    forall h: Holder {:trigger Held(runs, sts, h)} :: Held(runs, sts, h) ==> BlockOf(g, h).addr != addr
  }

  // The address does not point into an own chunk of a page, where its bitmap is.
  ghost predicate InBitmap(g: Geo, sts: seq<SizeClass>, addr: nat)
    requires 6 <= g.pageShift && |sts| + g.minShift <= g.pageShift
  {
    exists k, p :: 0 <= k < |sts| && p in sts[k].pages
                   && PageAddr(g, p) <= addr < PageAddr(g, p) + Own(g, g.minShift + k) * Pow2(g.minShift + k)
  }

  // A block that is handed out is not in a bitmap.
  lemma LiveNotInBitmap(g: Geo, d: Table, bm: Bitmaps, n: nat, runs: seq<Run>, list: seq<Ptr>, sts: seq<SizeClass>,
                        stats: seq<Stat>, h: Holder)
    requires Sound(g, d, bm, n, runs, list, sts, stats) && Held(runs, sts, h)
    ensures |sts| + g.minShift <= g.pageShift && BlockOf(g, h).addr >= 0
    ensures !InBitmap(g, sts, BlockOf(g, h).addr)
  {
    hide Holds, Chart, Coalesced, NoLimbo, Describes, Own, Chunks, SlotsOk, WellFormed, Listed, BlockOf, Pow2, Low;
    var kind := if h.ByChunk? then SlotRun else BusyRun;
    HolderPages(g, d, bm, n, runs, list, sts, stats, h);
    HoldsDescribed(d, n, runs, PageOf(h), Run(LenOf(h), kind));
    BlockPlaced(g, d, bm, n, runs, list, sts, stats, h);
    BlockInPages(g, h);
    SlotCount(g, d, bm, sts, stats);
    var addr := BlockOf(g, h).addr;
    forall k, p | 0 <= k < |sts| && p in sts[k].pages
      ensures !(PageAddr(g, p) <= addr < PageAddr(g, p) + Own(g, g.minShift + k) * Pow2(g.minShift + k))
    {
      OwnInPage(g, g.minShift + k, p);
      HoldsApart(d, n, 0, runs, n, PageOf(h), Run(LenOf(h), kind), p, Run(1, SlotRun));
      if PageOf(h) + LenOf(h) <= p {
        PagesInOrder(g, PageOf(h) + LenOf(h), p);
      } else if p + 1 <= PageOf(h) {
        PagesInOrder(g, p + 1, PageOf(h));
      } else {
        AfterOwn(g, d, bm, sts, stats, h, k);
      }
    }
  }

  lemma OwnInPage(g: Geo, sh: nat, p: int)
    requires 6 <= g.pageShift && sh < g.pageShift
    ensures PageAddr(g, p) + Own(g, sh) * Pow2(sh) <= PageAddr(g, p + 1)
  {
    hide Own, Chunks, Pow2;
    OwnCount(g, sh);
    ChunkCount(g, sh);
    MulMonotone(Own(g, sh), Chunks(g, sh), Pow2(sh));
    Distribute(p, 1, PageSize(g));
  }

  lemma AfterOwn(g: Geo, d: Table, bm: Bitmaps, sts: seq<SizeClass>, stats: seq<Stat>, h: Holder, k: nat)
    requires 6 <= g.pageShift && g.minShift < g.pageShift && SlotsOk(g, d, bm, sts, stats)
    requires h.ByChunk? && h.k < |sts| && h.chunk.page in sts[h.k].pages && h.chunk in sts[h.k].taken
    requires k < |sts| && h.chunk.page in sts[k].pages
    ensures BlockOf(g, h).addr >= PageAddr(g, h.chunk.page) + Own(g, g.minShift + k) * Pow2(g.minShift + k)
  {
    hide Own, Chunks, Words, Lists;
    assert SlotOk(g, d, bm, h.k, sts[h.k], stats[h.k]) && SlotOk(g, d, bm, k, sts[k], stats[k]);
    PagesApart(g, d, bm, h.k, k, sts[h.k], sts[k], h.chunk.page);
    MulMonotone(Own(g, g.minShift + k), h.chunk.index, Pow2(g.minShift + k));
  }

  // An address belongs to at most one block.
  lemma OneBlockAt(g: Geo, d: Table, bm: Bitmaps, n: nat, runs: seq<Run>, list: seq<Ptr>, sts: seq<SizeClass>,
                   stats: seq<Stat>, h: Holder, h': Holder)
    requires Sound(g, d, bm, n, runs, list, sts, stats) && Held(runs, sts, h) && Held(runs, sts, h')
    requires BlockOf(g, h).addr == BlockOf(g, h').addr
    ensures h == h'
  {
    hide Laid, Coalesced, NoLimbo, Homes, SlotsOk, AllInhabited, Held, BlockOf, Low;
    BlockPlaced(g, d, bm, n, runs, list, sts, stats, h);
    BlockPlaced(g, d, bm, n, runs, list, sts, stats, h');
    if h != h' {
      BlocksDisjoint(g, d, bm, n, runs, list, sts, stats, h, h');
    }
  }

  ghost predicate NoReads(g: Geo, d: Table, bm: Bitmaps, n: nat, addr: nat)
    requires 6 <= g.pageShift
  {
    Inside(g, n, addr) ==> forall h: Holder :: !Reads(g, d, bm, h, addr)
  }

  // No block is where one of the tests fails.
  lemma Refused(g: Geo, d: Table, bm: Bitmaps, n: nat, runs: seq<Run>, list: seq<Ptr>, sts: seq<SizeClass>,
                stats: seq<Stat>, addr: nat)
    requires Sound(g, d, bm, n, runs, list, sts, stats) && n < PAGE_START - 1 && NoReads(g, d, bm, n, addr)
    ensures NoBlockAt(g, runs, sts, addr)
  {
    hide Laid, Coalesced, NoLimbo, Homes, SlotsOk, AllInhabited, Reads, Held, BlockOf;
    forall h: Holder | Held(runs, sts, h)
      ensures BlockOf(g, h).addr != addr
    {
      HeldReads(g, d, bm, n, runs, list, sts, stats, h, addr);
    }
  }

  lemma NoPagesRead(g: Geo, d: Table, bm: Bitmaps, n: nat, addr: nat)
    requires 6 <= g.pageShift && Inside(g, n, addr)
    requires
      var x := Page(High(addr - g.start, g.pageShift));
      && x in d.tag && x in d.slab && d.tag[x] == SLAB_PAGE
      && (Low(addr, g.pageShift) != 0 || d.slab[x] < PAGE_START || d.slab[x] == PAGE_BUSY)
    ensures NoReads(g, d, bm, n, addr)
  {
    hide High, Low, Used, ShiftOf;
  }

  lemma NoChunkRead(g: Geo, d: Table, bm: Bitmaps, n: nat, addr: nat)
    requires 6 <= g.pageShift && Inside(g, n, addr)
    requires
      var p := High(addr - g.start, g.pageShift);
      && Page(p) in d.tag && Page(p) in d.slab && d.tag[Page(p)] != SLAB_PAGE
      && (var sh := ShiftOf(g, d.tag[Page(p)], d.slab[Page(p)]);
          Low(addr, sh) != 0 || !Used(g, d, bm, p, sh, High(Low(addr, g.pageShift), sh)))
    ensures NoReads(g, d, bm, n, addr)
  {
    hide High, Low, Used, ShiftOf;
  }

  // The chunk whose bit is set is handed out.
  lemma ChunkFound(g: Geo, d: Table, bm: Bitmaps, n: nat, runs: seq<Run>, list: seq<Ptr>, sts: seq<SizeClass>,
                   stats: seq<Stat>, addr: nat) returns (k: nat)
    requires Sound(g, d, bm, n, runs, list, sts, stats) && n < PAGE_START - 1
    requires Inside(g, n, addr) && High(addr - g.start, g.pageShift) < n
    requires Head(d, High(addr - g.start, g.pageShift)) && d.tag[Page(High(addr - g.start, g.pageShift))] != SLAB_PAGE
    ensures
      var p := High(addr - g.start, g.pageShift);
      && k < |sts| == Slots(g) && p in sts[k].pages
      && g.minShift + k == ShiftOf(g, d.tag[Page(p)], d.slab[Page(p)])
      && Header(g, d, bm, p, g.minShift + k) && d.tag[Page(p)] == TypeOf(g, g.minShift + k)
  {
    hide Laid, Coalesced, NoLimbo, Holds, Words, Lists, Counts, Header, High, Low, TypeOf;
    var p := High(addr - g.start, g.pageShift);
    LaidKind(d, n, Slots(g), runs, list, p);
    k :| 0 <= k < |sts| && p in sts[k].pages;
    assert SlotOk(g, d, bm, k, sts[k], stats[k]);
    PageTag(g, d, bm, g.minShift + k, sts[k], p);
    HeaderShift(g, d, bm, p, g.minShift + k);
  }

  lemma ChunkTaken(g: Geo, d: Table, bm: Bitmaps, n: nat, sts: seq<SizeClass>, stats: seq<Stat>, k: nat, p: nat,
                   addr: nat)
    requires Sane(g, n) && SlotsOk(g, d, bm, sts, stats) && k < |sts| && p in sts[k].pages
    requires Inside(g, n, addr) && p == High(addr - g.start, g.pageShift)
    requires Low(addr, g.minShift + k) == 0 && !InBitmap(g, sts, addr)
    ensures
      var sh := g.minShift + k;
      var i := High(Low(addr, g.pageShift), sh);
      && i < Chunks(g, sh) && addr == PageAddr(g, p) + i * Pow2(sh)
      && (Used(g, d, bm, p, sh, i) <==> Chunk(p, i) in sts[k].taken)
  {
    hide Own, Chunks, Used, Lists, Counts, Header, High, Low, Pow2;
    var sh, r := g.minShift + k, Low(addr, g.pageShift);
    var i := High(r, sh);
    PageOfAddress(g, n, addr);
    Whole(r, sh);
    LowLow(addr, sh, g.pageShift);
    ChunkCount(g, sh);
    if i >= Chunks(g, sh) {
      MulMonotone(Chunks(g, sh), i, Pow2(sh));
    }
    assert SlotOk(g, d, bm, k, sts[k], stats[k]);
    assert PageWords(g, d, bm, p, sh, sts[k].taken);
    assert Used(g, d, bm, p, sh, i) <==> i < Own(g, sh) || Chunk(p, i) in sts[k].taken;
    OwnInBitmap(g, sts, k, p, i, addr);
  }

  lemma OwnInBitmap(g: Geo, sts: seq<SizeClass>, k: nat, p: int, i: nat, addr: nat)
    requires 6 <= g.pageShift && |sts| + g.minShift <= g.pageShift && k < |sts| && p in sts[k].pages
    requires addr == PageAddr(g, p) + i * Pow2(g.minShift + k)
    ensures i < Own(g, g.minShift + k) ==> InBitmap(g, sts, addr)
  {
    hide Own;
    var sh := g.minShift + k;
    if i < Own(g, sh) {
      MulMonotone(i + 1, Own(g, sh), Pow2(sh));
      Distribute(i, 1, Pow2(sh));
      assert PageAddr(g, p) <= addr < PageAddr(g, p) + Own(g, sh) * Pow2(sh);
    }
  }
}
