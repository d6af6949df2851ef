// What taking and giving back a chunk does to the state of its chunk size, and why the
// other chunk sizes are not disturbed.

module SlabChunks {
  import opened Ring
  import opened SlabRuns
  import opened SlabPages
  import opened SlabFree
  import opened MachineWords
  import opened SlabSlots
  import opened SlabLayouts

  // -------- words and lists, separately --------

  lemma WordsFrame(g: Geo, d: Table, d': Table, bm: Bitmaps, sh: nat, st: SizeClass)
    requires 6 <= g.pageShift && sh < g.pageShift && Words(g, d, bm, sh, st)
    requires SameKeys(d, d') && d'.slab == d.slab
    requires forall p :: p in st.pages && Page(p) in d.tag ==> d'.tag[Page(p)] == d.tag[Page(p)]
    ensures Words(g, d', bm, sh, st)
  {
    hide Own, Chunks, High, Low, TypeOf, Bit;
    forall p | p in st.pages
      ensures PageWords(g, d', bm, p, sh, st.taken)
    {
      assert PageWords(g, d, bm, p, sh, st.taken);
      forall i: nat | i < Chunks(g, sh)
        ensures Used(g, d', bm, p, sh, i) <==> i < Own(g, sh) || Chunk(p, i) in st.taken
      {
        assert Used(g, d, bm, p, sh, i) <==> i < Own(g, sh) || Chunk(p, i) in st.taken;
      }
    }
  }

  lemma PageTag(g: Geo, d: Table, bm: Bitmaps, sh: nat, st: SizeClass, p: int)
    requires 6 <= g.pageShift && sh < g.pageShift && Words(g, d, bm, sh, st) && p in st.pages
    ensures Header(g, d, bm, p, sh) && Head(d, p) && d.tag[Page(p)] == TypeOf(g, sh)
  {
    assert PageWords(g, d, bm, p, sh, st.taken);
  }

  // Only the fullness of the page of `c` may have changed.
  lemma ListsSame(g: Geo, d: Table, d': Table, k: nat, sh: nat, st: SizeClass, c: Chunk, b: bool)
    requires 6 <= g.pageShift && sh <= g.pageShift && Lists(g, d, k, sh, st)
    requires d'.next == d.next && d'.prev == d.prev
    requires !Full(g, c.page, sh, st.taken) && !Full(g, c.page, sh, Retaken(st.taken, c, b))
    ensures Lists(g, d', k, sh, st.(taken := Retaken(st.taken, c, b)))
  {
    hide Own, Chunks, IsRing, Full, Retaken;
    forall p | p in st.pages
      ensures Page(p) in d.next
      ensures Page(p) in st.list <==> !Full(g, p, sh, Retaken(st.taken, c, b))
      ensures Full(g, p, sh, Retaken(st.taken, c, b)) ==> d.next[Page(p)] == Null
    {
      assert Page(p) in st.list <==> !Full(g, p, sh, st.taken);
      if p != c.page {
        FullElsewhere(g, sh, p, st.taken, c, b);
      }
    }
  }

  // The page of `c` has become full and has been dropped.
  lemma ListsDropped(g: Geo, d: Table, d': Table, k: nat, sh: nat, st: SizeClass, c: Chunk, i: nat)
    requires 6 <= g.pageShift && sh <= g.pageShift && Lists(g, d, k, sh, st)
    requires d.slab.Keys == d.next.Keys == d.prev.Keys == d.tag.Keys
    requires i < |st.list| && st.list[i] == Page(c.page) && Full(g, c.page, sh, st.taken + {c})
    requires Page(c.page) in d.prev && d.prev[Page(c.page)] in d.next && d.next[Page(c.page)] in d.prev
             && d.next[Page(c.page)] in d.tag
    requires d' == Drop(d, Page(c.page), TypeOf(g, sh))
    ensures Lists(g, d', k, sh, st.(taken := st.taken + {c}, list := Without(st.list, i)))
  {
    hide Own, Chunks, Full;
    var list', taken' := Without(st.list, i), st.taken + {c};
    DropRing(d, Slot(k), st.list, i, TypeOf(g, sh));
    WithoutDistinct(st.list, i);
    forall p | p in st.pages
      ensures Page(p) in d'.next && (Page(p) in list' <==> !Full(g, p, sh, taken'))
      ensures Full(g, p, sh, taken') ==> d'.next[Page(p)] == Null
    {
      assert Page(p) in st.list <==> !Full(g, p, sh, st.taken);
      if p != c.page {
        FullElsewhere(g, sh, p, st.taken, c, true);
      }
    }
  }

  // The page of `c` was full and has been pushed.
  lemma ListsPushed(g: Geo, d: Table, d': Table, d2: Table, k: nat, sh: nat, st: SizeClass, c: Chunk)
    requires 6 <= g.pageShift && sh <= g.pageShift && Lists(g, d, k, sh, st)
    requires d.slab.Keys == d.next.Keys == d.prev.Keys == d.tag.Keys
    requires Full(g, c.page, sh, st.taken) && c.page in st.pages && !Full(g, c.page, sh, st.taken - {c})
    requires Slot(k) in d.next && d.next[Slot(k)] in d.prev && d.next[Slot(k)] in d.tag
    requires Page(c.page) in d.next && d' == Push(d, Slot(k), Page(c.page), TypeOf(g, sh))
    requires d2.next == d'.next && d2.prev == d'.prev
    ensures Lists(g, d2, k, sh, st.(taken := st.taken - {c}, list := [Page(c.page)] + st.list))
  {
    hide Own, Chunks, Full, Push, TypeOf;
    var x, h, taken' := Page(c.page), Slot(k), st.taken - {c};
    assert Page(c.page) in st.list <==> !Full(g, c.page, sh, st.taken);
    PushRing(d, h, x, st.list, TypeOf(g, sh));
    var list' := [x] + st.list;
    assert list'[0] == x && forall y :: y in list' <==> y == x || y in st.list;
    forall p | p in st.pages
      ensures Page(p) in d2.next && (Page(p) in list' <==> !Full(g, p, sh, taken'))
      ensures Full(g, p, sh, taken') ==> d2.next[Page(p)] == Null
    {
      assert Page(p) in st.list <==> !Full(g, p, sh, st.taken);
      PushedAt(d, h, x, TypeOf(g, sh), Page(p));
      if p != c.page {
        FullElsewhere(g, sh, p, st.taken, c, false);
        assert d.next[Page(p)] == Null ==> d'.next[Page(p)] == Null;
      }
    }
  }

  lemma TakeCounts(g: Geo, sh: nat, st: SizeClass, stat: Stat, c: Chunk, list: seq<Ptr>)
    requires 6 <= g.pageShift && sh <= g.pageShift && Counts(g, sh, st, stat) && c !in st.taken
    requires c.page in st.pages && Own(g, sh) <= c.index < Chunks(g, sh)
    ensures Counts(g, sh, st.(taken := st.taken + {c}, list := list), stat.(used := stat.used + 1))
  {
  }

  lemma GiveCounts(g: Geo, sh: nat, st: SizeClass, stat: Stat, c: Chunk, list: seq<Ptr>)
    requires 6 <= g.pageShift && sh <= g.pageShift && Counts(g, sh, st, stat) && c in st.taken
    ensures Counts(g, sh, st.(taken := st.taken - {c}, list := list), stat.(used := stat.used - 1))
  {
  }

  // -------- taking a chunk --------

  lemma ChangedOnly(g: Geo, d: Table, bm: Bitmaps, d': Table, bm': Bitmaps, p: int, sh: nat, i: nat, b: bool)
    requires 6 <= g.pageShift && sh < g.pageShift && Changed(g, d, bm, d', bm', p, sh, i, b)
    ensures OnlySlab(d, d', bm, bm', p)
  {
  }

  lemma FullMore(g: Geo, p: int, sh: nat, taken: set<Chunk>, taken': set<Chunk>)
    requires 6 <= g.pageShift && sh <= g.pageShift && taken <= taken'
    ensures Full(g, p, sh, taken) ==> Full(g, p, sh, taken')
  {
    hide Own, Chunks;
  }

  lemma NotFull(g: Geo, sh: nat, taken: set<Chunk>, c: Chunk)
    requires 6 <= g.pageShift && sh <= g.pageShift && Own(g, sh) <= c.index < Chunks(g, sh) && c !in taken
    ensures !Full(g, c.page, sh, taken)
  {
    hide Own, Chunks;
    assert Chunk(c.page, c.index) == c;
  }

  // The bit that was clear stands for a chunk that was not taken.
  lemma TakenBits(g: Geo, d: Table, bm: Bitmaps, d': Table, bm': Bitmaps, sh: nat, st: SizeClass, c: Chunk)
    requires 6 <= g.pageShift && sh < g.pageShift && Words(g, d, bm, sh, st)
    requires c.page in st.pages && c.index < Chunks(g, sh) && !Used(g, d, bm, c.page, sh, c.index)
    requires Changed(g, d, bm, d', bm', c.page, sh, c.index, true)
    ensures c !in st.taken && Own(g, sh) <= c.index
    ensures Words(g, d', bm', sh, st.(taken := st.taken + {c}))
    ensures PageWords(g, d', bm', c.page, sh, st.taken + {c})
  {
    hide Own, Chunks, Used, Header, Changed;
    assert PageWords(g, d, bm, c.page, sh, st.taken);
    assert Chunk(c.page, c.index) == c;
    assert Retaken(st.taken, c, true) == st.taken + {c};
    ChangedWords(g, d, bm, d', bm', sh, st, c.page, c.index, true);
    assert PageWords(g, d', bm', c.page, sh, st.(taken := st.taken + {c}).taken);
  }

  // A chunk of a listed page is taken, and a chunk is left.
  lemma TakeSome(g: Geo, d: Table, bm: Bitmaps, d': Table, bm': Bitmaps, k: nat, st: SizeClass, stat: Stat, c: Chunk)
    requires 6 <= g.pageShift && g.minShift + k < g.pageShift && SlotOk(g, d, bm, k, st, stat)
    requires c.page in st.pages && c.index < Chunks(g, g.minShift + k)
    requires !Used(g, d, bm, c.page, g.minShift + k, c.index)
    requires Changed(g, d, bm, d', bm', c.page, g.minShift + k, c.index, true)
    requires !AllUsed(g, d', bm', c.page, g.minShift + k)
    ensures c !in st.taken
    ensures SlotOk(g, d', bm', k, st.(taken := st.taken + {c}), stat.(used := stat.used + 1))
    ensures Within(d, d', bm, bm', k, st.pages)
  {
    hide Own, Chunks, Words, Lists, Counts, Changed, Used, Full, AllUsed, PageWords;
    var sh, taken' := g.minShift + k, st.taken + {c};
    TakenBits(g, d, bm, d', bm', sh, st, c);
    FullBits(g, d', bm', c.page, sh, taken');
    FullMore(g, c.page, sh, st.taken, taken');
    assert Retaken(st.taken, c, true) == taken';
    ChangedOnly(g, d, bm, d', bm', c.page, sh, c.index, true);
    ChangedWithin(g, d, bm, d', bm', c.page, k, st.pages);
    ListsSame(g, d, d', k, sh, st, c, true);
    TakeCounts(g, sh, st, stat, c, st.list);
  }

  // The last chunk of a listed page is taken, and the page leaves the list.
  lemma TakeLast(g: Geo, d: Table, bm: Bitmaps, d': Table, bm': Bitmaps, d2: Table, k: nat, st: SizeClass,
                 stat: Stat, c: Chunk, i: nat)
    requires 6 <= g.pageShift && g.minShift + k < g.pageShift && SlotOk(g, d, bm, k, st, stat)
    requires c.page in st.pages && c.index < Chunks(g, g.minShift + k)
    requires !Used(g, d, bm, c.page, g.minShift + k, c.index)
    requires Changed(g, d, bm, d', bm', c.page, g.minShift + k, c.index, true)
    requires d.slab.Keys == d.next.Keys == d.prev.Keys == d.tag.Keys
    requires AllUsed(g, d', bm', c.page, g.minShift + k) && i < |st.list| && st.list[i] == Page(c.page)
    requires Droppable(d', Page(c.page)) && d2 == Drop(d', Page(c.page), TypeOf(g, g.minShift + k))
    ensures c !in st.taken
    ensures SlotOk(g, d2, bm', k, st.(taken := st.taken + {c}, list := Without(st.list, i)),
                   stat.(used := stat.used + 1))
    ensures Within(d, d2, bm, bm', k, st.pages)
  {
    hide Own, Chunks, Words, Counts, Changed, Used, Full, AllUsed, TypeOf, PageWords, Lists, Drop, Within;
    var sh, taken' := g.minShift + k, st.taken + {c};
    TakenBits(g, d, bm, d', bm', sh, st, c);
    FullBits(g, d', bm', c.page, sh, taken');
    ChangedOnly(g, d, bm, d', bm', c.page, sh, c.index, true);
    ListsFrame(g, d, d', k, sh, st);
    ListsDropped(g, d', d2, k, sh, st, c, i);
    DroppedTags(g, d', bm', d2, k, sh, st, st.(taken := taken'), i);
    ChangedWithin(g, d, bm, d', bm', c.page, k, st.pages);
    WithinTwice(d, d', d2, bm, bm', bm', k, st.pages);
    WordsFrame(g, d', d2, bm', sh, st.(taken := taken'));
    WordsOfList(g, d2, bm', sh, st.(taken := taken'), Without(st.list, i));
    TakeCounts(g, sh, st, stat, c, Without(st.list, i));
  }

  lemma WordsOfList(g: Geo, d: Table, bm: Bitmaps, sh: nat, st: SizeClass, list: seq<Ptr>)
    requires 6 <= g.pageShift && sh < g.pageShift && Words(g, d, bm, sh, st)
    ensures Words(g, d, bm, sh, st.(list := list))
  {
    hide PageWords;
    forall p | p in st.pages
      ensures PageWords(g, d, bm, p, sh, st.(list := list).taken)
    {
      assert PageWords(g, d, bm, p, sh, st.taken);
    }
  }

  predicate Droppable(d: Table, x: Ptr) {
    && x in d.next && x in d.prev && x in d.tag
    && d.prev[x] in d.next && d.next[x] in d.prev && d.next[x] in d.tag
  }

  lemma ListsFrame(g: Geo, d: Table, d': Table, k: nat, sh: nat, st: SizeClass)
    requires 6 <= g.pageShift && sh <= g.pageShift && Lists(g, d, k, sh, st)
    requires d'.next == d.next && d'.prev == d.prev
    ensures Lists(g, d', k, sh, st)
  {
    hide Own, Chunks, IsRing, Full;
    forall p | p in st.pages
      ensures Page(p) in d'.next
      ensures Page(p) in st.list <==> !Full(g, p, sh, st.taken)
      ensures Full(g, p, sh, st.taken) ==> d'.next[Page(p)] == Null
    {
      assert Page(p) in st.list <==> !Full(g, p, sh, st.taken);
    }
  }

  // Leaving the list changes no page type.
  lemma DroppedTags(g: Geo, d: Table, bm: Bitmaps, d': Table, k: nat, sh: nat, st0: SizeClass, st: SizeClass, i: nat)
    requires 6 <= g.pageShift && sh < g.pageShift && Words(g, d, bm, sh, st)
    requires st.pages == st0.pages && i < |st0.list| && Lists(g, d, k, sh, st0)
    requires Droppable(d, st0.list[i]) && d' == Drop(d, st0.list[i], TypeOf(g, sh))
    requires d.slab.Keys == d.next.Keys == d.prev.Keys == d.tag.Keys
    ensures SameKeys(d, d') && d'.slab == d.slab
    ensures forall p :: p in st.pages && Page(p) in d.tag ==> d'.tag[Page(p)] == d.tag[Page(p)]
    ensures Within(d, d', bm, bm, k, st.pages)
  {
    hide Words, Own, Chunks, Full;
    var x := st0.list[i];
    assert x in st0.list;
    PageTag(g, d, bm, sh, st, x.p);
    CutRing(d, Slot(k), st0.list, i);
    forall p | p in st.pages && Page(p) in d.tag
      ensures d'.tag[Page(p)] == d.tag[Page(p)]
    {
      PageTag(g, d, bm, sh, st, p);
    }
  }

  // -------- giving a chunk back --------

  // The bit that was set stands for a chunk that was taken.
  lemma GivenBits(g: Geo, d: Table, bm: Bitmaps, d': Table, bm': Bitmaps, sh: nat, st: SizeClass, c: Chunk)
    requires 6 <= g.pageShift && sh < g.pageShift && Words(g, d, bm, sh, st)
    requires c in st.taken && c.page in st.pages && Own(g, sh) <= c.index < Chunks(g, sh)
    requires Changed(g, d, bm, d', bm', c.page, sh, c.index, false)
    ensures Words(g, d', bm', sh, st.(taken := st.taken - {c}))
    ensures !Full(g, c.page, sh, st.taken - {c})
    ensures PageWords(g, d', bm', c.page, sh, st.taken - {c})
  {
    hide Own, Chunks, Used, Header, Changed, Full;
    assert Retaken(st.taken, c, false) == st.taken - {c};
    ChangedWords(g, d, bm, d', bm', sh, st, c.page, c.index, false);
    NotFull(g, sh, st.taken - {c}, c);
    assert PageWords(g, d', bm', c.page, sh, st.(taken := st.taken - {c}).taken);
  }

  lemma GiveListed(g: Geo, d: Table, bm: Bitmaps, d': Table, bm': Bitmaps, k: nat, st: SizeClass, stat: Stat, c: Chunk)
    requires 6 <= g.pageShift && g.minShift + k < g.pageShift && SlotOk(g, d, bm, k, st, stat) && c in st.taken
    requires !Full(g, c.page, g.minShift + k, st.taken)
    requires Changed(g, d, bm, d', bm', c.page, g.minShift + k, c.index, false)
    ensures SlotOk(g, d', bm', k, st.(taken := st.taken - {c}), stat.(used := stat.used - 1))
    ensures Within(d, d', bm, bm', k, st.pages)
  {
    hide Own, Chunks, Words, Lists, Changed, Used, Full, PageWords;
    var sh := g.minShift + k;
    GivenBits(g, d, bm, d', bm', sh, st, c);
    assert Retaken(st.taken, c, false) == st.taken - {c};
    ChangedOnly(g, d, bm, d', bm', c.page, sh, c.index, false);
    ChangedWithin(g, d, bm, d', bm', c.page, k, st.pages);
    ListsSame(g, d, d', k, sh, st, c, false);
    GiveCounts(g, sh, st, stat, c, st.list);
  }

  predicate Pushable(d: Table, h: Ptr, x: Ptr) {
    h in d.next && x in d.next && x in d.prev && x in d.tag && d.next[h] in d.prev && d.next[h] in d.tag
  }

  lemma GiveFull(g: Geo, d: Table, bm: Bitmaps, d1: Table, d': Table, bm': Bitmaps, k: nat, st: SizeClass,
                 stat: Stat, c: Chunk)
    requires 6 <= g.pageShift && g.minShift + k < g.pageShift && SlotOk(g, d, bm, k, st, stat) && c in st.taken
    requires Full(g, c.page, g.minShift + k, st.taken)
    requires d.slab.Keys == d.next.Keys == d.prev.Keys == d.tag.Keys
    requires Pushable(d, Slot(k), Page(c.page))
    requires d1 == Push(d, Slot(k), Page(c.page), TypeOf(g, g.minShift + k))
    requires Changed(g, d1, bm, d', bm', c.page, g.minShift + k, c.index, false)
    ensures SlotOk(g, d', bm', k, st.(taken := st.taken - {c}, list := [Page(c.page)] + st.list),
                   stat.(used := stat.used - 1))
    ensures Within(d, d', bm, bm', k, st.pages)
  {
    hide Own, Chunks, Words, Changed, Used, Full, PageWords, Push, Lists, TypeOf, Within;
    var sh := g.minShift + k;
    PushedTags(g, d, bm, d1, k, sh, st, c.page);
    WordsFrame(g, d, d1, bm, sh, st);
    GivenBits(g, d1, bm, d', bm', sh, st, c);
    ChangedOnly(g, d1, bm, d', bm', c.page, sh, c.index, false);
    ChangedWithin(g, d1, bm, d', bm', c.page, k, st.pages);
    WithinTwice(d, d1, d', bm, bm, bm', k, st.pages);
    ListsPushed(g, d, d1, d', k, sh, st, c);
    WordsOfList(g, d', bm', sh, st.(taken := st.taken - {c}), [Page(c.page)] + st.list);
    GiveCounts(g, sh, st, stat, c, [Page(c.page)] + st.list);
  }

  lemma PushedTags(g: Geo, d: Table, bm: Bitmaps, d': Table, k: nat, sh: nat, st: SizeClass, p: int)
    requires 6 <= g.pageShift && sh < g.pageShift && Words(g, d, bm, sh, st) && Lists(g, d, k, sh, st)
    requires p in st.pages && Full(g, p, sh, st.taken)
    requires Pushable(d, Slot(k), Page(p)) && d' == Push(d, Slot(k), Page(p), TypeOf(g, sh))
    requires d.slab.Keys == d.next.Keys == d.prev.Keys == d.tag.Keys
    ensures SameKeys(d, d') && d'.slab == d.slab
    ensures forall q :: q in st.pages && Page(q) in d.tag ==> d'.tag[Page(q)] == d.tag[Page(q)]
    ensures Within(d, d', bm, bm, k, st.pages)
  {
    hide Words, Own, Chunks, Full;
    assert Page(p) in st.list <==> !Full(g, p, sh, st.taken);
    PushRing(d, Slot(k), Page(p), st.list, TypeOf(g, sh));
    forall q | q in st.pages && Page(q) in d.tag
      ensures d'.tag[Page(q)] == d.tag[Page(q)]
    {
      PageTag(g, d, bm, sh, st, q);
    }
  }

  // -------- the other chunk sizes --------

  // Only the list head and the pages of one chunk size have been written.
  ghost predicate Within(d: Table, d': Table, bm: Bitmaps, bm': Bitmaps, k: nat, pages: set<int>) {
    && SameKeys(d, d')
    && (forall q: Ptr {:trigger SameWords(d, d', q)} ::
         q != Slot(k) && !(q.Page? && q.p in pages) ==> SameWords(d, d', q))
    && (forall p :: p in bm && p !in pages ==> p in bm' && bm'[p] == bm[p])
  }

  lemma WithinTwice(d: Table, d1: Table, d2: Table, bm: Bitmaps, bm1: Bitmaps, bm2: Bitmaps, k: nat, pages: set<int>)
    requires Within(d, d1, bm, bm1, k, pages) && Within(d1, d2, bm1, bm2, k, pages)
    requires d.slab.Keys == d.next.Keys == d.prev.Keys == d.tag.Keys
    ensures Within(d, d2, bm, bm2, k, pages)
  {
    forall q: Ptr | q != Slot(k) && !(q.Page? && q.p in pages)
      ensures SameWords(d, d2, q)
    {
      assert SameWords(d, d1, q) && SameWords(d1, d2, q);
    }
  }

  lemma ChangedWithin(g: Geo, d: Table, bm: Bitmaps, d': Table, bm': Bitmaps, p: int, k: nat, pages: set<int>)
    requires OnlySlab(d, d', bm, bm', p) && p in pages
    ensures Within(d, d', bm, bm', k, pages)
  {
  }

  // The words a chunk size depends on are kept.
  ghost predicate Undisturbed(d: Table, d': Table, bm: Bitmaps, bm': Bitmaps, k: nat, pages: set<int>) {
    && SameKeys(d, d') && SameWords(d, d', Slot(k))
    && (forall p {:trigger SameWords(d, d', Page(p))} :: p in pages ==> SameWords(d, d', Page(p)))
    && (forall p :: p in pages && p in bm ==> p in bm' && bm'[p] == bm[p])
  }

  lemma SlotFrame(g: Geo, d: Table, d': Table, bm: Bitmaps, bm': Bitmaps, k: nat, st: SizeClass, stat: Stat)
    requires 6 <= g.pageShift && g.minShift + k < g.pageShift && SlotOk(g, d, bm, k, st, stat)
    requires Undisturbed(d, d', bm, bm', k, st.pages)
    ensures SlotOk(g, d', bm', k, st, stat)
  {
    hide Own, Chunks, High, Low, TypeOf, Bit, Full, Counts;
    var sh := g.minShift + k;
    forall p | p in st.pages
      ensures PageWords(g, d', bm', p, sh, st.taken)
    {
      assert PageWords(g, d, bm, p, sh, st.taken) && SameWords(d, d', Page(p));
      forall i: nat | i < Chunks(g, sh)
        ensures Used(g, d', bm', p, sh, i) <==> i < Own(g, sh) || Chunk(p, i) in st.taken
      {
        assert Used(g, d, bm, p, sh, i) <==> i < Own(g, sh) || Chunk(p, i) in st.taken;
      }
    }
    UndisturbedLists(g, d, d', bm, bm', k, sh, st);
  }

  lemma UndisturbedLists(g: Geo, d: Table, d': Table, bm: Bitmaps, bm': Bitmaps, k: nat, sh: nat, st: SizeClass)
    requires 6 <= g.pageShift && sh < g.pageShift && Lists(g, d, k, sh, st)
    requires Undisturbed(d, d', bm, bm', k, st.pages)
    ensures Lists(g, d', k, sh, st)
  {
    hide Own, Chunks, Full;
    forall x | x in Members(Slot(k), st.list)
      ensures x in d'.next && x in d'.prev && d'.next[x] == d.next[x] && d'.prev[x] == d.prev[x]
    {
      assert SameWords(d, d', x);
    }
    RingFrame(d.next, d.prev, d'.next, d'.prev, Slot(k), st.list);
    forall p | p in st.pages
      ensures Page(p) in d'.next && (Page(p) in st.list <==> !Full(g, p, sh, st.taken))
      ensures Full(g, p, sh, st.taken) ==> d'.next[Page(p)] == Null
    {
      assert SameWords(d, d', Page(p));
      assert Page(p) in st.list <==> !Full(g, p, sh, st.taken);
    }
  }

  // A page belongs to one chunk size.
  lemma PagesApart(g: Geo, d: Table, bm: Bitmaps, j: nat, k: nat, st: SizeClass, st': SizeClass, p: int)
    requires 6 <= g.pageShift && g.minShift + k < g.pageShift && g.minShift + j < g.pageShift
    requires Words(g, d, bm, g.minShift + j, st) && Words(g, d, bm, g.minShift + k, st')
    requires p in st.pages && p in st'.pages
    ensures j == k
  {
    hide Own, Chunks, Used;
    PageTag(g, d, bm, g.minShift + j, st, p);
    PageTag(g, d, bm, g.minShift + k, st', p);
  }

  ghost predicate SlotsOk(g: Geo, d: Table, bm: Bitmaps, sts: seq<SizeClass>, stats: seq<Stat>)
    requires 6 <= g.pageShift && g.minShift < g.pageShift
  {
    && |sts| == |stats| == Slots(g)
    && forall k {:trigger sts[k]} :: 0 <= k < |sts| ==> SlotOk(g, d, bm, k, sts[k], stats[k])
  }

  // None of the pages belongs to another chunk size.
  ghost predicate Separate(sts: seq<SizeClass>, k: nat, pages: set<int>) {
    forall j, p :: 0 <= j < |sts| && j != k && p in sts[j].pages ==> p !in pages
  }

  lemma OwnSeparate(g: Geo, d: Table, bm: Bitmaps, sts: seq<SizeClass>, stats: seq<Stat>, k: nat)
    requires 6 <= g.pageShift && g.minShift < g.pageShift && SlotsOk(g, d, bm, sts, stats) && k < |sts|
    ensures Separate(sts, k, sts[k].pages)
  {
    hide Words, Lists, Counts;
    forall j, p | 0 <= j < |sts| && j != k && p in sts[j].pages
      ensures p !in sts[k].pages
    {
      if p in sts[k].pages {
        PagesApart(g, d, bm, j, k, sts[j], sts[k], p);
      }
    }
  }

  // A page outside every slot list belongs to no chunk size.
  lemma FreshSeparate(g: Geo, d: Table, bm: Bitmaps, sts: seq<SizeClass>, stats: seq<Stat>, p: int)
    requires 6 <= g.pageShift && g.minShift < g.pageShift && SlotsOk(g, d, bm, sts, stats)
    requires Page(p) in d.tag && d.tag[Page(p)] == SLAB_PAGE
    ensures forall j :: 0 <= j < |sts| ==> p !in sts[j].pages
  {
    hide Words, Lists, Counts;
    forall j | 0 <= j < |sts|
      ensures p !in sts[j].pages
    {
      assert SlotOk(g, d, bm, j, sts[j], stats[j]);
      if p in sts[j].pages {
        PageTag(g, d, bm, g.minShift + j, sts[j], p);
      }
    }
  }

  // One chunk size has changed within its own words.
  lemma OneSlot(g: Geo, d: Table, bm: Bitmaps, d': Table, bm': Bitmaps, sts: seq<SizeClass>, stats: seq<Stat>,
                k: nat, pages: set<int>, st': SizeClass, stat': Stat)
    requires 6 <= g.pageShift && g.minShift < g.pageShift && SlotsOk(g, d, bm, sts, stats) && k < |sts|
    requires Within(d, d', bm, bm', k, pages) && Separate(sts, k, pages) && SlotOk(g, d', bm', k, st', stat')
    ensures SlotsOk(g, d', bm', sts[k := st'], stats[k := stat'])
  {
    hide Words, Lists, Counts;
    forall j | 0 <= j < |sts| && j != k
      ensures SlotOk(g, d', bm', j, sts[j], stats[j])
    {
      assert SlotOk(g, d, bm, j, sts[j], stats[j]);
      SlotFrame(g, d, d', bm, bm', j, sts[j], stats[j]);
    }
  }

  // What the page level does to other pages leaves every chunk size alone.
  lemma SlotsFrame(g: Geo, d: Table, d': Table, bm: Bitmaps, sts: seq<SizeClass>, stats: seq<Stat>, x: Ptr)
    requires 6 <= g.pageShift && g.minShift < g.pageShift && SlotsOk(g, d, bm, sts, stats)
    requires SameKeys(d, d') && SlotsKept(d, d', x)
    requires d.slab.Keys == d.next.Keys == d.prev.Keys == d.tag.Keys
    requires x == Null || (x.Page? && forall j :: 0 <= j < |sts| ==> x.p !in sts[j].pages)
    ensures SlotsOk(g, d', bm, sts, stats)
  {
    hide Words, Lists, Counts;
    forall k | 0 <= k < |sts|
      ensures SlotOk(g, d', bm, k, sts[k], stats[k])
    {
      var sh := g.minShift + k;
      assert SlotOk(g, d, bm, k, sts[k], stats[k]);
      ListHead(g, d, k, sh, sts[k]);
      forall p | p in sts[k].pages
        ensures SameWords(d, d', Page(p))
      {
        PageTag(g, d, bm, sh, sts[k], p);
      }
      SlotFrame(g, d, d', bm, bm, k, sts[k], stats[k]);
    }
  }

  lemma ListHead(g: Geo, d: Table, k: nat, sh: nat, st: SizeClass)
    requires 6 <= g.pageShift && sh <= g.pageShift && Lists(g, d, k, sh, st)
    ensures Slot(k) in d.next && d.next[Slot(k)] == if st.list == [] then Slot(k) else st.list[0]
  {
    hide Full;
    LinkAt(d.next, d.prev, Slot(k), st.list, 0);
  }

  // Writes to a chunk size's own words do not show in the runs of pages.
  lemma SlotLaid(g: Geo, d: Table, bm: Bitmaps, d': Table, bm': Bitmaps, k: nat, st: SizeClass, stat: Stat,
                 st': SizeClass, stat': Stat, n: nat, slots: nat, runs: seq<Run>, list: seq<Ptr>)
    requires 6 <= g.pageShift && g.minShift + k < g.pageShift
    requires SlotOk(g, d, bm, k, st, stat) && SlotOk(g, d', bm', k, st', stat') && st'.pages == st.pages
    requires Within(d, d', bm, bm', k, st.pages) && NoLimbo(runs)
    requires Laid(d, n, slots, runs, list)
    ensures Laid(d', n, slots, runs, list)
  {
    hide Laid, Lists, Counts, Words, NoLimbo;
    forall q | q in d.tag && !InSlots(d, q)
      ensures SameWords(d, d', q)
    {
      if q.Page? && q.p in st.pages {
        PageTag(g, d, bm, g.minShift + k, st, q.p);
      }
    }
    forall q | q in d.tag && q.Page? && d.tag[q] != SLAB_PAGE
      ensures q in d'.tag && d'.tag[q] != SLAB_PAGE
    {
      if q.p in st'.pages {
        PageTag(g, d', bm', g.minShift + k, st', q.p);
      } else {
        assert SameWords(d, d', q);
      }
    }
    RelinkLaid(d, d', n, slots, runs, list);
  }

  // -------- a page becomes a slot page --------

  function Install(d: Table, h: Ptr, x: Ptr, w: nat, tag: nat): Table
    requires x in d.slab && x in d.next && x in d.prev && x in d.tag && h in d.next
  {
    SetNext(SetPrev(SetNext(SetSlab(d, x, w), x, h), x, h, tag), h, x)
  }

  lemma InstallLaid(d: Table, k: nat, w: nat, tag: nat, n: nat, slots: nat, list: seq<Ptr>, a: seq<Run>, b: seq<Run>)
    requires Laid(d, n, slots, a + [Run(1, BusyRun)] + b, list) && NoLimbo(a + [Run(1, BusyRun)] + b)
    requires Head(d, Total(a)) && Slot(k) in d.next && tag != SLAB_PAGE
    ensures Laid(Install(d, Slot(k), Page(Total(a)), w, tag), n, slots, a + [Run(1, SlotRun)] + b, list)
    ensures NoLimbo(a + [Run(1, SlotRun)] + b)
    ensures FreeTotal(a + [Run(1, SlotRun)] + b) == FreeTotal(a + [Run(1, BusyRun)] + b)
  {
    hide Chart, Heads, Total, FreeTotal, WellFormed, Listed, IsRing, Describes, Keeps, NoLimbo;
    var runs, runs', x := a + [Run(1, BusyRun)] + b, a + [Run(1, SlotRun)] + b, Page(Total(a));
    var d1 := SetPrev(SetNext(SetSlab(d, x, w), x, Slot(k)), x, Slot(k), tag);
    InstallPage(d, d1, k, w, tag, n, slots, list, a, b);
    Replaced(d, d1, n, slots, a, Run(1, BusyRun), Run(1, SlotRun), b, list);
    InstallNoLimbo(a, b);
    RelinkLaid(d1, SetNext(d1, Slot(k), x), n, slots, runs', list);
  }

  lemma InstallNoLimbo(a: seq<Run>, b: seq<Run>)
    requires NoLimbo(a + [Run(1, BusyRun)] + b)
    ensures NoLimbo(a + [Run(1, SlotRun)] + b)
  {
    var runs := a + [Run(1, BusyRun)] + b;
    assert forall x :: x in a || x in b ==> x in runs;
  }

  lemma InstallPage(d: Table, d1: Table, k: nat, w: nat, tag: nat, n: nat, slots: nat, list: seq<Ptr>, a: seq<Run>,
                    b: seq<Run>)
    requires Laid(d, n, slots, a + [Run(1, BusyRun)] + b, list)
    requires Head(d, Total(a)) && tag != SLAB_PAGE
    requires d1 == SetPrev(SetNext(SetSlab(d, Page(Total(a)), w), Page(Total(a)), Slot(k)), Page(Total(a)), Slot(k),
                           tag)
    ensures ChangesWithin(d, d1, n, Total(a), Total(a) + 1, Heads(0, a + [Run(1, BusyRun)] + b))
    ensures Describes(d1, n, Total(a), Run(1, SlotRun))
    ensures Listed(a + [Run(1, SlotRun)] + b, list) && IsRing(d1.next, d1.prev, Free, list)
    ensures FreeTotal(a + [Run(1, SlotRun)] + b) == FreeTotal(a + [Run(1, BusyRun)] + b)
  {
    hide Chart, Heads, Total, FreeTotal, WellFormed;
    RunFacts(d, n, slots, a + [Run(1, BusyRun)] + b, list, a, Run(1, BusyRun), b);
    HeadsMiddle(0, a, Run(1, SlotRun), b);
    RingFrame(d.next, d.prev, d1.next, d1.prev, Free, list);
  }

  lemma InstallSlot(g: Geo, d: Table, bm: Bitmaps, d': Table, bm': Bitmaps, k: nat, st: SizeClass, stat: Stat, p: int,
                    w: nat)
    requires 6 <= g.pageShift && g.minShift + k < g.pageShift && SlotOk(g, d, bm, k, st, stat)
    requires st.list == [] && p !in st.pages && Head(d, p) && Slot(k) in d.next
    requires d' == Install(d, Slot(k), Page(p), w, TypeOf(g, g.minShift + k))
    requires forall q :: q in bm && q != p ==> q in bm' && bm'[q] == bm[q]
    requires Fresh(g, d', bm', p, g.minShift + k)
    ensures
      var sh := g.minShift + k;
      SlotOk(g, d', bm', k, SizeClass(st.pages + {p}, st.taken + {Chunk(p, Own(g, sh))}, [Page(p)]),
             Stat(stat.used + 1, stat.total + (Chunks(g, sh) - Own(g, sh))))
    ensures Chunk(p, Own(g, g.minShift + k)) !in st.taken
    ensures SameKeys(d, d') && Within(d, d', bm, bm', k, st.pages + {p})
  {
    hide Words, Lists, Chunks, Own, Install, TypeOf, Fresh;
    var sh := g.minShift + k;
    OwnCount(g, sh);
    InstallWords(g, d, bm, d', bm', sh, st, p, k, w);
    InstallLists(g, d, d', k, sh, st, p, w);
    InstallCounts(g, sh, st, stat, p);
    InstallWithin(d, d', bm, bm', k, p, w, TypeOf(g, sh), st.pages + {p});
  }

  lemma InstallCounts(g: Geo, sh: nat, st: SizeClass, stat: Stat, p: int)
    requires 6 <= g.pageShift && sh <= g.pageShift && Counts(g, sh, st, stat) && p !in st.pages
    requires Own(g, sh) < Chunks(g, sh)
    ensures Chunk(p, Own(g, sh)) !in st.taken
    ensures Counts(g, sh, SizeClass(st.pages + {p}, st.taken + {Chunk(p, Own(g, sh))}, [Page(p)]),
                   Stat(stat.used + 1, stat.total + (Chunks(g, sh) - Own(g, sh))))
  {
    hide Chunks, Own;
    assert |st.pages + {p}| == |st.pages| + 1;
    OneMore(|st.pages|, Chunks(g, sh) - Own(g, sh));
  }

  lemma OneMore(a: int, b: int)
    ensures (a + 1) * b == a * b + b && (a - 1) * b == a * b - b
  {
  }

  lemma InstallWithin(d: Table, d': Table, bm: Bitmaps, bm': Bitmaps, k: nat, p: int, w: nat, tag: nat, pages: set<int>)
    requires Head(d, p) && Slot(k) in d.next && d' == Install(d, Slot(k), Page(p), w, tag) && p in pages
    requires forall q :: q in bm && q != p ==> q in bm' && bm'[q] == bm[q]
    ensures SameKeys(d, d') && Within(d, d', bm, bm', k, pages)
  {
  }

  lemma InstallWords(g: Geo, d: Table, bm: Bitmaps, d': Table, bm': Bitmaps, sh: nat, st: SizeClass, p: int, k: nat,
                     w: nat)
    requires 6 <= g.pageShift && sh < g.pageShift && Words(g, d, bm, sh, st)
    requires p !in st.pages && (forall c :: c in st.taken ==> c.page in st.pages) && Head(d, p) && Slot(k) in d.next
    requires d' == Install(d, Slot(k), Page(p), w, TypeOf(g, sh))
    requires forall q :: q in bm && q != p ==> q in bm' && bm'[q] == bm[q]
    requires Fresh(g, d', bm', p, sh)
    ensures Words(g, d', bm', sh, SizeClass(st.pages + {p}, st.taken + {Chunk(p, Own(g, sh))}, [Page(p)]))
  {
    hide Chunks, Own, High, Low, Bit, TypeOf, Pow2;
    var taken' := st.taken + {Chunk(p, Own(g, sh))};
    forall q | q in st.pages + {p}
      ensures PageWords(g, d', bm', q, sh, taken')
    {
      if q != p {
        assert PageWords(g, d, bm, q, sh, st.taken);
        forall i: nat | i < Chunks(g, sh)
          ensures Used(g, d', bm', q, sh, i) <==> i < Own(g, sh) || Chunk(q, i) in taken'
        {
          assert Used(g, d, bm, q, sh, i) <==> i < Own(g, sh) || Chunk(q, i) in st.taken;
        }
      }
    }
  }

  lemma InstallLists(g: Geo, d: Table, d': Table, k: nat, sh: nat, st: SizeClass, p: int, w: nat)
    requires 6 <= g.pageShift && sh < g.pageShift && Lists(g, d, k, sh, st) && st.list == []
    requires p !in st.pages && (forall c :: c in st.taken ==> c.page in st.pages) && Head(d, p) && Slot(k) in d.next
    requires d' == Install(d, Slot(k), Page(p), w, TypeOf(g, sh)) && Own(g, sh) + 1 < Chunks(g, sh)
    ensures Lists(g, d', k, sh, SizeClass(st.pages + {p}, st.taken + {Chunk(p, Own(g, sh))}, [Page(p)]))
  {
    hide Chunks, Own, TypeOf;
    var c := Chunk(p, Own(g, sh));
    var taken' := st.taken + {c};
    assert !Full(g, p, sh, taken') by {
      assert Chunk(p, Own(g, sh) + 1) !in taken';
    }
    forall q | q in st.pages + {p}
      ensures Page(q) in d'.next && (Page(q) in [Page(p)] <==> !Full(g, q, sh, taken'))
      ensures Full(g, q, sh, taken') ==> d'.next[Page(q)] == Null
    {
      if q != p {
        assert Page(q) in st.list <==> !Full(g, q, sh, st.taken);
        FullElsewhere(g, sh, q, st.taken, c, true);
      }
    }
  }

  // -------- a slot page is given back --------

  lemma EvictSlot(g: Geo, d: Table, bm: Bitmaps, k: nat, st: SizeClass, stat: Stat, p: int, i: nat)
    requires 6 <= g.pageShift && g.minShift + k < g.pageShift && SlotOk(g, d, bm, k, st, stat)
    requires p in st.pages && !Lives(p, st.taken) && i < |st.list| && st.list[i] == Page(p)
    requires d.slab.Keys == d.next.Keys == d.prev.Keys == d.tag.Keys
    ensures SlotLinked(d, Page(p)) && d.next[Page(p)] != Null
    ensures SameKeys(d, Unlinked(d, Page(p))) && Within(d, Unlinked(d, Page(p)), bm, bm, k, st.pages)
    ensures
      var sh := g.minShift + k;
      SlotOk(g, Unlinked(d, Page(p)), bm, k, SizeClass(st.pages - {p}, st.taken, Without(st.list, i)),
             stat.(total := stat.total - (Chunks(g, sh) - Own(g, sh))))
  {
    hide PageWords, Chunks, Own, Full, IsRing, Lives;
    var sh, x, u := g.minShift + k, Page(p), Unlinked(d, Page(p));
    EvictRing(g, d, bm, k, sh, st, p, i);
    WordsFrame(g, d, u, bm, sh, st);
    forall q | q in st.pages - {p}
      ensures PageWords(g, u, bm, q, sh, st.taken)
    {
      assert PageWords(g, u, bm, q, sh, st.taken);
    }
    forall c | c in st.taken
      ensures c.page in st.pages - {p}
    {
      LivesHere(c, st.taken);
    }
    assert |st.pages - {p}| == |st.pages| - 1;
    OneMore(|st.pages|, Chunks(g, sh) - Own(g, sh));
  }

  lemma LivesHere(c: Chunk, taken: set<Chunk>)
    requires c in taken
    ensures Lives(c.page, taken)
  {
    assert Chunk(c.page, c.index) == c;
  }

  lemma EvictRing(g: Geo, d: Table, bm: Bitmaps, k: nat, sh: nat, st: SizeClass, p: int, i: nat)
    requires 6 <= g.pageShift && sh < g.pageShift && Words(g, d, bm, sh, st) && Lists(g, d, k, sh, st)
    requires p in st.pages && i < |st.list| && st.list[i] == Page(p)
    requires d.slab.Keys == d.next.Keys == d.prev.Keys == d.tag.Keys
    ensures SlotLinked(d, Page(p)) && d.next[Page(p)] != Null
    ensures
      var u := Unlinked(d, Page(p));
      && SameKeys(d, u) && u.slab == d.slab && Within(d, u, bm, bm, k, st.pages)
      && (forall q :: q in st.pages && Page(q) in d.tag ==> u.tag[Page(q)] == d.tag[Page(q)])
      && Lists(g, u, k, sh, SizeClass(st.pages - {p}, st.taken, Without(st.list, i)))
  {
    hide Words, Own, Chunks, Full, TypeOf;
    var x, u := Page(p), Unlinked(d, Page(p));
    PageTag(g, d, bm, sh, st, p);
    CutRing(d, Slot(k), st.list, i);
    WithoutDistinct(st.list, i);
    forall q | q in st.pages && Page(q) in d.tag
      ensures u.tag[Page(q)] == d.tag[Page(q)] && d.tag[Page(q)] != SLAB_PAGE
    {
      PageTag(g, d, bm, sh, st, q);
    }
    EvictLists(g, d, u, k, sh, st, p, i);
  }

  lemma EvictLists(g: Geo, d: Table, u: Table, k: nat, sh: nat, st: SizeClass, p: int, i: nat)
    requires 6 <= g.pageShift && sh < g.pageShift && Lists(g, d, k, sh, st)
    requires p in st.pages && i < |st.list| && st.list[i] == Page(p)
    requires Droppable(d, Page(p)) && u == CutOut(d, Page(p)) && d.prev[Page(p)] in st.list + [Slot(k)]
    requires IsRing(u.next, u.prev, Slot(k), Without(st.list, i))
    ensures Lists(g, u, k, sh, SizeClass(st.pages - {p}, st.taken, Without(st.list, i)))
  {
    hide Own, Chunks, Full, IsRing;
    assert Distinct(st.list) by {
      RingDistinct(d, Slot(k), st.list);
    }
    WithoutDistinct(st.list, i);
    forall q | q in st.pages - {p}
      ensures Page(q) in u.next && (Page(q) in Without(st.list, i) <==> !Full(g, q, sh, st.taken))
      ensures Full(g, q, sh, st.taken) ==> u.next[Page(q)] == Null
    {
      assert Page(q) in st.list <==> !Full(g, q, sh, st.taken);
    }
  }

  lemma RingDistinct(d: Table, h: Ptr, list: seq<Ptr>)
    requires IsRing(d.next, d.prev, h, list)
    ensures Distinct(list)
  {
  }

  // -------- what the methods need to know --------

  lemma LaidKeys(d: Table, n: nat, slots: nat, runs: seq<Run>, list: seq<Ptr>)
    requires Laid(d, n, slots, runs, list)
    ensures d.slab.Keys == d.next.Keys == d.prev.Keys == d.tag.Keys
  {
    hide Chart, Listed, IsRing;
  }

  lemma ChangedHeader(g: Geo, d: Table, bm: Bitmaps, d': Table, bm': Bitmaps, p: int, sh: nat, i: nat, b: bool)
    requires 6 <= g.pageShift && sh < g.pageShift && Changed(g, d, bm, d', bm', p, sh, i, b)
    ensures Header(g, d', bm', p, sh)
  {
  }

  // A listed page has a chunk left.
  lemma ListedPage(g: Geo, d: Table, bm: Bitmaps, k: nat, sh: nat, st: SizeClass, i: nat)
    requires 6 <= g.pageShift && sh < g.pageShift && Words(g, d, bm, sh, st) && Lists(g, d, k, sh, st) && i < |st.list|
    ensures st.list[i].Page? && st.list[i].p in st.pages
    ensures Header(g, d, bm, st.list[i].p, sh) && !AllUsed(g, d, bm, st.list[i].p, sh)
    ensures !Full(g, st.list[i].p, sh, st.taken)
  {
    hide Own, Chunks, Header, Used, Full, AllUsed, IsRing;
    var p := st.list[i].p;
    assert st.list[i] in st.list && PageWords(g, d, bm, p, sh, st.taken);
    FullBits(g, d, bm, p, sh, st.taken);
  }

  lemma DropReady(g: Geo, d0: Table, d: Table, k: nat, sh: nat, st: SizeClass)
    requires 6 <= g.pageShift && sh <= g.pageShift && Lists(g, d0, k, sh, st) && st.list != []
    requires d.next == d0.next && d.prev == d0.prev && d.slab.Keys == d.next.Keys == d.prev.Keys == d.tag.Keys
    ensures Droppable(d, st.list[0]) && d.prev[st.list[0]] != st.list[0]
  {
    hide Full;
    CutRing(d, Slot(k), st.list, 0);
  }

  lemma FreshInstalled(g: Geo, d: Table, d': Table, bm: Bitmaps, k: nat, p: int, sh: nat, w: nat)
    requires 6 <= g.pageShift <= 16 && sh < g.pageShift && FreshWord(g, bm, p, sh, w)
    requires Head(d, p) && Slot(k) in d.next && d' == Install(d, Slot(k), Page(p), w, TypeOf(g, sh))
    ensures Fresh(g, d', bm, p, sh)
  {
    hide Fresh, FreshWord, TypeOf;
    FreshPage(g, d', bm, p, sh, w);
  }

  // The page of a chunk handed out.
  lemma TakenPage(g: Geo, d: Table, bm: Bitmaps, k: nat, sh: nat, st: SizeClass, p: int)
    requires 6 <= g.pageShift && sh < g.pageShift && Words(g, d, bm, sh, st) && Lists(g, d, k, sh, st) && p in st.pages
    ensures Header(g, d, bm, p, sh) && Page(p) in d.next && Page(p) in d.slab
    ensures d.next[Page(p)] == Null <==> Full(g, p, sh, st.taken)
    ensures sh == ExactShift(g) ==> (d.slab[Page(p)] == Ones(64) <==> Full(g, p, sh, st.taken))
  {
    hide Own, Chunks, Used, Full, AllUsed, Header;
    assert PageWords(g, d, bm, p, sh, st.taken);
    assert Page(p) in st.list <==> !Full(g, p, sh, st.taken);
    PageTag(g, d, bm, sh, st, p);
    FullBits(g, d, bm, p, sh, st.taken);
    if sh == ExactShift(g) {
      ExactFull(g, d, bm, p, sh);
    }
    if Page(p) in st.list {
      var i :| 0 <= i < |st.list| && st.list[i] == Page(p);
      LinkAt(d.next, d.prev, Slot(k), st.list, i + 1);
      assert Nth(Slot(k), st.list, i + 1) == Page(p);
      assert i + 1 < |st.list| ==> st.list[i + 1] in st.list;
      assert d.next[Page(p)] != Null;
    }
  }

  lemma PushReady(g: Geo, d: Table, bm: Bitmaps, k: nat, sh: nat, st: SizeClass, p: int)
    requires 6 <= g.pageShift && sh < g.pageShift && Words(g, d, bm, sh, st) && Lists(g, d, k, sh, st) && p in st.pages
    requires Full(g, p, sh, st.taken) && d.slab.Keys == d.next.Keys == d.prev.Keys == d.tag.Keys
    ensures Pushable(d, Slot(k), Page(p)) && d.next[Slot(k)] != Page(p)
    ensures Header(g, Push(d, Slot(k), Page(p), TypeOf(g, sh)), bm, p, sh)
  {
    hide Full, Push, TypeOf;
    assert Page(p) in st.list <==> !Full(g, p, sh, st.taken);
    PushRing(d, Slot(k), Page(p), st.list, TypeOf(g, sh));
    PageTag(g, d, bm, sh, st, p);
    PushedAt(d, Slot(k), Page(p), TypeOf(g, sh), Page(p));
  }

  // The bits tell whether a page has a chunk handed out.
  lemma EmptyPage(g: Geo, d: Table, bm: Bitmaps, k: nat, st: SizeClass, stat: Stat, p: int)
    requires 6 <= g.pageShift && g.minShift + k < g.pageShift && SlotOk(g, d, bm, k, st, stat) && p in st.pages
    ensures NoneUsed(g, d, bm, p, g.minShift + k) <==> !Lives(p, st.taken)
  {
    hide Own, Chunks, Header, Used, Lists;
    var sh := g.minShift + k;
    assert PageWords(g, d, bm, p, sh, st.taken);
    if !NoneUsed(g, d, bm, p, sh) {
      var i: nat :| Own(g, sh) <= i < Chunks(g, sh) && Used(g, d, bm, p, sh, i);
      assert Chunk(p, i) in st.taken;
    }
    if Lives(p, st.taken) {
      var i: nat :| Chunk(p, i) in st.taken;
      assert Used(g, d, bm, p, sh, i);
    }
  }

  lemma ListedAt(g: Geo, d: Table, k: nat, sh: nat, st: SizeClass, p: int) returns (i: nat)
    requires 6 <= g.pageShift && sh <= g.pageShift && Lists(g, d, k, sh, st) && p in st.pages
    requires !Lives(p, st.taken) && Own(g, sh) < Chunks(g, sh)
    ensures i < |st.list| && st.list[i] == Page(p)
  {
    hide Own, Chunks, IsRing;
    assert Page(p) in st.list <==> !Full(g, p, sh, st.taken);
    assert Chunk(p, Own(g, sh)) !in st.taken;
    i :| 0 <= i < |st.list| && st.list[i] == Page(p);
  }
}
