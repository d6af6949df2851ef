// Pages cut into chunks of one size: the three layouts of ngx_slab.c, and the list and
// the statistics of each chunk size.

module SlabSlots {
  import opened Ring
  import opened SlabRuns
  import opened SlabPages
  import opened SlabFree
  import opened MachineWords

  // Page size and smallest chunk size, as powers of two, and the address of page 0.
  datatype Geo = Geo(pageShift: nat, minShift: nat, start: nat)

  function PageSize(g: Geo): nat {
    Pow2(g.pageShift)
  }

  ghost predicate Sane(g: Geo, n: nat) {
    && 6 <= g.pageShift <= 16 && g.minShift < g.pageShift
    && 0 < g.start && g.start % PageSize(g) == 0 && g.start + n * PageSize(g) < 0x1_0000_0000_0000_0000
  }

  function Slots(g: Geo): nat
    requires g.minShift < g.pageShift
  {
    g.pageShift - g.minShift
  }

  // A page is cut into at most 64 chunks of the exact size.
  function ExactShift(g: Geo): nat
    requires 6 <= g.pageShift
  {
    g.pageShift - 6
  }

  // ngx_pagesize >> shift
  function Chunks(g: Geo, sh: nat): nat
    requires sh <= g.pageShift
  {
    Pow2(g.pageShift - sh)
  }

  // The chunks at the start of a page that hold its own bitmap.
  function Own(g: Geo, sh: nat): nat
    requires 6 <= g.pageShift && sh <= g.pageShift
  {
    if sh < ExactShift(g) then
      var m := High(Chunks(g, sh), sh + 3);
      if m == 0 then 1 else m
    else 0
  }

  function TypeOf(g: Geo, sh: nat): (t: nat)
    requires 6 <= g.pageShift
    ensures t != SLAB_PAGE
  {
    if sh < ExactShift(g) then SLAB_SMALL else if sh == ExactShift(g) then SLAB_EXACT else SLAB_BIG
  }

  lemma ChunkCount(g: Geo, sh: nat)
    requires 6 <= g.pageShift && sh < g.pageShift
    ensures Chunks(g, sh) * Pow2(sh) == PageSize(g) && High(PageSize(g), sh) == Chunks(g, sh)
    ensures sh < ExactShift(g) ==> Chunks(g, sh) >= 128 && Chunks(g, sh) % 64 == 0
    ensures sh == ExactShift(g) ==> Chunks(g, sh) == 64
    ensures sh > ExactShift(g) ==> 2 <= Chunks(g, sh) <= 32
  {
    hide High, Low, Pow2;
    PowAdd(g.pageShift - sh, sh);
    Parts(Chunks(g, sh), 0, sh);
    PowValues();
    PowMonotone(1, g.pageShift - sh);
    if sh < ExactShift(g) {
      PowMonotone(7, g.pageShift - sh);
      SixtyFourth(g.pageShift - sh);
    } else if sh > ExactShift(g) {
      PowMonotone(g.pageShift - sh, 5);
    }
  }

  lemma PowValues()
    ensures Pow2(0) == 1 && Pow2(1) == 2 && Pow2(5) == 32 && Pow2(6) == 64 && Pow2(7) == 128
  {
    assert Pow2(2) == 4 && Pow2(3) == 8 && Pow2(4) == 16;
  }

  lemma SixtyFourth(e: nat)
    requires 6 <= e
    ensures Pow2(e) % 64 == 0
  {
    assert Pow2(e) == 2 * Pow2(e - 1) && Pow2(e - 1) == 2 * Pow2(e - 2) && Pow2(e - 2) == 2 * Pow2(e - 3);
    assert Pow2(e - 3) == 2 * Pow2(e - 4) && Pow2(e - 4) == 2 * Pow2(e - 5) && Pow2(e - 5) == 2 * Pow2(e - 6);
  }

  lemma OwnValue(g: Geo, sh: nat)
    requires 6 <= g.pageShift && sh < ExactShift(g)
    ensures Own(g, sh) == if sh + 3 <= g.pageShift - sh then Pow2(g.pageShift - sh - (sh + 3)) else 1
  {
    hide Low;
    var e := g.pageShift - sh;
    if sh + 3 <= e {
      PowAdd(e - (sh + 3), sh + 3);
      Parts(Pow2(e - (sh + 3)), 0, sh + 3);
    } else {
      PowInjective(e, sh + 3);
      SmallWord(Chunks(g, sh), sh + 3);
    }
  }

  // The own chunks cover the bitmap, one bit a chunk, and leave at least two others.
  lemma OwnCount(g: Geo, sh: nat)
    requires 6 <= g.pageShift && sh < g.pageShift
    ensures sh < ExactShift(g) ==> 0 < Own(g, sh) && Own(g, sh) * Pow2(sh) >= Chunks(g, sh) / 8
    ensures sh >= ExactShift(g) ==> Own(g, sh) == 0
    ensures Own(g, sh) + 1 < Chunks(g, sh)
  {
    hide High, Low;
    ChunkCount(g, sh);
    if sh < ExactShift(g) {
      var e := g.pageShift - sh;
      OwnValue(g, sh);
      EighthPart(e);
      if sh + 3 <= e {
        PowAdd(e - (sh + 3), sh);
        PowMonotone(e - (sh + 3), e - 3);
      } else {
        PowMonotone(e - 3, sh);
      }
    }
  }

  lemma EighthPart(e: nat)
    requires 3 <= e
    ensures Pow2(e) / 8 == Pow2(e - 3) && Pow2(e) == 8 * Pow2(e - 3)
  {
    assert Pow2(e) == 2 * Pow2(e - 1) && Pow2(e - 1) == 2 * Pow2(e - 2) && Pow2(e - 2) == 2 * Pow2(e - 3);
  }

  datatype Chunk = Chunk(page: int, index: nat)

  // What a chunk size owns: its pages, the chunks handed out, and the list of the pages
  // that have a chunk left.
  datatype SizeClass = SizeClass(pages: set<int>, taken: set<Chunk>, list: seq<Ptr>)

  datatype Stat = Stat(used: int, total: int)

  type Bitmaps = map<int, seq<nat>>

  // -------- the words of a page --------

  ghost predicate Header(g: Geo, d: Table, bm: Bitmaps, p: int, sh: nat)
    requires 6 <= g.pageShift && sh < g.pageShift
  {
    && Head(d, p) && d.tag[Page(p)] == TypeOf(g, sh)
    && (sh < ExactShift(g) ==>
          && d.slab[Page(p)] == sh && p in bm && |bm[p]| == Chunks(g, sh) / 64
          && forall w :: w in bm[p] ==> w < Pow2(64))
    && (sh == ExactShift(g) ==> d.slab[Page(p)] < Pow2(64))
    && (sh > ExactShift(g) ==> Low(d.slab[Page(p)], 32) == sh && High(d.slab[Page(p)], 32) < Pow2(Chunks(g, sh)))
  }

  // The bit of chunk i.
  ghost predicate Used(g: Geo, d: Table, bm: Bitmaps, p: int, sh: nat, i: nat)
    requires 6 <= g.pageShift
  {
    if sh < ExactShift(g) then p in bm && i / 64 < |bm[p]| && Bit(bm[p][i / 64], i % 64)
    else Page(p) in d.slab && Bit(d.slab[Page(p)], if sh == ExactShift(g) then i else 32 + i)
  }

  ghost predicate Full(g: Geo, p: int, sh: nat, taken: set<Chunk>)
    requires 6 <= g.pageShift && sh <= g.pageShift
  {
    forall i: nat :: Own(g, sh) <= i < Chunks(g, sh) ==> Chunk(p, i) in taken
  }

  ghost predicate PageWords(g: Geo, d: Table, bm: Bitmaps, p: int, sh: nat, taken: set<Chunk>)
    requires 6 <= g.pageShift && sh < g.pageShift
  {
    && Header(g, d, bm, p, sh)
    && forall i: nat {:trigger Used(g, d, bm, p, sh, i)} :: i < Chunks(g, sh) ==>
         (Used(g, d, bm, p, sh, i) <==> i < Own(g, sh) || Chunk(p, i) in taken)
  }

  // -------- one chunk size --------

  ghost predicate Words(g: Geo, d: Table, bm: Bitmaps, sh: nat, st: SizeClass)
    requires 6 <= g.pageShift && sh < g.pageShift
  {
    forall p {:trigger PageWords(g, d, bm, p, sh, st.taken)} :: p in st.pages ==> PageWords(g, d, bm, p, sh, st.taken)
  }

  // The pages that are not full are listed, and the full ones have no list links.
  ghost predicate Lists(g: Geo, d: Table, k: nat, sh: nat, st: SizeClass)
    requires 6 <= g.pageShift && sh <= g.pageShift
  {
    && IsRing(d.next, d.prev, Slot(k), st.list)
    && (forall x :: x in st.list ==> x.Page? && x.p in st.pages)
    && (forall p {:trigger Full(g, p, sh, st.taken)} :: p in st.pages ==>
          && Page(p) in d.next && (Page(p) in st.list <==> !Full(g, p, sh, st.taken))
          && (Full(g, p, sh, st.taken) ==> d.next[Page(p)] == Null))
  }

  ghost predicate Counts(g: Geo, sh: nat, st: SizeClass, stat: Stat)
    requires 6 <= g.pageShift && sh <= g.pageShift
  {
    && (forall c :: c in st.taken ==> c.page in st.pages && Own(g, sh) <= c.index < Chunks(g, sh))
    && stat.used == |st.taken| && stat.total == |st.pages| * (Chunks(g, sh) - Own(g, sh))
  }

  // Every page has a chunk handed out.
  ghost predicate Inhabited(st: SizeClass) {
    forall p {:trigger Lives(p, st.taken)} :: p in st.pages ==> Lives(p, st.taken)
  }

  ghost predicate Lives(p: int, taken: set<Chunk>) {
    exists i: nat :: Chunk(p, i) in taken
  }

  ghost predicate SlotOk(g: Geo, d: Table, bm: Bitmaps, k: nat, st: SizeClass, stat: Stat)
    requires 6 <= g.pageShift && g.minShift + k < g.pageShift
  {
    var sh := g.minShift + k;
    Words(g, d, bm, sh, st) && Lists(g, d, k, sh, st) && Counts(g, sh, st, stat)
  }

  // -------- marking and clearing a bit --------

  ghost predicate OnlySlab(d: Table, d': Table, bm: Bitmaps, bm': Bitmaps, p: int) {
    && SameKeys(d, d') && d'.next == d.next && d'.prev == d.prev && d'.tag == d.tag
    && (forall q :: q in d.slab && q != Page(p) ==> q in d'.slab && d'.slab[q] == d.slab[q])
    && (forall q :: q in bm && q != p ==> q in bm' && bm'[q] == bm[q])
  }

  // Bit i of the page becomes `b`.
  ghost predicate Changed(g: Geo, d: Table, bm: Bitmaps, d': Table, bm': Bitmaps, p: int, sh: nat, i: nat, b: bool)
    requires 6 <= g.pageShift && sh < g.pageShift
  {
    && OnlySlab(d, d', bm, bm', p) && Header(g, d', bm', p, sh)
    && forall j: nat {:trigger Used(g, d', bm', p, sh, j)} :: j < Chunks(g, sh) ==>
         (Used(g, d', bm', p, sh, j) <==> if j == i then b else Used(g, d, bm, p, sh, j))
  }

  ghost function Retaken(taken: set<Chunk>, c: Chunk, b: bool): set<Chunk> {
    if b then taken + {c} else taken - {c}
  }

  lemma ChangedWords(g: Geo, d: Table, bm: Bitmaps, d': Table, bm': Bitmaps, sh: nat, st: SizeClass, p: int, i: nat,
                     b: bool)
    requires 6 <= g.pageShift && sh < g.pageShift && p in st.pages && Own(g, sh) <= i < Chunks(g, sh)
    requires Words(g, d, bm, sh, st) && Changed(g, d, bm, d', bm', p, sh, i, b)
    ensures Words(g, d', bm', sh, st.(taken := Retaken(st.taken, Chunk(p, i), b)))
  {
    hide Bit, Own, Chunks, High, Low;
    var taken' := Retaken(st.taken, Chunk(p, i), b);
    forall q | q in st.pages
      ensures PageWords(g, d', bm', q, sh, taken')
    {
      assert PageWords(g, d, bm, q, sh, st.taken);
      forall j: nat | j < Chunks(g, sh)
        ensures Used(g, d', bm', q, sh, j) <==> j < Own(g, sh) || Chunk(q, j) in taken'
      {
        assert Used(g, d, bm, q, sh, j) <==> j < Own(g, sh) || Chunk(q, j) in st.taken;
        assert q != p ==> (Used(g, d', bm', q, sh, j) <==> Used(g, d, bm, q, sh, j));
        assert q == p ==> (Used(g, d', bm', q, sh, j) <==> if j == i then b else Used(g, d, bm, q, sh, j));
      }
    }
  }

  lemma FullElsewhere(g: Geo, sh: nat, q: int, taken: set<Chunk>, c: Chunk, b: bool)
    requires 6 <= g.pageShift && sh <= g.pageShift && q != c.page
    ensures Full(g, q, sh, Retaken(taken, c, b)) <==> Full(g, q, sh, taken)
  {
    hide Own, Chunks;
    var taken' := Retaken(taken, c, b);
    assert forall i: nat :: Chunk(q, i) in taken' <==> Chunk(q, i) in taken;
  }

  // The bits tell whether the page is full.
  lemma FullBits(g: Geo, d: Table, bm: Bitmaps, p: int, sh: nat, taken: set<Chunk>)
    requires 6 <= g.pageShift && sh < g.pageShift && PageWords(g, d, bm, p, sh, taken)
    ensures Full(g, p, sh, taken) <==> AllUsed(g, d, bm, p, sh)
  {
    hide Own, Chunks, Header, Used;
    if AllUsed(g, d, bm, p, sh) {
      forall i: nat | Own(g, sh) <= i < Chunks(g, sh)
        ensures Chunk(p, i) in taken
      {
        assert Used(g, d, bm, p, sh, i);
      }
    }
  }

  ghost predicate AllUsed(g: Geo, d: Table, bm: Bitmaps, p: int, sh: nat)
    requires 6 <= g.pageShift && sh <= g.pageShift
  {
    forall i: nat {:trigger Used(g, d, bm, p, sh, i)} :: i < Chunks(g, sh) ==> Used(g, d, bm, p, sh, i)
  }

  ghost predicate NoneUsed(g: Geo, d: Table, bm: Bitmaps, p: int, sh: nat)
    requires 6 <= g.pageShift && sh <= g.pageShift
  {
    forall i: nat {:trigger Used(g, d, bm, p, sh, i)} :: Own(g, sh) <= i < Chunks(g, sh) ==> !Used(g, d, bm, p, sh, i)
  }

  // -------- the list --------

  // A page that has become full leaves the list.
  function Drop(d: Table, x: Ptr, tag: nat): Table
    requires x in d.next && x in d.prev && x in d.tag && d.prev[x] in d.next && d.next[x] in d.prev
             && d.next[x] in d.tag
  {
    SetPrev(SetNext(CutOut(d, x), x, Null), x, Null, tag)
  }

  // A page that was full goes back to the front of the list.
  function Push(d: Table, h: Ptr, x: Ptr, tag: nat): Table
    requires h in d.next && x in d.next && x in d.prev && x in d.tag && d.next[h] in d.prev && d.next[h] in d.tag
  {
    var first := d.next[h];
    SetPrev(SetPrev(SetNext(SetNext(d, x, first), h, x), x, h, tag), first, x, tag)
  }

  lemma DropRing(d: Table, h: Ptr, list: seq<Ptr>, i: nat, tag: nat)
    requires IsRing(d.next, d.prev, h, list) && i < |list|
    requires d.slab.Keys == d.next.Keys == d.prev.Keys == d.tag.Keys
    ensures
      var x := list[i];
      && x in d.next && x in d.prev && x in d.tag && d.prev[x] in d.next && d.next[x] in d.prev && d.next[x] in d.tag
      && d.prev[x] == Nth(h, list, i) && d.next[x] == Nth(h, list, i + 2) && d.prev[x] != x && d.next[x] != x
      && d.next[x] in d.next
    ensures
      var d' := Drop(d, list[i], tag);
      && IsRing(d'.next, d'.prev, h, Without(list, i))
      && d'.next[list[i]] == Null && d'.tag[list[i]] == tag
  {
    var x, t := list[i], Without(list, i);
    assert x in list;
    LinkAt(d.next, d.prev, h, list, i);
    LinkAt(d.next, d.prev, h, list, i + 1);
    assert Nth(h, list, i + 1) == x;
    RemoveAt(d.next, d.prev, h, list, i);
    WithoutDistinct(list, i);
    var a, b, d' := d.prev[x], d.next[x], Drop(d, x, tag);
    assert x !in Members(h, t);
    RingFrame(d.next[a := b], d.prev[b := a], d'.next, d'.prev, h, t);
  }

  // The ring after the page has been cut out of it.
  lemma CutRing(d: Table, h: Ptr, list: seq<Ptr>, i: nat)
    requires IsRing(d.next, d.prev, h, list) && i < |list|
    requires d.slab.Keys == d.next.Keys == d.prev.Keys == d.tag.Keys
    ensures
      var x := list[i];
      && x in d.next && x in d.prev && x in d.tag && d.prev[x] in d.next && d.next[x] in d.prev && d.next[x] in d.tag
      && (d.prev[x] == h || d.prev[x] in list) && (d.next[x] == h || d.next[x] in list)
      && d.prev[x] != x && d.next[x] != x && d.next[x] in d.next && d.prev[x] in d.tag
      && IsRing(CutOut(d, x).next, CutOut(d, x).prev, h, Without(list, i))
  {
    var x := list[i];
    assert x in list;
    LinkAt(d.next, d.prev, h, list, i);
    LinkAt(d.next, d.prev, h, list, i + 1);
    assert Nth(h, list, i + 1) == x;
    RemoveAt(d.next, d.prev, h, list, i);
  }

  lemma PushedAt(d: Table, h: Ptr, x: Ptr, tag: nat, q: Ptr)
    requires h in d.next && x in d.next && x in d.prev && x in d.tag && d.next[h] in d.prev && d.next[h] in d.tag
    requires q in d.slab && q in d.next && q in d.prev && q in d.tag && x != h && d.next[h] != x
    ensures
      var d', first := Push(d, h, x, tag), d.next[h];
      && q in d'.slab && q in d'.next && q in d'.prev && q in d'.tag
      && d'.slab[q] == d.slab[q]
      && d'.next[q] == (if q == x then first else if q == h then x else d.next[q])
      && d'.prev[q] == (if q == x then h else if q == first then x else d.prev[q])
      && d'.tag[q] == (if q == x || q == first then tag else d.tag[q])
    ensures SameKeys(d, Push(d, h, x, tag))
  {
  }

  lemma PushRing(d: Table, h: Ptr, x: Ptr, list: seq<Ptr>, tag: nat)
    requires IsRing(d.next, d.prev, h, list) && x !in list && x != h && x in d.next
    requires d.slab.Keys == d.next.Keys == d.prev.Keys == d.tag.Keys
    ensures h in d.next && d.next[h] in d.prev && d.next[h] in d.tag && d.next[h] != x
    ensures d.next[h] == h || d.next[h] in list
    ensures IsRing(Push(d, h, x, tag).next, Push(d, h, x, tag).prev, h, [x] + list)
  {
    hide Push, Inserted;
    LinkAt(d.next, d.prev, h, list, 0);
    PushInserted(d, h, x, list, tag);
    var d' := Push(d, h, x, tag);
    InsertAt(d.next, d.prev, h, list, 0, x, d'.next, d'.prev);
    assert With(list, 0, x) == [x] + list;
  }

  lemma PushInserted(d: Table, h: Ptr, x: Ptr, list: seq<Ptr>, tag: nat)
    requires h in d.next && x in d.next && x in d.prev && x in d.tag && d.next[h] in d.prev && d.next[h] in d.tag
    requires d.slab.Keys == d.next.Keys == d.prev.Keys == d.tag.Keys
    requires x !in list && x != h && d.next[h] == Nth(h, list, 1) && d.next[h] != x
    ensures Inserted(d.next, d.prev, Push(d, h, x, tag).next, Push(d, h, x, tag).prev, h, h, Nth(h, list, 1), x,
                     Members(h, list))
  {
    hide Push;
    var d' := Push(d, h, x, tag);
    PushedAt(d, h, x, tag, x);
    PushedAt(d, h, x, tag, h);
    PushedAt(d, h, x, tag, d.next[h]);
    forall q | q in Members(h, list)
      ensures q in d.next && q != h ==> q in d'.next && d'.next[q] == d.next[q]
      ensures q in d.prev ==> q in d'.prev && (q == d.next[h] || d'.prev[q] == d.prev[q])
    {
      if q in d.slab {
        PushedAt(d, h, x, tag, q);
      }
    }
  }
}
