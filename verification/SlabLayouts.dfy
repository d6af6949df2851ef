// The three layouts: writing a bit, and the tests for a full and for an empty page, read
// off the words.

module SlabLayouts {
  import opened SlabRuns
  import opened SlabPages
  import opened MachineWords
  import opened SlabSlots

  function PutBit(w: nat, i: nat, b: bool): nat {
    if b then SetBit(w, i) else ClearBit(w, i)
  }

  function PutWord(words: seq<nat>, w: nat, v: nat): seq<nat>
    requires w < |words|
  {
    words[w := v]
  }

  lemma PutBits(w: nat, i: nat, b: bool, j: nat)
    ensures Bit(PutBit(w, i, b), j) <==> if i == j then b else Bit(w, j)
  {
    SetBits(w, i, j);
    ClearBits(w, i, j);
  }

  lemma PutBound(w: nat, i: nat, b: bool, k: nat)
    requires w < Pow2(k) && i < k
    ensures PutBit(w, i, b) < Pow2(k)
  {
    SetBound(w, i, k);
    ClearBound(w, i);
  }

  // -------- one bit is written --------

  lemma SmallChanged(g: Geo, d: Table, bm: Bitmaps, bm': Bitmaps, p: int, sh: nat, w: nat, i: nat, b: bool)
    requires 6 <= g.pageShift && sh < ExactShift(g) && Header(g, d, bm, p, sh) && w < |bm[p]| && i < 64
    requires bm' == bm[p := PutWord(bm[p], w, PutBit(bm[p][w], i, b))]
    ensures Changed(g, d, bm, d, bm', p, sh, 64 * w + i, b)
  {
    hide Chunks, Bit, PutBit, Pow2, TypeOf;
    assert bm[p][w] in bm[p];
    PutBound(bm[p][w], i, b, 64);
    forall v | v in bm'[p]
      ensures v < Pow2(64)
    {
      var j :| 0 <= j < |bm'[p]| && bm'[p][j] == v;
      assert j != w ==> v == bm[p][j] && v in bm[p];
    }
    forall j: nat | j < Chunks(g, sh)
      ensures Used(g, d, bm', p, sh, j) <==> if j == 64 * w + i then b else Used(g, d, bm, p, sh, j)
    {
      PutBits(bm[p][w], i, b, j % 64);
      assert j / 64 == w && j % 64 == i <==> j == 64 * w + i;
    }
  }

  lemma ExactChanged(g: Geo, d: Table, bm: Bitmaps, p: int, sh: nat, i: nat, b: bool)
    requires 6 <= g.pageShift && sh == ExactShift(g) && Header(g, d, bm, p, sh) && i < 64
    ensures Changed(g, d, bm, SetSlab(d, Page(p), PutBit(d.slab[Page(p)], i, b)), bm, p, sh, i, b)
  {
    hide Chunks, Bit, PutBit;
    var w := d.slab[Page(p)];
    var d' := SetSlab(d, Page(p), PutBit(w, i, b));
    PutBound(w, i, b, 64);
    forall j: nat | j < Chunks(g, sh)
      ensures Used(g, d', bm, p, sh, j) <==> if j == i then b else Used(g, d, bm, p, sh, j)
    {
      PutBits(w, i, b, j);
    }
  }

  lemma BigChanged(g: Geo, d: Table, bm: Bitmaps, p: int, sh: nat, i: nat, b: bool)
    requires 6 <= g.pageShift && ExactShift(g) < sh < g.pageShift && Header(g, d, bm, p, sh) && i < Chunks(g, sh)
    ensures Changed(g, d, bm, SetSlab(d, Page(p), PutBit(d.slab[Page(p)], 32 + i, b)), bm, p, sh, i, b)
  {
    hide Chunks, Bit, High, Low, SetBit, ClearBit, Pow2;
    var w := d.slab[Page(p)];
    var d' := SetSlab(d, Page(p), PutBit(w, 32 + i, b));
    HighBits(w, 32, i);
    PutBound(High(w, 32), i, b, Chunks(g, sh));
    forall j: nat | j < Chunks(g, sh)
      ensures Used(g, d', bm, p, sh, j) <==> if j == i then b else Used(g, d, bm, p, sh, j)
    {
      PutBits(w, 32 + i, b, 32 + j);
    }
  }

  // The chunks before i are all in use.
  ghost predicate FirstFree(g: Geo, d: Table, bm: Bitmaps, p: int, sh: nat, i: nat)
    requires 6 <= g.pageShift
  {
    forall j: nat {:trigger Used(g, d, bm, p, sh, j)} :: j < i ==> Used(g, d, bm, p, sh, j)
  }

  lemma SmallFirst(g: Geo, d: Table, bm: Bitmaps, p: int, sh: nat, w: nat, b: nat)
    requires 6 <= g.pageShift && sh < ExactShift(g) && Header(g, d, bm, p, sh) && w < |bm[p]| && b < 64
    requires (forall v :: 0 <= v < w ==> bm[p][v] == Ones(64)) && AllBits(bm[p][w], b) && !Bit(bm[p][w], b)
    ensures 64 * w + b < Chunks(g, sh) && !Used(g, d, bm, p, sh, 64 * w + b) && FirstFree(g, d, bm, p, sh, 64 * w + b)
  {
    hide Chunks, Bit, Ones;
    ChunkCount(g, sh);
    forall j: nat | j < 64 * w + b
      ensures Used(g, d, bm, p, sh, j)
    {
      OnesBits(64, j % 64);
    }
  }

  // -------- full pages --------

  ghost predicate WordsBusy(words: seq<nat>) {
    forall w :: 0 <= w < |words| ==> words[w] == Ones(64)
  }

  lemma SmallFull(g: Geo, d: Table, bm: Bitmaps, p: int, sh: nat)
    requires 6 <= g.pageShift && sh < ExactShift(g) && Header(g, d, bm, p, sh)
    ensures AllUsed(g, d, bm, p, sh) <==> WordsBusy(bm[p])
  {
    hide Chunks, Bit, Ones;
    ChunkCount(g, sh);
    if AllUsed(g, d, bm, p, sh) {
      forall w | 0 <= w < |bm[p]|
        ensures bm[p][w] == Ones(64)
      {
        forall i: nat | i < 64
          ensures Bit(bm[p][w], i)
        {
          assert Used(g, d, bm, p, sh, 64 * w + i);
        }
        assert bm[p][w] in bm[p];
        AllSet(bm[p][w], 64);
      }
    }
    if WordsBusy(bm[p]) {
      forall i: nat | i < Chunks(g, sh)
        ensures Used(g, d, bm, p, sh, i)
      {
        OnesBits(64, i % 64);
      }
    }
  }

  lemma ExactFull(g: Geo, d: Table, bm: Bitmaps, p: int, sh: nat)
    requires 6 <= g.pageShift && sh == ExactShift(g) && Header(g, d, bm, p, sh)
    ensures AllUsed(g, d, bm, p, sh) <==> d.slab[Page(p)] == Ones(64)
  {
    hide Chunks, Bit, Ones;
    ChunkCount(g, sh);
    var w := d.slab[Page(p)];
    AllSet(w, 64);
    if AllUsed(g, d, bm, p, sh) {
      forall i: nat | i < 64
        ensures Bit(w, i)
      {
        assert Used(g, d, bm, p, sh, i);
      }
    }
  }

  lemma BigFull(g: Geo, d: Table, bm: Bitmaps, p: int, sh: nat)
    requires 6 <= g.pageShift && ExactShift(g) < sh < g.pageShift && Header(g, d, bm, p, sh)
    ensures AllUsed(g, d, bm, p, sh) <==> High(d.slab[Page(p)], 32) == Ones(Chunks(g, sh))
  {
    hide Chunks, Bit, Ones, High, Low;
    var w, c := High(d.slab[Page(p)], 32), Chunks(g, sh);
    AllSet(w, c);
    forall i: nat | i < c
      ensures Used(g, d, bm, p, sh, i) <==> Bit(w, i)
    {
      HighBits(d.slab[Page(p)], 32, i);
    }
    if AllUsed(g, d, bm, p, sh) {
      forall i: nat | i < c
        ensures Bit(w, i)
      {
        assert Used(g, d, bm, p, sh, i);
      }
    }
  }

  // -------- empty pages --------

  // No bit at or after position n.
  ghost predicate WordsClear(words: seq<nat>, n: nat) {
    && n / 64 < |words| && High(words[n / 64], n % 64) == 0
    && forall w :: n / 64 < w < |words| ==> words[w] == 0
  }

  lemma WordCleared(g: Geo, d: Table, bm: Bitmaps, p: int, sh: nat, w: nat)
    requires 6 <= g.pageShift && sh < ExactShift(g) && Header(g, d, bm, p, sh) && NoneUsed(g, d, bm, p, sh)
    requires Own(g, sh) <= 64 * w && w < |bm[p]|
    ensures bm[p][w] == 0
  {
    hide Chunks, Bit, Own, Pow2;
    ChunkCount(g, sh);
    assert bm[p][w] in bm[p];
    NoneSet(bm[p][w], 64);
    forall i: nat | i < 64
      ensures !Bit(bm[p][w], i)
    {
      assert !Used(g, d, bm, p, sh, 64 * w + i);
    }
  }

  lemma FirstCleared(g: Geo, d: Table, bm: Bitmaps, p: int, sh: nat, m: nat, r: nat)
    requires 6 <= g.pageShift && sh < ExactShift(g) && Header(g, d, bm, p, sh) && NoneUsed(g, d, bm, p, sh)
    requires Own(g, sh) == 64 * m + r && r < 64 && m < |bm[p]|
    ensures High(bm[p][m], r) == 0
  {
    hide Chunks, Bit, High, Own, Pow2;
    ChunkCount(g, sh);
    assert bm[p][m] in bm[p];
    HighBound(bm[p][m], r, 64 - r);
    NoneSet(High(bm[p][m], r), 64 - r);
    forall i: nat | i < 64 - r
      ensures !Bit(High(bm[p][m], r), i)
    {
      assert !Used(g, d, bm, p, sh, 64 * m + r + i);
      HighBits(bm[p][m], r, i);
    }
  }

  lemma SmallCleared(g: Geo, d: Table, bm: Bitmaps, p: int, sh: nat)
    requires 6 <= g.pageShift && sh < ExactShift(g) && Header(g, d, bm, p, sh) && NoneUsed(g, d, bm, p, sh)
    ensures WordsClear(bm[p], Own(g, sh))
  {
    hide Chunks, High, Own, Pow2, NoneUsed, Used;
    ChunkCount(g, sh);
    OwnCount(g, sh);
    var words, n := bm[p], Own(g, sh);
    FirstCleared(g, d, bm, p, sh, n / 64, n % 64);
    forall w | n / 64 < w < |words|
      ensures words[w] == 0
    {
      WordCleared(g, d, bm, p, sh, w);
    }
  }

  lemma SmallEmpty(g: Geo, d: Table, bm: Bitmaps, p: int, sh: nat)
    requires 6 <= g.pageShift && sh < ExactShift(g) && Header(g, d, bm, p, sh)
    ensures NoneUsed(g, d, bm, p, sh) <==> WordsClear(bm[p], Own(g, sh))
  {
    hide Chunks, Bit, Ones, High, Own, Pow2;
    if NoneUsed(g, d, bm, p, sh) {
      SmallCleared(g, d, bm, p, sh);
    }
    ChunkCount(g, sh);
    OwnCount(g, sh);
    var words, n := bm[p], Own(g, sh);
    var m, r := n / 64, n % 64;
    if WordsClear(words, n) {
      forall i: nat | n <= i < Chunks(g, sh)
        ensures !Used(g, d, bm, p, sh, i)
      {
        if i / 64 == m {
          HighBits(words[m], r, i % 64 - r);
          ZeroBits(i % 64 - r);
        } else {
          ZeroBits(i % 64);
        }
      }
    }
  }

  lemma ExactEmpty(g: Geo, d: Table, bm: Bitmaps, p: int, sh: nat)
    requires 6 <= g.pageShift && sh == ExactShift(g) && Header(g, d, bm, p, sh)
    ensures NoneUsed(g, d, bm, p, sh) <==> d.slab[Page(p)] == 0
  {
    hide Chunks, Bit, Ones;
    ChunkCount(g, sh);
    var w := d.slab[Page(p)];
    NoneSet(w, 64);
    if NoneUsed(g, d, bm, p, sh) {
      forall i: nat | i < 64
        ensures !Bit(w, i)
      {
        assert !Used(g, d, bm, p, sh, i);
      }
    }
  }

  lemma BigEmpty(g: Geo, d: Table, bm: Bitmaps, p: int, sh: nat)
    requires 6 <= g.pageShift && ExactShift(g) < sh < g.pageShift && Header(g, d, bm, p, sh)
    ensures NoneUsed(g, d, bm, p, sh) <==> High(d.slab[Page(p)], 32) == 0
  {
    hide Chunks, Bit, Ones, High, Low;
    var w, c := High(d.slab[Page(p)], 32), Chunks(g, sh);
    NoneSet(w, c);
    forall i: nat | i < c
      ensures Used(g, d, bm, p, sh, i) <==> Bit(w, i)
    {
      HighBits(d.slab[Page(p)], 32, i);
    }
    if NoneUsed(g, d, bm, p, sh) {
      forall i: nat | i < c
        ensures !Bit(w, i)
      {
        assert !Used(g, d, bm, p, sh, i);
      }
    }
  }

  // -------- new pages: the own chunks and one more are in use --------

  ghost predicate Fresh(g: Geo, d: Table, bm: Bitmaps, p: int, sh: nat)
    requires 6 <= g.pageShift && sh < g.pageShift
  {
    && Header(g, d, bm, p, sh)
    && forall i: nat {:trigger Used(g, d, bm, p, sh, i)} :: i < Chunks(g, sh) ==>
         (Used(g, d, bm, p, sh, i) <==> i <= Own(g, sh))
  }

  // The bitmap of a new small page, n chunks of it in use.
  ghost predicate FirstBits(words: seq<nat>, n: nat) {
    forall w :: 0 <= w < |words| ==> words[w] == if w < n / 64 then Ones(64) else if w == n / 64 then Ones(n % 64)
      else 0
  }

  lemma SmallFresh(g: Geo, d: Table, bm: Bitmaps, p: int, sh: nat)
    requires 6 <= g.pageShift && sh < ExactShift(g) && Head(d, p) && d.tag[Page(p)] == SLAB_SMALL
    requires d.slab[Page(p)] == sh && p in bm && |bm[p]| == Chunks(g, sh) / 64 && FirstBits(bm[p], Own(g, sh) + 1)
    ensures Fresh(g, d, bm, p, sh)
  {
    hide Chunks, Bit, Own, Pow2;
    ChunkCount(g, sh);
    var n := Own(g, sh) + 1;
    forall w | 0 <= w < |bm[p]|
      ensures bm[p][w] < Pow2(64)
    {
      PowMonotone(n % 64, 64);
    }
    forall i: nat | i < Chunks(g, sh)
      ensures Used(g, d, bm, p, sh, i) <==> i < n
    {
      OnesBits(64, i % 64);
      OnesBits(n % 64, i % 64);
      ZeroBits(i % 64);
    }
  }

  lemma ExactFresh(g: Geo, d: Table, bm: Bitmaps, p: int, sh: nat)
    requires 6 <= g.pageShift && sh == ExactShift(g) && Head(d, p) && d.tag[Page(p)] == SLAB_EXACT
    requires d.slab[Page(p)] == 1
    ensures Fresh(g, d, bm, p, sh)
  {
    hide Chunks;
    assert Ones(1) == 1;
    PowMonotone(1, 64);
    forall i: nat
      ensures Used(g, d, bm, p, sh, i) <==> i <= 0
    {
      OnesBits(1, i);
    }
  }

  lemma BigFresh(g: Geo, d: Table, bm: Bitmaps, p: int, sh: nat)
    requires 6 <= g.pageShift <= 16 && ExactShift(g) < sh < g.pageShift && Head(d, p) && d.tag[Page(p)] == SLAB_BIG
    requires d.slab[Page(p)] == SetBit(sh, 32)
    ensures Fresh(g, d, bm, p, sh)
  {
    hide High, Low, SetBit, Bit;
    ChunkCount(g, sh);
    assert Pow2(4) == 16;
    PowMonotone(4, 32);
    SmallWord(sh, 32);
    HighBits(sh, 32, 0);
    assert SetBit(0, 0) == 1 by {
      BitZero();
    }
    PowInjective(0, Chunks(g, sh));
    assert Ones(1) == 1;
    PowMonotone(1, Chunks(g, sh));
    forall i: nat
      ensures Used(g, d, bm, p, sh, i) <==> i <= 0
    {
      HighBits(d.slab[Page(p)], 32, i);
      OnesBits(1, i);
    }
  }

  lemma BitZero()
    ensures SetBit(0, 0) == 1
  {
  }

  ghost predicate FreshWord(g: Geo, bm: Bitmaps, p: int, sh: nat, w: nat)
    requires 6 <= g.pageShift && sh < g.pageShift
  {
    && (sh < ExactShift(g) ==> w == sh && p in bm && |bm[p]| == Chunks(g, sh) / 64 && FirstBits(bm[p], Own(g, sh) + 1))
    && (sh == ExactShift(g) ==> w == 1)
    && (sh > ExactShift(g) ==> w == SetBit(sh, 32))
  }

  lemma FreshPage(g: Geo, d: Table, bm: Bitmaps, p: int, sh: nat, w: nat)
    requires 6 <= g.pageShift <= 16 && sh < g.pageShift && FreshWord(g, bm, p, sh, w)
    requires Head(d, p) && d.tag[Page(p)] == TypeOf(g, sh) && d.slab[Page(p)] == w
    ensures Fresh(g, d, bm, p, sh)
  {
    hide Fresh, Own, Chunks, SetBit;
    if sh < ExactShift(g) {
      SmallFresh(g, d, bm, p, sh);
    } else if sh == ExactShift(g) {
      ExactFresh(g, d, bm, p, sh);
    } else {
      BigFresh(g, d, bm, p, sh);
    }
  }
}
