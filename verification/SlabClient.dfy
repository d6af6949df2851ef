// Any run of requests to a slab pool, in which only blocks that are in hand are given back.

module SlabClient {
  import opened SlabRuns
  import opened SlabPages
  import opened SlabFree
  import opened SlabSlots
  import opened SlabChunks
  import opened SlabBlocks
  import opened SlabSteps
  import opened SlabChecks
  import opened SlabPool

  datatype Request = Alloc(size: nat) | Free(addr: int)

  // The blocks in hand after these requests and answers, with the sizes asked for.
  function InHand(requests: seq<Request>, answers: seq<int>): map<int, nat>
    requires |requests| == |answers|
  {
    if requests == [] then map[]
    else
      var n := |requests| - 1;
      var before := InHand(requests[..n], answers[..n]);
      match requests[n]
      case Alloc(size) => if answers[n] == 0 then before else before[answers[n] := size]
      case Free(addr) => before - {addr}
  }

  // The pool has handed out just the blocks in hand, and each is large enough.
  ghost predicate Tracks(g: Geo, runs: seq<Run>, sts: seq<SizeClass>, live: map<int, nat>) {
    && (forall h: Holder {:trigger Held(runs, sts, h)} :: Held(runs, sts, h) ==>
          BlockOf(g, h).addr in live && live[BlockOf(g, h).addr] <= BlockOf(g, h).bytes)
    && forall a :: a in live ==> InPool(g, runs, sts, a)
  }

  ghost predicate InPool(g: Geo, runs: seq<Run>, sts: seq<SizeClass>, a: int) {
    exists h :: Held(runs, sts, h) && BlockOf(g, h).addr == a
  }

  lemma TracksMore(g: Geo, d: Table, bm: Bitmaps, n: nat, runs: seq<Run>, list: seq<Ptr>, sts: seq<SizeClass>,
                   stats: seq<Stat>, runs0: seq<Run>, sts0: seq<SizeClass>, live: map<int, nat>, h: Holder, size: nat)
    requires Sound(g, d, bm, n, runs, list, sts, stats) && Gains(runs0, sts0, runs, sts, h)
    requires Tracks(g, runs0, sts0, live) && size <= BlockOf(g, h).bytes
    ensures Tracks(g, runs, sts, live[BlockOf(g, h).addr := size])
  {
    hide Sound, Held, BlockOf;
    var addr := BlockOf(g, h).addr;
    var live' := live[addr := size];
    assert Held(runs, sts, h);
    forall x: Holder | Held(runs, sts, x)
      ensures BlockOf(g, x).addr in live' && live'[BlockOf(g, x).addr] <= BlockOf(g, x).bytes
    {
      if BlockOf(g, x).addr == addr {
        OneBlockAt(g, d, bm, n, runs, list, sts, stats, x, h);
      }
    }
    forall a | a in live'
      ensures InPool(g, runs, sts, a)
    {
      if a != addr {
        assert InPool(g, runs0, sts0, a);
        var x :| Held(runs0, sts0, x) && BlockOf(g, x).addr == a;
        assert Held(runs, sts, x);
      }
    }
  }

  lemma TracksLess(g: Geo, d: Table, bm: Bitmaps, n: nat, runs0: seq<Run>, list0: seq<Ptr>, sts0: seq<SizeClass>,
                   stats: seq<Stat>, runs: seq<Run>, sts: seq<SizeClass>, live: map<int, nat>, h: Holder)
    requires Sound(g, d, bm, n, runs0, list0, sts0, stats) && Loses(runs0, sts0, runs, sts, h)
    requires Tracks(g, runs0, sts0, live)
    ensures Tracks(g, runs, sts, live - {BlockOf(g, h).addr})
  {
    hide Sound, Held, BlockOf;
    var addr := BlockOf(g, h).addr;
    forall x: Holder | Held(runs, sts, x)
      ensures BlockOf(g, x).addr in live - {addr} && live[BlockOf(g, x).addr] <= BlockOf(g, x).bytes
    {
      assert Held(runs0, sts0, x);
      if BlockOf(g, x).addr == addr {
        OneBlockAt(g, d, bm, n, runs0, list0, sts0, stats, x, h);
      }
    }
    forall a | a in live - {addr}
      ensures InPool(g, runs, sts, a)
    {
      assert InPool(g, runs0, sts0, a);
      var x :| Held(runs0, sts0, x) && BlockOf(g, x).addr == a;
      assert Held(runs, sts, x);
    }
  }

  ghost predicate Apart(live: map<int, nat>, lo: int, hi: int) {
    && (forall a :: a in live ==> lo <= a && a + live[a] <= hi)
    && forall a, b :: a in live && b in live && a < b ==> a + live[a] <= b
  }

  lemma TracksApart(g: Geo, d: Table, bm: Bitmaps, n: nat, runs: seq<Run>, list: seq<Ptr>, sts: seq<SizeClass>,
                    stats: seq<Stat>, live: map<int, nat>)
    requires Sound(g, d, bm, n, runs, list, sts, stats) && Tracks(g, runs, sts, live)
    ensures Apart(live, g.start, PageAddr(g, n))
    ensures live == map[] ==> runs == [Run(n, FreeRun)] && list == [Page(0)] && FreeTotal(runs) == n
  {
    hide Laid, Coalesced, NoLimbo, Homes, SlotsOk, AllInhabited, Held, BlockOf;
    forall a | a in live
      ensures g.start <= a && a + live[a] <= PageAddr(g, n)
    {
      assert InPool(g, runs, sts, a);
      var h :| Held(runs, sts, h) && BlockOf(g, h).addr == a;
      BlockPlaced(g, d, bm, n, runs, list, sts, stats, h);
    }
    forall a, b | a in live && b in live && a < b
      ensures a + live[a] <= b
    {
      assert InPool(g, runs, sts, a) && InPool(g, runs, sts, b);
      var h :| Held(runs, sts, h) && BlockOf(g, h).addr == a;
      var h' :| Held(runs, sts, h') && BlockOf(g, h').addr == b;
      BlocksDisjoint(g, d, bm, n, runs, list, sts, stats, h, h');
      BlockPlaced(g, d, bm, n, runs, list, sts, stats, h');
    }
    if live == map[] {
      forall h: Holder
        ensures !Held(runs, sts, h)
      {
        assert Held(runs, sts, h) ==> BlockOf(g, h).addr in live;
      }
      NothingHeld(g, d, bm, n, runs, list, sts, stats);
    }
  }

  // The state of a pool between two requests
  datatype Snapshot = Snapshot(d: Table, bm: Bitmaps, runs: seq<Run>, list: seq<Ptr>, sts: seq<SizeClass>,
                               stats: seq<Stat>)

  // A sound state in which just the blocks in hand are handed out
  ghost predicate Stands(g: Geo, n: nat, s: Snapshot, live: map<int, nat>) {
    Sound(g, s.d, s.bm, n, s.runs, s.list, s.sts, s.stats) && Tracks(g, s.runs, s.sts, live)
  }

  // No free run is long enough, and no page has a free chunk of the right size.
  ghost predicate NoRoom(g: Geo, s: Snapshot, size: nat) {
    && (forall x :: x in s.runs && x.kind == FreeRun ==> x.len < PagesFor(g, size))
    && (size <= PageSize(g) / 2 ==> exists k :: 0 <= k < |s.sts| && Serves(g, k, size) && s.sts[k].list == [])
  }

  // State s before request i, which explains a NULL
  ghost predicate Before(g: Geo, n: nat, requests: seq<Request>, answers: seq<int>, s: Snapshot, i: nat)
    requires i < |requests| && i < |answers|
  {
    && Stands(g, n, s, InHand(requests[..i], answers[..i]))
    && (requests[i].Alloc? && answers[i] == 0 ==> NoRoom(g, s, requests[i].size))
  }

  // With nothing in hand all pages are there.
  lemma AllThere(g: Geo, n: nat, s: Snapshot, size: nat)
    requires Stands(g, n, s, map[]) && NoRoom(g, s, size)
    ensures n < PagesFor(g, size)
  {
    hide Sound, Tracks, PagesFor, Serves;
    TracksApart(g, s.d, s.bm, n, s.runs, s.list, s.sts, s.stats, map[]);
    assert Run(n, FreeRun) in s.runs;
  }

  // Whatever the requests are, the blocks in hand afterwards are where they should be, and
  // when there are none the pool is as it was at the start. A request is answered with NULL
  // only in a state without room for it; `seen` are the states before the requests.
  method Serve(pool: SlabPool, requests: seq<Request>) returns (answers: seq<int>, ghost seen: seq<Snapshot>)
    requires pool.Valid() && NoneHeld(pool.runs, pool.sts)
    modifies pool
    ensures pool.Valid() && |answers| == |seen| == |requests|
    ensures forall i :: 0 <= i < |requests| ==> Before(pool.g, pool.n, requests, answers, seen[i], i)
    ensures forall i :: 0 <= i < |requests| && requests[i].Alloc? && answers[i] == 0 ==>
              InHand(requests[..i], answers[..i]) == map[] ==> pool.n < PagesFor(pool.g, requests[i].size)
    ensures Tracks(pool.g, pool.runs, pool.sts, InHand(requests, answers))
    ensures Apart(InHand(requests, answers), pool.g.start, PageAddr(pool.g, pool.n))
    ensures InHand(requests, answers) == map[] ==>
              pool.runs == [Run(pool.n, FreeRun)] && pool.list == [Page(0)] && pool.pfree == pool.n
  {
    hide Sound, Held, BlockOf, Gains, Loses, Tracks, Serves, PagesFor, Stands, NoRoom, Apart, Before, InHand;
    answers, seen := [], [];
    var live: map<int, nat> := map[];
    NothingTracked(pool.g, pool.runs, pool.sts);
    NothingYet(requests);
    var i := 0;
    while i < |requests|
      invariant i == |answers| <= |requests| && pool.Valid()
      invariant live == InHand(requests[..i], answers) && Tracks(pool.g, pool.runs, pool.sts, live)
      invariant |seen| == i
      invariant forall j :: 0 <= j < i ==> Before(pool.g, pool.n, requests, answers, seen[j], j)
    {
      ghost var d0, bm0, runs0, list0, sts0, stats0 := pool.d, pool.bm, pool.runs, pool.list, pool.sts, pool.stats;
      ghost var now := Snapshot(d0, bm0, runs0, list0, sts0, stats0);
      StandsNow(pool.g, pool.n, now, live);
      var addr := 0;
      match requests[i] {
        case Alloc(size) =>
          ghost var h;
          addr, h := pool.AllocLocked(size);
          if addr != 0 {
            TracksMore(pool.g, pool.d, pool.bm, pool.n, pool.runs, pool.list, pool.sts, pool.stats, runs0, sts0, live,
                       h, size);
            live := live[addr := size];
          } else {
            NullMeans(pool.g, now, size);
          }
        case Free(a) =>
          if a in live {
            ghost var h := HolderAt(pool.g, pool.d, pool.bm, pool.n, pool.runs, pool.list, pool.sts, pool.stats, live,
                                    a);
            pool.FreeLive(a, h);
            TracksLess(pool.g, d0, bm0, pool.n, runs0, list0, sts0, stats0, pool.runs, pool.sts, live, h);
            live := live - {a};
          }
      }
      Answered(requests, answers, addr, i);
      BeforeMore(pool.g, pool.n, requests, answers, seen, now, addr, i);
      answers, seen := answers + [addr], seen + [now];
      i := i + 1;
    }
    assert requests[..i] == requests;
    TracksApart(pool.g, pool.d, pool.bm, pool.n, pool.runs, pool.list, pool.sts, pool.stats, live);
    forall j | 0 <= j < |requests| && requests[j].Alloc? && answers[j] == 0
      ensures InHand(requests[..j], answers[..j]) == map[] ==> pool.n < PagesFor(pool.g, requests[j].size)
    {
      EmptyHand(pool.g, pool.n, requests, answers, seen[j], j);
    }
  }

  lemma EmptyHand(g: Geo, n: nat, requests: seq<Request>, answers: seq<int>, s: Snapshot, i: nat)
    requires i < |requests| == |answers| && requests[i].Alloc? && answers[i] == 0
    requires Before(g, n, requests, answers, s, i)
    ensures InHand(requests[..i], answers[..i]) == map[] ==> n < PagesFor(g, requests[i].size)
  {
    hide Stands, NoRoom, PagesFor, InHand;
    if InHand(requests[..i], answers[..i]) == map[] {
      AllThere(g, n, s, requests[i].size);
    }
  }

  lemma BeforeMore(g: Geo, n: nat, requests: seq<Request>, answers: seq<int>, seen: seq<Snapshot>, s: Snapshot,
                   addr: int, i: nat)
    requires i == |answers| == |seen| < |requests| && Stands(g, n, s, InHand(requests[..i], answers))
    requires forall j :: 0 <= j < i ==> Before(g, n, requests, answers, seen[j], j)
    requires requests[i].Alloc? && addr == 0 ==> NoRoom(g, s, requests[i].size)
    ensures forall j :: 0 <= j <= i ==> Before(g, n, requests, answers + [addr], (seen + [s])[j], j)
  {
    hide Stands, NoRoom, InHand;
    forall j | 0 <= j <= i
      ensures Before(g, n, requests, answers + [addr], (seen + [s])[j], j)
    {
      assert (answers + [addr])[..j] == answers[..j];
      if j < i {
        assert Before(g, n, requests, answers, seen[j], j);
      } else {
        assert answers[..i] == answers;
      }
    }
  }

  lemma StandsNow(g: Geo, n: nat, s: Snapshot, live: map<int, nat>)
    requires Sound(g, s.d, s.bm, n, s.runs, s.list, s.sts, s.stats) && Tracks(g, s.runs, s.sts, live)
    ensures Stands(g, n, s, live)
  {
  }

  lemma NullMeans(g: Geo, s: Snapshot, size: nat)
    requires forall x :: x in s.runs && x.kind == FreeRun ==> x.len < PagesFor(g, size)
    requires size <= PageSize(g) / 2 ==> exists k :: 0 <= k < |s.sts| && Serves(g, k, size) && s.sts[k].list == []
    ensures NoRoom(g, s, size)
  {
  }

  lemma NothingYet(requests: seq<Request>)
    ensures InHand(requests[..0], []) == map[]
  {
  }

  lemma NothingTracked(g: Geo, runs: seq<Run>, sts: seq<SizeClass>)
    requires NoneHeld(runs, sts)
    ensures Tracks(g, runs, sts, map[])
  {
    hide Held;
  }

  lemma Answered(requests: seq<Request>, answers: seq<int>, addr: int, i: nat)
    requires i == |answers| < |requests|
    ensures
      var before := InHand(requests[..i], answers);
      InHand(requests[..i + 1], answers + [addr]) ==
      match requests[i]
      case Alloc(size) => if addr == 0 then before else before[addr := size]
      case Free(a) => before - {a}
  {
    assert requests[..i + 1][..i] == requests[..i] && (answers + [addr])[..i] == answers;
  }

  lemma HolderAt(g: Geo, d: Table, bm: Bitmaps, n: nat, runs: seq<Run>, list: seq<Ptr>, sts: seq<SizeClass>,
                 stats: seq<Stat>, live: map<int, nat>, a: int) returns (h: Holder)
    requires Sound(g, d, bm, n, runs, list, sts, stats) && Tracks(g, runs, sts, live) && a in live
    ensures Held(runs, sts, h) && BlockOf(g, h).addr == a && 0 < a
  {
    hide Sound, Held, BlockOf;
    assert InPool(g, runs, sts, a);
    h :| Held(runs, sts, h) && BlockOf(g, h).addr == a;
    BlockPositive(g, d, bm, n, runs, list, sts, stats, h);
  }
}
