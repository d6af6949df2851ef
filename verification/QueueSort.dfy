// The stable merge sort of ngx_queue.c, in place on the links.

module QueueSort {
  import opened Ring
  import opened QueueLinks

  type Cmp = (Ref, Ref) -> int

  // -------- the order of a sorted list --------

  ghost predicate Le(cmp: Cmp, x: Ref, y: Ref) {
    cmp(x, y) <= 0
  }

  ghost predicate TotalPreorder(cmp: Cmp) {
    && (forall x, y :: Le(cmp, x, y) || Le(cmp, y, x))
    && (forall x, y, z :: Le(cmp, x, y) && Le(cmp, y, z) ==> Le(cmp, x, z))
  }

  ghost predicate Ordered(cmp: Cmp, s: seq<Ref>) {
    forall i, j :: 0 <= i < j < |s| ==> Le(cmp, s[i], s[j])
  }

  ghost predicate Before(s: seq<Ref>, x: Ref, y: Ref) {
    exists i, j :: 0 <= i < j < |s| && s[i] == x && s[j] == y
  }

  // Elements that need not change places keep their order.
  ghost predicate Stable(cmp: Cmp, s: seq<Ref>, t: seq<Ref>) {
    forall x, y :: Before(s, x, y) && Le(cmp, x, y) ==> Before(t, x, y)
  }

  ghost function Merged(cmp: Cmp, a: seq<Ref>, b: seq<Ref>): seq<Ref> {
    if a == [] then b
    else if b == [] then a
    else if cmp(a[0], b[0]) <= 0 then [a[0]] + Merged(cmp, a[1..], b)
    else [b[0]] + Merged(cmp, a, b[1..])
  }

  ghost function SortOf(cmp: Cmp, s: seq<Ref>): seq<Ref> {
    if |s| < 2 then s else Merged(cmp, SortOf(cmp, s[..|s| / 2]), SortOf(cmp, s[|s| / 2..]))
  }

  // -------- permutation, for any cmp --------

  lemma {:induction false} MergedPermutes(cmp: Cmp, a: seq<Ref>, b: seq<Ref>)
    ensures multiset(Merged(cmp, a, b)) == multiset(a) + multiset(b)
  {
    if a != [] && b != [] {
      assert a == [a[0]] + a[1..] && b == [b[0]] + b[1..];
      if cmp(a[0], b[0]) <= 0 {
        MergedPermutes(cmp, a[1..], b);
      } else {
        MergedPermutes(cmp, a, b[1..]);
      }
    }
  }

  lemma {:induction false} SortPermutes(cmp: Cmp, s: seq<Ref>)
    ensures multiset(SortOf(cmp, s)) == multiset(s)
    ensures |SortOf(cmp, s)| == |s|
  {
    if |s| >= 2 {
      var a, b := s[..|s| / 2], s[|s| / 2..];
      assert s == a + b;
      SortPermutes(cmp, a);
      SortPermutes(cmp, b);
      MergedPermutes(cmp, SortOf(cmp, a), SortOf(cmp, b));
    }
    assert |multiset(SortOf(cmp, s))| == |SortOf(cmp, s)| && |multiset(s)| == |s|;
  }

  lemma SameMembers(s: seq<Ref>, t: seq<Ref>)
    requires multiset(s) == multiset(t)
    ensures forall x :: x in s <==> x in t
  {
    forall x
      ensures x in s <==> x in t
    {
      assert x in s <==> x in multiset(s);
      assert x in t <==> x in multiset(t);
    }
  }

  lemma MergedMember(cmp: Cmp, a: seq<Ref>, b: seq<Ref>, x: Ref)
    ensures x in Merged(cmp, a, b) <==> x in a || x in b
  {
    MergedPermutes(cmp, a, b);
    assert x in Merged(cmp, a, b) <==> x in multiset(Merged(cmp, a, b));
    assert x in multiset(a) + multiset(b) <==> x in a || x in b;
  }

  // -------- order --------

  lemma OrderedTail(cmp: Cmp, s: seq<Ref>)
    requires Ordered(cmp, s) && s != []
    ensures Ordered(cmp, s[1..]) && forall x :: x in s[1..] ==> Le(cmp, s[0], x)
  {
  }

  lemma OrderedCons(cmp: Cmp, x: Ref, s: seq<Ref>)
    requires Ordered(cmp, s) && forall y :: y in s ==> Le(cmp, x, y)
    ensures Ordered(cmp, [x] + s)
  {
    var t := [x] + s;
    forall i, j | 0 <= i < j < |t|
      ensures Le(cmp, t[i], t[j])
    {
      assert t[j] == s[j - 1] && s[j - 1] in s;
    }
  }

  lemma {:induction false} MergedOrdered(cmp: Cmp, a: seq<Ref>, b: seq<Ref>)
    requires TotalPreorder(cmp) && Ordered(cmp, a) && Ordered(cmp, b)
    ensures Ordered(cmp, Merged(cmp, a, b))
  {
    if a != [] && b != [] {
      OrderedTail(cmp, a);
      OrderedTail(cmp, b);
      var first := Le(cmp, a[0], b[0]);
      var x, a', b' := if first then a[0] else b[0], if first then a[1..] else a, if first then b else b[1..];
      MergedOrdered(cmp, a', b');
      forall y | y in Merged(cmp, a', b')
        ensures Le(cmp, x, y)
      {
        MergedMember(cmp, a', b', y);
        assert y in a ==> Le(cmp, a[0], y);
        assert y in b ==> Le(cmp, b[0], y);
        assert Le(cmp, a[0], b[0]) || Le(cmp, b[0], a[0]);
      }
      OrderedCons(cmp, x, Merged(cmp, a', b'));
    }
  }

  lemma {:induction false} SortOrdered(cmp: Cmp, s: seq<Ref>)
    requires TotalPreorder(cmp)
    ensures Ordered(cmp, SortOf(cmp, s))
  {
    if |s| >= 2 {
      SortOrdered(cmp, s[..|s| / 2]);
      SortOrdered(cmp, s[|s| / 2..]);
      MergedOrdered(cmp, SortOf(cmp, s[..|s| / 2]), SortOf(cmp, s[|s| / 2..]));
    }
  }

  // -------- stability --------

  lemma BeforeCons(x: Ref, y: Ref, z: Ref, s: seq<Ref>)
    ensures Before([z] + s, x, y) <==> (x == z && y in s) || Before(s, x, y)
  {
    var t := [z] + s;
    if x == z && y in s {
      var j :| 0 <= j < |s| && s[j] == y;
      assert t[0] == x && t[j + 1] == y;
    }
    if Before(s, x, y) {
      var i, j :| 0 <= i < j < |s| && s[i] == x && s[j] == y;
      assert t[i + 1] == x && t[j + 1] == y;
    }
    if Before(t, x, y) {
      var i, j :| 0 <= i < j < |t| && t[i] == x && t[j] == y;
      assert t[j] == s[j - 1];
      assert i > 0 ==> t[i] == s[i - 1];
    }
  }

  // Either list keeps its order, and of equals the one from the first list comes first.
  lemma {:induction false} MergedStable(cmp: Cmp, a: seq<Ref>, b: seq<Ref>, x: Ref, y: Ref)
    requires TotalPreorder(cmp) && Ordered(cmp, a)
    requires Before(a, x, y) || Before(b, x, y) || (x in a && y in b && Le(cmp, x, y))
    ensures Before(Merged(cmp, a, b), x, y)
  {
    if a != [] && b != [] {
      OrderedTail(cmp, a);
      assert a == [a[0]] + a[1..] && b == [b[0]] + b[1..];
      assert Le(cmp, a[0], a[0]) && forall z :: z in a ==> Le(cmp, a[0], z);
      BeforeCons(x, y, a[0], a[1..]);
      BeforeCons(x, y, b[0], b[1..]);
      if Le(cmp, a[0], b[0]) {
        MergedMember(cmp, a[1..], b, y);
        BeforeCons(x, y, a[0], Merged(cmp, a[1..], b));
        if x != a[0] || Before(a[1..], x, y) || Before(b, x, y) {
          MergedStable(cmp, a[1..], b, x, y);
        }
      } else {
        MergedMember(cmp, a, b[1..], y);
        BeforeCons(x, y, b[0], Merged(cmp, a, b[1..]));
        if Before(a, x, y) || Before(b[1..], x, y) || (x in a && y in b[1..] && Le(cmp, x, y)) {
          MergedStable(cmp, a, b[1..], x, y);
        }
      }
    }
  }

  lemma BeforeSplit(s: seq<Ref>, m: nat, x: Ref, y: Ref)
    requires m <= |s| && Before(s, x, y)
    ensures Before(s[..m], x, y) || Before(s[m..], x, y) || (x in s[..m] && y in s[m..])
  {
    var i, j :| 0 <= i < j < |s| && s[i] == x && s[j] == y;
    if j < m {
      assert s[..m][i] == x && s[..m][j] == y;
    } else if i >= m {
      assert s[m..][i - m] == x && s[m..][j - m] == y;
    } else {
      assert s[..m][i] == x && s[m..][j - m] == y;
    }
  }

  lemma {:induction false} SortStable(cmp: Cmp, s: seq<Ref>)
    requires TotalPreorder(cmp)
    ensures Stable(cmp, s, SortOf(cmp, s))
  {
    if |s| >= 2 {
      var m := |s| / 2;
      var a, b := SortOf(cmp, s[..m]), SortOf(cmp, s[m..]);
      SortStable(cmp, s[..m]);
      SortStable(cmp, s[m..]);
      SortOrdered(cmp, s[..m]);
      SortPermutes(cmp, s[..m]);
      SortPermutes(cmp, s[m..]);
      SameMembers(a, s[..m]);
      SameMembers(b, s[m..]);
      forall x, y | Before(s, x, y) && Le(cmp, x, y)
        ensures Before(SortOf(cmp, s), x, y)
      {
        BeforeSplit(s, m, x, y);
        MergedStable(cmp, a, b, x, y);
      }
    }
  }

  // -------- the memory --------

  // Links of records outside `own` are kept.
  ghost predicate Untouched(next: Links, prev: Links, next': Links, prev': Links, own: set<Ref>) {
    forall x {:trigger Same(next, prev, next', prev', x)} :: x !in own ==> Same(next, prev, next', prev', x)
  }

  ghost predicate Same(next: Links, prev: Links, next': Links, prev': Links, x: Ref) {
    && (x in next <==> x in next') && (x in next ==> next'[x] == next[x])
    && (x in prev <==> x in prev') && (x in prev ==> prev'[x] == prev[x])
  }

  lemma UntouchedTwice(n0: Links, p0: Links, n1: Links, p1: Links, n2: Links, p2: Links, own: set<Ref>,
                       own1: set<Ref>, own2: set<Ref>)
    requires Untouched(n0, p0, n1, p1, own1) && Untouched(n1, p1, n2, p2, own2) && own1 <= own && own2 <= own
    ensures Untouched(n0, p0, n2, p2, own)
  {
    forall x | x !in own
      ensures Same(n0, p0, n2, p2, x)
    {
      assert Same(n0, p0, n1, p1, x) && Same(n1, p1, n2, p2, x);
    }
  }

  lemma UntouchedCircle(next: Links, prev: Links, next': Links, prev': Links, own: set<Ref>, h: Ref, s: seq<Ref>)
    requires Untouched(next, prev, next', prev', own) && Circle(next, prev, h, s) && Members(h, s) !! own
    ensures Circle(next', prev', h, s)
  {
    forall x | x in Members(h, s)
      ensures x in next' && x in prev' && next'[x] == next[x] && prev'[x] == prev[x]
    {
      assert Same(next, prev, next', prev', x);
    }
    CircleFrame(next, prev, next', prev', h, s);
  }

  class Queues {
    var next: Links
    var prev: Links

    // ngx_queue_middle: two cursors, one twice as fast.
    method Middle(queue: Ref, ghost s: seq<Ref>) returns (middle: Ref)
      requires Circle(next, prev, queue, s)
      ensures middle == if s == [] then queue else s[|s| / 2]
    {
      hide Circle;
      CircleHeads(next, prev, queue, s);
      CircleDistinct(next, prev, queue, s);
      middle := next[queue];
      if middle == prev[queue] {
        return;
      }
      var fast := middle;
      ghost var i := 1;
      while true
        invariant 1 <= i && 2 * i - 1 < |s|
        invariant middle == Nth(queue, s, i) && fast == Nth(queue, s, 2 * i - 1)
        decreases |s| - i
      {
        CircleAt(next, prev, queue, s, i);
        CircleAt(next, prev, queue, s, 2 * i - 1);
        CircleAt(next, prev, queue, s, 2 * i);
        NthDistinct(queue, s, 2 * i, |s|);
        middle := next[middle];
        fast := next[fast];
        if fast == prev[queue] {
          return;
        }
        NthDistinct(queue, s, 2 * i + 1, |s|);
        fast := next[fast];
        if fast == prev[queue] {
          return;
        }
        i := i + 1;
      }
    }

    // ngx_queue_split
    method Split(h: Ref, q: Ref, n: Ref, ghost a: seq<Ref>, ghost b: seq<Ref>)
      requires Circle(next, prev, h, a + b) && b != [] && q == b[0] && Apart(h, a + b, n)
      modifies this
      ensures Circle(next, prev, h, a) && Circle(next, prev, n, b)
      ensures Untouched(old(next), old(prev), next, prev, Members(h, a + b) + {n})
    {
      SplitCircle(next, prev, h, a, b, n);
      PartsMembers(h, a, b);
      prev := prev[n := prev[h]];
      next := next[prev[n] := n];
      next := next[n := q];
      prev := prev[h := prev[q]];
      next := next[prev[h] := h];
      prev := prev[q := n];
      assert next == SplitNext(old(next), old(prev), h, q, n) && prev == SplitPrev(old(prev), h, q, n);
    }

    // ngx_queue_add
    method Add(h: Ref, n: Ref, ghost a: seq<Ref>, ghost b: seq<Ref>)
      requires Circle(next, prev, h, a) && Circle(next, prev, n, b) && b != [] && Distinct(a + b)
      requires h != n && h !in b && n !in a
      modifies this
      ensures Circle(next, prev, h, a + b)
      ensures Untouched(old(next), old(prev), next, prev, Members(h, a + b) + {n})
    {
      AddCircle(next, prev, h, a, n, b);
      PartsMembers(h, a, b);
      next := next[prev[h] := next[n]];
      prev := prev[next[n] := prev[h]];
      prev := prev[h := prev[n]];
      next := next[prev[h] := h];
      assert next == AddNext(old(next), old(prev), h, n) && prev == AddPrev(old(next), old(prev), h, n);
    }

    // ngx_queue_remove
    method Remove(x: Ref, ghost h: Ref, ghost s: seq<Ref>, ghost k: nat)
      requires Circle(next, prev, h, s) && k < |s| && x == s[k]
      modifies this
      ensures Circle(next, prev, h, Without(s, k))
      ensures Untouched(old(next), old(prev), next, prev, Members(h, s))
    {
      RemoveCircle(next, prev, h, s, k);
      prev := prev[next[x] := prev[x]];
      next := next[prev[x] := next[x]];
    }

    // ngx_queue_insert_before
    method InsertBefore(q: Ref, x: Ref, ghost h: Ref, ghost s: seq<Ref>, ghost k: nat)
      requires Circle(next, prev, h, s) && k <= |s| && q == Nth(h, s, k + 1) && Apart(h, s, x)
      modifies this
      ensures Circle(next, prev, h, With(s, k, x))
      ensures Untouched(old(next), old(prev), next, prev, Members(h, s) + {x})
    {
      InsertCircle(next, prev, h, s, k, x);
      ghost var a := Nth(h, s, k);
      prev := prev[x := prev[q]];
      next := next[prev[x] := x];
      next := next[x := q];
      prev := prev[q := x];
      assert next == InsertNext(old(next), a, q, x) && prev == InsertPrev(old(prev), a, q, x);
    }

    // The first element of the tail goes before q1.
    method MoveBefore(q1: Ref, q2: Ref, ghost queue: Ref, ghost tail: Ref, ghost done: seq<Ref>, ghost a: seq<Ref>,
                      ghost b: seq<Ref>)
      requires Circle(next, prev, queue, done + a) && Circle(next, prev, tail, b) && b != [] && q2 == b[0]
      requires q1 == Nth(queue, done + a, |done| + 1) && Members(queue, done + a) !! Members(tail, b)
      modifies this
      ensures Circle(next, prev, queue, done + [q2] + a) && Circle(next, prev, tail, b[1..])
      ensures Untouched(old(next), old(prev), next, prev, Members(queue, done + a) + Members(tail, b))
    {
      Remove(q2, tail, b, 0);
      assert Without(b, 0) == b[1..];
      ghost var n1, p1 := next, prev;
      UntouchedCircle(old(next), old(prev), n1, p1, Members(tail, b), queue, done + a);
      assert q2 in Members(tail, b) && tail in Members(tail, b);
      InsertBefore(q1, q2, queue, done + a, |done|);
      assert With(done + a, |done|, q2) == done + [q2] + a;
      WithoutDistinct(b, 0);
      UntouchedCircle(n1, p1, next, prev, Members(queue, done + a) + {q2}, tail, b[1..]);
      UntouchedTwice(old(next), old(prev), n1, p1, next, prev, Members(queue, done + a) + Members(tail, b),
                     Members(tail, b), Members(queue, done + a) + {q2});
    }

    // ngx_queue_merge. The tail is never spliced in when it is empty.
    method Merge(queue: Ref, tail: Ref, cmp: Cmp, ghost a: seq<Ref>, ghost b: seq<Ref>)
      requires Circle(next, prev, queue, a) && Circle(next, prev, tail, b) && b != []
      requires Members(queue, a) !! Members(tail, b)
      modifies this
      ensures Circle(next, prev, queue, Merged(cmp, a, b))
      ensures Untouched(old(next), old(prev), next, prev, Members(queue, a) + Members(tail, b))
    {
      hide Merging, Circle, Untouched, Merged;
      CircleHeads(next, prev, queue, a);
      CircleHeads(next, prev, tail, b);
      UntouchedSame(next, prev, Members(queue, a) + Members(tail, b));
      MergingStart(next, prev, queue, tail, cmp, a, b);
      var q1, q2 := next[queue], next[tail];
      ghost var done, restA, restB := [], a, b;
      while true
        invariant Merging(next, prev, queue, tail, cmp, a, b, done, restA, restB)
        invariant Untouched(old(next), old(prev), next, prev, Members(queue, a) + Members(tail, b))
        invariant q1 == (if restA == [] then queue else restA[0]) && q2 == (if restB == [] then tail else restB[0])
        invariant restA == [] ==> restB != []
        decreases |restA| + |restB|
      {
        MergingFacts(next, prev, queue, tail, cmp, a, b, done, restA, restB);
        if q1 == queue {
          Splice(queue, tail, cmp, done, restB, a, b, old(next), old(prev));
          return;
        }
        if q2 == tail {
          return;
        }
        if cmp(q1, q2) <= 0 {
          q1 := next[q1];
          MergingSkip(next, prev, queue, tail, cmp, a, b, done, restA, restB);
          done, restA := done + [restA[0]], restA[1..];
        } else {
          q2 := TakeTail(q1, q2, queue, tail, cmp, a, b, done, restA, restB, old(next), old(prev));
          done, restB := done + [restB[0]], restB[1..];
        }
      }
    }

    // One element of the tail is moved, and the next one is looked up.
    method TakeTail(q1: Ref, q2: Ref, ghost queue: Ref, tail: Ref, ghost cmp: Cmp, ghost a: seq<Ref>, ghost b: seq<Ref>,
                    ghost done: seq<Ref>, ghost restA: seq<Ref>, ghost restB: seq<Ref>, ghost next0: Links,
                    ghost prev0: Links)
        returns (q: Ref)
      requires Merging(next, prev, queue, tail, cmp, a, b, done, restA, restB) && restA != [] && restB != []
      requires q1 == restA[0] && q2 == restB[0] && cmp(q1, q2) > 0
      requires Untouched(next0, prev0, next, prev, Members(queue, a) + Members(tail, b))
      modifies this
      ensures Merging(next, prev, queue, tail, cmp, a, b, done + [restB[0]], restA, restB[1..])
      ensures q == if restB[1..] == [] then tail else restB[1..][0]
      ensures Untouched(next0, prev0, next, prev, Members(queue, a) + Members(tail, b))
    {
      hide Circle, Untouched, Merged;
      MergedStep(cmp, restA, restB);
      CircleDistinct(next, prev, tail, restB);
      ghost var n1, p1, own := next, prev, Members(queue, a) + Members(tail, b);
      MoveBefore(q1, q2, queue, tail, done, restA, restB);
      MovedMembers(queue, tail, done, restA, restB);
      UntouchedTwice(next0, prev0, n1, p1, next, prev, own, own, own);
      CircleHeads(next, prev, tail, restB[1..]);
      q := next[tail];
    }

    method Splice(queue: Ref, tail: Ref, ghost cmp: Cmp, ghost done: seq<Ref>, ghost restB: seq<Ref>,
                  ghost a: seq<Ref>, ghost b: seq<Ref>, ghost next0: Links, ghost prev0: Links)
      requires Circle(next, prev, queue, done) && Circle(next, prev, tail, restB) && restB != []
      requires Members(queue, done) !! Members(tail, restB)
      requires Members(queue, done) + Members(tail, restB) == Members(queue, a) + Members(tail, b)
      requires Untouched(next0, prev0, next, prev, Members(queue, a) + Members(tail, b))
      modifies this
      ensures Circle(next, prev, queue, done + restB)
      ensures Untouched(next0, prev0, next, prev, Members(queue, a) + Members(tail, b))
    {
      SpliceDistinct(next, prev, queue, tail, done, restB);
      ghost var n1, p1 := next, prev;
      Add(queue, tail, done, restB);
      PartsMembers(queue, done, restB);
      UntouchedTwice(next0, prev0, n1, p1, next, prev, Members(queue, a) + Members(tail, b),
                     Members(queue, a) + Members(tail, b), Members(queue, done + restB) + {tail});
    }

    // ngx_queue_sort; `depth` says which stack frames are in use.
    method Sort(queue: Ref, cmp: Cmp, depth: nat, ghost s: seq<Ref>)
      requires Circle(next, prev, queue, s) && forall x :: x in Members(queue, s) && x.Frame? ==> x.depth < depth
      modifies this
      ensures Circle(next, prev, queue, SortOf(cmp, s))
      ensures Elsewhere(old(next), old(prev), next, prev, Members(queue, s), depth)
      decreases |s|
    {
      hide Circle, Untouched, Merged, Ordered;
      CircleHeads(next, prev, queue, s);
      var q := next[queue];
      if q == prev[queue] {
        return;
      }
      ghost var m := |s| / 2;
      ghost var a, b := s[..m], s[m..];
      assert s == a + b;
      q := Middle(queue, s);
      var tail := Frame(depth);
      CircleDistinct(next, prev, queue, a + b);
      Split(queue, q, tail, a, b);
      ghost var n1, p1 := next, prev;
      SplitMembers(queue, tail, a, b);
      Sort(queue, cmp, depth + 1, a);
      ghost var n2, p2 := next, prev;
      OtherCircle(n1, p1, n2, p2, Members(queue, a), depth + 1, tail, b);
      Sort(tail, cmp, depth + 1, b);
      SortMembers(queue, cmp, a);
      SortMembers(tail, cmp, b);
      ghost var n3, p3 := next, prev;
      OtherCircle(n2, p2, n3, p3, Members(tail, b), depth + 1, queue, SortOf(cmp, a));
      SortPermutes(cmp, b);
      Merge(queue, tail, cmp, SortOf(cmp, a), SortOf(cmp, b));
      SortFrame(old(next), old(prev), n1, p1, n2, p2, n3, p3, next, prev, queue, a, b, depth);
    }
  }

  lemma UntouchedSame(next: Links, prev: Links, own: set<Ref>)
    ensures Untouched(next, prev, next, prev, own)
  {
  }

  lemma PartsMembers(h: Ref, a: seq<Ref>, b: seq<Ref>)
    ensures forall x :: x in Members(h, a + b) <==> x == h || x in a || x in b
  {
  }

  lemma CircleHeads(next: Links, prev: Links, h: Ref, s: seq<Ref>)
    requires Circle(next, prev, h, s)
    ensures h in next && h in prev && next[h] == Nth(h, s, 1) && prev[h] == Nth(h, s, |s|)
    ensures next[h] == prev[h] <==> |s| < 2
    ensures forall i :: 0 <= i < |s| ==> s[i] != h
  {
    CircleAt(next, prev, h, s, 0);
    CircleAt(next, prev, h, s, |s|);
    NthDistinct(h, s, 1, |s|);
  }

  lemma CircleDistinct(next: Links, prev: Links, h: Ref, s: seq<Ref>)
    requires Circle(next, prev, h, s)
    ensures Distinct(s) && h !in s
  {
  }

  lemma MergedOne(cmp: Cmp, a: seq<Ref>)
    ensures Merged(cmp, a, []) == a
  {
  }

  lemma MergedStep(cmp: Cmp, a: seq<Ref>, b: seq<Ref>)
    requires a != [] && b != []
    ensures Merged(cmp, a, b) == if cmp(a[0], b[0]) <= 0 then [a[0]] + Merged(cmp, a[1..], b)
                                 else [b[0]] + Merged(cmp, a, b[1..])
  {
  }

  lemma MovedMembers(queue: Ref, tail: Ref, done: seq<Ref>, a: seq<Ref>, b: seq<Ref>)
    requires b != [] && Members(queue, done + a) !! Members(tail, b) && Distinct(b) && tail !in b
    ensures Members(queue, done + [b[0]] + a) !! Members(tail, b[1..])
    ensures Members(queue, done + [b[0]] + a) + Members(tail, b[1..]) == Members(queue, done + a) + Members(tail, b)
  {
    WithoutDistinct(b, 0);
    assert Without(b, 0) == b[1..];
    assert With(done + a, |done|, b[0]) == done + [b[0]] + a;
  }

  lemma SpliceDistinct(next: Links, prev: Links, queue: Ref, tail: Ref, done: seq<Ref>, b: seq<Ref>)
    requires Circle(next, prev, queue, done) && Circle(next, prev, tail, b) && Members(queue, done) !! Members(tail, b)
    ensures Distinct(done + b) && queue != tail && queue !in b && tail !in done
  {
    assert queue in Members(queue, done) && tail in Members(tail, b);
    assert forall x :: x in done ==> x in Members(queue, done) && x !in Members(tail, b);
    assert queue !in Members(tail, b) && tail !in Members(queue, done);
    DistinctParts(done, b);
  }

  lemma DistinctParts(a: seq<Ref>, b: seq<Ref>)
    requires Distinct(a) && Distinct(b) && forall x :: x in a ==> x !in b
    ensures Distinct(a + b)
  {
    var s := a + b;
    forall i, j | 0 <= i < j < |s|
      ensures s[i] != s[j]
    {
      if i < |a| <= j {
        assert s[i] in a && s[j] in b;
      }
    }
  }

  lemma SplitMembers(queue: Ref, tail: Ref, a: seq<Ref>, b: seq<Ref>)
    requires Distinct(a + b) && Apart(queue, a + b, tail) && queue !in a + b
    ensures Members(queue, a) !! Members(tail, b)
    ensures Members(queue, a) + Members(tail, b) == Members(queue, a + b) + {tail}
  {
    PartsDistinct(a, b);
    PartsMembers(queue, a, b);
    assert forall x :: x in a || x in b ==> x in a + b;
  }

  lemma SortMembers(h: Ref, cmp: Cmp, s: seq<Ref>)
    ensures Members(h, SortOf(cmp, s)) == Members(h, s)
  {
    SortPermutes(cmp, s);
    SameMembers(SortOf(cmp, s), s);
  }

  // Records outside `own`, and stack frames from `depth` on, aside.
  ghost predicate Elsewhere(next: Links, prev: Links, next': Links, prev': Links, own: set<Ref>, depth: nat) {
    forall x {:trigger Same(next, prev, next', prev', x)} ::
      x !in own && (x.Frame? ==> x.depth < depth) ==> Same(next, prev, next', prev', x)
  }

  lemma OtherCircle(next: Links, prev: Links, next': Links, prev': Links, own: set<Ref>, depth: nat, h: Ref,
                    s: seq<Ref>)
    requires Elsewhere(next, prev, next', prev', own, depth) && Circle(next, prev, h, s) && Members(h, s) !! own
    requires forall x :: x in Members(h, s) && x.Frame? ==> x.depth < depth
    ensures Circle(next', prev', h, s)
  {
    forall x | x in Members(h, s)
      ensures x in next' && x in prev' && next'[x] == next[x] && prev'[x] == prev[x]
    {
      assert Same(next, prev, next', prev', x);
    }
    CircleFrame(next, prev, next', prev', h, s);
  }

  lemma SortFrame(n0: Links, p0: Links, n1: Links, p1: Links, n2: Links, p2: Links, n3: Links, p3: Links,
                  n4: Links, p4: Links, queue: Ref, a: seq<Ref>, b: seq<Ref>, depth: nat)
    requires Untouched(n0, p0, n1, p1, Members(queue, a + b) + {Frame(depth)})
    requires Elsewhere(n1, p1, n2, p2, Members(queue, a), depth + 1)
    requires Elsewhere(n2, p2, n3, p3, Members(Frame(depth), b), depth + 1)
    requires Untouched(n3, p3, n4, p4, Members(queue, a) + Members(Frame(depth), b))
    ensures Elsewhere(n0, p0, n4, p4, Members(queue, a + b), depth)
  {
    PartsMembers(queue, a, b);
    forall x | x !in Members(queue, a + b) && (x.Frame? ==> x.depth < depth)
      ensures Same(n0, p0, n4, p4, x)
    {
      assert Same(n0, p0, n1, p1, x) && Same(n1, p1, n2, p2, x) && Same(n2, p2, n3, p3, x) && Same(n3, p3, n4, p4, x);
    }
  }

  // The merge under way: `done` has been merged, `restA` and `restB` are left.
  ghost predicate Merging(next: Links, prev: Links, queue: Ref, tail: Ref, cmp: Cmp, a: seq<Ref>, b: seq<Ref>,
                          done: seq<Ref>, restA: seq<Ref>, restB: seq<Ref>) {
    && Circle(next, prev, queue, done + restA) && Circle(next, prev, tail, restB)
    && Members(queue, done + restA) !! Members(tail, restB)
    && Members(queue, done + restA) + Members(tail, restB) == Members(queue, a) + Members(tail, b)
    && Merged(cmp, a, b) == done + Merged(cmp, restA, restB)
  }

  lemma MergingStart(next: Links, prev: Links, queue: Ref, tail: Ref, cmp: Cmp, a: seq<Ref>, b: seq<Ref>)
    requires Circle(next, prev, queue, a) && Circle(next, prev, tail, b) && Members(queue, a) !! Members(tail, b)
    ensures Merging(next, prev, queue, tail, cmp, a, b, [], a, b)
  {
    hide Circle, Merged;
    assert [] + a == a && [] + Merged(cmp, a, b) == Merged(cmp, a, b);
  }

  lemma MergingFacts(next: Links, prev: Links, queue: Ref, tail: Ref, cmp: Cmp, a: seq<Ref>, b: seq<Ref>,
                     done: seq<Ref>, restA: seq<Ref>, restB: seq<Ref>)
    requires Merging(next, prev, queue, tail, cmp, a, b, done, restA, restB)
    ensures restA != [] ==> restA[0] != queue && restA[0] in next
                            && next[restA[0]] == if restA[1..] == [] then queue else restA[1..][0]
    ensures restB != [] ==> restB[0] != tail
    ensures restB == [] ==> Merged(cmp, a, b) == done + restA && Circle(next, prev, queue, done + restA)
    ensures restA == [] ==>
              && Merged(cmp, a, b) == done + restB && Circle(next, prev, queue, done)
              && Circle(next, prev, tail, restB) && Members(queue, done) !! Members(tail, restB)
              && Members(queue, done) + Members(tail, restB) == Members(queue, a) + Members(tail, b)
  {
    hide Circle, Merged;
    CircleHeads(next, prev, queue, done + restA);
    CircleHeads(next, prev, tail, restB);
    MergedOne(cmp, restA);
    MergedNone(cmp, restB);
    if restA != [] {
      CircleAt(next, prev, queue, done + restA, |done| + 1);
      assert (done + restA)[|done|] == restA[0];
    } else {
      assert done + restA == done;
    }
  }

  lemma MergedNone(cmp: Cmp, b: seq<Ref>)
    ensures Merged(cmp, [], b) == b
  {
  }

  lemma MergingSkip(next: Links, prev: Links, queue: Ref, tail: Ref, cmp: Cmp, a: seq<Ref>, b: seq<Ref>,
                    done: seq<Ref>, restA: seq<Ref>, restB: seq<Ref>)
    requires Merging(next, prev, queue, tail, cmp, a, b, done, restA, restB) && restA != [] && restB != []
    requires cmp(restA[0], restB[0]) <= 0
    ensures Merging(next, prev, queue, tail, cmp, a, b, done + [restA[0]], restA[1..], restB)
  {
    hide Circle, Merged;
    MergedStep(cmp, restA, restB);
    assert done + restA == (done + [restA[0]]) + restA[1..];
  }
}
