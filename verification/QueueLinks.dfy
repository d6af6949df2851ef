// The macros of ngx_queue.h on circular doubly linked lists with a sentinel.

module QueueLinks {
  import opened Ring

  // Elements are linked through records in them; every call of the sort has a sentinel
  // of its own in its stack frame.
  datatype Ref = Elem(id: nat) | Frame(depth: nat)

  type Links = map<Ref, Ref>

  // The whole circle is linked both ways.
  ghost predicate Circle(next: Links, prev: Links, h: Ref, s: seq<Ref>) {
    IsRing(next, prev, h, s) && prev[h] == Nth(h, s, |s|)
  }

  // Positions i and i + 1 are linked both ways.
  ghost predicate Joined(next: Links, prev: Links, h: Ref, s: seq<Ref>, i: nat)
    requires i <= |s|
  {
    var x, y := Nth(h, s, i), Nth(h, s, i + 1);
    x in next && next[x] == y && y in prev && prev[y] == x
  }

  ghost predicate Apart(h: Ref, s: seq<Ref>, x: Ref) {
    x != h && x !in s
  }

  lemma CircleAt(next: Links, prev: Links, h: Ref, s: seq<Ref>, i: nat)
    requires Circle(next, prev, h, s) && i <= |s|
    ensures Joined(next, prev, h, s, i)
  {
    LinkAt(next, prev, h, s, i);
    if i < |s| {
      assert s[i] in s;
    }
  }

  lemma CircleFrame(next: Links, prev: Links, next': Links, prev': Links, h: Ref, s: seq<Ref>)
    requires Circle(next, prev, h, s)
    requires forall x :: x in Members(h, s) ==> x in next' && x in prev' && next'[x] == next[x] && prev'[x] == prev[x]
    ensures Circle(next', prev', h, s)
  {
    RingFrame(next, prev, next', prev', h, s);
  }

  // ngx_queue_remove
  lemma RemoveCircle(next: Links, prev: Links, h: Ref, s: seq<Ref>, k: nat)
    requires Circle(next, prev, h, s) && k < |s|
    ensures s[k] in next && s[k] in prev && next[s[k]] in prev && prev[s[k]] in next
    ensures prev[s[k]] == Nth(h, s, k) && next[s[k]] == Nth(h, s, k + 2)
    ensures Circle(next[prev[s[k]] := next[s[k]]], prev[next[s[k]] := prev[s[k]]], h, Without(s, k))
  {
    assert s[k] in s;
    RemoveAt(next, prev, h, s, k);
    CircleAt(next, prev, h, s, k);
    CircleAt(next, prev, h, s, k + 1);
    assert Nth(h, s, k + 1) == s[k];
    NthDistinct(h, s, k + 2, |s| + 1);
    NthWithout(h, s, k, |s| - 1);
  }

  // ngx_queue_insert_before
  ghost function InsertNext(next: Links, a: Ref, b: Ref, x: Ref): Links {
    next[a := x][x := b]
  }

  ghost function InsertPrev(prev: Links, a: Ref, b: Ref, x: Ref): Links {
    prev[x := a][b := x]
  }

  lemma InsertJoined(next: Links, prev: Links, h: Ref, s: seq<Ref>, k: nat, x: Ref, i: nat)
    requires Circle(next, prev, h, s) && k <= |s| && Apart(h, s, x) && i <= |s| + 1
    ensures
      var a, b := Nth(h, s, k), Nth(h, s, k + 1);
      Joined(InsertNext(next, a, b, x), InsertPrev(prev, a, b, x), h, With(s, k, x), i)
  {
    var t := With(s, k, x);
    assert Nth(h, t, i) == if i <= k then Nth(h, s, i) else if i == k + 1 then x else Nth(h, s, i - 1);
    assert Nth(h, t, i + 1) == if i < k then Nth(h, s, i + 1) else if i == k then x else Nth(h, s, i);
    CircleAt(next, prev, h, s, k);
    if i < k {
      CircleAt(next, prev, h, s, i);
      NthDistinct(h, s, i, k);
      NthDistinct(h, s, i + 1, k + 1);
    } else if i > k + 1 {
      CircleAt(next, prev, h, s, i - 1);
      NthDistinct(h, s, i - 1, k);
      NthDistinct(h, s, i, k + 1);
    }
  }

  lemma InsertCircle(next: Links, prev: Links, h: Ref, s: seq<Ref>, k: nat, x: Ref)
    requires Circle(next, prev, h, s) && k <= |s| && Apart(h, s, x)
    ensures Nth(h, s, k + 1) in prev && prev[Nth(h, s, k + 1)] == Nth(h, s, k) && Nth(h, s, k) in next
    ensures
      var a, b := Nth(h, s, k), Nth(h, s, k + 1);
      Circle(InsertNext(next, a, b, x), InsertPrev(prev, a, b, x), h, With(s, k, x))
  {
    hide InsertNext, InsertPrev;
    var a, b, t := Nth(h, s, k), Nth(h, s, k + 1), With(s, k, x);
    CircleAt(next, prev, h, s, k);
    WithDistinct(s, k, x);
    forall i | 0 <= i <= |t|
      ensures Joined(InsertNext(next, a, b, x), InsertPrev(prev, a, b, x), h, t, i)
    {
      InsertJoined(next, prev, h, s, k, x, i);
    }
    LinkedCircle(InsertNext(next, a, b, x), InsertPrev(prev, a, b, x), h, t);
  }

  // ngx_queue_split: the list is cut before q, the second part goes to the sentinel n.
  ghost function SplitNext(next: Links, prev: Links, h: Ref, q: Ref, n: Ref): Links
    requires h in prev && q in prev
  {
    next[prev[h] := n][n := q][prev[q] := h]
  }

  ghost function SplitPrev(prev: Links, h: Ref, q: Ref, n: Ref): Links
    requires h in prev && q in prev
  {
    prev[n := prev[h]][h := prev[q]][q := n]
  }

  lemma SplitFirst(next: Links, prev: Links, h: Ref, a: seq<Ref>, b: seq<Ref>, n: Ref, i: nat)
    requires Circle(next, prev, h, a + b) && b != [] && Apart(h, a + b, n) && i <= |a| && h in prev && b[0] in prev
    ensures
      Joined(SplitNext(next, prev, h, b[0], n), SplitPrev(prev, h, b[0], n), h, a, i)
  {
    var s := a + b;
    CircleAt(next, prev, h, s, |a|);
    CircleAt(next, prev, h, s, |s|);
    CircleAt(next, prev, h, s, i);
    assert Nth(h, s, |a| + 1) == b[0] && Nth(h, s, |a|) == Nth(h, a, |a|);
    assert Nth(h, a, i) == Nth(h, s, i) && (i < |a| ==> Nth(h, a, i + 1) == Nth(h, s, i + 1));
    NthDistinct(h, s, i, |a|);
    NthDistinct(h, s, i, |s|);
    NthDistinct(h, s, i + 1, |a| + 1);
  }

  lemma SplitSecond(next: Links, prev: Links, h: Ref, a: seq<Ref>, b: seq<Ref>, n: Ref, i: nat)
    requires Circle(next, prev, h, a + b) && b != [] && Apart(h, a + b, n) && i <= |b| && h in prev && b[0] in prev
    ensures
      Joined(SplitNext(next, prev, h, b[0], n), SplitPrev(prev, h, b[0], n), n, b, i)
  {
    var s := a + b;
    CircleAt(next, prev, h, s, |a|);
    CircleAt(next, prev, h, s, |s|);
    CircleAt(next, prev, h, s, |a| + i);
    assert Nth(h, s, |a| + 1) == b[0] && Nth(h, s, |s|) == b[|b| - 1];
    assert i > 0 ==> Nth(n, b, i) == Nth(h, s, |a| + i);
    assert i < |b| ==> Nth(n, b, i + 1) == Nth(h, s, |a| + i + 1);
    NthDistinct(h, s, |a| + i, |a|);
    NthDistinct(h, s, |a| + i, |s|);
    NthDistinct(h, s, |a| + i + 1, |a| + 1);
    NthDistinct(h, s, |a| + i + 1, 0);
  }

  lemma LinkedCircle(next: Links, prev: Links, h: Ref, s: seq<Ref>)
    requires Distinct(s) && h !in s
    requires forall i :: 0 <= i <= |s| ==> Joined(next, prev, h, s, i)
    ensures Circle(next, prev, h, s)
  {
    assert Joined(next, prev, h, s, 0) && Joined(next, prev, h, s, |s|);
    forall x | x in s
      ensures x in next && x in prev
    {
      var i :| 0 <= i < |s| && s[i] == x;
      assert Joined(next, prev, h, s, i) && Joined(next, prev, h, s, i + 1);
    }
    forall i {:trigger Nth(h, s, i)} | 0 <= i <= |s|
      ensures Linked(next, prev, h, Nth(h, s, i), Nth(h, s, i + 1))
    {
      assert Joined(next, prev, h, s, i);
    }
  }

  lemma PartsDistinct(a: seq<Ref>, b: seq<Ref>)
    requires Distinct(a + b)
    ensures Distinct(a) && Distinct(b) && forall x :: x in a ==> x !in b
  {
    var s := a + b;
    assert forall i :: 0 <= i < |a| ==> s[i] == a[i];
    assert forall i :: 0 <= i < |b| ==> s[|a| + i] == b[i];
  }

  lemma SplitCircle(next: Links, prev: Links, h: Ref, a: seq<Ref>, b: seq<Ref>, n: Ref)
    requires Circle(next, prev, h, a + b) && b != [] && Apart(h, a + b, n)
    ensures h in prev && b[0] in prev && prev[h] in next && prev[b[0]] in next
    ensures prev[h] == b[|b| - 1] && prev[b[0]] == Nth(h, a, |a|)
    ensures
      var next', prev' := SplitNext(next, prev, h, b[0], n), SplitPrev(prev, h, b[0], n);
      Circle(next', prev', h, a) && Circle(next', prev', n, b)
  {
    hide SplitNext, SplitPrev;
    var s := a + b;
    CircleAt(next, prev, h, s, |a|);
    CircleAt(next, prev, h, s, |s|);
    assert s[|a|] == b[0] && Nth(h, s, |a|) == Nth(h, a, |a|);
    PartsDistinct(a, b);
    assert forall x :: x in a || x in b ==> x in s;
    var next', prev' := SplitNext(next, prev, h, b[0], n), SplitPrev(prev, h, b[0], n);
    forall i | 0 <= i <= |a|
      ensures Joined(next', prev', h, a, i)
    {
      SplitFirst(next, prev, h, a, b, n, i);
    }
    LinkedCircle(next', prev', h, a);
    forall i | 0 <= i <= |b|
      ensures Joined(next', prev', n, b, i)
    {
      SplitSecond(next, prev, h, a, b, n, i);
    }
    LinkedCircle(next', prev', n, b);
  }

  // ngx_queue_add: the list of the sentinel n, which is not empty, goes to the end.
  ghost function AddNext(next: Links, prev: Links, h: Ref, n: Ref): Links
    requires h in prev && n in prev && n in next
  {
    next[prev[h] := next[n]][prev[n] := h]
  }

  ghost function AddPrev(next: Links, prev: Links, h: Ref, n: Ref): Links
    requires h in prev && n in prev && n in next
  {
    prev[next[n] := prev[h]][h := prev[n]]
  }

  lemma AddLink(next: Links, prev: Links, h: Ref, a: seq<Ref>, n: Ref, b: seq<Ref>, i: nat)
    requires Circle(next, prev, h, a) && Circle(next, prev, n, b) && b != [] && Distinct(a + b)
    requires h != n && h !in b && n !in a && h in prev && n in prev && n in next && i <= |a + b|
    ensures
      Joined(AddNext(next, prev, h, n), AddPrev(next, prev, h, n), h, a + b, i)
  {
    var s := a + b;
    CircleAt(next, prev, h, a, |a|);
    CircleAt(next, prev, n, b, 0);
    CircleAt(next, prev, n, b, |b|);
    assert Nth(n, b, 1) == b[0] && Nth(n, b, |b|) == b[|b| - 1];
    PartsDistinct(a, b);
    if i < |a| {
      CircleAt(next, prev, h, a, i);
      assert Nth(h, s, i) == Nth(h, a, i) && Nth(h, s, i + 1) == Nth(h, a, i + 1);
      NthDistinct(h, a, i, |a|);
    } else {
      CircleAt(next, prev, n, b, i - |a|);
      assert i > |a| ==> Nth(h, s, i) == Nth(n, b, i - |a|);
      assert i < |s| ==> Nth(h, s, i + 1) == Nth(n, b, i - |a| + 1);
      NthDistinct(n, b, i - |a|, |b|);
      NthDistinct(n, b, i - |a| + 1, 1);
    }
  }

  lemma AddCircle(next: Links, prev: Links, h: Ref, a: seq<Ref>, n: Ref, b: seq<Ref>)
    requires Circle(next, prev, h, a) && Circle(next, prev, n, b) && b != [] && Distinct(a + b)
    requires h != n && h !in b && n !in a
    ensures h in prev && n in prev && n in next && prev[h] in next && next[n] in prev && prev[n] in next
    ensures next[n] == b[0] && prev[h] == Nth(h, a, |a|) && prev[n] == b[|b| - 1]
    ensures Circle(AddNext(next, prev, h, n), AddPrev(next, prev, h, n), h, a + b)
  {
    hide AddNext, AddPrev;
    CircleAt(next, prev, h, a, |a|);
    CircleAt(next, prev, n, b, 0);
    CircleAt(next, prev, n, b, |b|);
    var s := a + b;
    forall i | 0 <= i <= |s|
      ensures Joined(AddNext(next, prev, h, n), AddPrev(next, prev, h, n), h, s, i)
    {
      AddLink(next, prev, h, a, n, b, i);
    }
    LinkedCircle(AddNext(next, prev, h, n), AddPrev(next, prev, h, n), h, s);
  }
}
