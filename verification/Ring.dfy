// Circular doubly linked lists as a pair of link maps: a head and the elements in order.
// Of the head only `next` has to be right.

module Ring {
  // Position i of the ring: the head at both ends, the elements between.
  ghost function Nth<P>(h: P, s: seq<P>, i: nat): P
    requires i <= |s| + 1
  {
    if 1 <= i <= |s| then s[i - 1] else h
  }

  ghost predicate Distinct<P>(s: seq<P>) {
    forall i, j :: 0 <= i < j < |s| ==> s[i] != s[j]
  }

  ghost predicate IsRing<P>(next: map<P, P>, prev: map<P, P>, h: P, s: seq<P>) {
    && Distinct(s) && h !in s
    && h in next && h in prev && (forall x :: x in s ==> x in next && x in prev)
    && (forall i {:trigger Nth(h, s, i)} :: 0 <= i <= |s| ==>
          Linked(next, prev, h, Nth(h, s, i), Nth(h, s, i + 1)))
  }

  // `b` follows `a`. The head's own `prev` link is not looked at here.
  ghost predicate Linked<P>(next: map<P, P>, prev: map<P, P>, h: P, a: P, b: P) {
    a in next && b in prev && next[a] == b && (b == h || prev[b] == a)
  }

  ghost function Members<P>(h: P, s: seq<P>): set<P> {
    {h} + set x | x in s
  }

  lemma LinkAt<P>(next: map<P, P>, prev: map<P, P>, h: P, s: seq<P>, i: nat)
    requires IsRing(next, prev, h, s) && i <= |s|
    ensures Linked(next, prev, h, Nth(h, s, i), Nth(h, s, i + 1))
  {
  }

  // Links outside the ring do not matter.
  lemma RingFrame<P>(next: map<P, P>, prev: map<P, P>, next': map<P, P>, prev': map<P, P>, h: P, s: seq<P>)
    requires IsRing(next, prev, h, s)
    requires forall x :: x in Members(h, s) ==> x in next' && x in prev' && next'[x] == next[x]
    requires forall x :: x in Members(h, s) && x != h ==> prev'[x] == prev[x]
    ensures IsRing(next', prev', h, s)
  {
    forall i | 0 <= i <= |s|
      ensures Linked(next', prev', h, Nth(h, s, i), Nth(h, s, i + 1))
    {
      LinkAt(next, prev, h, s, i);
      assert Nth(h, s, i) in Members(h, s) && Nth(h, s, i + 1) in Members(h, s);
    }
  }

  lemma EmptyRing<P>(next: map<P, P>, prev: map<P, P>, h: P)
    requires h in next && h in prev && next[h] == h
    ensures IsRing(next, prev, h, [])
  {
  }

  lemma NthDistinct<P>(h: P, s: seq<P>, i: nat, j: nat)
    requires Distinct(s) && h !in s && i <= |s| + 1 && j <= |s| + 1
    ensures Nth(h, s, i) == Nth(h, s, j) <==> i == j || {i, j} == {0, |s| + 1}
  {
    assert {i, j} == {0, |s| + 1} <==> (i == 0 && j == |s| + 1) || (j == 0 && i == |s| + 1) by {
      if {i, j} == {0, |s| + 1} {
        assert 0 in {i, j} && |s| + 1 in {i, j};
      }
    }
  }

  ghost function Without<P>(s: seq<P>, k: nat): seq<P>
    requires k < |s|
  {
    s[..k] + s[k + 1..]
  }

  lemma WithoutDistinct<P>(s: seq<P>, k: nat)
    requires Distinct(s) && k < |s|
    ensures Distinct(Without(s, k)) && s[k] !in Without(s, k)
    ensures forall x :: x in s <==> x == s[k] || x in Without(s, k)
  {
    var t := Without(s, k);
    assert forall i :: 0 <= i < |t| ==> t[i] == s[if i < k then i else i + 1];
    forall x | x in s && x != s[k]
      ensures x in t
    {
      var i :| 0 <= i < |s| && s[i] == x;
      assert t[if i < k then i else i - 1] == x;
    }
  }

  // Position i of a ring without element k, as a position of the ring with it.
  ghost function Shift(i: nat, k: nat): nat {
    if i <= k then i else i + 1
  }

  lemma NthWithout<P>(h: P, s: seq<P>, k: nat, i: nat)
    requires k < |s| && i <= |s|
    ensures Nth(h, Without(s, k), i) == Nth(h, s, Shift(i, k))
  {
  }

  lemma RemoveLink<P>(next: map<P, P>, prev: map<P, P>, h: P, s: seq<P>, k: nat, i: nat)
    requires IsRing(next, prev, h, s) && k < |s| && i < |s|
    requires s[k] in next && s[k] in prev
    ensures
      var x, t := s[k], Without(s, k);
      Linked(next[prev[x] := next[x]], prev[next[x] := prev[x]], h, Nth(h, t, i), Nth(h, t, i + 1))
  {
    NthWithout(h, s, k, i);
    NthWithout(h, s, k, i + 1);
    var a, b := Shift(i, k), Shift(i + 1, k);
    LinkAt(next, prev, h, s, k);
    LinkAt(next, prev, h, s, k + 1);
    assert Nth(h, s, k + 1) == s[k];
    if i != k {
      LinkAt(next, prev, h, s, a);
      NthDistinct(h, s, a, k);
      NthDistinct(h, s, b, k + 2);
    }
  }

  // The writes of ngx_queue_remove: the neighbours of the element at index k are joined.
  lemma RemoveAt<P>(next: map<P, P>, prev: map<P, P>, h: P, s: seq<P>, k: nat)
    requires IsRing(next, prev, h, s) && k < |s|
    ensures s[k] in next && s[k] in prev
    ensures IsRing(next[prev[s[k]] := next[s[k]]], prev[next[s[k]] := prev[s[k]]], h, Without(s, k))
  {
    var x, t := s[k], Without(s, k);
    assert x in s;
    WithoutDistinct(s, k);
    forall i | 0 <= i <= |t|
      ensures Linked(next[prev[x] := next[x]], prev[next[x] := prev[x]], h, Nth(h, t, i), Nth(h, t, i + 1))
    {
      RemoveLink(next, prev, h, s, k, i);
    }
  }

  ghost function With<P>(s: seq<P>, k: nat, x: P): seq<P>
    requires k <= |s|
  {
    s[..k] + [x] + s[k..]
  }

  lemma WithDistinct<P>(s: seq<P>, k: nat, x: P)
    requires Distinct(s) && k <= |s| && x !in s
    ensures Distinct(With(s, k, x))
    ensures forall y :: y in With(s, k, x) <==> y == x || y in s
  {
    var t := With(s, k, x);
    assert forall i :: 0 <= i < |t| ==> t[i] == if i < k then s[i] else if i == k then x else s[i - 1];
    assert t[k] == x;
    forall y | y in s
      ensures y in t
    {
      var i :| 0 <= i < |s| && s[i] == y;
      assert t[if i < k then i else i + 1] == y;
    }
  }

  // `x` stands between `a` and `b`; the other links are kept.
  ghost predicate Inserted<P>(next: map<P, P>, prev: map<P, P>, next': map<P, P>, prev': map<P, P>,
                              h: P, a: P, b: P, x: P, kept: set<P>) {
    && Linked(next', prev', h, a, x) && Linked(next', prev', h, x, b)
    && (forall y :: y in kept && y != a && y in next ==> y in next' && next'[y] == next[y])
    && (forall y :: y in kept && y in prev ==> y in prev' && (y == b || y == h || prev'[y] == prev[y]))
  }

  lemma InsertLink<P>(next: map<P, P>, prev: map<P, P>, h: P, s: seq<P>, k: nat, x: P,
                      next': map<P, P>, prev': map<P, P>, i: nat)
    requires IsRing(next, prev, h, s) && k <= |s| && i <= |s|
    requires Inserted(next, prev, next', prev', h, Nth(h, s, k), Nth(h, s, k + 1), x, Members(h, s))
    ensures i != k ==> Linked(next', prev', h, Nth(h, s, i), Nth(h, s, i + 1))
  {
    LinkAt(next, prev, h, s, i);
    NthDistinct(h, s, i, k);
    NthDistinct(h, s, i + 1, k + 1);
    assert Nth(h, s, i) in Members(h, s) && Nth(h, s, i + 1) in Members(h, s);
  }

  // A new element goes between the elements at index k - 1 and k.
  lemma InsertAt<P>(next: map<P, P>, prev: map<P, P>, h: P, s: seq<P>, k: nat, x: P,
                    next': map<P, P>, prev': map<P, P>)
    requires IsRing(next, prev, h, s) && k <= |s| && x !in s && x != h
    requires Inserted(next, prev, next', prev', h, Nth(h, s, k), Nth(h, s, k + 1), x, Members(h, s))
    ensures IsRing(next', prev', h, With(s, k, x))
  {
    var t := With(s, k, x);
    WithDistinct(s, k, x);
    forall i | 0 <= i <= |t|
      ensures Linked(next', prev', h, Nth(h, t, i), Nth(h, t, i + 1))
    {
      assert Nth(h, t, i) == if i <= k then Nth(h, s, i) else if i == k + 1 then x else Nth(h, s, i - 1);
      assert Nth(h, t, i + 1) == if i < k then Nth(h, s, i + 1) else if i == k then x else Nth(h, s, i);
      if i < k {
        InsertLink(next, prev, h, s, k, x, next', prev', i);
      } else if i > k + 1 {
        InsertLink(next, prev, h, s, k, x, next', prev', i - 1);
      }
    }
    InsertHolds(next, prev, h, s, k, x, next', prev');
  }

  lemma InsertHolds<P>(next: map<P, P>, prev: map<P, P>, h: P, s: seq<P>, k: nat, x: P,
                       next': map<P, P>, prev': map<P, P>)
    requires IsRing(next, prev, h, s) && k <= |s|
    requires Inserted(next, prev, next', prev', h, Nth(h, s, k), Nth(h, s, k + 1), x, Members(h, s))
    ensures forall y :: y in Members(h, s) || y == x ==> y in next' && y in prev'
  {
  }
}
