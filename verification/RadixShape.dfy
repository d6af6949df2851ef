// The nodes of ngx_radix_tree.c in memory, and the binary trie they form.

module RadixShape {
  const NO_VALUE: nat := 0xffff_ffff_ffff_ffff

  // Address 0 is NULL.
  datatype Cell = Cell(right: nat, left: nat, parent: nat, value: nat)

  type Memory = map<nat, Cell>

  // A node is named by the bits on the way to it, from the root down.
  type Path = seq<bool>

  type Trie = map<Path, nat>

  function Up(p: Path): Path
    requires p != []
  {
    p[..|p| - 1]
  }

  ghost function Child(at: Trie, p: Path, b: bool): nat {
    if p + [b] in at then at[p + [b]] else 0
  }

  function Link(c: Cell, b: bool): nat {
    if b then c.right else c.left
  }

  function WithLink(c: Cell, b: bool, x: nat): Cell {
    if b then c.(right := x) else c.(left := x)
  }

  ghost predicate NodeOk(at: Trie, mem: Memory, p: Path) {
    && p in at && at[p] != 0 && at[p] in mem && |p| <= 32
    && mem[at[p]].left == Child(at, p, false) && mem[at[p]].right == Child(at, p, true)
    && (if p == [] then mem[at[p]].parent == 0 else Up(p) in at && mem[at[p]].parent == at[Up(p)])
  }

  ghost predicate Apart(at: Trie, p: Path, q: Path) {
    p in at && q in at && at[p] == at[q] ==> p == q
  }

  // The links of the nodes are those of the trie.
  ghost predicate Shaped(at: Trie, mem: Memory, root: nat) {
    && [] in at && at[[]] == root
    && (forall p {:trigger NodeOk(at, mem, p)} :: p in at ==> NodeOk(at, mem, p))
    && (forall p, q {:trigger Apart(at, p, q)} :: Apart(at, p, q))
  }

  ghost predicate Childless(at: Trie, p: Path) {
    p + [false] !in at && p + [true] !in at
  }

  // A node without children has a value, but for the root and the node `except`.
  ghost predicate Leafy(at: Trie, mem: Memory, p: Path) {
    p in at && at[p] in mem && p != [] && Childless(at, p) ==> mem[at[p]].value != NO_VALUE
  }

  ghost predicate Pruned(at: Trie, mem: Memory, except: Path) {
    forall p {:trigger Leafy(at, mem, p)} :: p != except ==> Leafy(at, mem, p)
  }

  // -------- the prefixes that are stored --------

  ghost predicate Has(at: Trie, mem: Memory, p: Path) {
    p in at && at[p] in mem && mem[at[p]].value != NO_VALUE
  }

  ghost function Stored(at: Trie, mem: Memory): map<Path, nat> {
    map p | p in at && Has(at, mem, p) :: mem[at[p]].value
  }

  // -------- lemmas --------

  lemma SnocEqual(p: Path, b: bool, q: Path, c: bool)
    ensures p + [b] == q + [c] <==> p == q && b == c
    ensures Up(p + [b]) == p && |p + [b]| == |p| + 1
  {
    if p + [b] == q + [c] {
      assert (p + [b])[|p|] == b && (q + [c])[|q|] == c;
      assert p == (p + [b])[..|p|] && q == (q + [c])[..|q|];
    }
  }

  lemma UpSnoc(p: Path)
    requires p != []
    ensures p == Up(p) + [p[|p| - 1]]
  {
  }

  lemma ChildNode(at: Trie, mem: Memory, root: nat, p: Path, b: bool)
    requires Shaped(at, mem, root) && p in at
    ensures at[p] in mem && at[p] != 0 && |p| <= 32
    ensures Link(mem[at[p]], b) == Child(at, p, b)
    ensures Child(at, p, b) != 0 <==> p + [b] in at
    ensures p + [b] in at ==> |p| < 32
  {
    assert NodeOk(at, mem, p);
    if p + [b] in at {
      assert NodeOk(at, mem, p + [b]);
    }
  }

  lemma ParentNode(at: Trie, mem: Memory, root: nat, p: Path)
    requires Shaped(at, mem, root) && p in at
    ensures at[p] in mem && (mem[at[p]].parent == 0 <==> p == [])
    ensures p != [] ==> Up(p) in at && mem[at[p]].parent == at[Up(p)] && at[Up(p)] in mem && at[Up(p)] != at[p]
    ensures p != [] ==> Link(mem[at[Up(p)]], p[|p| - 1]) == at[p] && (mem[at[Up(p)]].right == at[p] <==> p[|p| - 1])
  {
    assert NodeOk(at, mem, p);
    if p != [] {
      var u, b := Up(p), p[|p| - 1];
      UpSnoc(p);
      assert NodeOk(at, mem, u) && Apart(at, u, p);
      assert !b && u + [true] in at ==> Apart(at, u + [true], p) && (u + [true])[|u|];
    }
  }

  lemma ChildHasParent(at: Trie, mem: Memory, root: nat, p: Path, b: bool)
    requires Shaped(at, mem, root)
    ensures p + [b] in at ==> p in at
  {
    if p + [b] in at {
      ParentNode(at, mem, root, p + [b]);
      SnocEqual(p, b, p, b);
    }
  }

  // Every prefix of a node is a node.
  lemma {:induction false} PrefixIn(at: Trie, mem: Memory, root: nat, p: Path, i: nat)
    requires Shaped(at, mem, root) && p in at && i <= |p|
    ensures p[..i] in at
    decreases |p|
  {
    if i == |p| {
      assert p[..i] == p;
    } else {
      ParentNode(at, mem, root, p);
      PrefixIn(at, mem, root, Up(p), i);
      assert Up(p)[..i] == p[..i];
    }
  }

  // -------- a new node --------

  ghost function Grown(at: Trie, mem: Memory, p: Path, b: bool, a: nat): Memory
    requires p in at && at[p] in mem
  {
    var mem1 := mem[a := Cell(0, 0, at[p], NO_VALUE)];
    mem1[at[p] := WithLink(mem1[at[p]], b, a)]
  }

  lemma GrownAt(at: Trie, mem: Memory, root: nat, p: Path, b: bool, a: nat, q: Path)
    requires Shaped(at, mem, root) && p in at && at[p] in mem && forall r :: r in at ==> at[r] != a
    ensures
      var mem' := Grown(at, mem, p, b, a);
      && a in mem' && mem'[a] == Cell(0, 0, at[p], NO_VALUE)
      && (q in at ==> at[q] in mem && at[q] in mem' && NodeOk(at, mem, q)
                      && mem'[at[q]] == if q == p then WithLink(mem[at[p]], b, a) else mem[at[q]])
  {
    if q in at {
      assert NodeOk(at, mem, q) && Apart(at, p, q);
    }
  }

  lemma GrowNew(at: Trie, mem: Memory, root: nat, p: Path, b: bool, a: nat)
    requires Shaped(at, mem, root) && p in at && p + [b] !in at && |p| < 32 && a != 0
    requires at[p] in mem && forall r :: r in at ==> at[r] != a
    ensures NodeOk(at[p + [b] := a], Grown(at, mem, p, b, a), p + [b])
  {
    hide Grown;
    var at', n := at[p + [b] := a], p + [b];
    GrownAt(at, mem, root, p, b, a, p);
    SnocEqual(p, b, p, b);
    forall c
      ensures n + [c] !in at'
    {
      SnocEqual(n, c, p, b);
      ChildHasParent(at, mem, root, n, c);
    }
  }

  lemma GrowOld(at: Trie, mem: Memory, root: nat, p: Path, b: bool, a: nat, q: Path)
    requires Shaped(at, mem, root) && p in at && p + [b] !in at && |p| < 32 && a != 0
    requires at[p] in mem && (forall r :: r in at ==> at[r] != a) && q in at
    ensures NodeOk(at[p + [b] := a], Grown(at, mem, p, b, a), q)
  {
    hide Grown;
    var at' := at[p + [b] := a];
    GrownAt(at, mem, root, p, b, a, q);
    SnocEqual(q, false, p, b);
    SnocEqual(q, true, p, b);
    assert q != [] ==> Up(q) != p + [b] by {
      if q != [] {
        ParentNode(at, mem, root, q);
      }
    }
  }

  lemma Grow(at: Trie, mem: Memory, root: nat, p: Path, b: bool, a: nat)
    requires Shaped(at, mem, root) && p in at && p + [b] !in at && |p| < 32 && a != 0
    requires forall r :: r in at ==> at[r] != a
    ensures at[p] in mem
    ensures Shaped(at[p + [b] := a], Grown(at, mem, p, b, a), root)
  {
    hide Grown;
    assert NodeOk(at, mem, p);
    var at', mem' := at[p + [b] := a], Grown(at, mem, p, b, a);
    forall q | q in at'
      ensures NodeOk(at', mem', q)
    {
      if q == p + [b] {
        GrowNew(at, mem, root, p, b, a);
      } else {
        GrowOld(at, mem, root, p, b, a, q);
      }
    }
    forall q, r
      ensures Apart(at', q, r)
    {
      assert Apart(at, q, r);
    }
  }

  // The new node is the one that may be without a value.
  lemma GrowPruned(at: Trie, mem: Memory, root: nat, p: Path, b: bool, a: nat)
    requires Shaped(at, mem, root) && p in at && p + [b] !in at && |p| < 32 && a != 0
    requires forall r :: r in at ==> at[r] != a
    requires Pruned(at, mem, p) && at[p] in mem
    ensures Pruned(at[p + [b] := a], Grown(at, mem, p, b, a), p + [b])
    ensures Stored(at[p + [b] := a], Grown(at, mem, p, b, a)) == Stored(at, mem)
  {
    var at', mem', n := at[p + [b] := a], Grown(at, mem, p, b, a), p + [b];
    forall q | q != n
      ensures Leafy(at', mem', q)
    {
      if q in at {
        assert NodeOk(at, mem, q) && Apart(at, p, q);
        assert q != p ==> Leafy(at, mem, q);
        assert Childless(at', q) ==> Childless(at, q) && q != p;
      }
    }
    forall q
      ensures Has(at', mem', q) <==> Has(at, mem, q)
      ensures Has(at, mem, q) ==> mem'[at'[q]].value == mem[at[q]].value
    {
      if q in at {
        assert NodeOk(at, mem, q) && Apart(at, p, q);
      }
    }
  }

  // -------- a value --------

  function WithValue(mem: Memory, x: nat, v: nat): Memory
    requires x in mem
  {
    mem[x := mem[x].(value := v)]
  }

  lemma SetShaped(at: Trie, mem: Memory, root: nat, p: Path, v: nat)
    requires Shaped(at, mem, root) && p in at && at[p] in mem
    ensures Shaped(at, WithValue(mem, at[p], v), root)
  {
    var mem' := WithValue(mem, at[p], v);
    forall q | q in at
      ensures NodeOk(at, mem', q)
    {
      assert NodeOk(at, mem, q);
    }
  }

  lemma SetStored(at: Trie, mem: Memory, root: nat, p: Path, v: nat)
    requires Shaped(at, mem, root) && p in at && at[p] in mem
    ensures Stored(at, WithValue(mem, at[p], v)) == if v != NO_VALUE then Stored(at, mem)[p := v]
              else Stored(at, mem) - {p}
  {
    var mem' := WithValue(mem, at[p], v);
    forall q
      ensures q != p ==> (Has(at, mem', q) <==> Has(at, mem, q)) && (Has(at, mem, q) ==> mem'[at[q]] == mem[at[q]])
    {
      if q in at {
        assert NodeOk(at, mem, q) && Apart(at, p, q);
      }
    }
    assert Has(at, mem', p) <==> v != NO_VALUE;
  }

  lemma SetPruned(at: Trie, mem: Memory, root: nat, p: Path, v: nat)
    requires Shaped(at, mem, root) && p in at && at[p] in mem
    requires (v != NO_VALUE && Pruned(at, mem, p)) || ((!Childless(at, p) || p == []) && Pruned(at, mem, []))
    ensures Pruned(at, WithValue(mem, at[p], v), [])
  {
    var mem' := WithValue(mem, at[p], v);
    forall q | q != []
      ensures Leafy(at, mem', q)
    {
      if q in at && q != p {
        assert NodeOk(at, mem, q) && Apart(at, p, q) && Leafy(at, mem, q);
      }
    }
  }

  // -------- a node goes --------

  ghost function Cut(at: Trie, mem: Memory, p: Path): Memory
    requires p in at && p != [] && Up(p) in at && at[Up(p)] in mem
  {
    mem[at[Up(p)] := WithLink(mem[at[Up(p)]], p[|p| - 1], 0)]
  }

  lemma CutNode(at: Trie, mem: Memory, root: nat, p: Path, q: Path)
    requires Shaped(at, mem, root) && p in at && p != [] && Childless(at, p) && q in at && q != p
    requires Up(p) in at && at[Up(p)] in mem
    ensures NodeOk(at - {p}, Cut(at, mem, p), q)
  {
    var at', u, b := at - {p}, Up(p), p[|p| - 1];
    UpSnoc(p);
    assert NodeOk(at, mem, q) && NodeOk(at, mem, u) && Apart(at, u, q);
    SnocEqual(q, false, u, b);
    SnocEqual(q, true, u, b);
    if q != [] {
      UpSnoc(q);
      var c := q[|q| - 1];
      assert p + [c] == if c then p + [true] else p + [false];
      assert Up(q) != p;
    }
  }

  lemma CutLeaf(at: Trie, mem: Memory, root: nat, p: Path)
    requires Shaped(at, mem, root) && p in at && p != [] && Childless(at, p)
    ensures Up(p) in at && at[Up(p)] in mem && at[p] in mem
    ensures Shaped(at - {p}, Cut(at, mem, p), root)
  {
    ParentNode(at, mem, root, p);
    var at', mem' := at - {p}, Cut(at, mem, p);
    forall q | q in at'
      ensures NodeOk(at', mem', q)
    {
      CutNode(at, mem, root, p, q);
    }
    forall q, r
      ensures Apart(at', q, r)
    {
      assert Apart(at, q, r);
    }
  }

  lemma CutPruned(at: Trie, mem: Memory, root: nat, p: Path)
    requires Shaped(at, mem, root) && p in at && p != [] && Childless(at, p) && Pruned(at, mem, p)
    requires Up(p) in at && at[Up(p)] in mem
    ensures Pruned(at - {p}, Cut(at, mem, p), Up(p))
    ensures Stored(at - {p}, Cut(at, mem, p)) == Stored(at, mem) - {p}
  {
    var at', mem', u, b := at - {p}, Cut(at, mem, p), Up(p), p[|p| - 1];
    UpSnoc(p);
    forall q | q != u
      ensures Leafy(at', mem', q)
    {
      if q in at' {
        assert NodeOk(at, mem, q) && Apart(at, u, q) && Leafy(at, mem, q);
        SnocEqual(q, false, u, b);
        SnocEqual(q, true, u, b);
      }
    }
    forall q
      ensures Has(at', mem', q) <==> Has(at, mem, q) && q != p
      ensures Has(at', mem', q) ==> mem'[at'[q]].value == mem[at[q]].value
    {
      if q in at {
        assert NodeOk(at, mem, q) && Apart(at, u, q);
      }
    }
    assert Stored(at', mem') == Stored(at, mem) - {p};
  }

  // Words of other addresses do not matter.
  lemma OtherWords(at: Trie, mem: Memory, mem': Memory, root: nat)
    requires Shaped(at, mem, root)
    requires forall p :: p in at && at[p] in mem ==> at[p] in mem' && mem'[at[p]] == mem[at[p]]
    ensures Shaped(at, mem', root) && Stored(at, mem') == Stored(at, mem)
    ensures forall e :: Pruned(at, mem, e) ==> Pruned(at, mem', e)
  {
    forall p | p in at
      ensures NodeOk(at, mem', p)
    {
      assert NodeOk(at, mem, p);
    }
    forall e | Pruned(at, mem, e)
      ensures Pruned(at, mem', e)
    {
      forall p | p != e
        ensures Leafy(at, mem', p)
      {
        assert Leafy(at, mem, p);
        assert p in at ==> NodeOk(at, mem, p);
      }
    }
    assert forall p :: p in at ==> NodeOk(at, mem, p);
  }
}
