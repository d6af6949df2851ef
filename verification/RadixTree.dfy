// The operations of ngx_radix_tree.c on 32-bit keys.

module RadixTree {
  import opened MachineWords
  import opened RadixShape

  // NullParent stands for reading through the parent link of the root, which is NULL.
  datatype Status = Ok | Busy | Error | NullParent

  // The first `len` bits of a key, from the highest down.
  function PathOf(key: nat, len: nat): (p: Path)
    requires len <= 32
    ensures |p| == len
  {
    seq(len, d requires 0 <= d < len => Bit(key, 31 - d))
  }

  // A mask of `len` leading ones.
  ghost predicate Contiguous(mask: nat, len: nat) {
    len <= 32 && forall i: nat {:trigger Bit(mask, i)} :: i < 32 ==> (Bit(mask, i) <==> 32 - len <= i)
  }

  lemma PathStep(key: nat, len: nat, d: nat)
    requires d < len <= 32
    ensures PathOf(key, len)[..d] == PathOf(key, d) && PathOf(key, d + 1) == PathOf(key, d) + [Bit(key, 31 - d)]
    ensures PathOf(key, len)[d] == Bit(key, 31 - d)
  {
  }

  // The nodes on the free list, linked through `right`.
  ghost predicate FreeListed(mem: Memory, free: nat, frees: seq<nat>) {
    && free == (if frees == [] then 0 else frees[0])
    && (forall i, j :: 0 <= i < j < |frees| ==> frees[i] != frees[j])
    && forall i {:trigger FreeAt(mem, frees, i)} :: 0 <= i < |frees| ==> FreeAt(mem, frees, i)
  }

  ghost predicate FreeAt(mem: Memory, frees: seq<nat>, i: nat)
    requires i < |frees|
  {
    && frees[i] in mem && frees[i] != 0
    && mem[frees[i]].right == if i + 1 < |frees| then frees[i + 1] else 0
  }

  // No node of the tree is on the free list.
  ghost predicate Disjoint(at: Trie, frees: seq<nat>) {
    forall p :: p in at ==> at[p] !in frees
  }

  // Every node is in the tree, or on the free list, or in `spare`.
  ghost predicate NoLeak(at: Trie, mem: Memory, frees: seq<nat>, spare: set<nat>) {
    forall x :: x in mem ==> x in at.Values || x in frees || x in spare
  }

  // What has left the tree is on the free list.
  ghost predicate Collected(at0: Trie, at: Trie, frees: seq<nat>) {
    forall p :: p in at0 ==> (p in at && at[p] == at0[p]) || at0[p] in frees
  }

  // A prefix of the key that is stored, longer than every other one.
  ghost predicate Longest(stored: map<Path, nat>, key: nat, len: nat) {
    && len <= 32 && PathOf(key, len) in stored
    && forall m {:trigger PathOf(key, m)} :: len < m <= 32 ==> PathOf(key, m) !in stored
  }

  lemma FreeFrame(mem: Memory, mem': Memory, free: nat, frees: seq<nat>)
    requires FreeListed(mem, free, frees) && forall x :: x in frees ==> x in mem ==> x in mem' && mem'[x] == mem[x]
    ensures FreeListed(mem', free, frees)
  {
    forall i | 0 <= i < |frees|
      ensures FreeAt(mem', frees, i)
    {
      assert FreeAt(mem, frees, i) && frees[i] in frees;
    }
  }

  lemma FreesIn(mem: Memory, free: nat, frees: seq<nat>)
    requires FreeListed(mem, free, frees)
    ensures forall x :: x in frees ==> x in mem
  {
    forall x | x in frees
      ensures x in mem
    {
      var i :| 0 <= i < |frees| && frees[i] == x;
      assert FreeAt(mem, frees, i);
    }
  }

  lemma FreeTail(mem: Memory, free: nat, frees: seq<nat>)
    requires FreeListed(mem, free, frees) && free != 0
    ensures free in mem && FreeListed(mem, mem[free].right, frees[1..]) && free !in frees[1..] && free in frees
  {
    var t := frees[1..];
    assert FreeAt(mem, frees, 0);
    forall i | 0 <= i < |t|
      ensures FreeAt(mem, t, i)
    {
      assert FreeAt(mem, frees, i + 1);
    }
  }

  lemma FreeCons(mem: Memory, mem': Memory, free: nat, frees: seq<nat>, x: nat)
    requires FreeListed(mem, free, frees) && x !in frees && x != 0 && x in mem
    requires mem' == mem[x := mem[x].(right := free)]
    ensures FreeListed(mem', x, [x] + frees)
  {
    var t := [x] + frees;
    forall i | 0 <= i < |t|
      ensures FreeAt(mem', t, i)
      ensures forall j :: i < j < |t| ==> t[i] != t[j]
    {
      if i > 0 {
        assert FreeAt(mem, frees, i - 1) && t[i] == frees[i - 1] && frees[i - 1] in frees;
      }
    }
  }

  class RadixTree {
    var mem: Memory
    var root: nat
    var free: nat
    var start: nat
    ghost var at: Trie
    ghost var frees: seq<nat>

    ghost predicate Linked(spare: set<nat>)
      reads this
    {
      && Shaped(at, mem, root) && FreeListed(mem, free, frees) && Disjoint(at, frees)
      && NoLeak(at, mem, frees, spare) && 0 < start && forall x :: x in mem ==> x < start
    }

    ghost predicate Valid()
      reads this
    {
      Linked({}) && Pruned(at, mem, [])
    }

    ghost function Content(): map<Path, nat>
      reads this
    {
      Stored(at, mem)
    }

    // ngx_radix_tree_create without preallocation
    constructor ()
      ensures Valid() && Content() == map[]
    {
      mem := map[1 := Cell(0, 0, 0, NO_VALUE)];
      root, free, start := 1, 0, 2;
      at, frees := map[[] := 1], [];
      new;
      assert NodeOk(at, mem, []);
      assert at[[]] in at.Values;
    }

    // ngx_radix_alloc: a node from the free list, or a new one.
    method Alloc() returns (a: nat)
      requires Linked({})
      modifies `mem, `free, `start, `frees
      ensures Linked({a}) && a != 0 && a in mem && a !in frees && forall p :: p in at ==> at[p] != a
      ensures Content() == old(Content()) && forall e :: old(Pruned(at, mem, e)) ==> Pruned(at, mem, e)
    {
      hide Shaped, Stored, Pruned;
      if free != 0 {
        a := free;
        FreeTail(mem, free, frees);
        free := mem[free].right;
        frees := frees[1..];
      } else {
        a := start;
        NodesIn(at, mem, root);
        FreesIn(mem, free, frees);
        assert forall p :: p in at ==> at[p] in mem && at[p] != a;
        mem := mem[a := Cell(0, 0, 0, 0)];
        start := start + 1;
        OtherWords(at, old(mem), mem, root);
        FreeFrame(old(mem), mem, free, frees);
      }
    }

    // A new child of the node at path p.
    method AddChild(node: nat, b: bool, ghost p: Path) returns (next: nat)
      requires Linked({}) && p in at && node == at[p] && p + [b] !in at && |p| < 32 && Pruned(at, mem, p)
      modifies `mem, `free, `start, `at, `frees
      ensures Linked({}) && at == old(at)[p + [b] := next] && Pruned(at, mem, p + [b])
      ensures Content() == old(Content()) && forall c :: p + [b] + [c] !in at
    {
      hide Shaped, Pruned, Stored;
      next := Alloc();
      ghost var mem1 := mem;
      ChildNode(at, mem, root, p, b);
      GrownAt(at, mem, root, p, b, next, p);
      Grow(at, mem1, root, p, b, next);
      GrowPruned(at, mem1, root, p, b, next);
      NewLeaf(at, mem, root, p, b);
      mem := mem[next := Cell(0, 0, node, NO_VALUE)];
      mem := mem[node := WithLink(mem[node], b, next)];
      FreeFrame(mem1, mem, free, frees);
      Adopted(at, mem, frees, p + [b], next);
      at := at[p + [b] := next];
      forall c
        ensures p + [b] + [c] !in at
      {
        assert |p + [b] + [c]| != |p + [b]|;
      }
    }

    // The value of a node is set or taken away.
    method PutValue(node: nat, value: nat, ghost p: Path)
      requires Linked({}) && p in at && node == at[p] && node in mem
      requires (value != NO_VALUE && Pruned(at, mem, p)) || ((!Childless(at, p) || p == []) && Pruned(at, mem, []))
      modifies `mem
      ensures Valid()
      ensures Content() == if value != NO_VALUE then old(Content())[p := value] else old(Content()) - {p}
    {
      hide Shaped, Pruned, Stored, Childless;
      SetShaped(at, mem, root, p, value);
      SetStored(at, mem, root, p, value);
      SetPruned(at, mem, root, p, value);
      mem := mem[node := mem[node].(value := value)];
      FreeFrame(old(mem), mem, free, frees);
    }

    // ngx_radix32tree_insert
    method Insert(key: nat, mask: nat, value: nat, ghost len: nat) returns (r: Status)
      requires Valid() && Contiguous(mask, len) && value != NO_VALUE
      modifies this
      ensures Valid() && (r == Ok || r == Busy)
      ensures r == Busy <==> PathOf(key, len) in old(Content())
      ensures Content() == if r == Ok then old(Content())[PathOf(key, len) := value] else old(Content())
    {
      hide Shaped, Pruned, FreeListed, Disjoint, Stored, PathOf, NoLeak;
      var pos, node, next := 32, root, root;
      ghost var d := 0;
      RootNode(at, mem, root, key);
      while pos > 0 && Bit(mask, pos - 1)
        invariant pos == 32 - d && d <= len && PathOf(key, d) in at && node == at[PathOf(key, d)] && next == node
        invariant node in mem && node != 0
        invariant mem == old(mem) && at == old(at) && frees == old(frees) && free == old(free) && start == old(start)
                  && root == old(root)
        decreases pos
      {
        PathStep(key, len, d);
        ChildNode(at, mem, root, PathOf(key, d), Bit(key, pos - 1));
        next := Link(mem[node], Bit(key, pos - 1));
        if next == 0 {
          break;
        }
        pos := pos - 1;
        node := next;
        d := d + 1;
        ChildNode(at, mem, root, PathOf(key, d), false);
      }
      StoredAt(at, mem, PathOf(key, d));
      PrunedAt(at, mem, PathOf(key, d));
      if next != 0 {
        if mem[node].value != NO_VALUE {
          return Busy;
        }
        PutValue(node, value, PathOf(key, d));
        return Ok;
      }
      AbsentPath(at, mem, root, key, len, d + 1);
      while pos > 0 && Bit(mask, pos - 1)
        invariant pos == 32 - d && d <= len && PathOf(key, d) in at && node == at[PathOf(key, d)]
        invariant Linked({}) && Pruned(at, mem, PathOf(key, d)) && Content() == old(Content())
        invariant d < len ==> PathOf(key, d + 1) !in at
        decreases pos
      {
        PathStep(key, len, d);
        node := AddChild(node, Bit(key, pos - 1), PathOf(key, d));
        pos := pos - 1;
        d := d + 1;
        if d < len {
          PathStep(key, len, d);
        }
      }
      ChildNode(at, mem, root, PathOf(key, d), false);
      PutValue(node, value, PathOf(key, d));
      r := Ok;
    }

    // A childless node is unlinked from its parent and goes to the free list.
    method RemoveLeaf(node: nat, ghost p: Path) returns (parent: nat)
      requires Linked({}) && p in at && node == at[p] && p != [] && Childless(at, p) && Pruned(at, mem, p)
      modifies `mem, `free, `at, `frees
      ensures Linked({}) && at == old(at) - {p} && frees == [node] + old(frees) && Pruned(at, mem, Up(p))
      ensures Content() == old(Content()) - {p}
      ensures Up(p) in at && parent == at[Up(p)] && parent in mem
    {
      hide Shaped, Pruned, Stored, Childless, NoLeak, FreeListed, Disjoint;
      ParentNode(at, mem, root, p);
      CutLeaf(at, mem, root, p);
      CutPruned(at, mem, root, p);
      parent := mem[node].parent;
      if mem[parent].right == node {
        mem := mem[parent := mem[parent].(right := 0)];
      } else {
        mem := mem[parent := mem[parent].(left := 0)];
      }
      assert mem == Cut(at, old(mem), p);
      ghost var mem1 := mem;
      at := at - {p};
      NodesIn(old(at), old(mem), root);
      Gone(old(at), old(mem), root, p);
      NotFree(old(at), frees, p);
      NotFree(old(at), frees, Up(p));
      StillDisjoint(old(at), frees, p);
      FreeFrame(old(mem), mem1, free, frees);
      mem := mem[node := mem[node].(right := free)];
      FreeCons(mem1, mem, free, frees, node);
      OtherWords(at, mem1, mem, root);
      Freed(old(at), old(mem), mem, frees, p);
      frees := [node] + frees;
      free := node;
    }

    // ngx_radix32tree_delete
    method Delete(key: nat, mask: nat, ghost len: nat) returns (r: Status)
      requires Valid() && Contiguous(mask, len)
      modifies this
      ensures Valid() && r != Busy
      ensures r == NullParent <==> len == 0 && OnlyRoot(old(Content()))
      ensures r == Ok <==> PathOf(key, len) in old(Content()) && !(len == 0 && OnlyRoot(old(Content())))
      ensures Content() == if r == Ok then old(Content()) - {PathOf(key, len)} else old(Content())
      ensures Collected(old(at), at, frees)
    {
      hide Shaped, Pruned, FreeListed, Disjoint, Stored, PathOf, Childless, OnlyRoot, NoLeak;
      var pos, node := 32, root;
      ghost var d := 0;
      RootNode(at, mem, root, key);
      ChildlessRoot(at, mem, root);
      while node != 0 && pos > 0 && Bit(mask, pos - 1)
        invariant pos == 32 - d && d <= len
        invariant if node != 0 then PathOf(key, d) in at && node == at[PathOf(key, d)] && node in mem
                  else PathOf(key, d) !in at && 0 < d
        invariant mem == old(mem) && at == old(at) && frees == old(frees) && free == old(free) && start == old(start)
                  && root == old(root)
        decreases pos
      {
        PathStep(key, len, d);
        ChildNode(at, mem, root, PathOf(key, d), Bit(key, pos - 1));
        node := Link(mem[node], Bit(key, pos - 1));
        pos := pos - 1;
        d := d + 1;
        if node != 0 {
          ChildNode(at, mem, root, PathOf(key, d), false);
        }
      }
      AbsentPath(at, mem, root, key, len, d);
      if node == 0 {
        return Error;
      }
      ghost var p := PathOf(key, len);
      StoredAt(at, mem, p);
      ChildNode(at, mem, root, p, false);
      ChildNode(at, mem, root, p, true);
      ChildlessAt(at, p);
      if mem[node].right != 0 || mem[node].left != 0 {
        if mem[node].value != NO_VALUE {
          PutValue(node, NO_VALUE, p);
          return Ok;
        }
        return Error;
      }
      ParentNode(at, mem, root, p);
      if mem[node].parent == 0 {
        return NullParent;
      }
      LeafValue(at, mem, p);
      RemoveUp(node, p);
      r := Ok;
    }

    // The removal loop: a leaf goes, and every ancestor left childless and without a value.
    method RemoveUp(node0: nat, ghost p0: Path)
      requires Linked({}) && p0 in at && node0 == at[p0] && p0 != [] && Childless(at, p0) && Pruned(at, mem, p0)
      modifies `mem, `free, `at, `frees
      ensures Valid() && Content() == old(Content()) - {p0} && Collected(old(at), at, frees)
    {
      hide Shaped, Pruned, FreeListed, Disjoint, Stored, Childless, NoLeak, Collected;
      var node := node0;
      AllThere(at, frees);
      ghost var p := p0;
      while true
        invariant Linked({}) && p in at && node == at[p] && p != [] && Childless(at, p) && Pruned(at, mem, p)
        invariant Content() - {p} == old(Content()) - {p0} && Collected(old(at), at, frees)
        decreases |p|
      {
        CollectedMore(old(at), at, frees, p);
        node := RemoveLeaf(node, p);
        p := Up(p);
        ChildNode(at, mem, root, p, false);
        ChildNode(at, mem, root, p, true);
        ParentNode(at, mem, root, p);
        ChildlessAt(at, p);
        StoredAt(at, mem, p);
        PrunedBack(at, mem, p);
        if mem[node].right != 0 || mem[node].left != 0 {
          break;
        }
        if mem[node].value != NO_VALUE {
          break;
        }
        if mem[node].parent == 0 {
          break;
        }
        assert Content() - {p} == Content();
      }
    }

    // ngx_radix32tree_find: the value of the longest stored prefix of the key.
    method Find(key: nat) returns (value: nat, ghost len: nat)
      requires Valid()
      ensures value != NO_VALUE ==> Longest(Content(), key, len) && value == Content()[PathOf(key, len)]
      ensures value == NO_VALUE ==> forall m: nat {:trigger PathOf(key, m)} :: m <= 32 ==> PathOf(key, m) !in Content()
    {
      hide Shaped, Pruned, FreeListed, Disjoint, Stored, PathOf;
      var pos, node := 32, root;
      value := NO_VALUE;
      ghost var d := 0;
      len := 0;
      RootNode(at, mem, root, key);
      while node != 0
        invariant pos == (if d <= 32 then 32 - d else 0) && d <= 33 && (d == 33 ==> node == 0)
        invariant node != 0 ==> PathOf(key, d) in at && node == at[PathOf(key, d)] && node in mem
        invariant node == 0 ==> 0 < d && (d <= 32 ==> PathOf(key, d) !in at)
        invariant value != NO_VALUE ==> len < d && PathOf(key, len) in Content() && value == Content()[PathOf(key, len)]
        invariant forall m: nat {:trigger PathOf(key, m)} ::
                    m < d && m <= 32 && (value != NO_VALUE ==> len < m) ==> PathOf(key, m) !in Content()
        decreases 33 - d
      {
        ghost var p := PathOf(key, d);
        StoredAt(at, mem, p);
        if mem[node].value != NO_VALUE {
          value := mem[node].value;
          len := d;
        }
        var b := pos > 0 && Bit(key, pos - 1);
        ChildNode(at, mem, root, p, b);
        node := Link(mem[node], b);
        if pos > 0 {
          PathStep(key, 32, d);
        }
        pos := if pos > 0 then pos - 1 else 0;
        d := d + 1;
        if node != 0 {
          ChildNode(at, mem, root, PathOf(key, d), false);
        }
      }
      forall m: nat {:trigger PathOf(key, m)} | d <= m <= 32
        ensures PathOf(key, m) !in Content()
      {
        AbsentPath(at, mem, root, key, m, d);
      }
    }
  }

  lemma Adopted(at: Trie, mem: Memory, frees: seq<nat>, p: Path, a: nat)
    requires NoLeak(at, mem, frees, {a}) && p !in at
    ensures NoLeak(at[p := a], mem, frees, {})
  {
    var at' := at[p := a];
    assert at'[p] in at'.Values;
    forall x | x in at.Values
      ensures x in at'.Values
    {
      var q :| q in at && at[q] == x;
      assert at'[q] == x;
    }
  }

  lemma Freed(at: Trie, mem: Memory, mem': Memory, frees: seq<nat>, p: Path)
    requires NoLeak(at, mem, frees, {}) && p in at && mem'.Keys == mem.Keys
    ensures NoLeak(at - {p}, mem', [at[p]] + frees, {})
  {
    var at' := at - {p};
    forall x | x in at.Values && x != at[p]
      ensures x in at'.Values
    {
      var q :| q in at && at[q] == x;
      assert q in at' && at'[q] == x;
    }
  }

  lemma NotFree(at: Trie, frees: seq<nat>, p: Path)
    requires Disjoint(at, frees) && p in at
    ensures at[p] !in frees
  {
  }

  lemma StillDisjoint(at: Trie, frees: seq<nat>, p: Path)
    requires Disjoint(at, frees) && p in at && forall q :: q in at && q != p ==> at[q] != at[p]
    ensures Disjoint(at - {p}, [at[p]] + frees)
  {
  }

  lemma AllThere(at: Trie, frees: seq<nat>)
    ensures Collected(at, at, frees)
  {
  }

  lemma CollectedMore(at0: Trie, at: Trie, frees: seq<nat>, p: Path)
    requires Collected(at0, at, frees) && p in at
    ensures Collected(at0, at - {p}, [at[p]] + frees)
  {
  }

  lemma NodesIn(at: Trie, mem: Memory, root: nat)
    requires Shaped(at, mem, root)
    ensures forall p :: p in at ==> at[p] in mem && at[p] != 0
  {
    forall p | p in at
      ensures at[p] in mem && at[p] != 0
    {
      assert NodeOk(at, mem, p);
    }
  }

  lemma RootNode(at: Trie, mem: Memory, root: nat, key: nat)
    requires Shaped(at, mem, root)
    ensures PathOf(key, 0) == [] && [] in at && at[[]] == root && root in mem && root != 0
  {
    assert NodeOk(at, mem, []);
  }

  lemma NewLeaf(at: Trie, mem: Memory, root: nat, p: Path, b: bool)
    requires Shaped(at, mem, root) && p + [b] !in at
    ensures forall c :: p + [b] + [c] !in at
  {
    forall c
      ensures p + [b] + [c] !in at
    {
      ChildHasParent(at, mem, root, p + [b], c);
    }
  }

  lemma StoredAt(at: Trie, mem: Memory, p: Path)
    ensures p in Stored(at, mem) <==> p in at && at[p] in mem && mem[at[p]].value != NO_VALUE
    ensures p in Stored(at, mem) ==> Stored(at, mem)[p] == mem[at[p]].value
  {
  }

  lemma PrunedAt(at: Trie, mem: Memory, p: Path)
    requires Pruned(at, mem, [])
    ensures Pruned(at, mem, p)
  {
    forall q | q != p
      ensures Leafy(at, mem, q)
    {
      assert q != [] ==> Leafy(at, mem, q);
    }
  }

  lemma PrunedBack(at: Trie, mem: Memory, p: Path)
    requires Pruned(at, mem, p) && p in at && at[p] in mem
    ensures p == [] || !Childless(at, p) || mem[at[p]].value != NO_VALUE ==> Pruned(at, mem, [])
  {
    if p == [] || !Childless(at, p) || mem[at[p]].value != NO_VALUE {
      forall q | q != []
        ensures Leafy(at, mem, q)
      {
        assert q != p ==> Leafy(at, mem, q);
      }
    }
  }

  // What is below a path that is not in the tree is not in the tree, nor stored.
  lemma AbsentPath(at: Trie, mem: Memory, root: nat, key: nat, len: nat, d: nat)
    requires Shaped(at, mem, root) && d <= len <= 32
    ensures PathOf(key, d) !in at ==> PathOf(key, len) !in at && PathOf(key, len) !in Stored(at, mem)
  {
    var p := PathOf(key, len);
    assert p[..d] == PathOf(key, d);
    if p in at {
      PrefixIn(at, mem, root, p, d);
    }
  }

  lemma ChildlessAt(at: Trie, p: Path)
    ensures Childless(at, p) <==> p + [false] !in at && p + [true] !in at
  {
  }

  lemma LeafValue(at: Trie, mem: Memory, p: Path)
    requires Pruned(at, mem, []) && p in at && at[p] in mem && p != [] && Childless(at, p)
    ensures mem[at[p]].value != NO_VALUE && Pruned(at, mem, p)
  {
    assert Leafy(at, mem, p);
    PrunedAt(at, mem, p);
  }

  lemma Gone(at: Trie, mem: Memory, root: nat, p: Path)
    requires Shaped(at, mem, root) && p in at
    ensures forall q :: q in at && q != p ==> at[q] != at[p] && at[q] in mem
  {
    forall q | q in at && q != p
      ensures at[q] != at[p] && at[q] in mem
    {
      assert Apart(at, p, q) && NodeOk(at, mem, q);
    }
  }

  // Below every node but the root a prefix is stored.
  lemma {:induction false} StoredBelow(at: Trie, mem: Memory, root: nat, p: Path) returns (q: Path)
    requires Shaped(at, mem, root) && Pruned(at, mem, []) && p in at && p != []
    ensures q in Stored(at, mem) && q != []
    decreases 32 - |p|
  {
    ChildNode(at, mem, root, p, false);
    ChildNode(at, mem, root, p, true);
    if p + [false] in at {
      q := StoredBelow(at, mem, root, p + [false]);
    } else if p + [true] in at {
      q := StoredBelow(at, mem, root, p + [true]);
    } else {
      q := p;
      assert Leafy(at, mem, p);
      StoredAt(at, mem, p);
    }
  }

  // No prefix is stored, or only the one of length zero.
  ghost predicate OnlyRoot(stored: map<Path, nat>) {
    forall p :: p in stored ==> p == []
  }

  lemma FirstStep(at: Trie, mem: Memory, root: nat, p: Path)
    requires Shaped(at, mem, root) && p in at && p != []
    ensures !Childless(at, [])
  {
    PrefixIn(at, mem, root, p, 1);
    assert p[..1] == if p[0] then [] + [true] else [] + [false];
  }

  lemma ChildlessRoot(at: Trie, mem: Memory, root: nat)
    requires Shaped(at, mem, root) && Pruned(at, mem, [])
    ensures Childless(at, []) <==> OnlyRoot(Stored(at, mem))
  {
    hide Shaped, Pruned;
    if Childless(at, []) {
      forall p | p in Stored(at, mem)
        ensures p == []
      {
        StoredAt(at, mem, p);
        if p != [] {
          FirstStep(at, mem, root, p);
        }
      }
    } else {
      var b := [] + [true] in at;
      var q := StoredBelow(at, mem, root, [] + [b]);
    }
  }

  // The prefix of length zero, stored alone, cannot be deleted.
  method ZeroPrefixStays(value: nat) returns (t: RadixTree, r: Status)
    requires value != NO_VALUE
    ensures t.Valid() && t.Content() == map[[] := value] && r == NullParent
  {
    t := new RadixTree();
    ZeroMask();
    assert PathOf(0, 0) == [];
    r := t.Insert(0, 0, value, 0);
    r := t.Delete(0, 0, 0);
  }

  lemma ZeroMask()
    ensures Contiguous(0, 0)
  {
    forall i: nat | i < 32
      ensures !Bit(0, i)
    {
      ZeroBits(i);
    }
  }
}
