// The index of the open file cache: a red-black tree ordered by the hash of the name and,
// where hashes collide, by the name. Its operations are those of the map from names to
// files that the cache itself is modelled with.

module CacheIndex {
  import opened ByteStrings
  import opened RbShape
  import opened RbWrites
  import opened RbInsert
  import opened RbDelete
  import RbTree

  type Name = CString

  function At(s: Name, i: nat): Byte {
    if i < |s| then s[i] else 0
  }

  // ngx_strcmp from a position on
  function CompareFrom(a: Name, b: Name, i: nat): int
    decreases |a| - i
  {
    if At(a, i) != At(b, i) then At(a, i) - At(b, i)
    else if At(a, i) == 0 then 0
    else CompareFrom(a, b, i + 1)
  }

  function Compare(a: Name, b: Name): int {
    CompareFrom(a, b, 0)
  }

  // The first difference decides.
  ghost predicate DiffersAt(a: Name, b: Name, i: nat) {
    At(a, i) != At(b, i) && forall j :: 0 <= j < i ==> At(a, j) == At(b, j) != 0
  }

  lemma {:induction false} CompareMeans(a: Name, b: Name, i: nat) returns (k: nat)
    requires forall j :: 0 <= j < i ==> At(a, j) == At(b, j) != 0
    ensures CompareFrom(a, b, i) == 0 ==> a == b
    ensures CompareFrom(a, b, i) != 0 ==> DiffersAt(a, b, k) && CompareFrom(a, b, i) == At(a, k) - At(b, k)
    decreases |a| - i
  {
    k := i;
    if At(a, i) == At(b, i) {
      if At(a, i) == 0 {
        SameName(a, b, i);
      } else {
        k := CompareMeans(a, b, i + 1);
      }
    }
  }

  lemma SameName(a: Name, b: Name, i: nat)
    requires At(a, i) == At(b, i) == 0 && forall j :: 0 <= j < i ==> At(a, j) == At(b, j) != 0
    ensures a == b
  {
    EndsAt(a, i);
    EndsAt(b, i);
    assert forall j :: 0 <= j < i ==> a[j] == At(a, j) == At(b, j) == b[j];
  }

  lemma EndsAt(a: Name, i: nat)
    requires At(a, i) == 0 && forall j :: 0 <= j < i ==> At(a, j) != 0
    ensures |a| == i
  {
    assert forall j :: 0 <= j < |a| ==> a[j] in a;
    assert At(a, |a|) == 0;
  }

  lemma {:induction false} CompareSelf(a: Name, i: nat)
    ensures CompareFrom(a, a, i) == 0
    decreases |a| - i
  {
    if At(a, i) != 0 && i < |a| {
      CompareSelf(a, i + 1);
    }
  }

  lemma {:induction false} CompareDecides(a: Name, b: Name, i: nat, k: nat)
    requires DiffersAt(a, b, k) && i <= k
    ensures CompareFrom(a, b, i) == At(a, k) - At(b, k)
    decreases k - i
  {
    if i < k {
      CompareDecides(a, b, i + 1, k);
    }
  }

  // strcmp is a strict total order: it is zero for equal names only, changes its sign
  // with its arguments, and is transitive.
  lemma CompareOrder(a: Name, b: Name, c: Name)
    ensures Compare(a, b) == 0 <==> a == b
    ensures Compare(b, a) == -Compare(a, b)
    ensures Compare(a, b) < 0 && Compare(b, c) < 0 ==> Compare(a, c) < 0
  {
    CompareSelf(a, 0);
    var k := CompareMeans(a, b, 0);
    if Compare(a, b) != 0 {
      assert DiffersAt(b, a, k);
      CompareDecides(b, a, 0, k);
      if Compare(a, b) < 0 && Compare(b, c) < 0 {
        var l := CompareMeans(b, c, 0);
        var m := if k < l then k else l;
        assert DiffersAt(a, c, m);
        CompareDecides(a, c, 0, m);
      }
    }
  }

  // -------- the order of the tree --------

  // By the hash, then by the name
  ghost predicate Precedes(hash: Name -> nat, a: Name, b: Name) {
    hash(a) < hash(b) || (hash(a) == hash(b) && Compare(a, b) < 0)
  }

  lemma PrecedesOrder(hash: Name -> nat, a: Name, b: Name, c: Name)
    ensures Precedes(hash, a, b) && Precedes(hash, b, c) ==> Precedes(hash, a, c)
    ensures !Precedes(hash, a, a)
    ensures a == b || Precedes(hash, a, b) || Precedes(hash, b, a)
  {
    hide Compare;
    CompareOrder(a, b, c);
    CompareOrder(a, a, a);
  }

  ghost function Label(names: map<Node, Name>, item: Item): Name {
    if item.node in names then names[item.node] else []
  }

  ghost predicate Ordered(hash: Name -> nat, names: map<Node, Name>, s: seq<Item>) {
    && (forall i :: 0 <= i < |s| ==> s[i].key == hash(Label(names, s[i])))
    && (forall i, j :: 0 <= i < j < |s| ==> Precedes(hash, Label(names, s[i]), Label(names, s[j])))
  }

  lemma OrderedSorted(hash: Name -> nat, names: map<Node, Name>, s: seq<Item>)
    requires Ordered(hash, names, s)
    ensures Sorted(s)
  {
    hide Compare, Label;
    forall i, j | 0 <= i < j < |s|
      ensures s[i].key <= s[j].key
    {
      assert Precedes(hash, Label(names, s[i]), Label(names, s[j]));
    }
  }

  // Every item precedes the name; the name precedes every item.
  ghost predicate Below(hash: Name -> nat, names: map<Node, Name>, s: seq<Item>, name: Name) {
    forall i :: 0 <= i < |s| ==> Precedes(hash, Label(names, s[i]), name)
  }

  ghost predicate Above(hash: Name -> nat, names: map<Node, Name>, s: seq<Item>, name: Name) {
    forall i :: 0 <= i < |s| ==> Precedes(hash, name, Label(names, s[i]))
  }

  lemma OrderedParts(hash: Name -> nat, names: map<Node, Name>, a: seq<Item>, item: Item, b: seq<Item>)
    requires Ordered(hash, names, a + [item] + b)
    ensures Ordered(hash, names, a) && Ordered(hash, names, b) && item.key == hash(Label(names, item))
    ensures Below(hash, names, a, Label(names, item)) && Above(hash, names, b, Label(names, item))
  {
    hide Precedes, Label;
    var s := a + [item] + b;
    assert s[|a|] == item;
    assert forall i :: 0 <= i < |a| ==> s[i] == a[i];
    assert forall i :: 0 <= i < |b| ==> s[|a| + 1 + i] == b[i];
  }

  lemma BelowAll(hash: Name -> nat, names: map<Node, Name>, a: seq<Item>, item: Item, name: Name)
    requires Below(hash, names, a, Label(names, item)) && Precedes(hash, Label(names, item), name)
    ensures Below(hash, names, a + [item], name)
  {
    hide Precedes, Label;
    forall i | 0 <= i < |a + [item]|
      ensures Precedes(hash, Label(names, (a + [item])[i]), name)
    {
      if i < |a| {
        PrecedesOrder(hash, Label(names, a[i]), Label(names, item), name);
      }
    }
  }

  lemma AboveAll(hash: Name -> nat, names: map<Node, Name>, b: seq<Item>, item: Item, name: Name)
    requires Above(hash, names, b, Label(names, item)) && Precedes(hash, name, Label(names, item))
    ensures Above(hash, names, [item] + b, name)
  {
    hide Precedes, Label;
    forall i | 0 <= i < |[item] + b|
      ensures Precedes(hash, name, Label(names, ([item] + b)[i]))
    {
      if i > 0 {
        PrecedesOrder(hash, name, Label(names, item), Label(names, b[i - 1]));
      }
    }
  }

  lemma Together(hash: Name -> nat, names: map<Node, Name>, a: seq<Item>, b: seq<Item>, name: Name)
    ensures Below(hash, names, a, name) && Below(hash, names, b, name) ==> Below(hash, names, a + b, name)
    ensures Above(hash, names, a, name) && Above(hash, names, b, name) ==> Above(hash, names, a + b, name)
  {
    hide Precedes, Label;
  }

  // The descent is at `t`: all that lies to its left precedes the name, which precedes
  // all that lies to its right.
  ghost predicate Parted(hash: Name -> nat, names: map<Node, Name>, c: Path, t: Tree, name: Name) {
    && Below(hash, names, Before(c), name) && Above(hash, names, After(c), name)
    && Ordered(hash, names, Items(t))
  }

  lemma PartedChild(hash: Name -> nat, names: map<Node, Name>, c: Path, t: Tree, name: Name, left: bool)
    requires Parted(hash, names, c, t, name) && t.Branch?
    requires var own := Label(names, Item(t.node, t.key));
      if left then Precedes(hash, name, own) else Precedes(hash, own, name)
    ensures Parted(hash, names, Descended(c, t, left), Child(t, left), name)
  {
    hide Precedes, Label, Ordered, Below, Above;
    var item := Item(t.node, t.key);
    OrderedParts(hash, names, Items(t.left), item, Items(t.right));
    if left {
      AboveAll(hash, names, Items(t.right), item, name);
      Together(hash, names, [item] + Items(t.right), After(c), name);
    } else {
      BelowAll(hash, names, Items(t.left), item, name);
      Together(hash, names, Before(c), Items(t.left) + [item], name);
      assert Before(c) + (Items(t.left) + [item]) == Before(c) + Items(t.left) + [item];
    }
  }

  // One turn of either loop
  lemma Turn(hash: Name -> nat, names: map<Node, Name>, m: Memory, s: Node, root: Node, c: Path, t: Tree, name: Name,
             left: bool)
    requires View(m, s, root, c, t) && Parted(hash, names, c, t, name) && t.Branch?
    requires var own := Label(names, Item(t.node, t.key));
      if left then Precedes(hash, name, own) else Precedes(hash, own, name)
    ensures Parted(hash, names, Descended(c, t, left), Child(t, left), name)
    ensures View(m, s, root, Descended(c, t, left), Child(t, left))
    ensures Plug(Descended(c, t, left), Child(t, left)) == Plug(c, t)
  {
    hide Precedes, Label, Parted, View;
    PartedChild(hash, names, c, t, name, left);
    if left {
      MoveLeft(m, s, root, c, t);
    } else {
      MoveRight(m, s, root, c, t);
    }
  }

  lemma PartedNode(hash: Name -> nat, names: map<Node, Name>, c: Path, t: Tree, name: Name)
    requires Parted(hash, names, c, t, name) && t.Branch?
    ensures t.key == hash(Label(names, Item(t.node, t.key)))
  {
    hide Precedes, Label;
    assert Items(t)[|Items(t.left)|] == Item(t.node, t.key);
  }

  // -------- insertion and deletion --------

  // The labels that an ordered sequence has under other names
  lemma SameLabels(hash: Name -> nat, names: map<Node, Name>, names': map<Node, Name>, s: seq<Item>)
    requires Ordered(hash, names, s) && forall i :: 0 <= i < |s| ==> Label(names', s[i]) == Label(names, s[i])
    ensures Ordered(hash, names', s)
  {
    hide Precedes, Label;
  }

  lemma InsertedOrdered(hash: Name -> nat, names: map<Node, Name>, a: seq<Item>, b: seq<Item>, n: Node, name: Name)
    requires Ordered(hash, names, a + b) && Below(hash, names, a, name) && Above(hash, names, b, name)
    requires n in names && names[n] == name
    ensures Ordered(hash, names, a + [Item(n, hash(name))] + b)
  {
    hide Precedes;
    var item := Item(n, hash(name));
    var r := a + [item] + b;
    assert Label(names, item) == name;
    assert forall i :: 0 <= i < |a| ==> r[i] == a[i] == (a + b)[i];
    assert forall i :: |a| < i < |r| ==> r[i] == b[i - |a| - 1] == (a + b)[i - 1];
    forall i, j | 0 <= i < j < |r|
      ensures Precedes(hash, Label(names, r[i]), Label(names, r[j]))
    {
      hide Label;
    }
  }

  lemma DroppedOrdered(hash: Name -> nat, names: map<Node, Name>, s: seq<Item>, s': seq<Item>, n: Node)
    requires Ordered(hash, names, s) && Dropped(s, s', n)
    ensures Ordered(hash, names, s')
  {
    hide Precedes, Label;
    var i :| 0 <= i < |s| && s[i].node == n && s' == s[..i] + s[i + 1..];
    assert forall j :: 0 <= j < |s'| ==> s'[j] == s[if j < i then j else j + 1];
  }

  // No two nodes have one name.
  lemma OneNode(hash: Name -> nat, names: map<Node, Name>, t: Tree, n: Node, n': Node)
    requires Ordered(hash, names, Items(t)) && names.Keys == Nodes(t)
    requires n in names && n' in names && names[n] == names[n']
    ensures n == n'
  {
    hide Precedes;
    var i := NodeItem(t, n);
    var j := NodeItem(t, n');
    PrecedesOrder(hash, names[n], names[n], names[n]);
  }

  ghost predicate Injective(names: map<Node, Name>) {
    forall n, n' :: n in names && n' in names && names[n] == names[n'] ==> n == n'
  }

  // The map from names to files
  ghost function Inverse(names: map<Node, Name>): (index: map<Name, Node>)
    requires Injective(names)
    ensures forall n :: n in names ==> names[n] in index && index[names[n]] == n
    ensures forall name :: name in index ==> index[name] in names && names[index[name]] == name
  {
    map n | n in names :: names[n] := n
  }

  // What a node that the descent meets holds
  lemma Visit(hash: Name -> nat, names: map<Node, Name>, m: Memory, s: Node, root: Node, c: Path, t: Tree, name: Name)
    requires View(m, s, root, c, t) && t.Branch? && Parted(hash, names, c, t, name)
    requires names.Keys == Nodes(Plug(c, t))
    ensures t.node in names && t.node in m && m[t.node].key == hash(names[t.node])
    ensures Label(names, Item(t.node, t.key)) == names[t.node]
    ensures m[t.node].left == Pointer(s, t.left) && m[t.node].right == Pointer(s, t.right)
  {
    hide Precedes, Parted, View;
    PlugNodes(c, t);
    TopCell(m, s, root, c, t);
    PartedNode(hash, names, c, t, name);
  }

  lemma IsLeaf(m: Memory, s: Node, root: Node, c: Path, t: Tree)
    requires View(m, s, root, c, t)
    ensures t.Leaf? <==> Pointer(s, t) == s
  {
    hide View;
    TopCell(m, s, root, c, t);
  }

  lemma Whole(hash: Name -> nat, names: map<Node, Name>, m: Memory, s: Node, root: Node, t: Tree, name: Name)
    requires View(m, s, root, Top, t) && Ordered(hash, names, Items(t))
    ensures root == Pointer(s, t) && Parted(hash, names, Top, t, name) && Plug(Top, t) == t
  {
    hide Precedes, Label;
  }

  // Which way the loops go
  lemma Side(hash: Name -> nat, name: Name, own: Name)
    ensures hash(name) < hash(own) ==> Precedes(hash, name, own)
    ensures hash(name) > hash(own) ==> Precedes(hash, own, name)
    ensures hash(name) == hash(own) && Compare(name, own) < 0 ==> Precedes(hash, name, own)
    ensures hash(name) == hash(own) && Compare(name, own) > 0 ==> Precedes(hash, own, name)
    ensures hash(name) == hash(own) && Compare(name, own) == 0 ==> name == own
  {
    hide Compare;
    CompareOrder(name, own, name);
  }

  lemma NoNull(names: map<Node, Name>, m: Memory, s: Node, root: Node, t: Tree)
    requires View(m, s, root, Top, t) && names.Keys == Nodes(t)
    ensures NULL !in names
  {
    HoldsNodes(m, s, NULL, t);
  }

  // A descent that ends at a leaf has passed every name.
  lemma Absent(hash: Name -> nat, names: map<Node, Name>, c: Path, name: Name, n: Node)
    requires Parted(hash, names, c, Leaf, name) && names.Keys == Nodes(Plug(c, Leaf))
    requires n in names
    ensures names[n] != name
  {
    hide Precedes, Plug, Nodes;
    var i := NodeItem(Plug(c, Leaf), n);
    PlugItems(c, Leaf);
    PrecedesOrder(hash, name, name, name);
    if i < |Before(c)| {
      assert Before(c)[i].node == n;
    } else {
      assert After(c)[i - |Before(c)|].node == n;
    }
  }

  lemma NodesKeys(m: Memory, s: Node, root: Node, t: Tree)
    requires View(m, s, root, Top, t) && m.Keys == Nodes(t) + {s}
    ensures Nodes(t) == m.Keys - {s}
    ensures root == Pointer(s, t) && (root == s ==> t == Leaf)
  {
    hide Nodes;
    HoldsNodes(m, s, Parent(Top), t);
  }

  lemma NoNodes()
    ensures Nodes(Leaf) == {}
  {
  }

  lemma OnlyOne(hash: Name -> nat, n: Node, name: Name)
    ensures Ordered(hash, map[n := name], [Item(n, hash(name))])
  {
  }

  lemma SlotOrdered(hash: Name -> nat, names: map<Node, Name>, c: Path, n: Node, name: Name)
    requires Parted(hash, names, c, Leaf, name) && Ordered(hash, names, Items(Plug(c, Leaf)))
    requires names.Keys == Nodes(Plug(c, Leaf)) && n !in names
    ensures Ordered(hash, names[n := name], Before(c) + [Item(n, hash(name))] + After(c))
    ensures Sorted(Before(c) + [Item(n, hash(name))] + After(c))
  {
    hide Precedes, Nodes, Plug, Ordered;
    var s, names' := Items(Plug(c, Leaf)), names[n := name];
    PlugItems(c, Leaf);
    assert s == Before(c) + After(c);
    forall i | 0 <= i < |s|
      ensures Label(names', s[i]) == Label(names, s[i])
    {
      ItemNode(Plug(c, Leaf), i);
    }
    SameLabels(hash, names, names', s);
    assert forall i :: 0 <= i < |Before(c)| ==> s[i] == Before(c)[i];
    assert forall i :: 0 <= i < |After(c)| ==> s[|Before(c)| + i] == After(c)[i];
    InsertedOrdered(hash, names', Before(c), After(c), n, name);
    OrderedSorted(hash, names', Before(c) + [Item(n, hash(name))] + After(c));
  }

  // A map that undoes the names is the index.
  lemma SameIndex(index: map<Name, Node>, index': map<Name, Node>, names: map<Node, Name>)
    requires forall n :: n in names ==> names[n] in index && index[names[n]] == n
    requires forall x :: x in index ==> index[x] in names && names[index[x]] == x
    requires forall n :: n in names ==> names[n] in index' && index'[names[n]] == n
    requires forall x :: x in index' ==> index'[x] in names && names[index'[x]] == x
    ensures index == index'
  {
  }

  lemma OneMore(hash: Name -> nat, names: map<Node, Name>, names': map<Node, Name>, t: Tree, n: Node, name: Name)
    requires names' == names[n := name] && n !in names && Injective(names)
    requires names'.Keys == Nodes(t) && Ordered(hash, names', Items(t))
    ensures Injective(names') && Inverse(names') == Inverse(names)[name := n]
  {
    hide Nodes, Ordered, Precedes, Inverse;
    forall m, m' | m in names' && m' in names' && names'[m] == names'[m']
      ensures m == m'
    {
      OneNode(hash, names', t, m, m');
    }
    forall m | m in names
      ensures names[m] != name
    {
      if names[m] == name {
        OneNode(hash, names', t, m, n);
      }
    }
    SameIndex(Inverse(names'), Inverse(names)[name := n], names');
  }

  lemma OneLess(hash: Name -> nat, names: map<Node, Name>, names': map<Node, Name>, t: Tree, n: Node)
    requires n in names && names' == names - {n} && Injective(names)
    requires names'.Keys == Nodes(t) && Ordered(hash, names, Items(t))
    ensures Injective(names') && Ordered(hash, names', Items(t))
    ensures Inverse(names') == Inverse(names) - {names[n]}
  {
    hide Nodes, Ordered, Precedes, Inverse;
    forall i | 0 <= i < |Items(t)|
      ensures Label(names', Items(t)[i]) == Label(names, Items(t)[i])
    {
      ItemNode(t, i);
    }
    SameLabels(hash, names, names', Items(t));
    SameIndex(Inverse(names'), Inverse(names) - {names[n]}, names');
  }

  class CacheIndex {
    const rb: RbTree.RbTree
    const hash: Name -> nat
    var names: map<Node, Name>

    ghost predicate Valid()
      reads this, rb
    {
      && rb.Valid() && names.Keys == Nodes(rb.tree) && Ordered(hash, names, Items(rb.tree))
      && Injective(names)
    }

    ghost function Index(): map<Name, Node>
      requires Valid()
      reads this, rb
    {
      Inverse(names)
    }

    constructor (s: Node, hash: Name -> nat)
      requires s != NULL
      ensures Valid() && fresh(rb) && this.hash == hash && Index() == map[] && rb.mem.Keys == {s}
    {
      this.hash, names := hash, map[];
      rb := new RbTree.RbTree(s);
    }

    // ngx_open_file_lookup
    method Lookup(name: Name, key: nat) returns (file: Node)
      requires Valid() && key == hash(name)
      ensures file == if name in Index() then Index()[name] else NULL
      ensures name in Index() ==> Index()[name] != NULL
    {
      hide Precedes, Compare, View, Nodes, Parted, Ordered, Label, Injective, Plug;
      var node := rb.root;
      ghost var c, t := Top, rb.tree;
      NoNull(names, rb.mem, rb.sentinel, rb.root, t);
      Whole(hash, names, rb.mem, rb.sentinel, rb.root, t, name);
      IsLeaf(rb.mem, rb.sentinel, rb.root, c, t);
      while node != rb.sentinel
        invariant rb.At(c, t) && node == Pointer(rb.sentinel, t) && Plug(c, t) == rb.tree
        invariant Parted(hash, names, c, t, name) && (t.Leaf? <==> node == rb.sentinel)
        decreases t
      {
        Visit(hash, names, rb.mem, rb.sentinel, rb.root, c, t, name);
        Side(hash, name, names[node]);
        var left;
        if key < rb.mem[node].key {
          left := true;
        } else if key > rb.mem[node].key {
          left := false;
        } else {
          var rc := Compare(name, names[node]);
          if rc == 0 {
            return node;
          }
          left := rc < 0;
        }
        Turn(hash, names, rb.mem, rb.sentinel, rb.root, c, t, name, left);
        node := if left then rb.mem[node].left else rb.mem[node].right;
        c, t := Descended(c, t, left), Child(t, left);
        IsLeaf(rb.mem, rb.sentinel, rb.root, c, t);
      }
      forall n | n in names
        ensures names[n] != name
      {
        Absent(hash, names, c, name, n);
      }
      return NULL;
    }

    // The loop of ngx_open_file_cache_rbtree_insert_value
    method FindSlot(temp0: Node, name: Name, key: nat) returns (temp: Node, left: bool, ghost c: Path)
      requires Valid() && key == hash(name) && name !in Index()
      requires temp0 == rb.root != rb.sentinel
      ensures rb.At(c, Leaf) && Plug(c, Leaf) == rb.tree && Parted(hash, names, c, Leaf, name)
      ensures !c.Top? && c.node == temp && (left <==> c.InLeft?)
    {
      hide Precedes, Compare, View, Nodes, Parted, Ordered, Label, Injective, Plug;
      temp := temp0;
      c := Top;
      ghost var t := rb.tree;
      Whole(hash, names, rb.mem, rb.sentinel, rb.root, t, name);
      IsLeaf(rb.mem, rb.sentinel, rb.root, c, t);
      while true
        invariant rb.At(c, t) && t.Branch? && t.node == temp && Plug(c, t) == rb.tree
        invariant Parted(hash, names, c, t, name)
        decreases t
      {
        Visit(hash, names, rb.mem, rb.sentinel, rb.root, c, t, name);
        Side(hash, name, names[temp]);
        if key < rb.mem[temp].key {
          left := true;
        } else if key > rb.mem[temp].key {
          left := false;
        } else {
          left := Compare(name, names[temp]) < 0;
        }
        Turn(hash, names, rb.mem, rb.sentinel, rb.root, c, t, name, left);
        var p := if left then rb.mem[temp].left else rb.mem[temp].right;
        c, t := Descended(c, t, left), Child(t, left);
        IsLeaf(rb.mem, rb.sentinel, rb.root, c, t);
        if p == rb.sentinel {
          break;
        }
        temp := p;
      }
    }

    // The tree after an insertion below the slot of the name
    method InsertBelow(node: Node, cell: Cell, name: Name)
      requires Valid() && node !in rb.mem && node != NULL && cell.key == hash(name) && name !in Index()
      requires rb.root != rb.sentinel
      modifies rb
      ensures rb.Valid() && rb.mem.Keys == old(rb.mem.Keys) + {node}
      ensures Ordered(hash, names[node := name], Items(rb.tree))
    {
      hide Precedes, Compare, View, Ordered, Label, Plug, Inverse, Injective, Sorted, Nodes, PathNodes, Parted;
      NodesKeys(rb.mem, rb.sentinel, rb.root, rb.tree);
      var temp, left;
      ghost var c;
      temp, left, c := FindSlot(rb.root, name, cell.key);
      SlotOrdered(hash, names, c, node, name);
      rb.InsertAt(temp, left, node, cell, c);
    }

    // ngx_rbtree_insert: the file has its name and its key, and goes into the tree.
    method Insert(node: Node, cell: Cell, name: Name)
      requires Valid() && node !in rb.mem && node != NULL && cell.key == hash(name) && name !in Index()
      modifies this, rb
      ensures Valid() && rb.mem.Keys == old(rb.mem.Keys) + {node}
      ensures Index() == old(Index())[name := node]
    {
      hide Precedes, Compare, View, Ordered, Label, Plug, Inverse, Injective, Sorted, Nodes, PathNodes, Parted;
      ghost var names0 := names;
      NodesKeys(rb.mem, rb.sentinel, rb.root, rb.tree);
      if rb.root == rb.sentinel {
        NoNodes();
        rb.InsertFirst(node, cell);
        OnlyOne(hash, node, name);
        assert names0[node := name] == map[node := name];
      } else {
        InsertBelow(node, cell, name);
      }
      names := names[node := name];
      NodesKeys(rb.mem, rb.sentinel, rb.root, rb.tree);
      OneMore(hash, names0, names, rb.tree, node, name);
    }

    // ngx_rbtree_delete, with the file freed afterwards
    method Delete(node: Node, ghost name: Name)
      requires Valid() && name in Index() && Index()[name] == node
      modifies this, rb
      ensures Valid() && rb.mem.Keys == old(rb.mem.Keys) - {node}
      ensures Index() == old(Index()) - {name}
    {
      hide Precedes, Compare, View, Parted, Ordered, Label, Plug;
      ghost var items, names0 := Items(rb.tree), names;
      NodesKeys(rb.mem, rb.sentinel, rb.root, rb.tree);
      var _ := rb.Delete(node);
      NodesKeys(rb.mem, rb.sentinel, rb.root, rb.tree);
      DroppedOrdered(hash, names, items, Items(rb.tree), node);
      names := names - {node};
      OneLess(hash, names0, names, rb.tree, node);
    }
  }
}
