// The state of the rebalancing loop of ngx_rbtree_insert and the pure part of its step.

module RbInsert {
  import opened RbShape
  import opened RbBalance
  import opened RbWrites

  // The tree is right but for the red node at the top of `t`, whose parent may be red.
  ghost predicate Rising(m: Memory, s: Node, root: Node, c: Path, t: Tree, items: seq<Item>) {
    && View(m, s, root, c, t)
    && Red(t) && Balanced(t) && Fits(c, BlackHeight(t), false)
    && Before(c) + Items(t) + After(c) == items
    && m.Keys == PathNodes(c) + Nodes(t) + {s}
  }

  ghost function Depth(c: Path): nat {
    if c.Top? then 0 else 1 + Depth(c.up)
  }

  lemma TopCell(m: Memory, s: Node, root: Node, c: Path, t: Tree)
    requires View(m, s, root, c, t)
    ensures Pointer(s, t) in m && m[Pointer(s, t)].red == Red(t)
    ensures t.Branch? ==> m[t.node].left == Pointer(s, t.left) && m[t.node].right == Pointer(s, t.right)
    ensures t.Branch? ==> m[t.node].key == t.key && t.node != s
    ensures t.Branch? ==> (t.left.Leaf? <==> m[t.node].left == s) && (t.right.Leaf? <==> m[t.node].right == s)
  {
    if t.Branch? {
      assert Holds(m, s, t.node, t.left) && Holds(m, s, t.node, t.right);
    }
  }

  // A node, its parent and its grandparent, with the uncle's colour.
  lemma Family(m: Memory, s: Node, root: Node, c: Path, t: Tree)
    requires View(m, s, root, c, t) && t.Branch? && !c.Top? && !c.up.Top?
    ensures t.node in m && m[t.node].parent == c.node
    ensures c.node in m && m[c.node].parent == c.up.node && c.up.node in m
    ensures m[c.up.node].left == (if c.up.InLeft? then c.node else Pointer(s, c.up.sibling))
    ensures m[c.up.node].right == (if c.up.InRight? then c.node else Pointer(s, c.up.sibling))
    ensures Pointer(s, c.up.sibling) in m && m[Pointer(s, c.up.sibling)].red == Red(c.up.sibling)
    ensures Pointer(s, c.up.sibling) !in {t.node, c.node, c.up.node}
    ensures c.InLeft? ==> m[c.node].left == t.node && m[c.node].right != t.node
    ensures c.InRight? ==> m[c.node].right == t.node && m[c.node].left != t.node
    ensures View(m, s, root, c.up, Join(c, t))
    ensures View(m, s, root, c.up.up, Join(c.up, Join(c, t)))
  {
    Hanging(m, s, root, c, t);
    MoveUp(m, s, root, c, t);
    Hanging(m, s, root, c.up, Join(c, t));
    MoveUp(m, s, root, c.up, Join(c, t));
    TopCell(m, s, root, c.up.up, Join(c.up, Join(c, t)));
    var u := c.up.sibling;
    assert Pointer(s, u) in m && m[Pointer(s, u)].red == Red(u) by {
      assert Holds(m, s, c.up.node, u);
    }
  }

  // The grandparent once its red children have turned black.
  ghost function Recoloured(c: Path, t: Tree): Tree
    requires !c.Top? && !c.up.Top? && c.up.sibling.Branch?
  {
    Join(c.up.(red := true, sibling := c.up.sibling.(red := false)), Join(c.(red := false), t))
  }

  lemma RecolouredRises(c: Path, t: Tree)
    requires Red(t) && Balanced(t) && Fits(c, BlackHeight(t), false)
    requires !c.Top? && c.red && !c.up.Top? && Red(c.up.sibling)
    ensures
      var r := Recoloured(c, t);
      && Red(r) && Balanced(r) && Fits(c.up.up, BlackHeight(r), false)
      && Nodes(r) + PathNodes(c.up.up) == Nodes(t) + PathNodes(c)
      && Before(c.up.up) + Items(r) + After(c.up.up) == Before(c) + Items(t) + After(c)
  {
    assert Fits(c.up, BlackHeight(t), true);
    var p := Join(c.(red := false), t);
    assert Balanced(p);
    PlugItemsTwice(c, t);
    assert Items(c.up.sibling.(red := false)) == Items(c.up.sibling);
    assert Items(Recoloured(c, t)) == Items(Join(c.up, Join(c, t)));
  }

  lemma JoinItems(c: Path, t: Tree)
    requires !c.Top?
    ensures Before(c.up) + Items(Join(c, t)) + After(c.up) == Before(c) + Items(t) + After(c)
  {
    var m := [Item(c.node, c.key)];
    if c.InLeft? {
      Regroup(Before(c.up), Items(t), m, Items(c.sibling), After(c.up));
    } else {
      Regroup(Before(c.up), Items(c.sibling), m, Items(t), After(c.up));
    }
  }

  lemma PlugItemsTwice(c: Path, t: Tree)
    requires !c.Top? && !c.up.Top?
    ensures Before(c.up.up) + Items(Join(c.up, Join(c, t))) + After(c.up.up) == Before(c) + Items(t) + After(c)
  {
    JoinItems(c, t);
    JoinItems(c.up, Join(c, t));
  }

  // The subtree after the last rotation: a black node over two red ones.
  ghost predicate Settled(r: Tree, c: Path) {
    && r.Branch? && !r.red && Red(r.left) && Red(r.right)
    && Balanced(r) && Fits(c, BlackHeight(r), false)
  }

  lemma SettledLeftRises(m: Memory, s: Node, root: Node, c: Path, r: Tree, items: seq<Item>)
    requires View(m, s, root, c, r) && Settled(r, c)
    requires Before(c) + Items(r) + After(c) == items
    requires m.Keys == PathNodes(c) + Nodes(r) + {s}
    ensures Rising(m, s, root, InLeft(r.node, r.red, r.key, r.right, c), r.left, items)
  {
    MoveLeft(m, s, root, c, r);
    JoinItems(InLeft(r.node, r.red, r.key, r.right, c), r.left);
  }

  lemma SettledRightRises(m: Memory, s: Node, root: Node, c: Path, r: Tree, items: seq<Item>)
    requires View(m, s, root, c, r) && Settled(r, c)
    requires Before(c) + Items(r) + After(c) == items
    requires m.Keys == PathNodes(c) + Nodes(r) + {s}
    ensures Rising(m, s, root, InRight(r.node, r.red, r.key, r.left, c), r.right, items)
  {
    MoveRight(m, s, root, c, r);
    JoinItems(InRight(r.node, r.red, r.key, r.left, c), r.right);
  }

  // A red node with a red left child, everything else in order.
  ghost predicate WedgeLeft(t: Tree) {
    && Red(t) && Red(t.left) && !Red(t.right)
    && Balanced(t.left) && Balanced(t.right) && BlackHeight(t.left) == BlackHeight(t.right)
  }

  ghost predicate WedgeRight(t: Tree) {
    && Red(t) && Red(t.right) && !Red(t.left)
    && Balanced(t.left) && Balanced(t.right) && BlackHeight(t.left) == BlackHeight(t.right)
  }

  lemma MakeWedgeLeft(c: Path, t: Tree)
    requires Red(t) && Balanced(t) && Fits(c, BlackHeight(t), false) && !c.Top? && c.red
    ensures c.InLeft? ==> WedgeLeft(Join(c, t))
    ensures c.InRight? ==> WedgeLeft(RotatedLeft(Join(c, t)))
    ensures !c.up.Top? && !c.up.red && Fits(c.up, BlackHeight(t), true)
  {
  }

  lemma MakeWedgeRight(c: Path, t: Tree)
    requires Red(t) && Balanced(t) && Fits(c, BlackHeight(t), false) && !c.Top? && c.red
    ensures c.InRight? ==> WedgeRight(Join(c, t))
    ensures c.InLeft? ==> WedgeRight(RotatedRight(Join(c, t)))
    ensures !c.up.Top? && !c.up.red && Fits(c.up, BlackHeight(t), true)
  {
  }

  lemma SettleLeft(c: Path, p: Tree)
    requires WedgeLeft(p) && c.InLeft? && !c.red && !Red(c.sibling) && Fits(c, BlackHeight(p), false)
    ensures
      var g := Branch(p.(red := false), c.node, true, c.key, c.sibling);
      && Settled(RotatedRight(g), c.up)
      && Items(RotatedRight(g)) == Items(Join(c, p)) && Nodes(RotatedRight(g)) == Nodes(Join(c, p))
  {
    var g := Branch(p.(red := false), c.node, true, c.key, c.sibling);
    RotatedRightShape(g);
    assert Items(p.(red := false)) == Items(p);
  }

  lemma SettleRight(c: Path, p: Tree)
    requires WedgeRight(p) && c.InRight? && !c.red && !Red(c.sibling) && Fits(c, BlackHeight(p), false)
    ensures
      var g := Branch(c.sibling, c.node, true, c.key, p.(red := false));
      && Settled(RotatedLeft(g), c.up)
      && Items(RotatedLeft(g)) == Items(Join(c, p)) && Nodes(RotatedLeft(g)) == Nodes(Join(c, p))
  {
    var g := Branch(c.sibling, c.node, true, c.key, p.(red := false));
    RotatedLeftShape(g);
    assert Items(p.(red := false)) == Items(p);
  }

  lemma RecolourStep(m: Memory, m': Memory, s: Node, root: Node, c: Path, t: Tree, items: seq<Item>)
    requires Rising(m, s, root, c, t, items) && !c.Top? && c.red && !c.up.Top? && Red(c.up.sibling)
    requires {c.node, c.up.sibling.node, c.up.node} <= m.Keys
    requires m' == WithRed(WithRed(WithRed(m, c.node, false), c.up.sibling.node, false), c.up.node, true)
    ensures Rising(m', s, root, c.up.up, Recoloured(c, t), items)
  {
    Family(m, s, root, c, t);
    RecolourFamily(m, m', s, root, c.up.up, Join(c.up, Join(c, t)));
    RecolouredRises(c, t);
  }

  // The red pair hangs straight down from a black grandparent with a black other child.
  ghost predicate Straight(m: Memory, s: Node, root: Node, c: Path, p: Tree, items: seq<Item>) {
    && View(m, s, root, c, p)
    && !c.Top? && !c.red && !Red(c.sibling) && Fits(c, BlackHeight(p), false)
    && (if c.InLeft? then WedgeLeft(p) else WedgeRight(p))
    && Before(c) + Items(p) + After(c) == items
    && m.Keys == PathNodes(c) + Nodes(p) + {s}
  }

  lemma StraightOuter(m: Memory, s: Node, root: Node, c: Path, t: Tree, items: seq<Item>)
    requires Rising(m, s, root, c, t, items) && !c.Top? && c.red && !c.up.Top? && !Red(c.up.sibling)
    requires c.InLeft? <==> c.up.InLeft?
    ensures Straight(m, s, root, c.up, Join(c, t), items)
  {
    MoveUp(m, s, root, c, t);
    JoinItems(c, t);
    if c.InLeft? {
      MakeWedgeLeft(c, t);
    } else {
      MakeWedgeRight(c, t);
    }
  }

  ghost function Unbent(c: Path, t: Tree): Tree
    requires t.Branch? && !c.Top?
  {
    if c.InRight? then RotatedLeft(Join(c, t)) else RotatedRight(Join(c, t))
  }

  lemma StraightInner(m: Memory, m': Memory, s: Node, root: Node, root': Node, c: Path, t: Tree, items: seq<Item>)
    requires Rising(m, s, root, c, t, items) && !c.Top? && c.red && !c.up.Top? && !Red(c.up.sibling)
    requires c.InLeft? <==> c.up.InRight?
    requires View(m', s, root', c.up, Unbent(c, t)) && m'.Keys == m.Keys
    ensures Straight(m', s, root', c.up, Unbent(c, t), items)
  {
    JoinItems(c, t);
    if c.InRight? {
      MakeWedgeLeft(c, t);
      RotatedLeftShape(Join(c, t));
    } else {
      MakeWedgeRight(c, t);
      RotatedRightShape(Join(c, t));
    }
  }

  // The grandparent once it has been painted red over the black parent.
  ghost function Painted(c: Path, p: Tree): Tree
    requires p.Branch? && !c.Top?
  {
    Join(c.(red := true), p.(red := false))
  }

  lemma PaintedView(m: Memory, m': Memory, s: Node, root: Node, c: Path, p: Tree, items: seq<Item>)
    requires Straight(m, s, root, c, p, items)
    requires {p.node, c.node} <= m.Keys && m' == WithRed(WithRed(m, p.node, false), c.node, true)
    ensures View(m', s, root, c.up, Painted(c, p))
    ensures if c.InLeft? then CanRotateRight(Painted(c, p)) else CanRotateLeft(Painted(c, p))
  {
    MoveUp(m, s, root, c, p);
    if c.InLeft? {
      RecolourLeft(m, m', s, root, c.up, Join(c, p), false, true);
    } else {
      RecolourRight(m, m', s, root, c.up, Join(c, p), false, true);
    }
  }

  // After the last rotation to the right.
  lemma TurnedRight(m: Memory, m': Memory, s: Node, root: Node, root': Node, c: Path, p: Tree, items: seq<Item>)
    requires Straight(m, s, root, c, p, items) && c.InLeft? && m'.Keys == m.Keys
    requires View(m', s, root', c.up, RotatedRight(Painted(c, p)))
    ensures
      var r := RotatedRight(Painted(c, p));
      && r.Branch? && r.left == p.left
      && Rising(m', s, root', InLeft(r.node, r.red, r.key, r.right, c.up), p.left, items)
  {
    SettleLeft(c, p);
    JoinItems(c, p);
    SettledLeftRises(m', s, root', c.up, RotatedRight(Painted(c, p)), items);
  }

  lemma TurnedLeft(m: Memory, m': Memory, s: Node, root: Node, root': Node, c: Path, p: Tree, items: seq<Item>)
    requires Straight(m, s, root, c, p, items) && c.InRight? && m'.Keys == m.Keys
    requires View(m', s, root', c.up, RotatedLeft(Painted(c, p)))
    ensures
      var r := RotatedLeft(Painted(c, p));
      && r.Branch? && r.right == p.right
      && Rising(m', s, root', InRight(r.node, r.red, r.key, r.left, c.up), p.right, items)
  {
    SettleRight(c, p);
    JoinItems(c, p);
    SettledRightRises(m', s, root', c.up, RotatedLeft(Painted(c, p)), items);
  }

  // -------- the binary tree insert --------

  // Where a key goes: after every key that is not larger.
  ghost function UpperBound(s: seq<Item>, key: nat): (k: nat)
    ensures k <= |s|
    ensures forall i :: 0 <= i < k ==> s[i].key <= key
    ensures k < |s| ==> key < s[k].key
  {
    if |s| == 0 || key < s[0].key then 0 else 1 + UpperBound(s[1..], key)
  }

  ghost function Inserted(s: seq<Item>, item: Item): seq<Item> {
    var k := UpperBound(s, item.key);
    s[..k] + [item] + s[k..]
  }

  lemma SplitAtBound(a: seq<Item>, b: seq<Item>, key: nat)
    requires forall i :: 0 <= i < |a| ==> a[i].key <= key
    requires forall i :: 0 <= i < |b| ==> key < b[i].key
    ensures UpperBound(a + b, key) == |a|
    ensures (a + b)[..|a|] == a && (a + b)[|a|..] == b
  {
    var k := UpperBound(a + b, key);
    assert forall i :: 0 <= i < |a| ==> (a + b)[i] == a[i];
    assert forall i :: 0 <= i < |b| ==> (a + b)[|a| + i] == b[i];
    assert k >= |a|;
    assert b != [] ==> key < (a + b)[|a|].key;
  }

  lemma InsertedSorted(s: seq<Item>, item: Item)
    requires Sorted(s)
    ensures Sorted(Inserted(s, item))
  {
    var k := UpperBound(s, item.key);
    var r := Inserted(s, item);
    forall i, j | 0 <= i < j < |r|
      ensures r[i].key <= r[j].key
    {
      assert r[i] == if i < k then s[i] else if i == k then item else s[i - 1];
      assert r[j] == if j < k then s[j] else if j == k then item else s[j - 1];
      assert j > k ==> s[k].key <= s[j - 1].key;
    }
  }

  // The descent has reached `t`: every key left of it is at most `key`, every key right
  // of it is larger.
  ghost predicate Between(c: Path, key: nat) {
    && (forall i :: 0 <= i < |Before(c)| ==> Before(c)[i].key <= key)
    && (forall i :: 0 <= i < |After(c)| ==> key < After(c)[i].key)
  }

  lemma BetweenLeft(c: Path, t: Tree, key: nat)
    requires Between(c, key) && t.Branch? && key < t.key && Sorted(Items(t))
    ensures Between(InLeft(t.node, t.red, t.key, t.right, c), key)
    ensures Sorted(Items(t.left))
  {
    var c' := InLeft(t.node, t.red, t.key, t.right, c);
    var l := |Items(t.left)|;
    forall i | 0 <= i < |After(c')|
      ensures key < After(c')[i].key
    {
      if i <= |Items(t.right)| {
        assert After(c')[i] == Items(t)[l + i];
        assert Items(t)[l].key <= Items(t)[l + i].key;
      } else {
        assert After(c')[i] == After(c)[i - 1 - |Items(t.right)|];
      }
    }
    assert forall i :: 0 <= i < l ==> Items(t)[i] == Items(t.left)[i];
  }

  lemma BetweenRight(c: Path, t: Tree, key: nat)
    requires Between(c, key) && t.Branch? && t.key <= key && Sorted(Items(t))
    ensures Between(InRight(t.node, t.red, t.key, t.left, c), key)
    ensures Sorted(Items(t.right))
  {
    var c' := InRight(t.node, t.red, t.key, t.left, c);
    var l := |Items(t.left)|;
    forall i | 0 <= i < |Before(c')|
      ensures Before(c')[i].key <= key
    {
      if i < |Before(c)| {
        assert Before(c')[i] == Before(c)[i];
      } else {
        assert Before(c')[i] == Items(t)[i - |Before(c)|];
        assert Items(t)[i - |Before(c)|].key <= Items(t)[l].key;
      }
    }
    assert forall i :: 0 <= i < |Items(t.right)| ==> Items(t)[l + 1 + i] == Items(t.right)[i];
  }

  ghost function Descended(c: Path, t: Tree, left: bool): Path
    requires t.Branch?
  {
    if left then InLeft(t.node, t.red, t.key, t.right, c) else InRight(t.node, t.red, t.key, t.left, c)
  }

  ghost function Child(t: Tree, left: bool): Tree
    requires t.Branch?
  {
    if left then t.left else t.right
  }

  lemma DescendStep(m: Memory, s: Node, root: Node, c: Path, t: Tree, key: nat)
    requires View(m, s, root, c, t) && t.Branch? && Between(c, key) && Sorted(Items(t))
    ensures
      var left := key < t.key;
      && View(m, s, root, Descended(c, t, left), Child(t, left))
      && Between(Descended(c, t, left), key) && Sorted(Items(Child(t, left)))
      && Plug(Descended(c, t, left), Child(t, left)) == Plug(c, t)
  {
    if key < t.key {
      MoveLeft(m, s, root, c, t);
      BetweenLeft(c, t, key);
    } else {
      MoveRight(m, s, root, c, t);
      BetweenRight(c, t, key);
    }
  }

  lemma LeafEnd(m: Memory, s: Node, root: Node, c: Path)
    requires View(m, s, root, c, Leaf)
    ensures PathNodes(c) == Nodes(Plug(c, Leaf)) <= m.Keys
  {
    PlugNodes(c, Leaf);
    PathNodesIn(m, s, root, s, c);
  }

  function AsLeaf(m: Memory, n: Node, parent: Node, s: Node): Memory
    requires n in m
  {
    WithRed(WithRight(WithLeft(WithParent(m, n, parent), n, s), n, s), n, true)
  }

  // The memory after the descent: a fresh red node hangs at the end of the path.
  lemma Attached(m: Memory, m': Memory, s: Node, root: Node, c: Path, n: Node)
    requires View(m, s, root, c, Leaf) && !c.Top?
    requires n !in PathNodes(c) && n != s && n in m && PathNodes(c) <= m.Keys
    requires m' == AsLeaf(WithChild(m, c, n), n, c.node, s)
    ensures View(m', s, root, c, Branch(Leaf, n, true, m[n].key, Leaf))
  {
    PathNodesIn(m, s, root, s, c);
    assert c.node in PathNodes(c);
    Exchange(m, m', s, root, root, c, Leaf, Branch(Leaf, n, true, m[n].key, Leaf));
  }

  lemma LeafFits(c: Path, n: Node, key: nat)
    requires Balanced(Plug(c, Leaf)) && !Red(Plug(c, Leaf))
    ensures
      var t := Branch(Leaf, n, true, key, Leaf);
      && Red(t) && Balanced(t) && Fits(c, BlackHeight(t), false)
      && Before(c) + Items(t) + After(c) == Before(c) + [Item(n, key)] + After(c)
  {
    PlugFits(c, Leaf);
    assert Items(Branch(Leaf, n, true, key, Leaf)) == [Item(n, key)];
  }

  // The view does not care about a node outside the tree.
  lemma ViewFrame(m: Memory, m': Memory, s: Node, root: Node, c: Path, t: Tree)
    requires View(m, s, root, c, t) && Same(m, m', PathNodes(c) + Nodes(t) + {s}) && NULL !in m'
    ensures View(m', s, root, c, t)
  {
    HoldsFrame(m, m', s, Parent(c), t);
    PathFrame(m, m', s, root, Pointer(s, t), c);
  }

  lemma SingleNode(m: Memory, m': Memory, s: Node, n: Node, key: nat)
    requires View(m, s, s, Top, Leaf) && n in m && n != s && m[n].key == key
    requires m' == WithRed(WithRight(WithLeft(WithParent(m, n, NULL), n, s), n, s), n, false)
    ensures View(m', s, n, Top, Branch(Leaf, n, false, key, Leaf))
    ensures Items(Branch(Leaf, n, false, key, Leaf)) == [Item(n, key)]
    ensures Balanced(Branch(Leaf, n, false, key, Leaf)) && Nodes(Branch(Leaf, n, false, key, Leaf)) == {n}
  {
  }

  // The slot that the descent finds is the one of Inserted.
  lemma SlotItems(c: Path, n: Node, key: nat)
    requires Between(c, key)
    ensures Inserted(Items(Plug(c, Leaf)), Item(n, key)) == Before(c) + [Item(n, key)] + After(c)
  {
    PlugItems(c, Leaf);
    assert Items(Plug(c, Leaf)) == Before(c) + After(c);
    SplitAtBound(Before(c), After(c), key);
  }

  lemma NullOutside(m: Memory, s: Node, root: Node, c: Path, t: Tree)
    requires View(m, s, root, c, t)
    ensures NULL !in m && s in m
  {
  }

  lemma LeafFrame(m: Memory, m': Memory, s: Node, root: Node, c: Path)
    requires View(m, s, root, c, Leaf) && PathNodes(c) <= m.Keys && NULL !in m'
    requires forall n :: n in m ==> n in m' && m'[n] == m[n]
    ensures View(m', s, root, c, Leaf)
  {
    ViewFrame(m, m', s, root, c, Leaf);
  }

  lemma StartRising(m: Memory, s: Node, root: Node, tree: Tree, c: Path, n: Node, key: nat)
    requires View(m, s, root, c, Branch(Leaf, n, true, key, Leaf))
    requires Plug(c, Leaf) == tree && Balanced(tree) && !Red(tree)
    requires m.Keys == Nodes(tree) + {s, n}
    ensures Rising(m, s, root, c, Branch(Leaf, n, true, key, Leaf), Before(c) + [Item(n, key)] + After(c))
  {
    LeafFits(c, n, key);
    PlugNodes(c, Leaf);
  }

  // What the loop guard and the first test of the loop find out.
  lemma RedParent(m: Memory, s: Node, root: Node, c: Path, t: Tree, items: seq<Item>)
    requires Rising(m, s, root, c, t, items)
    ensures t.node in m && (c.Top? <==> t.node == root)
    ensures !c.Top? ==> m[t.node].parent == c.node && c.node in m && m[c.node].red == c.red
    ensures !c.Top? && c.red ==>
              && !c.up.Top? && m[c.node].parent == c.up.node && c.up.node in m
              && (c.up.InLeft? <==> m[c.up.node].left == c.node)
  {
    Hanging(m, s, root, c, t);
    if !c.Top? && c.red {
      assert Fits(c.up, BlackHeight(t), true);
      MoveUp(m, s, root, c, t);
      Hanging(m, s, root, c.up, Join(c, t));
    }
  }

  lemma RootInMemory(m: Memory, s: Node, root: Node, c: Path, t: Tree, items: seq<Item>)
    requires Rising(m, s, root, c, t, items)
    ensures root in m
  {
    PathNodesIn(m, s, root, t.node, c);
  }

  // The last line of the insert: the root turns black.
  lemma BlackRoot(m: Memory, m': Memory, s: Node, root: Node, c: Path, t: Tree, items: seq<Item>) returns (tree: Tree)
    requires Rising(m, s, root, c, t, items)
    requires c.Top? || !c.red
    requires root in m && m' == WithRed(m, root, false)
    ensures View(m', s, root, Top, tree) && Balanced(tree) && !Red(tree)
    ensures Items(tree) == items && m'.Keys == Nodes(tree) + {s}
  {
    var whole := Plug(c, t);
    ViewWhole(m, s, root, c, t);
    PlugItems(c, t);
    PlugNodes(c, t);
    if !c.Top? {
      FitsPlug(c, t);
    }
    Repaint(m, m', s, root, Top, whole, false);
    tree := whole.(red := false);
  }
}
