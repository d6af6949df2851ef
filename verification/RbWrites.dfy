// Single-field writes to the node store, and what the rotations and colour changes
// built from them do to the tree a memory holds.

module RbWrites {
  import opened RbShape
  import opened RbBalance

  function WithLeft(m: Memory, n: Node, x: Node): Memory
    requires n in m
  {
    m[n := m[n].(left := x)]
  }

  function WithRight(m: Memory, n: Node, x: Node): Memory
    requires n in m
  {
    m[n := m[n].(right := x)]
  }

  function WithParent(m: Memory, n: Node, x: Node): Memory
    requires n in m
  {
    m[n := m[n].(parent := x)]
  }

  function WithRed(m: Memory, n: Node, red: bool): Memory
    requires n in m
  {
    m[n := m[n].(red := red)]
  }

  // The child pointer at the end of a path is redirected.
  function WithChild(m: Memory, c: Path, x: Node): Memory
    requires PathNodes(c) <= m.Keys
  {
    match c
    case Top => m
    case InLeft(n, _, _, _, _) => WithLeft(m, n, x)
    case InRight(n, _, _, _, _) => WithRight(m, n, x)
  }

  // A subtree is exchanged for another one, with everything on the path kept.
  lemma Exchange(m: Memory, m': Memory, s: Node, root: Node, root': Node, c: Path, t: Tree, t': Tree)
    requires View(m, s, root, c, t) && PathNodes(c) <= m.Keys
    requires Relinked(m, m', root, root', c, Pointer(s, t'))
    requires Holds(m', s, Parent(c), t') && Proper(t') && Nodes(t') !! PathNodes(c)
    requires NULL !in m' && s in m' && !m'[s].red
    ensures View(m', s, root', c, t')
  {
    PathRelink(m, m', s, root, root', c, Pointer(s, t), Pointer(s, t'));
  }

  lemma Repaint(m: Memory, m': Memory, s: Node, root: Node, c: Path, t: Tree, red: bool)
    requires View(m, s, root, c, t) && t.Branch?
    requires m' == m[t.node := m[t.node].(red := red)]
    ensures View(m', s, root, c, t.(red := red))
  {
    HoldsTop(m, m', s, Parent(c), t, Parent(c), red);
    PathFrame(m, m', s, root, t.node, c);
  }

  ghost predicate CanRotateLeft(t: Tree) {
    t.Branch? && t.right.Branch?
  }

  ghost function RotatedLeft(t: Tree): Tree
    requires CanRotateLeft(t)
  {
    var r := t.right;
    Branch(Branch(t.left, t.node, t.red, t.key, r.left), r.node, r.red, r.key, r.right)
  }

  ghost predicate CanRotateRight(t: Tree) {
    t.Branch? && t.left.Branch?
  }

  ghost function RotatedRight(t: Tree): Tree
    requires CanRotateRight(t)
  {
    var l := t.left;
    Branch(l.left, l.node, l.red, l.key, Branch(l.right, t.node, t.red, t.key, t.right))
  }

  // Where the top of a subtree hangs, as the code finds it out.
  lemma Hanging(m: Memory, s: Node, root: Node, c: Path, t: Tree)
    requires View(m, s, root, c, t) && t.Branch?
    ensures c.Top? <==> t.node == root
    ensures !c.Top? ==> t.node in m && m[t.node].parent == c.node && c.node in m && c.node != t.node
    ensures c.InLeft? ==> m[c.node].left == t.node && m[c.node].right != t.node
    ensures c.InRight? ==> m[c.node].left != t.node && m[c.node].right == t.node
    ensures PathNodes(c) <= m.Keys && Nodes(t) <= m.Keys
  {
    HoldsNodes(m, s, Parent(c), t);
    PathNodesIn(m, s, root, t.node, c);
  }

  lemma RotatedLeftShape(t: Tree)
    requires CanRotateLeft(t)
    ensures Nodes(RotatedLeft(t)) == Nodes(t)
    ensures Proper(t) ==> Proper(RotatedLeft(t))
    ensures Items(RotatedLeft(t)) == Items(t)
  {
    var r := t.right;
    var x := Branch(t.left, t.node, t.red, t.key, r.left);
    assert Nodes(r) == Nodes(r.left) + {r.node} + Nodes(r.right);
    assert Proper(t) ==> Proper(r) && Proper(x);
    assert Nodes(RotatedLeft(t)) == Nodes(x) + {r.node} + Nodes(r.right);
    assert Items(RotatedLeft(t)) == Items(x) + [Item(r.node, r.key)] + Items(r.right);
  }

  // What the pointer writes of a left rotation leave in memory.
  ghost predicate WritesRotateLeft(m: Memory, m': Memory, s: Node, c: Path, t: Tree)
    requires CanRotateLeft(t)
  {
    var x, y, b := t.node, t.right.node, t.right.left;
    && {x, y} <= m.Keys && {x, y} <= m'.Keys && (b.Branch? ==> b.node in m && b.node in m')
    && (!c.Top? ==> c.node in m && c.node in m')
    && m'[x] == m[x].(right := Pointer(s, b), parent := y)
    && m'[y] == m[y].(left := x, parent := m[x].parent)
    && (b.Branch? ==> m'[b.node] == m[b.node].(parent := x))
    && (c.InLeft? ==> m'[c.node] == m[c.node].(left := y))
    && (c.InRight? ==> m'[c.node] == m[c.node].(right := y))
    && m'.Keys == m.Keys
    && Same(m, m', m.Keys - {x, y} - (if b.Branch? then {b.node} else {}) - (if c.Top? then {} else {c.node}))
  }

  // The pointer writes of a left rotation one after another; `m2` is the memory once
  // the inner grandchild has changed hands, `m4` once the parent has been relinked.
  lemma RotateLeftWrites(m: Memory, m2: Memory, m4: Memory, m': Memory, s: Node, root: Node, c: Path, t: Tree)
    requires View(m, s, root, c, t) && CanRotateLeft(t)
    requires t.node in m && t.right.node in m && Pointer(s, t.right.left) in m && PathNodes(c) <= m.Keys
    requires m2 == if t.right.left.Leaf? then WithRight(m, t.node, s)
                   else WithParent(WithRight(m, t.node, t.right.left.node), t.right.left.node, t.node)
    requires m4 == WithChild(WithParent(m2, t.right.node, m[t.node].parent), c, t.right.node)
    requires m' == WithParent(WithLeft(m4, t.right.node, t.node), t.node, t.right.node)
    ensures WritesRotateLeft(m, m', s, c, t)
  {
    assert Proper(t.right) && t.right.node in Nodes(t.right);
    assert t.right.left.Branch? ==> t.right.left.node in Nodes(t.right.left);
    assert t.right.left.Branch? ==> t.right.left.node in Nodes(t.right) && t.right.left.node in Nodes(t);
  }

  lemma RotateLeftHolds(m: Memory, m': Memory, s: Node, c: Path, t: Tree)
    requires CanRotateLeft(t) && Holds(m, s, Parent(c), t) && Proper(t) && Nodes(t) !! PathNodes(c)
    requires WritesRotateLeft(m, m', s, c, t)
    ensures Holds(m', s, Parent(c), RotatedLeft(t))
  {
    var x, y, b := t.node, t.right.node, t.right.left;
    assert Holds(m, s, x, t.right);
    HoldsFrame(m, m', s, x, t.left);
    HoldsTop(m, m', s, y, b, x, Red(b));
    HoldsFrame(m, m', s, y, t.right.right);
  }

  lemma RotateLeftView(m: Memory, m': Memory, s: Node, root: Node, root': Node, c: Path, t: Tree)
    requires View(m, s, root, c, t) && CanRotateLeft(t)
    requires WritesRotateLeft(m, m', s, c, t) && root' == (if c.Top? then t.right.node else root)
    ensures View(m', s, root', c, RotatedLeft(t))
    ensures s in m && s in m' && m'[s] == m[s]
  {
    HoldsNodes(m, s, Parent(c), t);
    PathNodesIn(m, s, root, t.node, c);
    RotateLeftHolds(m, m', s, c, t);
    RotatedLeftShape(t);
    Exchange(m, m', s, root, root', c, t, RotatedLeft(t));
  }

  // The pointers a left rotation at the top of `t` follows.
  lemma LeftRotateReads(m: Memory, s: Node, root: Node, c: Path, t: Tree)
    requires View(m, s, root, c, t) && CanRotateLeft(t)
    ensures t.node in m && m[t.node].right == t.right.node
    ensures t.right.node in m && m[t.right.node].left == Pointer(s, t.right.left)
    ensures Pointer(s, t.right.left) in m && (t.right.left.Leaf? <==> Pointer(s, t.right.left) == s)
    ensures t.node != t.right.node && Pointer(s, t.right.left) !in {t.node, t.right.node}
    ensures c.Top? || (c.node != t.right.node && c.node != Pointer(s, t.right.left))
  {
    HoldsNodes(m, s, Parent(c), t);
    PathNodesIn(m, s, root, t.node, c);
    assert Proper(t.right) && Holds(m, s, t.node, t.right);
    assert t.right.left.Branch? ==> t.right.left.node in Nodes(t.right.left);
  }

  lemma RotatedRightShape(t: Tree)
    requires CanRotateRight(t)
    ensures Nodes(RotatedRight(t)) == Nodes(t)
    ensures Proper(t) ==> Proper(RotatedRight(t))
    ensures Items(RotatedRight(t)) == Items(t)
  {
    var l := t.left;
    var x := Branch(l.right, t.node, t.red, t.key, t.right);
    assert Nodes(l) == Nodes(l.left) + {l.node} + Nodes(l.right);
    assert Proper(t) ==> Proper(l) && Proper(x);
    assert Nodes(RotatedRight(t)) == Nodes(l.left) + {l.node} + Nodes(x);
    assert Items(RotatedRight(t)) == Items(l.left) + [Item(l.node, l.key)] + Items(x);
  }

  // What the pointer writes of a right rotation leave in memory.
  ghost predicate WritesRotateRight(m: Memory, m': Memory, s: Node, c: Path, t: Tree)
    requires CanRotateRight(t)
  {
    var x, y, b := t.node, t.left.node, t.left.right;
    && {x, y} <= m.Keys && {x, y} <= m'.Keys && (b.Branch? ==> b.node in m && b.node in m')
    && (!c.Top? ==> c.node in m && c.node in m')
    && m'[x] == m[x].(left := Pointer(s, b), parent := y)
    && m'[y] == m[y].(right := x, parent := m[x].parent)
    && (b.Branch? ==> m'[b.node] == m[b.node].(parent := x))
    && (c.InLeft? ==> m'[c.node] == m[c.node].(left := y))
    && (c.InRight? ==> m'[c.node] == m[c.node].(right := y))
    && m'.Keys == m.Keys
    && Same(m, m', m.Keys - {x, y} - (if b.Branch? then {b.node} else {}) - (if c.Top? then {} else {c.node}))
  }

  // The pointer writes of a right rotation one after another; `m2` is the memory once
  // the inner grandchild has changed hands, `m4` once the parent has been relinked.
  lemma RotateRightWrites(m: Memory, m2: Memory, m4: Memory, m': Memory, s: Node, root: Node, c: Path, t: Tree)
    requires View(m, s, root, c, t) && CanRotateRight(t)
    requires t.node in m && t.left.node in m && Pointer(s, t.left.right) in m && PathNodes(c) <= m.Keys
    requires m2 == if t.left.right.Leaf? then WithLeft(m, t.node, s)
                   else WithParent(WithLeft(m, t.node, t.left.right.node), t.left.right.node, t.node)
    requires m4 == WithChild(WithParent(m2, t.left.node, m[t.node].parent), c, t.left.node)
    requires m' == WithParent(WithRight(m4, t.left.node, t.node), t.node, t.left.node)
    ensures WritesRotateRight(m, m', s, c, t)
  {
    assert Proper(t.left) && t.left.node in Nodes(t.left);
    assert t.left.right.Branch? ==> t.left.right.node in Nodes(t.left.right);
    assert t.left.right.Branch? ==> t.left.right.node in Nodes(t.left) && t.left.right.node in Nodes(t);
  }

  lemma RotateRightHolds(m: Memory, m': Memory, s: Node, c: Path, t: Tree)
    requires CanRotateRight(t) && Holds(m, s, Parent(c), t) && Proper(t) && Nodes(t) !! PathNodes(c)
    requires WritesRotateRight(m, m', s, c, t)
    ensures Holds(m', s, Parent(c), RotatedRight(t))
  {
    var x, y, b := t.node, t.left.node, t.left.right;
    assert Holds(m, s, x, t.left);
    HoldsFrame(m, m', s, x, t.right);
    HoldsTop(m, m', s, y, b, x, Red(b));
    HoldsFrame(m, m', s, y, t.left.left);
  }

  lemma RotateRightView(m: Memory, m': Memory, s: Node, root: Node, root': Node, c: Path, t: Tree)
    requires View(m, s, root, c, t) && CanRotateRight(t)
    requires WritesRotateRight(m, m', s, c, t) && root' == (if c.Top? then t.left.node else root)
    ensures View(m', s, root', c, RotatedRight(t))
    ensures s in m && s in m' && m'[s] == m[s]
  {
    HoldsNodes(m, s, Parent(c), t);
    PathNodesIn(m, s, root, t.node, c);
    RotateRightHolds(m, m', s, c, t);
    RotatedRightShape(t);
    Exchange(m, m', s, root, root', c, t, RotatedRight(t));
  }

  // The pointers a right rotation at the top of `t` follows.
  lemma RightRotateReads(m: Memory, s: Node, root: Node, c: Path, t: Tree)
    requires View(m, s, root, c, t) && CanRotateRight(t)
    ensures t.node in m && m[t.node].left == t.left.node
    ensures t.left.node in m && m[t.left.node].right == Pointer(s, t.left.right)
    ensures Pointer(s, t.left.right) in m && (t.left.right.Leaf? <==> Pointer(s, t.left.right) == s)
    ensures t.node != t.left.node && Pointer(s, t.left.right) !in {t.node, t.left.node}
    ensures c.Top? || (c.node != t.left.node && c.node != Pointer(s, t.left.right))
  {
    HoldsNodes(m, s, Parent(c), t);
    PathNodesIn(m, s, root, t.node, c);
    assert Proper(t.left) && Holds(m, s, t.node, t.left);
    assert t.left.right.Branch? ==> t.left.right.node in Nodes(t.left.right);
  }

  // A parent, its sibling and their grandparent exchange colours.
  lemma RecolourFamily(m: Memory, m': Memory, s: Node, root: Node, c: Path, t: Tree)
    requires View(m, s, root, c, t) && t.Branch? && t.left.Branch? && t.right.Branch?
    requires {t.left.node, t.right.node, t.node} <= m.Keys
    requires
      || m' == WithRed(WithRed(WithRed(m, t.left.node, false), t.right.node, false), t.node, true)
      || m' == WithRed(WithRed(WithRed(m, t.right.node, false), t.left.node, false), t.node, true)
    ensures View(m', s, root, c, Branch(t.left.(red := false), t.node, true, t.key, t.right.(red := false)))
  {
    var m1 := WithRed(m, t.left.node, false);
    var m2 := WithRed(m1, t.right.node, false);
    assert m' == WithRed(m2, t.node, true);
    var cl := InLeft(t.node, t.red, t.key, t.right, c);
    MoveLeft(m, s, root, c, t);
    Repaint(m, m1, s, root, cl, t.left, false);
    MoveUp(m1, s, root, cl, t.left.(red := false));
    var t1 := t.(left := t.left.(red := false));
    var cr := InRight(t.node, t.red, t.key, t1.left, c);
    MoveRight(m1, s, root, c, t1);
    Repaint(m1, m2, s, root, cr, t1.right, false);
    MoveUp(m2, s, root, cr, t1.right.(red := false));
    Repaint(m2, m', s, root, c, t1.(right := t.right.(red := false)), true);
  }

  // A node and its left child are painted.
  lemma RecolourLeft(m: Memory, m': Memory, s: Node, root: Node, c: Path, t: Tree, child: bool, top: bool)
    requires View(m, s, root, c, t) && t.Branch? && t.left.Branch?
    requires {t.left.node, t.node} <= m.Keys
    requires m' == WithRed(WithRed(m, t.left.node, child), t.node, top)
    ensures View(m', s, root, c, t.(left := t.left.(red := child), red := top))
  {
    var m1 := WithRed(m, t.left.node, child);
    var cl := InLeft(t.node, t.red, t.key, t.right, c);
    MoveLeft(m, s, root, c, t);
    Repaint(m, m1, s, root, cl, t.left, child);
    MoveUp(m1, s, root, cl, t.left.(red := child));
    Repaint(m1, m', s, root, c, t.(left := t.left.(red := child)), top);
  }

  lemma RecolourRight(m: Memory, m': Memory, s: Node, root: Node, c: Path, t: Tree, child: bool, top: bool)
    requires View(m, s, root, c, t) && t.Branch? && t.right.Branch?
    requires {t.right.node, t.node} <= m.Keys
    requires m' == WithRed(WithRed(m, t.right.node, child), t.node, top)
    ensures View(m', s, root, c, t.(right := t.right.(red := child), red := top))
  {
    var m1 := WithRed(m, t.right.node, child);
    var cr := InRight(t.node, t.red, t.key, t.left, c);
    MoveRight(m, s, root, c, t);
    Repaint(m, m1, s, root, cr, t.right, child);
    MoveUp(m1, s, root, cr, t.right.(red := child));
    Repaint(m1, m', s, root, c, t.(right := t.right.(red := child)), top);
  }
}
