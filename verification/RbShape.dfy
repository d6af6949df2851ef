// Node records of the red-black tree, and the tree and path shapes that the
// pointers between them represent.

module RbShape {
  // A node is known by its address; NULL is the address of no node.
  type Node = nat

  const NULL: Node := 0

  // The fields of one ngx_rbtree_node_t.
  datatype Cell = Cell(key: nat, left: Node, right: Node, parent: Node, red: bool)

  type Memory = map<Node, Cell>

  datatype Tree = Leaf | Branch(left: Tree, node: Node, red: bool, key: nat, right: Tree)

  // A path from a subtree up to the root: each frame holds the node above the hole
  // and the sibling subtree.
  datatype Path =
    | Top
    | InLeft(node: Node, red: bool, key: nat, sibling: Tree, up: Path)
    | InRight(node: Node, red: bool, key: nat, sibling: Tree, up: Path)

  ghost function Nodes(t: Tree): set<Node> {
    if t.Leaf? then {} else Nodes(t.left) + {t.node} + Nodes(t.right)
  }

  ghost function PathNodes(c: Path): set<Node> {
    if c.Top? then {} else {c.node} + Nodes(c.sibling) + PathNodes(c.up)
  }

  // Every node occurs once.
  ghost predicate Proper(t: Tree) {
    t.Branch? ==>
      && t.node !in Nodes(t.left) && t.node !in Nodes(t.right) && Nodes(t.left) !! Nodes(t.right)
      && Proper(t.left) && Proper(t.right)
  }

  ghost predicate ProperPath(c: Path) {
    !c.Top? ==>
      && c.node !in Nodes(c.sibling) && c.node !in PathNodes(c.up)
      && Nodes(c.sibling) !! PathNodes(c.up)
      && Proper(c.sibling) && ProperPath(c.up)
  }

  ghost function Pointer(s: Node, t: Tree): Node {
    if t.Leaf? then s else t.node
  }

  ghost function Parent(c: Path): Node {
    if c.Top? then NULL else c.node
  }

  // The fields of the node at the top of a subtree or of a path frame. The parent
  // field counts only below the root.
  ghost predicate CellIs(m: Memory, n: Node, key: nat, red: bool, left: Node, right: Node, parent: Node) {
    && n in m && m[n].key == key && m[n].red == red
    && m[n].left == left && m[n].right == right
    && (parent != NULL ==> m[n].parent == parent)
  }

  ghost predicate Holds(m: Memory, s: Node, parent: Node, t: Tree)
    decreases t
  {
    t.Branch? ==>
      && t.node != s
      && CellIs(m, t.node, t.key, t.red, Pointer(s, t.left), Pointer(s, t.right), parent)
      && Holds(m, s, t.node, t.left) && Holds(m, s, t.node, t.right)
  }

  ghost predicate HoldsPath(m: Memory, s: Node, root: Node, x: Node, c: Path)
    decreases c
  {
    match c
    case Top => x == root
    case InLeft(n, red, key, sibling, up) =>
      && n != s
      && CellIs(m, n, key, red, x, Pointer(s, sibling), Parent(up))
      && Holds(m, s, n, sibling) && HoldsPath(m, s, root, n, up)
    case InRight(n, red, key, sibling, up) =>
      && n != s
      && CellIs(m, n, key, red, Pointer(s, sibling), x, Parent(up))
      && Holds(m, s, n, sibling) && HoldsPath(m, s, root, n, up)
  }

  // The memory holds the tree with subtree `t` at the end of path `c`.
  ghost predicate View(m: Memory, s: Node, root: Node, c: Path, t: Tree) {
    && NULL !in m && s in m && !m[s].red
    && HoldsPath(m, s, root, Pointer(s, t), c) && Holds(m, s, Parent(c), t)
    && ProperPath(c) && Proper(t) && Nodes(t) !! PathNodes(c)
  }

  ghost function Join(c: Path, t: Tree): Tree
    requires !c.Top?
  {
    if c.InLeft? then Branch(t, c.node, c.red, c.key, c.sibling)
    else Branch(c.sibling, c.node, c.red, c.key, t)
  }

  ghost function Plug(c: Path, t: Tree): Tree
    decreases c
  {
    if c.Top? then t else Plug(c.up, Join(c, t))
  }

  ghost function Append(seg: Path, c: Path): Path {
    match seg
    case Top => c
    case InLeft(n, red, key, sibling, up) => InLeft(n, red, key, sibling, Append(up, c))
    case InRight(n, red, key, sibling, up) => InRight(n, red, key, sibling, Append(up, c))
  }

  // -------- moving in the view --------

  lemma MoveUp(m: Memory, s: Node, root: Node, c: Path, t: Tree)
    requires View(m, s, root, c, t) && !c.Top?
    ensures View(m, s, root, c.up, Join(c, t))
  {
  }

  lemma MoveLeft(m: Memory, s: Node, root: Node, c: Path, t: Tree)
    requires View(m, s, root, c, t) && t.Branch?
    ensures View(m, s, root, InLeft(t.node, t.red, t.key, t.right, c), t.left)
  {
  }

  lemma MoveRight(m: Memory, s: Node, root: Node, c: Path, t: Tree)
    requires View(m, s, root, c, t) && t.Branch?
    ensures View(m, s, root, InRight(t.node, t.red, t.key, t.left, c), t.right)
  {
  }

  lemma {:induction false} ViewWhole(m: Memory, s: Node, root: Node, c: Path, t: Tree)
    requires View(m, s, root, c, t)
    ensures View(m, s, root, Top, Plug(c, t))
    decreases c
  {
    if !c.Top? {
      MoveUp(m, s, root, c, t);
      ViewWhole(m, s, root, c.up, Join(c, t));
    }
  }

  // Down along a whole segment.
  lemma {:induction false} MoveDown(m: Memory, s: Node, root: Node, seg: Path, c: Path, t: Tree)
    requires View(m, s, root, c, Plug(seg, t))
    ensures View(m, s, root, Append(seg, c), t)
    decreases seg
  {
    if !seg.Top? {
      MoveDown(m, s, root, seg.up, c, Join(seg, t));
      var c' := Append(seg.up, c);
      if seg.InLeft? {
        MoveLeft(m, s, root, c', Join(seg, t));
      } else {
        MoveRight(m, s, root, c', Join(seg, t));
      }
    }
  }

  lemma {:induction false} PlugAppend(seg: Path, c: Path, t: Tree)
    ensures Plug(Append(seg, c), t) == Plug(c, Plug(seg, t))
    decreases seg
  {
    if !seg.Top? {
      PlugAppend(seg.up, c, Join(seg, t));
    }
  }

  lemma {:induction false} PlugNodes(c: Path, t: Tree)
    ensures Nodes(Plug(c, t)) == PathNodes(c) + Nodes(t)
    decreases c
  {
    if !c.Top? {
      PlugNodes(c.up, Join(c, t));
    }
  }

  lemma {:induction false} Focus(t: Tree, n: Node) returns (c: Path, sub: Tree)
    requires n in Nodes(t)
    ensures sub.Branch? && sub.node == n && Plug(c, sub) == t
  {
    if t.node == n {
      c, sub := Top, t;
    } else if n in Nodes(t.left) {
      var c1;
      c1, sub := Focus(t.left, n);
      var last := InLeft(t.node, t.red, t.key, t.right, Top);
      c := Append(c1, last);
      PlugAppend(c1, last, sub);
    } else {
      var c1;
      c1, sub := Focus(t.right, n);
      var last := InRight(t.node, t.red, t.key, t.left, Top);
      c := Append(c1, last);
      PlugAppend(c1, last, sub);
    }
  }

  // -------- frames --------

  ghost predicate Same(m: Memory, m': Memory, ns: set<Node>) {
    forall n :: n in ns && n in m ==> n in m' && m[n] == m'[n]
  }

  lemma {:induction false} HoldsNodes(m: Memory, s: Node, parent: Node, t: Tree)
    requires Holds(m, s, parent, t)
    ensures Nodes(t) <= m.Keys && s !in Nodes(t)
    decreases t
  {
    if t.Branch? {
      HoldsNodes(m, s, t.node, t.left);
      HoldsNodes(m, s, t.node, t.right);
    }
  }

  lemma {:induction false} HoldsFrame(m: Memory, m': Memory, s: Node, parent: Node, t: Tree)
    requires Holds(m, s, parent, t) && Same(m, m', Nodes(t))
    ensures Holds(m', s, parent, t)
    decreases t
  {
    if t.Branch? {
      HoldsFrame(m, m', s, t.node, t.left);
      HoldsFrame(m, m', s, t.node, t.right);
    }
  }

  lemma {:induction false} PathNodesIn(m: Memory, s: Node, root: Node, x: Node, c: Path)
    requires HoldsPath(m, s, root, x, c)
    ensures PathNodes(c) <= m.Keys && s !in PathNodes(c)
    ensures c.Top? || root in PathNodes(c)
    decreases c
  {
    if !c.Top? {
      HoldsNodes(m, s, c.node, c.sibling);
      PathNodesIn(m, s, root, c.node, c.up);
    }
  }

  lemma {:induction false} PathFrame(m: Memory, m': Memory, s: Node, root: Node, x: Node, c: Path)
    requires HoldsPath(m, s, root, x, c) && Same(m, m', PathNodes(c))
    ensures HoldsPath(m', s, root, x, c)
    decreases c
  {
    if !c.Top? {
      HoldsFrame(m, m', s, c.node, c.sibling);
      PathFrame(m, m', s, root, c.node, c.up);
    }
  }

  // Only the top node of a subtree changes: its colour, key or parent.
  lemma {:induction false} HoldsTop(m: Memory, m': Memory, s: Node, parent: Node, t: Tree,
                                    parent': Node, red: bool)
    requires Holds(m, s, parent, t) && Proper(t)
    requires t.Branch? ==>
               && Same(m, m', Nodes(t) - {t.node})
               && CellIs(m', t.node, t.key, red, Pointer(s, t.left), Pointer(s, t.right), parent')
    ensures Holds(m', s, parent', if t.Leaf? then t else t.(red := red))
  {
    if t.Branch? {
      HoldsFrame(m, m', s, t.node, t.left);
      HoldsFrame(m, m', s, t.node, t.right);
    }
  }

  // The child pointer at the end of a path (or the root) is redirected.
  ghost predicate Relinked(m: Memory, m': Memory, root: Node, root': Node, c: Path, y: Node)
    requires PathNodes(c) <= m.Keys
  {
    && Same(m, m', if c.Top? then {} else PathNodes(c) - {c.node})
    && (if c.Top? then root' == y else root' == root && c.node in m')
    && (c.InLeft? ==> m'[c.node] == m[c.node].(left := y))
    && (c.InRight? ==> m'[c.node] == m[c.node].(right := y))
  }

  lemma PathRelink(m: Memory, m': Memory, s: Node, root: Node, root': Node, c: Path, x: Node, y: Node)
    requires HoldsPath(m, s, root, x, c) && ProperPath(c) && PathNodes(c) <= m.Keys
    requires Relinked(m, m', root, root', c, y)
    ensures HoldsPath(m', s, root', y, c)
  {
    if !c.Top? {
      HoldsFrame(m, m', s, c.node, c.sibling);
      PathFrame(m, m', s, root, c.node, c.up);
    }
  }

  // -------- values --------

  datatype Item = Item(node: Node, key: nat)

  ghost function Items(t: Tree): seq<Item> {
    if t.Leaf? then [] else Items(t.left) + [Item(t.node, t.key)] + Items(t.right)
  }

  ghost function Before(c: Path): seq<Item> {
    match c
    case Top => []
    case InLeft(_, _, _, _, up) => Before(up)
    case InRight(n, _, key, sibling, up) => Before(up) + Items(sibling) + [Item(n, key)]
  }

  ghost function After(c: Path): seq<Item> {
    match c
    case Top => []
    case InLeft(n, _, key, sibling, up) => [Item(n, key)] + Items(sibling) + After(up)
    case InRight(_, _, _, _, up) => After(up)
  }

  lemma Regroup<T>(a: seq<T>, b: seq<T>, c: seq<T>, d: seq<T>, e: seq<T>)
    ensures a + (b + c + d) + e == a + b + (c + d + e)
    ensures a + (b + c + d) + e == (a + b + c) + d + e
  {
  }

  lemma {:induction false} PlugItems(c: Path, t: Tree)
    ensures Items(Plug(c, t)) == Before(c) + Items(t) + After(c)
    decreases c
  {
    if !c.Top? {
      PlugItems(c.up, Join(c, t));
      var m := [Item(c.node, c.key)];
      if c.InLeft? {
        Regroup(Before(c.up), Items(t), m, Items(c.sibling), After(c.up));
      } else {
        Regroup(Before(c.up), Items(c.sibling), m, Items(t), After(c.up));
      }
    }
  }

  lemma {:induction false} NodeItem(t: Tree, n: Node) returns (i: nat)
    requires n in Nodes(t)
    ensures i < |Items(t)| && Items(t)[i].node == n
  {
    if n in Nodes(t.left) {
      i := NodeItem(t.left, n);
    } else if n == t.node {
      i := |Items(t.left)|;
    } else {
      i := NodeItem(t.right, n);
      i := |Items(t.left)| + 1 + i;
    }
  }

  lemma {:induction false} ItemNode(t: Tree, i: nat)
    requires i < |Items(t)|
    ensures Items(t)[i].node in Nodes(t)
  {
    var l := Items(t.left);
    if i < |l| {
      ItemNode(t.left, i);
    } else if i > |l| {
      ItemNode(t.right, i - |l| - 1);
    }
  }

  lemma {:induction false} ItemsDistinct(t: Tree, i: nat, j: nat)
    requires Proper(t) && i < j < |Items(t)|
    ensures Items(t)[i].node != Items(t)[j].node
  {
    var l := |Items(t.left)|;
    if j < l {
      ItemsDistinct(t.left, i, j);
    } else if i > l {
      ItemsDistinct(t.right, i - l - 1, j - l - 1);
    } else {
      if i < l {
        ItemNode(t.left, i);
      }
      if j > l {
        ItemNode(t.right, j - l - 1);
      }
    }
  }

  // The node that follows another one; NULL follows the last one.
  ghost predicate Follows(items: seq<Item>, node: Node, next: Node) {
    exists i :: 0 <= i < |items| && items[i].node == node
      && next == if i + 1 < |items| then items[i + 1].node else NULL
  }

  lemma NextItem(t: Tree, i: nat, node: Node, next: Node)
    requires Proper(t) && i < |Items(t)| && node == Items(t)[i].node && Follows(Items(t), node, next)
    ensures next == if i + 1 < |Items(t)| then Items(t)[i + 1].node else NULL
  {
    hide Proper, Items;
    var k :| 0 <= k < |Items(t)| && Items(t)[k].node == node
             && next == if k + 1 < |Items(t)| then Items(t)[k + 1].node else NULL;
    if k < i {
      ItemsDistinct(t, k, i);
    } else if i < k {
      ItemsDistinct(t, i, k);
    }
  }

  lemma FirstItem(seg: Path, sub: Tree)
    requires sub.Branch? && sub.left.Leaf? && Before(seg) == []
    ensures Items(Plug(seg, sub)) != [] && Items(Plug(seg, sub))[0].node == sub.node
  {
    PlugItems(seg, sub);
  }

  lemma RealItem(m: Memory, s: Node, root: Node, t: Tree, i: nat)
    requires View(m, s, root, Top, t) && i < |Items(t)|
    ensures Items(t)[i].node != NULL
  {
    ItemNode(t, i);
    HoldsNodes(m, s, NULL, t);
  }

  // An empty tree has no root.
  lemma Ends(m: Memory, s: Node, root: Node, t: Tree)
    requires View(m, s, root, Top, t)
    ensures Proper(t) && root == Pointer(s, t) && (root == s <==> t.Leaf?) && (t.Leaf? ==> Items(t) == [])
  {
  }

  ghost predicate Sorted(s: seq<Item>) {
    forall i, j :: 0 <= i < j < |s| ==> s[i].key <= s[j].key
  }
}
