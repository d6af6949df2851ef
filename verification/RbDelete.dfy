// The state of the fixup loop of ngx_rbtree_delete, the pure part of its steps, and the
// unlinking of a node that comes before the loop.

module RbDelete {
  import opened RbShape
  import opened RbBalance
  import opened RbWrites
  import opened RbInsert

  // -------- paths --------

  lemma {:induction false} AppendParts(seg: Path, c: Path)
    ensures Before(Append(seg, c)) == Before(c) + Before(seg)
    ensures After(Append(seg, c)) == After(seg) + After(c)
    ensures PathNodes(Append(seg, c)) == PathNodes(seg) + PathNodes(c)
    decreases seg
  {
    if !seg.Top? {
      AppendParts(seg.up, c);
    }
  }

  lemma {:induction false} AppendTop(seg: Path)
    ensures Append(seg, Top) == seg
    decreases seg
  {
    if !seg.Top? {
      AppendTop(seg.up);
    }
  }

  // A frame's node and key may be exchanged without touching the red-black rules.
  lemma {:induction false} FitsSwap(seg: Path, a: Node, b: Node, red: bool, j: nat, k: nat, sibling: Tree, up: Path,
                                    h: nat, r: bool)
    requires Fits(Append(seg, InRight(a, red, j, sibling, up)), h, r)
    ensures Fits(Append(seg, InRight(b, red, k, sibling, up)), h, r)
    decreases seg
  {
    if !seg.Top? {
      FitsSwap(seg.up, a, b, red, j, k, sibling, up, h + (if seg.red then 0 else 1), seg.red);
    }
  }

  ghost function Blacken(t: Tree): Tree {
    if t.Leaf? then t else t.(red := false)
  }

  // -------- unlinking --------

  // A node with at most one child is cut out; `t` is what remains below it.
  lemma SpliceOut(m: Memory, m': Memory, s: Node, root: Node, c: Path, t: Tree, rest: Tree)
    requires View(m, s, root, c, t) && t.Branch? && !c.Top?
    requires (t.left.Leaf? && rest == t.right) || (t.right.Leaf? && rest == t.left)
    requires PathNodes(c) <= m.Keys && Pointer(s, rest) in m
    requires m' == WithParent(WithChild(m, c, Pointer(s, rest)), Pointer(s, rest), c.node)
    ensures View(m', s, root, c, rest) && m'[Pointer(s, rest)].parent == c.node
  {
    HoldsNodes(m, s, c.node, t);
    PathNodesIn(m, s, root, t.node, c);
    assert c.node in PathNodes(c);
    assert rest.Branch? ==> rest.node in Nodes(rest) && rest.node in Nodes(t);
    HoldsTop(m, m', s, t.node, rest, c.node, Red(rest));
    Exchange(m, m', s, root, root, c, t, rest);
  }

  // The root is cut out.
  lemma SpliceRoot(m: Memory, m': Memory, s: Node, root: Node, t: Tree, rest: Tree)
    requires View(m, s, root, Top, t) && t.Branch?
    requires (t.left.Leaf? && rest == t.right) || (t.right.Leaf? && rest == t.left)
    requires Pointer(s, rest) in m && m' == WithRed(m, Pointer(s, rest), false)
    ensures View(m', s, Pointer(s, rest), Top, Blacken(rest))
  {
    HoldsNodes(m, s, NULL, t);
    assert rest.Branch? ==> rest.node in Nodes(rest);
    HoldsTop(m, m', s, t.node, rest, NULL, false);
  }

  // `n` takes the links and the colour of `gone`, which has subtrees `l` and `r`.
  function TakeOver(m: Memory, n: Node, gone: Node): Memory
    requires n in m && gone in m
  {
    m[n := Cell(m[n].key, m[gone].left, m[gone].right, m[gone].parent, m[gone].red)]
  }

  ghost function Adopt(m: Memory, t: Tree, n: Node): Memory
    requires t.Branch? ==> t.node in m
  {
    if t.Leaf? then m else WithParent(m, t.node, n)
  }

  ghost predicate Replaceable(m: Memory, s: Node, root: Node, c: Path, gone: Node, key: nat, red: bool,
                              l: Tree, r: Tree, above: Node, n: Node) {
    && NULL !in m && s in m && !m[s].red
    && HoldsPath(m, s, root, gone, c) && gone != s
    && CellIs(m, gone, key, red, Pointer(s, l), Pointer(s, r), Parent(c))
    && Holds(m, s, gone, l) && Holds(m, s, above, r)
    && ProperPath(c) && Proper(Branch(l, gone, red, key, r))
    && Nodes(Branch(l, gone, red, key, r)) !! PathNodes(c)
    && n in m && n != s && n !in PathNodes(c) && n !in Nodes(Branch(l, gone, red, key, r))
    && PathNodes(c) <= m.Keys
    && (l.Branch? ==> l.node in m) && (r.Branch? ==> r.node in m)
  }

  // The pointers that second half follows.
  lemma ReplaceReads(m: Memory, s: Node, root: Node, c: Path, gone: Node, key: nat, red: bool,
                     l: Tree, r: Tree, above: Node, n: Node)
    requires Replaceable(m, s, root, c, gone, key, red, l, r, above, n)
    ensures gone in m && n in m && s in m && n != gone && n != s && gone != s
    ensures m[gone].left == Pointer(s, l) && (l.Leaf? <==> Pointer(s, l) == s) && Pointer(s, l) in m
    ensures m[gone].right == Pointer(s, r) && (r.Leaf? <==> Pointer(s, r) == s) && Pointer(s, r) in m
    ensures Pointer(s, l) !in {n, gone} && Pointer(s, r) !in {n, gone}
    ensures (c.Top? <==> gone == root) && PathNodes(c) <= m.Keys
    ensures !c.Top? ==> m[gone].parent == c.node && c.node in m && c.node !in {gone, n}
    ensures c.InLeft? ==> m[c.node].left == gone
    ensures c.InRight? ==> m[c.node].left != gone
  {
    PathNodesIn(m, s, root, gone, c);
    assert l.Branch? ==> l.node in Nodes(l);
    assert r.Branch? ==> r.node in Nodes(r);
    assert !c.Top? ==> c.node in PathNodes(c);
    assert c.InRight? && c.sibling.Branch? ==> c.sibling.node in Nodes(c.sibling);
  }

  // What those writes leave in memory.
  ghost predicate WritesReplace(m: Memory, m': Memory, s: Node, c: Path, gone: Node, l: Tree, r: Tree, n: Node)
    requires gone in m && n in m && (l.Branch? ==> l.node in m) && (r.Branch? ==> r.node in m)
    requires c.Top? || c.node in m
  {
    && m'.Keys == m.Keys
    && m'[n] == Cell(m[n].key, m[gone].left, m[gone].right, m[gone].parent, m[gone].red)
    && (l.Branch? ==> m'[l.node] == m[l.node].(parent := n))
    && (r.Branch? ==> m'[r.node] == m[r.node].(parent := n))
    && (c.InLeft? ==> m'[c.node] == m[c.node].(left := n))
    && (c.InRight? ==> m'[c.node] == m[c.node].(right := n))
    && Same(m, m', m.Keys - {n} - (if l.Branch? then {l.node} else {}) - (if r.Branch? then {r.node} else {})
                   - (if c.Top? then {} else {c.node}))
  }

  lemma ReplaceWrites(m: Memory, m': Memory, s: Node, root: Node, c: Path, gone: Node, key: nat, red: bool,
                      l: Tree, r: Tree, above: Node, n: Node)
    requires Replaceable(m, s, root, c, gone, key, red, l, r, above, n)
    requires m' == Adopt(Adopt(WithChild(TakeOver(m, n, gone), c, n), l, n), r, n)
    ensures !c.Top? ==> c.node in m
    ensures WritesReplace(m, m', s, c, gone, l, r, n)
  {
    var t := Branch(l, gone, red, key, r);
    assert l.Branch? ==> l.node in Nodes(l) && l.node in Nodes(t);
    assert r.Branch? ==> r.node in Nodes(r) && r.node in Nodes(t);
    assert !c.Top? ==> c.node in PathNodes(c);
  }

  lemma Replaced(m: Memory, m': Memory, s: Node, root: Node, root': Node, c: Path, gone: Node, key: nat, red: bool,
                 l: Tree, r: Tree, above: Node, n: Node)
    requires Replaceable(m, s, root, c, gone, key, red, l, r, above, n)
    requires !c.Top? ==> c.node in m
    requires WritesReplace(m, m', s, c, gone, l, r, n)
    requires root' == (if c.Top? then n else root)
    ensures View(m', s, root', c, Branch(l, n, red, m[n].key, r))
    ensures m'[s] == m[s]
  {
    HoldsNodes(m, s, gone, l);
    HoldsNodes(m, s, above, r);
    PathNodesIn(m, s, root, gone, c);
    ReplacedTrees(m, m', s, root, c, gone, key, red, l, r, above, n);
    PathRelink(m, m', s, root, root', c, gone, n);
  }

  lemma ReplacedTrees(m: Memory, m': Memory, s: Node, root: Node, c: Path, gone: Node, key: nat, red: bool,
                      l: Tree, r: Tree, above: Node, n: Node)
    requires Replaceable(m, s, root, c, gone, key, red, l, r, above, n)
    requires !c.Top? ==> c.node in m
    requires WritesReplace(m, m', s, c, gone, l, r, n)
    ensures Holds(m', s, n, l) && Holds(m', s, n, r)
  {
    hide HoldsPath, ProperPath;
    HoldsNodes(m, s, gone, l);
    HoldsNodes(m, s, above, r);
    HoldsTop(m, m', s, gone, l, n, Red(l));
    HoldsTop(m, m', s, above, r, n, Red(r));
  }

  // -------- the fixup loop --------

  // The subtree `t` is one black node short, unless its top is red.
  ghost predicate Sinking(m: Memory, s: Node, root: Node, c: Path, t: Tree, items: seq<Item>) {
    && View(m, s, root, c, t)
    && Balanced(Blacken(t))
    && Fits(c, BlackHeight(Blacken(t)) + (if Red(t) then 0 else 1), false)
    && (!c.Top? ==> Pointer(s, t) in m && m[Pointer(s, t)].parent == c.node)
    && Before(c) + Items(t) + After(c) == items
    && m.Keys == PathNodes(c) + Nodes(t) + {s}
  }

  ghost function Measure(c: Path, t: Tree): nat {
    if Red(t) then 0 else 1 + Depth(c)
  }

  lemma BlackenSame(t: Tree)
    ensures Items(Blacken(t)) == Items(t) && Nodes(Blacken(t)) == Nodes(t)
    ensures !Red(t) ==> Blacken(t) == t
  {
  }

  // The sibling of a black subtree that is short is a node; what the code reads of it.
  lemma SiblingReads(m: Memory, s: Node, root: Node, c: Path, t: Tree, items: seq<Item>)
    requires Sinking(m, s, root, c, t, items) && !c.Top? && !Red(t)
    ensures c.sibling.Branch? && Balanced(t) && Balanced(c.sibling)
    ensures BlackHeight(c.sibling) == BlackHeight(t) + 1
    ensures var x, w := Pointer(s, t), c.sibling;
            && x in m && m[x].parent == c.node && !m[x].red
            && {c.node, w.node} <= m.Keys && c.node != w.node
            && m[w.node].red == w.red && m[c.node].red == c.red
            && m[w.node].left == Pointer(s, w.left) && m[w.node].right == Pointer(s, w.right)
            && Pointer(s, w.left) in m && m[Pointer(s, w.left)].red == Red(w.left)
            && Pointer(s, w.right) in m && m[Pointer(s, w.right)].red == Red(w.right)
            && (c.InLeft? ==> m[c.node].left == x && m[c.node].right == w.node && x != w.node)
            && (c.InRight? ==> m[c.node].right == x && m[c.node].left == w.node && x != w.node)
    ensures View(m, s, root, c, t) && View(m, s, root, c.up, Join(c, t))
    ensures {s, c.node, c.sibling.node} + (if t.Branch? then {t.node} else {}) <= m.Keys
    ensures Pointer(s, t) !in {c.node}
    ensures c.node != Pointer(s, c.sibling.left) && c.node != Pointer(s, c.sibling.right)
  {
    var w := c.sibling;
    TopCell(m, s, root, c, t);
    HoldsNodes(m, s, c.node, w);
    assert Holds(m, s, c.node, w) && Holds(m, s, w.node, w.left) && Holds(m, s, w.node, w.right);
    assert w.left.Branch? ==> w.left.node in Nodes(w.left);
    assert w.right.Branch? ==> w.right.node in Nodes(w.right);
    assert t.Branch? ==> t.node in Nodes(t) && t.node !in PathNodes(c);
    MoveUp(m, s, root, c, t);
  }

  // A red sibling is rotated above the parent: path and sibling afterwards.
  ghost function Lowered(c: Path): Path
    requires !c.Top? && c.sibling.Branch?
  {
    var w := c.sibling;
    if c.InLeft? then InLeft(c.node, true, c.key, w.left, InLeft(w.node, false, w.key, w.right, c.up))
    else InRight(c.node, true, c.key, w.right, InRight(w.node, false, w.key, w.left, c.up))
  }

  lemma LoweredSinks(m: Memory, m': Memory, s: Node, root: Node, root': Node, c: Path, t: Tree, items: seq<Item>)
    requires Sinking(m, s, root, c, t, items) && !c.Top? && !Red(t) && Red(c.sibling)
    requires
      var w := c.sibling;
      View(m', s, root', c.up,
           if c.InLeft? then Branch(Branch(t, c.node, true, c.key, w.left), w.node, false, w.key, w.right)
           else Branch(w.left, w.node, false, w.key, Branch(w.right, c.node, true, c.key, t)))
    requires m'.Keys == m.Keys && s in m && m'[s] == m[s]
    ensures Sinking(m', s, root', Lowered(c), t, items) && !Red(Lowered(c).sibling)
  {
    var d := Lowered(c);
    LoweredValues(c, t);
    if c.InLeft? {
      MoveLeft(m', s, root', c.up, Join(d.up, Join(d, t)));
      MoveLeft(m', s, root', d.up, Join(d, t));
    } else {
      MoveRight(m', s, root', c.up, Join(d.up, Join(d, t)));
      MoveRight(m', s, root', d.up, Join(d, t));
    }
  }

  lemma LoweredValues(c: Path, t: Tree)
    requires !c.Top? && !Red(t) && Red(c.sibling) && Fits(c, BlackHeight(t) + 1, false)
    ensures Fits(Lowered(c), BlackHeight(t) + 1, false) && !Red(Lowered(c).sibling)
    ensures PathNodes(Lowered(c)) == PathNodes(c)
    ensures Before(Lowered(c)) + Items(t) + After(Lowered(c)) == Before(c) + Items(t) + After(c)
  {
    var w := c.sibling;
    assert Balanced(w) && Nodes(w) == Nodes(w.left) + {w.node} + Nodes(w.right);
    assert Fits(Lowered(c).up, BlackHeight(t) + 1, true);
    LoweredItems(c, t);
  }

  lemma LoweredItems(c: Path, t: Tree)
    requires !c.Top? && c.sibling.Branch?
    ensures Before(Lowered(c)) + Items(t) + After(Lowered(c)) == Before(c) + Items(t) + After(c)
  {
    var w := c.sibling;
    var p, q := [Item(c.node, c.key)], [Item(w.node, w.key)];
    if c.InLeft? {
      Regroup(p, Items(w.left), q, Items(w.right), After(c.up));
    } else {
      Regroup(Before(c.up), Items(w.left), q, Items(w.right), p);
    }
  }

  // A black sibling with black children turns red, and the parent becomes the subtree.
  ghost function Merged(c: Path, t: Tree): Tree
    requires !c.Top? && c.sibling.Branch?
  {
    Join(c.(sibling := c.sibling.(red := true)), t)
  }

  lemma MergedSinks(m: Memory, m': Memory, s: Node, root: Node, c: Path, t: Tree, items: seq<Item>)
    requires Sinking(m, s, root, c, t, items) && !c.Top? && !Red(t)
    requires c.sibling.Branch? && !c.sibling.red && !Red(c.sibling.left) && !Red(c.sibling.right)
    requires c.sibling.node in m && m' == WithRed(m, c.sibling.node, true)
    ensures Sinking(m', s, root, c.up, Merged(c, t), items)
    ensures Measure(c.up, Merged(c, t)) < Measure(c, t)
  {
    hide View, Items, Before, After, Nodes, PathNodes, Balanced, Fits, BlackHeight;
    BlackenSame(t);
    MergedView(m, m', s, root, c, t);
    MergedValues(c, t);
    ParentRead(m', s, root, c.up, Merged(c, t));
  }

  lemma ParentRead(m: Memory, s: Node, root: Node, c: Path, t: Tree)
    requires View(m, s, root, c, t) && t.Branch?
    ensures !c.Top? ==> Pointer(s, t) in m && m[Pointer(s, t)].parent == c.node
  {
  }

  lemma MergedView(m: Memory, m': Memory, s: Node, root: Node, c: Path, t: Tree)
    requires View(m, s, root, c, t) && !c.Top? && c.sibling.Branch?
    requires c.sibling.node in m && m' == WithRed(m, c.sibling.node, true)
    ensures View(m', s, root, c.up, Merged(c, t))
  {
    hide View;
    var p := Join(c, t);
    MoveUp(m, s, root, c, t);
    if c.InLeft? {
      MoveRight(m, s, root, c.up, p);
      Repaint(m, m', s, root, InRight(c.node, c.red, c.key, t, c.up), c.sibling, true);
      MoveUp(m', s, root, InRight(c.node, c.red, c.key, t, c.up), c.sibling.(red := true));
    } else {
      MoveLeft(m, s, root, c.up, p);
      Repaint(m, m', s, root, InLeft(c.node, c.red, c.key, t, c.up), c.sibling, true);
      MoveUp(m', s, root, InLeft(c.node, c.red, c.key, t, c.up), c.sibling.(red := true));
    }
  }

  lemma MergedValues(c: Path, t: Tree)
    requires !c.Top? && !Red(t) && c.sibling.Branch? && !c.sibling.red
    requires !Red(c.sibling.left) && !Red(c.sibling.right)
    requires Balanced(t) && Fits(c, BlackHeight(t) + 1, false)
    ensures
      var r := Merged(c, t);
      && Balanced(Blacken(r)) && Fits(c.up, BlackHeight(Blacken(r)) + (if Red(r) then 0 else 1), false)
      && Before(c.up) + Items(r) + After(c.up) == Before(c) + Items(t) + After(c)
      && Nodes(r) + PathNodes(c.up) == Nodes(t) + PathNodes(c)
  {
    assert Items(c.sibling.(red := true)) == Items(c.sibling);
    assert Items(Merged(c, t)) == Items(Join(c, t));
    JoinItems(c, t);
  }

  // The children of the sibling, the one near the short subtree and the one far from it.
  ghost function Near(c: Path): Tree
    requires !c.Top? && c.sibling.Branch?
  {
    if c.InLeft? then c.sibling.left else c.sibling.right
  }

  ghost function Far(c: Path): Tree
    requires !c.Top? && c.sibling.Branch?
  {
    if c.InLeft? then c.sibling.right else c.sibling.left
  }

  // The near child, painted black, has been rotated above the sibling, painted red.
  ghost function Turned(c: Path): Path
    requires !c.Top? && c.sibling.Branch? && Near(c).Branch?
  {
    var w, n := c.sibling, Near(c);
    c.(sibling := if c.InLeft? then Branch(n.left, n.node, false, n.key, Branch(n.right, w.node, true, w.key, w.right))
                  else Branch(Branch(w.left, w.node, true, w.key, n.left), n.node, false, n.key, n.right))
  }

  ghost function BesideSibling(c: Path, t: Tree): Path
    requires !c.Top?
  {
    if c.InLeft? then InRight(c.node, c.red, c.key, t, c.up) else InLeft(c.node, c.red, c.key, t, c.up)
  }

  lemma ViewSibling(m: Memory, s: Node, root: Node, c: Path, t: Tree)
    requires View(m, s, root, c, t) && !c.Top?
    ensures View(m, s, root, BesideSibling(c, t), c.sibling)
  {
    MoveUp(m, s, root, c, t);
    if c.InLeft? {
      MoveRight(m, s, root, c.up, Join(c, t));
    } else {
      MoveLeft(m, s, root, c.up, Join(c, t));
    }
  }

  lemma TurnedPaint(m: Memory, m': Memory, s: Node, root: Node, c: Path, t: Tree)
    requires View(m, s, root, c, t) && !c.Top? && c.sibling.Branch? && Near(c).Branch?
    requires {Near(c).node, c.sibling.node} <= m.Keys
    requires m' == WithRed(WithRed(m, Near(c).node, false), c.sibling.node, true)
    ensures
      var w, d := c.sibling, BesideSibling(c, t);
      if c.InLeft? then
        View(m', s, root, d, w.(left := w.left.(red := false), red := true))
      else
        View(m', s, root, d, w.(right := w.right.(red := false), red := true))
  {
    ViewSibling(m, s, root, c, t);
    if c.InLeft? {
      RecolourLeft(m, m', s, root, BesideSibling(c, t), c.sibling, false, true);
    } else {
      RecolourRight(m, m', s, root, BesideSibling(c, t), c.sibling, false, true);
    }
  }

  lemma TurnedSinks(m: Memory, m': Memory, s: Node, root: Node, root': Node, c: Path, t: Tree, items: seq<Item>)
    requires Sinking(m, s, root, c, t, items) && !c.Top? && !Red(t)
    requires c.sibling.Branch? && !c.sibling.red && Red(Near(c)) && !Red(Far(c))
    requires View(m', s, root', BesideSibling(c, t), Turned(c).sibling)
    requires m'.Keys == m.Keys && s in m && m'[s] == m[s]
    ensures Sinking(m', s, root', Turned(c), t, items)
    ensures !Turned(c).sibling.red && Red(Far(Turned(c)))
  {
    var d := Turned(c);
    MoveUp(m', s, root', BesideSibling(c, t), d.sibling);
    if c.InLeft? {
      MoveLeft(m', s, root', c.up, Join(d, t));
    } else {
      MoveRight(m', s, root', c.up, Join(d, t));
    }
    TurnedValues(c, t);
  }

  lemma TurnedValues(c: Path, t: Tree)
    requires !c.Top? && !Red(t) && c.sibling.Branch? && !c.sibling.red && Red(Near(c)) && !Red(Far(c))
    requires Fits(c, BlackHeight(t) + 1, false)
    ensures Fits(Turned(c), BlackHeight(t) + 1, false)
    ensures Before(Turned(c)) == Before(c) && After(Turned(c)) == After(c)
    ensures PathNodes(Turned(c)) == PathNodes(c)
    ensures Red(Far(Turned(c))) && !Turned(c).sibling.red
  {
    var w, n := c.sibling, Near(c);
    assert Balanced(w) && Balanced(n) && Balanced(Far(c));
    assert Nodes(n.(red := false)) == Nodes(n) && Items(n.(red := false)) == Items(n);
    if c.InLeft? {
      assert Balanced(Branch(n.right, w.node, true, w.key, w.right));
      var g := Branch(n.(red := false), w.node, true, w.key, w.right);
      RotatedRightShape(g);
      assert Turned(c).sibling == RotatedRight(g);
      assert Items(g) == Items(w) && Nodes(g) == Nodes(w);
    } else {
      assert Balanced(Branch(w.left, w.node, true, w.key, n.left));
      var g := Branch(w.left, w.node, true, w.key, n.(red := false));
      RotatedLeftShape(g);
      assert Turned(c).sibling == RotatedLeft(g);
      assert Items(g) == Items(w) && Nodes(g) == Nodes(w);
    }
  }

  // The last case: the sibling takes the parent's colour, the parent and the far child
  // turn black.
  ghost function Lent(c: Path, t: Tree): Tree
    requires !c.Top? && c.sibling.Branch? && Far(c).Branch?
  {
    Join(c.(red := false, sibling := LentSibling(c)), t)
  }

  ghost function LentSibling(c: Path): Tree
    requires !c.Top? && c.sibling.Branch? && Far(c).Branch?
  {
    var w, f := c.sibling, Far(c).(red := false);
    if c.InLeft? then w.(red := c.red, right := f) else w.(red := c.red, left := f)
  }

  lemma LentSiblingPaint(m: Memory, m': Memory, s: Node, root: Node, c: Path, t: Tree)
    requires View(m, s, root, c, t) && !c.Top? && c.sibling.Branch? && Far(c).Branch?
    requires {Far(c).node, c.sibling.node} <= m.Keys
    requires m' == WithRed(WithRed(m, Far(c).node, false), c.sibling.node, c.red)
    ensures View(m', s, root, BesideSibling(c, t), LentSibling(c))
  {
    ViewSibling(m, s, root, c, t);
    if c.InLeft? {
      RecolourRight(m, m', s, root, BesideSibling(c, t), c.sibling, false, c.red);
    } else {
      RecolourLeft(m, m', s, root, BesideSibling(c, t), c.sibling, false, c.red);
    }
  }

  lemma LentOrder(m: Memory, s: Node, root: Node, c: Path, t: Tree)
    requires View(m, s, root, c, t) && !c.Top? && c.sibling.Branch? && Far(c).Branch?
    requires {Far(c).node, c.sibling.node, c.node} <= m.Keys
    ensures WithRed(WithRed(WithRed(m, c.sibling.node, c.red), c.node, false), Far(c).node, false)
         == WithRed(WithRed(WithRed(m, Far(c).node, false), c.sibling.node, c.red), c.node, false)
  {
    var w := c.sibling;
    assert Far(c).node in Nodes(Far(c)) && Far(c).node in Nodes(w);
    assert c.node !in Nodes(w) && Far(c).node != w.node;
  }

  lemma LentPaint(m: Memory, m': Memory, s: Node, root: Node, c: Path, t: Tree)
    requires View(m, s, root, c, t) && !c.Top? && c.sibling.Branch? && Far(c).Branch?
    requires {Far(c).node, c.sibling.node, c.node} <= m.Keys
    requires m' == WithRed(WithRed(WithRed(m, c.sibling.node, c.red), c.node, false), Far(c).node, false)
    ensures View(m', s, root, c.up, Lent(c, t))
  {
    var m1 := WithRed(WithRed(m, Far(c).node, false), c.sibling.node, c.red);
    LentSiblingPaint(m, m1, s, root, c, t);
    LentOrder(m, s, root, c, t);
    MoveUp(m1, s, root, BesideSibling(c, t), LentSibling(c));
    Repaint(m1, m', s, root, c.up, Join(BesideSibling(c, t), LentSibling(c)), false);
  }

  ghost function Repaid(c: Path, t: Tree): Tree
    requires !c.Top? && c.sibling.Branch? && Far(c).Branch?
  {
    if c.InLeft? then RotatedLeft(Lent(c, t)) else RotatedRight(Lent(c, t))
  }

  lemma RepaidValues(c: Path, t: Tree)
    requires !c.Top? && !Red(t) && Balanced(t) && Fits(c, BlackHeight(t) + 1, false)
    requires c.sibling.Branch? && !c.sibling.red && Red(Far(c))
    ensures
      var r := Repaid(c, t);
      && Balanced(r) && Fits(c.up, BlackHeight(r), Red(r))
      && Before(c.up) + Items(r) + After(c.up) == Before(c) + Items(t) + After(c)
      && Nodes(r) + PathNodes(c.up) == Nodes(t) + PathNodes(c)
  {
    var g, w := Lent(c, t), c.sibling;
    assert Balanced(w) && Balanced(Near(c)) && Balanced(Far(c));
    assert Balanced(Far(c).(red := false));
    assert Nodes(LentSibling(c)) == Nodes(w);
    if c.InLeft? {
      RotatedLeftShape(g);
      assert Balanced(Branch(t, c.node, false, c.key, w.left));
    } else {
      RotatedRightShape(g);
      assert Balanced(Branch(w.right, c.node, false, c.key, t));
    }
    assert Items(g) == Items(Join(c, t)) by {
      assert Items(Far(c).(red := false)) == Items(Far(c));
      assert Items(LentSibling(c)) == Items(w);
    }
    JoinItems(c, t);
  }

  lemma RepaidSinks(m: Memory, m': Memory, s: Node, root: Node, root': Node, c: Path, t: Tree, items: seq<Item>)
    requires Sinking(m, s, root, c, t, items) && !c.Top? && !Red(t)
    requires c.sibling.Branch? && !c.sibling.red && Red(Far(c))
    requires View(m', s, root', c.up, Repaid(c, t)) && m'.Keys == m.Keys
    ensures Sinking(m', s, root', Top, Plug(c.up, Repaid(c, t)), items)
    ensures Plug(c.up, Repaid(c, t)).Branch? && Plug(c.up, Repaid(c, t)).node == root'
    ensures Measure(Top, Plug(c.up, Repaid(c, t))) < Measure(c, t)
  {
    hide View, Plug, Nodes, Items, Before, After, Balanced, PathNodes, BlackHeight, Repaid;
    var r := Repaid(c, t);
    RepaidValues(c, t);
    FitsPlug(c.up, r);
    PlugItems(c.up, r);
    PlugNodes(c.up, r);
    ViewWhole(m', s, root', c.up, r);
    RepaidTop(c, t);
    BlackenSame(Plug(c.up, r));
    RootOf(m', s, root', Plug(c.up, r));
  }

  lemma RepaidTop(c: Path, t: Tree)
    requires !c.Top? && c.sibling.Branch? && Red(Far(c)) && !Red(t)
    ensures Repaid(c, t).Branch? && Plug(c.up, Repaid(c, t)).Branch? && Before(Top) == [] && After(Top) == []
            && PathNodes(Top) == {}
    ensures Measure(Top, Plug(c.up, Repaid(c, t))) < Measure(c, t)
  {
    PlugBranch(c.up, Repaid(c, t));
  }

  lemma {:induction false} PlugBranch(c: Path, t: Tree)
    requires t.Branch?
    ensures Plug(c, t).Branch?
    decreases c
  {
    if !c.Top? {
      PlugBranch(c.up, Join(c, t));
    }
  }

  lemma RootOf(m: Memory, s: Node, root: Node, t: Tree)
    requires View(m, s, root, Top, t) && t.Branch?
    ensures t.node == root
  {
  }

  // -------- taking a node out --------

  lemma {:induction false} MoveUpAll(m: Memory, s: Node, root: Node, seg: Path, c: Path, t: Tree)
    requires View(m, s, root, Append(seg, c), t)
    ensures View(m, s, root, c, Plug(seg, t))
    decreases seg
  {
    if !seg.Top? {
      MoveUp(m, s, root, Append(seg, c), t);
      MoveUpAll(m, s, root, seg.up, c, Join(seg, t));
    }
  }

  // The path from the leftmost node of the right subtree of `t` up past `t`'s top.
  ghost function Beyond(seg: Path, t: Tree, c: Path): Path
    requires t.Branch?
  {
    Append(seg, InRight(t.node, t.red, t.key, t.left, c))
  }

  // ... and the same path once the node at its end stands where `t`'s top stood.
  ghost function Beyond'(seg: Path, t: Tree, c: Path, n: Node, key: nat): Path
    requires t.Branch?
  {
    Append(seg, InRight(n, t.red, key, t.left, c))
  }

  // `sub` is the leftmost node of the right subtree of `t`.
  ghost predicate Leftmost(t: Tree, seg: Path, sub: Tree) {
    && t.Branch? && t.left.Branch? && sub.Branch? && sub.left.Leaf?
    && Plug(seg, sub) == t.right && Before(seg) == []
  }

  lemma LeftmostView(m: Memory, s: Node, root: Node, c: Path, t: Tree, seg: Path, sub: Tree)
    requires View(m, s, root, c, t) && Leftmost(t, seg, sub)
    ensures View(m, s, root, Beyond(seg, t, c), sub)
    ensures PathNodes(Beyond(seg, t, c)) <= m.Keys && Nodes(sub) <= m.Keys && sub.node != t.node
    ensures Pointer(s, sub.right) in m && sub.node in m
    ensures seg.Top? <==> Parent(Beyond(seg, t, c)) == t.node
  {
    MoveRight(m, s, root, c, t);
    MoveDown(m, s, root, seg, InRight(t.node, t.red, t.key, t.left, c), sub);
    PathNodesIn(m, s, root, sub.node, Beyond(seg, t, c));
    HoldsNodes(m, s, Parent(Beyond(seg, t, c)), sub);
    AppendParts(seg, InRight(t.node, t.red, t.key, t.left, c));
    PlugNodes(seg, sub);
    assert sub.right.Branch? ==> sub.right.node in Nodes(sub.right);
    assert t.node in PathNodes(Beyond(seg, t, c));
    assert !seg.Top? ==> seg.node in PathNodes(seg);
  }

  // The leftmost node is cut out from below some other node than `t`'s top.
  lemma CutDeep(m: Memory, m2: Memory, s: Node, root: Node, c: Path, t: Tree, seg: Path, sub: Tree)
    requires View(m, s, root, c, t) && Leftmost(t, seg, sub) && !seg.Top?
    requires PathNodes(Beyond(seg, t, c)) <= m.Keys && Pointer(s, sub.right) in m && sub.node in m
    requires m2 == WithParent(WithChild(m, Beyond(seg, t, c), Pointer(s, sub.right)), Pointer(s, sub.right), seg.node)
    ensures Replaceable(m2, s, root, c, t.node, t.key, t.red, t.left, Plug(seg, sub.right), t.node, sub.node)
    ensures m2[Pointer(s, sub.right)].parent == seg.node && m2[sub.node] == m[sub.node]
  {
    var d := InRight(t.node, t.red, t.key, t.left, c);
    LeftmostView(m, s, root, c, t, seg, sub);
    SpliceOut(m, m2, s, root, Beyond(seg, t, c), sub, sub.right);
    MoveUpAll(m2, s, root, seg, d, sub.right);
    MoveUp(m2, s, root, d, Plug(seg, sub.right));
    AppendParts(seg, d);
    PlugNodes(seg, sub.right);
    CutRest(m2, s, root, c, Branch(t.left, t.node, t.red, t.key, Plug(seg, sub.right)), sub.node);
    assert seg.node in PathNodes(Beyond(seg, t, c));
    assert sub.right.Branch? ==> sub.right.node in Nodes(sub.right);
  }

  lemma CutRest(m: Memory, s: Node, root: Node, c: Path, t: Tree, n: Node)
    requires View(m, s, root, c, t) && t.Branch?
    requires n in m && n != s && n !in PathNodes(c) && n !in Nodes(t)
    ensures Replaceable(m, s, root, c, t.node, t.key, t.red, t.left, t.right, t.node, n)
  {
    HoldsNodes(m, s, Parent(c), t);
    PathNodesIn(m, s, root, t.node, c);
    assert t.left.Branch? ==> t.left.node in Nodes(t.left);
    assert t.right.Branch? ==> t.right.node in Nodes(t.right);
  }

  // The leftmost node is `t`'s own right child.
  lemma CutNear(m: Memory, m2: Memory, s: Node, root: Node, c: Path, t: Tree, sub: Tree)
    requires View(m, s, root, c, t) && Leftmost(t, Top, sub)
    requires Pointer(s, sub.right) in m && {t.node, sub.node} <= m.Keys
    requires m2 == WithParent(WithRight(m, t.node, Pointer(s, sub.right)), Pointer(s, sub.right), sub.node)
    ensures Replaceable(m2, s, root, c, t.node, t.key, t.red, t.left, sub.right, sub.node, sub.node)
    ensures m2[Pointer(s, sub.right)].parent == sub.node && m2[sub.node] == m[sub.node]
  {
    var rest := sub.right;
    assert Nodes(t.right) == {sub.node} + Nodes(rest) && Holds(m, s, t.node, t.right) && Proper(t.right);
    assert rest.Branch? ==> rest.node in Nodes(rest) && rest.node in Nodes(t.right);
    assert t.left.Branch? ==> t.left.node in Nodes(t.left);
    HoldsNodes(m, s, Parent(c), t);
    PathNodesIn(m, s, root, t.node, c);
    HoldsFrame(m, m2, s, t.node, t.left);
    HoldsTop(m, m2, s, sub.node, rest, sub.node, Red(rest));
    PathFrame(m, m2, s, root, t.node, c);
  }

  // The view once the leftmost node has taken the place of `t`'s top.
  lemma Promoted(m2: Memory, m': Memory, s: Node, root': Node, c: Path, t: Tree, seg: Path, sub: Tree)
    requires Leftmost(t, seg, sub) && s in m2 && s in m' && m'[s] == m2[s]
    requires View(m', s, root', c, Branch(t.left, sub.node, t.red, sub.key, Plug(seg, sub.right)))
    requires Pointer(s, sub.right) in m2
             && m2[Pointer(s, sub.right)].parent == (if seg.Top? then sub.node else seg.node)
    ensures View(m', s, root', Beyond'(seg, t, c, sub.node, sub.key), sub.right)
    ensures Pointer(s, sub.right) in m'
    ensures m'[Pointer(s, sub.right)].parent == Parent(Beyond'(seg, t, c, sub.node, sub.key))
  {
    var d := InRight(sub.node, t.red, sub.key, t.left, c);
    MoveRight(m', s, root', c, Branch(t.left, sub.node, t.red, sub.key, Plug(seg, sub.right)));
    MoveDown(m', s, root', seg, d, sub.right);
    TopCell(m', s, root', Beyond'(seg, t, c, sub.node, sub.key), sub.right);
  }

  // -------- what a deletion leaves to the fixup --------

  lemma SpliceValues(c: Path, t: Tree, rest: Tree)
    requires Balanced(Plug(c, t)) && !Red(Plug(c, t)) && t.Branch?
    requires (t.left.Leaf? && rest == t.right) || (t.right.Leaf? && rest == t.left)
    ensures t.red ==> rest.Leaf? && Fits(c, 0, false)
    ensures !t.red ==>
              Balanced(Blacken(rest)) && Fits(c, BlackHeight(Blacken(rest)) + (if Red(rest) then 0 else 1), false)
    ensures Balanced(rest)
  {
    PlugFits(c, t);
  }

  lemma PromotedValues(c: Path, t: Tree, seg: Path, sub: Tree)
    requires Leftmost(t, seg, sub) && Balanced(Plug(c, t)) && !Red(Plug(c, t))
    ensures
      var d, rest := Beyond'(seg, t, c, sub.node, sub.key), sub.right;
      && (sub.red ==> rest.Leaf? && Fits(d, 0, false))
      && (!sub.red ==>
            Balanced(Blacken(rest)) && Fits(d, BlackHeight(Blacken(rest)) + (if Red(rest) then 0 else 1), false))
      && Before(d) + Items(rest) + After(d) == Before(c) + Items(t.left) + Items(t.right) + After(c)
  {
    var e, d := Beyond(seg, t, c), Beyond'(seg, t, c, sub.node, sub.key);
    PlugAppend(seg, InRight(t.node, t.red, t.key, t.left, c), sub);
    assert Plug(e, sub) == Plug(c, t);
    SpliceValues(e, sub, sub.right);
    var h := if sub.red then 0 else BlackHeight(Blacken(sub.right)) + (if Red(sub.right) then 0 else 1);
    FitsSwap(seg, t.node, sub.node, t.red, t.key, sub.key, t.left, c, h, false);
    PromotedItems(c, t, seg, sub);
  }

  lemma PromotedItems(c: Path, t: Tree, seg: Path, sub: Tree)
    requires Leftmost(t, seg, sub)
    ensures
      var d := Beyond'(seg, t, c, sub.node, sub.key);
      Before(d) + Items(sub.right) + After(d) == Before(c) + Items(t.left) + Items(t.right) + After(c)
  {
    AppendParts(seg, InRight(sub.node, t.red, sub.key, t.left, c));
    PlugItems(seg, sub);
    var i := [Item(sub.node, sub.key)];
    assert Items(sub) == i + Items(sub.right);
    assert Items(t.right) == i + Items(sub.right) + After(seg);
    var d := Beyond'(seg, t, c, sub.node, sub.key);
    assert Before(d) == Before(c) + Items(t.left) + i;
    assert After(d) == After(seg) + After(c);
    Reassociate(Before(c) + Items(t.left), i, Items(sub.right), After(seg), After(c));
  }

  lemma Reassociate<T>(a: seq<T>, b: seq<T>, c: seq<T>, d: seq<T>, e: seq<T>)
    ensures a + b + c + (d + e) == a + (b + c + d) + e
  {
  }

  // One item is gone.
  ghost predicate Dropped(before: seq<Item>, after: seq<Item>, n: Node) {
    exists i :: 0 <= i < |before| && before[i].node == n && after == before[..i] + before[i + 1..]
  }

  lemma DroppedMiddle(a: seq<Item>, item: Item, b: seq<Item>)
    ensures Dropped(a + [item] + b, a + b, item.node)
    ensures Sorted(a + [item] + b) ==> Sorted(a + b)
  {
    var s := a + [item] + b;
    assert s[|a|] == item && s[..|a|] == a && s[|a| + 1..] == b;
    if Sorted(s) {
      forall i, j | 0 <= i < j < |a + b|
        ensures (a + b)[i].key <= (a + b)[j].key
      {
        assert (a + b)[i] == s[if i < |a| then i else i + 1];
        assert (a + b)[j] == s[if j < |a| then j else j + 1];
      }
    }
  }

  lemma DropAt(c: Path, t: Tree)
    requires t.Branch? && Sorted(Items(Plug(c, t)))
    ensures Dropped(Items(Plug(c, t)), Before(c) + Items(t.left) + Items(t.right) + After(c), t.node)
    ensures Sorted(Before(c) + Items(t.left) + Items(t.right) + After(c))
  {
    PlugItems(c, t);
    var item := Item(t.node, t.key);
    Split5(Before(c), Items(t.left), [item], Items(t.right), After(c));
    DroppedMiddle(Before(c) + Items(t.left), item, Items(t.right) + After(c));
  }

  lemma Split5<T>(a: seq<T>, b: seq<T>, c: seq<T>, d: seq<T>, e: seq<T>)
    ensures a + (b + c + d) + e == a + b + c + (d + e)
    ensures a + b + d + e == a + b + (d + e)
  {
  }

  // Nothing is left to fix.
  lemma Finished(m: Memory, s: Node, root: Node, c: Path, t: Tree)
    requires View(m, s, root, c, t) && t.Leaf? && Fits(c, 0, false)
    ensures View(m, s, root, Top, Plug(c, t)) && Balanced(Plug(c, t)) && !Red(Plug(c, t))
    ensures Items(Plug(c, t)) == Before(c) + Items(t) + After(c)
    ensures Nodes(Plug(c, t)) == PathNodes(c) + Nodes(t)
  {
    ViewWhole(m, s, root, c, t);
    FitsPlug(c, t);
    PlugItems(c, t);
    PlugNodes(c, t);
  }

  // The last line of the fixup: the top of the subtree turns black.
  lemma Settles(m: Memory, m': Memory, s: Node, root: Node, c: Path, t: Tree, items: seq<Item>)
    requires Sinking(m, s, root, c, t, items) && (c.Top? || Red(t))
    requires Pointer(s, t) in m && m' == WithRed(m, Pointer(s, t), false)
    ensures View(m', s, root, Top, Plug(c, Blacken(t)))
    ensures Balanced(Plug(c, Blacken(t))) && !Red(Plug(c, Blacken(t)))
    ensures Items(Plug(c, Blacken(t))) == items
    ensures m'.Keys == Nodes(Plug(c, Blacken(t))) + {s}
  {
    BlackenSame(t);
    if t.Branch? {
      Repaint(m, m', s, root, c, t, false);
    } else {
      assert m' == m;
    }
    ViewWhole(m', s, root, c, Blacken(t));
    FitsPlug(c, Blacken(t));
    PlugItems(c, Blacken(t));
    PlugNodes(c, Blacken(t));
  }

  // The state handed to the fixup.
  lemma StartSinking(m: Memory, s: Node, root: Node, c: Path, t: Tree, items: seq<Item>)
    requires View(m, s, root, c, t) && Balanced(Blacken(t)) && !c.Top?
    requires Fits(c, BlackHeight(Blacken(t)) + (if Red(t) then 0 else 1), false)
    requires Pointer(s, t) in m && m[Pointer(s, t)].parent == c.node
    requires Before(c) + Items(t) + After(c) == items && m.Keys == PathNodes(c) + Nodes(t) + {s}
    ensures Sinking(m, s, root, c, t, items)
  {
  }

  // What the loop guard and the first test of the loop find out.
  lemma SinkingReads(m: Memory, s: Node, root: Node, c: Path, t: Tree, items: seq<Item>)
    requires Sinking(m, s, root, c, t, items)
    ensures Pointer(s, t) in m && m[Pointer(s, t)].red == Red(t)
    ensures c.Top? <==> Pointer(s, t) == root
    ensures !c.Top? && !Red(t) ==>
              && m[Pointer(s, t)].parent == c.node && c.node in m
              && (c.InLeft? <==> m[c.node].left == Pointer(s, t))
  {
    TopCell(m, s, root, c, t);
    PathNodesIn(m, s, root, Pointer(s, t), c);
    assert t.Branch? ==> t.node in Nodes(t);
    if !c.Top? && !Red(t) {
      SiblingReads(m, s, root, c, t, items);
    }
  }

  // Removing a record from outside the tree.
  lemma Discard(m: Memory, m': Memory, s: Node, root: Node, c: Path, t: Tree, n: Node)
    requires View(m, s, root, c, t) && n !in PathNodes(c) + Nodes(t) + {s} && m' == m - {n}
    ensures View(m', s, root, c, t)
  {
    ViewFrame(m, m', s, root, c, t);
  }

  lemma SpliceKeys(m: Memory, s: Node, root: Node, c: Path, t: Tree, rest: Tree)
    requires View(m, s, root, c, t) && t.Branch?
    requires (t.left.Leaf? && rest == t.right) || (t.right.Leaf? && rest == t.left)
    ensures Pointer(s, rest) in m && PathNodes(c) <= m.Keys && Nodes(t) == Nodes(rest) + {t.node}
    ensures t.node !in PathNodes(c) + Nodes(rest) + {s}
    ensures m.Keys == Nodes(Plug(c, t)) + {s} ==> m.Keys == PathNodes(c) + Nodes(rest) + {s, t.node}
    ensures Items(t.left) + Items(t.right) == Items(rest)
    ensures Before(c) + Items(t.left) + Items(t.right) + After(c) == Before(c) + Items(rest) + After(c)
  {
    hide Items, Before, After, Holds, HoldsPath, Plug, PathNodes;
    HoldsNodes(m, s, Parent(c), t);
    PathNodesIn(m, s, root, t.node, c);
    PlugNodes(c, t);
    assert rest.Branch? ==> rest.node in Nodes(rest);
    SpliceItems(t, rest);
    assert Before(c) + Items(t.left) + Items(t.right) == Before(c) + (Items(t.left) + Items(t.right));
  }

  lemma SpliceItems(t: Tree, rest: Tree)
    requires t.Branch?
    requires (t.left.Leaf? && rest == t.right) || (t.right.Leaf? && rest == t.left)
    ensures Items(t.left) + Items(t.right) == Items(rest)
  {
  }

  lemma PromoteKeys(m: Memory, s: Node, root: Node, c: Path, t: Tree, seg: Path, sub: Tree)
    requires View(m, s, root, c, t) && Leftmost(t, seg, sub)
    ensures
      var d := Beyond'(seg, t, c, sub.node, sub.key);
      && t.node !in PathNodes(d) + Nodes(sub.right) + {s}
      && (m.Keys == Nodes(Plug(c, t)) + {s} ==> m.Keys == PathNodes(d) + Nodes(sub.right) + {s, t.node})
  {
    hide Items, Before, After, HoldsPath;
    PlugNodes(c, t);
    PlugNodes(seg, sub);
    AppendParts(seg, InRight(sub.node, t.red, sub.key, t.left, c));
  }

  lemma EmptiedRoot(m: Memory, m': Memory, s: Node, root: Node, t: Tree, rest: Tree)
    requires View(m, s, root, Top, Blacken(rest)) && t.Branch? && t.node !in Nodes(rest) + {s}
    requires Balanced(rest) && m' == m - {t.node}
    ensures View(m', s, root, Top, Blacken(rest))
    ensures Balanced(Blacken(rest)) && !Red(Blacken(rest))
  {
    BlackenSame(rest);
    Discard(m, m', s, root, Top, Blacken(rest), t.node);
  }
}
