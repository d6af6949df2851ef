// The red-black tree of ngx_rbtree.c, rewired in place in a store of node records. The
// sentinel is one shared black record, and the root's parent field is never trusted.

module RbTree {
  import opened RbShape
  import opened RbBalance
  import opened RbWrites
  import opened RbDelete
  import opened RbInsert

  class RbTree {
    var mem: Memory
    var root: Node
    const sentinel: Node
    ghost var tree: Tree

    // ngx_rbtree_init
    constructor (s: Node)
      requires s != NULL
      ensures Valid() && tree == Leaf && sentinel == s
    {
      mem := map[s := Cell(0, NULL, NULL, NULL, false)];
      root, sentinel := s, s;
      tree := Leaf;
    }

    ghost predicate At(c: Path, t: Tree)
      reads this
    {
      View(mem, sentinel, root, c, t)
    }

    ghost predicate Valid()
      reads this
    {
      Sound(Items(tree)) && Sorted(Items(tree))
    }

    ghost predicate Sound(items: seq<Item>)
      reads this
    {
      && At(Top, tree) && mem.Keys == Nodes(tree) + {sentinel}
      && Balanced(tree) && !Red(tree) && Items(tree) == items
    }

    method LeftRotate(node: Node, ghost c: Path, ghost t: Tree)
      requires At(c, t) && CanRotateLeft(t) && t.node == node
      modifies `mem, `root
      ensures At(c, RotatedLeft(t)) && mem.Keys == old(mem.Keys)
      ensures sentinel in old(mem) && mem[sentinel] == old(mem[sentinel])
    {
      hide View, Holds, HoldsPath, Nodes, PathNodes, Proper, ProperPath, RotatedLeft, WritesRotateLeft;
      Hanging(mem, sentinel, root, c, t);
      LeftRotateReads(mem, sentinel, root, c, t);
      var temp := mem[node].right;
      mem := WithRight(mem, node, mem[temp].left);
      if mem[temp].left != sentinel {
        mem := WithParent(mem, mem[temp].left, node);
      }
      ghost var m2 := mem;
      mem := WithParent(mem, temp, mem[node].parent);
      if node == root {
        root := temp;
      } else if node == mem[mem[node].parent].left {
        mem := WithLeft(mem, mem[node].parent, temp);
      } else {
        mem := WithRight(mem, mem[node].parent, temp);
      }
      ghost var m4 := mem;
      mem := WithLeft(mem, temp, node);
      mem := WithParent(mem, node, temp);
      RotateLeftWrites(old(mem), m2, m4, mem, sentinel, old(root), c, t);
      RotateLeftView(old(mem), mem, sentinel, old(root), root, c, t);
    }

    method RightRotate(node: Node, ghost c: Path, ghost t: Tree)
      requires At(c, t) && CanRotateRight(t) && t.node == node
      modifies `mem, `root
      ensures At(c, RotatedRight(t)) && mem.Keys == old(mem.Keys)
      ensures sentinel in old(mem) && mem[sentinel] == old(mem[sentinel])
    {
      hide View, Holds, HoldsPath, Nodes, PathNodes, Proper, ProperPath, RotatedRight, WritesRotateRight;
      Hanging(mem, sentinel, root, c, t);
      RightRotateReads(mem, sentinel, root, c, t);
      var temp := mem[node].left;
      mem := WithLeft(mem, node, mem[temp].right);
      if mem[temp].right != sentinel {
        mem := WithParent(mem, mem[temp].right, node);
      }
      ghost var m2 := mem;
      mem := WithParent(mem, temp, mem[node].parent);
      if node == root {
        root := temp;
      } else if node == mem[mem[node].parent].right {
        mem := WithRight(mem, mem[node].parent, temp);
      } else {
        mem := WithLeft(mem, mem[node].parent, temp);
      }
      ghost var m4 := mem;
      mem := WithRight(mem, temp, node);
      mem := WithParent(mem, node, temp);
      RotateRightWrites(old(mem), m2, m4, mem, sentinel, old(root), c, t);
      RotateRightView(old(mem), mem, sentinel, old(root), root, c, t);
    }

    // One turn of the loop of Insert when the parent is a left child.
    method InsertFixLeft(x: Node, ghost c: Path, ghost t: Tree, ghost items: seq<Item>)
        returns (node: Node, ghost c': Path, ghost t': Tree)
      requires Rising(mem, sentinel, root, c, t, items) && t.Branch? && t.node == x
      requires !c.Top? && c.red && c.up.InLeft?
      modifies `mem, `root
      ensures Rising(mem, sentinel, root, c', t', items) && t'.Branch? && t'.node == node
      ensures mem.Keys == old(mem.Keys) && Depth(c') < Depth(c)
    {
      ghost var s, g, p := sentinel, c.up, Join(c, t);
      Family(mem, s, root, c, t);
      hide View, Nodes, PathNodes, Proper, ProperPath, Items, Before, After, RotatedLeft, RotatedRight, Balanced, Fits;
      node := x;
      var temp := mem[mem[mem[node].parent].parent].right;
      if mem[temp].red {
        mem := WithRed(mem, mem[node].parent, false);
        mem := WithRed(mem, temp, false);
        mem := WithRed(mem, mem[mem[node].parent].parent, true);
        node := mem[mem[node].parent].parent;
        c', t' := g.up, Recoloured(c, t);
        RecolourStep(old(mem), mem, s, root, c, t, items);
      } else {
        if node == mem[mem[node].parent].right {
          node := mem[node].parent;
          LeftRotate(node, g, p);
          p := Unbent(c, t);
          StraightInner(old(mem), mem, s, old(root), root, c, t, items);
        } else {
          StraightOuter(mem, s, root, c, t, items);
        }
        ghost var r;
        r := TurnRight(node, g, p, items);
        c', t' := InLeft(r.node, r.red, r.key, r.right, g.up), p.left;
      }
    }

    // The last lines of that turn: two colours and a rotation.
    method TurnRight(node: Node, ghost c: Path, ghost p: Tree, ghost items: seq<Item>) returns (ghost r: Tree)
      requires Straight(mem, sentinel, root, c, p, items) && c.InLeft? && p.left.node == node
      modifies `mem, `root
      ensures r.Branch? && r.left == p.left
      ensures Rising(mem, sentinel, root, InLeft(r.node, r.red, r.key, r.right, c.up), p.left, items)
      ensures mem.Keys == old(mem.Keys)
    {
      MoveLeft(mem, sentinel, root, c, p);
      Family(mem, sentinel, root, InLeft(p.node, p.red, p.key, p.right, c), p.left);
      mem := WithRed(mem, mem[node].parent, false);
      mem := WithRed(mem, mem[mem[node].parent].parent, true);
      PaintedView(old(mem), mem, sentinel, root, c, p, items);
      RightRotate(mem[mem[node].parent].parent, c.up, Painted(c, p));
      TurnedRight(old(mem), mem, sentinel, old(root), root, c, p, items);
      r := RotatedRight(Painted(c, p));
    }

    // One turn of the loop of Insert when the parent is a right child.
    method InsertFixRight(x: Node, ghost c: Path, ghost t: Tree, ghost items: seq<Item>)
        returns (node: Node, ghost c': Path, ghost t': Tree)
      requires Rising(mem, sentinel, root, c, t, items) && t.Branch? && t.node == x
      requires !c.Top? && c.red && c.up.InRight?
      modifies `mem, `root
      ensures Rising(mem, sentinel, root, c', t', items) && t'.Branch? && t'.node == node
      ensures mem.Keys == old(mem.Keys) && Depth(c') < Depth(c)
    {
      ghost var s, g, p := sentinel, c.up, Join(c, t);
      Family(mem, s, root, c, t);
      hide View, Nodes, PathNodes, Proper, ProperPath, Items, Before, After, RotatedLeft, RotatedRight, Balanced, Fits;
      node := x;
      var temp := mem[mem[mem[node].parent].parent].left;
      if mem[temp].red {
        mem := WithRed(mem, mem[node].parent, false);
        mem := WithRed(mem, temp, false);
        mem := WithRed(mem, mem[mem[node].parent].parent, true);
        node := mem[mem[node].parent].parent;
        c', t' := g.up, Recoloured(c, t);
        RecolourStep(old(mem), mem, s, root, c, t, items);
      } else {
        if node == mem[mem[node].parent].left {
          node := mem[node].parent;
          RightRotate(node, g, p);
          p := Unbent(c, t);
          StraightInner(old(mem), mem, s, old(root), root, c, t, items);
        } else {
          StraightOuter(mem, s, root, c, t, items);
        }
        ghost var r;
        r := TurnLeft(node, g, p, items);
        c', t' := InRight(r.node, r.red, r.key, r.left, g.up), p.right;
      }
    }

    // The last lines of that turn: two colours and a rotation.
    method TurnLeft(node: Node, ghost c: Path, ghost p: Tree, ghost items: seq<Item>) returns (ghost r: Tree)
      requires Straight(mem, sentinel, root, c, p, items) && c.InRight? && p.right.node == node
      modifies `mem, `root
      ensures r.Branch? && r.right == p.right
      ensures Rising(mem, sentinel, root, InRight(r.node, r.red, r.key, r.left, c.up), p.right, items)
      ensures mem.Keys == old(mem.Keys)
    {
      MoveRight(mem, sentinel, root, c, p);
      Family(mem, sentinel, root, InRight(p.node, p.red, p.key, p.left, c), p.right);
      mem := WithRed(mem, mem[node].parent, false);
      mem := WithRed(mem, mem[mem[node].parent].parent, true);
      PaintedView(old(mem), mem, sentinel, root, c, p, items);
      LeftRotate(mem[mem[node].parent].parent, c.up, Painted(c, p));
      TurnedLeft(old(mem), mem, sentinel, old(root), root, c, p, items);
      r := RotatedLeft(Painted(c, p));
    }

    // The loop of ngx_rbtree_insert_value: where a key hangs.
    method FindSlot(temp0: Node, key: nat) returns (temp: Node, left: bool, ghost c: Path)
      requires At(Top, tree) && tree.Branch? && Sorted(Items(tree)) && temp0 == root
      ensures At(c, Leaf) && Plug(c, Leaf) == tree && Between(c, key)
      ensures !c.Top? && c.node == temp && (left <==> c.InLeft?)
    {
      temp := temp0;
      c := Top;
      ghost var t := tree;
      assert Plug(c, t) == tree && Between(c, key) && root == tree.node;
      hide View, Nodes, PathNodes, Between, Sorted, Plug;
      while true
        invariant At(c, t) && t.Branch? && t.node == temp && Plug(c, t) == tree
        invariant Between(c, key) && Sorted(Items(t))
        decreases t
      {
        TopCell(mem, sentinel, root, c, t);
        DescendStep(mem, sentinel, root, c, t, key);
        left := key < mem[temp].key;
        var p := if left then mem[temp].left else mem[temp].right;
        c, t := Descended(c, t, left), Child(t, left);
        TopCell(mem, sentinel, root, c, t);
        if p == sentinel {
          break;
        }
        temp := p;
      }
    }

    // The last lines of the insert callbacks: the new red leaf.
    method Link(temp: Node, left: bool, node: Node, ghost c: Path)
      requires At(c, Leaf) && !c.Top? && c.node == temp && (left <==> c.InLeft?)
      requires node in mem && node !in PathNodes(c) && node != sentinel
      modifies `mem
      ensures At(c, Branch(Leaf, node, true, old(mem)[node].key, Leaf))
      ensures mem.Keys == old(mem.Keys)
    {
      LeafEnd(mem, sentinel, root, c);
      hide View, Nodes, PathNodes, Plug;
      mem := if left then WithLeft(mem, temp, node) else WithRight(mem, temp, node);
      assert mem == WithChild(old(mem), c, node);
      mem := WithParent(mem, node, temp);
      mem := WithLeft(mem, node, sentinel);
      mem := WithRight(mem, node, sentinel);
      mem := WithRed(mem, node, true);
      Attached(old(mem), mem, sentinel, root, c, node);
    }

    // The only node of a tree becomes its black root.
    method InsertFirst(node: Node, cell: Cell)
      requires Valid() && root == sentinel && node !in mem && node != NULL
      modifies this
      ensures Valid() && mem.Keys == old(mem.Keys) + {node}
      ensures old(tree) == Leaf && Items(tree) == [Item(node, cell.key)]
    {
      TopCell(mem, sentinel, root, Top, tree);
      mem := mem[node := cell];
      ViewFrame(old(mem), mem, sentinel, root, Top, tree);
      ghost var m := mem;
      mem := WithParent(mem, node, NULL);
      mem := WithLeft(mem, node, sentinel);
      mem := WithRight(mem, node, sentinel);
      mem := WithRed(mem, node, false);
      root := node;
      tree := Branch(Leaf, node, false, mem[node].key, Leaf);
      SingleNode(m, mem, sentinel, node, mem[node].key);
    }

    // The loop that moves a red pair up, and the last line that blackens the root.
    method Rebalance(node: Node, ghost c0: Path, ghost t0: Tree, ghost items: seq<Item>)
      requires Rising(mem, sentinel, root, c0, t0, items) && t0.Branch? && t0.node == node && Sorted(items)
      modifies this
      ensures Valid() && Items(tree) == items && mem.Keys == old(mem.Keys)
    {
      hide View, Balanced, Items, Sorted, Rising, Nodes, PathNodes, BlackHeight, Red;
      var x := node;
      ghost var c, t := c0, t0;
      RedParent(mem, sentinel, root, c, t, items);
      while x != root && mem[mem[x].parent].red
        invariant Rising(mem, sentinel, root, c, t, items) && t.Branch? && t.node == x
        invariant x in mem && (c.Top? <==> x == root)
        invariant !c.Top? ==> mem[x].parent == c.node && c.node in mem && mem[c.node].red == c.red
        invariant mem.Keys == old(mem.Keys)
        decreases Depth(c)
      {
        RedParent(mem, sentinel, root, c, t, items);
        if mem[x].parent == mem[mem[mem[x].parent].parent].left {
          x, c, t := InsertFixLeft(x, c, t, items);
        } else {
          x, c, t := InsertFixRight(x, c, t, items);
        }
        RedParent(mem, sentinel, root, c, t, items);
      }
      RootInMemory(mem, sentinel, root, c, t, items);
      ghost var m := mem;
      mem := WithRed(mem, root, false);
      tree := BlackRoot(m, mem, sentinel, root, c, t, items);
    }

    // ngx_rbtree_insert below a given slot. The caller owns the record `cell` and has set its key.
    method InsertAt(temp: Node, left: bool, node: Node, cell: Cell, ghost c: Path)
      requires Valid() && node !in mem && node != NULL
      requires At(c, Leaf) && Plug(c, Leaf) == tree && !c.Top? && c.node == temp && (left <==> c.InLeft?)
      requires Sorted(Before(c) + [Item(node, cell.key)] + After(c))
      modifies this
      ensures Valid() && mem.Keys == old(mem.Keys) + {node}
      ensures Items(tree) == Before(c) + [Item(node, cell.key)] + After(c)
    {
      hide View, Nodes, PathNodes, Balanced, Sorted, Plug, Items, Rising, Red;
      LeafEnd(mem, sentinel, root, c);
      mem := mem[node := cell];
      NullOutside(old(mem), sentinel, root, c, Leaf);
      LeafFrame(old(mem), mem, sentinel, root, c);
      Link(temp, left, node, c);
      StartRising(mem, sentinel, root, tree, c, node, cell.key);
      Rebalance(node, c, Branch(Leaf, node, true, cell.key, Leaf), Before(c) + [Item(node, cell.key)] + After(c));
    }

    // ngx_rbtree_insert with ngx_rbtree_insert_value.
    method Insert(node: Node, cell: Cell)
      requires Valid() && node !in mem && node != NULL
      modifies this
      ensures Valid() && mem.Keys == old(mem.Keys) + {node}
      ensures Items(tree) == Inserted(old(Items(tree)), Item(node, cell.key))
    {
      TopCell(mem, sentinel, root, Top, tree);
      if root == sentinel {
        InsertFirst(node, cell);
        assert Inserted([], Item(node, cell.key)) == [Item(node, cell.key)];
        return;
      }
      InsertedSorted(Items(tree), Item(node, cell.key));
      var temp, left;
      ghost var c;
      temp, left, c := FindSlot(root, cell.key);
      SlotItems(c, node, cell.key);
      InsertAt(temp, left, node, cell, c);
    }

    // Case 1 of the fixup: a red sibling on the right is rotated above the parent.
    method LowerLeft(temp: Node, w: Node, ghost c: Path, ghost t: Tree, ghost items: seq<Item>)
      requires Sinking(mem, sentinel, root, c, t, items) && temp == Pointer(sentinel, t)
      requires c.InLeft? && !Red(t) && Red(c.sibling) && w == c.sibling.node
      modifies `mem, `root
      ensures Sinking(mem, sentinel, root, Lowered(c), t, items) && !Red(Lowered(c).sibling)
      ensures mem.Keys == old(mem.Keys)
    {
      hide View, Sinking, Balanced, BlackHeight, Items, Nodes, PathNodes, Before, After, Fits;
      SiblingReads(mem, sentinel, root, c, t, items);
      ghost var p := Join(c, t);
      mem := WithRed(mem, w, false);
      mem := WithRed(mem, mem[temp].parent, true);
      RecolourRight(old(mem), mem, sentinel, root, c.up, p, false, true);
      LeftRotate(mem[temp].parent, c.up, p.(right := p.right.(red := false), red := true));
      LoweredSinks(old(mem), mem, sentinel, old(root), root, c, t, items);
    }

    // Case 3 of the fixup: the near child of a black sibling is rotated above it.
    method TurnSiblingLeft(temp: Node, w: Node, ghost c: Path, ghost t: Tree, ghost items: seq<Item>)
      requires Sinking(mem, sentinel, root, c, t, items) && temp == Pointer(sentinel, t)
      requires c.InLeft? && !Red(t) && c.sibling.Branch? && !c.sibling.red && w == c.sibling.node
      requires Red(Near(c)) && !Red(Far(c))
      modifies `mem, `root
      ensures Sinking(mem, sentinel, root, Turned(c), t, items)
      ensures !Turned(c).sibling.red && Red(Far(Turned(c)))
      ensures mem.Keys == old(mem.Keys)
    {
      hide View, Sinking, Balanced, BlackHeight, Items, Nodes, PathNodes, Before, After, Fits;
      SiblingReads(mem, sentinel, root, c, t, items);
      ghost var v := c.sibling;
      mem := WithRed(mem, mem[w].left, false);
      mem := WithRed(mem, w, true);
      TurnedPaint(old(mem), mem, sentinel, root, c, t);
      RightRotate(w, BesideSibling(c, t), v.(left := v.left.(red := false), red := true));
      TurnedSinks(old(mem), mem, sentinel, old(root), root, c, t, items);
    }

    // Case 4 of the fixup: the parent and the far child turn black, and the loop ends.
    method RepayLeft(temp0: Node, w: Node, ghost c: Path, ghost t: Tree, ghost items: seq<Item>)
        returns (temp: Node, ghost t': Tree)
      requires Sinking(mem, sentinel, root, c, t, items) && temp0 == Pointer(sentinel, t)
      requires c.InLeft? && !Red(t) && c.sibling.Branch? && !c.sibling.red && w == c.sibling.node
      requires Red(Far(c))
      modifies `mem, `root
      ensures Sinking(mem, sentinel, root, Top, t', items) && temp == Pointer(sentinel, t')
      ensures mem.Keys == old(mem.Keys)
    {
      hide View, Sinking, Balanced, BlackHeight, Items, Nodes, PathNodes, Before, After, Fits;
      SiblingReads(mem, sentinel, root, c, t, items);
      temp := temp0;
      mem := WithRed(mem, w, mem[mem[temp].parent].red);
      mem := WithRed(mem, mem[temp].parent, false);
      mem := WithRed(mem, mem[w].right, false);
      LentPaint(old(mem), mem, sentinel, root, c, t);
      LeftRotate(mem[temp].parent, c.up, Lent(c, t));
      RepaidSinks(old(mem), mem, sentinel, old(root), root, c, t, items);
      t' := Plug(c.up, Repaid(c, t));
      temp := root;
    }

    // One turn of the fixup loop when the short subtree is a left child.
    method DeleteFixLeft(temp0: Node, ghost c: Path, ghost t: Tree, ghost items: seq<Item>)
        returns (temp: Node, ghost c': Path, ghost t': Tree)
      requires Sinking(mem, sentinel, root, c, t, items) && temp0 == Pointer(sentinel, t)
      requires c.InLeft? && !Red(t)
      modifies `mem, `root
      ensures Sinking(mem, sentinel, root, c', t', items) && temp == Pointer(sentinel, t')
      ensures mem.Keys == old(mem.Keys) && Measure(c', t') < Measure(c, t)
    {
      hide View, Sinking, Balanced, BlackHeight, Items, Nodes, PathNodes, Before, After, Fits;
      SiblingReads(mem, sentinel, root, c, t, items);
      temp := temp0;
      var w := mem[mem[temp].parent].right;
      ghost var d := c;
      if mem[w].red {
        LowerLeft(temp, w, c, t, items);
        d := Lowered(c);
        SiblingReads(mem, sentinel, root, d, t, items);
        w := mem[mem[temp].parent].right;
      }
      temp, c', t' := PassBlackSiblingLeft(temp, w, d, t, items);
    }

    // The rest of that turn, below a black sibling.
    method PassBlackSiblingLeft(temp0: Node, w0: Node, ghost c: Path, ghost t: Tree, ghost items: seq<Item>)
        returns (temp: Node, ghost c': Path, ghost t': Tree)
      requires Sinking(mem, sentinel, root, c, t, items) && temp0 == Pointer(sentinel, t)
      requires c.InLeft? && !Red(t) && c.sibling.Branch? && !c.sibling.red && w0 == c.sibling.node
      modifies `mem, `root
      ensures Sinking(mem, sentinel, root, c', t', items) && temp == Pointer(sentinel, t')
      ensures mem.Keys == old(mem.Keys)
      ensures Measure(c', t') < Measure(c, t) && (c.red ==> Measure(c', t') <= 1)
    {
      hide View, Sinking, Balanced, BlackHeight, Items, Nodes, PathNodes, Before, After, Fits;
      SiblingReads(mem, sentinel, root, c, t, items);
      temp := temp0;
      var w := w0;
      if !mem[mem[w].left].red && !mem[mem[w].right].red {
        mem := WithRed(mem, w, true);
        temp := mem[temp].parent;
        c', t' := c.up, Merged(c, t);
        MergedSinks(old(mem), mem, sentinel, root, c, t, items);
      } else {
        ghost var d := c;
        if !mem[mem[w].right].red {
          TurnSiblingLeft(temp, w, c, t, items);
          d := Turned(c);
          SiblingReads(mem, sentinel, root, d, t, items);
          w := mem[mem[temp].parent].right;
        }
        c' := Top;
        temp, t' := RepayLeft(temp, w, d, t, items);
      }
    }

    // Case 1 of the fixup: a red sibling on the left is rotated above the parent.
    method LowerRight(temp: Node, w: Node, ghost c: Path, ghost t: Tree, ghost items: seq<Item>)
      requires Sinking(mem, sentinel, root, c, t, items) && temp == Pointer(sentinel, t)
      requires c.InRight? && !Red(t) && Red(c.sibling) && w == c.sibling.node
      modifies `mem, `root
      ensures Sinking(mem, sentinel, root, Lowered(c), t, items) && !Red(Lowered(c).sibling)
      ensures mem.Keys == old(mem.Keys)
    {
      hide View, Sinking, Balanced, BlackHeight, Items, Nodes, PathNodes, Before, After, Fits;
      SiblingReads(mem, sentinel, root, c, t, items);
      ghost var p := Join(c, t);
      mem := WithRed(mem, w, false);
      mem := WithRed(mem, mem[temp].parent, true);
      RecolourLeft(old(mem), mem, sentinel, root, c.up, p, false, true);
      RightRotate(mem[temp].parent, c.up, p.(left := p.left.(red := false), red := true));
      LoweredSinks(old(mem), mem, sentinel, old(root), root, c, t, items);
    }

    // Case 3 of the fixup: the near child of a black sibling is rotated above it.
    method TurnSiblingRight(temp: Node, w: Node, ghost c: Path, ghost t: Tree, ghost items: seq<Item>)
      requires Sinking(mem, sentinel, root, c, t, items) && temp == Pointer(sentinel, t)
      requires c.InRight? && !Red(t) && c.sibling.Branch? && !c.sibling.red && w == c.sibling.node
      requires Red(Near(c)) && !Red(Far(c))
      modifies `mem, `root
      ensures Sinking(mem, sentinel, root, Turned(c), t, items)
      ensures !Turned(c).sibling.red && Red(Far(Turned(c)))
      ensures mem.Keys == old(mem.Keys)
    {
      hide View, Sinking, Balanced, BlackHeight, Items, Nodes, PathNodes, Before, After, Fits;
      SiblingReads(mem, sentinel, root, c, t, items);
      ghost var v := c.sibling;
      mem := WithRed(mem, mem[w].right, false);
      mem := WithRed(mem, w, true);
      TurnedPaint(old(mem), mem, sentinel, root, c, t);
      LeftRotate(w, BesideSibling(c, t), v.(right := v.right.(red := false), red := true));
      TurnedSinks(old(mem), mem, sentinel, old(root), root, c, t, items);
    }

    // Case 4 of the fixup: the parent and the far child turn black, and the loop ends.
    method RepayRight(temp0: Node, w: Node, ghost c: Path, ghost t: Tree, ghost items: seq<Item>)
        returns (temp: Node, ghost t': Tree)
      requires Sinking(mem, sentinel, root, c, t, items) && temp0 == Pointer(sentinel, t)
      requires c.InRight? && !Red(t) && c.sibling.Branch? && !c.sibling.red && w == c.sibling.node
      requires Red(Far(c))
      modifies `mem, `root
      ensures Sinking(mem, sentinel, root, Top, t', items) && temp == Pointer(sentinel, t')
      ensures mem.Keys == old(mem.Keys)
    {
      hide View, Sinking, Balanced, BlackHeight, Items, Nodes, PathNodes, Before, After, Fits;
      SiblingReads(mem, sentinel, root, c, t, items);
      temp := temp0;
      mem := WithRed(mem, w, mem[mem[temp].parent].red);
      mem := WithRed(mem, mem[temp].parent, false);
      mem := WithRed(mem, mem[w].left, false);
      LentPaint(old(mem), mem, sentinel, root, c, t);
      RightRotate(mem[temp].parent, c.up, Lent(c, t));
      RepaidSinks(old(mem), mem, sentinel, old(root), root, c, t, items);
      t' := Plug(c.up, Repaid(c, t));
      temp := root;
    }

    // One turn of the fixup loop when the short subtree is a right child.
    method DeleteFixRight(temp0: Node, ghost c: Path, ghost t: Tree, ghost items: seq<Item>)
        returns (temp: Node, ghost c': Path, ghost t': Tree)
      requires Sinking(mem, sentinel, root, c, t, items) && temp0 == Pointer(sentinel, t)
      requires c.InRight? && !Red(t)
      modifies `mem, `root
      ensures Sinking(mem, sentinel, root, c', t', items) && temp == Pointer(sentinel, t')
      ensures mem.Keys == old(mem.Keys) && Measure(c', t') < Measure(c, t)
    {
      hide View, Sinking, Balanced, BlackHeight, Items, Nodes, PathNodes, Before, After, Fits;
      SiblingReads(mem, sentinel, root, c, t, items);
      temp := temp0;
      var w := mem[mem[temp].parent].left;
      ghost var d := c;
      if mem[w].red {
        LowerRight(temp, w, c, t, items);
        d := Lowered(c);
        SiblingReads(mem, sentinel, root, d, t, items);
        w := mem[mem[temp].parent].left;
      }
      temp, c', t' := PassBlackSiblingRight(temp, w, d, t, items);
    }

    // The rest of that turn, below a black sibling.
    method PassBlackSiblingRight(temp0: Node, w0: Node, ghost c: Path, ghost t: Tree, ghost items: seq<Item>)
        returns (temp: Node, ghost c': Path, ghost t': Tree)
      requires Sinking(mem, sentinel, root, c, t, items) && temp0 == Pointer(sentinel, t)
      requires c.InRight? && !Red(t) && c.sibling.Branch? && !c.sibling.red && w0 == c.sibling.node
      modifies `mem, `root
      ensures Sinking(mem, sentinel, root, c', t', items) && temp == Pointer(sentinel, t')
      ensures mem.Keys == old(mem.Keys)
      ensures Measure(c', t') < Measure(c, t) && (c.red ==> Measure(c', t') <= 1)
    {
      hide View, Sinking, Balanced, BlackHeight, Items, Nodes, PathNodes, Before, After, Fits;
      SiblingReads(mem, sentinel, root, c, t, items);
      temp := temp0;
      var w := w0;
      if !mem[mem[w].left].red && !mem[mem[w].right].red {
        mem := WithRed(mem, w, true);
        temp := mem[temp].parent;
        c', t' := c.up, Merged(c, t);
        MergedSinks(old(mem), mem, sentinel, root, c, t, items);
      } else {
        ghost var d := c;
        if !mem[mem[w].left].red {
          TurnSiblingRight(temp, w, c, t, items);
          d := Turned(c);
          SiblingReads(mem, sentinel, root, d, t, items);
          w := mem[mem[temp].parent].left;
        }
        c' := Top;
        temp, t' := RepayRight(temp, w, d, t, items);
      }
    }


    // ngx_rbtree_min
    method Min(node0: Node, ghost c: Path, ghost t: Tree) returns (node: Node, ghost seg: Path, ghost sub: Tree)
      requires At(c, t) && t.Branch? && t.node == node0
      ensures sub.Branch? && sub.left.Leaf? && sub.node == node
      ensures Plug(seg, sub) == t && Before(seg) == []
    {
      node := node0;
      seg, sub := Top, t;
      while true
        invariant sub.Branch? && sub.node == node && Plug(seg, sub) == t && Before(seg) == []
        decreases sub
      {
        MoveDown(mem, sentinel, root, seg, c, sub);
        TopCell(mem, sentinel, root, Append(seg, c), sub);
        assert Plug(InLeft(sub.node, sub.red, sub.key, sub.right, seg), sub.left) == t;
        MoveDown(mem, sentinel, root, InLeft(sub.node, sub.red, sub.key, sub.right, seg), c, sub.left);
        TopCell(mem, sentinel, root, Append(InLeft(sub.node, sub.red, sub.key, sub.right, seg), c), sub.left);
        if mem[node].left == sentinel {
          break;
        }
        node := mem[node].left;
        seg, sub := InLeft(sub.node, sub.red, sub.key, sub.right, seg), sub.left;
      }
    }

    // The loop of ngx_rbtree_next: up to the first node left behind on the way.
    method Climb(node0: Node, ghost c0: Path, ghost t0: Tree) returns (next: Node)
      requires At(c0, t0) && t0.Branch? && t0.node == node0
      ensures next == if After(c0) == [] then NULL else After(c0)[0].node
    {
      var node := node0;
      ghost var c, t := c0, t0;
      while true
        invariant At(c, t) && t.Branch? && t.node == node && After(c) == After(c0)
        decreases c
      {
        Hanging(mem, sentinel, root, c, t);
        var parent := mem[node].parent;
        if node == root {
          return NULL;
        }
        if node == mem[parent].left {
          return parent;
        }
        MoveUp(mem, sentinel, root, c, t);
        node, t, c := parent, Join(c, t), c.up;
      }
    }

    // ngx_rbtree_next; NULL after the last node.
    method Next(node: Node) returns (next: Node)
      requires Valid() && node in Nodes(tree)
      ensures Follows(Items(tree), node, next)
    {
      hide View, Balanced, Sorted;
      ghost var c, t := Focus(tree, node);
      MoveDown(mem, sentinel, root, c, Top, t);
      AppendTop(c);
      TopCell(mem, sentinel, root, c, t);
      PlugItems(c, t);
      Split5(Before(c), Items(t.left), [Item(t.node, t.key)], Items(t.right), After(c));
      ghost var i := |Before(c)| + |Items(t.left)|;
      assert Items(tree)[i] == Item(t.node, t.key);
      if mem[node].right != sentinel {
        ghost var seg, sub;
        MoveRight(mem, sentinel, root, c, t);
        next, seg, sub := Min(mem[node].right, InRight(t.node, t.red, t.key, t.left, c), t.right);
        PlugItems(seg, sub);
        assert Items(tree)[i + 1] == Items(t.right)[0] == Item(sub.node, sub.key);
        return;
      }
      next := Climb(node, c, t);
      assert After(c) != [] ==> Items(tree)[i + 1] == After(c)[0];
    }

    // From the leftmost node on, ngx_rbtree_next visits every node once, in order.
    method Walk() returns (nodes: seq<Node>)
      requires Valid()
      ensures |nodes| == |Items(tree)| && forall i :: 0 <= i < |nodes| ==> nodes[i] == Items(tree)[i].node
      ensures forall i, j :: 0 <= i < j < |nodes| ==> nodes[i] != nodes[j]
    {
      hide View, Balanced, Sorted, Items, Nodes, Red, Proper, Plug, Before, Follows;
      nodes := [];
      Ends(mem, sentinel, root, tree);
      if root == sentinel {
        return;
      }
      ghost var seg, sub;
      var node;
      node, seg, sub := Min(root, Top, tree);
      FirstItem(seg, sub);
      while node != NULL
        invariant |nodes| <= |Items(tree)|
        invariant forall i :: 0 <= i < |nodes| ==> nodes[i] == Items(tree)[i].node
        invariant node == if |nodes| < |Items(tree)| then Items(tree)[|nodes|].node else NULL
        decreases |Items(tree)| - |nodes|
      {
        ItemNode(tree, |nodes|);
        var next := Next(node);
        NextItem(tree, |nodes|, node, next);
        nodes := nodes + [node];
        node := next;
      }
      ghost var k := |nodes|;
      if k < |Items(tree)| {
        RealItem(mem, sentinel, root, tree, k);
        assert false;
      }
      forall i, j | 0 <= i < j < |nodes|
        ensures nodes[i] != nodes[j]
      {
        ItemsDistinct(tree, i, j);
      }
    }

    // The leftmost node of the right subtree is cut out and takes the place of `node`.
    method Promote(node: Node, subst: Node, temp: Node, ghost c: Path, ghost t: Tree, ghost seg: Path, ghost sub: Tree)
      requires At(c, t) && Leftmost(t, seg, sub)
      requires t.node == node && sub.node == subst && temp == Pointer(sentinel, sub.right)
      modifies `mem, `root
      ensures At(Beyond'(seg, t, c, subst, sub.key), sub.right) && mem.Keys == old(mem.Keys)
      ensures temp in mem && mem[temp].parent == Parent(Beyond'(seg, t, c, subst, sub.key))
    {
      ghost var d := Beyond(seg, t, c);
      LeftmostView(mem, sentinel, root, c, t, seg, sub);
      Hanging(mem, sentinel, root, d, sub);
      TopCell(mem, sentinel, root, d, sub);
      AppendParts(seg, InRight(t.node, t.red, t.key, t.left, c));
      ghost var above := CutOut(node, subst, temp, c, t, seg, sub);
      ghost var m2 := mem;
      TakePlace(node, subst, c, t, Plug(seg, sub.right), above);
      Promoted(m2, mem, sentinel, root, c, t, seg, sub);
    }

    // The first half: `temp` takes the place of `subst`.
    method CutOut(node: Node, subst: Node, temp: Node, ghost c: Path, ghost t: Tree, ghost seg: Path, ghost sub: Tree)
        returns (ghost above: Node)
      requires At(c, t) && Leftmost(t, seg, sub)
      requires t.node == node && sub.node == subst && temp == Pointer(sentinel, sub.right)
      modifies `mem
      ensures Replaceable(mem, sentinel, root, c, t.node, t.key, t.red, t.left, Plug(seg, sub.right), above, subst)
      ensures temp in mem && mem[temp].parent == if seg.Top? then subst else seg.node
      ensures mem.Keys == old(mem.Keys) && mem[subst].key == sub.key && sentinel in mem
    {
      ghost var d := Beyond(seg, t, c);
      LeftmostView(mem, sentinel, root, c, t, seg, sub);
      Hanging(mem, sentinel, root, d, sub);
      TopCell(mem, sentinel, root, d, sub);
      hide View, Nodes, PathNodes, Plug, Before, Replaceable, Holds, HoldsPath;
      if subst == mem[mem[subst].parent].left {
        mem := WithLeft(mem, mem[subst].parent, temp);
      } else {
        mem := WithRight(mem, mem[subst].parent, temp);
      }
      if mem[subst].parent == node {
        mem := WithParent(mem, temp, subst);
      } else {
        mem := WithParent(mem, temp, mem[subst].parent);
      }
      if seg.Top? {
        above := subst;
        CutNear(old(mem), mem, sentinel, root, c, t, sub);
      } else {
        above := node;
        CutDeep(old(mem), mem, sentinel, root, c, t, seg, sub);
      }
    }

    method TakeLinks(node: Node, subst: Node)
      requires node in mem && subst in mem && subst != node
      modifies `mem
      ensures mem == TakeOver(old(mem), subst, node)
    {
      mem := WithLeft(mem, subst, mem[node].left);
      mem := WithRight(mem, subst, mem[node].right);
      mem := WithParent(mem, subst, mem[node].parent);
      mem := WithRed(mem, subst, mem[node].red);
    }

    // The second half: `subst` takes the links and the colour of `node`.
    method TakePlace(node: Node, subst: Node, ghost c: Path, ghost t: Tree, ghost r: Tree, ghost above: Node)
      requires t.Branch? && t.node == node
      requires Replaceable(mem, sentinel, root, c, node, t.key, t.red, t.left, r, above, subst)
      modifies `mem, `root
      ensures At(c, Branch(t.left, subst, t.red, old(mem)[subst].key, r))
      ensures mem.Keys == old(mem.Keys) && sentinel in old(mem) && mem[sentinel] == old(mem[sentinel])
    {
      hide View, Replaceable, HoldsPath, Holds, Nodes, PathNodes, Proper, ProperPath, WritesReplace;
      ReplaceReads(mem, sentinel, root, c, node, t.key, t.red, t.left, r, above, subst);
      TakeLinks(node, subst);
      if node == root {
        root := subst;
      } else {
        if node == mem[mem[node].parent].left {
          mem := WithLeft(mem, mem[node].parent, subst);
        } else {
          mem := WithRight(mem, mem[node].parent, subst);
        }
      }
      ghost var m1 := mem;
      assert m1 == WithChild(TakeOver(old(mem), subst, node), c, subst);
      if mem[subst].left != sentinel {
        mem := WithParent(mem, mem[subst].left, subst);
      }
      ghost var m2 := mem;
      assert m2 == Adopt(m1, t.left, subst);
      if mem[subst].right != sentinel {
        mem := WithParent(mem, mem[subst].right, subst);
      }
      assert mem == Adopt(m2, r, subst);
      ReplaceWrites(old(mem), mem, sentinel, old(root), c, node, t.key, t.red, t.left, r, above, subst);
      Replaced(old(mem), mem, sentinel, old(root), root, c, node, t.key, t.red, t.left, r, above, subst);
    }

    // The fixup loop of ngx_rbtree_delete and its last line.
    method Fixup(temp0: Node, ghost c0: Path, ghost t0: Tree, ghost items: seq<Item>)
      requires Sinking(mem, sentinel, root, c0, t0, items) && temp0 == Pointer(sentinel, t0)
      modifies this
      ensures Sound(items)
      ensures mem.Keys == old(mem.Keys)
    {
      hide View, Balanced, Items, Sinking, Nodes, PathNodes, BlackHeight, Red, Plug;
      var temp := temp0;
      ghost var c, t := c0, t0;
      SinkingReads(mem, sentinel, root, c, t, items);
      while temp != root && !mem[temp].red
        invariant Sinking(mem, sentinel, root, c, t, items) && temp == Pointer(sentinel, t)
        invariant temp in mem && mem[temp].red == Red(t) && (c.Top? <==> temp == root)
        invariant !c.Top? && !Red(t) ==>
                    mem[temp].parent == c.node && c.node in mem && (c.InLeft? <==> mem[c.node].left == temp)
        invariant mem.Keys == old(mem.Keys)
        decreases Measure(c, t)
      {
        if temp == mem[mem[temp].parent].left {
          temp, c, t := DeleteFixLeft(temp, c, t, items);
        } else {
          temp, c, t := DeleteFixRight(temp, c, t, items);
        }
        SinkingReads(mem, sentinel, root, c, t, items);
      }
      ghost var m := mem;
      mem := WithRed(mem, temp, false);
      Settles(m, mem, sentinel, root, c, t, items);
      tree := Plug(c, Blacken(t));
    }

    // The end of a deletion: the record leaves, and a red node leaves nothing to fix.
    method Conclude(node: Node, temp: Node, red: bool, ghost c: Path, ghost t: Tree, ghost items: seq<Item>)
      requires At(c, t) && !c.Top? && temp == Pointer(sentinel, t) && temp in mem && mem[temp].parent == c.node
      requires red ==> t.Leaf? && Fits(c, 0, false)
      requires !red ==>
                 Balanced(Blacken(t)) && Fits(c, BlackHeight(Blacken(t)) + (if Red(t) then 0 else 1), false)
      requires Before(c) + Items(t) + After(c) == items
      requires node !in PathNodes(c) + Nodes(t) + {sentinel}
      requires mem.Keys == PathNodes(c) + Nodes(t) + {sentinel, node}
      modifies this
      ensures Sound(items) && mem.Keys == old(mem.Keys) - {node}
    {
      mem := mem - {node};
      Discard(old(mem), mem, sentinel, root, c, t, node);
      TopCell(mem, sentinel, root, c, t);
      if red {
        Finished(mem, sentinel, root, c, t);
        tree := Plug(c, t);
        return;
      }
      StartSinking(mem, sentinel, root, c, t, items);
      Fixup(temp, c, t, items);
    }

    // The root has at most one child.
    method DeleteRoot(node: Node, temp: Node, ghost t: Tree, ghost rest: Tree)
      requires At(Top, t) && t.Branch? && t.node == node && temp == Pointer(sentinel, rest)
      requires (t.left.Leaf? && rest == t.right) || (t.right.Leaf? && rest == t.left)
      requires Balanced(rest) && mem.Keys == Nodes(rest) + {sentinel, node}
      modifies this
      ensures Sound(Items(rest)) && mem.Keys == old(mem.Keys) - {node}
    {
      SpliceKeys(mem, sentinel, root, Top, t, rest);
      root := temp;
      mem := WithRed(mem, temp, false);
      SpliceRoot(old(mem), mem, sentinel, old(root), t, rest);
      tree := Blacken(rest);
      ghost var m := mem;
      mem := mem - {node};
      EmptiedRoot(m, mem, sentinel, root, t, rest);
      BlackenSame(rest);
    }

    // A node with at most one child, `rest`, is cut out of the tree.
    method DeleteSingle(node: Node, temp: Node, ghost c: Path, ghost t: Tree, ghost rest: Tree, ghost items: seq<Item>)
      requires At(c, t) && t.Branch? && t.node == node && temp == Pointer(sentinel, rest)
      requires (t.left.Leaf? && rest == t.right) || (t.right.Leaf? && rest == t.left)
      requires Plug(c, t) == tree && Balanced(tree) && !Red(tree) && mem.Keys == Nodes(tree) + {sentinel}
      requires items == Before(c) + Items(t.left) + Items(t.right) + After(c)
      modifies this
      ensures Sound(items)
      ensures mem.Keys == old(mem.Keys) - {node}
    {
      hide View, Balanced, PathNodes, Fits, BlackHeight;
      TopCell(mem, sentinel, root, c, t);
      Hanging(mem, sentinel, root, c, t);
      SpliceKeys(mem, sentinel, root, c, t, rest);
      SpliceValues(c, t, rest);
      BlackenSame(rest);
      if node == root {
        DeleteRoot(node, temp, t, rest);
        return;
      }
      var red := mem[node].red;
      if node == mem[mem[node].parent].left {
        mem := WithLeft(mem, mem[node].parent, temp);
      } else {
        mem := WithRight(mem, mem[node].parent, temp);
      }
      mem := WithParent(mem, temp, mem[node].parent);
      SpliceOut(old(mem), mem, sentinel, root, c, t, rest);
      Conclude(node, temp, red, c, rest, items);
    }

    // A node with two children gives its place to its successor.
    method DeleteInner(node: Node, ghost c: Path, ghost t: Tree, ghost items: seq<Item>)
      requires At(c, t) && t.Branch? && t.node == node && t.left.Branch? && t.right.Branch?
      requires Plug(c, t) == tree && Balanced(tree) && !Red(tree) && mem.Keys == Nodes(tree) + {sentinel}
      requires items == Before(c) + Items(t.left) + Items(t.right) + After(c)
      modifies this
      ensures Sound(items)
      ensures mem.Keys == old(mem.Keys) - {node}
    {
      hide View, Balanced, Items, PathNodes, Plug, Before, After, Fits, BlackHeight, Beyond;
      TopCell(mem, sentinel, root, c, t);
      MoveRight(mem, sentinel, root, c, t);
      var subst;
      ghost var seg, sub;
      subst, seg, sub := Min(mem[node].right, InRight(t.node, t.red, t.key, t.left, c), t.right);
      LeftmostView(mem, sentinel, root, c, t, seg, sub);
      TopCell(mem, sentinel, root, Beyond(seg, t, c), sub);
      PromotedValues(c, t, seg, sub);
      PromoteKeys(mem, sentinel, root, c, t, seg, sub);
      var temp := mem[subst].right;
      var red := mem[subst].red;
      Promote(node, subst, temp, c, t, seg, sub);
      Conclude(node, temp, red, Beyond'(seg, t, c, subst, sub.key), sub.right, items);
    }

    // ngx_rbtree_delete. The record of `node`, its links cleared, goes back to the caller.
    method Delete(node: Node) returns (record: Cell)
      requires Valid() && node in Nodes(tree)
      modifies this
      ensures Valid() && mem.Keys == old(mem.Keys) - {node}
      ensures Dropped(old(Items(tree)), Items(tree), node)
      ensures record.left == record.right == record.parent == NULL && record.key == 0
    {
      ghost var c, t := Focus(tree, node);
      MoveDown(mem, sentinel, root, c, Top, t);
      AppendTop(c);
      TopCell(mem, sentinel, root, c, t);
      Hanging(mem, sentinel, root, c, t);
      DropAt(c, t);
      ghost var items := Before(c) + Items(t.left) + Items(t.right) + After(c);
      record := mem[node];
      if mem[node].left == sentinel {
        DeleteSingle(node, mem[node].right, c, t, t.right, items);
      } else if mem[node].right == sentinel {
        DeleteSingle(node, mem[node].left, c, t, t.left, items);
      } else {
        DeleteInner(node, c, t, items);
      }
      /* DEBUG stuff */
      record := record.(left := NULL, right := NULL, parent := NULL, key := 0);
    }
  }
}
