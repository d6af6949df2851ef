// The red-black rules on tree shapes and on the paths the rebalancing loops climb.

module RbBalance {
  import opened MachineWords
  import opened RbShape

  ghost predicate Red(t: Tree) {
    t.Branch? && t.red
  }

  ghost function BlackHeight(t: Tree): nat {
    if t.Leaf? then 0 else BlackHeight(t.left) + (if t.red then 0 else 1)
  }

  ghost predicate Balanced(t: Tree) {
    t.Branch? ==>
      && Balanced(t.left) && Balanced(t.right)
      && BlackHeight(t.left) == BlackHeight(t.right)
      && (t.red ==> !Red(t.left) && !Red(t.right))
  }

  // Putting a balanced subtree of black height `h` and top colour `red` at the end
  // of the path gives a balanced tree with a black root.
  ghost predicate Fits(c: Path, h: nat, red: bool)
    decreases c
  {
    if c.Top? then !red
    else
      && Balanced(c.sibling) && BlackHeight(c.sibling) == h
      && (c.red ==> !red && !Red(c.sibling))
      && Fits(c.up, h + (if c.red then 0 else 1), c.red)
  }

  lemma {:induction false} FitsPlug(c: Path, t: Tree)
    requires Balanced(t) && Fits(c, BlackHeight(t), Red(t))
    ensures Balanced(Plug(c, t)) && !Red(Plug(c, t))
    decreases c
  {
    if !c.Top? {
      FitsPlug(c.up, Join(c, t));
    }
  }

  lemma {:induction false} PlugFits(c: Path, t: Tree)
    requires Balanced(Plug(c, t)) && !Red(Plug(c, t))
    ensures Balanced(t) && Fits(c, BlackHeight(t), Red(t))
    decreases c
  {
    if !c.Top? {
      PlugFits(c.up, Join(c, t));
    }
  }

  ghost function Size(t: Tree): nat {
    if t.Leaf? then 0 else Size(t.left) + 1 + Size(t.right)
  }

  ghost function Height(t: Tree): nat {
    if t.Leaf? then 0
    else 1 + if Height(t.left) < Height(t.right) then Height(t.right) else Height(t.left)
  }

  lemma {:induction false} SizeBound(t: Tree)
    requires Balanced(t)
    ensures Pow2(BlackHeight(t)) <= Size(t) + 1
    ensures Height(t) <= 2 * BlackHeight(t) + (if Red(t) then 1 else 0)
  {
    if t.Branch? {
      SizeBound(t.left);
      SizeBound(t.right);
    }
  }

  // The height is at most twice the binary logarithm of the size plus one.
  lemma HeightBound(t: Tree)
    requires Balanced(t) && !Red(t)
    ensures Pow2((Height(t) + 1) / 2) <= |Items(t)| + 1
  {
    SizeBound(t);
    SizeIsItems(t);
    PowMonotone((Height(t) + 1) / 2, BlackHeight(t));
  }

  lemma {:induction false} SizeIsItems(t: Tree)
    ensures Size(t) == |Items(t)|
  {
    if t.Branch? {
      SizeIsItems(t.left);
      SizeIsItems(t.right);
    }
  }
}
