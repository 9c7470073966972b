// The AVL invariant, on tree values: what the two balancing loops of plibsys/src/ptree-avl.c restore.

/** AVL trees with stored balance factors, and AVL trees whose focus grew or shrank by one level. */
module AvlShape {
  import opened TreeShape
  import opened TreeMemory
  import opened TreeWalk

  /** The stored balance factor is left height minus right height, and lies in {-1, 0, 1}. */
  predicate Poised(i: Item, lh: nat, rh: nat) {
    i.balance == lh - rh && -1 <= i.balance <= 1
  }

  predicate Avl(t: Tree) {
    match t
    case Leaf => true
    case Bin(l, i, r) => Avl(l) && Avl(r) && Poised(i, Height(l), Height(r))
  }

  /** A subtree of height `h` in the hole of `c` makes an AVL tree. */
  predicate Fits(c: Ctx, h: nat) {
    match c
    case Top => true
    case InLeft(i, s, up) => Avl(s) && Poised(i, h, Height(s)) && Fits(up, 1 + Max(h, Height(s)))
    case InRight(s, i, up) => Avl(s) && Poised(i, Height(s), h) && Fits(up, 1 + Max(h, Height(s)))
  }

  /** One node up from the hole, on its left and on its right. */
  lemma UpFromLeft(t: Tree, i: Item, r: Tree, up: Ctx)
    ensures var c, w := InLeft(i, r, up), Bin(t, i, r);
      && Plug(t, c) == Plug(w, up)
      && (Avl(t) && Fits(c, Height(t)) <==> Avl(w) && Fits(up, Height(w)))
  {
    hide Poised;
    var w := Bin(t, i, r);
    assert Height(w) == 1 + Max(Height(t), Height(r));
    assert Avl(w) <==> Avl(t) && Avl(r) && Poised(i, Height(t), Height(r));
  }

  lemma UpFromRight(t: Tree, i: Item, l: Tree, up: Ctx)
    ensures var c, w := InRight(l, i, up), Bin(l, i, t);
      && Plug(t, c) == Plug(w, up)
      && (Avl(t) && Fits(c, Height(t)) <==> Avl(w) && Fits(up, Height(w)))
  {
    hide Poised;
    var w := Bin(l, i, t);
    assert Height(w) == 1 + Max(Height(l), Height(t));
    assert Avl(w) <==> Avl(l) && Avl(t) && Poised(i, Height(l), Height(t));
  }

  lemma AtTop(t: Tree)
    ensures Plug(t, Top) == t && Fits(Top, Height(t))
  {
  }

  lemma {:induction false} AvlPlug(t: Tree, c: Ctx)
    ensures Avl(Plug(t, c)) <==> Avl(t) && Fits(c, Height(t))
    decreases c
  {
    hide *;
    match c
    case Top => AtTop(t);
    case InLeft(i, r, up) =>
      UpFromLeft(t, i, r, up);
      AvlPlug(Bin(t, i, r), up);
    case InRight(l, i, up) =>
      UpFromRight(t, i, l, up);
      AvlPlug(Bin(l, i, t), up);
  }

  lemma {:induction false} AlikeAvl(t: Tree, u: Tree)
    requires Alike(t, u)
    ensures (Avl(t) <==> Avl(u)) && Height(t) == Height(u)
  {
    if t.Bin? {
      AlikeAvl(t.left, u.left);
      AlikeAvl(t.right, u.right);
    }
  }

  function Weighed(t: Tree, balance: int): Tree
    requires t.Bin?
  {
    t.(item := t.item.(balance := balance))
  }

  function ParentWeighed(c: Ctx, balance: int): Ctx
    requires !c.Top?
  {
    var p := c.item.(balance := balance);
    if c.InLeft? then InLeft(p, c.right, c.up) else InRight(c.left, p, c.up)
  }

  // ----- the rotations, with their repair of the balance factors -----

  /** `pp_tree_avl_rotate_left`, on the subtree of the parent. */
  function SingleLeft(t: Tree): Tree
    requires t.Bin? && t.right.Bin?
  {
    var b := t.right.item.balance + 1;
    Bin(Bin(t.left, t.item.(balance := -b), t.right.left), t.right.item.(balance := b), t.right.right)
  }

  /** `pp_tree_avl_rotate_right`. */
  function SingleRight(t: Tree): Tree
    requires t.Bin? && t.left.Bin?
  {
    var b := t.left.item.balance - 1;
    Bin(t.left.left, t.left.item.(balance := b), Bin(t.left.right, t.item.(balance := -b), t.right))
  }

  /** The balance factors that a double rotation leaves below a middle node of balance `b`. */
  function LowBalance(b: int): int { if b == -1 then 1 else 0 }
  function HighBalance(b: int): int { if b == 1 then -1 else 0 }

  /** `pp_tree_avl_rotate_left_right`. */
  function DoubleRight(t: Tree): Tree
    requires t.Bin? && t.left.Bin? && t.left.right.Bin?
  {
    var n, m := t.left, t.left.right;
    var b := m.item.balance;
    Bin(Bin(n.left, n.item.(balance := LowBalance(b)), m.left),
        m.item.(balance := 0),
        Bin(m.right, t.item.(balance := HighBalance(b)), t.right))
  }

  /** `pp_tree_avl_rotate_right_left`. */
  function DoubleLeft(t: Tree): Tree
    requires t.Bin? && t.right.Bin? && t.right.left.Bin?
  {
    var n, m := t.right, t.right.left;
    var b := m.item.balance;
    Bin(Bin(t.left, t.item.(balance := LowBalance(b)), m.left),
        m.item.(balance := 0),
        Bin(m.right, n.item.(balance := HighBalance(b)), n.right))
  }

  /** The subtree whose right side is two levels too high, once rotated: an AVL tree again, as high as
      before or one level lower. */
  lemma LeftRotationRestores(t: Tree)
    requires t.Bin? && Avl(t.left) && Avl(t.right) && Height(t.right) == Height(t.left) + 2
    ensures t.right.Bin? && (t.right.item.balance == 1 ==> t.right.left.Bin?)
    ensures var u := if t.right.item.balance == 1 then DoubleLeft(t) else SingleLeft(t);
      Avl(u) && Height(u) == Height(t) - if t.right.item.balance == 0 then 0 else 1
  {
    var n := t.right;
    if n.item.balance == 1 {
      assert Avl(n.left) && Avl(n.left.left) && Avl(n.left.right);
      var u := DoubleLeft(t);
      assert Avl(u.left) && Avl(u.right);
    } else {
      assert Avl(SingleLeft(t).left);
    }
  }

  lemma RightRotationRestores(t: Tree)
    requires t.Bin? && Avl(t.left) && Avl(t.right) && Height(t.left) == Height(t.right) + 2
    ensures t.left.Bin? && (t.left.item.balance == -1 ==> t.left.right.Bin?)
    ensures var u := if t.left.item.balance == -1 then DoubleRight(t) else SingleRight(t);
      Avl(u) && Height(u) == Height(t) - if t.left.item.balance == 0 then 0 else 1
  {
    var n := t.left;
    if n.item.balance == -1 {
      assert Avl(n.right) && Avl(n.right.left) && Avl(n.right.right);
      var u := DoubleRight(t);
      assert Avl(u.left) && Avl(u.right);
    } else {
      assert Avl(SingleRight(t).right);
    }
  }

  lemma RotationEntries(t: Tree)
    requires t.Bin?
    ensures t.right.Bin? ==> Inorder(SingleLeft(t)) == Inorder(t)
    ensures t.left.Bin? ==> Inorder(SingleRight(t)) == Inorder(t)
    ensures t.right.Bin? && t.right.left.Bin? ==> Inorder(DoubleLeft(t)) == Inorder(t)
    ensures t.left.Bin? && t.left.right.Bin? ==> Inorder(DoubleRight(t)) == Inorder(t)
  {
    var l, r, p := t.left, t.right, [t.item.Pair()];
    if r.Bin? {
      Regroup(Inorder(l), p, Inorder(r.left), [r.item.Pair()], Inorder(r.right));
      if r.left.Bin? {
        var m := r.left;
        RegroupMore(Inorder(l), p, Inorder(m.left), [m.item.Pair()], Inorder(m.right), [r.item.Pair()],
                    Inorder(r.right));
      }
    }
    if l.Bin? {
      Regroup(Inorder(l.left), [l.item.Pair()], Inorder(l.right), p, Inorder(r));
      if l.right.Bin? {
        var m := l.right;
        RegroupMore(Inorder(l.left), [l.item.Pair()], Inorder(m.left), [m.item.Pair()], Inorder(m.right), p,
                    Inorder(r));
      }
    }
  }

  // ----- insertion -----

  /** The focus of the insertion climb: one level higher than its surroundings expect, and leaning. */
  predicate GrownFocus(t: Tree, c: Ctx) {
    Avl(t) && t.Bin? && Fits(c, Height(t) - 1) && (t.item.balance != 0 || Height(t) == 1)
  }

  lemma FreshLeafFocus(c: Ctx, i: Item)
    requires Avl(Plug(Leaf, c)) && i.balance == 0
    ensures GrownFocus(Bin(Leaf, i, Leaf), c)
  {
    AvlPlug(Leaf, c);
  }

  /** The balance that a node takes on when its side holding the hole of `c` grows. */
  function Toward(c: Ctx): int { if c.InLeft? then 1 else -1 }

  /** Cases 3 and 4: the parent did not lean towards the focus. */
  lemma GrowthAbsorbed(t: Tree, c: Ctx)
    requires GrownFocus(t, c) && !c.Top? && c.item.balance != Toward(c)
    ensures var d := ParentWeighed(c, c.item.balance + Toward(c));
      if c.item.balance == 0 then GrownFocus(Wrap(t, d), c.up) else Avl(Plug(t, d))
  {
    var d := ParentWeighed(c, c.item.balance + Toward(c));
    var w := Wrap(t, d);
    assert Fits(c.up, 1 + Max(Height(t) - 1, Height(Sibling(c)))) && Avl(Sibling(c));
    assert Avl(w) && Height(w) == 1 + Max(Height(t), Height(Sibling(c)));
    if c.item.balance != 0 {
      AvlPlug(w, c.up);
      assert Plug(t, d) == Plug(w, c.up);
    }
    hide Avl, Fits, Plug, Height;
  }

  /** Cases 1 and 2: the parent leaned towards the focus, and a rotation makes up for the growth. */
  lemma GrowthRotated(t: Tree, c: Ctx)
    requires GrownFocus(t, c) && !c.Top? && c.item.balance == Toward(c)
    ensures var w := Wrap(t, c);
      if c.InLeft? then
        (t.item.balance == -1 ==> t.right.Bin?)
        && Avl(Plug(if t.item.balance == -1 then DoubleRight(w) else SingleRight(w), c.up))
      else
        (t.item.balance == 1 ==> t.left.Bin?)
        && Avl(Plug(if t.item.balance == 1 then DoubleLeft(w) else SingleLeft(w), c.up))
  {
    var w := Wrap(t, c);
    assert Fits(c.up, Height(t));
    if c.InLeft? {
      RightRotationRestores(w);
      AvlPlug(if t.item.balance == -1 then DoubleRight(w) else SingleRight(w), c.up);
    } else {
      LeftRotationRestores(w);
      AvlPlug(if t.item.balance == 1 then DoubleLeft(w) else SingleLeft(w), c.up);
    }
  }

  // ----- removal -----

  /** The focus of the removal climb: one level lower than its surroundings expect. */
  predicate ShrunkFocus(t: Tree, c: Ctx) {
    Avl(t) && Fits(c, Height(t) + 1)
  }

  /** Cases 3 and 4: the parent did not lean away from the focus. */
  lemma ShrinkageAbsorbed(t: Tree, c: Ctx)
    requires ShrunkFocus(t, c) && !c.Top? && c.item.balance != -Toward(c)
    ensures var d := ParentWeighed(c, c.item.balance - Toward(c));
      if c.item.balance == 0 then Avl(Plug(t, d)) else ShrunkFocus(Wrap(t, d), c.up)
  {
    var d := ParentWeighed(c, c.item.balance - Toward(c));
    var w := Wrap(t, d);
    assert Fits(c.up, 1 + Max(Height(t) + 1, Height(Sibling(c)))) && Avl(Sibling(c));
    assert Avl(w) && Height(w) == 1 + Max(Height(t), Height(Sibling(c)));
    if c.item.balance == 0 {
      AvlPlug(w, c.up);
      assert Plug(t, d) == Plug(w, c.up);
    }
    hide Avl, Fits, Plug, Height;
  }

  /** The surroundings of the focus, up to the top of the subtree, after a rotation with its sibling. */
  function RotatedPath(c: Ctx): Ctx
    requires !c.Top? && Sibling(c).Bin?
    requires Sibling(c).item.balance == Toward(c) ==> (if c.InLeft? then c.right.left.Bin? else c.left.right.Bin?)
  {
    var p, s := c.item, Sibling(c);
    var b := s.item.balance;
    if c.InLeft? then
      if b == 1 then
        var m := s.left;
        var mb := m.item.balance;
        InLeft(p.(balance := LowBalance(mb)), m.left,
          InLeft(m.item.(balance := 0), Bin(m.right, s.item.(balance := HighBalance(mb)), s.right), Top))
      else
        InLeft(p.(balance := -(b + 1)), s.left, InLeft(s.item.(balance := b + 1), s.right, Top))
    else
      if b == -1 then
        var m := s.right;
        var mb := m.item.balance;
        InRight(m.right, p.(balance := HighBalance(mb)),
          InRight(Bin(s.left, s.item.(balance := LowBalance(mb)), m.left), m.item.(balance := 0), Top))
      else
        InRight(s.right, p.(balance := -(b - 1)), InRight(s.left, s.item.(balance := b - 1), Top))
  }

  /** The subtree above the focus, rotated as its sibling's balance demands. */
  function RotatedWith(t: Tree, c: Ctx): Tree
    requires !c.Top? && Sibling(c).Bin?
    requires Sibling(c).item.balance == Toward(c) ==> (if c.InLeft? then c.right.left.Bin? else c.left.right.Bin?)
  {
    var w, b := Wrap(t, c), Sibling(c).item.balance;
    if c.InLeft? then if b == 1 then DoubleLeft(w) else SingleLeft(w)
    else if b == -1 then DoubleRight(w) else SingleRight(w)
  }

  lemma RotatedPathPlugs(t: Tree, c: Ctx)
    requires !c.Top? && Sibling(c).Bin?
    requires Sibling(c).item.balance == Toward(c) ==> (if c.InLeft? then c.right.left.Bin? else c.left.right.Bin?)
    ensures Plug(t, RotatedPath(c)) == RotatedWith(t, c)
  {
    var e := RotatedPath(c);
    assert Plug(t, e) == Plug(Wrap(t, e), e.up) == Plug(Wrap(Wrap(t, e), e.up), e.up.up);
  }

  /** One or two nodes of the sibling's subtree come above the hole: on its left side, and on its right side. */
  lemma LeftPaths(p: Item, a: Tree, k: Item, b: Tree, i: Item, r: Tree, up: Ctx, q: Item, k': Item, i': Item)
    requires q.Pair() == p.Pair() && k'.Pair() == k.Pair() && i'.Pair() == i.Pair()
    ensures SameAround(InLeft(p, Bin(a, i, r), up), InLeft(q, a, InLeft(i', r, up)))
    ensures SameAround(InLeft(p, Bin(Bin(a, k, b), i, r), up), InLeft(q, a, InLeft(k', Bin(b, i', r), up)))
  {
    assert Inorder(Bin(Bin(a, k, b), i, r)) == (Inorder(a) + [k.Pair()] + Inorder(b)) + [i.Pair()] + Inorder(r);
    Regroup([], [p.Pair()], Inorder(a), [i.Pair()] + Inorder(r), After(up));
    RegroupMore([p.Pair()], Inorder(a), [k.Pair()], Inorder(b), [i.Pair()], Inorder(r), After(up));
  }

  lemma RightPaths(p: Item, a: Tree, k: Item, b: Tree, i: Item, l: Tree, up: Ctx, q: Item, k': Item, i': Item)
    requires q.Pair() == p.Pair() && k'.Pair() == k.Pair() && i'.Pair() == i.Pair()
    ensures SameAround(InRight(Bin(l, i, b), p, up), InRight(b, q, InRight(l, i', up)))
    ensures SameAround(InRight(Bin(l, i, Bin(a, k, b)), p, up), InRight(b, q, InRight(Bin(l, i', a), k', up)))
  {
    assert Inorder(Bin(l, i, Bin(a, k, b))) == Inorder(l) + [i.Pair()] + (Inorder(a) + [k.Pair()] + Inorder(b));
    Regroup(Before(up), Inorder(l), [i.Pair()], Inorder(b), [p.Pair()]);
    RegroupMore(Before(up), Inorder(l), [i.Pair()], Inorder(a), [k.Pair()], Inorder(b), [p.Pair()]);
  }

  /** The step of `c` above the hole, with `up` above it. */
  function Onto(c: Ctx, up: Ctx): Ctx
    requires !c.Top?
  {
    if c.InLeft? then InLeft(c.item, c.right, up) else InRight(c.left, c.item, up)
  }

  lemma AppendTwo(c: Ctx, up: Ctx)
    requires !c.Top? && !c.up.Top? && c.up.up.Top?
    ensures Append(c, up) == Onto(c, Onto(c.up, up))
  {
    assert Append(c.up.up, up) == up && Append(c.up, up) == Onto(c.up, up);
  }

  lemma RotatedPathEntries(c: Ctx)
    requires !c.Top? && Sibling(c).Bin?
    requires Sibling(c).item.balance == Toward(c) ==> (if c.InLeft? then c.right.left.Bin? else c.left.right.Bin?)
    ensures SameAround(c, Append(RotatedPath(c), c.up))
  {
    var s, p, e := Sibling(c), c.item, RotatedPath(c);
    AppendTwo(e, c.up);
    hide Append, SameAround;
    if c.InLeft? {
      if s.item.balance == 1 {
        var m := s.left;
        LeftPaths(p, m.left, m.item, m.right, s.item, s.right, c.up, e.item, e.up.item, e.up.right.item);
      } else {
        LeftPaths(p, s.left, s.item, s.left, s.item, s.right, c.up, e.item, s.item, e.up.item);
      }
    } else {
      if s.item.balance == -1 {
        var m := s.right;
        RightPaths(p, m.left, m.item, m.right, s.item, s.left, c.up, e.item, e.up.item, e.up.left.item);
      } else {
        RightPaths(p, s.right, s.item, s.right, s.item, s.left, c.up, e.item, s.item, e.up.item);
      }
    }
  }

  /** Cases 1 and 2: the parent leaned away from the focus. The early exit is for a level sibling. */
  lemma ShrinkageRotated(t: Tree, c: Ctx)
    requires ShrunkFocus(t, c) && !c.Top? && c.item.balance == -Toward(c)
    ensures Sibling(c).Bin?
    ensures Sibling(c).item.balance == Toward(c) ==> (if c.InLeft? then c.right.left.Bin? else c.left.right.Bin?)
    ensures var u := RotatedWith(t, c);
      if Sibling(c).item.balance == 0 then Avl(Plug(u, c.up)) else ShrunkFocus(u, c.up)
  {
    var w := Wrap(t, c);
    assert Fits(c.up, 1 + Height(Sibling(c))) && Avl(Sibling(c)) && Height(Sibling(c)) == Height(t) + 2;
    assert Height(w) == 1 + Height(Sibling(c));
    hide Avl, Fits, Height, Plug;
    if c.InLeft? {
      LeftRotationRestores(w);
    } else {
      RightRotationRestores(w);
    }
    AvlPlug(RotatedWith(t, c), c.up);
  }
}
