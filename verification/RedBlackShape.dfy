// The red-black invariant, on tree values: what the two balancing loops of plibsys/src/ptree-rb.c restore.

/** Red-black trees, and red-black trees with one defect at the focus of a climb. */
module RedBlackShape {
  import opened TreeShape
  import opened TreeMemory
  import opened TreeWalk

  predicate IsRed(t: Tree) { t.Bin? && t.item.color.Red? }

  function Weight(i: Item): nat { if i.color.Black? then 1 else 0 }

  /** Black nodes on the left spine; on every path when `Balanced`. */
  function BlackHeight(t: Tree): nat {
    match t
    case Leaf => 0
    case Bin(l, i, _) => BlackHeight(l) + Weight(i)
  }

  /** Equal black counts on all paths, no red node with a red child. */
  predicate Balanced(t: Tree) {
    match t
    case Leaf => true
    case Bin(l, i, r) =>
      && Balanced(l) && Balanced(r) && BlackHeight(l) == BlackHeight(r)
      && (i.color.Red? ==> !IsRed(l) && !IsRed(r))
  }

  predicate RedBlack(t: Tree) { Balanced(t) && !IsRed(t) }

  /** A balanced black-rooted subtree of black height `h` in the hole of `c` makes a red-black tree. */
  predicate Fits(c: Ctx, h: nat) {
    match c
    case Top => true
    case InLeft(i, s, up) => FitsBeside(i, s, up, h) && Fits(up, h + Weight(i))
    case InRight(s, i, up) => FitsBeside(i, s, up, h) && Fits(up, h + Weight(i))
  }

  predicate FitsBeside(i: Item, s: Tree, up: Ctx, h: nat) {
    && Balanced(s) && BlackHeight(s) == h
    && (i.color.Red? ==> !IsRed(s) && BlackAbove(up))
  }

  /** The node above the hole exists and is black. */
  predicate BlackAbove(c: Ctx) { !c.Top? && c.item.color.Black? }

  lemma {:induction false} RedBlackPlug(t: Tree, c: Ctx)
    ensures RedBlack(Plug(t, c)) <==> Balanced(t) && Fits(c, BlackHeight(t)) && (IsRed(t) ==> BlackAbove(c))
    decreases c
  {
    match c
    case Top =>
    case InLeft(i, r, up) => RedBlackPlug(Bin(t, i, r), up);
    case InRight(l, i, up) => RedBlackPlug(Bin(l, i, t), up);
  }

  function Painted(t: Tree, color: Color): Tree
    requires t.Bin?
  {
    t.(item := t.item.(color := color))
  }

  // ----- insertion -----

  /** The focus of the insertion climb: red, and the only possible defect is a red parent. */
  predicate RedFocus(t: Tree, c: Ctx) {
    IsRed(t) && Balanced(t) && Fits(c, BlackHeight(t))
  }

  lemma FreshLeafFocus(c: Ctx, i: Item)
    requires RedBlack(Plug(Leaf, c)) && i.color.Red?
    ensures RedFocus(Bin(Leaf, i, Leaf), c)
  {
    RedBlackPlug(Leaf, c);
  }

  /** Cases 1 and 2 end the climb. */
  lemma InsertStops(t: Tree, c: Ctx)
    requires RedFocus(t, c)
    ensures c.Top? ==> RedBlack(Painted(t, Black))
    ensures BlackAbove(c) ==> RedBlack(Plug(t, c))
  {
    RedBlackPlug(t, c);
  }

  /** Case 3: red parent and red uncle. */
  function Flipped(t: Tree, c: Ctx): Tree
    requires !c.Top? && !c.up.Top? && Sibling(c.up).Bin?
  {
    var p, u, g := Painted(Wrap(t, c), Black), Painted(Sibling(c.up), Black), c.up.item.(color := Red);
    if c.up.InLeft? then Bin(p, g, u) else Bin(u, g, p)
  }

  lemma FlipKeepsFocus(t: Tree, c: Ctx)
    requires RedFocus(t, c) && !c.Top? && c.item.color.Red? && !c.up.Top? && IsRed(Sibling(c.up))
    ensures RedFocus(Flipped(t, c), c.up.up)
    ensures Inorder(Plug(Flipped(t, c), c.up.up)) == Inorder(Plug(t, c))
  {
    var p, u := Painted(Wrap(t, c), Black), Painted(Sibling(c.up), Black);
    assert Fits(c.up, BlackHeight(t)) && Fits(c.up.up, BlackHeight(t) + 1);
    assert Balanced(p) && BlackHeight(p) == BlackHeight(t) + 1;
    assert Balanced(u) && BlackHeight(u) == BlackHeight(t) + 1;
    InorderPlug(Flipped(t, c), c.up.up);
    InorderPlug(Wrap(Wrap(t, c), c.up), c.up.up);
  }

  /** Case 5: the outer grandchild is the focus. `g` is the grandparent's subtree after the rotation. */
  lemma OuterRotationRestores(t: Tree, c: Ctx)
    requires RedFocus(t, c) && !c.Top? && c.item.color.Red? && !c.up.Top? && !IsRed(Sibling(c.up))
    ensures c.InLeft? && c.up.InLeft? ==>
      RedBlack(Plug(Bin(t, c.item.(color := Black), Bin(c.right, c.up.item.(color := Red), c.up.right)), c.up.up))
    ensures c.InRight? && c.up.InRight? ==>
      RedBlack(Plug(Bin(Bin(c.up.left, c.up.item.(color := Red), c.left), c.item.(color := Black), t), c.up.up))
  {
    assert Fits(c.up, BlackHeight(t)) && Fits(c.up.up, BlackHeight(t) + 1);
    var p, g, h := c.item.(color := Black), c.up.item.(color := Red), BlackHeight(t);
    if c.InLeft? && c.up.InLeft? {
      var inner := Bin(c.right, g, c.up.right);
      var w := Bin(t, p, inner);
      assert Balanced(inner) && BlackHeight(inner) == h;
      assert Balanced(w) && BlackHeight(w) == h + 1;
      RedBlackPlug(w, c.up.up);
    } else if c.InRight? && c.up.InRight? {
      var inner := Bin(c.up.left, g, c.left);
      var w := Bin(inner, p, t);
      assert Balanced(inner) && BlackHeight(inner) == h;
      assert Balanced(w) && BlackHeight(w) == h + 1;
      RedBlackPlug(w, c.up.up);
    }
  }

  /** Case 4: an inner grandchild becomes an outer one, with its old parent as the new focus. */
  lemma InnerRotationKeepsFocus(t: Tree, c: Ctx)
    requires RedFocus(t, c) && !c.Top? && c.item.color.Red? && !c.up.Top?
    ensures c.InRight? ==> RedFocus(Bin(c.left, c.item, t.left), InLeft(t.item, t.right, c.up))
    ensures c.InLeft? ==> RedFocus(Bin(t.right, c.item, c.right), InRight(t.left, t.item, c.up))
  {
  }

  // ----- removal -----

  /** The focus of the removal climb: every path through it is one black node short. */
  predicate ShortFocus(t: Tree, c: Ctx) {
    Balanced(t) && !IsRed(t) && Fits(c, BlackHeight(t) + 1)
  }

  /** The equal black counts force a sibling to exist. */
  lemma SiblingExists(t: Tree, c: Ctx)
    requires ShortFocus(t, c) && !c.Top?
    ensures Sibling(c).Bin?
  {
  }

  /** Case 2: the red sibling is rotated above the parent. */
  function RedSiblingStep(c: Ctx): Ctx
    requires !c.Top? && Sibling(c).Bin?
  {
    var p, s, up := c.item.(color := Red), Painted(Sibling(c), Black), c.up;
    if c.InLeft? then InLeft(p, s.left, InLeft(s.item, s.right, up))
    else InRight(s.right, p, InRight(s.left, s.item, up))
  }

  lemma RedSiblingKeeps(t: Tree, c: Ctx)
    requires ShortFocus(t, c) && !c.Top? && IsRed(Sibling(c))
    ensures var d := RedSiblingStep(c);
      ShortFocus(t, d) && SameAround(c, d) && Sibling(d).Bin? && !IsRed(Sibling(d))
  {
    var s := Sibling(c);
    assert Fits(c.up, BlackHeight(t) + 2);
    if c.InLeft? {
      Regroup([], [c.item.Pair()], Inorder(s.left), [s.item.Pair()] + Inorder(s.right), After(c.up));
    } else {
      Regroup(Before(c.up), Inorder(s.left), [s.item.Pair()], Inorder(s.right), [c.item.Pair()]);
    }
  }

  function SiblingPainted(c: Ctx, color: Color): Ctx
    requires !c.Top? && Sibling(c).Bin?
  {
    if c.InLeft? then c.(right := Painted(c.right, color)) else c.(left := Painted(c.left, color))
  }

  function ParentPainted(c: Ctx, color: Color): Ctx
    requires !c.Top?
  {
    var p := c.item.(color := color);
    if c.InLeft? then InLeft(p, c.right, c.up) else InRight(c.left, p, c.up)
  }

  /** Case 3: the sibling, with black children, turns red. Under a black parent the defect moves up. */
  lemma SiblingFlip(t: Tree, c: Ctx)
    requires ShortFocus(t, c) && !c.Top? && Sibling(c).Bin? && !IsRed(Sibling(c))
    requires !IsRed(Sibling(c).left) && !IsRed(Sibling(c).right)
    ensures var d := SiblingPainted(c, Red);
      && SameAround(c, d) && SameAround(c, ParentPainted(d, Black))
      && (c.item.color.Black? ==> ShortFocus(Wrap(t, d), c.up))
      && (c.item.color.Red? ==> RedBlack(Plug(t, ParentPainted(d, Black))))
  {
    assert Fits(c.up, BlackHeight(t) + 1 + Weight(c.item));
    var d := SiblingPainted(c, Red);
    assert Balanced(Sibling(d)) && BlackHeight(Sibling(d)) == BlackHeight(t);
    if c.item.color.Red? {
      var w := Wrap(t, ParentPainted(d, Black));
      assert Balanced(w) && BlackHeight(w) == BlackHeight(t) + 1;
      RedBlackPlug(w, c.up);
    }
  }

  /** Case 4: a red near nephew is rotated above the sibling. */
  function NearStep(c: Ctx): Ctx
    requires !c.Top? && Sibling(c).Bin? && (if c.InLeft? then c.right.left.Bin? else c.left.right.Bin?)
  {
    var s := Sibling(c);
    if c.InLeft? then
      c.(right := Bin(s.left.left, s.left.item.(color := Black), Bin(s.left.right, s.item.(color := Red), s.right)))
    else
      c.(left := Bin(Bin(s.left, s.item.(color := Red), s.right.left), s.right.item.(color := Black), s.right.right))
  }

  predicate FarIsRed(c: Ctx)
    requires !c.Top? && Sibling(c).Bin?
  {
    IsRed(if c.InLeft? then c.right.right else c.left.left)
  }

  predicate NearIsRed(c: Ctx)
    requires !c.Top? && Sibling(c).Bin?
  {
    IsRed(if c.InLeft? then c.right.left else c.left.right)
  }

  lemma NearKeeps(t: Tree, c: Ctx)
    requires ShortFocus(t, c) && !c.Top? && Sibling(c).Bin? && !IsRed(Sibling(c)) && NearIsRed(c) && !FarIsRed(c)
    ensures var d := NearStep(c);
      ShortFocus(t, d) && SameAround(c, d) && !IsRed(Sibling(d)) && FarIsRed(d)
  {
    var s, d := Sibling(c), NearStep(c);
    if c.InLeft? {
      Regroup(Inorder(s.left.left), [s.left.item.Pair()], Inorder(s.left.right), [s.item.Pair()], Inorder(s.right));
      assert Balanced(s.left) && Balanced(d.right.right);
    } else {
      Regroup(Inorder(s.left), [s.item.Pair()], Inorder(s.right.left), [s.right.item.Pair()], Inorder(s.right.right));
      assert Balanced(s.right) && Balanced(d.left.left);
    }
    assert Inorder(Sibling(d)) == Inorder(s);
    assert Balanced(Sibling(d)) && BlackHeight(Sibling(d)) == BlackHeight(s);
  }

  /** Case 5: with a red far nephew, a rotation at the parent makes up the missing black node. */
  function FarStep(c: Ctx): Ctx
    requires !c.Top? && Sibling(c).Bin? && (if c.InLeft? then c.right.right.Bin? else c.left.left.Bin?)
  {
    var p, s := c.item.(color := Black), Sibling(c);
    var i := s.item.(color := c.item.color);
    if c.InLeft? then InLeft(p, s.left, InLeft(i, Painted(s.right, Black), c.up))
    else InRight(s.right, p, InRight(Painted(s.left, Black), i, c.up))
  }

  /** Its last part, after the parent and the sibling have traded colours. */
  function FarTurn(c: Ctx): Ctx
    requires !c.Top? && Sibling(c).Bin? && (if c.InLeft? then c.right.right.Bin? else c.left.left.Bin?)
  {
    var s := Sibling(c);
    if c.InLeft? then InLeft(c.item, s.left, InLeft(s.item, Painted(s.right, Black), c.up))
    else InRight(s.right, c.item, InRight(Painted(s.left, Black), s.item, c.up))
  }

  lemma FarRestores(t: Tree, c: Ctx)
    requires ShortFocus(t, c) && !c.Top? && Sibling(c).Bin? && !IsRed(Sibling(c)) && FarIsRed(c)
    ensures RedBlack(Plug(t, FarStep(c))) && SameAround(c, FarStep(c))
  {
    var s, d, h := Sibling(c), FarStep(c), BlackHeight(t);
    var far, near := if c.InLeft? then s.right else s.left, if c.InLeft? then s.left else s.right;
    assert Fits(c.up, h + 1 + Weight(c.item)) && Balanced(s);
    assert Balanced(far) && Balanced(near) && BlackHeight(far) == BlackHeight(near) == h;
    assert Balanced(Painted(far, Black)) && BlackHeight(Painted(far, Black)) == h + 1;
    var w := Wrap(t, d);
    assert Balanced(w) && BlackHeight(w) == h + 1;
    assert Balanced(Wrap(w, d.up));
    RedBlackPlug(Wrap(w, d.up), c.up);
    FarEntries(c);
  }

  lemma FarEntries(c: Ctx)
    requires !c.Top? && Sibling(c).Bin? && FarIsRed(c)
    ensures SameAround(c, FarStep(c))
  {
    var s := Sibling(c);
    if c.InLeft? {
      Regroup([], [c.item.Pair()], Inorder(s.left), [s.item.Pair()] + Inorder(s.right), After(c.up));
    } else {
      Regroup(Before(c.up), Inorder(s.left), [s.item.Pair()], Inorder(s.right), [c.item.Pair()]);
    }
  }

  /** The node that leaves the tree has at most one child. */
  lemma RemovedNode(l: Tree, i: Item, r: Tree, c: Ctx)
    requires RedBlack(Plug(Bin(l, i, r), c)) && (l.Leaf? || r.Leaf?)
    ensures l.Leaf? && r.Leaf? && i.color.Red? ==> RedBlack(Plug(Leaf, c))
    ensures l.Leaf? && r.Leaf? && i.color.Black? ==> ShortFocus(Leaf, c)
    ensures var u := if l.Leaf? then r else l;
      u.Bin? ==> i.color.Black? && RedBlack(Plug(Painted(u, Black), c))
  {
    var t := Bin(l, i, r);
    RedBlackPlug(t, c);
    RedBlackPlug(Leaf, c);
    var u := if l.Leaf? then r else l;
    if u.Bin? {
      assert Balanced(u) && BlackHeight(u) == 0 && IsRed(u);
      assert Balanced(Painted(u, Black)) && BlackHeight(Painted(u, Black)) == BlackHeight(t);
      RedBlackPlug(Painted(u, Black), c);
    }
  }

  /** Red-blackness is a matter of shape and colours only. */
  lemma {:induction false} AlikeRedBlack(t: Tree, u: Tree)
    requires Alike(t, u)
    ensures Balanced(t) <==> Balanced(u)
    ensures BlackHeight(t) == BlackHeight(u) && IsRed(t) == IsRed(u)
  {
    if t.Bin? {
      AlikeRedBlack(t.left, u.left);
      AlikeRedBlack(t.right, u.right);
    }
  }
}
