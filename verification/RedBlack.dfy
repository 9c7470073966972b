// The red-black back end, plibsys/src/ptree-rb.c.

module RedBlack {
  import opened TreeShape
  import opened TreeMemory
  import opened TreeCell
  import opened TreeWalk
  import opened Entries
  import opened RedBlackShape

  /** The pointer writes of the red-black back end's left rotation. */
  method TurnLeft(node: Node, cell: Cell)
    requires cell.BaseMirrored() && cell.ExtraMirrored()
    requires node in cell.mem && node.right != null && node.right in cell.mem && node.right != node
    requires node.right.left != null ==> node.right.left in cell.mem && node.right.left !in {node, node.right}
    requires node.parent != null ==>
      node.parent in cell.mem && node.parent !in {node, node.right} && node.parent != node.right.left
    modifies cell`root, cell`mem, cell.mem.Keys
    ensures cell.BaseMirrored() && cell.ExtraMirrored() && cell.mem.Keys == old(cell.mem.Keys)
    ensures LeftTurn(node, old(cell.root), cell.root, old(cell.mem), cell.mem)
  {
    ghost var m := cell.mem;
    var tmp := node.right;
    if node.parent != null {
      ReplaceChild(node.parent, node, tmp);
    }
    node.right := tmp.left;
    if tmp.left != null {
      tmp.left.parent := node;
    }
    tmp.left := node;
    tmp.parent := node.parent;
    node.parent := tmp;
    if tmp.parent == null {
      cell.root := tmp;
    }
    Refresh(cell, m.Keys);
  }

  method RotateLeft(node: Node, cell: Cell, ghost t: Tree, ghost c: Ctx)
    requires cell.Wired() && cell.tree == Plug(t, c)
    requires t.Bin? && t.item.at == node && t.right.Bin?
    modifies cell, cell.mem.Keys
    ensures cell.Wired() && cell.tree == Plug(RotatedLeft(t), c)
    ensures cell.mem.Keys == old(cell.mem.Keys) && Inorder(cell.tree) == old(Inorder(cell.tree))
  {
    hide Plug, LeftTurn, Forms;
    ghost var m, root0 := cell.mem, cell.root;
    TurnReady(t, c, root0, m);
    TurnLeft(node, cell);
    LeftTurnRotates(t, c, root0, cell.root, m, cell.mem);
    RotatedEntries(t, c);
    cell.tree := Plug(RotatedLeft(t), c);
  }

  /** The pointer writes of the right rotation. */
  method TurnRight(node: Node, cell: Cell)
    requires cell.BaseMirrored() && cell.ExtraMirrored()
    requires node in cell.mem && node.left != null && node.left in cell.mem && node.left != node
    requires node.left.right != null ==> node.left.right in cell.mem && node.left.right !in {node, node.left}
    requires node.parent != null ==>
      node.parent in cell.mem && node.parent !in {node, node.left} && node.parent != node.left.right
    modifies cell`root, cell`mem, cell.mem.Keys
    ensures cell.BaseMirrored() && cell.ExtraMirrored() && cell.mem.Keys == old(cell.mem.Keys)
    ensures RightTurn(node, old(cell.root), cell.root, old(cell.mem), cell.mem)
  {
    ghost var m := cell.mem;
    var tmp := node.left;
    if node.parent != null {
      ReplaceChild(node.parent, node, tmp);
    }
    node.left := tmp.right;
    if tmp.right != null {
      tmp.right.parent := node;
    }
    tmp.right := node;
    tmp.parent := node.parent;
    node.parent := tmp;
    if tmp.parent == null {
      cell.root := tmp;
    }
    Refresh(cell, m.Keys);
  }

  method RotateRight(node: Node, cell: Cell, ghost t: Tree, ghost c: Ctx)
    requires cell.Wired() && cell.tree == Plug(t, c)
    requires t.Bin? && t.item.at == node && t.left.Bin?
    modifies cell, cell.mem.Keys
    ensures cell.Wired() && cell.tree == Plug(RotatedRight(t), c)
    ensures cell.mem.Keys == old(cell.mem.Keys) && Inorder(cell.tree) == old(Inorder(cell.tree))
  {
    hide Plug, RightTurn, Forms;
    ghost var m, root0 := cell.mem, cell.root;
    TurnReady(t, c, root0, m);
    TurnRight(node, cell);
    RightTurnRotates(t, c, root0, cell.root, m, cell.mem);
    RotatedEntries(t, c);
    cell.tree := Plug(RotatedRight(t), c);
  }

  method Recolor(node: Node, color: Color, cell: Cell)
    requires cell.BaseMirrored() && cell.ExtraMirrored() && node in cell.mem
    modifies cell`mem, node`color
    ensures cell.BaseMirrored() && cell.ExtraMirrored()
    ensures cell.mem == old(cell.mem)[node := old(cell.mem)[node].(color := color)]
  {
    node.color := color;
    cell.mem := cell.mem[node := cell.mem[node].(color := color)];
  }

  /** The node at the top of `t` gets a colour. */
  method Paint(node: Node, color: Color, cell: Cell, ghost t: Tree, ghost c: Ctx)
    requires cell.Wired() && cell.tree == Plug(t, c) && t.Bin? && t.item.at == node
    modifies cell`tree, cell`mem, cell.mem.Keys`color
    ensures cell.Wired() && cell.tree == Plug(Painted(t, color), c)
    ensures cell.mem.Keys == old(cell.mem.Keys) && Inorder(cell.tree) == old(Inorder(cell.tree))
  {
    hide Plug, Forms, Inorder;
    ghost var i, m := t.item.(color := color), cell.mem;
    ItemWritten(t, i, c, cell.root, m);
    ItemEntries(t, i, c);
    Around(t, c, cell.root, m);
    assert Rewritten(m[node], i) == m[node].(color := color);
    Recolor(node, color, cell);
    cell.tree := Plug(t.(item := i), c);
  }

  predicate IsBlackNode(node: Node?)
    reads if node == null then {} else {node}
  {
    node == null || node.color.Black?
  }

  /** Case 5a: recolour and rotate right at the grandparent. */
  method OuterRight(node: Node, gparent: Node, cell: Cell, ghost t: Tree, ghost c: Ctx)
    requires cell.Wired() && cell.tree == Plug(t, c) && t.Bin? && t.item.at == node && RedFocus(t, c)
    requires c.InLeft? && c.item.color.Red? && c.up.InLeft? && !IsRed(c.up.right) && gparent == c.up.item.at
    modifies cell, cell.mem.Keys
    ensures cell.Wired() && RedBlack(cell.tree)
    ensures cell.mem.Keys == old(cell.mem.Keys) && Inorder(cell.tree) == old(Inorder(cell.tree))
  {
    ghost var p, g, u, cc := c.item, c.up.item.(color := Red), c.up.right, c.up.up;
    OuterRotationRestores(t, c);
    Around(t, c, cell.root, cell.mem);
    Paint(gparent, Red, cell, Bin(Bin(t, p, c.right), c.up.item, u), cc);
    Paint(node.parent, Black, cell, Bin(t, p, c.right), InLeft(g, u, cc));
    RotateRight(gparent, cell, Bin(Bin(t, p.(color := Black), c.right), g, u), cc);
  }

  /** Case 5b: recolour and rotate left at the grandparent. */
  method OuterLeft(node: Node, gparent: Node, cell: Cell, ghost t: Tree, ghost c: Ctx)
    requires cell.Wired() && cell.tree == Plug(t, c) && t.Bin? && t.item.at == node && RedFocus(t, c)
    requires c.InRight? && c.item.color.Red? && c.up.InRight? && !IsRed(c.up.left) && gparent == c.up.item.at
    modifies cell, cell.mem.Keys
    ensures cell.Wired() && RedBlack(cell.tree)
    ensures cell.mem.Keys == old(cell.mem.Keys) && Inorder(cell.tree) == old(Inorder(cell.tree))
  {
    ghost var p, g, u, cc := c.item, c.up.item.(color := Red), c.up.left, c.up.up;
    OuterRotationRestores(t, c);
    Around(t, c, cell.root, cell.mem);
    Paint(gparent, Red, cell, Bin(u, c.up.item, Bin(c.left, p, t)), cc);
    Paint(node.parent, Black, cell, Bin(c.left, p, t), InRight(u, g, cc));
    RotateLeft(gparent, cell, Bin(u, g, Bin(c.left, p.(color := Black), t)), cc);
  }

  /** Cases 4a and 5a: the parent is a left child. */
  method RotateUpRight(node: Node, gparent: Node, cell: Cell, ghost t: Tree, ghost c: Ctx)
    requires cell.Wired() && cell.tree == Plug(t, c) && t.Bin? && t.item.at == node && RedFocus(t, c)
    requires !c.Top? && c.item.color.Red? && c.up.InLeft? && !IsRed(c.up.right) && gparent == c.up.item.at
    modifies cell, cell.mem.Keys
    ensures cell.Wired() && RedBlack(cell.tree)
    ensures cell.mem.Keys == old(cell.mem.Keys) && Inorder(cell.tree) == old(Inorder(cell.tree))
  {
    Around(t, c, cell.root, cell.mem);
    if node == node.parent.right {
      InnerRotationKeepsFocus(t, c);
      RotateLeft(node.parent, cell, Wrap(t, c), c.up);
      Around(RotatedLeft(Wrap(t, c)), c.up, cell.root, cell.mem);
      OuterRight(node.left, gparent, cell, Bin(c.left, c.item, t.left), InLeft(t.item, t.right, c.up));
    } else {
      OuterRight(node, gparent, cell, t, c);
    }
  }

  /** Cases 4b and 5b: the parent is a right child. */
  method RotateUpLeft(node: Node, gparent: Node, cell: Cell, ghost t: Tree, ghost c: Ctx)
    requires cell.Wired() && cell.tree == Plug(t, c) && t.Bin? && t.item.at == node && RedFocus(t, c)
    requires !c.Top? && c.item.color.Red? && c.up.InRight? && !IsRed(c.up.left) && gparent == c.up.item.at
    modifies cell, cell.mem.Keys
    ensures cell.Wired() && RedBlack(cell.tree)
    ensures cell.mem.Keys == old(cell.mem.Keys) && Inorder(cell.tree) == old(Inorder(cell.tree))
  {
    Around(t, c, cell.root, cell.mem);
    if node == node.parent.left {
      InnerRotationKeepsFocus(t, c);
      RotateRight(node.parent, cell, Wrap(t, c), c.up);
      Around(RotatedRight(Wrap(t, c)), c.up, cell.root, cell.mem);
      OuterLeft(node.right, gparent, cell, Bin(t.right, c.item, c.right), InRight(t.left, t.item, c.up));
    } else {
      OuterLeft(node, gparent, cell, t, c);
    }
  }

  function Uncle(node: Node): Node?
    requires node.parent != null && node.parent.parent != null
    reads node, node.parent, node.parent.parent
  {
    var gparent := node.parent.parent;
    if gparent.left == node.parent then gparent.right else gparent.left
  }

  /** Case 3: recolour parent, uncle and grandparent. */
  method FlipColors(node: Node, uncle: Node, gparent: Node, cell: Cell, ghost t: Tree, ghost c: Ctx)
    requires cell.Wired() && cell.tree == Plug(t, c) && t.Bin? && t.item.at == node && RedFocus(t, c)
    requires !c.Top? && c.item.color.Red? && !c.up.Top? && IsRed(Sibling(c.up))
    requires uncle == Sibling(c.up).item.at && gparent == c.up.item.at
    modifies cell, cell.mem.Keys
    ensures cell.Wired() && cell.tree == Plug(Flipped(t, c), c.up.up)
    ensures cell.mem.Keys == old(cell.mem.Keys) && Inorder(cell.tree) == old(Inorder(cell.tree))
  {
    ghost var p, g, u, cc := Wrap(t, c), c.up.item, Sibling(c.up), c.up.up;
    Around(t, c, cell.root, cell.mem);
    ghost var p', u' := Painted(p, Black), Painted(u, Black);
    Paint(node.parent, Black, cell, p, c.up);
    Paint(uncle, Black, cell, u, if c.up.InLeft? then InRight(p', g, cc) else InLeft(g, p', cc));
    Paint(gparent, Red, cell, if c.up.InLeft? then Bin(p', g, u') else Bin(u', g, p'), cc);
  }

  /** The climb after an insertion. `t` is the red focus at `node`, `c` its surroundings. */
  method BalanceInsert(node: Node, cell: Cell, ghost t: Tree, ghost c: Ctx)
    requires cell.Wired() && cell.tree == Plug(t, c) && t.Bin? && t.item.at == node && RedFocus(t, c)
    modifies cell, cell.mem.Keys
    ensures cell.Wired() && RedBlack(cell.tree)
    ensures cell.mem.Keys == old(cell.mem.Keys) && Inorder(cell.tree) == old(Inorder(cell.tree))
  {
    var n := node;
    ghost var ft, fc := t, c;
    while true
      invariant cell.Wired() && cell.tree == Plug(ft, fc) && ft.Bin? && ft.item.at == n && RedFocus(ft, fc)
      invariant cell.mem.Keys == old(cell.mem.Keys) && Inorder(cell.tree) == old(Inorder(cell.tree))
      decreases fc
    {
      Around(ft, fc, cell.root, cell.mem);
      InsertStops(ft, fc);
      if n.parent == null {
        Paint(n, Black, cell, ft, fc);
        break;
      }
      if IsBlackNode(n.parent) {
        break;
      }
      Around(Wrap(ft, fc), fc.up, cell.root, cell.mem);
      var uncle, gparent := Uncle(n), n.parent.parent;
      if uncle != null && uncle.color.Red? {
        FlipColors(n, uncle, gparent, cell, ft, fc);
        FlipKeepsFocus(ft, fc);
        n, ft, fc := gparent, Flipped(ft, fc), fc.up.up;
      } else {
        if n.parent == gparent.left {
          RotateUpRight(n, gparent, cell, ft, fc);
        } else {
          RotateUpLeft(n, gparent, cell, ft, fc);
        }
        break;
      }
    }
  }

  // ----- removal -----

  /** Case 2: a red sibling is rotated above the parent. */
  method LiftRedSibling(node: Node, sibling: Node, cell: Cell, ghost t: Tree, ghost c: Ctx)
    requires cell.Wired() && cell.tree == Plug(t, c) && t.Bin? && t.item.at == node
    requires !c.Top? && IsRed(Sibling(c)) && sibling == Sibling(c).item.at
    modifies cell, cell.mem.Keys
    ensures cell.Wired() && cell.tree == Plug(t, RedSiblingStep(c)) && cell.mem.Keys == old(cell.mem.Keys)
  {
    ghost var d, s := ParentPainted(c, Red), Painted(Sibling(c), Black);
    Around(t, c, cell.root, cell.mem);
    var left := node == node.parent.left;
    Paint(node.parent, Red, cell, Wrap(t, c), c.up);
    Paint(sibling, Black, cell, Sibling(c), Across(t, d));
    if left {
      RotateLeft(node.parent, cell, Bin(t, d.item, s), c.up);
    } else {
      RotateRight(node.parent, cell, Bin(s, d.item, t), c.up);
    }
  }

  /** Case 4: the near nephew is rotated above the sibling. */
  method LiftNear(node: Node, sibling: Node, cell: Cell, ghost t: Tree, ghost c: Ctx)
    requires cell.Wired() && cell.tree == Plug(t, c) && t.Bin? && t.item.at == node
    requires !c.Top? && Sibling(c).Bin? && NearIsRed(c) && sibling == Sibling(c).item.at
    modifies cell, cell.mem.Keys
    ensures cell.Wired() && cell.tree == Plug(t, NearStep(c)) && cell.mem.Keys == old(cell.mem.Keys)
  {
    ghost var s, a := Painted(Sibling(c), Red), Across(t, c);
    Around(t, c, cell.root, cell.mem);
    Around(Sibling(c), a, cell.root, cell.mem);
    var left := node == node.parent.left;
    Paint(sibling, Red, cell, Sibling(c), a);
    if left {
      Paint(sibling.left, Black, cell, s.left, InLeft(s.item, s.right, a));
      RotateRight(sibling, cell, Bin(Painted(s.left, Black), s.item, s.right), a);
    } else {
      Paint(sibling.right, Black, cell, s.right, InRight(s.left, s.item, a));
      RotateLeft(sibling, cell, Bin(s.left, s.item, Painted(s.right, Black)), a);
    }
  }

  /** The sibling takes over the colour of the parent, which turns black. */
  method TradeColors(node: Node, sibling: Node, cell: Cell, ghost t: Tree, ghost c: Ctx)
    requires cell.Wired() && cell.tree == Plug(t, c) && t.Bin? && t.item.at == node
    requires !c.Top? && Sibling(c).Bin? && sibling == Sibling(c).item.at
    modifies cell, cell.mem.Keys`color
    ensures cell.Wired() && cell.mem.Keys == old(cell.mem.Keys)
    ensures cell.tree == Plug(t, ParentPainted(SiblingPainted(c, c.item.color), Black))
  {
    Around(t, c, cell.root, cell.mem);
    Paint(sibling, node.parent.color, cell, Sibling(c), Across(t, c));
    Paint(node.parent, Black, cell, Wrap(t, SiblingPainted(c, c.item.color)), c.up);
  }

  /** Case 5: the rotation at the parent that ends the climb. */
  method LiftFar(node: Node, sibling: Node, cell: Cell, ghost t: Tree, ghost c: Ctx)
    requires cell.Wired() && cell.tree == Plug(t, c) && t.Bin? && t.item.at == node
    requires !c.Top? && Sibling(c).Bin? && FarIsRed(c) && sibling == Sibling(c).item.at
    modifies cell, cell.mem.Keys
    ensures cell.Wired() && cell.tree == Plug(t, FarStep(c)) && cell.mem.Keys == old(cell.mem.Keys)
  {
    ghost var d := ParentPainted(SiblingPainted(c, c.item.color), Black);
    assert FarTurn(d) == FarStep(c);
    hide Plug;
    TradeColors(node, sibling, cell, t, c);
    TurnFar(node, sibling, cell, t, d);
  }

  /** The last writes of case 5: the far nephew turns black and the sibling is rotated above the parent. */
  method TurnFar(node: Node, sibling: Node, cell: Cell, ghost t: Tree, ghost c: Ctx)
    requires cell.Wired() && cell.tree == Plug(t, c) && t.Bin? && t.item.at == node
    requires !c.Top? && Sibling(c).Bin? && FarIsRed(c) && sibling == Sibling(c).item.at
    modifies cell, cell.mem.Keys
    ensures cell.Wired() && cell.tree == Plug(t, FarTurn(c)) && cell.mem.Keys == old(cell.mem.Keys)
  {
    ghost var s, a := Sibling(c), Across(t, c);
    Around(t, c, cell.root, cell.mem);
    Around(s, a, cell.root, cell.mem);
    if node == node.parent.left {
      Paint(sibling.right, Black, cell, s.right, InRight(s.left, s.item, a));
      ghost var w := Bin(t, c.item, Bin(s.left, s.item, Painted(s.right, Black)));
      assert cell.tree == Plug(w, c.up);
      RotateLeft(node.parent, cell, w, c.up);
    } else {
      Paint(sibling.left, Black, cell, s.left, InLeft(s.item, s.right, a));
      ghost var w := Bin(Bin(Painted(s.left, Black), s.item, s.right), c.item, t);
      assert cell.tree == Plug(w, c.up);
      RotateRight(node.parent, cell, w, c.up);
    }
  }

  function SiblingOf(node: Node): Node?
    requires node.parent != null
    reads node, node.parent
  {
    if node.parent.left == node then node.parent.right else node.parent.left
  }

  /** One turn of the removal climb below a parent. Either the defect is gone, or it sits one level up. */
  method RemoveTurn(node: Node, cell: Cell, ghost t: Tree, ghost v: Tree, ghost c: Ctx)
    returns (again: bool, ghost e: Ctx)
    requires cell.Wired() && cell.tree == Plug(t, c) && t.Bin? && t.item.at == node && ShortFocus(v, c) && !c.Top?
    modifies cell, cell.mem.Keys
    ensures cell.Wired() && cell.tree == Plug(t, e) && cell.mem.Keys == old(cell.mem.Keys) && SameAround(c, e)
    ensures again ==> !e.Top? && e.up == c.up && ShortFocus(Wrap(v, e), e.up)
    ensures !again ==> RedBlack(Plug(v, e))
  {
    var sibling;
    sibling, e := BlackSibling(node, cell, t, v, c);
    Around(Sibling(e), Across(t, e), cell.root, cell.mem);
    if IsBlackNode(sibling.left) && IsBlackNode(sibling.right) {
      again, e := RepaintSibling(node, sibling, cell, t, v, e);
    } else {
      again := false;
      e := FinishRemoval(node, sibling, cell, t, v, e);
    }
  }

  /** The sibling, after case 2 if it was red; then the parent is red and the climb is about to end. */
  method BlackSibling(node: Node, cell: Cell, ghost t: Tree, ghost v: Tree, ghost c: Ctx)
    returns (sibling: Node, ghost e: Ctx)
    requires cell.Wired() && cell.tree == Plug(t, c) && t.Bin? && t.item.at == node && ShortFocus(v, c) && !c.Top?
    modifies cell, cell.mem.Keys
    ensures cell.Wired() && cell.tree == Plug(t, e) && cell.mem.Keys == old(cell.mem.Keys) && SameAround(c, e)
    ensures ShortFocus(v, e) && !e.Top? && Sibling(e).Bin? && !IsRed(Sibling(e)) && sibling == Sibling(e).item.at
    ensures e.item.color.Black? ==> e == c
  {
    Around(t, c, cell.root, cell.mem);
    SiblingExists(v, c);
    sibling, e := SiblingOf(node), c;
    if sibling.color.Red? {
      LiftRedSibling(node, sibling, cell, t, c);
      RedSiblingKeeps(v, c);
      e := RedSiblingStep(c);
      Around(t, e, cell.root, cell.mem);
      sibling := SiblingOf(node);
    }
  }

  /** Case 3. */
  method RepaintSibling(node: Node, sibling: Node, cell: Cell, ghost t: Tree, ghost v: Tree, ghost c: Ctx)
    returns (again: bool, ghost e: Ctx)
    requires cell.Wired() && cell.tree == Plug(t, c) && t.Bin? && t.item.at == node && ShortFocus(v, c)
    requires !c.Top? && Sibling(c).Bin? && !IsRed(Sibling(c)) && sibling == Sibling(c).item.at
    requires !NearIsRed(c) && !FarIsRed(c)
    modifies cell, cell.mem.Keys
    ensures cell.Wired() && cell.tree == Plug(t, e) && cell.mem.Keys == old(cell.mem.Keys) && SameAround(c, e)
    ensures again ==> c.item.color.Black? && !e.Top? && e.up == c.up && ShortFocus(Wrap(v, e), e.up)
    ensures !again ==> RedBlack(Plug(v, e))
  {
    Around(t, c, cell.root, cell.mem);
    SiblingFlip(v, c);
    Paint(sibling, Red, cell, Sibling(c), Across(t, c));
    e := SiblingPainted(c, Red);
    Around(t, e, cell.root, cell.mem);
    again := IsBlackNode(node.parent);
    if !again {
      Paint(node.parent, Black, cell, Wrap(t, e), e.up);
      e := ParentPainted(e, Black);
    }
  }

  /** The climb before a black leaf is unlinked: `x` is the subtree of the doomed node, which the red-black
      count already takes to be `xv`. Returns the surroundings of `x` afterwards. */
  method BalanceRemove(node: Node, cell: Cell, ghost x: Tree, ghost xv: Tree, ghost c: Ctx)
    returns (ghost d: Ctx)
    requires cell.Wired() && cell.tree == Plug(x, c) && x.Bin? && x.item.at == node && ShortFocus(xv, c)
    modifies cell, cell.mem.Keys
    ensures cell.Wired() && cell.tree == Plug(x, d) && cell.mem.Keys == old(cell.mem.Keys)
    ensures RedBlack(Plug(xv, d)) && SameAround(c, d)
  {
    var n := node;
    ghost var inner, outer := Top, c;
    while true
      invariant cell.Wired() && cell.mem.Keys == old(cell.mem.Keys)
      invariant cell.tree == Plug(Plug(x, inner), outer) && SameAround(c, Append(inner, outer))
      invariant Plug(x, inner).Bin? && Plug(x, inner).item.at == n
      invariant ShortFocus(Plug(xv, inner), outer)
      decreases outer
    {
      ghost var t, v := Plug(x, inner), Plug(xv, inner);
      Around(t, outer, cell.root, cell.mem);
      if n.parent == null {
        RedBlackPlug(v, outer);
        PlugAppend(x, inner, outer);
        PlugAppend(xv, inner, outer);
        return Append(inner, outer);
      }
      var again;
      ghost var e;
      again, e := RemoveTurn(n, cell, t, v, outer);
      SameAroundAppend(inner, outer, e);
      if !again {
        PlugAppend(x, inner, e);
        PlugAppend(xv, inner, e);
        return Append(inner, e);
      }
      Around(t, e, cell.root, cell.mem);
      n := n.parent;
      AppendAssociative(inner, Step(e), e.up);
      PlugAppend(x, inner, Step(e));
      PlugAppend(xv, inner, Step(e));
      inner, outer := Append(inner, Step(e)), outer.up;
    }
  }

  /** Cases 4 and 5. */
  method FinishRemoval(node: Node, sibling: Node, cell: Cell, ghost t: Tree, ghost v: Tree, ghost c: Ctx)
    returns (ghost d: Ctx)
    requires cell.Wired() && cell.tree == Plug(t, c) && t.Bin? && t.item.at == node && ShortFocus(v, c)
    requires !c.Top? && Sibling(c).Bin? && !IsRed(Sibling(c)) && sibling == Sibling(c).item.at
    requires NearIsRed(c) || FarIsRed(c)
    modifies cell, cell.mem.Keys
    ensures cell.Wired() && cell.tree == Plug(t, d) && cell.mem.Keys == old(cell.mem.Keys)
    ensures RedBlack(Plug(v, d)) && SameAround(c, d)
  {
    Around(t, c, cell.root, cell.mem);
    Around(Sibling(c), Across(t, c), cell.root, cell.mem);
    var s := sibling;
    d := c;
    if node == node.parent.left && IsBlackNode(sibling.right) {
      LiftNear(node, sibling, cell, t, c);
      NearKeeps(v, c);
      d := NearStep(c);
      Around(t, d, cell.root, cell.mem);
      s := SiblingOf(node);
    } else if node == node.parent.right && IsBlackNode(sibling.left) {
      LiftNear(node, sibling, cell, t, c);
      NearKeeps(v, c);
      d := NearStep(c);
      Around(t, d, cell.root, cell.mem);
      s := SiblingOf(node);
    }
    FarRestores(v, d);
    LiftFar(node, s, cell, t, d);
    d := FarStep(d);
  }

  /** A red-black search tree at rest. */
  ghost predicate Valid(cell: Cell)
    reads cell, cell.mem.Keys
  {
    cell.Wired() && RedBlack(cell.tree) && Sorted(Inorder(cell.tree))
  }

  /** The part of `p_tree_rb_insert` that adds a node in the empty slot. */
  method AddLeaf(key: Key, value: Pointer, slot: Slot, parent: Node?, cell: Cell, ghost c: Ctx)
    requires Valid(cell) && cell.tree == Plug(Leaf, c) && slot == SlotOf(c) && Belongs(key, c)
    requires parent == Above(c)
    modifies cell, cell.mem.Keys
    ensures Valid(cell) && fresh(cell.mem.Keys - old(cell.mem.Keys))
    ensures key.rank !in old(Contents(cell))
    ensures Contents(cell) == old(Contents(cell))[key.rank := Entry(key, value)]
  {
    var n := new Node(key, value, parent);
    n.color := Red;
    ghost var i := Item(n, key, value, Red, n.balance);
    LeafAdds(c, i);
    FreshLeafFocus(c, i);
    hide RedFocus, RedBlack, Plug, Sorted, Inorder, AsMap;
    Attach(slot, n, cell, c);
    BalanceInsert(n, cell, Bin(Leaf, i, Leaf), c);
  }

  /** `p_tree_rb_insert`. */
  method Insert(cell: Cell, key: Key, value: Pointer) returns (added: bool, destroyed: seq<Entry>)
    requires Valid(cell)
    modifies cell, cell.mem.Keys
    ensures Valid(cell) && fresh(cell.mem.Keys - old(cell.mem.Keys))
    ensures added <==> key.rank !in old(Contents(cell))
    ensures Contents(cell) == old(Contents(cell))[key.rank := Entry(key, value)]
    ensures destroyed == if added then [] else [old(Contents(cell))[key.rank]]
  {
    var slot, parent;
    ghost var t, c;
    slot, parent, t, c := FindSlot(cell, key);
    var cur := cell.Get(slot);
    if cur != null {
      ghost var i := t.item.(key := key, value := value);
      EntryReplaces(t, c, i);
      AlikeRewritten(t, i, c);
      AlikeRedBlack(cell.tree, Plug(t.(item := i), c));
      EntryFound(t, c);
      EntryAt(cur, cell, t, c);
      destroyed := [Entry(cur.key, cur.value)];
      WriteEntry(cur, key, value, cell, t, c);
      return false, destroyed;
    }
    AddLeaf(key, value, slot, parent, cell, c);
    return true, [];
  }

  /** `p_tree_rb_remove`. */
  method Remove(cell: Cell, key: Key) returns (removed: bool, destroyed: seq<Entry>)
    requires Valid(cell)
    modifies cell, cell.mem.Keys
    ensures Valid(cell) && cell.mem.Keys <= old(cell.mem.Keys)
    ensures removed <==> key.rank in old(Contents(cell))
    ensures Contents(cell) == old(Contents(cell)) - {key.rank}
    ensures Destroys(old(cell.tree), key, destroyed)
    ensures removed && Full(Found(old(cell.tree), key)) ==> Has(Contents(cell), destroyed[0])
  {
    var cur, slot;
    ghost var t, c;
    cur, slot, t, c := FindNode(cell, key);
    if cur == null {
      AbsentFromHole(key, c);
      return false, [];
    }
    RestRemoves(t, c);
    DestroyedPair(t, c, key);
    ghost var x, d;
    ghost var tree0 := cell.tree;
    cur, slot, x, d := Victim(cur, slot, cell, t, c);
    AlikeRedBlack(tree0, cell.tree);
    var gone := RemoveNode(cur, cell, x, d);
    return true, [gone];
  }

  /** The part of `p_tree_rb_remove` that takes the doomed node out. */
  method RemoveNode(cur: Node, cell: Cell, ghost x: Tree, ghost c: Ctx) returns (gone: Entry)
    requires cell.Wired() && RedBlack(cell.tree) && cell.tree == Plug(x, c) && x.Bin? && x.item.at == cur
    requires x.left.Leaf? || x.right.Leaf?
    modifies cell, cell.mem.Keys
    ensures cell.Wired() && RedBlack(cell.tree) && cell.mem.Keys == old(cell.mem.Keys) - {cur}
    ensures Inorder(cell.tree) == Before(c) + Inorder(OnlyChild(x)) + After(c) && gone == x.item.Pair()
  {
    Around(x, c, cell.root, cell.mem);
    RemovedNode(x.left, x.item, x.right, c);
    var child := if cur.left == null then cur.right else cur.left;
    ghost var d, u := c, OnlyChild(x);
    if child == null && IsBlackNode(cur) {
      d := BalanceRemove(cur, cell, x, Leaf, c);
    }
    InorderPlug(u, d);
    EntryAt(cur, cell, x, d);
    Unlink(cur, child, cell, x, d);
    if child != null && IsBlackNode(cur) {
      InorderPlug(Painted(u, Black), d);
      Paint(child, Black, cell, u, d);
    }
    gone := Entry(cur.key, cur.value);
  }
}
