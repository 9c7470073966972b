// The AVL back end, plibsys/src/ptree-avl.c.

module AvlTree {
  import opened TreeShape
  import opened TreeMemory
  import opened TreeCell
  import opened TreeWalk
  import opened Entries
  import opened AvlShape

  /** The pointer writes of `pp_tree_avl_rotate_left`: `node` rises over its parent. */
  method RiseLeft(node: Node, cell: Cell)
    requires cell.BaseMirrored() && cell.ExtraMirrored()
    requires node in cell.mem && node.parent != null && node.parent in cell.mem && node.parent != node
    requires node.parent.right == node
    requires node.left != null ==> node.left in cell.mem && node.left !in {node, node.parent}
    requires var g := node.parent.parent;
      g != null ==> g in cell.mem && g !in {node, node.parent} && g != node.left
    modifies cell`root, cell`mem, cell.mem.Keys
    ensures cell.BaseMirrored() && cell.ExtraMirrored() && cell.mem.Keys == old(cell.mem.Keys)
    ensures LeftTurn(old(node.parent), old(cell.root), cell.root, old(cell.mem), cell.mem)
  {
    node.parent.right := node.left;
    if node.left != null {
      node.left.parent := node.parent;
    }
    node.left := node.parent;
    node.parent := node.left.parent;
    node.left.parent := node;
    if node.parent != null {
      ReplaceChild(node.parent, node.left, node);
    } else {
      cell.root := node;
    }
    Refresh(cell, cell.mem.Keys);
  }

  method Rebalance(node: Node, balance: int, cell: Cell)
    requires cell.BaseMirrored() && cell.ExtraMirrored() && node in cell.mem
    modifies cell`mem, node`balance
    ensures cell.BaseMirrored() && cell.ExtraMirrored()
    ensures cell.mem == old(cell.mem)[node := old(cell.mem)[node].(balance := balance)]
  {
    node.balance := balance;
    cell.mem := cell.mem[node := cell.mem[node].(balance := balance)];
  }

  /** The node at the top of `t` gets a balance factor. */
  method Weigh(node: Node, balance: int, cell: Cell, ghost t: Tree, ghost c: Ctx)
    requires cell.Wired() && cell.tree == Plug(t, c) && t.Bin? && t.item.at == node
    modifies cell`tree, cell`mem, cell.mem.Keys`balance
    ensures cell.Wired() && cell.tree == Plug(Weighed(t, balance), c)
    ensures cell.mem.Keys == old(cell.mem.Keys) && node.balance == balance
  {
    hide Plug, Forms;
    ghost var i, m := t.item.(balance := balance), cell.mem;
    ItemWritten(t, i, c, cell.root, m);
    Around(t, c, cell.root, m);
    assert Rewritten(m[node], i) == m[node].(balance := balance);
    Rebalance(node, balance, cell);
    cell.tree := Plug(t.(item := i), c);
  }

  /** The pointer writes of `pp_tree_avl_rotate_right`. */
  method RiseRight(node: Node, cell: Cell)
    requires cell.BaseMirrored() && cell.ExtraMirrored()
    requires node in cell.mem && node.parent != null && node.parent in cell.mem && node.parent != node
    requires node.parent.left == node
    requires node.right != null ==> node.right in cell.mem && node.right !in {node, node.parent}
    requires var g := node.parent.parent;
      g != null ==> g in cell.mem && g !in {node, node.parent} && g != node.right
    modifies cell`root, cell`mem, cell.mem.Keys
    ensures cell.BaseMirrored() && cell.ExtraMirrored() && cell.mem.Keys == old(cell.mem.Keys)
    ensures RightTurn(old(node.parent), old(cell.root), cell.root, old(cell.mem), cell.mem)
  {
    node.parent.left := node.right;
    if node.right != null {
      node.right.parent := node.parent;
    }
    node.right := node.parent;
    node.parent := node.right.parent;
    node.right.parent := node;
    if node.parent != null {
      ReplaceChild(node.parent, node.right, node);
    } else {
      cell.root := node;
    }
    Refresh(cell, cell.mem.Keys);
  }

  method LiftLeft(node: Node, cell: Cell, ghost t: Tree, ghost c: Ctx)
    requires cell.Wired() && cell.tree == Plug(t, c) && t.Bin? && t.right.Bin? && t.right.item.at == node
    modifies cell, cell.mem.Keys
    ensures cell.Wired() && cell.tree == Plug(RotatedLeft(t), c) && cell.mem.Keys == old(cell.mem.Keys)
  {
    hide Plug, LeftTurn, RightTurn, Forms;
    ghost var m, root0 := cell.mem, cell.root;
    TurnReady(t, c, root0, m);
    RiseLeft(node, cell);
    LeftTurnRotates(t, c, root0, cell.root, m, cell.mem);
    cell.tree := Plug(RotatedLeft(t), c);
  }

  /** `pp_tree_avl_rotate_left`; `t` is the subtree of the parent. */
  method RotateLeft(node: Node, cell: Cell, ghost t: Tree, ghost c: Ctx)
    requires cell.Wired() && cell.tree == Plug(t, c) && t.Bin? && t.right.Bin? && t.right.item.at == node
    modifies cell, cell.mem.Keys
    ensures cell.Wired() && cell.tree == Plug(SingleLeft(t), c) && cell.mem.Keys == old(cell.mem.Keys)
  {
    LiftLeft(node, cell, t, c);
    SettleLeft(node, cell, RotatedLeft(t), c);
  }

  /** The repair of balance factors that ends `pp_tree_avl_rotate_left`. */
  method SettleLeft(node: Node, cell: Cell, ghost u: Tree, ghost c: Ctx)
    requires cell.Wired() && cell.tree == Plug(u, c) && u.Bin? && u.left.Bin? && u.item.at == node
    modifies cell, cell.mem.Keys
    ensures cell.Wired() && cell.mem.Keys == old(cell.mem.Keys)
    ensures var b := u.item.balance + 1;
      cell.tree == Plug(Bin(Weighed(u.left, -b), u.item.(balance := b), u.right), c)
  {
    Around(u, c, cell.root, cell.mem);
    ghost var b := u.item.balance + 1;
    Weigh(node, node.balance + 1, cell, u, c);
    Weigh(node.left, -node.balance, cell, u.left, InLeft(u.item.(balance := b), u.right, c));
  }

  method LiftRight(node: Node, cell: Cell, ghost t: Tree, ghost c: Ctx)
    requires cell.Wired() && cell.tree == Plug(t, c) && t.Bin? && t.left.Bin? && t.left.item.at == node
    modifies cell, cell.mem.Keys
    ensures cell.Wired() && cell.tree == Plug(RotatedRight(t), c) && cell.mem.Keys == old(cell.mem.Keys)
  {
    hide Plug, LeftTurn, RightTurn, Forms;
    ghost var m, root0 := cell.mem, cell.root;
    TurnReady(t, c, root0, m);
    RiseRight(node, cell);
    RightTurnRotates(t, c, root0, cell.root, m, cell.mem);
    cell.tree := Plug(RotatedRight(t), c);
  }

  /** `pp_tree_avl_rotate_right`; `t` is the subtree of the parent. */
  method RotateRight(node: Node, cell: Cell, ghost t: Tree, ghost c: Ctx)
    requires cell.Wired() && cell.tree == Plug(t, c) && t.Bin? && t.left.Bin? && t.left.item.at == node
    modifies cell, cell.mem.Keys
    ensures cell.Wired() && cell.tree == Plug(SingleRight(t), c) && cell.mem.Keys == old(cell.mem.Keys)
  {
    LiftRight(node, cell, t, c);
    SettleRight(node, cell, RotatedRight(t), c);
  }

  /** The repair of balance factors that ends `pp_tree_avl_rotate_right`. */
  method SettleRight(node: Node, cell: Cell, ghost u: Tree, ghost c: Ctx)
    requires cell.Wired() && cell.tree == Plug(u, c) && u.Bin? && u.right.Bin? && u.item.at == node
    modifies cell, cell.mem.Keys
    ensures cell.Wired() && cell.mem.Keys == old(cell.mem.Keys)
    ensures var b := u.item.balance - 1;
      cell.tree == Plug(Bin(u.left, u.item.(balance := b), Weighed(u.right, -b)), c)
  {
    Around(u, c, cell.root, cell.mem);
    ghost var b := u.item.balance - 1;
    Weigh(node, node.balance - 1, cell, u, c);
    Weigh(node.right, -node.balance, cell, u.right, InRight(u.left, u.item.(balance := b), c));
  }

  /** The nodes that a double rotation writes to are there and apart: `n` with its parent, and the inner
      grandchild `tmp` that rises over both. */
  predicate DoubleReady(n: Node, tmp: Node?, m: Mem) {
    && n in m && tmp != null && tmp in m && tmp != n
    && var p := m[n].parent;
    && p != null && p in m && p != n && p != tmp
    && var b1, b2, g := m[tmp].left, m[tmp].right, m[p].parent;
    && (b1 != null ==> b1 in m && b1 !in {n, tmp, p} && b1 != b2)
    && (b2 != null ==> b2 in m && b2 !in {n, tmp, p})
    && (g != null ==> g in m && g !in {n, tmp, p} && g != b1 && g != b2)
  }

  /** The writes of a double rotation to the right, at `n` on the left of its parent. */
  ghost predicate LeftRightTurn(n: Node, tmp: Node, root0: Node?, root: Node?, m: Mem, k: Mem) {
    && DoubleReady(n, tmp, m) && k.Keys == m.Keys
    && var p := m[n].parent;
    && var b1, b2, g := m[tmp].left, m[tmp].right, m[p].parent;
    && k[n] == m[n].(right := b1, parent := tmp)
    && k[tmp] == m[tmp].(left := n, right := p, parent := g)
    && k[p] == m[p].(left := b2, parent := tmp)
    && (b1 != null ==> k[b1] == m[b1].(parent := n))
    && (b2 != null ==> k[b2] == m[b2].(parent := p))
    && Relinked(g, p, tmp, root0, root, m, k)
    && forall x <- m :: x !in {n, tmp, p} && x != b1 && x != b2 && x != g ==> k[x] == m[x]
  }

  /** The first writes of `pp_tree_avl_rotate_left_right`: the left child of `tmp` becomes the right child
      of `node`. */
  method PassInnerLeft(node: Node, tmp: Node, cell: Cell)
    requires cell.BaseMirrored() && cell.ExtraMirrored() && node in cell.mem && node != tmp && node.right == tmp
    requires tmp.left != null ==> tmp.left in cell.mem && tmp.left !in {node, tmp}
    modifies cell`mem, cell.mem.Keys
    ensures cell.BaseMirrored() && cell.ExtraMirrored() && cell.mem.Keys == old(cell.mem.Keys)
    ensures var m, k, b := old(cell.mem), cell.mem, old(tmp.left);
      && k[node] == m[node].(right := b)
      && (b != null ==> k[b] == m[b].(parent := node))
      && forall x <- k :: x != node && x != b ==> k[x] == m[x]
  {
    node.right := tmp.left;
    if node.right != null {
      node.right.parent := node;
    }
    Refresh(cell, cell.mem.Keys);
  }

  /** The remaining pointer writes of `pp_tree_avl_rotate_left_right`: `tmp` rises over the parent. */
  method RiseOverParentLeft(node: Node, tmp: Node, cell: Cell)
    requires cell.BaseMirrored() && cell.ExtraMirrored() && node in cell.mem && tmp in cell.mem && node != tmp
    requires var p := node.parent;
      && p != null && p in cell.mem && p !in {node, tmp}
      && (tmp.right != null ==> tmp.right in cell.mem && tmp.right !in {node, tmp, p})
      && (p.parent != null ==> p.parent in cell.mem && p.parent !in {node, tmp, p} && p.parent != tmp.right)
    modifies cell`root, cell`mem, cell.mem.Keys
    ensures cell.BaseMirrored() && cell.ExtraMirrored() && cell.mem.Keys == old(cell.mem.Keys)
    ensures var m, k, p := old(cell.mem), cell.mem, old(node.parent);
      var b, g := m[tmp].right, m[p].parent;
      && k[node] == m[node].(parent := tmp)
      && k[tmp] == m[tmp].(left := node, right := p, parent := g)
      && k[p] == m[p].(left := b, parent := tmp)
      && (b != null ==> k[b] == m[b].(parent := p))
      && Relinked(g, p, tmp, old(cell.root), cell.root, m, k)
      && forall x <- k :: x !in {node, tmp, p} && x != b && x != g ==> k[x] == m[x]
  {
    tmp.parent := node.parent.parent;
    if tmp.parent != null {
      ReplaceChild(tmp.parent, node.parent, tmp);
    } else {
      cell.root := tmp;
    }
    node.parent.left := tmp.right;
    if node.parent.left != null {
      node.parent.left.parent := node.parent;
    }
    tmp.right := node.parent;
    tmp.right.parent := tmp;
    tmp.left := node;
    node.parent := tmp;
    Refresh(cell, cell.mem.Keys);
  }

  /** The pointer writes of `pp_tree_avl_rotate_left_right`. */
  method RiseLeftRight(node: Node, cell: Cell)
    requires cell.BaseMirrored() && cell.ExtraMirrored() && DoubleReady(node, node.right, cell.mem)
    modifies cell`root, cell`mem, cell.mem.Keys
    ensures cell.BaseMirrored() && cell.ExtraMirrored() && cell.mem.Keys == old(cell.mem.Keys)
    ensures LeftRightTurn(node, old(node.right), old(cell.root), cell.root, old(cell.mem), cell.mem)
  {
    var tmp := node.right;
    PassInnerLeft(node, tmp, cell);
    RiseOverParentLeft(node, tmp, cell);
  }

  /** Memory half way through a double rotation to the right, after the turn at `n` alone. */
  function HalfTurnedLeft(n: Node, tmp: Node, m: Mem): Mem
    requires n in m && tmp in m && m[n].parent != null && m[n].parent in m
  {
    var h := m[n := m[n].(right := m[tmp].left, parent := tmp)]
              [tmp := m[tmp].(left := n, parent := m[n].parent)]
              [m[n].parent := m[m[n].parent].(left := tmp)];
    var b1 := m[tmp].left;
    if b1 != null && b1 in m then h[b1 := m[b1].(parent := n)] else h
  }

  lemma DoubleRightIsTwoTurns(n: Node, tmp: Node, root0: Node?, root: Node?, m: Mem, k: Mem)
    requires LeftRightTurn(n, tmp, root0, root, m, k) && m[n].right == tmp && m[m[n].parent].left == n
    ensures LeftTurn(n, root0, root0, m, HalfTurnedLeft(n, tmp, m))
    ensures RightTurn(m[n].parent, root0, root, HalfTurnedLeft(n, tmp, m), k)
  {
  }

  /** The writes of a double rotation to the left, at `n` on the right of its parent. */
  ghost predicate RightLeftTurn(n: Node, tmp: Node, root0: Node?, root: Node?, m: Mem, k: Mem) {
    && DoubleReady(n, tmp, m) && k.Keys == m.Keys
    && var p := m[n].parent;
    && var b1, b2, g := m[tmp].right, m[tmp].left, m[p].parent;
    && k[n] == m[n].(left := b1, parent := tmp)
    && k[tmp] == m[tmp].(right := n, left := p, parent := g)
    && k[p] == m[p].(right := b2, parent := tmp)
    && (b1 != null ==> k[b1] == m[b1].(parent := n))
    && (b2 != null ==> k[b2] == m[b2].(parent := p))
    && Relinked(g, p, tmp, root0, root, m, k)
    && forall x <- m :: x !in {n, tmp, p} && x != b1 && x != b2 && x != g ==> k[x] == m[x]
  }

  /** The first writes of `pp_tree_avl_rotate_right_left`: the right child of `tmp` becomes the left child
      of `node`. */
  method PassInnerRight(node: Node, tmp: Node, cell: Cell)
    requires cell.BaseMirrored() && cell.ExtraMirrored() && node in cell.mem && node != tmp && node.left == tmp
    requires tmp.right != null ==> tmp.right in cell.mem && tmp.right !in {node, tmp}
    modifies cell`mem, cell.mem.Keys
    ensures cell.BaseMirrored() && cell.ExtraMirrored() && cell.mem.Keys == old(cell.mem.Keys)
    ensures var m, k, b := old(cell.mem), cell.mem, old(tmp.right);
      && k[node] == m[node].(left := b)
      && (b != null ==> k[b] == m[b].(parent := node))
      && forall x <- k :: x != node && x != b ==> k[x] == m[x]
  {
    node.left := tmp.right;
    if node.left != null {
      node.left.parent := node;
    }
    Refresh(cell, cell.mem.Keys);
  }

  /** The remaining pointer writes of `pp_tree_avl_rotate_right_left`: `tmp` rises over the parent. */
  method RiseOverParentRight(node: Node, tmp: Node, cell: Cell)
    requires cell.BaseMirrored() && cell.ExtraMirrored() && node in cell.mem && tmp in cell.mem && node != tmp
    requires var p := node.parent;
      && p != null && p in cell.mem && p !in {node, tmp}
      && (tmp.left != null ==> tmp.left in cell.mem && tmp.left !in {node, tmp, p})
      && (p.parent != null ==> p.parent in cell.mem && p.parent !in {node, tmp, p} && p.parent != tmp.left)
    modifies cell`root, cell`mem, cell.mem.Keys
    ensures cell.BaseMirrored() && cell.ExtraMirrored() && cell.mem.Keys == old(cell.mem.Keys)
    ensures var m, k, p := old(cell.mem), cell.mem, old(node.parent);
      var b, g := m[tmp].left, m[p].parent;
      && k[node] == m[node].(parent := tmp)
      && k[tmp] == m[tmp].(right := node, left := p, parent := g)
      && k[p] == m[p].(right := b, parent := tmp)
      && (b != null ==> k[b] == m[b].(parent := p))
      && Relinked(g, p, tmp, old(cell.root), cell.root, m, k)
      && forall x <- k :: x !in {node, tmp, p} && x != b && x != g ==> k[x] == m[x]
  {
    tmp.parent := node.parent.parent;
    if tmp.parent != null {
      ReplaceChild(tmp.parent, node.parent, tmp);
    } else {
      cell.root := tmp;
    }
    node.parent.right := tmp.left;
    if node.parent.right != null {
      node.parent.right.parent := node.parent;
    }
    tmp.left := node.parent;
    tmp.left.parent := tmp;
    tmp.right := node;
    node.parent := tmp;
    Refresh(cell, cell.mem.Keys);
  }

  /** The pointer writes of `pp_tree_avl_rotate_right_left`. */
  method RiseRightLeft(node: Node, cell: Cell)
    requires cell.BaseMirrored() && cell.ExtraMirrored() && DoubleReady(node, node.left, cell.mem)
    modifies cell`root, cell`mem, cell.mem.Keys
    ensures cell.BaseMirrored() && cell.ExtraMirrored() && cell.mem.Keys == old(cell.mem.Keys)
    ensures RightLeftTurn(node, old(node.left), old(cell.root), cell.root, old(cell.mem), cell.mem)
  {
    var tmp := node.left;
    PassInnerRight(node, tmp, cell);
    RiseOverParentRight(node, tmp, cell);
  }

  /** Memory half way through a double rotation to the left, after the turn at `n` alone. */
  function HalfTurnedRight(n: Node, tmp: Node, m: Mem): Mem
    requires n in m && tmp in m && m[n].parent != null && m[n].parent in m
  {
    var h := m[n := m[n].(left := m[tmp].right, parent := tmp)]
              [tmp := m[tmp].(right := n, parent := m[n].parent)]
              [m[n].parent := m[m[n].parent].(right := tmp)];
    var b1 := m[tmp].right;
    if b1 != null && b1 in m then h[b1 := m[b1].(parent := n)] else h
  }

  lemma DoubleLeftIsTwoTurns(n: Node, tmp: Node, root0: Node?, root: Node?, m: Mem, k: Mem)
    requires RightLeftTurn(n, tmp, root0, root, m, k) && m[n].left == tmp
    requires m[m[n].parent].right == n && m[m[n].parent].left != n
    ensures RightTurn(n, root0, root0, m, HalfTurnedRight(n, tmp, m))
    ensures LeftTurn(m[n].parent, root0, root, HalfTurnedRight(n, tmp, m), k)
  {
  }

  // ----- double rotations on trees -----

  /** The repair of balance factors that ends both double rotations. */
  method SettleDouble(tmp: Node, cell: Cell, ghost u: Tree, ghost c: Ctx)
    requires cell.Wired() && cell.tree == Plug(u, c) && u.Bin? && u.left.Bin? && u.right.Bin? && u.item.at == tmp
    modifies cell, cell.mem.Keys
    ensures cell.Wired() && cell.mem.Keys == old(cell.mem.Keys)
    ensures var b := u.item.balance;
      cell.tree == Plug(Bin(Weighed(u.left, LowBalance(b)), u.item.(balance := 0), Weighed(u.right, HighBalance(b))), c)
  {
    hide Forms;
    Around(u, c, cell.root, cell.mem);
    var low, high := tmp.left, tmp.right;
    var lowBalance, highBalance := 0, 0;
    if tmp.balance == 1 {
      highBalance := -1;
    } else if tmp.balance == -1 {
      lowBalance := 1;
    }
    Weigh(low, lowBalance, cell, u.left, InLeft(u.item, u.right, c));
    Weigh(high, highBalance, cell, u.right, InRight(Weighed(u.left, lowBalance), u.item, c));
    Weigh(tmp, 0, cell, Bin(Weighed(u.left, lowBalance), u.item, Weighed(u.right, highBalance)), c);
  }

  lemma DoubleRightReady(t: Tree, c: Ctx, root: Node?, m: Mem)
    requires Forms(Plug(t, c), root, m) && t.Bin? && t.left.Bin? && t.left.right.Bin?
    ensures var n, tmp := t.left.item.at, t.left.right.item.at;
      DoubleReady(n, tmp, m) && m[n].right == tmp && m[n].parent == t.item.at && m[t.item.at].left == n
  {
    var l := t.left;
    TurnReady(t, c, root, m);
    TurnReady(l, InLeft(t.item, t.right, c), root, m);
    TurnReady(l.right, InRight(l.left, l.item, InLeft(t.item, t.right, c)), root, m);
    NodesPlug(t, c);
    MiddleNodes(l.right, l.left, l.item, Nodes(l));
  }

  lemma DoubleLeftReady(t: Tree, c: Ctx, root: Node?, m: Mem)
    requires Forms(Plug(t, c), root, m) && t.Bin? && t.right.Bin? && t.right.left.Bin?
    ensures var n, tmp := t.right.item.at, t.right.left.item.at;
      && DoubleReady(n, tmp, m) && m[n].left == tmp && m[n].parent == t.item.at
      && m[t.item.at].right == n && m[t.item.at].left != n
  {
    var r := t.right;
    TurnReady(t, c, root, m);
    TurnReady(r, InRight(t.left, t.item, c), root, m);
    TurnReady(r.left, InLeft(r.item, r.right, InRight(t.left, t.item, c)), root, m);
    NodesPlug(t, c);
    MiddleNodes(r.left, r.right, r.item, Nodes(r));
    assert t.left.Bin? ==> t.left.item.at in Nodes(t.left);
  }

  /** The children of a middle subtree are distinct nodes of the set around it. */
  lemma MiddleNodes(t: Tree, s: Tree, i: Item, all: set<Node>)
    requires t.Bin? && Distinct(t) && Nodes(t) + Nodes(s) + {i.at} == all
    ensures t.item.at in all
    ensures t.left.Bin? ==> t.left.item.at in all && t.left.item.at != t.item.at
    ensures t.right.Bin? ==> t.right.item.at in all && t.right.item.at != t.item.at
    ensures t.left.Bin? && t.right.Bin? ==> t.left.item.at != t.right.item.at
  {
    assert t.left.Bin? ==> t.left.item.at in Nodes(t.left);
    assert t.right.Bin? ==> t.right.item.at in Nodes(t.right);
  }

  /** `pp_tree_avl_rotate_left_right`; `t` is the subtree of the parent. */
  method RotateLeftRight(node: Node, cell: Cell, ghost t: Tree, ghost c: Ctx)
    requires cell.Wired() && cell.tree == Plug(t, c) && t.Bin? && t.left.Bin? && t.left.right.Bin?
    requires t.left.item.at == node
    modifies cell, cell.mem.Keys
    ensures cell.Wired() && cell.tree == Plug(DoubleRight(t), c) && cell.mem.Keys == old(cell.mem.Keys)
  {
    DoubleRightReady(t, c, cell.root, cell.mem);
    var tmp := node.right;
    LiftLeftRight(node, cell, t, c);
    SettleDouble(tmp, cell, RotatedRight(Bin(RotatedLeft(t.left), t.item, t.right)), c);
  }

  /** The writes of a double rotation to the right rotate the tree twice. */
  lemma DoubleRightRotates(t: Tree, c: Ctx, root0: Node?, root: Node?, m: Mem, k: Mem)
    requires Forms(Plug(t, c), root0, m) && t.Bin? && t.left.Bin? && t.left.right.Bin?
    requires LeftRightTurn(t.left.item.at, t.left.right.item.at, root0, root, m, k)
    ensures Forms(Plug(RotatedRight(Bin(RotatedLeft(t.left), t.item, t.right)), c), root, k)
  {
    var n, tmp := t.left.item.at, t.left.right.item.at;
    DoubleRightReady(t, c, root0, m);
    DoubleRightIsTwoTurns(n, tmp, root0, root, m, k);
    var m1 := HalfTurnedLeft(n, tmp, m);
    LeftTurnRotates(t.left, InLeft(t.item, t.right, c), root0, root0, m, m1);
    RightTurnRotates(Bin(RotatedLeft(t.left), t.item, t.right), c, root0, root, m1, k);
  }

  method LiftLeftRight(node: Node, cell: Cell, ghost t: Tree, ghost c: Ctx)
    requires cell.Wired() && cell.tree == Plug(t, c) && t.Bin? && t.left.Bin? && t.left.right.Bin?
    requires t.left.item.at == node
    modifies cell, cell.mem.Keys
    ensures cell.Wired() && cell.mem.Keys == old(cell.mem.Keys)
    ensures cell.tree == Plug(RotatedRight(Bin(RotatedLeft(t.left), t.item, t.right)), c)
  {
    hide Plug, LeftRightTurn, Forms;
    ghost var m, root0 := cell.mem, cell.root;
    DoubleRightReady(t, c, root0, m);
    RiseLeftRight(node, cell);
    DoubleRightRotates(t, c, root0, cell.root, m, cell.mem);
    cell.tree := Plug(RotatedRight(Bin(RotatedLeft(t.left), t.item, t.right)), c);
  }

  /** `pp_tree_avl_rotate_right_left`; `t` is the subtree of the parent. */
  method RotateRightLeft(node: Node, cell: Cell, ghost t: Tree, ghost c: Ctx)
    requires cell.Wired() && cell.tree == Plug(t, c) && t.Bin? && t.right.Bin? && t.right.left.Bin?
    requires t.right.item.at == node
    modifies cell, cell.mem.Keys
    ensures cell.Wired() && cell.tree == Plug(DoubleLeft(t), c) && cell.mem.Keys == old(cell.mem.Keys)
  {
    DoubleLeftReady(t, c, cell.root, cell.mem);
    var tmp := node.left;
    LiftRightLeft(node, cell, t, c);
    SettleDouble(tmp, cell, RotatedLeft(Bin(t.left, t.item, RotatedRight(t.right))), c);
  }

  /** The writes of a double rotation to the left rotate the tree twice. */
  lemma DoubleLeftRotates(t: Tree, c: Ctx, root0: Node?, root: Node?, m: Mem, k: Mem)
    requires Forms(Plug(t, c), root0, m) && t.Bin? && t.right.Bin? && t.right.left.Bin?
    requires RightLeftTurn(t.right.item.at, t.right.left.item.at, root0, root, m, k)
    ensures Forms(Plug(RotatedLeft(Bin(t.left, t.item, RotatedRight(t.right))), c), root, k)
  {
    var n, tmp := t.right.item.at, t.right.left.item.at;
    DoubleLeftReady(t, c, root0, m);
    DoubleLeftIsTwoTurns(n, tmp, root0, root, m, k);
    var m1 := HalfTurnedRight(n, tmp, m);
    RightTurnRotates(t.right, InRight(t.left, t.item, c), root0, root0, m, m1);
    LeftTurnRotates(Bin(t.left, t.item, RotatedRight(t.right)), c, root0, root, m1, k);
  }

  method LiftRightLeft(node: Node, cell: Cell, ghost t: Tree, ghost c: Ctx)
    requires cell.Wired() && cell.tree == Plug(t, c) && t.Bin? && t.right.Bin? && t.right.left.Bin?
    requires t.right.item.at == node
    modifies cell, cell.mem.Keys
    ensures cell.Wired() && cell.mem.Keys == old(cell.mem.Keys)
    ensures cell.tree == Plug(RotatedLeft(Bin(t.left, t.item, RotatedRight(t.right))), c)
  {
    hide Plug, RightLeftTurn, Forms;
    ghost var m, root0 := cell.mem, cell.root;
    DoubleLeftReady(t, c, root0, m);
    RiseRightLeft(node, cell);
    DoubleLeftRotates(t, c, root0, cell.root, m, cell.mem);
    cell.tree := Plug(RotatedLeft(Bin(t.left, t.item, RotatedRight(t.right))), c);
  }

  // ----- insertion -----

  /** Cases 1 and 2 of the insertion climb. */
  method RotateGrown(node: Node, cell: Cell, ghost t: Tree, ghost c: Ctx)
    requires cell.Wired() && cell.tree == Plug(t, c) && t.Bin? && t.item.at == node && GrownFocus(t, c)
    requires !c.Top? && c.item.balance == Toward(c)
    modifies cell, cell.mem.Keys
    ensures cell.Wired() && Avl(cell.tree) && cell.mem.Keys == old(cell.mem.Keys)
    ensures Inorder(cell.tree) == old(Inorder(cell.tree))
  {
    ghost var w := Wrap(t, c);
    Around(t, c, cell.root, cell.mem);
    GrowthRotated(t, c);
    RotationEntries(w);
    InorderPlug(w, c.up);
    if node.parent.left == node {
      InorderPlug(if t.item.balance == -1 then DoubleRight(w) else SingleRight(w), c.up);
      if node.balance == -1 {
        RotateLeftRight(node, cell, w, c.up);
      } else {
        RotateRight(node, cell, w, c.up);
      }
    } else {
      InorderPlug(if t.item.balance == 1 then DoubleLeft(w) else SingleLeft(w), c.up);
      if node.balance == 1 {
        RotateRightLeft(node, cell, w, c.up);
      } else {
        RotateLeft(node, cell, w, c.up);
      }
    }
  }

  /** The parent gets a balance factor, seen from the child in the hole of `c`. */
  method WeighParent(parent: Node, balance: int, cell: Cell, ghost t: Tree, ghost c: Ctx)
    requires cell.Wired() && cell.tree == Plug(t, c) && !c.Top? && c.item.at == parent
    modifies cell`tree, cell`mem, cell.mem.Keys`balance
    ensures cell.Wired() && cell.mem.Keys == old(cell.mem.Keys) && Inorder(cell.tree) == old(Inorder(cell.tree))
    ensures cell.tree == Plug(t, ParentWeighed(c, balance)) && SameAround(c, ParentWeighed(c, balance))
  {
    ItemEntries(Wrap(t, c), c.item.(balance := balance), c.up);
    Weigh(parent, balance, cell, Wrap(t, c), c.up);
  }

  /** Cases 3 and 4 of the insertion climb, to the left and to the right. */
  method AbsorbGrown(node: Node, parent: Node, cell: Cell, ghost t: Tree, ghost c: Ctx) returns (again: bool)
    requires cell.Wired() && cell.tree == Plug(t, c) && t.Bin? && t.item.at == node && GrownFocus(t, c)
    requires !c.Top? && c.item.at == parent && c.item.balance != Toward(c)
    modifies cell, cell.mem.Keys
    ensures cell.Wired() && cell.mem.Keys == old(cell.mem.Keys) && Inorder(cell.tree) == old(Inorder(cell.tree))
    ensures !again ==> Avl(cell.tree)
    ensures again ==> cell.tree == Plug(t, ParentWeighed(c, Toward(c)))
    ensures again ==> GrownFocus(Wrap(t, ParentWeighed(c, Toward(c))), c.up)
  {
    Around(t, c, cell.root, cell.mem);
    GrowthAbsorbed(t, c);
    assert -1 <= c.item.balance <= 1;
    hide Avl, GrownFocus, Plug, Inorder;
    var leans := if parent.left == node then 1 else -1;
    if parent.balance == -leans {
      WeighParent(parent, 0, cell, t, c);
      return false;
    } else {
      WeighParent(parent, leans, cell, t, c);
      return true;
    }
  }

  /** One turn of the insertion climb below a parent; `again` if the parent's subtree grew in turn. */
  method InsertTurn(node: Node, parent: Node, cell: Cell, ghost t: Tree, ghost c: Ctx) returns (again: bool)
    requires cell.Wired() && cell.tree == Plug(t, c) && t.Bin? && t.item.at == node && GrownFocus(t, c)
    requires !c.Top? && c.item.at == parent
    modifies cell, cell.mem.Keys
    ensures cell.Wired() && cell.mem.Keys == old(cell.mem.Keys) && Inorder(cell.tree) == old(Inorder(cell.tree))
    ensures !again ==> Avl(cell.tree)
    ensures again ==> cell.tree == Plug(t, ParentWeighed(c, Toward(c)))
    ensures again ==> GrownFocus(Wrap(t, ParentWeighed(c, Toward(c))), c.up)
  {
    Around(t, c, cell.root, cell.mem);
    hide Avl, GrownFocus, Plug, Inorder;
    if parent.balance == if parent.left == node then 1 else -1 {
      RotateGrown(node, cell, t, c);
      return false;
    }
    again := AbsorbGrown(node, parent, cell, t, c);
  }

  /** The climb after an insertion. */
  method BalanceInsert(node: Node, cell: Cell, ghost t: Tree, ghost c: Ctx)
    requires cell.Wired() && cell.tree == Plug(t, c) && t.Bin? && t.item.at == node && GrownFocus(t, c)
    modifies cell, cell.mem.Keys
    ensures cell.Wired() && Avl(cell.tree) && cell.mem.Keys == old(cell.mem.Keys)
    ensures Inorder(cell.tree) == old(Inorder(cell.tree))
  {
    var n := node;
    ghost var ft, fc := t, c;
    while true
      invariant cell.Wired() && cell.tree == Plug(ft, fc) && ft.Bin? && ft.item.at == n && GrownFocus(ft, fc)
      invariant cell.mem.Keys == old(cell.mem.Keys) && Inorder(cell.tree) == old(Inorder(cell.tree))
      decreases fc
    {
      Around(ft, fc, cell.root, cell.mem);
      var parent := n.parent;
      if parent == null {
        break;
      }
      var again := InsertTurn(n, parent, cell, ft, fc);
      if !again {
        return;
      }
      n, ft, fc := parent, Wrap(ft, ParentWeighed(fc, Toward(fc))), fc.up;
    }
  }

  // ----- removal -----

  /** Cases 1 and 2 of the removal climb: a rotation with the sibling. Returns the sibling's old balance. */
  method RotateShrunk(node: Node, parent: Node, cell: Cell, ghost t: Tree, ghost v: Tree, ghost c: Ctx)
    returns (siblingBalance: int)
    requires cell.Wired() && cell.tree == Plug(t, c) && t.Bin? && t.item.at == node && ShrunkFocus(v, c)
    requires !c.Top? && c.item.at == parent && c.item.balance == -Toward(c)
    modifies cell, cell.mem.Keys
    ensures cell.Wired() && cell.mem.Keys == old(cell.mem.Keys)
    ensures Sibling(c).Bin? && siblingBalance == Sibling(c).item.balance
    ensures Sibling(c).item.balance == Toward(c) ==> (if c.InLeft? then c.right.left.Bin? else c.left.right.Bin?)
    ensures cell.tree == Plug(RotatedWith(t, c), c.up) && parent.parent == RotatedWith(t, c).item.at
  {
    ghost var w := Wrap(t, c);
    Around(t, c, cell.root, cell.mem);
    ShrinkageRotated(v, c);
    if parent.left == node {
      var sibling := parent.right;
      siblingBalance := sibling.balance;
      if sibling.balance == 1 {
        RotateRightLeft(sibling, cell, w, c.up);
      } else {
        RotateLeft(sibling, cell, w, c.up);
      }
    } else {
      var sibling := parent.left;
      siblingBalance := sibling.balance;
      if sibling.balance == -1 {
        RotateLeftRight(sibling, cell, w, c.up);
      } else {
        RotateRight(sibling, cell, w, c.up);
      }
    }
    Around(RotatedWith(t, c), c.up, cell.root, cell.mem);
  }

  /** Where a turn leaves the climb: one level up with a subtree that shrank, or at its end. */
  ghost predicate AfterShrinkage(again: bool, v: Tree, d: Ctx)
    requires !d.Top?
  {
    if again then ShrunkFocus(Wrap(v, d), d.up) else Avl(Plug(v, d))
  }

  lemma Absorbed(v: Tree, c: Ctx, balance: int)
    requires ShrunkFocus(v, c) && !c.Top? && c.item.balance != -Toward(c) && balance == c.item.balance - Toward(c)
    ensures balance == if c.item.balance == 0 then -Toward(c) else 0
    ensures AfterShrinkage(c.item.balance != 0, v, ParentWeighed(c, balance))
  {
    ShrinkageAbsorbed(v, c);
  }

  /** Cases 3 and 4 of the removal climb, to the left and to the right. */
  method AbsorbShrunk(node: Node, parent: Node, cell: Cell, ghost t: Tree, ghost v: Tree, ghost c: Ctx)
    returns (again: bool, ghost d: Ctx)
    requires cell.Wired() && cell.tree == Plug(t, c) && t.Bin? && t.item.at == node && ShrunkFocus(v, c)
    requires !c.Top? && c.item.at == parent && c.item.balance != -Toward(c)
    modifies cell, cell.mem.Keys
    ensures cell.Wired() && cell.mem.Keys == old(cell.mem.Keys)
    ensures cell.tree == Plug(t, d) && SameAround(c, d) && !d.Top? && d.up == c.up && d.item.at == parent
    ensures AfterShrinkage(again, v, d)
  {
    Around(t, c, cell.root, cell.mem);
    ghost var balance := c.item.balance - Toward(c);
    Absorbed(v, c, balance);
    if parent.balance == 0 {
      var leans := if parent.left == node then -1 else 1;
      WeighParent(parent, leans, cell, t, c);
      return false, ParentWeighed(c, balance);
    } else {
      WeighParent(parent, 0, cell, t, c);
      return true, ParentWeighed(c, balance);
    }
  }

  /** One turn of the removal climb below a parent. `e` is the path from the focus to the top of the subtree
      that the turn leaves behind; `again` if that subtree shrank in turn. */
  method RemoveTurn(node: Node, parent: Node, cell: Cell, ghost t: Tree, ghost v: Tree, ghost c: Ctx)
    returns (again: bool, next: Node, ghost e: Ctx)
    requires cell.Wired() && cell.tree == Plug(t, c) && t.Bin? && t.item.at == node && ShrunkFocus(v, c)
    requires !c.Top? && c.item.at == parent
    modifies cell, cell.mem.Keys
    ensures cell.Wired() && cell.mem.Keys == old(cell.mem.Keys)
    ensures cell.tree == Plug(Plug(t, e), c.up) && SameAround(c, Append(e, c.up))
    ensures again ==> ShrunkFocus(Plug(v, e), c.up) && Plug(t, e).Bin? && Plug(t, e).item.at == next
    ensures !again ==> Avl(Plug(Plug(v, e), c.up))
  {
    Around(t, c, cell.root, cell.mem);
    if parent.balance == if parent.left == node then -1 else 1 {
      var siblingBalance := RotateShrunk(node, parent, cell, t, v, c);
      ShrinkageRotated(v, c);
      e := RotatedPath(c);
      RotatedPathPlugs(t, c);
      RotatedPathPlugs(v, c);
      RotatedPathEntries(c);
      again, next := siblingBalance != 0, parent.parent;
    } else {
      ghost var d;
      again, d := AbsorbShrunk(node, parent, cell, t, v, c);
      next, e := parent, Step(d);
    }
  }

  /** The climb of a removal: `x` is the subtree at `node`, which the height count takes to be `xv`. Returns
      the surroundings of `x` afterwards. */
  method BalanceRemove(node: Node, cell: Cell, ghost x: Tree, ghost xv: Tree, ghost c: Ctx)
    returns (ghost d: Ctx)
    requires cell.Wired() && cell.tree == Plug(x, c) && x.Bin? && x.item.at == node && ShrunkFocus(xv, c)
    modifies cell, cell.mem.Keys
    ensures cell.Wired() && cell.tree == Plug(x, d) && cell.mem.Keys == old(cell.mem.Keys)
    ensures Avl(Plug(xv, d)) && SameAround(c, d)
  {
    var n := node;
    ghost var inner, outer := Top, c;
    while true
      invariant cell.Wired() && cell.mem.Keys == old(cell.mem.Keys)
      invariant cell.tree == Plug(Plug(x, inner), outer) && SameAround(c, Append(inner, outer))
      invariant Plug(x, inner).Bin? && Plug(x, inner).item.at == n
      invariant ShrunkFocus(Plug(xv, inner), outer)
      decreases outer
    {
      ghost var t, v := Plug(x, inner), Plug(xv, inner);
      Around(t, outer, cell.root, cell.mem);
      var parent := n.parent;
      if parent == null {
        AvlPlug(v, outer);
        PlugAppend(x, inner, outer);
        PlugAppend(xv, inner, outer);
        return Append(inner, outer);
      }
      var again, next;
      ghost var e;
      again, next, e := RemoveTurn(n, parent, cell, t, v, outer);
      SameAroundAppend(inner, outer, Append(e, outer.up));
      AppendAssociative(inner, e, outer.up);
      PlugAppend(x, inner, e);
      PlugAppend(xv, inner, e);
      inner, outer, n := Append(inner, e), outer.up, next;
      if !again {
        PlugAppend(x, inner, outer);
        PlugAppend(xv, inner, outer);
        return Append(inner, outer);
      }
    }
  }

  // ----- the operations -----

  /** An AVL search tree at rest. */
  ghost predicate Valid(cell: Cell)
    reads cell, cell.mem.Keys
  {
    cell.Wired() && Avl(cell.tree) && Sorted(Inorder(cell.tree))
  }

  /** The part of `p_tree_avl_insert` that adds a node in the empty slot. */
  method AddLeaf(key: Key, value: Pointer, slot: Slot, parent: Node?, cell: Cell, ghost c: Ctx)
    requires Valid(cell) && cell.tree == Plug(Leaf, c) && slot == SlotOf(c) && Belongs(key, c)
    requires parent == Above(c)
    modifies cell, cell.mem.Keys
    ensures Valid(cell) && fresh(cell.mem.Keys - old(cell.mem.Keys))
    ensures key.rank !in old(Contents(cell))
    ensures Contents(cell) == old(Contents(cell))[key.rank := Entry(key, value)]
  {
    var n := new Node(key, value, parent);
    ghost var i := Item(n, key, value, n.color, 0);
    LeafAdds(c, i);
    FreshLeafFocus(c, i);
    hide GrownFocus, Avl, Plug, Sorted, Inorder, AsMap;
    Attach(slot, n, cell, c);
    BalanceInsert(n, cell, Bin(Leaf, i, Leaf), c);
  }

  /** `p_tree_avl_insert`. */
  method Insert(cell: Cell, key: Key, value: Pointer) returns (added: bool, destroyed: seq<Entry>)
    requires Valid(cell)
    modifies cell, cell.mem.Keys
    ensures Valid(cell) && fresh(cell.mem.Keys - old(cell.mem.Keys))
    ensures added <==> key.rank !in old(Contents(cell))
    ensures Contents(cell) == old(Contents(cell))[key.rank := Entry(key, value)]
    ensures destroyed == if added then [] else [old(Contents(cell))[key.rank]]
  {
    var slot, parent;
    ghost var t, c;
    slot, parent, t, c := FindSlot(cell, key);
    var cur := cell.Get(slot);
    if cur != null {
      ghost var i := t.item.(key := key, value := value);
      EntryReplaces(t, c, i);
      AlikeRewritten(t, i, c);
      AlikeAvl(cell.tree, Plug(t.(item := i), c));
      EntryFound(t, c);
      EntryAt(cur, cell, t, c);
      destroyed := [Entry(cur.key, cur.value)];
      WriteEntry(cur, key, value, cell, t, c);
      return false, destroyed;
    }
    AddLeaf(key, value, slot, parent, cell, c);
    return true, [];
  }

  /** `p_tree_avl_remove`. */
  method Remove(cell: Cell, key: Key) returns (removed: bool, destroyed: seq<Entry>)
    requires Valid(cell)
    modifies cell, cell.mem.Keys
    ensures Valid(cell) && cell.mem.Keys <= old(cell.mem.Keys)
    ensures removed <==> key.rank in old(Contents(cell))
    ensures Contents(cell) == old(Contents(cell)) - {key.rank}
    ensures Destroys(old(cell.tree), key, destroyed)
    ensures removed && Full(Found(old(cell.tree), key)) ==> Has(Contents(cell), destroyed[0])
  {
    var cur, slot;
    ghost var t, c;
    cur, slot, t, c := FindNode(cell, key);
    if cur == null {
      AbsentFromHole(key, c);
      return false, [];
    }
    RestRemoves(t, c);
    DestroyedPair(t, c, key);
    ghost var x, d;
    ghost var tree0 := cell.tree;
    cur, slot, x, d := Victim(cur, slot, cell, t, c);
    AlikeAvl(tree0, cell.tree);
    var gone := RemoveNode(cur, cell, x, d);
    return true, [gone];
  }

  /** The part of `p_tree_avl_remove` that takes the doomed node out: before the unlinking the climb starts
      at the doomed leaf, after it at the child that took its place. */
  method RemoveNode(cur: Node, cell: Cell, ghost x: Tree, ghost c: Ctx) returns (gone: Entry)
    requires cell.Wired() && Avl(cell.tree) && cell.tree == Plug(x, c) && x.Bin? && x.item.at == cur
    requires x.left.Leaf? || x.right.Leaf?
    modifies cell, cell.mem.Keys
    ensures cell.Wired() && Avl(cell.tree) && cell.mem.Keys == old(cell.mem.Keys) - {cur}
    ensures Inorder(cell.tree) == Before(c) + Inorder(OnlyChild(x)) + After(c) && gone == x.item.Pair()
  {
    Around(x, c, cell.root, cell.mem);
    OneShorter(x, c);
    var child := if cur.left == null then cur.right else cur.left;
    ghost var d, u := c, OnlyChild(x);
    if child == null {
      d := BalanceRemove(cur, cell, x, Leaf, c);
      EntryAt(cur, cell, x, d);
      Unlink(cur, child, cell, x, d);
    } else {
      EntryAt(cur, cell, x, c);
      Unlink(cur, child, cell, x, c);
      d := BalanceRemove(child, cell, u, u, c);
    }
    InorderPlug(u, d);
    gone := Entry(cur.key, cur.value);
  }

  lemma OneShorter(x: Tree, c: Ctx)
    requires Avl(Plug(x, c)) && x.Bin? && (x.left.Leaf? || x.right.Leaf?)
    ensures ShrunkFocus(OnlyChild(x), c)
  {
    AvlPlug(x, c);
  }
}
