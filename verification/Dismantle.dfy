// The destruction of a tree in plibsys/src/ptree.c: `p_tree_clear` rotates nodes away to the right until they
// can be freed, again without a stack.

/** Trees being taken apart. Parent pointers no longer matter here. */
module Dismantle {
  import opened TreeShape
  import opened TreeMemory
  import opened TreeCell
  import opened Morris

  /** The base fields of the nodes reached from `n` spell out `t`. */
  ghost predicate Links(t: Tree, n: Node?, m: Mem) {
    match t
    case Leaf => n == null
    case Bin(l, i, r) =>
      && n == i.at && i.at in m && m[i.at].key == i.key && m[i.at].value == i.value
      && Links(l, m[i.at].left, m) && Links(r, m[i.at].right, m)
  }

  lemma {:induction false} WireLinks(t: Tree, n: Node?, p: Node?, m: Mem)
    requires Wire(t, n, null, p, m)
    ensures Links(t, n, m)
  {
    if t.Bin? {
      WireLinks(t.left, m[t.item.at].left, t.item.at, m);
      WireLinks(t.right, m[t.item.at].right, t.item.at, m);
    }
  }

  lemma {:induction false} LinksSame(t: Tree, n: Node?, m: Mem, k: Mem)
    requires Links(t, n, m) && Same(Nodes(t), m, k)
    ensures Links(t, n, k)
  {
    if t.Bin? {
      LinksSame(t.left, m[t.item.at].left, m, k);
      LinksSame(t.right, m[t.item.at].right, m, k);
    }
  }

  /** `w` hung at the right end of `t`. */
  function Hang(t: Tree, w: Tree): Tree {
    if t.Leaf? then w else Bin(t.left, t.item, Hang(t.right, w))
  }

  /** The length of the right spine. */
  function Spine(t: Tree): nat { if t.Leaf? then 0 else 1 + Spine(t.right) }

  lemma {:induction false} HangShape(t: Tree, w: Tree)
    ensures Inorder(Hang(t, w)) == Inorder(t) + Inorder(w) && Nodes(Hang(t, w)) == Nodes(t) + Nodes(w)
    ensures Distinct(t) && Distinct(w) && Nodes(t) !! Nodes(w) ==> Distinct(Hang(t, w))
    ensures Spine(Hang(t, w)) == Spine(t) + Spine(w)
  {
    if t.Bin? {
      HangShape(t.right, w);
      HangEntries(Inorder(t.left), [t.item.Pair()], Inorder(t.right), Inorder(w));
    }
  }

  lemma HangEntries<T>(a: seq<T>, b: seq<T>, c: seq<T>, d: seq<T>)
    ensures a + b + (c + d) == (a + b + c) + d
  {
  }

  /** The right end of `t` is made to lead on to `x`. */
  lemma {:induction false} HangLinks(t: Tree, n: Node?, w: Tree, x: Node?, m: Mem)
    requires t.Bin? && Links(t, n, m) && Links(w, x, m) && Distinct(t) && Nodes(t) !! Nodes(w)
    ensures Last(t) in m && m[Last(t)].right == null
    ensures Links(Hang(t, w), n, m[Last(t) := m[Last(t)].(right := x)])
  {
    var y := t.item.at;
    if t.right.Leaf? {
      var k := m[y := m[y].(right := x)];
      LinksSame(t.left, m[y].left, m, k);
      LinksSame(w, x, m, k);
    } else {
      HangLinks(t.right, m[y].right, w, x, m);
      LastInside(t.right);
      var z := Last(t.right);
      LinksSame(t.left, m[y].left, m, m[z := m[z].(right := x)]);
    }
  }

  lemma {:induction false} SpineBound(t: Tree)
    ensures Spine(t) <= |Inorder(t)|
  {
    if t.Bin? {
      SpineBound(t.right);
    }
  }

  /** The node at the top moves to the right end of its left subtree. */
  function Turned(t: Tree): Tree
    requires t.Bin?
  {
    Hang(t.left, Bin(Leaf, t.item, t.right))
  }

  lemma TurnedShape(t: Tree)
    requires t.Bin? && Distinct(t)
    ensures Inorder(Turned(t)) == Inorder(t) && Nodes(Turned(t)) == Nodes(t) && Distinct(Turned(t))
    ensures t.left.Bin? ==> Spine(t) < Spine(Turned(t)) <= |Inorder(t)|
  {
    var w := Bin(Leaf, t.item, t.right);
    HangShape(t.left, w);
    SpineBound(Turned(t));
    assert Spine(w) == 1 + Spine(t.right) && Nodes(w) == {t.item.at} + Nodes(t.right) && Distinct(w);
    TurnedEntries(Inorder(t.left), [t.item.Pair()], Inorder(t.right));
  }

  lemma TurnedEntries<T>(a: seq<T>, b: seq<T>, c: seq<T>)
    ensures a + ([] + b + c) == a + b + c
  {
  }

  /** The writes of one turn of `p_tree_clear` at a node with a left child. */
  lemma TurnedLinks(t: Tree, m: Mem)
    requires t.Bin? && t.left.Bin? && Links(t, t.item.at, m) && Distinct(t)
    ensures var x, y := t.item.at, Last(t.left);
      && x in m && y in m && y != x && m[y].right == null
      && Links(Turned(t), m[x].left, m[y := m[y].(right := x)][x := m[x].(left := null)])
  {
    var x, y := t.item.at, Last(t.left);
    LastInside(t.left);
    var k := m[x := m[x].(left := null)];
    var w := Bin(Leaf, t.item, t.right);
    LinksSame(t.left, m[x].left, m, k);
    LinksSame(t.right, m[x].right, m, k);
    HangLinks(t.left, m[x].left, w, x, k);
    assert m[y := m[y].(right := x)][x := m[x].(left := null)] == k[y := k[y].(right := x)];
  }

  /** The search for the right end of a left subtree. */
  method FindRightEnd(start: Node, cell: Cell, ghost l: Tree) returns (prev: Node)
    requires cell.BaseMirrored() && l.Bin? && Links(l, start, cell.mem)
    ensures prev == Last(l) && prev in cell.mem
  {
    prev := start;
    ghost var w := l;
    while prev.right != null
      invariant w.Bin? && Links(w, prev, cell.mem) && Last(w) == Last(l)
      decreases w
    {
      prev := prev.right;
      w := w.right;
    }
  }

  /** `p_free`: the node's memory is gone. It must be allocated. */
  method Free(node: Node, cell: Cell)
    requires cell.BaseMirrored() && node in cell.mem
    modifies cell`mem
    ensures cell.mem == old(cell.mem) - {node} && cell.BaseMirrored()
  {
    cell.mem := cell.mem - {node};
  }

  method SetLeft(n: Node, v: Node?, cell: Cell)
    requires cell.BaseMirrored() && n in cell.mem
    modifies cell`mem, n`left
    ensures cell.BaseMirrored() && cell.mem == old(cell.mem)[n := old(cell.mem)[n].(left := v)]
  {
    n.left := v;
    cell.mem := cell.mem[n := cell.mem[n].(left := v)];
  }

  /** What is left to take apart hangs at `n`, in the memory that is still allocated. */
  ghost predicate Left(t: Tree, n: Node?, cell: Cell)
    reads cell, cell.mem.Keys
  {
    cell.BaseMirrored() && Links(t, n, cell.mem) && Distinct(t) && cell.mem.Keys == Nodes(t)
  }

  /** A node without a left child goes: it is destroyed and freed. */
  method FreeTop(cur: Node, cell: Cell, ghost t: Tree) returns (next: Node?)
    requires Left(t, cur, cell) && t.Bin? && t.left.Leaf?
    modifies cell`mem
    ensures Left(t.right, next, cell) && cell.mem == old(cell.mem) - {cur}
  {
    next := cur.right;
    ghost var m := cell.mem;
    LinksSame(t.right, next, m, m - {cur});
    Free(cur, cell);
  }

  /** A node with a left child moves to the right end of its left subtree. */
  method TurnTop(cur: Node, cell: Cell, ghost t: Tree) returns (next: Node)
    requires Left(t, cur, cell) && t.Bin? && t.left.Bin?
    modifies cell`mem, cell.mem.Keys`left, cell.mem.Keys`right
    ensures Left(Turned(t), next, cell) && cell.mem.Keys == old(cell.mem.Keys)
  {
    TurnedLinks(t, cell.mem);
    TurnedShape(t);
    var prev := FindRightEnd(cur.left, cell, t.left);
    SetRight(prev, cur, cell);
    next := cur.left;
    SetLeft(cur, null, cell);
  }

  /** One turn of the loop of `p_tree_clear`: either the node at the top is destroyed and freed, its pair
      being `gone`, or the right spine gets longer. */
  method ClearTurn(cur: Node, cell: Cell, ghost t: Tree) returns (next: Node?, gone: seq<Entry>, ghost u: Tree)
    requires Left(t, cur, cell)
    modifies cell`mem, cell.mem.Keys`left, cell.mem.Keys`right
    ensures Left(u, next, cell) && gone + Inorder(u) == Inorder(t)
    ensures if |gone| == 1 then cell.mem.Keys == old(cell.mem.Keys) - {cur}
            else gone == [] && cell.mem.Keys == old(cell.mem.Keys) && Spine(t) < Spine(u) <= |Inorder(u)|
  {
    assert Links(t.left, cur.left, cell.mem);
    if cur.left == null {
      gone := [Entry(cur.key, cur.value)];
      next := FreeTop(cur, cell, t);
      u := t.right;
      assert Inorder(t) == [] + gone + Inorder(u);
    } else {
      TurnedShape(t);
      next := TurnTop(cur, cell, t);
      gone, u := [], Turned(t);
    }
  }

  /** The loop of `p_tree_clear`: every entry goes to the destroy functions once, in order, and every node is
      freed; `count` goes down with each. */
  method TearDown(cell: Cell, count: int) returns (destroyed: seq<Entry>, left: int)
    requires cell.Shaped()
    modifies cell`mem, cell.mem.Keys`left, cell.mem.Keys`right
    ensures cell.mem == map[] && destroyed == Inorder(cell.tree) && left == count - |destroyed|
  {
    destroyed, left := [], count;
    var cur := cell.root;
    ghost var t := cell.tree;
    WireLinks(t, cur, null, cell.mem);
    while cur != null
      invariant Left(t, cur, cell) && cell.mem.Keys <= old(cell.mem.Keys)
      invariant destroyed + Inorder(t) == Inorder(cell.tree) && left == count - |destroyed|
      decreases |Inorder(t)|, |Inorder(t)| - Spine(t)
    {
      var gone;
      ghost var u;
      cur, gone, u := ClearTurn(cur, cell, t);
      assert destroyed + (gone + Inorder(u)) == (destroyed + gone) + Inorder(u);
      destroyed, left, t := destroyed + gone, left - |gone|, u;
    }
    assert t.Leaf? && destroyed + [] == destroyed;
  }
}
