// The plain binary search tree back end, plibsys/src/ptree-bst.c. Its nodes have base fields only.

module Bst {
  import opened TreeShape
  import opened TreeMemory
  import opened TreeCell
  import opened TreeWalk
  import opened Entries

  /** A search tree at rest. */
  ghost predicate Valid(cell: Cell)
    reads cell, cell.mem.Keys
  {
    cell.Shaped() && Sorted(Inorder(cell.tree))
  }

  /** After an insertion the top has the rank that it had before; in an empty tree the new key goes to the top. */
  predicate TopStays(t: Tree, key: Key, u: Tree) {
    u.Bin? && u.item.key.rank == if t.Bin? then t.item.key.rank else key.rank
  }

  lemma {:induction false} TopOf(t: Tree, u: Tree, c: Ctx)
    requires !c.Top?
    ensures Plug(t, c).Bin? && Plug(u, c).Bin? && Plug(t, c).item == Plug(u, c).item
    decreases c
  {
    if !c.up.Top? {
      match c
      case InLeft(i, r, up) => TopOf(Bin(t, i, r), Bin(u, i, r), up);
      case InRight(l, i, up) => TopOf(Bin(l, i, t), Bin(l, i, u), up);
    }
  }

  lemma TopStaysAround(t: Tree, key: Key, u: Tree, c: Ctx)
    requires TopStays(t, key, u)
    ensures TopStays(Plug(t, c), key, Plug(u, c))
  {
    if !c.Top? {
      TopOf(t, u, c);
    }
  }

  /** `p_tree_bst_insert`. */
  method Insert(cell: Cell, key: Key, value: Pointer) returns (added: bool, destroyed: seq<Entry>)
    requires Valid(cell)
    modifies cell, cell.mem.Keys
    ensures Valid(cell) && fresh(cell.mem.Keys - old(cell.mem.Keys))
    ensures added <==> key.rank !in old(Contents(cell))
    ensures Contents(cell) == old(Contents(cell))[key.rank := Entry(key, value)]
    ensures destroyed == if added then [] else [old(Contents(cell))[key.rank]]
    ensures TopStays(old(cell.tree), key, cell.tree)
  {
    var slot, parent;
    ghost var t, c;
    slot, parent, t, c := FindSlot(cell, key);
    var cur := cell.Get(slot);
    if cur == null {
      var n := new Node(key, value, null);
      TopStaysAround(t, key, Bin(Leaf, Item(n, key, value, n.color, n.balance), Leaf), c);
      LeafAdds(c, Item(n, key, value, n.color, n.balance));
      Attach(slot, n, cell, c);
      return true, [];
    } else {
      TopStaysAround(t, key, t.(item := t.item.(key := key, value := value)), c);
      EntryReplaces(t, c, t.item.(key := key, value := value));
      EntryFound(t, c);
      EntryAt(cur, cell, t, c);
      destroyed := [Entry(cur.key, cur.value)];
      WriteEntry(cur, key, value, cell, t, c);
      return false, destroyed;
    }
  }

  /** `p_tree_bst_remove`. */
  method Remove(cell: Cell, key: Key) returns (removed: bool, destroyed: seq<Entry>)
    requires Valid(cell)
    modifies cell, cell.mem.Keys
    ensures Valid(cell) && cell.mem.Keys <= old(cell.mem.Keys)
    ensures removed <==> key.rank in old(Contents(cell))
    ensures Contents(cell) == old(Contents(cell)) - {key.rank}
    ensures Destroys(old(cell.tree), key, destroyed)
    ensures removed && Full(Found(old(cell.tree), key)) ==> Has(Contents(cell), destroyed[0])
  {
    var cur, slot;
    ghost var t, c;
    cur, slot, t, c := FindNode(cell, key);
    if cur == null {
      AbsentFromHole(key, c);
      return false, [];
    }
    RestRemoves(t, c);
    DestroyedPair(t, c, key);
    ghost var x, d;
    cur, slot, x, d := Victim(cur, slot, cell, t, c);
    InorderPlug(OnlyChild(x), d);
    EntryAt(cur, cell, x, d);
    Splice(cur, slot, cell, x, d);
    return true, [Entry(cur.key, cur.value)];
  }

  /** The slot that holds the node is made to hold its only child, or nothing. */
  method Splice(cur: Node, slot: Slot, cell: Cell, ghost x: Tree, ghost c: Ctx)
    requires cell.Shaped() && cell.tree == Plug(x, c) && x.Bin? && x.item.at == cur && slot == SlotOf(c)
    requires x.left.Leaf? || x.right.Leaf?
    modifies cell, cell.mem.Keys
    ensures cell.Shaped() && cell.tree == Plug(OnlyChild(x), c) && cell.mem.Keys == old(cell.mem.Keys) - {cur}
    ensures cur.key == old(cur.key) && cur.value == old(cur.value)
  {
    hide Plug, Forms, Without;
    ghost var m, root0 := cell.mem, cell.root;
    Around(x, c, root0, m);
    SlotOfCtx(x, c, root0, m);
    Store(slot, if cur.left == null then cur.right else cur.left, cell);
    Spliced(x, c, root0, cell.root, m);
    Forget(cell, Without(x, c, cell.mem));
    cell.tree := Plug(OnlyChild(x), c);
  }

  ghost method Forget(cell: Cell, w: Mem)
    requires cell.BaseMirrored() && w.Keys <= cell.mem.Keys
    requires forall y <- w :: w[y].(parent := null) == cell.mem[y].(parent := null)
    modifies cell`mem
    ensures cell.mem == w && cell.BaseMirrored()
  {
    forall y <- w ensures w[y].left == cell.mem[y].left && w[y].right == cell.mem[y].right {
      assert w[y].(parent := null) == cell.mem[y].(parent := null);
    }
    cell.mem := w;
  }

  /** `k` without the node of `x`. A parent is recorded for its child, although nodes here store none. */
  ghost function Without(x: Tree, c: Ctx, k: Mem): (w: Mem)
    requires x.Bin?
    ensures w.Keys == k.Keys - {x.item.at}
    ensures forall y <- w :: w[y].(parent := null) == k[y].(parent := null)
  {
    var u := OnlyChild(x);
    (if u.Bin? && u.item.at in k then k[u.item.at := k[u.item.at].(parent := Above(c))] else k) - {x.item.at}
  }

  lemma Spliced(x: Tree, c: Ctx, root0: Node?, root: Node?, m: Mem)
    requires Forms(Plug(x, c), root0, m) && x.Bin? && (x.left.Leaf? || x.right.Leaf?)
    requires root == if c.Top? then Ref(OnlyChild(x)) else root0
    requires !c.Top? ==> c.item.at in m
    ensures Forms(Plug(OnlyChild(x), c), root, Without(x, c, Stored(m, SlotOf(c), Ref(OnlyChild(x)))))
  {
    TurnReady(x, c, root0, m);
    NodeBridged(x.left, x.item, x.right, c, root0, root, m, Without(x, c, Stored(m, SlotOf(c), Ref(OnlyChild(x)))));
  }
}
