// The `PTreeBaseNode **root` argument of the back ends, the `PTreeBaseNode **` cursors they walk with, and the
// writes they share.

/** The root cell of a tree, with the tree it represents. */
module TreeCell {
  import opened TreeShape
  import opened TreeMemory

  class Cell {
    var root: Node?
    ghost var tree: Tree
    ghost var mem: Mem

    constructor ()
      ensures root == null && tree == Leaf && mem == map[] && Wired()
    {
      root, tree, mem := null, Leaf, map[];
    }

    /** What a cursor points to. */
    function Get(s: Slot): Node?
      reads this`root, if s.RootSlot? then {} else {s.n}
    {
      if s.RootSlot? then root else if s.LeftOf? then s.n.left else s.n.right
    }

    /** `mem` records the base fields. */
    ghost predicate BaseMirrored()
      reads this`mem, mem.Keys
    {
      forall x <- mem ::
        x.left == mem[x].left && x.right == mem[x].right && x.key == mem[x].key && x.value == mem[x].value
    }

    /** `mem` records the fields behind the base node. */
    ghost predicate ExtraMirrored()
      reads this`mem, mem.Keys
    {
      forall x <- mem :: x.parent == mem[x].parent && x.color == mem[x].color && x.balance == mem[x].balance
    }

    /** The nodes form `tree`, as far as the base fields can tell. */
    ghost predicate Shaped()
      reads this, mem.Keys
    {
      Forms(tree, root, mem) && BaseMirrored()
    }

    /** The nodes form `tree` with its parent pointers, colours and balance factors. */
    ghost predicate Wired()
      reads this, mem.Keys
    {
      Shaped() && ExtraMirrored()
    }
  }

  ghost function Snap(s: set<Node>): (m: Mem)
    reads s
    ensures m.Keys == s
  {
    map x | x in s :: Rec(x.left, x.right, x.key, x.value, x.parent, x.color, x.balance)
  }

  /** Brings `mem` up to date after writes to the nodes of `s`. */
  ghost method Refresh(cell: Cell, s: set<Node>)
    modifies cell`mem
    ensures cell.mem.Keys == s && cell.BaseMirrored() && cell.ExtraMirrored()
  {
    cell.mem := Snap(s);
  }

  /** The link of `p` that holds `a` is made to hold `b`. */
  method ReplaceChild(p: Node, a: Node, b: Node?)
    modifies p`left, p`right
    ensures p.left == if old(p.left) == a then b else old(p.left)
    ensures p.right == if old(p.left) == a then old(p.right) else b
  {
    if p.left == a {
      p.left := b;
    } else {
      p.right := b;
    }
  }

  /** A write through a cursor. */
  method Store(s: Slot, n: Node?, cell: Cell)
    requires cell.BaseMirrored() && (!s.RootSlot? ==> s.n in cell.mem)
    modifies cell`root, cell`mem, cell.mem.Keys`left, cell.mem.Keys`right
    ensures cell.BaseMirrored() && (old(cell.ExtraMirrored()) ==> cell.ExtraMirrored())
    ensures cell.mem == Stored(old(cell.mem), s, n)
    ensures cell.root == if s.RootSlot? then n else old(cell.root)
  {
    ghost var k := Stored(cell.mem, s, n);
    if s.RootSlot? {
      cell.root := n;
    } else if s.LeftOf? {
      s.n.left := n;
    } else {
      s.n.right := n;
    }
    cell.mem := k;
  }

  /** A node without children comes to the nodes on record, with `parent` as its parent. */
  ghost method Include(n: Node, parent: Node?, cell: Cell)
    requires cell.BaseMirrored() && n.left == null && n.right == null
    modifies cell`mem
    ensures cell.mem == old(cell.mem)[n := Rec(null, null, n.key, n.value, parent, n.color, n.balance)]
    ensures cell.mem.Keys == old(cell.mem.Keys) + {n}
    ensures cell.BaseMirrored() && (old(cell.ExtraMirrored()) && n.parent == parent ==> cell.ExtraMirrored())
  {
    cell.mem := cell.mem[n := Rec(null, null, n.key, n.value, parent, n.color, n.balance)];
  }

  /** A freshly allocated node goes into the empty slot `s`. */
  method Attach(s: Slot, n: Node, cell: Cell, ghost c: Ctx)
    requires cell.Shaped() && cell.tree == Plug(Leaf, c) && s == SlotOf(c)
    requires n !in cell.mem && n.left == null && n.right == null
    modifies cell, cell.mem.Keys`left, cell.mem.Keys`right
    ensures cell.Shaped() && cell.tree == Plug(Bin(Leaf, Item(n, n.key, n.value, n.color, n.balance), Leaf), c)
    ensures old(cell.ExtraMirrored()) && n.parent == Above(c) ==> cell.ExtraMirrored()
    ensures cell.mem.Keys == old(cell.mem.Keys) + {n}
  {
    hide Forms, Plug, SlotOf;
    ghost var m, root0 := cell.mem, cell.root;
    ghost var i := Item(n, n.key, n.value, n.color, n.balance);
    SlotOfCtx(Leaf, c, root0, m);
    Store(s, n, cell);
    LeafAttached(c, i, s, root0, cell.root, m);
    assert cell.mem.Keys == m.Keys;
    hide Stored;
    Include(n, Above(c), cell);
    cell.tree := Plug(Bin(Leaf, i, Leaf), c);
  }

  method Rewrite(node: Node, key: Key, value: Pointer, cell: Cell)
    requires cell.BaseMirrored() && node in cell.mem
    modifies cell`mem, node`key, node`value
    ensures cell.BaseMirrored() && (old(cell.ExtraMirrored()) ==> cell.ExtraMirrored())
    ensures cell.mem == old(cell.mem)[node := old(cell.mem)[node].(key := key, value := value)]
  {
    node.key := key;
    node.value := value;
    cell.mem := cell.mem[node := cell.mem[node].(key := key, value := value)];
  }

  /** The fields of a node hold its pair. */
  lemma EntryAt(node: Node, cell: Cell, t: Tree, c: Ctx)
    requires cell.Shaped() && cell.tree == Plug(t, c) && t.Bin? && t.item.at == node
    ensures Entry(node.key, node.value) == t.item.Pair()
  {
    Around(t, c, cell.root, cell.mem);
  }

  /** The node at the top of `t` gets a new key and a new value. */
  method WriteEntry(node: Node, key: Key, value: Pointer, cell: Cell, ghost t: Tree, ghost c: Ctx)
    requires cell.Shaped() && cell.tree == Plug(t, c) && t.Bin? && t.item.at == node
    modifies cell`tree, cell`mem, cell.mem.Keys`key, cell.mem.Keys`value
    ensures cell.Shaped() && (old(cell.ExtraMirrored()) ==> cell.ExtraMirrored())
    ensures cell.tree == Plug(t.(item := t.item.(key := key, value := value)), c)
    ensures cell.mem.Keys == old(cell.mem.Keys)
  {
    hide Plug, Forms;
    ghost var i, m := t.item.(key := key, value := value), cell.mem;
    ItemWritten(t, i, c, cell.root, m);
    Around(t, c, cell.root, m);
    assert Rewritten(m[node], i) == m[node].(key := key, value := value);
    Rewrite(node, key, value, cell);
    cell.tree := Plug(t.(item := i), c);
  }
}
