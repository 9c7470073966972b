// What the three back ends do alike: the descents, the choice of the node that leaves the tree, and (for the
// two with parent pointers) its unlinking.

/** Descents by key, and removal up to the rebalancing. */
module TreeWalk {
  import opened TreeShape
  import opened TreeMemory
  import opened TreeCell
  import opened Entries

  /** The hole of `c` is where `key` belongs. */
  ghost predicate Belongs(key: Key, c: Ctx) {
    AllBelow(Before(c), key) && AllAbove(After(c), key)
  }

  /** Turning left or right by the comparison keeps the key where it belongs. */
  lemma StepDown(key: Key, t: Tree, c: Ctx)
    requires Sorted(Inorder(Plug(t, c))) && t.Bin? && Belongs(key, c)
    ensures Compare(key, t.item.key) < 0 ==> Belongs(key, InLeft(t.item, t.right, c))
    ensures Compare(key, t.item.key) > 0 ==> Belongs(key, InRight(t.left, t.item, c))
  {
    var l, i, r := Inorder(t.left), t.item.Pair(), Inorder(t.right);
    InorderPlug(t, c);
    Regroup(Before(c), l, [i], r, After(c));
    Narrowed(Before(c), l, i, r, After(c), key);
  }

  /** The search for the slot of a key in `insert`. */
  method FindSlot(cell: Cell, key: Key) returns (slot: Slot, parent: Node?, ghost t: Tree, ghost c: Ctx)
    requires cell.Shaped() && Sorted(Inorder(cell.tree))
    ensures cell.tree == Plug(t, c) && slot == SlotOf(c) && Belongs(key, c)
    ensures parent == if c.Top? then cell.root else c.item.at
    ensures t.Bin? ==> t.item.key.rank == key.rank
    ensures slot.RootSlot? || slot.n in cell.mem
    ensures Ref(t) == if slot.RootSlot? then cell.root else if slot.LeftOf? then slot.n.left else slot.n.right
  {
    slot, parent, t, c := RootSlot, cell.root, cell.tree, Top;
    var cur := cell.root;
    SlotOfCtx(t, c, cell.root, cell.mem);
    while cur != null
      invariant cell.tree == Plug(t, c) && slot == SlotOf(c) && Belongs(key, c) && cur == Ref(t)
      invariant parent == if c.Top? then cell.root else c.item.at
      decreases t
    {
      Around(t, c, cell.root, cell.mem);
      StepDown(key, t, c);
      var cmp := Compare(key, cur.key);
      if cmp < 0 {
        slot, parent, cur := LeftOf(cur), cur, cur.left;
        t, c := t.left, InLeft(t.item, t.right, c);
      } else if cmp > 0 {
        slot, parent, cur := RightOf(cur), cur, cur.right;
        t, c := t.right, InRight(t.left, t.item, c);
      } else {
        break;
      }
    }
    SlotOfCtx(t, c, cell.root, cell.mem);
  }

  /** The subtree at the node of a key that compares equal, or the empty one where it would be. */
  function Found(t: Tree, key: Key): Tree {
    if t.Leaf? then Leaf
    else if Compare(key, t.item.key) < 0 then Found(t.left, key)
    else if Compare(key, t.item.key) > 0 then Found(t.right, key)
    else t
  }

  /** The node at the top has two children. */
  predicate Full(t: Tree) { t.Bin? && t.left.Bin? && t.right.Bin? }

  /** The search for the node of a key in `remove`, with the slot that holds it. */
  method FindNode(cell: Cell, key: Key) returns (cur: Node?, slot: Slot, ghost t: Tree, ghost c: Ctx)
    requires cell.Shaped() && Sorted(Inorder(cell.tree))
    ensures cell.tree == Plug(t, c) && cur == Ref(t) && slot == SlotOf(c) && Belongs(key, c)
    ensures t == Found(cell.tree, key) && (t.Bin? ==> t.item.key.rank == key.rank)
  {
    cur, slot, t, c := cell.root, RootSlot, cell.tree, Top;
    SlotOfCtx(t, c, cell.root, cell.mem);
    while cur != null
      invariant cell.tree == Plug(t, c) && cur == Ref(t) && slot == SlotOf(c) && Belongs(key, c)
      invariant Found(t, key) == Found(cell.tree, key)
      decreases t
    {
      Around(t, c, cell.root, cell.mem);
      StepDown(key, t, c);
      var cmp := Compare(key, cur.key);
      if cmp < 0 {
        slot, cur := LeftOf(cur), cur.left;
        t, c := t.left, InLeft(t.item, t.right, c);
      } else if cmp > 0 {
        slot, cur := RightOf(cur), cur.right;
        t, c := t.right, InRight(t.left, t.item, c);
      } else {
        break;
      }
    }
  }

  /** Same nodes, colours and balance factors; keys and values may differ. */
  ghost predicate Alike(t: Tree, u: Tree) {
    match t
    case Leaf => u.Leaf?
    case Bin(l, i, r) =>
      && u.Bin? && Alike(l, u.left) && Alike(r, u.right)
      && i.at == u.item.at && i.color == u.item.color && i.balance == u.item.balance
  }

  lemma {:induction false} AlikeItself(t: Tree)
    ensures Alike(t, t)
  {
    if t.Bin? {
      AlikeItself(t.left);
      AlikeItself(t.right);
    }
  }

  lemma {:induction false} AlikePlug(t: Tree, u: Tree, c: Ctx)
    requires Alike(t, u)
    ensures Alike(Plug(t, c), Plug(u, c))
    decreases c
  {
    match c
    case Top =>
    case InLeft(i, r, up) =>
      AlikeItself(r);
      AlikePlug(Bin(t, i, r), Bin(u, i, r), up);
    case InRight(l, i, up) =>
      AlikeItself(l);
      AlikePlug(Bin(l, i, t), Bin(l, i, u), up);
  }

  lemma AlikeRewritten(t: Tree, i: Item, c: Ctx)
    requires t.Bin? && i.at == t.item.at && i.color == t.item.color && i.balance == t.item.balance
    ensures Alike(Plug(t, c), Plug(t.(item := i), c))
  {
    AlikeItself(t.left);
    AlikeItself(t.right);
    AlikePlug(t, t.(item := i), c);
  }

  /** From a node with a left child to its predecessor, the right end of the left subtree. */
  method Predecessor(cur: Node, cell: Cell, ghost t: Tree, ghost c: Ctx)
    returns (prev: Node, slot: Slot, ghost x: Tree, ghost e: Ctx)
    requires cell.Shaped() && cell.tree == Plug(t, c) && t.Bin? && t.left.Bin? && t.item.at == cur
    ensures Plug(x, e) == t.left && x.Bin? && x.item.at == prev && x.right.Leaf?
    ensures slot == SlotOf(Append(e, InLeft(t.item, t.right, c)))
    ensures prev.key == x.item.key && prev.value == x.item.value
    ensures After(e) == [] && Before(e) + Inorder(x.left) + [x.item.Pair()] == Inorder(t.left)
  {
    ghost var base := InLeft(t.item, t.right, c);
    x, e := t.left, Top;
    Around(t, c, cell.root, cell.mem);
    Around(x, base, cell.root, cell.mem);
    prev, slot := cur.left, LeftOf(cur);
    AtStart(x, base);
    assert Plug(x, base) == cell.tree;
    hide Plug, Forms, Append, Before, After, Inorder, SlotOf;
    while prev.right != null
      invariant Plug(x, e) == t.left && x.Bin? && x.item.at == prev && prev in cell.mem
      invariant Near(x, Above(Append(e, base)), cell.mem) && slot == SlotOf(Append(e, base))
      invariant After(e) == [] && Before(e) + Inorder(x) == Inorder(t.left)
      decreases x
    {
      ToRight(x, e, base);
      slot, prev := RightOf(prev), prev.right;
      x, e := x.right, InRight(x.left, x.item, e);
      PlugAppend(x, e, base);
      Around(x, Append(e, base), cell.root, cell.mem);
    }
    AtRightEnd(x, e);
  }

  lemma AtStart(x: Tree, base: Ctx)
    ensures Plug(x, Top) == x && Append(Top, base) == base && After(Top) == [] && Before(Top) + Inorder(x) == Inorder(x)
    ensures base.InLeft? ==> SlotOf(base) == LeftOf(base.item.at)
  {
  }

  /** One step down the right spine. */
  lemma ToRight(x: Tree, e: Ctx, base: Ctx)
    requires x.Bin?
    ensures var d := InRight(x.left, x.item, e);
      && Plug(x.right, d) == Plug(x, e) && After(d) == After(e)
      && Before(d) + Inorder(x.right) == Before(e) + Inorder(x)
      && Append(d, base) == InRight(x.left, x.item, Append(e, base)) && SlotOf(Append(d, base)) == RightOf(x.item.at)
  {
    RestSeqs(Before(e), [], Inorder(x.left), [x.item.Pair()], Inorder(x.right), []);
  }

  lemma AtRightEnd(x: Tree, e: Ctx)
    requires x.Bin? && x.right.Leaf?
    ensures Before(e) + Inorder(x) == Before(e) + Inorder(x.left) + [x.item.Pair()]
  {
    RestSeqs(Before(e), [], Inorder(x.left), [x.item.Pair()], [], []);
  }

  /** The entries left once the entry at the top of `t` is gone. */
  ghost function Rest(t: Tree, c: Ctx): seq<Entry>
    requires t.Bin?
  {
    Before(c) + Inorder(t.left) + Inorder(t.right) + After(c)
  }

  /** The pair in the node that leaves the tree when the node at the top of `t` is removed: its own, or that of its
      predecessor if it has two children. */
  function DoomedPair(t: Tree): Entry
    requires t.Bin?
  {
    InorderOf(t.left);
    if Full(t) then Inorder(t.left)[|Inorder(t.left)| - 1] else t.item.Pair()
  }

  lemma InorderOf(t: Tree)
    ensures Inorder(t) == [] <==> t.Leaf?
  {
  }

  /** A node with two children takes over its predecessor's entry, and the predecessor's node is the one
      to go. Nothing but entries has changed so far. */
  method Victim(cur: Node, slot: Slot, cell: Cell, ghost t: Tree, ghost c: Ctx)
    returns (doomed: Node, doomedSlot: Slot, ghost x: Tree, ghost d: Ctx)
    requires cell.Shaped() && cell.tree == Plug(t, c) && t.Bin? && t.item.at == cur && slot == SlotOf(c)
    modifies cell`tree, cell`mem, cell.mem.Keys`key, cell.mem.Keys`value
    ensures cell.Shaped() && (old(cell.ExtraMirrored()) ==> cell.ExtraMirrored())
    ensures cell.tree == Plug(x, d) && x.Bin? && x.item.at == doomed && doomedSlot == SlotOf(d)
    ensures (x.left.Leaf? || x.right.Leaf?) && Alike(old(cell.tree), cell.tree)
    ensures Before(d) + Inorder(OnlyChild(x)) + After(d) == Rest(t, c)
    ensures x.item.Pair() == DoomedPair(t)
    ensures cell.mem.Keys == old(cell.mem.Keys)
  {
    Around(t, c, cell.root, cell.mem);
    if t.left.Leaf? || t.right.Leaf? {
      OwnPair(t, c);
    }
    hide Plug, Alike, SlotOf, Forms, Before, After, Inorder, Append, Rest, DoomedPair;
    if cur.left != null && cur.right != null {
      ghost var e;
      doomed, doomedSlot, x, e := Predecessor(cur, cell, t, c);
      VictimRest(t, c, x, e);
      WriteEntry(cur, doomed.key, doomed.value, cell, t, c);
      return doomed, doomedSlot, x, Append(e, InLeft(Heir(t, x), t.right, c));
    } else {
      AlikeItself(cell.tree);
      return cur, slot, t, c;
    }
  }

  lemma OwnPair(t: Tree, c: Ctx)
    requires t.Bin? && (t.left.Leaf? || t.right.Leaf?)
    ensures t.item.Pair() == DoomedPair(t) && Before(c) + Inorder(OnlyChild(t)) + After(c) == Rest(t, c)
  {
    RestSeqs(Before(c), [], Inorder(t.left), [], Inorder(t.right), After(c));
  }

  /** The node at the top of `t` with the entry of the one at the top of `x`. */
  function Heir(t: Tree, x: Tree): Item
    requires t.Bin? && x.Bin?
  {
    t.item.(key := x.item.key, value := x.item.value)
  }

  lemma VictimRest(t: Tree, c: Ctx, x: Tree, e: Ctx)
    requires t.Bin? && t.left.Bin? && x.Bin? && x.right.Leaf? && Plug(x, e) == t.left
    requires After(e) == [] && Before(e) + Inorder(x.left) + [x.item.Pair()] == Inorder(t.left)
    ensures var d, u := Append(e, InLeft(Heir(t, x), t.right, c)), t.(item := Heir(t, x));
      && Before(d) + Inorder(OnlyChild(x)) + After(d) == Rest(t, c)
      && Plug(x, d) == Plug(u, c) && Alike(Plug(t, c), Plug(u, c))
      && SlotOf(d) == SlotOf(Append(e, InLeft(t.item, t.right, c)))
    ensures t.right.Bin? ==> x.item.Pair() == DoomedPair(t)
  {
    assert (Before(e) + Inorder(x.left) + [x.item.Pair()])[|Before(e) + Inorder(x.left)|] == x.item.Pair();
    var base := InLeft(Heir(t, x), t.right, c);
    AroundAppend(e, base);
    PlugAppend(x, e, base);
    assert OnlyChild(x) == if x.left.Leaf? then Leaf else x.left;
    RestSeqs(Before(c), Before(e), Inorder(x.left), [x.item.Pair()], Inorder(t.right), After(c));
    AlikeRewritten(t, Heir(t, x), c);
  }

  lemma NoMiddle<T>(a: seq<T>, b: seq<T>, c: seq<T>)
    ensures a + [] + c == a + c && [] + b + [] == b
  {
  }

  lemma RestSeqs<T>(a: seq<T>, b: seq<T>, c: seq<T>, d: seq<T>, e: seq<T>, f: seq<T>)
    ensures (a + b) + c + ([] + (d + e + f)) == a + (b + c + d) + e + f
    ensures a + (c + d + e) == a + c + d + e && a + c + d + [] == a + c + d
  {
  }

  /** The doomed node is bypassed, in the back ends with parent pointers. */
  method Unlink(cur: Node, child: Node?, cell: Cell, ghost x: Tree, ghost c: Ctx)
    requires cell.Wired() && cell.tree == Plug(x, c) && x.Bin? && x.item.at == cur
    requires (x.left.Leaf? || x.right.Leaf?) && child == Ref(OnlyChild(x))
    modifies cell, cell.mem.Keys
    ensures cell.Wired() && cell.tree == Plug(OnlyChild(x), c) && cell.mem.Keys == old(cell.mem.Keys) - {cur}
    ensures unchanged(cur)
  {
    hide Plug, Forms;
    ghost var m, root0 := cell.mem, cell.root;
    TurnReady(x, c, root0, m);
    Around(x, c, root0, m);
    Bypass(cur, child, cell);
    NodeBypassed(x, c, root0, cell.root, m, cell.mem);
    cell.tree := Plug(OnlyChild(x), c);
  }

  method Bypass(cur: Node, child: Node?, cell: Cell)
    requires cell.BaseMirrored() && cell.ExtraMirrored() && cur in cell.mem
    requires child != null ==> child in cell.mem && child != cur && child != cur.parent
    requires cur.parent != null ==> cur.parent in cell.mem && cur.parent != cur
    requires cell.root == cur <==> cur.parent == null
    modifies cell`root, cell`mem, cell.mem.Keys
    ensures cell.BaseMirrored() && cell.ExtraMirrored() && unchanged(cur)
    ensures Bypassed(cur, child, old(cell.root), cell.root, old(cell.mem), cell.mem)
  {
    var childParent: Node? := null;
    if cur == cell.root {
      cell.root := child;
    } else {
      childParent := cur.parent;
      ReplaceChild(childParent, cur, child);
    }
    if child != null {
      child.parent := childParent;
    }
    Refresh(cell, cell.mem.Keys - {cur});
  }

  /** The map that a cell's tree stands for. */
  ghost function Contents(cell: Cell): map<int, Entry>
    reads cell`tree
  {
    AsMap(Inorder(cell.tree))
  }

  /** What a removal hands to the destroy functions, told from the tree before it: nothing if the key is absent, the
      removed pair if and only if its node lacks a child, and otherwise the pair that comes just before it. */
  ghost predicate Destroys(t: Tree, key: Key, destroyed: seq<Entry>) {
    var m := AsMap(Inorder(t));
    if key.rank !in m then destroyed == []
    else
      && |destroyed| == 1 && (destroyed[0] == m[key.rank] <==> !Full(Found(t, key)))
      && (Full(Found(t, key)) ==> ComesBefore(m, destroyed[0], key))
  }

  /** Of the entries of `m` with smaller keys `e` is the last. */
  ghost predicate ComesBefore(m: map<int, Entry>, e: Entry, key: Key) {
    && Has(m, e) && e.key.rank < key.rank
    && forall r <- m :: r < key.rank ==> r <= e.key.rank
  }

  lemma LastBefore(a: seq<Entry>, p: Entry, e: Entry, b: seq<Entry>)
    requires Sorted((a + [p]) + [e] + b)
    ensures ComesBefore(AsMap((a + [p]) + [e] + b), p, e.key)
  {
    var s := (a + [p]) + [e] + b;
    assert s[|a|] == p && s[|a| + 1] == e;
    Replaced(a + [p], e, e, b);
    assert s == a + [p] + ([e] + b);
    Replaced(a, p, p, [e] + b);
    AsMapRanks(s);
    forall r <- AsMap(s) | r < e.key.rank
      ensures r <= p.key.rank
    {
      var k :| 0 <= k < |s| && s[k] == AsMap(s)[r];
      assert k <= |a|;
    }
  }

  lemma SplitLast<T>(b: seq<T>, l: seq<T>, i: seq<T>, r: seq<T>, a: seq<T>)
    requires l != []
    ensures b + (l + i + r) + a == ((b + l[..|l| - 1]) + [l[|l| - 1]]) + i + (r + a)
  {
  }

  lemma FullPair(t: Tree, c: Ctx)
    requires Sorted(Inorder(Plug(t, c))) && Full(t)
    ensures ComesBefore(AsMap(Inorder(Plug(t, c))), DoomedPair(t), t.item.key)
  {
    InorderOf(t.left);
    InorderPlug(t, c);
    var l := Inorder(t.left);
    SplitLast(Before(c), l, [t.item.Pair()], Inorder(t.right), After(c));
    hide Sorted, AsMap, Plug, Before, After, ComesBefore;
    LastBefore(Before(c) + l[..|l| - 1], DoomedPair(t), t.item.Pair(), Inorder(t.right) + After(c));
  }

  /** The pair in the node that leaves the tree is the removed one if and only if the key's node lacks a child. */
  lemma DestroyedPair(t: Tree, c: Ctx, key: Key)
    requires Sorted(Inorder(Plug(t, c))) && t.Bin? && t.item.key.rank == key.rank && t == Found(Plug(t, c), key)
    ensures Destroys(Plug(t, c), key, [DoomedPair(t)])
    ensures Full(t) ==> Has(AsMap(Rest(t, c)), DoomedPair(t))
  {
    hide Sorted, AsMap, Plug, Inorder, Found, Rest;
    EntryFound(t, c);
    RestRemoves(t, c);
    if Full(t) {
      FullPair(t, c);
    }
  }

  /** Attaching a leaf where its key belongs adds the entry. */
  lemma LeafAdds(c: Ctx, i: Item)
    requires Sorted(Inorder(Plug(Leaf, c))) && Belongs(i.key, c)
    ensures var u := Plug(Bin(Leaf, i, Leaf), c);
      && Sorted(Inorder(u)) && i.key.rank !in AsMap(Inorder(Plug(Leaf, c)))
      && AsMap(Inorder(u)) == AsMap(Inorder(Plug(Leaf, c)))[i.key.rank := i.Pair()]
  {
    InorderPlug(Leaf, c);
    InorderPlug(Bin(Leaf, i, Leaf), c);
    NoMiddle(Before(c), [i.Pair()], After(c));
    Inserted(Before(c), i.Pair(), After(c));
  }

  /** Rewriting the entry of a key that compares equal replaces the entry. */
  lemma EntryReplaces(t: Tree, c: Ctx, i: Item)
    requires Sorted(Inorder(Plug(t, c))) && t.Bin? && i.key.rank == t.item.key.rank
    ensures var u := Plug(t.(item := i), c);
      && Sorted(Inorder(u)) && i.key.rank in AsMap(Inorder(Plug(t, c)))
      && AsMap(Inorder(u)) == AsMap(Inorder(Plug(t, c)))[i.key.rank := i.Pair()]
  {
    InorderPlug(t, c);
    InorderPlug(t.(item := i), c);
    Regroup(Before(c), Inorder(t.left), [t.item.Pair()], Inorder(t.right), After(c));
    Regroup(Before(c), Inorder(t.left), [i.Pair()], Inorder(t.right), After(c));
    Replaced(Before(c) + Inorder(t.left), t.item.Pair(), i.Pair(), Inorder(t.right) + After(c));
  }

  /** What is left without the top of `t` is the map without its key. */
  lemma RestRemoves(t: Tree, c: Ctx)
    requires Sorted(Inorder(Plug(t, c))) && t.Bin?
    ensures Sorted(Rest(t, c)) && t.item.key.rank in AsMap(Inorder(Plug(t, c)))
    ensures AsMap(Rest(t, c)) == AsMap(Inorder(Plug(t, c))) - {t.item.key.rank}
  {
    InorderPlug(t, c);
    Regroup(Before(c), Inorder(t.left), [t.item.Pair()], Inorder(t.right), After(c));
    Removed(Before(c) + Inorder(t.left), t.item.Pair(), Inorder(t.right) + After(c));
    Outer(Before(c), Inorder(t.left), Inorder(t.right), After(c));
  }

  lemma Outer<T>(a: seq<T>, b: seq<T>, c: seq<T>, d: seq<T>)
    ensures (a + b) + (c + d) == a + b + c + d
  {
  }

  lemma AbsentFromHole(key: Key, c: Ctx)
    requires Belongs(key, c)
    ensures key.rank !in AsMap(Inorder(Plug(Leaf, c)))
  {
    InorderPlug(Leaf, c);
    NoMiddle(Before(c), [], After(c));
    Absent(Before(c), After(c), key);
  }

  lemma EntryFound(t: Tree, c: Ctx)
    requires Sorted(Inorder(Plug(t, c))) && t.Bin?
    ensures t.item.key.rank in AsMap(Inorder(Plug(t, c)))
    ensures AsMap(Inorder(Plug(t, c)))[t.item.key.rank] == t.item.Pair()
  {
    InorderPlug(t, c);
    Regroup(Before(c), Inorder(t.left), [t.item.Pair()], Inorder(t.right), After(c));
    Replaced(Before(c) + Inorder(t.left), t.item.Pair(), t.item.Pair(), Inorder(t.right) + After(c));
  }
}
