// The tree handle of plibsys/src/ptree.c, over any of the three back ends.

/** `PTree` as a finite map. */
module PTree {
  import opened TreeShape
  import opened TreeMemory
  import opened TreeCell
  import opened TreeWalk
  import opened Entries
  import opened Books
  import opened Heights
  import R = RedBlackShape
  import A = AvlShape
  import Bst
  import RedBlack
  import AvlTree
  import Morris
  import Dismantle

  datatype TreeType = Binary | RB | AVL

  /** The balance that a back end keeps. */
  ghost predicate InShape(kind: TreeType, t: Tree) {
    match kind
    case Binary => true
    case RB => R.RedBlack(t)
    case AVL => A.Avl(t)
  }

  /** What `p_tree_lookup` answers for a map. */
  function LookedUp(m: map<int, Entry>, key: Key): Pointer {
    if key.rank in m then m[key.rank].value else NULL
  }

  /** The pair that an insertion replaces, if there is one. */
  function Outgoing(m: map<int, Entry>, key: Key): seq<Entry> {
    if key.rank in m then [m[key.rank]] else []
  }

  /** A search tree in the shape its type asks for. */
  ghost predicate Sound(kind: TreeType, cell: Cell)
    reads cell, cell.mem.Keys
  {
    match kind
    case Binary => Bst.Valid(cell)
    case RB => RedBlack.Valid(cell)
    case AVL => AvlTree.Valid(cell)
  }

  /** The insertion of the back end. */
  method InsertNode(kind: TreeType, cell: Cell, key: Key, value: Pointer) returns (added: bool, destroyed: seq<Entry>)
    requires Sound(kind, cell)
    modifies cell, cell.mem.Keys
    ensures Sound(kind, cell) && fresh(cell.mem.Keys - old(cell.mem.Keys))
    ensures added <==> key.rank !in old(Contents(cell))
    ensures Contents(cell) == old(Contents(cell))[key.rank := Entry(key, value)]
    ensures |Contents(cell)| == |old(Contents(cell))| + if added then 1 else 0
    ensures destroyed == Outgoing(old(Contents(cell)), key)
    ensures kind == Binary ==> Bst.TopStays(old(cell.tree), key, cell.tree)
  {
    InsertedSize(Contents(cell), key.rank, Entry(key, value));
    match kind {
      case Binary => added, destroyed := Bst.Insert(cell, key, value);
      case RB => added, destroyed := RedBlack.Insert(cell, key, value);
      case AVL => added, destroyed := AvlTree.Insert(cell, key, value);
    }
  }

  /** The removal of the back end, or nothing when the tree is empty. */
  method RemoveNode(kind: TreeType, cell: Cell, key: Key) returns (removed: bool, destroyed: seq<Entry>)
    requires Sound(kind, cell)
    modifies cell, cell.mem.Keys
    ensures Sound(kind, cell) && fresh(cell.mem.Keys - old(cell.mem.Keys))
    ensures removed <==> key.rank in old(Contents(cell))
    ensures Contents(cell) == old(Contents(cell)) - {key.rank}
    ensures |Contents(cell)| == |old(Contents(cell))| - if removed then 1 else 0
    ensures Destroys(old(cell.tree), key, destroyed)
    ensures removed && Full(Found(old(cell.tree), key)) ==> Has(Contents(cell), destroyed[0])
  {
    RemovedSize(Contents(cell), key.rank);
    if cell.root == null {
      EmptyTree(kind, cell, key);
      return false, [];
    }
    match kind {
      case Binary => removed, destroyed := Bst.Remove(cell, key);
      case RB => removed, destroyed := RedBlack.Remove(cell, key);
      case AVL => removed, destroyed := AvlTree.Remove(cell, key);
    }
  }

  /** The loop of `p_tree_lookup`, with the number of calls to the compare function. */
  method Search(cell: Cell, key: Key) returns (value: Pointer, ghost comparisons: nat)
    requires cell.Shaped() && Sorted(Inorder(cell.tree))
    ensures key.rank in Contents(cell) ==> value == Contents(cell)[key.rank].value
    ensures key.rank !in Contents(cell) ==> value == NULL
    ensures comparisons <= Height(cell.tree)
  {
    comparisons := 0;
    var cur := cell.root;
    ghost var t, c := cell.tree, Top;
    SlotOfCtx(t, c, cell.root, cell.mem);
    while cur != null
      invariant cell.tree == Plug(t, c) && cur == Ref(t) && Belongs(key, c)
      invariant comparisons + Height(t) <= Height(cell.tree)
      decreases t
    {
      Around(t, c, cell.root, cell.mem);
      StepDown(key, t, c);
      var cmp := Compare(key, cur.key);
      comparisons := comparisons + 1;
      if cmp < 0 {
        cur := cur.left;
        t, c := t.left, InLeft(t.item, t.right, c);
      } else if cmp > 0 {
        cur := cur.right;
        t, c := t.right, InRight(t.left, t.item, c);
      } else {
        EntryFound(t, c);
        return cur.value, comparisons;
      }
    }
    AbsentFromHole(key, c);
    return NULL, comparisons;
  }

  class Handle {
    const cell: Cell
    const kind: TreeType
    var nnodes: int

    constructor (kind: TreeType)
      ensures Valid() && Map() == map[] && this.kind == kind && fresh(cell) && cell.mem.Keys == {}
      ensures cell.tree == Leaf
    {
      this.kind := kind;
      cell := new Cell();
      nnodes := 0;
    }

    ghost predicate Valid()
      reads this, cell, cell.mem.Keys
    {
      Sound(kind, cell) && nnodes == |Map()|
    }

    ghost function Map(): map<int, Entry>
      reads cell`tree
    {
      Contents(cell)
    }

    /** `p_tree_get_nnodes`. */
    function Count(): (n: int)
      reads this, cell, cell.mem.Keys
      requires Valid()
      ensures n == |Map()|
    {
      nnodes
    }

    /** The node count goes up or down by one. */
    method AddToCount(d: int)
      requires Sound(kind, cell) && nnodes + d == |Map()|
      modifies this`nnodes
      ensures Valid()
    {
      nnodes := nnodes + d;
    }

    /** `p_tree_insert`, with what it hands to the destroy functions. */
    method Insert(key: Key, value: Pointer) returns (destroyed: seq<Entry>)
      requires Valid()
      modifies this`nnodes, cell, cell.mem.Keys
      ensures Valid() && fresh(cell.mem.Keys - old(cell.mem.Keys))
      ensures Map() == old(Map())[key.rank := Entry(key, value)]
      ensures destroyed == Outgoing(old(Map()), key)
      ensures kind == Binary ==> Bst.TopStays(old(cell.tree), key, cell.tree)
    {
      var added;
      added, destroyed := InsertNode(kind, cell, key, value);
      if added {
        AddToCount(1);
      }
    }

    /** `p_tree_remove`, with what it hands to the destroy functions: the removed pair if and only if its node lacks a
        child, otherwise the pair before it, which the tree still holds. */
    method Remove(key: Key) returns (removed: bool, destroyed: seq<Entry>)
      requires Valid()
      modifies this`nnodes, cell, cell.mem.Keys
      ensures Valid() && fresh(cell.mem.Keys - old(cell.mem.Keys))
      ensures removed <==> key.rank in old(Map())
      ensures Map() == old(Map()) - {key.rank}
      ensures Destroys(old(cell.tree), key, destroyed)
      ensures removed && Full(Found(old(cell.tree), key)) ==> Has(Map(), destroyed[0])
    {
      removed, destroyed := RemoveNode(kind, cell, key);
      if removed {
        AddToCount(-1);
      }
    }

    /** `p_tree_lookup`. The number of calls to the compare function is logarithmic in the balanced trees. */
    method Lookup(key: Key) returns (value: Pointer, ghost comparisons: nat)
      requires Valid()
      ensures key.rank in Map() ==> value == Map()[key.rank].value
      ensures key.rank !in Map() ==> value == NULL
      ensures comparisons <= Height(cell.tree)
      ensures kind == RB ==> Pow2(comparisons) <= (|Map()| + 1) * (|Map()| + 1)
      ensures kind == AVL ==> Fib(comparisons + 2) <= |Map()| + 1
    {
      value, comparisons := Search(cell, key);
      LookupBound(cell.tree, kind, comparisons);
    }

    /** `p_tree_foreach`. */
    method Foreach(stop: seq<Entry> -> bool) returns (calls: seq<Entry>)
      requires Valid()
      modifies cell`mem, cell.mem.Keys`right
      ensures Valid() && Map() == old(Map()) && cell.mem == old(cell.mem)
      ensures exists all :: Sorted(all) && AsMap(all) == Map()
      ensures forall all :: Sorted(all) && AsMap(all) == Map() ==> Morris.ShortestStop(calls, all, stop)
    {
      calls := Morris.Foreach(cell, stop);
      ghost var inorder := Inorder(cell.tree);
      assert Sorted(inorder) && AsMap(inorder) == Map();
      forall all | Sorted(all) && AsMap(all) == AsMap(inorder)
        ensures all == inorder
      {
        SortedUnique(all, inorder);
      }
    }

    /** `p_tree_clear`, with what it hands to the destroy functions. */
    method Clear() returns (destroyed: seq<Entry>)
      requires Valid()
      modifies this`nnodes, cell, cell.mem.Keys`left, cell.mem.Keys`right
      ensures Valid() && Map() == map[] && cell.root == null && nnodes == 0 && cell.mem == map[]
      ensures Sorted(destroyed) && AsMap(destroyed) == old(Map())
    {
      SizeIsLength(Inorder(cell.tree));
      destroyed, nnodes := Dismantle.TearDown(cell, nnodes);
      cell.root := null;
      cell.tree := Leaf;
    }
  }

  // ----- a wrong pair -----

  const LOW := Entry(Key(1, 1), 10)
  const MIDDLE := Entry(Key(2, 2), 20)
  const HIGH := Entry(Key(3, 3), 30)

  lemma {:induction false} OneOrNone(t: Tree)
    ensures t.Leaf? <==> Inorder(t) == []
    ensures |Inorder(t)| == 1 <==> t.Bin? && t.left.Leaf? && t.right.Leaf?
  {
    if t.Bin? {
      OneOrNone(t.left);
      OneOrNone(t.right);
    }
  }

  /** Three entries of which the middle one is at the top. */
  lemma MiddleIsFull(t: Tree)
    requires Inorder(t) == [LOW, MIDDLE, HIGH] && t.Bin? && t.item.key.rank == 2
    ensures Full(t) && Found(t, MIDDLE.key) == t
  {
    var l := Inorder(t.left);
    assert (l + [t.item.Pair()] + Inorder(t.right))[|l|] == t.item.Pair();
    OneOrNone(t.left);
    OneOrNone(t.right);
  }

  lemma RedChildIsAlone(t: Tree)
    requires R.Balanced(t) && R.BlackHeight(t) == 0 && t.Bin?
    ensures t.left.Leaf? && t.right.Leaf?
  {
    assert t.item.color == Red;
  }

  /** In a balanced tree an only child has no children. */
  lemma OnlyChildIsLeaf(kind: TreeType, t: Tree)
    requires InShape(kind, t) && kind != Binary && t.Bin?
    ensures t.left.Leaf? && t.right.Bin? ==> t.right.left.Leaf? && t.right.right.Leaf?
    ensures t.right.Leaf? && t.left.Bin? ==> t.left.left.Leaf? && t.left.right.Leaf?
  {
    if kind == RB {
      if t.left.Leaf? && t.right.Bin? {
        RedChildIsAlone(t.right);
      }
      if t.right.Leaf? && t.left.Bin? {
        RedChildIsAlone(t.left);
      }
    } else {
      assert t.left.Leaf? ==> Height(t.right) <= 1;
      assert t.right.Leaf? ==> Height(t.left) <= 1;
    }
  }

  /** In a balanced tree of three entries the middle one is at the top. */
  lemma MiddleOnTop(kind: TreeType, t: Tree)
    requires InShape(kind, t) && kind != Binary && Inorder(t) == [LOW, MIDDLE, HIGH]
    ensures t.Bin? && t.item.key.rank == 2
  {
    var l, r := Inorder(t.left), Inorder(t.right);
    var s := l + [t.item.Pair()] + r;
    assert s[|l|] == t.item.Pair() && |s| == 3;
    OnlyChildIsLeaf(kind, t);
    OneOrNone(t.left);
    OneOrNone(t.right);
  }

  lemma ThreeListed(t: Tree)
    requires Sorted(Inorder(t)) && AsMap(Inorder(t)) == map[2 := MIDDLE, 1 := LOW, 3 := HIGH]
    ensures Inorder(t) == [LOW, MIDDLE, HIGH]
  {
    var three := [LOW, MIDDLE, HIGH];
    MapOfThree();
    SortedUnique(Inorder(t), three);
  }

  lemma MapOfThree()
    ensures AsMap([LOW, MIDDLE, HIGH]) == map[2 := MIDDLE, 1 := LOW, 3 := HIGH]
  {
    assert [LOW][..0] == [] && AsMap([LOW]) == map[1 := LOW];
    assert [LOW, MIDDLE][..1] == [LOW] && AsMap([LOW, MIDDLE]) == map[1 := LOW][2 := MIDDLE];
    assert [LOW, MIDDLE, HIGH][..2] == [LOW, MIDDLE];
  }

  lemma LowComesBefore(t: Tree, destroyed: seq<Entry>)
    requires AsMap(Inorder(t)) == map[2 := MIDDLE, 1 := LOW, 3 := HIGH]
    requires Full(Found(t, MIDDLE.key)) && Destroys(t, MIDDLE.key, destroyed)
    ensures destroyed == [LOW]
  {
    hide AsMap, Inorder, Found, Full;
    var m := AsMap(Inorder(t));
    assert 1 in m && 2 in m;
    assert destroyed[0].key.rank == 1;
  }

  /** Three insertions put the middle key at the top, whatever the type of the tree. */
  method PlantThree(kind: TreeType) returns (tree: Handle)
    ensures tree.Valid() && fresh(tree) && fresh(tree.cell) && fresh(tree.cell.mem.Keys)
    ensures tree.Map() == map[2 := MIDDLE, 1 := LOW, 3 := HIGH] && Full(Found(tree.cell.tree, MIDDLE.key))
  {
    hide Sorted, AsMap, Inorder, Found, Full, Sound, InShape, Handle.Valid;
    tree := new Handle(kind);
    var destroyed := tree.Insert(MIDDLE.key, MIDDLE.value);
    destroyed := tree.Insert(LOW.key, LOW.value);
    destroyed := tree.Insert(HIGH.key, HIGH.value);
    assert tree.Map() == map[2 := MIDDLE, 1 := LOW, 3 := HIGH];
    ghost var t := tree.cell.tree;
    ValidInShape(tree);
    ThreeListed(t);
    if tree.kind != Binary {
      MiddleOnTop(tree.kind, t);
    }
    MiddleIsFull(t);
  }

  /** In a tree of any type: keys of ranks 2, 1 and 3 go in and the one of rank 2 is removed. The destroy functions get
      the pair of rank 1, which a lookup still finds. */
  method DestroyTheWrongPair(kind: TreeType) returns (destroyed: seq<Entry>, found: Pointer)
    ensures destroyed == [LOW] && found == LOW.value
  {
    hide Sorted, AsMap, Inorder, Destroys, Found, Full, Sound, InShape, Handle.Valid;
    var tree := PlantThree(kind);
    ghost var t := tree.cell.tree;
    var removed;
    removed, destroyed := tree.Remove(MIDDLE.key);
    LowComesBefore(t, destroyed);
    ghost var comparisons;
    found, comparisons := tree.Lookup(LOW.key);
  }

  lemma EmptyTree(kind: TreeType, cell: Cell, key: Key)
    requires Sound(kind, cell) && cell.root == null
    ensures key.rank !in Contents(cell) && Contents(cell) == Contents(cell) - {key.rank}
    ensures Destroys(cell.tree, key, [])
  {
  }

  lemma LookupBound(t: Tree, kind: TreeType, h: nat)
    requires InShape(kind, t) && Sorted(Inorder(t)) && h <= Height(t)
    ensures var n := |AsMap(Inorder(t))|;
      && (kind == RB ==> Pow2(h) <= (n + 1) * (n + 1))
      && (kind == AVL ==> Fib(h + 2) <= n + 1)
  {
    hide Pow2, Fib, Sorted, AsMap, Inorder, Height, Size, R.RedBlack, A.Avl;
    SizeIsLength(Inorder(t));
    SizeIsEntries(t);
    if kind == RB {
      RedBlackHeight(t);
      Pow2Grows(h, Height(t));
    }
    if kind == AVL {
      AvlSize(t);
      FibGrows(h + 2, Height(t) + 2);
    }
  }

  // ----- whole runs -----

  datatype Op =
    | InsertOp(key: Key, value: Pointer)
    | RemoveOp(key: Key)
    | LookupOp(key: Key)
    | ForeachOp(stop: seq<Entry> -> bool)
    | CountOp
    | ClearOp

  /** What an operation answers and, where a map can tell, what it hands to the callback or the destroy functions. */
  datatype Answer =
    | Inserted(destroyed: seq<Entry>)
    | Removed(found: bool)
    | Seen(value: Pointer)
    | Told(calls: seq<Entry>)
    | Counted(n: int)
    | Cleared(destroyed: seq<Entry>)

  /** One operation on a finite map. */
  ghost function MapStep(m: map<int, Entry>, op: Op): (map<int, Entry>, Answer) {
    match op
    case InsertOp(k, v) => (m[k.rank := Entry(k, v)], Inserted(Outgoing(m, k)))
    case RemoveOp(k) => (m - {k.rank}, Removed(k.rank in m))
    case LookupOp(k) => (m, Seen(LookedUp(m, k)))
    case ForeachOp(stop) => (m, Told(Morris.UpTo(Listing(m), stop, 0)))
    case CountOp => (m, Counted(|m|))
    case ClearOp => (map[], Cleared(Listing(m)))
  }

  /** The answers of a finite map, started empty, to a sequence of operations, and where it ends. */
  ghost function MapRun(ops: seq<Op>): (map<int, Entry>, seq<Answer>) {
    if |ops| == 0 then (map[], [])
    else
      var (m, answers) := MapRun(ops[..|ops| - 1]);
      var (n, a) := MapStep(m, ops[|ops| - 1]);
      (n, answers + [a])
  }

  /** The operation removes a key whose node has two children. */
  predicate RemovesFull(t: Tree, op: Op) { op.RemoveOp? && Full(Found(t, op.key)) }

  /** The pair that an operation puts into the tree. */
  function PutBy(op: Op): multiset<Entry> {
    if op.InsertOp? then multiset{Entry(op.key, op.value)} else multiset{}
  }

  function AllPut(ops: seq<Op>): multiset<Entry> {
    if |ops| == 0 then multiset{} else AllPut(ops[..|ops| - 1]) + PutBy(ops[|ops| - 1])
  }

  /** How an operation changes what is held: pairs put in or held before are destroyed or held afterwards, unless a key
      was removed whose node has two children; then another pair, of smaller rank, was destroyed instead. */
  ghost predicate Settled(m: map<int, Entry>, op: Op, destroyed: seq<Entry>, n: map<int, Entry>, wrong: bool) {
    if !wrong then PutBy(op) + Pairs(m) == multiset(destroyed) + Pairs(n)
    else
      && PutBy(op) == multiset{} && op.RemoveOp? && op.key.rank in m && m[op.key.rank].key.rank == op.key.rank
      && Pairs(m) == Pairs(n) + multiset{m[op.key.rank]}
      && |destroyed| == 1 && destroyed[0].key.rank < op.key.rank
  }

  lemma InsertSettles(m: map<int, Entry>, k: Key, v: Pointer)
    requires WellKeyed(m)
    ensures Settled(m, InsertOp(k, v), Outgoing(m, k), m[k.rank := Entry(k, v)], false)
  {
    hide Pairs, WellKeyed;
    PairsWith(m, Entry(k, v));
    var n, e, out := m[k.rank := Entry(k, v)], multiset{Entry(k, v)}, multiset(Outgoing(m, k));
    assert out == if k.rank in m then multiset{m[k.rank]} else multiset{};
    assert PutBy(InsertOp(k, v)) == e && e + Pairs(m) == Pairs(m) + e == Pairs(n) + out == out + Pairs(n);
  }

  lemma RemoveSettles(t: Tree, k: Key, destroyed: seq<Entry>)
    requires Sorted(Inorder(t)) && Destroys(t, k, destroyed)
    ensures var m := AsMap(Inorder(t));
      Settled(m, RemoveOp(k), destroyed, m - {k.rank}, RemovesFull(t, RemoveOp(k)))
  {
    var m := AsMap(Inorder(t));
    AsMapRanks(Inorder(t));
    hide Sorted, AsMap, Inorder, Found, Pairs;
    if k.rank in m {
      PairsWithout(m, k.rank);
    } else {
      RemovedSize(m, k.rank);
      AbsentIsNotFull(t, k);
    }
  }

  lemma ClearSettles(s: seq<Entry>, t: Tree)
    requires Sorted(s)
    ensures Settled(AsMap(s), ClearOp, s, map[], RemovesFull(t, ClearOp))
  {
    PairsOfListing(s);
    assert Pairs(map[]) == multiset{};
  }

  lemma LookingSettles(m: map<int, Entry>, op: Op, t: Tree)
    requires op.LookupOp? || op.ForeachOp? || op.CountOp?
    ensures Settled(m, op, [], m, RemovesFull(t, op))
  {
  }

  lemma {:induction false} AbsentIsNotFull(t: Tree, k: Key)
    requires k.rank !in AsMap(Inorder(t))
    ensures Found(t, k).Leaf?
  {
    if t.Bin? {
      AsMapAround(Inorder(t.left), t.item.Pair(), Inorder(t.right));
      hide AsMap, Inorder;
      if k.rank < t.item.key.rank {
        AbsentIsNotFull(t.left, k);
      } else {
        AbsentIsNotFull(t.right, k);
      }
    }
  }

  lemma ValidInShape(tree: Handle)
    requires tree.Valid()
    ensures InShape(tree.kind, tree.cell.tree)
    ensures Sorted(Inorder(tree.cell.tree)) && AsMap(Inorder(tree.cell.tree)) == tree.Map()
  {
  }

  /** One operation on a tree, with what it hands to the destroy functions. */
  method Perform(tree: Handle, op: Op) returns (answer: Answer, destroyed: seq<Entry>)
    requires tree.Valid()
    modifies tree`nnodes, tree.cell, tree.cell.mem.Keys
    ensures tree.Valid() && fresh(tree.cell.mem.Keys - old(tree.cell.mem.Keys))
    ensures (tree.Map(), answer) == MapStep(old(tree.Map()), op)
    ensures Settled(old(tree.Map()), op, destroyed, tree.Map(), RemovesFull(old(tree.cell.tree), op))
  {
    hide Sorted, AsMap, Inorder, WellKeyed, Listing, Destroys, Found, Sound, InShape, Handle.Valid, Outgoing;
    hide Morris.ShortestStop, Morris.UpTo, Settled;
    ghost var inorder, t := Inorder(tree.cell.tree), tree.cell.tree;
    ValidInShape(tree);
    destroyed := [];
    match op {
      case InsertOp(k, v) =>
        PairsOfListing(inorder);
        InsertSettles(tree.Map(), k, v);
        destroyed := tree.Insert(k, v);
        answer := Inserted(destroyed);
      case RemoveOp(k) =>
        var removed;
        removed, destroyed := tree.Remove(k);
        RemoveSettles(t, k, destroyed);
        answer := Removed(removed);
      case LookupOp(k) =>
        LookingSettles(tree.Map(), op, t);
        var value;
        ghost var comparisons;
        value, comparisons := tree.Lookup(k);
        answer := Seen(value);
      case ForeachOp(stop) =>
        LookingSettles(tree.Map(), op, t);
        ListingIs(inorder);
        var calls := tree.Foreach(stop);
        Morris.ShortestIs(calls, inorder, stop, 0);
        answer := Told(calls);
      case CountOp =>
        LookingSettles(tree.Map(), op, t);
        answer := Counted(tree.Count());
      case ClearOp =>
        destroyed := tree.Clear();
        SortedUnique(destroyed, inorder);
        ListingIs(inorder);
        ClearSettles(inorder, t);
        answer := Cleared(destroyed);
    }
  }

  /** The operation leaves the entry of rank `r` alone. */
  predicate Spares(op: Op, r: int) {
    match op
    case InsertOp(k, _) => k.rank != r
    case RemoveOp(k) => k.rank != r
    case ClearOp => false
    case _ => true
  }

  /** A map and a later one agree on rank `r`. */
  predicate Agree(m: map<int, Entry>, n: map<int, Entry>, r: int) {
    (r in m <==> r in n) && (r in m ==> m[r] == n[r])
  }

  lemma {:induction false} SparedStays(ops: seq<Op>, i: nat, j: nat, r: int)
    requires i <= j <= |ops| && forall k :: i <= k < j ==> Spares(ops[k], r)
    ensures Agree(MapRun(ops[..i]).0, MapRun(ops[..j]).0, r)
  {
    if i < j {
      SparedStays(ops, i, j - 1, r);
      RunAt(ops, j - 1);
    }
  }

  /** The answer to operation `i` of a run, and where it leads. */
  lemma {:induction false} RunAt(ops: seq<Op>, i: nat)
    requires i < |ops|
    ensures |MapRun(ops).1| == |ops| && MapRun(ops).1[i] == MapStep(MapRun(ops[..i]).0, ops[i]).1
    ensures MapRun(ops[..i + 1]).0 == MapStep(MapRun(ops[..i]).0, ops[i]).0
  {
    hide MapStep;
    var n := |ops| - 1;
    assert ops[..i + 1][..i] == ops[..i] && ops[..n + 1] == ops;
    RunLength(ops);
    if i < n {
      RunAt(ops[..n], i);
      assert ops[..n][..i] == ops[..i] && ops[..n][..i + 1] == ops[..i + 1];
      RunLength(ops[..n]);
    } else {
      RunLength(ops[..n]);
    }
  }

  lemma {:induction false} RunLength(ops: seq<Op>)
    ensures |MapRun(ops).1| == |ops|
  {
    hide MapStep;
    if ops != [] {
      RunLength(ops[..|ops| - 1]);
    }
  }

  /** What a lookup answers in a run: the value that was last put in under a key of the same rank, whatever the key, and
      null if that was removed or cleared since or if nothing was put in. */
  lemma LookupAnswers(ops: seq<Op>, i: nat, j: nat)
    requires i <= j < |ops| && ops[j].LookupOp? && forall k :: i <= k < j ==> Spares(ops[k], ops[j].key.rank)
    ensures |MapRun(ops).1| == |ops|
    ensures i == 0 ==> MapRun(ops).1[j] == Seen(NULL)
    ensures 0 < i && !Spares(ops[i - 1], ops[j].key.rank) ==>
      MapRun(ops).1[j] == Seen(if ops[i - 1].InsertOp? then ops[i - 1].value else NULL)
  {
    RunAt(ops, j);
    SparedStays(ops, i, j, ops[j].key.rank);
    if i > 0 {
      RunAt(ops, i - 1);
      hide MapRun;
    }
  }

  lemma OneMoreOp(ops: seq<Op>, op: Op)
    ensures var (m, answers) := MapRun(ops);
      MapRun(ops + [op]) == (MapStep(m, op).0, answers + [MapStep(m, op).1])
    ensures AllPut(ops + [op]) == AllPut(ops) + PutBy(op)
  {
    hide MapStep, PutBy;
    assert (ops + [op])[..|ops|] == ops;
  }

  /** The trees that a run of operations passes through, and whether one of them lost the wrong pair. */
  ghost predicate Passed(kind: TreeType, ops: seq<Op>, trees: seq<Tree>, wrong: bool) {
    && |trees| == |ops|
    && (forall i :: 0 <= i < |ops| ==> InShape(kind, trees[i]) && AsMap(Inorder(trees[i])) == MapRun(ops[..i]).0)
    && (wrong <==> exists i :: 0 <= i < |ops| && RemovesFull(trees[i], ops[i]))
  }

  lemma OneMoreTree(kind: TreeType, ops: seq<Op>, trees: seq<Tree>, wrong: bool, op: Op, t: Tree)
    requires Passed(kind, ops, trees, wrong) && InShape(kind, t) && AsMap(Inorder(t)) == MapRun(ops).0
    ensures Passed(kind, ops + [op], trees + [t], wrong || RemovesFull(t, op))
  {
    hide InShape, AsMap, Inorder, MapRun, RemovesFull;
    var more, n := ops + [op], trees + [t];
    assert more[..|ops|] == ops && more[|ops|] == op && n[|ops|] == t;
    forall i | 0 <= i < |ops|
      ensures more[..i] == ops[..i] && more[i] == ops[i] && n[i] == trees[i]
    {
    }
  }

  /** The tree is where the operations `ops` leave it. */
  ghost predicate Reflects(tree: Handle, ops: seq<Op>, answers: seq<Answer>, destroyed: seq<Entry>, trees: seq<Tree>,
                           wrong: bool)
    reads tree, tree.cell, tree.cell.mem.Keys
  {
    && tree.Valid() && (tree.Map(), answers) == MapRun(ops)
    && Passed(tree.kind, ops, trees, wrong) && Kept(AllPut(ops), multiset(destroyed), Pairs(tree.Map()), wrong)
  }

  lemma NothingDone(tree: Handle)
    requires tree.Valid() && tree.Map() == map[]
    ensures Reflects(tree, [], [], [], [], false)
  {
    assert Pairs(map[]) == multiset{};
  }

  /** One more operation of a run. */
  method PerformNext(tree: Handle, ghost ops: seq<Op>, op: Op, ghost answers: seq<Answer>, ghost destroyed: seq<Entry>,
                     ghost trees: seq<Tree>, ghost wrong: bool)
    returns (answer: Answer, gone: seq<Entry>, ghost now: bool)
    requires Reflects(tree, ops, answers, destroyed, trees, wrong)
    modifies tree`nnodes, tree.cell, tree.cell.mem.Keys
    ensures fresh(tree.cell.mem.Keys - old(tree.cell.mem.Keys)) && now == RemovesFull(old(tree.cell.tree), op)
    ensures Reflects(tree, ops + [op], answers + [answer], destroyed + gone, trees + [old(tree.cell.tree)],
                     wrong || now)
  {
    hide MapRun, MapStep, Passed, Kept, AllPut, Pairs, Settled, RemovesFull, InShape, Sound;
    OneMoreOp(ops, op);
    ValidInShape(tree);
    ghost var m, t := tree.Map(), tree.cell.tree;
    now := RemovesFull(t, op);
    OneMoreTree(tree.kind, ops, trees, wrong, op, t);
    answer, gone := Perform(tree, op);
    Post(AllPut(ops), destroyed, m, wrong, op, gone, tree.Map(), now);
  }

  /** A tree of any type answers any sequence of operations as a finite map does. Every pair put in was destroyed once
      or is still held if and only if no operation removed a key whose node had two children; `trees` are the trees
      before the operations. */
  method Replay(kind: TreeType, ops: seq<Op>)
    returns (answers: seq<Answer>, destroyed: seq<Entry>, ghost trees: seq<Tree>)
    ensures answers == MapRun(ops).1
    ensures |trees| == |ops|
    ensures forall i :: 0 <= i < |ops| ==> InShape(kind, trees[i]) && AsMap(Inorder(trees[i])) == MapRun(ops[..i]).0
    ensures AllPut(ops) == multiset(destroyed) + Pairs(MapRun(ops).0) <==>
      forall i :: 0 <= i < |ops| ==> !RemovesFull(trees[i], ops[i])
  {
    hide InShape, MapRun, AllPut, Pairs, Kept, RemovesFull, Handle.Valid, Sound;
    var tree := new Handle(kind);
    NothingDone(tree);
    answers, destroyed, trees := [], [], [];
    ghost var wrong := false;
    for i := 0 to |ops|
      invariant fresh(tree) && fresh(tree.cell) && fresh(tree.cell.mem.Keys) && tree.kind == kind
      invariant Reflects(tree, ops[..i], answers, destroyed, trees, wrong)
    {
      assert ops[..i + 1] == ops[..i] + [ops[i]];
      hide Reflects;
      ghost var t := tree.cell.tree;
      var answer, gone;
      ghost var now;
      answer, gone, now := PerformNext(tree, ops[..i], ops[i], answers, destroyed, trees, wrong);
      answers, destroyed, trees, wrong := answers + [answer], destroyed + gone, trees + [t], wrong || now;
    }
    assert ops[..|ops|] == ops;
    KeptIff(AllPut(ops), multiset(destroyed), Pairs(tree.Map()), wrong);
  }

  lemma Post(put: multiset<Entry>, destroyed: seq<Entry>, m: map<int, Entry>, wrong: bool, op: Op, gone: seq<Entry>,
             n: map<int, Entry>, now: bool)
    requires Kept(put, multiset(destroyed), Pairs(m), wrong) && Settled(m, op, gone, n, now)
    ensures Kept(put + PutBy(op), multiset(destroyed + gone), Pairs(n), wrong || now)
  {
    hide Kept, Pairs;
    assert multiset(destroyed + gone) == multiset(destroyed) + multiset(gone);
    if now {
      assert multiset(gone) == multiset{gone[0]} by {
        assert gone == [gone[0]];
      }
      assert put + PutBy(op) == put;
      KeptWrongly(put, multiset(destroyed), Pairs(m), wrong, gone[0], m[op.key.rank], Pairs(n));
    } else {
      KeptOn(put, multiset(destroyed), Pairs(m), wrong, PutBy(op), multiset(gone), Pairs(n));
    }
  }
}
