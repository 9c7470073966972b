// The nodes of plibsys/src/ptree*.c, and the tree values and one-hole contexts that say what linked nodes mean.

/** Keys, nodes, tree values and one-hole contexts. */
module TreeShape {

  /** A key pointer. `rank` is all that the compare function sees of it: keys of equal rank compare equal
      without being the same object. Any total preorder on finitely many keys is given by such ranks. */
  datatype Key = Key(rank: int, obj: int)

  /** A value pointer; lookup answers NULL for an absent key. */
  type Pointer = int
  const NULL: Pointer := 0

  /** The compare function handed to the tree: its sign is the order of the ranks. */
  function Compare(a: Key, b: Key): int {
    if a.rank < b.rank then -1 else if a.rank > b.rank then 1 else 0
  }

  datatype Color = Red | Black

  /** `PTreeBaseNode` together with the fields that `PTreeRBNode` (parent, color) and `PTreeAVLNode`
      (parent, balance) put behind it. */
  class Node {
    var left: Node?
    var right: Node?
    var key: Key
    var value: Pointer
    var parent: Node?
    var color: Color
    var balance: int

    constructor (key: Key, value: Pointer, parent: Node?)
      ensures left == null && right == null && this.key == key && this.value == value
      ensures this.parent == parent && color == Red && balance == 0
    {
      this.left, this.right, this.key, this.value := null, null, key, value;
      this.parent, this.color, this.balance := parent, Red, 0;
    }
  }

  datatype Entry = Entry(key: Key, value: Pointer)

  /** One node's address and contents. */
  datatype Item = Item(at: Node, key: Key, value: Pointer, color: Color, balance: int) {
    function Pair(): Entry { Entry(key, value) }
  }

  datatype Tree = Leaf | Bin(left: Tree, item: Item, right: Tree)

  /** The path from a hole up to the root, with the subtrees hanging off it. */
  datatype Ctx =
    | Top
    | InLeft(item: Item, right: Tree, up: Ctx)
    | InRight(left: Tree, item: Item, up: Ctx)

  // ----- values -----

  function Inorder(t: Tree): seq<Entry> {
    match t
    case Leaf => []
    case Bin(l, i, r) => Inorder(l) + [i.Pair()] + Inorder(r)
  }

  function Size(t: Tree): nat {
    match t
    case Leaf => 0
    case Bin(l, _, r) => Size(l) + 1 + Size(r)
  }

  function Max(a: nat, b: nat): nat { if a < b then b else a }

  function Height(t: Tree): nat {
    match t
    case Leaf => 0
    case Bin(l, _, r) => 1 + Max(Height(l), Height(r))
  }

  function Plug(t: Tree, c: Ctx): Tree
    decreases c
  {
    match c
    case Top => t
    case InLeft(i, r, up) => Plug(Bin(t, i, r), up)
    case InRight(l, i, up) => Plug(Bin(l, i, t), up)
  }

  /** The subtree one level up from the hole. */
  function Wrap(t: Tree, c: Ctx): Tree
    requires !c.Top?
  {
    if c.InLeft? then Bin(t, c.item, c.right) else Bin(c.left, c.item, t)
  }

  /** The other subtree of the node above the hole. */
  function Sibling(c: Ctx): Tree
    requires !c.Top?
  {
    if c.InLeft? then c.right else c.left
  }

  /** The path to the sibling of the hole, when `t` is in the hole. */
  function Across(t: Tree, c: Ctx): Ctx
    requires !c.Top?
  {
    if c.InLeft? then InRight(t, c.item, c.up) else InLeft(c.item, t, c.up)
  }

  /** The entries that precede the hole. */
  function Before(c: Ctx): seq<Entry> {
    match c
    case Top => []
    case InLeft(_, _, up) => Before(up)
    case InRight(l, i, up) => Before(up) + Inorder(l) + [i.Pair()]
  }

  /** The entries that follow the hole. */
  function After(c: Ctx): seq<Entry> {
    match c
    case Top => []
    case InLeft(i, r, up) => [i.Pair()] + Inorder(r) + After(up)
    case InRight(_, _, up) => After(up)
  }

  lemma Regroup<T>(a: seq<T>, b: seq<T>, c: seq<T>, d: seq<T>, e: seq<T>)
    ensures a + (b + c + d) + e == a + b + (c + d + e)
    ensures a + (b + c + d) + e == (a + b + c) + d + e
    ensures a + (b + c + d) + e == (a + b) + c + (d + e)
    ensures a + b + (c + d + e) == (a + b + c) + d + e
  {
  }

  lemma RegroupMore<T>(a: seq<T>, b: seq<T>, c: seq<T>, d: seq<T>, e: seq<T>, f: seq<T>, g: seq<T>)
    ensures (a + b + c) + d + (e + f + g) == a + b + ((c + d + e) + f + g)
    ensures (a + b + c) + d + (e + f + g) == (a + b + (c + d + e)) + f + g
    ensures a + b + (c + (d + e + f) + g) == a + ((b + c + d) + e + f) + g
    ensures (a + (b + c + d) + e) + f + g == a + (b + c + (d + e + f)) + g
  {
  }

  lemma {:induction false} InorderPlug(t: Tree, c: Ctx)
    ensures Inorder(Plug(t, c)) == Before(c) + Inorder(t) + After(c)
    decreases c
  {
    match c
    case Top =>
    case InLeft(i, r, up) =>
      InorderPlug(Bin(t, i, r), up);
      Regroup(Before(up), Inorder(t), [i.Pair()], Inorder(r), After(up));
    case InRight(l, i, up) =>
      InorderPlug(Bin(l, i, t), up);
      Regroup(Before(up), Inorder(l), [i.Pair()], Inorder(t), After(up));
  }

  /** `Append(a, b)`: the hole of `a`, seen inside the hole of `b`. */
  function Append(a: Ctx, b: Ctx): Ctx {
    match a
    case Top => b
    case InLeft(i, r, up) => InLeft(i, r, Append(up, b))
    case InRight(l, i, up) => InRight(l, i, Append(up, b))
  }

  lemma {:induction false} PlugAppend(t: Tree, a: Ctx, b: Ctx)
    ensures Plug(t, Append(a, b)) == Plug(Plug(t, a), b)
    decreases a
  {
    match a
    case Top =>
    case InLeft(i, r, up) => PlugAppend(Bin(t, i, r), up, b);
    case InRight(l, i, up) => PlugAppend(Bin(l, i, t), up, b);
  }

  lemma NothingAdded<T>(a: seq<T>, b: seq<T>)
    ensures a + [] == a && [] + b == b
  {
  }

  lemma AddedOutside<T>(a: seq<T>, b: seq<T>, c: seq<T>, d: seq<T>, e: seq<T>)
    ensures (a + b) + c == a + (b + c) && c + (d + e) == (c + d) + e
  {
  }

  lemma {:induction false} AroundAppend(a: Ctx, b: Ctx)
    ensures Before(Append(a, b)) == Before(b) + Before(a)
    ensures After(Append(a, b)) == After(a) + After(b)
  {
    match a
    case Top => NothingAdded(Before(b), After(b));
    case InLeft(i, r, up) =>
      AroundAppend(up, b);
      AddedOutside(Before(b), Before(up), [i.Pair()] + Inorder(r), After(up), After(b));
    case InRight(l, i, up) =>
      AroundAppend(up, b);
      AddedOutside(Before(b), Before(up), Inorder(l) + [i.Pair()], After(up), After(b));
      assert Before(a) == Before(up) + (Inorder(l) + [i.Pair()]);
      assert Before(Append(a, b)) == Before(Append(up, b)) + (Inorder(l) + [i.Pair()]);
  }

  /** The contexts before and after a step surround the hole with the same entries. */
  predicate SameAround(c: Ctx, d: Ctx) {
    Before(c) == Before(d) && After(c) == After(d)
  }

  lemma SameAroundAppend(a: Ctx, c: Ctx, d: Ctx)
    requires SameAround(c, d)
    ensures SameAround(Append(a, c), Append(a, d))
  {
    AroundAppend(a, c);
    AroundAppend(a, d);
  }

  lemma {:induction false} AppendAssociative(a: Ctx, b: Ctx, c: Ctx)
    ensures Append(Append(a, b), c) == Append(a, Append(b, c))
  {
    if !a.Top? {
      AppendAssociative(a.up, b, c);
    }
  }

  /** The step of the path just above the hole. */
  function Step(c: Ctx): Ctx
    requires !c.Top?
  {
    if c.InLeft? then InLeft(c.item, c.right, Top) else InRight(c.left, c.item, Top)
  }

  // ----- node sets -----

  function Nodes(t: Tree): set<Node> {
    match t
    case Leaf => {}
    case Bin(l, i, r) => Nodes(l) + {i.at} + Nodes(r)
  }

  function CtxNodes(c: Ctx): set<Node> {
    match c
    case Top => {}
    case InLeft(i, r, up) => {i.at} + Nodes(r) + CtxNodes(up)
    case InRight(l, i, up) => Nodes(l) + {i.at} + CtxNodes(up)
  }

  /** No node occurs twice. */
  ghost predicate Distinct(t: Tree) {
    match t
    case Leaf => true
    case Bin(l, i, r) =>
      && Distinct(l) && Distinct(r)
      && i.at !in Nodes(l) && i.at !in Nodes(r) && Nodes(l) !! Nodes(r)
  }

  ghost predicate CtxDistinct(c: Ctx) {
    match c
    case Top => true
    case InLeft(i, s, up) =>
      && Distinct(s) && CtxDistinct(up)
      && i.at !in Nodes(s) && i.at !in CtxNodes(up) && Nodes(s) !! CtxNodes(up)
    case InRight(s, i, up) =>
      && Distinct(s) && CtxDistinct(up)
      && i.at !in Nodes(s) && i.at !in CtxNodes(up) && Nodes(s) !! CtxNodes(up)
  }

  lemma {:induction false} NodesPlug(t: Tree, c: Ctx)
    ensures Nodes(Plug(t, c)) == Nodes(t) + CtxNodes(c)
    ensures Distinct(Plug(t, c)) <==> Distinct(t) && CtxDistinct(c) && Nodes(t) !! CtxNodes(c)
    decreases c
  {
    match c
    case Top =>
    case InLeft(i, r, up) => NodesPlug(Bin(t, i, r), up);
    case InRight(l, i, up) => NodesPlug(Bin(l, i, t), up);
  }

  function Ref(t: Tree): Node? {
    if t.Leaf? then null else t.item.at
  }

  /** The node whose child the hole is; null at the root. */
  function Above(c: Ctx): Node? {
    if c.Top? then null else c.item.at
  }
}
