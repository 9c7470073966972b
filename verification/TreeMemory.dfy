// What the fields of a set of nodes must hold for them to form a given tree, and which writes turn one tree
// into another.

/** Memory contents as values, and their reading as trees. */
module TreeMemory {
  import opened TreeShape

  /** The fields of one node. */
  datatype Rec = Rec(
    left: Node?, right: Node?, key: Key, value: Pointer, parent: Node?, color: Color, balance: int)

  type Mem = map<Node, Rec>

  ghost predicate Holds(i: Item, p: Node?, m: Mem) {
    && i.at in m && m[i.at].key == i.key && m[i.at].value == i.value
    && m[i.at].parent == p && m[i.at].color == i.color && m[i.at].balance == i.balance
  }

  /** The nodes reached from `n` spell out `t` and hang below `p`, except that the end of the right spine
      points to `exit` (null in a tree at rest). */
  ghost predicate Wire(t: Tree, n: Node?, exit: Node?, p: Node?, m: Mem) {
    match t
    case Leaf => n == exit
    case Bin(l, i, r) =>
      && n == i.at && Holds(i, p, m)
      && Wire(l, m[i.at].left, null, i.at, m) && Wire(r, m[i.at].right, exit, i.at, m)
  }

  /** The nodes of `c` spell out `c` around a hole that holds `n`. */
  ghost predicate WireCtx(c: Ctx, n: Node?, root: Node?, m: Mem) {
    match c
    case Top => n == root
    case InLeft(i, s, up) =>
      && Holds(i, Above(up), m) && m[i.at].left == n
      && Wire(s, m[i.at].right, null, i.at, m) && WireCtx(up, i.at, root, m)
    case InRight(s, i, up) =>
      && Holds(i, Above(up), m) && m[i.at].right == n
      && Wire(s, m[i.at].left, null, i.at, m) && WireCtx(up, i.at, root, m)
  }

  /** `m` holds exactly the nodes of the tree `t` rooted at `root`. */
  ghost predicate Forms(t: Tree, root: Node?, m: Mem) {
    Wire(t, root, null, null, m) && Distinct(t) && m.Keys == Nodes(t)
  }

  lemma {:induction false} WirePlug(t: Tree, c: Ctx, root: Node?, m: Mem)
    ensures Wire(Plug(t, c), root, null, null, m)
            <==> Wire(t, Ref(t), null, Above(c), m) && WireCtx(c, Ref(t), root, m)
    decreases c
  {
    match c
    case Top =>
    case InLeft(i, r, up) => WirePlug(Bin(t, i, r), up, root, m);
    case InRight(l, i, up) => WirePlug(Bin(l, i, t), up, root, m);
  }

  ghost predicate Same(s: set<Node>, m: Mem, k: Mem) {
    forall x <- s :: x in m ==> x in k && k[x] == m[x]
  }

  lemma {:induction false} WireSame(t: Tree, n: Node?, exit: Node?, p: Node?, m: Mem, k: Mem)
    requires Wire(t, n, exit, p, m) && Same(Nodes(t), m, k)
    ensures Wire(t, n, exit, p, k)
  {
    if t.Bin? {
      WireSame(t.left, m[t.item.at].left, null, t.item.at, m, k);
      WireSame(t.right, m[t.item.at].right, exit, t.item.at, m, k);
    }
  }

  lemma {:induction false} WireCtxSame(c: Ctx, n: Node?, root: Node?, m: Mem, k: Mem)
    requires WireCtx(c, n, root, m) && Same(CtxNodes(c), m, k)
    ensures WireCtx(c, n, root, k)
  {
    match c
    case Top =>
    case InLeft(i, s, up) =>
      WireSame(s, m[i.at].right, null, i.at, m, k);
      WireCtxSame(up, i.at, root, m, k);
    case InRight(s, i, up) =>
      WireSame(s, m[i.at].left, null, i.at, m, k);
      WireCtxSame(up, i.at, root, m, k);
  }

  /** A subtree whose topmost node got a new parent (and possibly other extra fields). */
  lemma WireRehung(t: Tree, n: Node?, exit: Node?, p0: Node?, p: Node?, m: Mem, k: Mem)
    requires Wire(t, n, exit, p0, m) && Distinct(t)
    requires t.Bin? ==> t.item.at in k && k[t.item.at] == m[t.item.at].(parent := p)
    requires forall x <- Nodes(t) :: x in m && x != Ref(t) ==> x in k && k[x] == m[x]
    ensures Wire(t, n, exit, p, k)
  {
    if t.Bin? {
      WireSame(t.left, m[t.item.at].left, null, t.item.at, m, k);
      WireSame(t.right, m[t.item.at].right, exit, t.item.at, m, k);
    }
  }

  /** The link from `p`, or from the root cell if `p` is null, that held `a` now holds `b`. */
  ghost predicate Relinked(p: Node?, a: Node?, b: Node?, root0: Node?, root: Node?, m: Mem, k: Mem) {
    if p == null then root == b
    else
      && root == root0 && p in m && p in k
      && k[p] == if m[p].left == a then m[p].(left := b) else m[p].(right := b)
  }

  /** The hole of `c` now holds `n`. */
  ghost predicate HoleSet(c: Ctx, n: Node?, root0: Node?, root: Node?, m: Mem, k: Mem) {
    if c.Top? then root == n
    else
      var p := c.item.at;
      && root == root0 && p in m && p in k
      && k[p] == if c.InLeft? then m[p].(left := n) else m[p].(right := n)
  }

  lemma CtxReset(c: Ctx, n0: Node?, n: Node?, root0: Node?, root: Node?, m: Mem, k: Mem)
    requires WireCtx(c, n0, root0, m) && CtxDistinct(c) && HoleSet(c, n, root0, root, m, k)
    requires forall x <- CtxNodes(c) :: x in m && x != Above(c) ==> x in k && k[x] == m[x]
    ensures WireCtx(c, n, root, k)
  {
    match c
    case Top =>
    case InLeft(i, s, up) =>
      WireSame(s, m[i.at].right, null, i.at, m, k);
      WireCtxSame(up, i.at, root, m, k);
    case InRight(s, i, up) =>
      WireSame(s, m[i.at].left, null, i.at, m, k);
      WireCtxSame(up, i.at, root, m, k);
  }

  /** Looking for `n0` among the links of its parent finds the hole it sits in. */
  lemma RelinkedHole(c: Ctx, n0: Node, n: Node?, root0: Node?, root: Node?, m: Mem, k: Mem)
    requires WireCtx(c, n0, root0, m) && n0 !in CtxNodes(c)
    requires Relinked(Above(c), n0, n, root0, root, m, k)
    ensures HoleSet(c, n, root0, root, m, k)
  {
    if c.InRight? {
      assert Wire(c.left, m[c.item.at].left, null, c.item.at, m);
      assert m[c.item.at].left == Ref(c.left) != n0;
    }
  }

  /** The fields of a subtree's topmost node. */
  ghost predicate Near(t: Tree, p: Node?, m: Mem) {
    t.Bin? ==>
      && Holds(t.item, p, m)
      && m[t.item.at].left == Ref(t.left) && m[t.item.at].right == Ref(t.right)
  }

  lemma WireNear(t: Tree, n: Node?, p: Node?, m: Mem)
    requires Wire(t, n, null, p, m)
    ensures n == Ref(t) && Near(t, p, m)
  {
    if t.Bin? {
      assert Wire(t.left, m[n].left, null, n, m) && Wire(t.right, m[n].right, null, n, m);
    }
  }

  /** What the fields around a node say. */
  lemma Around(t: Tree, c: Ctx, root: Node?, m: Mem)
    requires Forms(Plug(t, c), root, m) && t.Bin?
    ensures Near(t, Above(c), m)
    ensures Near(t.left, t.item.at, m)
    ensures Near(t.right, t.item.at, m)
    ensures !c.Top? ==> Holds(c.item, Above(c.up), m)
    ensures c.InLeft? ==> m[c.item.at].left == t.item.at && m[c.item.at].right == Ref(c.right)
    ensures c.InRight? ==> m[c.item.at].right == t.item.at && m[c.item.at].left == Ref(c.left) != t.item.at
    ensures !c.Top? ==> Near(Sibling(c), c.item.at, m)
    ensures c.Top? <==> root == t.item.at
  {
    NodesPlug(t, c);
    WirePlug(t, c, root, m);
    assert Near(t.left, t.item.at, m) by { WireNear(t.left, m[t.item.at].left, t.item.at, m); }
    assert Near(t.right, t.item.at, m) by { WireNear(t.right, m[t.item.at].right, t.item.at, m); }
    match c
    case Top =>
    case InLeft(i, s, up) =>
      WireNear(s, m[i.at].right, i.at, m);
      WireCtxRoot(c, t.item.at, root, m);
    case InRight(s, i, up) =>
      WireNear(s, m[i.at].left, i.at, m);
      WireCtxRoot(c, t.item.at, root, m);
  }

  lemma {:induction false} WireCtxRoot(c: Ctx, n: Node?, root: Node?, m: Mem)
    requires WireCtx(c, n, root, m) && !c.Top?
    ensures root in CtxNodes(c)
  {
    if !c.up.Top? {
      WireCtxRoot(c.up, c.item.at, root, m);
    }
  }

  /** The nodes that a rotation at `t` writes to are there and apart from each other. */
  lemma TurnReady(t: Tree, c: Ctx, root: Node?, m: Mem)
    requires Forms(Plug(t, c), root, m) && t.Bin?
    ensures t.item.at in m
    ensures var n := t.item.at; var p := m[n].parent;
      && m[n].left == Ref(t.left) && m[n].right == Ref(t.right) && p == Above(c)
      && (p != null ==> p in m && p !in {n, m[n].left, m[n].right})
      && (t.left.Bin? ==>
            var l, b := t.left.item.at, Ref(t.left.right);
            l in m && l != n && m[l].parent == n && m[l].right == b && (b != null ==> b in m && b !in {n, l} && b != p))
      && (t.right.Bin? ==>
            var r, b := t.right.item.at, Ref(t.right.left);
            r in m && r != n && m[r].parent == n && m[r].left == b && (b != null ==> b in m && b !in {n, r} && b != p))
  {
    Around(t, c, root, m);
    NodesPlug(t, c);
    if t.left.Bin? {
      assert t.left.item.at in Nodes(t.left);
      assert t.left.right.Bin? ==> t.left.right.item.at in Nodes(t.left.right);
    }
    if t.right.Bin? {
      assert t.right.item.at in Nodes(t.right);
      assert t.right.left.Bin? ==> t.right.left.item.at in Nodes(t.right.left);
    }
  }

  function RotatedLeft(t: Tree): Tree
    requires t.Bin? && t.right.Bin?
  {
    Bin(Bin(t.left, t.item, t.right.left), t.right.item, t.right.right)
  }

  function RotatedRight(t: Tree): Tree
    requires t.Bin? && t.left.Bin?
  {
    Bin(t.left.left, t.left.item, Bin(t.left.right, t.item, t.right))
  }

  /** The writes of a left rotation at `n`. */
  ghost predicate LeftTurn(n: Node, root0: Node?, root: Node?, m: Mem, k: Mem) {
    && n in m && m[n].right != null && m[n].right in m && k.Keys == m.Keys
    && var tmp, p := m[n].right, m[n].parent;
    && var b := m[tmp].left;
    && k[n] == m[n].(right := b, parent := tmp)
    && k[tmp] == m[tmp].(left := n, parent := p)
    && (b != null ==> b in m && k[b] == m[b].(parent := n))
    && Relinked(p, n, tmp, root0, root, m, k)
    && forall x <- m :: x != n && x != tmp && x != b && x != p ==> k[x] == m[x]
  }

  /** The writes of a right rotation at `n`. */
  ghost predicate RightTurn(n: Node, root0: Node?, root: Node?, m: Mem, k: Mem) {
    && n in m && m[n].left != null && m[n].left in m && k.Keys == m.Keys
    && var tmp, p := m[n].left, m[n].parent;
    && var b := m[tmp].right;
    && k[n] == m[n].(left := b, parent := tmp)
    && k[tmp] == m[tmp].(right := n, parent := p)
    && (b != null ==> b in m && k[b] == m[b].(parent := n))
    && Relinked(p, n, tmp, root0, root, m, k)
    && forall x <- m :: x != n && x != tmp && x != b && x != p ==> k[x] == m[x]
  }

  /** A left rotation writes to no node outside the four it relinks. */
  lemma LeftTurnKeeps(t: Tree, c: Ctx, root0: Node?, root: Node?, m: Mem, k: Mem)
    requires Forms(Plug(t, c), root0, m) && t.Bin? && t.right.Bin?
    requires LeftTurn(t.item.at, root0, root, m, k)
    ensures Same(Nodes(t.left), m, k) && Same(Nodes(t.right.right), m, k)
    ensures forall x <- Nodes(t.right.left) :: x in m && x != Ref(t.right.left) ==> x in k && k[x] == m[x]
    ensures forall x <- CtxNodes(c) :: x in m && x != Above(c) ==> x in k && k[x] == m[x]
    ensures t.right.item.at in m && m[t.right.item.at].left == Ref(t.right.left)
  {
    Around(t, c, root0, m);
    NodesPlug(t, c);
    var tmp, b := t.right.item.at, Ref(t.right.left);
    assert tmp in Nodes(t.right) && (b != null ==> b in Nodes(t.right.left));
    assert m[tmp].left == b && (!c.Top? ==> Above(c) in CtxNodes(c));
  }

  lemma LeftTurnRotates(t: Tree, c: Ctx, root0: Node?, root: Node?, m: Mem, k: Mem)
    requires Forms(Plug(t, c), root0, m) && t.Bin? && t.right.Bin?
    requires LeftTurn(t.item.at, root0, root, m, k)
    ensures Forms(Plug(RotatedLeft(t), c), root, k)
  {
    var n, tmp, b := t.item.at, t.right.item.at, t.right.left;
    LeftTurnKeeps(t, c, root0, root, m, k);
    NodesPlug(t, c);
    WirePlug(t, c, root0, m);
    RelinkedHole(c, n, tmp, root0, root, m, k);
    CtxReset(c, n, tmp, root0, root, m, k);
    assert Wire(t.right, tmp, null, n, m);
    WireSame(t.left, m[n].left, null, n, m, k);
    WireRehung(b, m[tmp].left, null, tmp, n, m, k);
    WireSame(t.right.right, m[tmp].right, null, tmp, m, k);
    assert Wire(RotatedLeft(t).left, n, null, tmp, k);
    assert Wire(RotatedLeft(t), tmp, null, Above(c), k);
    WirePlug(RotatedLeft(t), c, root, k);
    RotatedPlug(t, c);
  }

  /** A right rotation writes to no node outside the four it relinks. */
  lemma RightTurnKeeps(t: Tree, c: Ctx, root0: Node?, root: Node?, m: Mem, k: Mem)
    requires Forms(Plug(t, c), root0, m) && t.Bin? && t.left.Bin?
    requires RightTurn(t.item.at, root0, root, m, k)
    ensures Same(Nodes(t.right), m, k) && Same(Nodes(t.left.left), m, k)
    ensures forall x <- Nodes(t.left.right) :: x in m && x != Ref(t.left.right) ==> x in k && k[x] == m[x]
    ensures forall x <- CtxNodes(c) :: x in m && x != Above(c) ==> x in k && k[x] == m[x]
    ensures t.left.item.at in m && m[t.left.item.at].right == Ref(t.left.right)
  {
    Around(t, c, root0, m);
    NodesPlug(t, c);
    var tmp, b := t.left.item.at, Ref(t.left.right);
    assert tmp in Nodes(t.left) && (b != null ==> b in Nodes(t.left.right));
    assert m[tmp].right == b && (!c.Top? ==> Above(c) in CtxNodes(c));
  }

  lemma RightTurnRotates(t: Tree, c: Ctx, root0: Node?, root: Node?, m: Mem, k: Mem)
    requires Forms(Plug(t, c), root0, m) && t.Bin? && t.left.Bin?
    requires RightTurn(t.item.at, root0, root, m, k)
    ensures Forms(Plug(RotatedRight(t), c), root, k)
  {
    var n, tmp, b := t.item.at, t.left.item.at, t.left.right;
    RightTurnKeeps(t, c, root0, root, m, k);
    NodesPlug(t, c);
    WirePlug(t, c, root0, m);
    RelinkedHole(c, n, tmp, root0, root, m, k);
    CtxReset(c, n, tmp, root0, root, m, k);
    assert Wire(t.left, tmp, null, n, m);
    WireSame(t.right, m[n].right, null, n, m, k);
    WireRehung(b, m[tmp].right, null, tmp, n, m, k);
    WireSame(t.left.left, m[tmp].left, null, tmp, m, k);
    assert Wire(RotatedRight(t).right, n, null, tmp, k);
    assert Wire(RotatedRight(t), tmp, null, Above(c), k);
    WirePlug(RotatedRight(t), c, root, k);
    RotatedPlug(t, c);
  }

  lemma RotatedEntries(t: Tree, c: Ctx)
    requires t.Bin?
    ensures t.right.Bin? ==> Inorder(Plug(RotatedLeft(t), c)) == Inorder(Plug(t, c))
    ensures t.left.Bin? ==> Inorder(Plug(RotatedRight(t), c)) == Inorder(Plug(t, c))
  {
    InorderPlug(t, c);
    if t.right.Bin? {
      InorderPlug(RotatedLeft(t), c);
      Regroup(Inorder(t.left), [t.item.Pair()], Inorder(t.right.left), [t.right.item.Pair()], Inorder(t.right.right));
    }
    if t.left.Bin? {
      InorderPlug(RotatedRight(t), c);
      Regroup(Inorder(t.left.left), [t.left.item.Pair()], Inorder(t.left.right), [t.item.Pair()], Inorder(t.right));
    }
  }

  /** Rotations keep the node set, and the entries in order. */
  lemma RotatedPlug(t: Tree, c: Ctx)
    requires t.Bin? && Distinct(Plug(t, c))
    ensures t.right.Bin? ==> var w := Plug(RotatedLeft(t), c); Nodes(w) == Nodes(Plug(t, c)) && Distinct(w)
    ensures t.left.Bin? ==> var w := Plug(RotatedRight(t), c); Nodes(w) == Nodes(Plug(t, c)) && Distinct(w)
  {
    NodesPlug(t, c);
    if t.right.Bin? {
      assert Nodes(t.right) == Nodes(t.right.left) + {t.right.item.at} + Nodes(t.right.right);
      assert Distinct(t.right) && Distinct(RotatedLeft(t).left);
      NodesPlug(RotatedLeft(t), c);
    }
    if t.left.Bin? {
      assert Nodes(t.left) == Nodes(t.left.left) + {t.left.item.at} + Nodes(t.left.right);
      assert Distinct(t.left) && Distinct(RotatedRight(t).right);
      NodesPlug(RotatedRight(t), c);
    }
  }

  /** New contents for the node of an item: its key, value, colour or balance factor. */
  function Rewritten(r: Rec, i: Item): Rec {
    r.(key := i.key, value := i.value, color := i.color, balance := i.balance)
  }

  /** Writing the contents of one node. */
  lemma ItemWritten(t: Tree, i: Item, c: Ctx, root: Node?, m: Mem)
    requires Forms(Plug(t, c), root, m) && t.Bin? && t.item.at == i.at
    ensures i.at in m
    ensures Forms(Plug(t.(item := i), c), root, m[i.at := Rewritten(m[i.at], i)])
  {
    Around(t, c, root, m);
    var n, u := i.at, t.(item := i);
    var k := m[n := Rewritten(m[n], i)];
    NodesPlug(t, c);
    NodesPlug(u, c);
    WirePlug(t, c, root, m);
    WireSame(t.left, m[n].left, null, n, m, k);
    WireSame(t.right, m[n].right, null, n, m, k);
    WireCtxSame(c, n, root, m, k);
    assert Wire(u, n, null, Above(c), k);
    WirePlug(u, c, root, k);
  }

  lemma ItemEntries(t: Tree, i: Item, c: Ctx)
    requires t.Bin? && i.Pair() == t.item.Pair()
    ensures Inorder(Plug(t.(item := i), c)) == Inorder(Plug(t, c))
  {
    InorderPlug(t, c);
    InorderPlug(t.(item := i), c);
  }

  /** Replacing the subtree in a hole. */
  lemma Grafted(t: Tree, u: Tree, c: Ctx, root0: Node?, root: Node?, m: Mem, k: Mem)
    requires Forms(Plug(t, c), root0, m)
    requires Wire(u, Ref(u), null, Above(c), k) && Distinct(u) && Nodes(u) !! CtxNodes(c)
    requires HoleSet(c, Ref(u), root0, root, m, k)
    requires forall x <- CtxNodes(c) :: x in m && x != Above(c) ==> x in k && k[x] == m[x]
    requires k.Keys == Nodes(u) + CtxNodes(c)
    ensures Forms(Plug(u, c), root, k)
  {
    NodesPlug(t, c);
    NodesPlug(u, c);
    WirePlug(t, c, root0, m);
    CtxReset(c, Ref(t), Ref(u), root0, root, m, k);
    WirePlug(u, c, root, k);
  }

  /** What a `PTreeBaseNode **` cursor may point to: the root cell or a child field. */
  datatype Slot = RootSlot | LeftOf(n: Node) | RightOf(n: Node)

  /** The slot that holds the hole of `c`. */
  function SlotOf(c: Ctx): Slot {
    match c
    case Top => RootSlot
    case InLeft(i, _, _) => LeftOf(i.at)
    case InRight(_, i, _) => RightOf(i.at)
  }

  /** What a write of `n` through a cursor does to the nodes. */
  function Stored(m: Mem, s: Slot, n: Node?): Mem
    requires !s.RootSlot? ==> s.n in m
  {
    match s
    case RootSlot => m
    case LeftOf(p) => m[p := m[p].(left := n)]
    case RightOf(p) => m[p := m[p].(right := n)]
  }

  lemma SlotOfCtx(t: Tree, c: Ctx, root: Node?, m: Mem)
    requires Forms(Plug(t, c), root, m)
    ensures var s := SlotOf(c);
      if s.RootSlot? then root == Ref(t)
      else s.n in m && Ref(t) == if s.LeftOf? then m[s.n].left else m[s.n].right
  {
    WirePlug(t, c, root, m);
  }

  lemma LeafAttached(c: Ctx, i: Item, s: Slot, root0: Node?, root: Node?, m: Mem)
    requires Forms(Plug(Leaf, c), root0, m) && s == SlotOf(c) && i.at !in m
    requires root == if s.RootSlot? then i.at else root0
    ensures !s.RootSlot? ==> s.n in m
    ensures Forms(Plug(Bin(Leaf, i, Leaf), c), root,
                  Stored(m, s, i.at)[i.at := Rec(null, null, i.key, i.value, Above(c), i.color, i.balance)])
  {
    SlotOfCtx(Leaf, c, root0, m);
    NodesPlug(Leaf, c);
    var u := Bin(Leaf, i, Leaf);
    var k := Stored(m, s, i.at)[i.at := Rec(null, null, i.key, i.value, Above(c), i.color, i.balance)];
    assert Wire(u, i.at, null, Above(c), k);
    Grafted(Leaf, u, c, root0, root, m, k);
  }

  /** The links after a node `i.at` with at most the child tree `u` has been bridged and dropped. */
  ghost predicate Bridged(i: Item, u: Tree, c: Ctx, root0: Node?, root: Node?, m: Mem, k: Mem) {
    && k.Keys == m.Keys - {i.at}
    && HoleSet(c, Ref(u), root0, root, m, k)
    && (u.Bin? ==> u.item.at in k && u.item.at in m && k[u.item.at] == m[u.item.at].(parent := Above(c)))
    && forall x <- k :: x in m && (x != Ref(u) && x != Above(c) ==> k[x] == m[x])
  }

  lemma NodeBridged(l: Tree, i: Item, r: Tree, c: Ctx, root0: Node?, root: Node?, m: Mem, k: Mem)
    requires Forms(Plug(Bin(l, i, r), c), root0, m) && (l.Leaf? || r.Leaf?)
    requires var u := if l.Leaf? then r else l; Bridged(i, u, c, root0, root, m, k)
    ensures Forms(Plug(if l.Leaf? then r else l, c), root, k)
  {
    var t, u := Bin(l, i, r), if l.Leaf? then r else l;
    NodesPlug(t, c);
    WirePlug(t, c, root0, m);
    assert u.Bin? ==> u.item.at in Nodes(u);
    assert !c.Top? ==> c.item.at in CtxNodes(c);
    assert Wire(u, Ref(u), null, i.at, m);
    WireRehung(u, Ref(u), null, i.at, Above(c), m, k);
    Grafted(t, u, c, root0, root, m, k);
  }

  /** The child that takes the place of a node with at most one. */
  function OnlyChild(x: Tree): Tree
    requires x.Bin?
  {
    if x.left.Leaf? then x.right else x.left
  }

  /** The writes that bypass `n` by way of its parent pointer. */
  ghost predicate Bypassed(n: Node, child: Node?, root0: Node?, root: Node?, m: Mem, k: Mem) {
    && n in m && k.Keys == m.Keys - {n}
    && var p := m[n].parent;
    && Relinked(p, n, child, root0, root, m, k)
    && (child != null ==> child in m && child in k && k[child] == m[child].(parent := p))
    && forall x <- k :: x != child && x != p ==> k[x] == m[x]
  }

  lemma NodeBypassed(x: Tree, c: Ctx, root0: Node?, root: Node?, m: Mem, k: Mem)
    requires Forms(Plug(x, c), root0, m) && x.Bin? && (x.left.Leaf? || x.right.Leaf?)
    requires Bypassed(x.item.at, Ref(OnlyChild(x)), root0, root, m, k)
    ensures Forms(Plug(OnlyChild(x), c), root, k)
  {
    Around(x, c, root0, m);
    NodesPlug(x, c);
    WirePlug(x, c, root0, m);
    RelinkedHole(c, x.item.at, Ref(OnlyChild(x)), root0, root, m, k);
    NodeBridged(x.left, x.item, x.right, c, root0, root, m, k);
  }
}
