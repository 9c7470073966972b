// The stackless traversal of plibsys/src/ptree.c: `p_tree_foreach` strings temporary threads through the tree.

/** Trees in the middle of a Morris traversal. */
module Morris {
  import opened TreeShape
  import opened TreeMemory
  import opened TreeCell

  /** Where the right end of a subtree in the hole of `c` points: to the nearest node that has the hole on
      its left. */
  function Exit(c: Ctx): Node? {
    match c
    case Top => null
    case InLeft(i, _, _) => i.at
    case InRight(_, _, up) => Exit(up)
  }

  /** One thread per node with the hole on its left. */
  function Threads(c: Ctx): nat {
    match c
    case Top => 0
    case InLeft(_, _, up) => 1 + Threads(up)
    case InRight(_, _, up) => Threads(up)
  }

  /** The nodes of `c` as they are while the traversal is at its hole, which holds `n`. */
  ghost predicate Threaded(c: Ctx, n: Node?, root: Node?, m: Mem) {
    match c
    case Top => n == root
    case InLeft(i, s, up) =>
      && Holds(i, Above(up), m) && m[i.at].left == n
      && Wire(s, m[i.at].right, Exit(up), i.at, m) && Threaded(up, i.at, root, m)
    case InRight(s, i, up) =>
      && Holds(i, Above(up), m) && m[i.at].right == n
      && Wire(s, m[i.at].left, null, i.at, m) && Threaded(up, i.at, root, m)
  }

  lemma {:induction false} ThreadedSame(c: Ctx, n: Node?, root: Node?, m: Mem, k: Mem)
    requires Threaded(c, n, root, m) && Same(CtxNodes(c), m, k)
    ensures Threaded(c, n, root, k)
  {
    match c
    case Top =>
    case InLeft(i, s, up) =>
      WireSame(s, m[i.at].right, Exit(up), i.at, m, k);
      ThreadedSame(up, i.at, root, m, k);
    case InRight(s, i, up) =>
      WireSame(s, m[i.at].left, null, i.at, m, k);
      ThreadedSame(up, i.at, root, m, k);
  }

  /** Without threads the tree is as it was. */
  lemma {:induction false} NoThreads(t: Tree, n: Node?, c: Ctx, root: Node?, m: Mem)
    requires Exit(c) == null && Threaded(c, n, root, m) && Wire(t, n, null, Above(c), m)
    ensures Wire(Plug(t, c), root, null, null, m)
    decreases c
  {
    if c.InRight? {
      NoThreads(Bin(c.left, c.item, t), c.item.at, c.up, root, m);
    }
  }

  lemma {:induction false} ThreadsAndExit(c: Ctx)
    ensures Threads(c) == 0 <==> Exit(c) == null
    ensures Threads(c) <= |After(c)|
    ensures Exit(c) == null ==> After(c) == []
  {
    if !c.Top? {
      ThreadsAndExit(c.up);
    }
  }

  /** From the right end of a finished left subtree `l` to the node above it: `d` has the hole on its left. */
  lemma {:induction false} Climb(t: Tree, n: Node?, c: Ctx, root: Node?, m: Mem) returns (l: Tree, d: Ctx)
    requires Exit(c) != null && Threaded(c, n, root, m) && Wire(t, n, Exit(c), Above(c), m)
    ensures d.InLeft? && d.item.at == Exit(c) && d.item.at in m && Plug(l, d) == Plug(t, c)
    ensures t.Bin? || c.InRight? ==> l.Bin?
    ensures Threaded(d, m[d.item.at].left, root, m) && Wire(l, m[d.item.at].left, d.item.at, d.item.at, m)
    ensures Before(d) + Inorder(l) == Before(c) + Inorder(t)
    ensures After(d) == After(c) && Threads(d) == Threads(c)
    decreases c
  {
    if c.InLeft? {
      return t, c;
    }
    l, d := Climb(Bin(c.left, c.item, t), c.item.at, c.up, root, m);
    assert Before(c.up) + (Inorder(c.left) + [c.item.Pair()] + Inorder(t)) == Before(c) + Inorder(t);
  }

  /** The right end of a subtree. */
  function Last(t: Tree): Node
    requires t.Bin?
  {
    if t.right.Leaf? then t.item.at else Last(t.right)
  }

  lemma {:induction false} LastInside(t: Tree)
    requires t.Bin?
    ensures Last(t) in Nodes(t)
  {
    if t.right.Bin? {
      LastInside(t.right);
    }
  }

  /** Redirecting the right end of a subtree. */
  lemma {:induction false} ExitMoved(t: Tree, n: Node?, e: Node?, f: Node?, p: Node?, m: Mem)
    requires t.Bin? && Wire(t, n, e, p, m) && Distinct(t)
    ensures Last(t) in m && m[Last(t)].right == e
    ensures Wire(t, n, f, p, m[Last(t) := m[Last(t)].(right := f)])
  {
    var x := t.item.at;
    if t.right.Leaf? {
      var k := m[x := m[x].(right := f)];
      WireSame(t.left, m[x].left, null, x, m, k);
    } else {
      ExitMoved(t.right, m[x].right, e, f, x, m);
      LastInside(t.right);
      var y := Last(t.right);
      var k := m[y := m[y].(right := f)];
      WireSame(t.left, m[x].left, null, x, m, k);
    }
  }

  /** A tree determines the fields of its nodes. */
  lemma {:induction false} WireDetermines(t: Tree, n: Node?, e: Node?, p: Node?, m: Mem, k: Mem)
    requires Wire(t, n, e, p, m) && Wire(t, n, e, p, k)
    ensures forall x <- Nodes(t) :: x in m && x in k && m[x] == k[x]
  {
    if t.Bin? {
      var x := t.item.at;
      assert m[x].left == Ref(t.left) == k[x].left;
      assert m[x].right == (if t.right.Leaf? then e else t.right.item.at) == k[x].right;
      WireDetermines(t.left, m[x].left, null, x, m, k);
      WireDetermines(t.right, m[x].right, e, x, m, k);
    }
  }

  /** The traversal is at `n`, the top of the untouched subtree `t` with surroundings `c` (or, if `t` is
      empty, at the node that the thread leads back to). */
  ghost predicate At(t: Tree, n: Node?, c: Ctx, root: Node?, m: Mem) {
    Wire(t, n, Exit(c), Above(c), m) && Threaded(c, n, root, m)
  }

  lemma GoRight(t: Tree, c: Ctx, root: Node?, m: Mem)
    requires t.Bin? && At(t, t.item.at, c, root, m)
    ensures t.item.at in m && At(t.right, m[t.item.at].right, InRight(t.left, t.item, c), root, m)
  {
  }

  /** Threading the predecessor and descending to the left. */
  lemma GoLeft(t: Tree, c: Ctx, root: Node?, m: Mem)
    requires t.Bin? && t.left.Bin? && At(t, t.item.at, c, root, m) && Distinct(Plug(t, c))
    ensures var x, y := t.item.at, Last(t.left);
      && x in m && y in m && m[y].right == null
      && At(t.left, m[x].left, InLeft(t.item, t.right, c), root, m[y := m[y].(right := x)])
  {
    var x, y := t.item.at, Last(t.left);
    NodesPlug(t, c);
    LastInside(t.left);
    ExitMoved(t.left, m[x].left, null, x, x, m);
    var k := m[y := m[y].(right := x)];
    WireSame(t.right, m[x].right, Exit(c), x, m, k);
    ThreadedSame(c, x, root, m, k);
  }

  /** Removing the thread and turning to the right. */
  lemma ComeBack(l: Tree, d: Ctx, root: Node?, m: Mem)
    requires d.InLeft? && l.Bin? && d.item.at in m && Distinct(Plug(l, d))
    requires Threaded(d, m[d.item.at].left, root, m)
    requires Wire(l, m[d.item.at].left, d.item.at, d.item.at, m)
    ensures var x, y := d.item.at, Last(l);
      && y in m && m[y].right == x && y != x
      && At(d.right, m[x].right, InRight(l, d.item, d.up), root, m[y := m[y].(right := null)])
  {
    var x, y := d.item.at, Last(l);
    NodesPlug(l, d);
    LastInside(l);
    ExitMoved(l, m[x].left, x, null, x, m);
    var k := m[y := m[y].(right := null)];
    WireSame(d.right, m[x].right, Exit(d.up), x, m, k);
    ThreadedSame(d.up, x, root, m, k);
  }

  /** The search for the predecessor: it ends at the right end of `l`, be it threaded or not. */
  method FindLast(start: Node, cur: Node, cell: Cell, ghost l: Tree, ghost e: Node?) returns (prev: Node)
    requires cell.BaseMirrored() && l.Bin? && Wire(l, start, e, cur, cell.mem)
    requires (e == null || e == cur) && cur !in Nodes(l)
    ensures prev == Last(l) && prev in cell.mem
  {
    prev := start;
    ghost var w, p := l, cur;
    while prev.right != null && prev.right != cur
      invariant w.Bin? && Wire(w, prev, e, p, cell.mem) && Last(w) == Last(l) && cur !in Nodes(w)
      decreases w
    {
      p := prev;
      prev := prev.right;
      w := w.right;
    }
    assert w.right.Bin? ==> w.right.item.at in Nodes(w);
  }

  method SetRight(n: Node, v: Node?, cell: Cell)
    requires cell.BaseMirrored() && n in cell.mem
    modifies cell`mem, n`right
    ensures cell.BaseMirrored() && (old(cell.ExtraMirrored()) ==> cell.ExtraMirrored())
    ensures cell.mem == old(cell.mem)[n := old(cell.mem)[n].(right := v)]
  {
    n.right := v;
    cell.mem := cell.mem[n := cell.mem[n].(right := v)];
  }

  /** `calls` is the shortest prefix of `all` on whose last entry the callback asks to stop, or all of it. The
      callback may decide by everything it has been called with. */
  ghost predicate ShortestStop(calls: seq<Entry>, all: seq<Entry>, stop: seq<Entry> -> bool) {
    && calls <= all
    && (forall k | 0 < k < |calls| :: !stop(calls[..k]))
    && (calls == all || (calls != [] && stop(calls)))
  }

  /** The shortest prefix of `all`, of at least `k` entries, on whose last one the callback asks to stop, or all of
      it. */
  function UpTo(all: seq<Entry>, stop: seq<Entry> -> bool, k: nat): seq<Entry>
    requires k <= |all|
    decreases |all| - k
  {
    if k == |all| || (k > 0 && stop(all[..k])) then all[..k] else UpTo(all, stop, k + 1)
  }

  lemma {:induction false} ShortestIs(calls: seq<Entry>, all: seq<Entry>, stop: seq<Entry> -> bool, k: nat)
    requires ShortestStop(calls, all, stop) && k <= |calls|
    ensures |calls| <= |all| && UpTo(all, stop, k) == calls
    decreases |calls| - k
  {
    assert all[..k] == calls[..k] && all[..|calls|] == calls && calls[..|calls|] == calls;
    if k < |calls| {
      ShortestIs(calls, all, stop, k + 1);
    }
  }

  /** What the callback has been told so far, with the entries of `done` passed. */
  ghost predicate Told(calls: seq<Entry>, needStop: bool, done: seq<Entry>, stop: seq<Entry> -> bool) {
    && calls <= done
    && (forall k | 0 < k < |calls| :: !stop(calls[..k]))
    && (if needStop then calls != [] && stop(calls) else calls == done && (calls != [] ==> !stop(calls)))
  }

  /** The callback is called, unless it has asked to stop, and may ask to stop. */
  method Tell(node: Node, calls: seq<Entry>, needStop: bool, stop: seq<Entry> -> bool, ghost done: seq<Entry>)
    returns (calls': seq<Entry>, needStop': bool)
    requires Told(calls, needStop, done, stop)
    ensures Told(calls', needStop', done + [Entry(node.key, node.value)], stop)
  {
    calls', needStop' := calls, needStop;
    if !needStop {
      calls' := calls + [Entry(node.key, node.value)];
      needStop' := stop(calls');
      assert forall k | 0 < k < |calls'| :: calls'[..k] == calls[..k];
      assert calls[..|calls|] == calls;
    }
  }

  /** The progress measure: twice the nodes not passed yet, less the threads. */
  function ToGo(t: Tree, c: Ctx): int { 2 * (|Inorder(t)| + |After(c)|) - Threads(c) }

  /** Before the first visit or after any other: where the traversal stands. */
  ghost predicate Underway(t: Tree, n: Node?, c: Ctx, cell: Cell)
    reads cell, cell.mem.Keys
  {
    && cell.BaseMirrored() && cell.mem.Keys == Nodes(cell.tree) && Distinct(cell.tree)
    && At(t, n, c, cell.root, cell.mem) && Plug(t, c) == cell.tree && (t.Leaf? ==> !c.InLeft?)
  }

  /** The left side `l` of the path `d` to `cur`: an untouched subtree, or a finished one with its thread. */
  ghost predicate Sided(t: Tree, cur: Node, c: Ctx, cell: Cell, l: Tree, d: Ctx)
    reads cell, cell.mem.Keys, cur
  {
    && d.InLeft? && d.item.at == cur && cur in cell.mem && Plug(l, d) == cell.tree
    && Wire(l, cur.left, if t.Bin? then null else cur, cur, cell.mem)
    && (t.Bin? ==> l == t.left && d == InLeft(t.item, t.right, c))
    && (t.Leaf? ==>
          && l.Bin? && Threaded(d, cur.left, cell.root, cell.mem)
          && Before(d) + Inorder(l) == Before(c) && After(d) == After(c) && Threads(d) == Threads(c))
    && Distinct(l) && cur !in Nodes(l) && (cur.left == null <==> l.Leaf?)
  }

  /** What the traversal finds to the left of `cur`. */
  lemma LeftSide(t: Tree, cur: Node, c: Ctx, cell: Cell) returns (l: Tree, d: Ctx)
    requires Underway(t, cur, c, cell)
    ensures Sided(t, cur, c, cell, l, d)
  {
    if t.Bin? {
      l, d := t.left, InLeft(t.item, t.right, c);
    } else {
      l, d := Climb(t, cur, c, cell.root, cell.mem);
      assert Before(c) + [] == Before(c);
    }
    NodesPlug(l, d);
  }

  /** A node without a left child: visit it and go right. */
  method VisitAndGoRight(cur: Node, cell: Cell, calls: seq<Entry>, needStop: bool, stop: seq<Entry> -> bool,
                         ghost t: Tree, ghost c: Ctx)
    returns (next: Node?, calls': seq<Entry>, needStop': bool)
    requires Underway(t, cur, c, cell) && t.Bin? && t.left.Leaf? && Told(calls, needStop, Before(c), stop)
    ensures var d := InRight(t.left, t.item, c);
      && Underway(t.right, next, d, cell) && Told(calls', needStop', Before(d), stop)
      && ToGo(t.right, d) < ToGo(t, c) && Threads(d) == Threads(c)
  {
    calls', needStop' := Tell(cur, calls, needStop, stop, Before(c));
    GoRight(t, c, cell.root, cell.mem);
    next := cur.right;
    assert Before(c) + [] + [t.item.Pair()] == Before(c) + [t.item.Pair()];
  }

  /** A node with an untouched left subtree: thread its predecessor and go left. */
  method ThreadAndGoLeft(cur: Node, prev: Node, cell: Cell, ghost t: Tree, ghost c: Ctx) returns (next: Node)
    requires Underway(t, cur, c, cell) && t.Bin? && t.left.Bin? && prev == Last(t.left)
    modifies cell`mem, cell.mem.Keys`right
    ensures cell.mem.Keys == old(cell.mem.Keys) && (old(cell.ExtraMirrored()) ==> cell.ExtraMirrored())
    ensures var d := InLeft(t.item, t.right, c);
      && Underway(t.left, next, d, cell) && ToGo(t.left, d) < ToGo(t, c)
      && Before(d) == Before(c) && Threads(d) == Threads(c) + 1
  {
    GoLeft(t, c, cell.root, cell.mem);
    SetRight(prev, cur, cell);
    next := cur.left;
  }

  /** A node with a finished, threaded left subtree `l`: visit it, go right, and remove the thread. */
  method VisitAndUnthread(cur: Node, prev: Node, cell: Cell, calls: seq<Entry>, needStop: bool,
                          stop: seq<Entry> -> bool, ghost l: Tree, ghost d: Ctx)
    returns (next: Node?, calls': seq<Entry>, needStop': bool)
    requires cell.BaseMirrored() && cell.mem.Keys == Nodes(cell.tree) && Distinct(cell.tree)
    requires Plug(l, d) == cell.tree && d.InLeft? && d.item.at == cur && cur in cell.mem && l.Bin? && prev == Last(l)
    requires Wire(l, cur.left, cur, cur, cell.mem) && Threaded(d, cur.left, cell.root, cell.mem)
    requires Told(calls, needStop, Before(d) + Inorder(l), stop)
    modifies cell`mem, cell.mem.Keys`right
    ensures cell.mem.Keys == old(cell.mem.Keys) && (old(cell.ExtraMirrored()) ==> cell.ExtraMirrored())
    ensures var c := InRight(l, d.item, d.up);
      Underway(d.right, next, c, cell) && Told(calls', needStop', Before(c), stop)
  {
    calls', needStop' := Tell(cur, calls, needStop, stop, Before(d) + Inorder(l));
    ComeBack(l, d, cell.root, cell.mem);
    next := cur.right;
    SetRight(prev, null, cell);
  }

  /** The right end of the left side leads to `cur` or nowhere, as the side is finished or untouched. */
  lemma Passage(l: Tree, cur: Node, untouched: bool, cell: Cell)
    requires cell.BaseMirrored() && cur in cell.mem && Distinct(l) && cur.left != null
    requires Wire(l, cur.left, if untouched then null else cur, cur, cell.mem) && (!untouched ==> l.Bin?)
    ensures l.Bin? && Last(l) in cell.mem && Last(l).right == if untouched then null else cur
  {
    var e := if untouched then null else cur;
    ExitMoved(l, cur.left, e, e, cur, cell.mem);
  }

  /** The traversal state that a turn of the loop starts from and ends in. */
  ghost predicate Turning(t: Tree, cur: Node?, c: Ctx, cell: Cell, modCounter: int, calls: seq<Entry>, needStop: bool,
                          stop: seq<Entry> -> bool)
    reads cell, cell.mem.Keys
  {
    Underway(t, cur, c, cell) && modCounter == Threads(c) && Told(calls, needStop, Before(c), stop)
  }

  /** Leaving a finished left subtree `l` for the right: one thread less, and progress. */
  lemma PassingOn(t: Tree, c: Ctx, l: Tree, e: Ctx)
    requires t.Leaf? && e.InLeft? && After(e) == After(c) && Threads(e) == Threads(c)
    ensures var d := InRight(l, e.item, e.up); Threads(d) == Threads(c) - 1 && ToGo(e.right, d) < ToGo(t, c)
  {
  }

  /** A turn at a node with a left child, which leads to the left side `l` of the path `e`. */
  method TurnAtLeft(cur: Node, cell: Cell, modCounter: int, calls: seq<Entry>, needStop: bool, stop: seq<Entry> -> bool,
                    ghost t: Tree, ghost c: Ctx, ghost l: Tree, ghost e: Ctx)
    returns (next: Node?, modCounter': int, calls': seq<Entry>, needStop': bool, unthreaded: bool,
             ghost u: Tree, ghost d: Ctx)
    requires Turning(t, cur, c, cell, modCounter, calls, needStop, stop) && Sided(t, cur, c, cell, l, e)
    requires cur.left != null
    modifies cell`mem, cell.mem.Keys`right
    ensures cell.mem.Keys == old(cell.mem.Keys) && (old(cell.ExtraMirrored()) ==> cell.ExtraMirrored())
    ensures Turning(u, next, d, cell, modCounter', calls', needStop', stop) && ToGo(u, d) < ToGo(t, c)
  {
    if t.Leaf? {
      PassingOn(t, c, l, e);
    }
    hide ToGo, Threads, Inorder, Before, After, Wire, Threaded, At, Told, Distinct, Nodes, Plug;
    modCounter', calls', needStop', unthreaded := modCounter, calls, needStop, false;
    var prev := FindLast(cur.left, cur, cell, l, if t.Bin? then null else cur);
    Passage(l, cur, t.Bin?, cell);
    if prev.right == null {
      next := ThreadAndGoLeft(cur, prev, cell, t, c);
      u, d := t.left, InLeft(t.item, t.right, c);
      modCounter' := modCounter + 1;
    } else {
      next, calls', needStop' := VisitAndUnthread(cur, prev, cell, calls, needStop, stop, l, e);
      u, d := e.right, InRight(l, e.item, e.up);
      modCounter', unthreaded := modCounter - 1, true;
    }
  }

  /** One turn of the loop of `p_tree_foreach`, up to the test for an early return. */
  method ForeachTurn(cur: Node, cell: Cell, modCounter: int, calls: seq<Entry>, needStop: bool,
                     stop: seq<Entry> -> bool, ghost t: Tree, ghost c: Ctx)
    returns (next: Node?, modCounter': int, calls': seq<Entry>, needStop': bool, unthreaded: bool,
             ghost u: Tree, ghost d: Ctx)
    requires Turning(t, cur, c, cell, modCounter, calls, needStop, stop)
    modifies cell`mem, cell.mem.Keys`right
    ensures cell.mem.Keys == old(cell.mem.Keys) && (old(cell.ExtraMirrored()) ==> cell.ExtraMirrored())
    ensures Turning(u, next, d, cell, modCounter', calls', needStop', stop) && ToGo(u, d) < ToGo(t, c)
  {
    ghost var l, e := LeftSide(t, cur, c, cell);
    hide ToGo, Threads, Inorder, Before, After, Wire, Threaded, At, Told, Distinct, Nodes, Plug, Underway;
    if cur.left == null {
      modCounter', unthreaded := modCounter, false;
      next, calls', needStop' := VisitAndGoRight(cur, cell, calls, needStop, stop, t, c);
      u, d := t.right, InRight(t.left, t.item, c);
    } else {
      next, modCounter', calls', needStop', unthreaded, u, d :=
        TurnAtLeft(cur, cell, modCounter, calls, needStop, stop, t, c, l, e);
    }
  }

  /** When no thread is left, the tree is as it was; when there is also nowhere to go, it has been told whole. */
  lemma Ended(t: Tree, n: Node?, c: Ctx, cell: Cell, modCounter: int, calls: seq<Entry>, needStop: bool,
              stop: seq<Entry> -> bool, m0: Mem)
    requires Turning(t, n, c, cell, modCounter, calls, needStop, stop) && Forms(cell.tree, cell.root, m0)
    requires n == null || (needStop && modCounter == 0)
    ensures cell.mem == m0 && ShortestStop(calls, Inorder(cell.tree), stop)
  {
    ThreadsAndExit(c);
    NoThreads(t, n, c, cell.root, cell.mem);
    WireDetermines(cell.tree, cell.root, null, null, cell.mem, m0);
    InorderPlug(t, c);
    assert n == null ==> t.Leaf? && Before(c) + [] + [] == Before(c);
  }

  /** `p_tree_foreach`. */
  method Foreach(cell: Cell, stop: seq<Entry> -> bool) returns (calls: seq<Entry>)
    requires cell.Shaped()
    modifies cell`mem, cell.mem.Keys`right
    ensures cell.Shaped() && cell.mem == old(cell.mem) && (old(cell.ExtraMirrored()) ==> cell.ExtraMirrored())
    ensures ShortestStop(calls, Inorder(cell.tree), stop)
  {
    calls := [];
    var cur, modCounter, needStop := cell.root, 0, false;
    ghost var t, c, m0 := cell.tree, Top, cell.mem;
    while cur != null
      invariant Turning(t, cur, c, cell, modCounter, calls, needStop, stop) && cell.mem.Keys == m0.Keys
      invariant old(cell.ExtraMirrored()) ==> cell.ExtraMirrored()
      decreases ToGo(t, c)
    {
      ThreadsAndExit(c);
      var unthreaded;
      cur, modCounter, calls, needStop, unthreaded, t, c :=
        ForeachTurn(cur, cell, modCounter, calls, needStop, stop, t, c);
      if unthreaded && needStop && modCounter == 0 {
        break;
      }
    }
    Ended(t, cur, c, cell, modCounter, calls, needStop, stop, m0);
  }
}
