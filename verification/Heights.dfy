// How high the balanced trees of plibsys/src/ptree-rb.c and ptree-avl.c can get.

/** Height bounds of red-black and AVL trees. */
module Heights {
  import opened TreeShape
  import R = RedBlackShape
  import A = AvlShape

  function Pow2(n: nat): nat { if n == 0 then 1 else 2 * Pow2(n - 1) }

  function Fib(n: nat): nat { if n < 2 then n else Fib(n - 1) + Fib(n - 2) }

  lemma {:induction false} Pow2Grows(a: nat, b: nat)
    requires a <= b
    ensures 1 <= Pow2(a) <= Pow2(b)
    decreases b
  {
    if a < b {
      Pow2Grows(a, b - 1);
    } else if a > 0 {
      Pow2Grows(a - 1, b - 1);
    }
  }

  lemma {:induction false} Pow2Sum(a: nat, b: nat)
    ensures Pow2(a + b) == Pow2(a) * Pow2(b)
  {
    if a > 0 {
      Pow2Sum(a - 1, b);
      assert Pow2(a + b) == 2 * Pow2(a - 1 + b);
    }
  }

  lemma {:induction false} SizeIsEntries(t: Tree)
    ensures Size(t) == |Inorder(t)|
  {
    if t.Bin? {
      SizeIsEntries(t.left);
      SizeIsEntries(t.right);
    }
  }

  /** A path holds at most one red node per black one, and one more on top. */
  lemma {:induction false} RedBlackDepth(t: Tree)
    requires R.Balanced(t)
    ensures Height(t) <= 2 * R.BlackHeight(t) + if R.IsRed(t) then 1 else 0
    ensures Pow2(R.BlackHeight(t)) <= Size(t) + 1
  {
    if t.Bin? {
      RedBlackDepth(t.left);
      RedBlackDepth(t.right);
    }
  }

  /** The height of a red-black tree of n nodes is at most 2 * log2(n + 1). */
  lemma RedBlackHeight(t: Tree)
    requires R.RedBlack(t)
    ensures Pow2(Height(t)) <= (Size(t) + 1) * (Size(t) + 1)
  {
    RedBlackDepth(t);
    var b := R.BlackHeight(t);
    Pow2Grows(Height(t), 2 * b);
    Pow2Sum(b, b);
    Multiply(Pow2(b), Size(t) + 1);
  }

  lemma Multiply(a: nat, b: nat)
    requires a <= b
    ensures a * a <= b * b
  {
  }

  lemma {:induction false} FibGrows(a: nat, b: nat)
    requires a <= b
    ensures Fib(a) <= Fib(b)
    decreases b
  {
    if a < b {
      FibGrows(a, b - 1);
    }
  }

  /** One level of an AVL tree with subtrees of heights `l` and `r` and sizes `m` and `n`. */
  lemma FibLevel(l: nat, r: nat, m: nat, n: nat)
    requires -1 <= l - r <= 1 && Fib(l + 2) <= m + 1 && Fib(r + 2) <= n + 1
    ensures Fib(if l < r then r + 3 else l + 3) <= m + n + 2
  {
    var h := if l < r then r + 1 else l + 1;
    FibGrows(h, l + 2);
    FibGrows(h, r + 2);
  }

  /** An AVL tree of height h has at least Fib(h + 2) - 1 nodes. */
  lemma {:induction false} AvlSize(t: Tree)
    requires A.Avl(t)
    ensures Fib(Height(t) + 2) <= Size(t) + 1
  {
    if t.Bin? {
      AvlSize(t.left);
      AvlSize(t.right);
      FibLevel(Height(t.left), Height(t.right), Size(t.left), Size(t.right));
      hide Fib;
    }
  }
}
