/** How high an AVL tree can be: the reason every descent and climb is short. */
module AvlHeight {
  import opened AvlShape
  import opened AvlIterate

  function Fib(n: nat): nat
  {
    if n < 2 then n else Fib(n - 1) + Fib(n - 2)
  }

  function Pow2(n: nat): nat
  {
    if n == 0 then 1 else 2 * Pow2(n - 1)
  }

  lemma {:induction false} FibMonotone(n: nat)
    ensures Fib(n) <= Fib(n + 1)
  {
    if n >= 2 { FibMonotone(n - 1); }
  }

  /** The sparsest AVL trees are the Fibonacci trees. */
  lemma {:induction false} FibonacciSize(t: Shape)
    requires Avl(t)
    ensures |Inorder(t)| + 1 >= Fib(Height(t) + 2)
  {
    if t.Branch? {
      FibonacciSize(t.left);
      FibonacciSize(t.right);
      var h := Height(t);
      FibMonotone(h);
      assert Fib(h + 2) == Fib(h + 1) + Fib(h);
      if Height(t.left) < Height(t.right) {
        assert Height(t.left) == h - 2;
      } else if Height(t.right) < Height(t.left) {
        assert Height(t.right) == h - 2;
      }
    }
  }

  lemma {:induction false} FibGrows(h: nat)
    ensures Fib(h + 2) >= Pow2(h / 2)
  {
    if h >= 2 {
      FibGrows(h - 2);
      FibMonotone(h);
      assert Fib(h + 2) == Fib(h + 1) + Fib(h);
      assert h / 2 == (h - 2) / 2 + 1;
    }
  }

  /** Twice the binary logarithm of the size bounds the height. */
  lemma {:induction false} LogarithmicHeight(t: Shape)
    requires Avl(t)
    ensures Pow2(Height(t) / 2) <= |Inorder(t)| + 1
  {
    FibonacciSize(t);
    FibGrows(Height(t));
  }

  /** A climb from any place to the root passes fewer nodes than the tree is high. */
  lemma {:induction false} ClimbBound(c: Ctx, t: Shape)
    ensures CtxDepth(c) + Height(t) <= Height(Plug(c, t))
  {
    if !c.Top? { ClimbBound(c.up, ParentShape(c, t)); }
  }

  lemma {:induction false} DepthBound(t: Shape, d: nat, i: nat)
    requires i < |Inorder(t)|
    ensures d <= Depths(t, d)[i] < d + Height(t)
  {
    var k := |Inorder(t.left)|;
    if i < k {
      DepthBound(t.left, d + 1, i);
    } else if i > k {
      DepthBound(t.right, d + 1, i - k - 1);
    }
  }

  /** `avl_tree_next` and `avl_tree_prev` follow at most as many links as the tree is high. */
  lemma MoveBound(sh: Shape, i: nat, j: int, res: Node?, steps: nat)
    requires i < |Inorder(sh)| && Moved(sh, i, j, res, steps)
    ensures steps <= Height(sh)
  {
    DepthBound(sh, 0, i);
    if 0 <= j < |Inorder(sh)| { DepthBound(sh, 0, j); }
  }

  /** `steps` is at most about `d` times the binary logarithm of `n`. */
  predicate Few(steps: nat, d: nat, n: nat)
    requires d > 0
  {
    Pow2(steps / d) <= n + 1
  }

  lemma {:induction false} Pow2Monotone(a: nat, b: nat)
    requires a <= b
    ensures Pow2(a) <= Pow2(b)
  {
    if a < b { Pow2Monotone(a, b - 1); }
  }

  /** One pass along the height, or two, visits few nodes for the size of the tree. */
  lemma FewSteps(t: Shape, steps: nat, d: nat)
    requires Avl(t) && ((d == 2 && steps <= Height(t)) || (d == 4 && steps <= 2 * Height(t)))
    ensures Few(steps, d, |Inorder(t)|)
  {
    LogarithmicHeight(t);
    Pow2Monotone(steps / d, Height(t) / 2);
  }
}
