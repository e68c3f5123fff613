/** The intrusive AVL tree of Pal/lib/avl_tree.c and its public operations. */
module AvlTree {
  import opened AvlShape
  import opened AvlHeap
  import opened AvlOrder
  import opened AvlIterate
  import opened AvlDelete
  import opened AvlHeight

  function Single(n: Node): Shape
  {
    Branch(Leaf, n, 0, Leaf)
  }

  /** Linking a fresh node into an empty hole. */
  lemma Attach(m: Store, m': Store, c: Ctx, n: Node)
    requires Held(m, c, Leaf) && Apart(c, Leaf) && n !in CtxNodes(c)
    requires AgreeOff(m, m', {n} + Ref(HoleParent(c, null)))
    requires n in m' && m'[n] == Cell(null, null, HoleParent(c, null), 0)
    requires HoleAt(m', c, n, null)
    ensures Held(m', c, Single(n)) && Apart(c, Single(n))
  {
    Retarget(m, m', {n} + Ref(HoleParent(c, null)), c, null, n, null);
  }

  /** `parent->left = n` or `parent->right = n`, and `n->parent = parent`, where there was no
      child. */
  method LinkChild(parent: Node, side: Side, n: Node, ghost S: set<Node>, ghost c: Ctx)
    requires At(S, c, Leaf) && !c.Top? && c.node == parent && (side == LEFT <==> c.InLeft?)
    requires n !in S && n.Fields() == Cell(null, null, null, 0)
    modifies parent, n
    ensures At(S + {n}, c, Single(n))
  {
    ghost var m := Snap(S);
    assert parent in S && m[parent] == parent.Fields();
    if side == LEFT {
      parent.left := n;
    } else {
      parent.right := n;
    }
    n.parent := parent;
    Attach(m, Snap(S + {n}), c, n);
  }

  method InitNode(n: Node)
    modifies n
    ensures n.Fields() == Cell(null, null, null, 0)
  {
    n.left, n.right, n.parent, n.balance := null, null, null, 0;
  }

  lemma InsertedOrder(cmp: (Key, Key) -> bool, c: Ctx, n: Node)
    requires AllBelow(cmp, n.key, Before(c)) && AllAbove(cmp, n.key, After(c))
    ensures Inorder(Plug(c, Single(n))) == StableInsert(cmp, Inorder(Plug(c, Leaf)), n)
  {
    PlugInorder(c, Single(n));
    PlugInorder(c, Leaf);
    var a, b := Before(c), After(c);
    SlotIs(cmp, n.key, a, b);
    assert Inorder(Plug(c, Leaf)) == a + b;
    assert (a + b)[..|a|] == a && (a + b)[|a|..] == b;
    assert Inorder(Single(n)) == [n];
  }

  lemma InsertPending(c: Ctx, n: Node)
    requires Avl(Plug(c, Leaf)) && !c.Top?
    ensures Stepped(c, Single(n), true, true)
  {
    PlugAvl(c, Leaf);
  }

  lemma SingleAt(n: Node)
    requires n.Fields() == Cell(null, null, null, 0)
    ensures At({n}, Top, Single(n)) && Avl(Single(n)) && Nodes(Single(n)) == {n}
  {
    assert Snap({n})[n] == n.Fields();
    assert Nodes(Leaf) == {} && Distinct(Leaf);
    assert Links(Snap({n}), Single(n), null) && Distinct(Single(n));
    assert Nodes(Single(n)) == {n} && CtxNodes(Top) == {};
  }

  /** Rebalancing the whole tree after the subtree in the hole of `c` changed its height. */
  method BalanceFrom(node: Node, side: Side, inc: bool, ghost S: set<Node>, ghost c: Ctx, ghost t: Shape)
    returns (newRoot: Node, ghost sh: Shape, ghost steps: nat)
    requires At(S, c, t) && !c.Top? && node == c.node && side == HoleSide(c)
    requires Stepped(c, t, true, inc)
    modifies S
    ensures At(S, Top, sh) && S == Nodes(sh) && Avl(sh) && newRoot in S
    ensures Inorder(sh) == Inorder(Plug(c, t))
    ensures RootNode(sh) == if newRoot.parent == null then newRoot else OuterNode(c, null)
    ensures steps <= CtxDepth(c)
  {
    SteppedPending(c, t, inc);
    FocusUp(S, c, t);
    ghost var p := ParentShape(c, t);
    ghost var c', t';
    newRoot, c', t', steps := Balance(node, side, inc, S, c.up, p.left, p.bal, p.right);
    Peek(S, c', t');
    Unfocus(S, c', t');
    PlugRoot(c', t');
    sh := Plug(c', t');
  }

  method ReplaceIn(oldNode: Node, newNode: Node, ghost S: set<Node>, ghost sh: Shape) returns (ghost sh': Shape)
    requires At(S, Top, sh) && Avl(sh) && oldNode in Inorder(sh)
    requires newNode !in S && newNode.Fields() == Cell(null, null, null, 0)
    modifies S - {oldNode}, newNode
    ensures At(S - {oldNode} + {newNode}, Top, sh') && Avl(sh')
    ensures Inorder(sh') == Inorder(sh)[IndexOf(Inorder(sh), oldNode) := newNode]
    ensures RootNode(sh') == if RootNode(sh) == oldNode then newNode else RootNode(sh)
  {
    NodesInorder(sh);
    ghost var c, t := FocusOn(S, sh, oldNode);
    RootOnlyAtTop(c, t);
    ReplaceNode(oldNode, newNode, S, c, t);
    ReplacedShape(S - {oldNode} + {newNode}, c, t, newNode);
    sh' := Plug(c, t.(node := newNode));
  }

  /** The sequence without the focused node. */
  lemma WithoutFocus(c: Ctx, t: Shape)
    requires t.Branch? && Apart(c, t)
    ensures var s := Inorder(Plug(c, t));
      t.node in s && Without(s, t.node) == (Before(c) + Inorder(t.left)) + (Inorder(t.right) + After(c))
  {
    var s := Inorder(Plug(c, t));
    Positioned(c, t);
    PlugInorder(c, t);
    DropAt(s, Before(c), Inorder(t.left), t.node, Inorder(t.right), After(c));
  }

  lemma DropAt(s: seq<Node>, a: seq<Node>, b: seq<Node>, x: Node, d: seq<Node>, e: seq<Node>)
    requires s == a + (b + [x] + d) + e && x in s && IndexOf(s, x) == |a| + |b|
    ensures Without(s, x) == (a + b) + (d + e)
  {
    DropMiddle(a, b, x, d, e);
  }

  lemma DropMiddle(a: seq<Node>, b: seq<Node>, x: Node, d: seq<Node>, e: seq<Node>)
    ensures var s := a + (b + [x] + d) + e;
      s[..|a| + |b|] + s[|a| + |b| + 1..] == (a + b) + (d + e)
  {
    var s := a + (b + [x] + d) + e;
    assert s[..|a| + |b|] == a + b;
    assert s[|a| + |b| + 1..] == d + e;
  }

  /** The node to delete is where it can be unlinked: it has at most one child, and closing the
      gap lowers the subtree there by one and leaves the sequence `rest`. */
  ghost predicate Removable(c: Ctx, t: Shape, node: Node, rest: seq<Node>)
  {
    && t.Branch? && t.node == node && (t.left.Leaf? || t.right.Leaf?)
    && Stepped(c, OnlyChild(t), true, false)
    && Inorder(Plug(c, OnlyChild(t))) == rest
  }

  lemma RemovableNow(c: Ctx, t: Shape)
    requires t.Branch? && (t.left.Leaf? || t.right.Leaf?) && Apart(c, t) && Avl(Plug(c, t))
    ensures t.node in Inorder(Plug(c, t))
    ensures Removable(c, t, t.node, Without(Inorder(Plug(c, t)), t.node))
  {
    PlugAvl(c, t);
    RemovedOrder(c, t);
  }

  lemma RemovedOrder(c: Ctx, t: Shape)
    requires t.Branch? && (t.left.Leaf? || t.right.Leaf?) && Apart(c, t)
    ensures t.node in Inorder(Plug(c, t))
    ensures Inorder(Plug(c, OnlyChild(t))) == Without(Inorder(Plug(c, t)), t.node)
  {
    WithoutFocus(c, t);
    PlugInorder(c, OnlyChild(t));
    CloseGap(Before(c), Inorder(OnlyChild(t)), After(c));
  }

  lemma CloseGap(a: seq<Node>, b: seq<Node>, d: seq<Node>)
    ensures (a + b) + ([] + d) == a + b + d
    ensures (a + []) + (b + d) == a + b + d
  {
  }

  lemma RemovableSwapped(c: Ctx, l: Shape, node: Node, b: int, spine: Ctx, next: Node, nb: int, nr: Shape, sh: Shape)
    requires LeftSpine(spine)
    requires var t := Branch(l, node, b, Plug(spine, Branch(Leaf, next, nb, nr)));
      Apart(c, t) && Plug(c, t) == sh && Avl(sh)
    ensures node in Inorder(sh)
    ensures Removable(Swapped(c, l, next, b, spine), Branch(Leaf, node, nb, nr), node, Without(Inorder(sh), node))
  {
    SwappedRest(c, l, node, b, spine, next, nb, nr, sh);
    SwappedStep(Swapped(c, l, next, b, spine), c, l, node, b, spine, next, nb, nr, sh);
  }

  lemma SwappedStep(c': Ctx, c: Ctx, l: Shape, node: Node, b: int, spine: Ctx, next: Node, nb: int, nr: Shape, sh: Shape)
    requires sh == Plug(c, Branch(l, node, b, Plug(spine, Branch(Leaf, next, nb, nr)))) && Avl(sh)
    requires c' == Swapped(c, l, next, b, spine)
    ensures Stepped(c', nr, true, false)
  {
    SwappedAvl(c, l, node, b, spine, next, nb, nr);
  }

  lemma SwappedRest(c: Ctx, l: Shape, node: Node, b: int, spine: Ctx, next: Node, nb: int, nr: Shape, sh: Shape)
    requires LeftSpine(spine)
    requires var t := Branch(l, node, b, Plug(spine, Branch(Leaf, next, nb, nr)));
      Apart(c, t) && Plug(c, t) == sh
    ensures node in Inorder(sh)
    ensures Inorder(Plug(Swapped(c, l, next, b, spine), nr)) == Without(Inorder(sh), node)
  {
    WithoutFocus(c, Branch(l, node, b, Plug(spine, Branch(Leaf, next, nb, nr))));
    SwappedOrder(c, l, node, b, spine, next, nb, nr);
  }

  lemma LowLeaf(t: Shape)
    requires Avl(t) && Height(t) <= 1
    ensures t.Branch? ==> t.bal == 0 && t.left.Leaf? && t.right.Leaf?
  {
    if t.Branch? {
      assert Height(t.left) == 0 && Height(t.right) == 0;
    }
  }

  /** The first part of `avl_tree_delete`, for a node with two children: after it the node is in
      the place of its successor and has no left child. */
  method SwapDown(node: Node, root: Node?, ghost S: set<Node>, ghost c: Ctx, ghost t: Shape)
    returns (root': Node?, ghost c': Ctx, ghost t': Shape, ghost steps: nat)
    requires At(S, c, t) && t.Branch? && t.node == node && t.left.Branch? && t.right.Branch?
    requires Avl(Plug(c, t)) && root == RootNode(Plug(c, t))
    modifies S
    ensures node in Inorder(Plug(c, t))
    ensures At(S, c', t') && Removable(c', t', node, Without(Inorder(Plug(c, t)), node))
    ensures root' == OuterNode(c', node)
    ensures steps <= Height(Plug(c, t)) && CtxDepth(c') <= Height(Plug(c, t))
  {
    ghost var sh := Plug(c, t);
    Unfocus(S, c, t);
    Positioned(c, t);
    var next;
    next, steps := NextIn(node, S, sh);
    MoveBound(sh, Pos(c, t), Pos(c, t) + 1, next, steps);
    ghost var f := LeftFocus(Top, t.right);
    ghost var spine, nb, nr := f.ctx, f.tree.bal, f.tree.right;
    NextIsLeftmost(c, t, spine, f.tree);
    assert next == f.tree.node;
    CheckNext(next, S, c, t, spine, nb, nr);
    RemovableSwapped(c, t.left, node, t.bal, spine, next, nb, nr, sh);
    SwapWithNext(node, next, S, c, t.left, t.bal, spine, nb, nr);
    RootAfterSwap(c, t, next, spine);
    SwappedDepth(c, t, spine, f.tree);
    root' := if root == node then next else root;
    c', t' := Swapped(c, t.left, next, t.bal, spine), Branch(Leaf, node, nb, nr);
  }

  lemma NextIsLeftmost(c: Ctx, t: Shape, spine: Ctx, u: Shape)
    requires t.Branch? && LeftSpine(spine) && u.Branch? && u.left.Leaf? && t.right == Plug(spine, u)
    ensures Pos(c, t) + 1 < |Inorder(Plug(c, t))|
    ensures Inorder(Plug(c, t))[Pos(c, t) + 1] == u.node
  {
    SpineOrder(spine, u.node, u.bal, u.right);
    PlugInorder(c, t);
    assert Inorder(t.right)[0] == u.node;
    assert Inorder(t)[|Inorder(t.left)| + 1] == u.node;
  }

  lemma SwappedDepth(c: Ctx, t: Shape, spine: Ctx, u: Shape)
    requires t.Branch? && u.Branch? && t.right == Plug(spine, u)
    ensures CtxDepth(Swapped(c, t.left, u.node, t.bal, spine)) <= Height(Plug(c, t))
  {
    var outer := InRight(t.left, t.node, t.bal, c);
    CompPlug(spine, outer, u);
    ClimbBound(Comp(spine, outer), u);
    CompDepth(spine, outer);
    CompDepth(spine, InRight(t.left, u.node, t.bal, c));
  }

  lemma {:induction false} CompDepth(inner: Ctx, outer: Ctx)
    ensures CtxDepth(Comp(inner, outer)) == CtxDepth(inner) + CtxDepth(outer)
  {
    if !inner.Top? { CompDepth(inner.up, outer); }
  }

  lemma RootAfterSwap(c: Ctx, t: Shape, next: Node, spine: Ctx)
    requires t.Branch? && Apart(c, t)
    ensures OuterNode(Swapped(c, t.left, next, t.bal, spine), t.node)
         == if RootNode(Plug(c, t)) == t.node then next else RootNode(Plug(c, t))
  {
    RootOnlyAtTop(c, t);
    PlugRoot(c, t);
    OuterComp(spine, InRight(t.left, next, t.bal, c), t.node);
    if !c.Top? { OuterAny(c, next); OuterAny(c, t.node); }
  }

  /** The assertions of `avl_tree_delete` on the successor. */
  method CheckNext(next: Node, ghost S: set<Node>, ghost c: Ctx, ghost t: Shape, ghost spine: Ctx, ghost nb: int,
                   ghost nr: Shape)
    requires At(S, c, t) && t.Branch? && Avl(Plug(c, t))
    requires t.right == Plug(spine, Branch(Leaf, next, nb, nr))
    ensures next.balance == 0 || next.balance == 1
    ensures next.right != null ==>
      next.right.balance == 0 && next.right.left == null && next.right.right == null
    ensures next.parent != null
  {
    SwappedAvl(c, t.left, t.node, t.bal, spine, next, nb, nr);
    LowLeaf(nr);
    FocusInner(S, c, t.left, t.node, t.bal, spine, Branch(Leaf, next, nb, nr));
    InnerFields(S, spine, InRight(t.left, t.node, t.bal, c), next, nb, nr);
  }

  /** The second part of `avl_tree_delete`: closes the gap, rebalances, and gives the new root. */
  method Unlink(node: Node, root: Node?, ghost S: set<Node>, ghost c: Ctx, ghost t: Shape, ghost rest: seq<Node>)
    returns (root': Node?, ghost sh: Shape, ghost steps: nat)
    requires At(S, c, t) && Removable(c, t, node, rest) && root == OuterNode(c, node)
    modifies S
    ensures At(S - {node}, Top, sh) && Avl(sh) && root' == RootNode(sh)
    ensures Inorder(sh) == rest
    ensures steps <= CtxDepth(c)
  {
    Peek(S, c, t);
    var side := LEFT;
    if node.parent != null {
      HoleChild(S, c, t);
      side := if node.parent.left == node then LEFT else RIGHT;
    }
    var newRoot := Detach(node, S, c, t);
    ghost var x := OnlyChild(t);
    if node.parent != null {
      newRoot, sh, steps := BalanceFrom(node.parent, side, false, S - {node}, c, x);
      OuterAny(c, node);
    } else {
      sh, steps := x, 0;
    }
    root' := if (newRoot != null && newRoot.parent == null) || node.parent == null then newRoot else root;
  }

  method DeleteIn(node: Node, root: Node?, ghost S: set<Node>, ghost sh: Shape)
    returns (newRoot: Node?, ghost sh': Shape, ghost steps: nat)
    requires At(S, Top, sh) && Avl(sh) && root == RootNode(sh) && node in Inorder(sh)
    modifies S
    ensures At(S - {node}, Top, sh') && Avl(sh') && newRoot == RootNode(sh')
    ensures Inorder(sh') == Without(Inorder(sh), node)
    ensures steps <= 2 * Height(sh)
  {
    NodesInorder(sh);
    ghost var c, t := FocusOn(S, sh, node);
    Peek(S, c, t);
    PlugRoot(c, t);
    ClimbBound(c, t);
    newRoot := root;
    ghost var down := 0;
    if node.left != null && node.right != null {
      newRoot, c, t, down := SwapDown(node, root, S, c, t);
    } else {
      RemovableNow(c, t);
    }
    newRoot, sh', steps := Unlink(node, newRoot, S, c, t, Without(Inorder(sh), node));
    steps := steps + down;
  }

  /** A descent that ended at the hole of `c` has found the lower bound. */
  lemma BoundFound<A>(fn: (A, Key) -> bool, arg: A, c: Ctx)
    requires AllBelow(fn, arg, Before(c)) && AllAbove(fn, arg, After(c))
    ensures var s := Inorder(Plug(c, Leaf));
      var i := Slot(fn, arg, s);
      (if i < |s| then s[i] else null) == (if After(c) == [] then null else After(c)[0])
  {
    PlugInorder(c, Leaf);
    SlotIs(fn, arg, Before(c), After(c));
    assert Inorder(Plug(c, Leaf)) == Before(c) + After(c);
  }

  class Tree {
    var root: Node?
    const cmp: (Key, Key) -> bool
    ghost var shape: Shape
    ghost var nodes: set<Node>

    constructor (cmp: (Key, Key) -> bool)
      ensures Valid() && Elements() == [] && this.cmp == cmp
    {
      this.cmp := cmp;
      root, shape, nodes := null, Leaf, {};
    }

    /** Child and parent links, stored balances and the root pointer all agree with the ghost
        shape, no node occurs twice, and the shape is AVL-balanced. */
    ghost predicate Valid()
      reads this, nodes
    {
      root == RootNode(shape) && At(nodes, Top, shape) && Avl(shape)
    }

    ghost function Elements(): seq<Node>
      reads this
    {
      Inorder(shape)
    }

    ghost predicate Ordered()
      reads this
    {
      TotalPreorder(cmp) && Sorted(cmp, Elements())
    }

    /** `tree->root = newRoot`, and the shape that the heap has by now. */
    method SetRoot(newRoot: Node?, ghost S: set<Node>, ghost sh: Shape)
      requires At(S, Top, sh) && Avl(sh) && newRoot == RootNode(sh)
      modifies this
      ensures Valid() && shape == sh && nodes == S
    {
      ghost var m := Snap(S);
      root, shape, nodes := newRoot, sh, S;
      assert Snap(S) == m;
    }

    /** `avl_tree_insert_unbalanced`: descends to an empty place and links the node there. */
    method InsertUnbalanced(n: Node) returns (ghost c: Ctx, ghost steps: nat)
      requires Valid() && Ordered() && shape.Branch?
      requires n !in nodes && n.Fields() == Cell(null, null, null, 0)
      modifies nodes, n
      ensures !c.Top? && shape == Plug(c, Leaf)
      ensures At(nodes + {n}, c, Single(n))
      ensures AllBelow(cmp, n.key, Before(c)) && AllAbove(cmp, n.key, After(c))
      ensures steps == CtxDepth(c)
    {
      ghost var S := nodes;
      SortedMonotone(cmp, n.key, Elements());
      var node := root;
      ghost var t := shape;
      c, steps := Top, 0;
      while true
        invariant t.Branch? && node == t.node && At(S, c, t) && Plug(c, t) == shape
        invariant AllBelow(cmp, n.key, Before(c)) && AllAbove(cmp, n.key, After(c))
        invariant n.Fields() == Cell(null, null, null, 0)
        invariant steps == CtxDepth(c)
        decreases t
      {
        steps := steps + 1;
        Peek(S, c, t);
        Descend(cmp, n.key, c, t);
        if cmp(n.key, node.key) {
          FocusLeft(S, c, t);
          c, t := InLeft(c, t.node, t.bal, t.right), t.left;
          if node.left == null {
            LinkChild(node, LEFT, n, S, c);
            return;
          } else {
            node := node.left;
          }
        } else {
          FocusRight(S, c, t);
          c, t := InRight(t.left, t.node, t.bal, c), t.right;
          if node.right == null {
            LinkChild(node, RIGHT, n, S, c);
            return;
          } else {
            node := node.right;
          }
        }
      }
    }

    /** `avl_tree_insert`. `steps` counts the nodes visited going down and rebalancing. */
    method Insert(n: Node) returns (ghost steps: nat)
      requires Valid() && Ordered() && n !in nodes
      modifies this, nodes, n
      ensures Valid() && Ordered()
      ensures Elements() == StableInsert(cmp, old(Elements()), n)
      ensures nodes == old(nodes) + {n}
      ensures steps <= 2 * Height(old(shape)) && Few(steps, 4, |old(Elements())|)
    {
      StableInsertSorted(cmp, Elements(), n);
      ghost var m := Snap(nodes);
      InitNode(n);
      assert Snap(nodes) == m;
      if root == null {
        root, shape, nodes := n, Single(n), {n};
        SingleAt(n);
        FewSteps(old(shape), 0, 4);
        return 0;
      }
      ghost var c, down := InsertUnbalanced(n);
      ClimbBound(c, Leaf);
      steps := BalanceAfterInsert(n, c);
      steps := steps + down;
      FewSteps(old(shape), steps, 4);
      InsertedOrder(cmp, c, n);
    }

    /** The height of the hole in `c` went up by one with `n`; rebalance from its parent on. */
    method BalanceAfterInsert(n: Node, ghost c: Ctx) returns (ghost steps: nat)
      requires root == RootNode(shape) && Avl(shape)
      requires !c.Top? && shape == Plug(c, Leaf) && At(nodes + {n}, c, Single(n))
      modifies this, nodes, n
      ensures Valid() && nodes == old(nodes) + {n}
      ensures Elements() == Inorder(Plug(c, Single(n)))
      ensures steps <= CtxDepth(c)
    {
      ghost var S := nodes + {n};
      InsertPending(c, n);
      Peek(S, c, Single(n));
      PlugRoot(c, Leaf);
      var side := if n.parent.left == n then LEFT else RIGHT;
      steps := RebalanceFrom(n.parent, side, true, S, c, Single(n));
    }

    /** `avl_tree_balance` and the update of `tree->root` after it. */
    method RebalanceFrom(node: Node, side: Side, inc: bool, ghost S: set<Node>, ghost c: Ctx, ghost t: Shape)
      returns (ghost steps: nat)
      requires At(S, c, t) && !c.Top? && node == c.node && side == HoleSide(c)
      requires Stepped(c, t, true, inc)
      requires root == OuterNode(c, null)
      modifies this, S
      ensures Valid() && nodes == S
      ensures Elements() == Inorder(Plug(c, t))
      ensures steps <= CtxDepth(c)
    {
      var newRoot;
      ghost var sh;
      newRoot, sh, steps := BalanceFrom(node, side, inc, S, c, t);
      SetRoot(if newRoot.parent == null then newRoot else root, S, sh);
    }

    // -------------------------------------------------------------- replacement and deletion

    /** `avl_tree_swap_node`. */
    method SwapNode(oldNode: Node, newNode: Node)
      requires Valid() && oldNode in Elements() && newNode !in Elements()
      requires Equal(cmp, oldNode.key, newNode.key)
      modifies this, nodes, newNode
      ensures Valid() && nodes == old(nodes) - {oldNode} + {newNode}
      ensures Elements() == old(Elements())[old(Index(oldNode)) := newNode]
      ensures old(Ordered()) ==> Ordered()
    {
      NodesInorder(shape);
      ghost var m := Snap(nodes);
      InitNode(newNode);
      assert Snap(nodes) == m;
      ghost var sh := ReplaceIn(oldNode, newNode, nodes, shape);
      if old(Ordered()) { ReplaceSorted(cmp, Elements(), Index(oldNode), newNode); }
      SetRoot(if root == oldNode then newNode else root, nodes - {oldNode} + {newNode}, sh);
    }

    /** `avl_tree_delete`. `steps` counts the links to the successor and the nodes rebalanced. */
    method Delete(node: Node) returns (ghost steps: nat)
      requires Valid() && node in Elements()
      modifies this, nodes
      ensures Valid() && nodes == old(nodes) - {node}
      ensures Elements() == Without(old(Elements()), node)
      ensures old(Ordered()) ==> Ordered()
      ensures steps <= 2 * Height(old(shape)) && Few(steps, 4, |old(Elements())|)
    {
      if Ordered() { WithoutSorted(cmp, Elements(), node); }
      var newRoot;
      ghost var sh;
      newRoot, sh, steps := DeleteIn(node, root, nodes, shape);
      FewSteps(shape, steps, 4);
      SetRoot(newRoot, nodes - {node}, sh);
    }

    // -------------------------------------------------------------- iteration

    /** The position of a node in order, and its depth. */
    ghost function Index(n: Node): (i: nat)
      requires n in Elements()
      reads this
      ensures i < |Elements()| && Elements()[i] == n
    {
      IndexOf(Elements(), n)
    }

    ghost function Depth(i: nat): nat
      requires i < |Elements()|
      reads this
    {
      Depths(shape, 0)[i]
    }

    /** `avl_tree_next` and `avl_tree_prev`: the neighbour in order, or null; the links followed
        are as many as the levels between the two, or one more than up to the root. */
    method Next(node: Node) returns (res: Node?, ghost steps: nat)
      requires Valid() && node in Elements()
      ensures res == if Index(node) + 1 < |Elements()| then Elements()[Index(node) + 1] else null
      ensures Moved(shape, Index(node), Index(node) + 1, res, steps) && Few(steps, 2, |Elements()|)
    {
      NodesInorder(shape);
      res, steps := NextIn(node, nodes, shape);
      MoveBound(shape, Index(node), Index(node) + 1, res, steps);
      FewSteps(shape, steps, 2);
    }

    method Prev(node: Node) returns (res: Node?, ghost steps: nat)
      requires Valid() && node in Elements()
      ensures res == if Index(node) > 0 then Elements()[Index(node) - 1] else null
      ensures Moved(shape, Index(node), Index(node) - 1, res, steps) && Few(steps, 2, |Elements()|)
    {
      NodesInorder(shape);
      res, steps := PrevIn(node, nodes, shape);
      MoveBound(shape, Index(node), Index(node) - 1, res, steps);
      FewSteps(shape, steps, 2);
    }

    /** Going to the next node and back again. */
    method NextAndBack(node: Node) returns (back: Node?)
      requires Valid() && node in Elements()
      ensures back == if Index(node) + 1 < |Elements()| then node else null
    {
      ghost var i, steps := Index(node), 0;
      back, steps := Next(node);
      if back != null {
        AtIndex(i + 1);
        back, steps := Prev(back);
      }
    }

    method First() returns (res: Node?, ghost steps: nat)
      requires Valid()
      ensures res == if Elements() == [] then null else Elements()[0]
      ensures res != null ==> steps == Depth(0)
    {
      if root == null {
        return null, 0;
      }
      ghost var c, t;
      res, c, t, steps := Leftmost(root, nodes, Top, shape);
      Landed(shape, c, t, 0);
    }

    method Last() returns (res: Node?, ghost steps: nat)
      requires Valid()
      ensures res == if Elements() == [] then null else Elements()[|Elements()| - 1]
      ensures res != null ==> steps == Depth(|Elements()| - 1)
    {
      if root == null {
        return null, 0;
      }
      ghost var c, t;
      res, c, t, steps := Rightmost(root, nodes, Top, shape);
      Landed(shape, c, t, |Inorder(shape)| - 1);
    }

    /** The loop `for (n = first; n; n = next(n))` visits the nodes in order, and follows one link
        fewer than twice their number. */
    method Walk() returns (visited: seq<Node>, ghost total: nat)
      requires Valid()
      ensures visited == Elements()
      ensures Elements() != [] ==> total == 2 * |Elements()| - 1
    {
      var node;
      node, total := First();
      visited := [];
      if node != null {
        TourTwice(shape, 0);
        visited, total := WalkOn(node, total);
      }
    }

    method NextAt(node: Node, ghost k: nat, ghost next: nat) returns (res: Node?, ghost steps: nat)
      requires Valid() && k < |Elements()| && node == Elements()[k] && next == k + 1
      ensures Moved(shape, k, next, res, steps)
    {
      AtIndex(k);
      res, steps := Next(node);
    }

    method WalkOn(first: Node, ghost total0: nat) returns (visited: seq<Node>, ghost total: nat)
      requires Valid() && Elements() != [] && WalkAt(Elements(), Depths(shape, 0), 0, first, total0)
      requires var d := Depths(shape, 0); d[0] + Tour(d) + d[|d| - 1] == 2 * (|Elements()| - 1)
      ensures visited == Elements() && total == 2 * |Elements()| - 1
    {
      ghost var s, d, k := Elements(), Depths(shape, 0), 0;
      var node: Node? := first;
      visited, total := [], total0;
      while node != null
        invariant k == |visited| <= |s| && visited == s[..k] && WalkAt(s, d, k, node, total)
        decreases |s| - k
      {
        ghost var steps, next := 0, k + 1;
        TakeNext(s, k, next);
        visited := visited + [node];
        node, steps := NextAt(node, k, next);
        WalkStep(shape, s, d, k, next, node, total, steps);
        total, k := total + steps, next;
      }
    }

    // -------------------------------------------------------------- search

    /** `avl_tree_find`: some element equal to `k`, exactly if there is one. */
    method Find(k: Key) returns (res: Node?, ghost steps: nat)
      requires Valid() && Ordered()
      ensures res != null ==> res in Elements() && Equal(cmp, k, res.key)
      ensures res == null ==> forall e :: e in Elements() ==> !Equal(cmp, k, e.key)
      ensures steps <= Height(shape) && Few(steps, 2, |Elements()|)
    {
      SortedMonotone(cmp, k, Elements());
      res, steps := root, 0;
      ghost var c, t := Top, shape;
      while res != null
        invariant At(nodes, c, t) && res == RootNode(t) && Plug(c, t) == shape
        invariant AllBelow(cmp, k, Before(c)) && AllAbove(cmp, k, After(c))
        invariant AllStrict(cmp, k, After(c))
        invariant steps == CtxDepth(c)
        decreases t
      {
        Peek(nodes, c, t);
        Descend(cmp, k, c, t);
        ClimbBound(c, t);
        steps := steps + 1;
        if cmp(k, res.key) {
          if cmp(res.key, k) {
            ElementAt(c, t);
            FewSteps(shape, steps, 2);
            return;
          }
          FindLeft(cmp, k, c, t);
          FocusLeft(nodes, c, t);
          c, t := InLeft(c, t.node, t.bal, t.right), t.left;
          res := res.left;
        } else {
          FocusRight(nodes, c, t);
          c, t := InRight(t.left, t.node, t.bal, c), t.right;
          res := res.right;
        }
      }
      ClimbBound(c, t);
      FewSteps(shape, steps, 2);
      PlugInorder(c, t);
    }

    /** `avl_tree_lower_bound_fn`: the leftmost element for which a monotone predicate holds. */
    method LowerBoundFn<A>(arg: A, fn: (A, Key) -> bool) returns (res: Node?, ghost steps: nat)
      requires Valid() && Monotone(fn, arg, Elements())
      ensures var i := Slot(fn, arg, Elements());
        res == if i < |Elements()| then Elements()[i] else null
      ensures steps <= Height(shape) && Few(steps, 2, |Elements()|)
    {
      var node := root;
      res, steps := null, 0;
      ghost var c, t := Top, shape;
      while node != null
        invariant At(nodes, c, t) && node == RootNode(t) && Plug(c, t) == shape
        invariant AllBelow(fn, arg, Before(c)) && AllAbove(fn, arg, After(c))
        invariant res == if After(c) == [] then null else After(c)[0]
        invariant steps == CtxDepth(c)
        decreases t
      {
        Peek(nodes, c, t);
        Descend(fn, arg, c, t);
        steps := steps + 1;
        if fn(arg, node.key) {
          res := node;
          FocusLeft(nodes, c, t);
          c, t := InLeft(c, t.node, t.bal, t.right), t.left;
          node := node.left;
        } else {
          FocusRight(nodes, c, t);
          c, t := InRight(t.left, t.node, t.bal, c), t.right;
          node := node.right;
        }
      }
      ClimbBound(c, t);
      FewSteps(shape, steps, 2);
      BoundFound(fn, arg, c);
    }

    method LowerBound(k: Key) returns (res: Node?, ghost steps: nat)
      requires Valid() && Ordered()
      ensures var i := Slot(cmp, k, Elements());
        res == if i < |Elements()| then Elements()[i] else null
      ensures steps <= Height(shape) && Few(steps, 2, |Elements()|)
    {
      SortedMonotone(cmp, k, Elements());
      res, steps := LowerBoundFn(k, cmp);
    }

    /** `debug_avl_tree_is_balanced`: for any well-linked tree, tells whether it is an AVL tree with
        the right balances stored. */
    method DebugIsBalanced() returns (ok: bool)
      requires root == RootNode(shape) && At(nodes, Top, shape)
      ensures ok <==> Valid()
    {
      ok := IsBalancedSize(root, nodes, shape, null).0;
    }

    lemma AtIndex(i: nat)
      requires Valid() && i < |Elements()|
      ensures Index(Elements()[i]) == i
    {
      DistinctInorder(shape);
      IndexAt(Elements(), i);
    }
  }

  // ---------------------------------------------------------------- helpers

  predicate Equal(cmp: (Key, Key) -> bool, a: Key, b: Key)
  {
    cmp(a, b) && cmp(b, a)
  }

  /** Every element of `s` is above `k`, and not equal to it. */
  ghost predicate AllStrict(cmp: (Key, Key) -> bool, k: Key, s: seq<Node>)
  {
    forall e :: e in s ==> !cmp(e.key, k)
  }

  lemma FindLeft(cmp: (Key, Key) -> bool, k: Key, c: Ctx, t: Shape)
    requires TotalPreorder(cmp) && t.Branch? && Sorted(cmp, Inorder(Plug(c, t)))
    requires !cmp(t.node.key, k) && AllStrict(cmp, k, After(c))
    ensures AllStrict(cmp, k, After(InLeft(c, t.node, t.bal, t.right)))
  {
    PlugInorder(c, t);
    var s := Before(c) + Inorder(t) + After(c);
    var i := |Before(c)| + |Inorder(t.left)|;
    assert s[i] == t.node;
    forall j | 0 <= j < |Inorder(t.right)| ensures !cmp(Inorder(t.right)[j].key, k) {
      assert s[i + 1 + j] == Inorder(t.right)[j];
    }
  }

  /** `avl_tree_is_balanced_size`. */
  function IsBalancedSize(node: Node?, ghost S: set<Node>, ghost t: Shape, ghost p: Node?): (r: (bool, nat))
    requires Links(Snap(S), t, p) && node == RootNode(t)
    reads S
    ensures r.1 == Height(t) && (r.0 <==> Avl(t))
    decreases t
  {
    if node == null then (true, 0)
    else
      assert node in S && Snap(S)[node] == node.Fields();
      var (okLeft, a) := IsBalancedSize(node.left, S, t.left, node);
      var (okRight, b) := IsBalancedSize(node.right, S, t.right, node);
      var ok := okLeft && okRight;
      if a < b then (ok && b - a == 1 && node.balance == 1, b + 1)
      else if a == b then (ok && node.balance == 0, a + 1)
      else (ok && a - b == 1 && node.balance == -1, a + 1)
  }

  lemma ReplacedAvl(c: Ctx, t: Shape, n: Node)
    requires t.Branch? && Avl(Plug(c, t))
    ensures Avl(Plug(c, t.(node := n)))
  {
    PlugAvl(c, t);
    PlugAvl(c, t.(node := n));
  }

  lemma ReplacedRoot(c: Ctx, t: Shape, n: Node)
    requires t.Branch?
    ensures RootNode(Plug(c, t.(node := n))) == (if c.Top? then n else RootNode(Plug(c, t)))
  {
    PlugRoot(c, t);
    PlugRoot(c, t.(node := n));
  }

  /** The whole tree after `t`'s root was replaced by `n`. */
  lemma ReplacedShape(S: set<Node>, c: Ctx, t: Shape, n: Node)
    requires t.Branch? && Avl(Plug(c, t)) && At(S, c, t.(node := n))
    ensures var sh := Plug(c, t.(node := n));
      && At(S, Top, sh) && Avl(sh) && Pos(c, t) < |Inorder(Plug(c, t))|
      && Inorder(sh) == Inorder(Plug(c, t))[Pos(c, t) := n]
      && RootNode(sh) == (if c.Top? then n else RootNode(Plug(c, t)))
  {
    Unfocus(S, c, t.(node := n));
    ReplacedAvl(c, t, n);
    ReplacedRoot(c, t, n);
    ReplacedOrder(c, t, n);
  }

  lemma RootOnlyAtTop(c: Ctx, t: Shape)
    requires t.Branch? && Apart(c, t)
    ensures RootNode(Plug(c, t)) == t.node <==> c.Top?
  {
    PlugRoot(c, t);
    if !c.Top? { OuterInside(c); OuterAny(c, t.node); }
  }

  lemma ReplacedOrder(c: Ctx, t: Shape, n: Node)
    requires t.Branch?
    ensures Pos(c, t) < |Inorder(Plug(c, t))|
    ensures Inorder(Plug(c, t.(node := n))) == Inorder(Plug(c, t))[Pos(c, t) := n]
  {
    PlugInorder(c, t);
    PlugInorder(c, t.(node := n));
    ElementAt(c, t);
    UpdateMiddle(Before(c), Inorder(t.left), t.node, n, Inorder(t.right), After(c));
  }

  lemma UpdateMiddle(a: seq<Node>, b: seq<Node>, x: Node, y: Node, d: seq<Node>, e: seq<Node>)
    ensures a + (b + [y] + d) + e == (a + (b + [x] + d) + e)[|a| + |b| := y]
  {
  }

  lemma WithoutSorted(cmp: (Key, Key) -> bool, s: seq<Node>, n: Node)
    requires Sorted(cmp, s) && n in s
    ensures Sorted(cmp, Without(s, n))
  {
  }

  lemma ReplaceSorted(cmp: (Key, Key) -> bool, s: seq<Node>, i: nat, n: Node)
    requires TotalPreorder(cmp) && Sorted(cmp, s) && i < |s| && Equal(cmp, s[i].key, n.key)
    ensures Sorted(cmp, s[i := n])
  {
  }

  /** A walk that has visited `k` nodes and is at the next one, or at the end. */
  ghost predicate WalkAt(s: seq<Node>, d: seq<nat>, k: nat, node: Node?, total: nat)
    requires |d| == |s| > 0
  {
    if k < |s| then node == s[k] && total == d[0] + Tour(d[..k + 1])
    else node == null && total == 2 * |s| - 1
  }

  lemma WalkStep(sh: Shape, s: seq<Node>, d: seq<nat>, k: nat, next: nat, node: Node?, total: nat, steps: nat)
    requires s == Inorder(sh) && d == Depths(sh, 0) && k < |s| && next == k + 1
    requires d[0] + Tour(d) + d[|d| - 1] == 2 * (|s| - 1)
    requires WalkAt(s, d, k, s[k], total) && Moved(sh, k, next, node, steps)
    ensures WalkAt(s, d, next, node, total + steps)
  {
    TourGrows(d, k);
  }

  lemma TakeNext(s: seq<Node>, k: nat, next: nat)
    requires k < |s| && next == k + 1
    ensures s[..next] == s[..k] + [s[k]]
  {
  }

  lemma TourGrows(d: seq<nat>, i: nat)
    requires i < |d|
    ensures i + 1 < |d| ==> Tour(d[..i + 2]) == Tour(d[..i + 1]) + Dist(d[i], d[i + 1])
    ensures i + 1 == |d| ==> d[..i + 1] == d
  {
    if i + 1 < |d| {
      assert d[..i + 2][..i + 1] == d[..i + 1];
    }
  }
}
