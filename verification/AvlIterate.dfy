/** In-order traversal: `avl_tree_next`, `avl_tree_prev`, and the cost of walking a whole tree. */
module AvlIterate {
  import opened AvlShape
  import opened AvlHeap
  import opened AvlOrder

  // ---------------------------------------------------------------- positions and depths

  /** Where the focused node is in the in-order sequence. */
  function Pos(c: Ctx, t: Shape): nat
    requires t.Branch?
  {
    |Before(c)| + |Inorder(t.left)|
  }

  lemma ElementAt(c: Ctx, t: Shape)
    requires t.Branch?
    ensures Pos(c, t) < |Inorder(Plug(c, t))| && Inorder(Plug(c, t))[Pos(c, t)] == t.node
    ensures |Inorder(Plug(c, t))| == |Before(c)| + |Inorder(t)| + |After(c)|
  {
    PlugInorder(c, t);
    assert Inorder(t)[|Inorder(t.left)|] == t.node;
  }

  /** The way to a node from the root. */
  ghost function Locate(c: Ctx, t: Shape, n: Node): (f: Focus)
    requires n in Nodes(t)
    ensures f.Whole() == Plug(c, t) && f.tree.Branch? && f.tree.node == n
    decreases t
  {
    if n in Nodes(t.left) then Locate(InLeft(c, t.node, t.bal, t.right), t.left, n)
    else if n in Nodes(t.right) then Locate(InRight(t.left, t.node, t.bal, c), t.right, n)
    else Focus(c, t)
  }

  lemma FocusOn(S: set<Node>, sh: Shape, n: Node) returns (c: Ctx, t: Shape)
    requires At(S, Top, sh) && n in S
    ensures At(S, c, t) && Plug(c, t) == sh && t.Branch? && t.node == n
    ensures n in Inorder(sh) && NoDup(Inorder(sh)) && IndexOf(Inorder(sh), n) == Pos(c, t)
    ensures Depths(sh, 0)[Pos(c, t)] == CtxDepth(c)
  {
    var f := Locate(Top, sh, n);
    c, t := f.ctx, f.tree;
    Unfocus(S, c, t);
    Positioned(c, t);
  }

  lemma Positioned(c: Ctx, t: Shape)
    requires t.Branch? && Apart(c, t)
    ensures var s := Inorder(Plug(c, t));
      && NoDup(s) && t.node in s && IndexOf(s, t.node) == Pos(c, t)
      && Depths(Plug(c, t), 0)[Pos(c, t)] == CtxDepth(c)
  {
    PlugNoDup(c, t);
    ElementAt(c, t);
    IndexAt(Inorder(Plug(c, t)), Pos(c, t));
    DepthAt(c, t, |Inorder(t.left)|);
    assert Depths(t, CtxDepth(c))[|Inorder(t.left)|] == CtxDepth(c);
  }

  /** The focused node, by its position in the whole tree `sh`. */
  lemma Landed(sh: Shape, c: Ctx, t: Shape, i: nat)
    requires t.Branch? && Apart(c, t) && Plug(c, t) == sh && i == Pos(c, t)
    ensures i < |Inorder(sh)| && Inorder(sh)[i] == t.node && Depths(sh, 0)[i] == CtxDepth(c)
  {
    ElementAt(c, t);
    Positioned(c, t);
  }

  lemma PlugNoDup(c: Ctx, t: Shape)
    requires Apart(c, t)
    ensures NoDup(Inorder(Plug(c, t)))
  {
    PlugApart(c, t);
    DistinctInorder(Plug(c, t));
  }

  /** The depth of every node, in order, when the root is at depth `d`. */
  function Depths(t: Shape, d: nat): (s: seq<nat>)
    ensures |s| == |Inorder(t)|
  {
    match t
    case Leaf => []
    case Branch(l, _, _, r) => Depths(l, d + 1) + [d] + Depths(r, d + 1)
  }

  lemma {:induction false} DepthAt(c: Ctx, t: Shape, i: nat)
    requires i < |Inorder(t)|
    ensures |Before(c)| + i < |Inorder(Plug(c, t))|
    ensures Depths(Plug(c, t), 0)[|Before(c)| + i] == Depths(t, CtxDepth(c))[i]
  {
    PlugInorder(c, t);
    match c
    case Top =>
    case InLeft(up, n, b, r) =>
      DepthAt(up, ParentShape(c, t), i);
    case InRight(l, n, b, up) =>
      DepthAt(up, ParentShape(c, t), |Inorder(l)| + 1 + i);
  }

  function Dist(a: int, b: int): nat
  {
    if a < b then b - a else a - b
  }

  /** `while (node->left) node = node->left`; `steps` counts the links followed. */
  method Leftmost(start: Node, ghost S: set<Node>, ghost c0: Ctx, ghost t0: Shape)
    returns (node: Node, ghost c: Ctx, ghost t: Shape, ghost steps: nat)
    requires At(S, c0, t0) && t0.Branch? && t0.node == start
    ensures t.Branch? && node == t.node && Apart(c, t) && Plug(c, t) == Plug(c0, t0)
    ensures t.left.Leaf? && Before(c) == Before(c0) && CtxDepth(c) == CtxDepth(c0) + steps
  {
    node, c, t, steps := start, c0, t0, 0;
    Peek(S, c, t);
    while node.left != null
      invariant At(S, c, t) && t.Branch? && node == t.node && Plug(c, t) == Plug(c0, t0)
      invariant node.left == RootNode(t.left)
      invariant Before(c) == Before(c0) && CtxDepth(c) == CtxDepth(c0) + steps
      decreases t
    {
      FocusLeft(S, c, t);
      c, t := InLeft(c, t.node, t.bal, t.right), t.left;
      node, steps := node.left, steps + 1;
      Peek(S, c, t);
    }
  }

  method Rightmost(start: Node, ghost S: set<Node>, ghost c0: Ctx, ghost t0: Shape)
    returns (node: Node, ghost c: Ctx, ghost t: Shape, ghost steps: nat)
    requires At(S, c0, t0) && t0.Branch? && t0.node == start
    ensures t.Branch? && node == t.node && Apart(c, t) && Plug(c, t) == Plug(c0, t0)
    ensures t.right.Leaf? && CtxDepth(c) == CtxDepth(c0) + steps
    ensures |Before(c)| + |Inorder(t)| == |Before(c0)| + |Inorder(t0)|
  {
    node, c, t, steps := start, c0, t0, 0;
    Peek(S, c, t);
    while node.right != null
      invariant At(S, c, t) && t.Branch? && node == t.node && Plug(c, t) == Plug(c0, t0)
      invariant node.right == RootNode(t.right)
      invariant |Before(c)| + |Inorder(t)| == |Before(c0)| + |Inorder(t0)|
      invariant CtxDepth(c) == CtxDepth(c0) + steps
      decreases t
    {
      FocusRight(S, c, t);
      c, t := InRight(t.left, t.node, t.bal, c), t.right;
      node, steps := node.right, steps + 1;
      Peek(S, c, t);
    }
  }

  /** A node is its parent's left or right child, as the shape says, and not both. */
  lemma HoleChild(S: set<Node>, c: Ctx, t: Shape)
    requires At(S, c, t) && t.Branch? && !c.Top?
    ensures c.node.left == t.node <==> c.InLeft?
    ensures c.node.right == t.node <==> c.InRight?
  {
    Peek(S, c, t);
    var sibling := if c.InLeft? then c.right else c.left;
    assert sibling.Branch? ==> sibling.node in CtxNodes(c);
  }

  /** The loop of `avl_tree_next` that climbs out of right children. */
  method ClimbRight(start: Node, ghost S: set<Node>, ghost c0: Ctx, ghost t0: Shape)
    returns (res: Node?, ghost c: Ctx, ghost t: Shape, ghost steps: nat)
    requires At(S, c0, t0) && t0.Branch? && t0.node == start
    ensures res == null ==> After(c0) == [] && steps == CtxDepth(c0) + 1
    ensures res != null ==>
      && t.Branch? && res == t.node && Apart(c, t) && Plug(c, t) == Plug(c0, t0)
      && Pos(c, t) == |Before(c0)| + |Inorder(t0)| && CtxDepth(c) == CtxDepth(c0) - steps
  {
    var node := start;
    c, t, steps := c0, t0, 0;
    Peek(S, c, t);
    while node.parent != null && node.parent.right == node
      invariant At(S, c, t) && t.Branch? && node == t.node && Plug(c, t) == Plug(c0, t0)
      invariant node.parent == HoleParent(c, null)
      invariant After(c) == After(c0) && CtxDepth(c) == CtxDepth(c0) - steps
      invariant |Before(c)| + |Inorder(t)| == |Before(c0)| + |Inorder(t0)|
      decreases c
    {
      HoleChild(S, c, t);
      FocusUp(S, c, t);
      c, t := c.up, ParentShape(c, t);
      node, steps := node.parent, steps + 1;
      Peek(S, c, t);
    }
    res, steps := node.parent, steps + 1;
    if res != null {
      HoleChild(S, c, t);
      FocusUp(S, c, t);
      c, t := c.up, ParentShape(c, t);
    }
  }

  /** The loop of `avl_tree_prev` that climbs out of left children. */
  method ClimbLeft(start: Node, ghost S: set<Node>, ghost c0: Ctx, ghost t0: Shape)
    returns (res: Node?, ghost c: Ctx, ghost t: Shape, ghost steps: nat)
    requires At(S, c0, t0) && t0.Branch? && t0.node == start
    ensures res == null ==> Before(c0) == [] && steps == CtxDepth(c0) + 1
    ensures res != null ==>
      && t.Branch? && res == t.node && Apart(c, t) && Plug(c, t) == Plug(c0, t0)
      && Pos(c, t) + 1 == |Before(c0)| && CtxDepth(c) == CtxDepth(c0) - steps
  {
    var node := start;
    c, t, steps := c0, t0, 0;
    Peek(S, c, t);
    while node.parent != null && node.parent.left == node
      invariant At(S, c, t) && t.Branch? && node == t.node && Plug(c, t) == Plug(c0, t0)
      invariant node.parent == HoleParent(c, null)
      invariant Before(c) == Before(c0) && CtxDepth(c) == CtxDepth(c0) - steps
      decreases c
    {
      HoleChild(S, c, t);
      FocusUp(S, c, t);
      c, t := c.up, ParentShape(c, t);
      node, steps := node.parent, steps + 1;
      Peek(S, c, t);
    }
    res, steps := node.parent, steps + 1;
    if res != null {
      HoleChild(S, c, t);
      FocusUp(S, c, t);
      c, t := c.up, ParentShape(c, t);
    }
  }

  /** `avl_tree_next`: the focus moves to the next position. */
  method NextNode(node: Node, ghost S: set<Node>, ghost c0: Ctx, ghost t0: Shape)
    returns (res: Node?, ghost c: Ctx, ghost t: Shape, ghost steps: nat)
    requires At(S, c0, t0) && t0.Branch? && t0.node == node
    ensures res == null ==>
      Pos(c0, t0) + 1 == |Inorder(Plug(c0, t0))| && steps == CtxDepth(c0) + 1
    ensures res != null ==>
      && t.Branch? && res == t.node && Apart(c, t) && Plug(c, t) == Plug(c0, t0)
      && Pos(c, t) == Pos(c0, t0) + 1 && steps == Dist(CtxDepth(c0), CtxDepth(c))
  {
    Peek(S, c0, t0);
    if node.right != null {
      FocusRight(S, c0, t0);
      res, c, t, steps := Leftmost(node.right, S, InRight(t0.left, node, t0.bal, c0), t0.right);
      steps := steps + 1;
    } else {
      ElementAt(c0, t0);
      res, c, t, steps := ClimbRight(node, S, c0, t0);
    }
  }

  /** `avl_tree_prev`. */
  method PrevNode(node: Node, ghost S: set<Node>, ghost c0: Ctx, ghost t0: Shape)
    returns (res: Node?, ghost c: Ctx, ghost t: Shape, ghost steps: nat)
    requires At(S, c0, t0) && t0.Branch? && t0.node == node
    ensures res == null ==> Pos(c0, t0) == 0 && steps == CtxDepth(c0) + 1
    ensures res != null ==>
      && t.Branch? && res == t.node && Apart(c, t) && Plug(c, t) == Plug(c0, t0)
      && Pos(c, t) + 1 == Pos(c0, t0) && steps == Dist(CtxDepth(c0), CtxDepth(c))
  {
    Peek(S, c0, t0);
    if node.left != null {
      FocusLeft(S, c0, t0);
      res, c, t, steps := Rightmost(node.left, S, InLeft(c0, node, t0.bal, t0.right), t0.left);
      steps := steps + 1;
    } else {
      res, c, t, steps := ClimbLeft(node, S, c0, t0);
    }
  }

  /** `res` and `steps` are what a move to position `j`, or off the end, must give. */
  ghost predicate Moved(sh: Shape, i: nat, j: int, res: Node?, steps: nat)
    requires i < |Inorder(sh)|
  {
    if 0 <= j < |Inorder(sh)| then
      res == Inorder(sh)[j] && steps == Dist(Depths(sh, 0)[i], Depths(sh, 0)[j])
    else
      res == null && steps == Depths(sh, 0)[i] + 1
  }

  method NextIn(node: Node, ghost S: set<Node>, ghost sh: Shape) returns (res: Node?, ghost steps: nat)
    requires At(S, Top, sh) && node in S
    ensures node in Inorder(sh)
    ensures var i := IndexOf(Inorder(sh), node); Moved(sh, i, i + 1, res, steps)
  {
    ghost var c0, t0 := FocusOn(S, sh, node);
    ghost var c, t;
    res, c, t, steps := NextNode(node, S, c0, t0);
    if res != null { Landed(sh, c, t, Pos(c, t)); }
  }

  method PrevIn(node: Node, ghost S: set<Node>, ghost sh: Shape) returns (res: Node?, ghost steps: nat)
    requires At(S, Top, sh) && node in S
    ensures node in Inorder(sh)
    ensures var i := IndexOf(Inorder(sh), node); Moved(sh, i, i - 1, res, steps)
  {
    ghost var c0, t0 := FocusOn(S, sh, node);
    ghost var c, t;
    res, c, t, steps := PrevNode(node, S, c0, t0);
    if res != null { Landed(sh, c, t, Pos(c, t)); }
  }

  // ---------------------------------------------------------------- the cost of a complete walk

  /** The links between consecutive nodes of a walk through these depths. */
  function Tour(s: seq<nat>): nat
  {
    if |s| < 2 then 0 else Tour(s[..|s| - 1]) + Dist(s[|s| - 2], s[|s| - 1])
  }

  lemma {:induction false} TourConcat(a: seq<nat>, b: seq<nat>)
    requires a != [] && b != []
    ensures Tour(a + b) == Tour(a) + Dist(a[|a| - 1], b[0]) + Tour(b)
  {
    var s := a + b;
    var b' := b[..|b| - 1];
    assert s[..|s| - 1] == a + b';
    if b' == [] {
      assert a + b' == a;
    } else {
      TourConcat(a, b');
    }
  }

  /** A walk that enters a subtree at its root and leaves it there goes down and up every link
      once. */
  lemma {:induction false} TourTwice(t: Shape, d: nat)
    requires t.Branch?
    ensures var s := Depths(t, d);
      && s != [] && s[0] >= d && s[|s| - 1] >= d
      && (s[0] - d) + Tour(s) + (s[|s| - 1] - d) == 2 * (|Inorder(t)| - 1)
  {
    var a, b := Depths(t.left, d + 1), Depths(t.right, d + 1);
    var s := a + [d] + b;
    if t.left.Branch? {
      TourTwice(t.left, d + 1);
      TourConcat(a, [d]);
    } else {
      assert a + [d] == [d];
    }
    if t.right.Branch? {
      TourTwice(t.right, d + 1);
      TourConcat(a + [d], b);
    } else {
      assert s == a + [d];
    }
  }
}
