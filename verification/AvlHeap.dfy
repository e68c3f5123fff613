/** The pointer fields of the intrusive AVL tree of Pal/lib/avl_tree.c: links, rotations and the
    rebalancing loop, each with its effect on the ghost shape. */
module AvlHeap {
  import opened AvlShape

  // ---------------------------------------------------------------- shapes in the heap

  type Store = map<Node, Cell>

  /** A picture of the heap, restricted to the nodes `S`. */
  ghost function Snap(S: set<Node>): Store
    reads S
  {
    map n | n in S :: n.Fields()
  }

  /** The fields the root of `t` has when `t` hangs below `p`. */
  function RootCell(t: Shape, p: Node?): Cell
    requires t.Branch?
  {
    Cell(RootNode(t.left), RootNode(t.right), p, t.bal)
  }

  /** The parent of whatever fills the hole, when `q` is the parent of the outermost node. */
  function HoleParent(c: Ctx, q: Node?): Node?
  {
    if c.Top? then q else c.node
  }

  /** The fields of the node around the hole when the hole points to `x`. */
  function HoleCell(c: Ctx, x: Node?, q: Node?): Cell
    requires !c.Top?
  {
    match c
    case InLeft(up, _, b, r) => Cell(x, RootNode(r), HoleParent(up, q), b)
    case InRight(l, _, b, up) => Cell(RootNode(l), x, HoleParent(up, q), b)
  }

  ghost predicate RootAt(m: Store, t: Shape, p: Node?)
  {
    t.Branch? ==> t.node in m && m[t.node] == RootCell(t, p)
  }

  ghost predicate HoleAt(m: Store, c: Ctx, x: Node?, q: Node?)
  {
    !c.Top? ==> c.node in m && m[c.node] == HoleCell(c, x, q)
  }

  /** The heap holds shape `t` below parent `p`: child, parent and balance fields all agree. */
  ghost predicate Links(m: Store, t: Shape, p: Node?)
  {
    RootAt(m, t, p) && (t.Branch? ==> Links(m, t.left, t.node) && Links(m, t.right, t.node))
  }

  /** The heap holds context `c` below parent `q`, with its hole pointing to `x`. */
  ghost predicate Hang(m: Store, c: Ctx, x: Node?, q: Node?)
  {
    && HoleAt(m, c, x, q)
    && match c
       case Top => true
       case InLeft(up, n, b, r) => Links(m, r, n) && Hang(m, up, n, q)
       case InRight(l, n, b, up) => Links(m, l, n) && Hang(m, up, n, q)
  }

  lemma {:induction false} PlugLinks(m: Store, c: Ctx, t: Shape, q: Node?)
    ensures Links(m, Plug(c, t), q) <==>
            Links(m, t, HoleParent(c, q)) && Hang(m, c, RootNode(t), q)
  {
    match c
    case Top =>
    case InLeft(up, n, b, r) => PlugLinks(m, up, Branch(t, n, b, r), q);
    case InRight(l, n, b, up) => PlugLinks(m, up, Branch(l, n, b, t), q);
  }

  // ---------------------------------------------------------------- framing

  /** `m'` differs from `m` at most on the nodes `W`. */
  ghost predicate AgreeOff(m: Store, m': Store, W: set<Node>)
  {
    forall n :: n in m && n !in W ==> n in m' && m'[n] == m[n]
  }

  lemma {:induction false} Untouched(m: Store, m': Store, W: set<Node>, t: Shape, p: Node?)
    requires Links(m, t, p) && AgreeOff(m, m', W) && Nodes(t) !! W
    ensures Links(m', t, p)
  {
    if t.Branch? {
      Untouched(m, m', W, t.left, t.node);
      Untouched(m, m', W, t.right, t.node);
    }
  }

  lemma {:induction false} CtxUntouched(m: Store, m': Store, W: set<Node>, c: Ctx, x: Node?, q: Node?)
    requires Hang(m, c, x, q) && AgreeOff(m, m', W) && CtxNodes(c) !! W
    ensures Hang(m', c, x, q)
  {
    match c
    case Top =>
    case InLeft(up, n, b, r) =>
      Untouched(m, m', W, r, n);
      CtxUntouched(m, m', W, up, n, q);
    case InRight(l, n, b, up) =>
      Untouched(m, m', W, l, n);
      CtxUntouched(m, m', W, up, n, q);
  }

  function Ref(n: Node?): set<Node>
  {
    if n == null then {} else {n}
  }

  /** A subtree of which at most the root was written, and which now hangs below `p`. */
  lemma Reparent(m: Store, m': Store, W: set<Node>, t: Shape, p0: Node?, p: Node?)
    requires Links(m, t, p0) && Distinct(t)
    requires AgreeOff(m, m', W) && Nodes(t) * W <= Ref(RootNode(t)) && RootAt(m', t, p)
    ensures Links(m', t, p)
  {
    if t.Branch? {
      Untouched(m, m', W, t.left, t.node);
      Untouched(m, m', W, t.right, t.node);
    }
  }

  /** A context of which at most the node around the hole was written, and now points to `x`. */
  lemma Retarget(m: Store, m': Store, W: set<Node>, c: Ctx, x0: Node?, x: Node?, q: Node?)
    requires Hang(m, c, x0, q) && CtxDistinct(c)
    requires AgreeOff(m, m', W) && CtxNodes(c) * W <= Ref(HoleParent(c, null)) && HoleAt(m', c, x, q)
    ensures Hang(m', c, x, q)
  {
    match c
    case Top =>
    case InLeft(up, n, b, r) =>
      Untouched(m, m', W, r, n);
      CtxUntouched(m, m', W, up, n, q);
    case InRight(l, n, b, up) =>
      Untouched(m, m', W, l, n);
      CtxUntouched(m, m', W, up, n, q);
  }

  // ---------------------------------------------------------------- links and rotations

  /** The fields of a node after the child `x` of it was replaced by `y`. */
  function Replace(c: Cell, x: Node?, y: Node?): Cell
  {
    if c.left == x then c.(left := y) else c.(right := y)
  }

  /** Replaces `oldNode` with `newNode` below `parent`. */
  method FixupLink(oldNode: Node?, newNode: Node?, parent: Node?)
    requires parent != null ==> parent.left == oldNode || parent.right == oldNode
    requires newNode == null || newNode != parent
    modifies Ref(parent), Ref(newNode)
    ensures parent != null ==> parent.Fields() == Replace(old(parent.Fields()), oldNode, newNode)
    ensures newNode != null ==> newNode.Fields() == old(newNode.Fields()).(parent := parent)
  {
    if parent != null {
      if parent.left == oldNode {
        parent.left := newNode;
      } else {
        assert parent.right == oldNode;
        parent.right := newNode;
      }
    }
    if newNode != null {
      newNode.parent := parent;
    }
  }

  /** Left rotation: `q` takes the place of its parent `p`. */
  method Rot1L(q: Node, p: Node)
    requires p != q && q.left != p && q.left != q && p.parent != q && p.parent != p
    requires p.parent != null ==> p.parent != q.left && (p.parent.left == p || p.parent.right == p)
    requires q.parent == p && p.right == q
    requires q.balance == 1 || q.balance == 0
    requires p.balance == 2
    modifies p, q, Ref(q.left), Ref(p.parent)
    ensures old(p.parent) != null ==>
      old(p.parent).Fields() == Replace(old(p.parent.Fields()), p, q)
    ensures old(q.left) != null ==> old(q.left).Fields() == old(q.left.Fields()).(parent := p)
    ensures old(q.balance) == 1 ==>
      && p.Fields() == Cell(old(p.left), old(q.left), q, 0)
      && q.Fields() == Cell(p, old(q.right), old(p.parent), 0)
    ensures old(q.balance) == 0 ==>
      && p.Fields() == Cell(old(p.left), old(q.left), q, 1)
      && q.Fields() == Cell(p, old(q.right), old(p.parent), -1)
  {
    FixupLink(p, q, p.parent);

    p.right := q.left;
    if q.left != null {
      q.left.parent := p;
    }

    q.left := p;
    p.parent := q;

    if q.balance == 1 {
      p.balance := 0;
      q.balance := 0;
    } else {
      p.balance := 1;
      q.balance := -1;
    }
  }

  /** Right rotation: `q` takes the place of its parent `p`. */
  method Rot1R(q: Node, p: Node)
    requires p != q && q.right != p && q.right != q && p.parent != q && p.parent != p
    requires p.parent != null ==> p.parent != q.right && (p.parent.left == p || p.parent.right == p)
    requires q.parent == p && p.left == q
    requires q.balance == -1 || q.balance == 0
    requires p.balance == -2
    modifies p, q, Ref(q.right), Ref(p.parent)
    ensures old(p.parent) != null ==>
      old(p.parent).Fields() == Replace(old(p.parent.Fields()), p, q)
    ensures old(q.right) != null ==> old(q.right).Fields() == old(q.right.Fields()).(parent := p)
    ensures old(q.balance) == -1 ==>
      && p.Fields() == Cell(old(q.right), old(p.right), q, 0)
      && q.Fields() == Cell(old(q.left), p, old(p.parent), 0)
    ensures old(q.balance) == 0 ==>
      && p.Fields() == Cell(old(q.right), old(p.right), q, -1)
      && q.Fields() == Cell(old(q.left), p, old(p.parent), 1)
  {
    FixupLink(p, q, p.parent);

    p.left := q.right;
    if q.right != null {
      q.right.parent := p;
    }

    q.right := p;
    p.parent := q;

    if q.balance == -1 {
      p.balance := 0;
      q.balance := 0;
    } else {
      p.balance := -1;
      q.balance := 1;
    }
  }

  /** The two grandchildren that change parents in a double rotation are other nodes than the
      three rotated ones and the parent above them. */
  ghost predicate Outside(x: Node?, p: Node, q: Node, r: Node)
    reads p
  {
    x != p && x != q && x != r && (x == null || x != p.parent)
  }

  /** The balances after a double rotation; `lo` and `hi` are now the children of `r`. */
  method Rot2Balances(lo: Node, r: Node, hi: Node)
    requires lo != r && r != hi && lo != hi
    modifies lo`balance, r`balance, hi`balance
    ensures lo.balance == (if old(r.balance) == 1 then -1 else 0)
    ensures hi.balance == (if old(r.balance) == -1 then 1 else 0)
    ensures r.balance == 0
    requires -1 <= r.balance <= 1
  {
    if r.balance == -1 {
      lo.balance := 0;
      hi.balance := 1;
    } else if r.balance == 0 {
      lo.balance := 0;
      hi.balance := 0;
    } else {
      lo.balance := -1;
      hi.balance := 0;
    }
    r.balance := 0;
  }

  method Rot2RL(r: Node, q: Node, p: Node)
    requires p != q && p != r && q != r && p.parent != p && p.parent != q && p.parent != r
    requires p.parent != null ==> p.parent.left == p || p.parent.right == p
    requires Outside(r.left, p, q, r) && Outside(r.right, p, q, r)
    requires r.left != null ==> r.left != r.right
    requires q.parent == p && p.right == q && q.balance == -1 && p.balance == 2
    requires r.parent == q && q.left == r && -1 <= r.balance <= 1
    modifies p, q, r, Ref(r.left), Ref(r.right), Ref(p.parent)
    ensures old(p.parent) != null ==>
      old(p.parent).Fields() == Replace(old(p.parent.Fields()), p, r)
    ensures old(r.left) != null ==> old(r.left).Fields() == old(r.left.Fields()).(parent := p)
    ensures old(r.right) != null ==> old(r.right).Fields() == old(r.right.Fields()).(parent := q)
    ensures p.Fields() == Cell(old(p.left), old(r.left), r, if old(r.balance) == 1 then -1 else 0)
    ensures q.Fields() == Cell(old(r.right), old(q.right), r, if old(r.balance) == -1 then 1 else 0)
    ensures r.Fields() == Cell(p, q, old(p.parent), 0)
  {
    FixupLink(p, r, p.parent);

    p.right := r.left;
    if r.left != null {
      r.left.parent := p;
    }

    q.left := r.right;
    if r.right != null {
      r.right.parent := q;
    }

    r.left := p;
    p.parent := r;

    r.right := q;
    q.parent := r;


    Rot2Balances(p, r, q);
  }

  method Rot2LR(r: Node, q: Node, p: Node)
    requires p != q && p != r && q != r && p.parent != p && p.parent != q && p.parent != r
    requires p.parent != null ==> p.parent.left == p || p.parent.right == p
    requires Outside(r.left, p, q, r) && Outside(r.right, p, q, r)
    requires r.left != null ==> r.left != r.right
    requires q.parent == p && p.left == q && q.balance == 1 && p.balance == -2
    requires r.parent == q && q.right == r && -1 <= r.balance <= 1
    modifies p, q, r, Ref(r.left), Ref(r.right), Ref(p.parent)
    ensures old(p.parent) != null ==>
      old(p.parent).Fields() == Replace(old(p.parent.Fields()), p, r)
    ensures old(r.left) != null ==> old(r.left).Fields() == old(r.left.Fields()).(parent := q)
    ensures old(r.right) != null ==> old(r.right).Fields() == old(r.right.Fields()).(parent := p)
    ensures q.Fields() == Cell(old(q.left), old(r.left), r, if old(r.balance) == 1 then -1 else 0)
    ensures p.Fields() == Cell(old(r.right), old(p.right), r, if old(r.balance) == -1 then 1 else 0)
    ensures r.Fields() == Cell(q, p, old(p.parent), 0)
  {
    FixupLink(p, r, p.parent);

    q.right := r.left;
    if r.left != null {
      r.left.parent := q;
    }

    p.left := r.right;
    if r.right != null {
      r.right.parent := p;
    }

    r.left := q;
    q.parent := r;

    r.right := p;
    p.parent := r;


    Rot2Balances(q, r, p);
  }

  // ---------------------------------------------------------------- rotations on shapes

  /** The heap holds `t` inside `c`, as one tree. */
  ghost predicate Held(m: Store, c: Ctx, t: Shape)
  {
    Links(m, t, HoleParent(c, null)) && Hang(m, c, RootNode(t), null)
  }

  /** The nodes a single rotation writes. */
  function Rot1Writes(c: Ctx, p: Node, q: Node, b: Shape): set<Node>
  {
    {p, q} + Ref(RootNode(b)) + Ref(HoleParent(c, null))
  }

  lemma Rot1LShape(m: Store, m': Store, c: Ctx, a: Shape, p: Node, b: Shape, q: Node, qb: int, d: Shape)
    requires var t := Branch(a, p, 2, Branch(b, q, qb, d)); Held(m, c, t) && Apart(c, t)
    requires AgreeOff(m, m', Rot1Writes(c, p, q, b))
    requires var t' := AvlShape.Rot1L(a, p, b, q, qb, d);
      RootAt(m', t', HoleParent(c, null)) && RootAt(m', t'.left, q)
    requires RootAt(m', b, p) && HoleAt(m', c, q, null)
    ensures Held(m', c, AvlShape.Rot1L(a, p, b, q, qb, d))
  {
    var t := Branch(a, p, 2, Branch(b, q, qb, d));
    var W := Rot1Writes(c, p, q, b);
    assert Links(m, t.right, p) && Distinct(t.right);
    Untouched(m, m', W, a, p);
    Reparent(m, m', W, b, q, p);
    Untouched(m, m', W, d, q);
    Retarget(m, m', W, c, p, q, null);
  }

  lemma Rot1RShape(m: Store, m': Store, c: Ctx, a: Shape, q: Node, qb: int, b: Shape, p: Node, d: Shape)
    requires var t := Branch(Branch(a, q, qb, b), p, -2, d); Held(m, c, t) && Apart(c, t)
    requires AgreeOff(m, m', Rot1Writes(c, p, q, b))
    requires var t' := AvlShape.Rot1R(a, q, qb, b, p, d);
      RootAt(m', t', HoleParent(c, null)) && RootAt(m', t'.right, q)
    requires RootAt(m', b, p) && HoleAt(m', c, q, null)
    ensures Held(m', c, AvlShape.Rot1R(a, q, qb, b, p, d))
  {
    var t := Branch(Branch(a, q, qb, b), p, -2, d);
    var W := Rot1Writes(c, p, q, b);
    assert Links(m, t.left, p) && Distinct(t.left);
    Untouched(m, m', W, a, q);
    Reparent(m, m', W, b, q, p);
    Untouched(m, m', W, d, p);
    Retarget(m, m', W, c, p, q, null);
  }

  /** The subtree before a double rotation, and the four subtrees that it keeps. */
  function Zigzag(side: Side, a: Shape, lo: Node, r: Shape, hi: Node, d: Shape): Shape
  {
    if side.LEFT? then Branch(Branch(a, lo, 1, r), hi, -2, d)
    else Branch(a, lo, 2, Branch(r, hi, -1, d))
  }

  /** The nodes a double rotation writes. */
  function Rot2Writes(c: Ctx, lo: Node, r: Shape, hi: Node): set<Node>
    requires r.Branch?
  {
    {lo, r.node, hi} + Ref(RootNode(r.left)) + Ref(RootNode(r.right)) + Ref(HoleParent(c, null))
  }

  lemma Rot2Shape(m: Store, m': Store, c: Ctx, side: Side, a: Shape, lo: Node, r: Shape, hi: Node, d: Shape)
    requires r.Branch?
    requires var t := Zigzag(side, a, lo, r, hi, d); Held(m, c, t) && Apart(c, t)
    requires AgreeOff(m, m', Rot2Writes(c, lo, r, hi))
    requires var t' := Rot2(a, lo, r.left, r.node, r.bal, r.right, hi, d);
      && RootAt(m', t', HoleParent(c, null))
      && RootAt(m', t'.left, r.node) && RootAt(m', t'.right, r.node)
    requires RootAt(m', r.left, lo) && RootAt(m', r.right, hi) && HoleAt(m', c, r.node, null)
    ensures Held(m', c, Rot2(a, lo, r.left, r.node, r.bal, r.right, hi, d))
  {
    var t := Zigzag(side, a, lo, r, hi, d);
    ZigzagParts(c, side, a, lo, r, hi, d);
    assert Links(m, if side.LEFT? then t.left else t.right, t.node);
    assert Links(m, r, if side.LEFT? then lo else hi);
    Rot2Kept(m, m', a, lo, r, hi, d, Rot2Writes(c, lo, r, hi));
    Retarget(m, m', Rot2Writes(c, lo, r, hi), c, t.node, r.node, null);
  }

  lemma Rot2Kept(m: Store, m': Store, a: Shape, lo: Node, r: Shape, hi: Node, d: Shape, W: set<Node>)
    requires r.Branch? && Distinct(r)
    requires Links(m, a, lo) && Links(m, d, hi)
    requires Links(m, r.left, r.node) && Links(m, r.right, r.node)
    requires AgreeOff(m, m', W)
    requires Nodes(a) !! W && Nodes(d) !! W
    requires Nodes(r.left) * W <= Ref(RootNode(r.left))
    requires Nodes(r.right) * W <= Ref(RootNode(r.right))
    requires RootAt(m', r.left, lo) && RootAt(m', r.right, hi)
    ensures Links(m', a, lo) && Links(m', r.left, lo)
    ensures Links(m', r.right, hi) && Links(m', d, hi)
  {
    Untouched(m, m', W, a, lo);
    Reparent(m, m', W, r.left, r.node, lo);
    Reparent(m, m', W, r.right, r.node, hi);
    Untouched(m, m', W, d, hi);
  }

  lemma ZigzagParts(c: Ctx, side: Side, a: Shape, lo: Node, r: Shape, hi: Node, d: Shape)
    requires r.Branch? && Apart(c, Zigzag(side, a, lo, r, hi, d))
    ensures var W := Rot2Writes(c, lo, r, hi);
      && Nodes(a) !! W && Nodes(d) !! W
      && Nodes(r.left) * W <= Ref(RootNode(r.left))
      && Nodes(r.right) * W <= Ref(RootNode(r.right))
      && CtxNodes(c) * W <= Ref(HoleParent(c, null))
    ensures Distinct(r)
  {
    var t := Zigzag(side, a, lo, r, hi, d);
    var q := if side.LEFT? then t.left else t.right;
    assert Distinct(q) && Distinct(r);
    assert Nodes(t) == Nodes(a) + {lo} + Nodes(r) + {hi} + Nodes(d);
  }

  // ---------------------------------------------------------------- rebalancing

  /** The heap holds `t` inside `c`, and `S` is the set of all their nodes. */
  ghost predicate At(S: set<Node>, c: Ctx, t: Shape)
    reads S
  {
    S == CtxNodes(c) + Nodes(t) && Apart(c, t) && Held(Snap(S), c, t)
  }

  /** Replacing a subtree by one with the same nodes in the same order. */
  lemma SameOrder(c: Ctx, t: Shape, t': Shape)
    requires Apart(c, t) && Inorder(t') == Inorder(t)
    ensures Apart(c, t') && Nodes(t') == Nodes(t)
  {
    DistinctInorder(t);
    DistinctInorder(t');
    NodesInorder(t);
    NodesInorder(t');
  }

  lemma FocusLeft(S: set<Node>, c: Ctx, t: Shape)
    requires t.Branch?
    ensures At(S, c, t) <==> At(S, InLeft(c, t.node, t.bal, t.right), t.left)
  {
  }

  lemma FocusRight(S: set<Node>, c: Ctx, t: Shape)
    requires t.Branch?
    ensures At(S, c, t) <==> At(S, InRight(t.left, t.node, t.bal, c), t.right)
  {
  }

  lemma FocusUp(S: set<Node>, c: Ctx, t: Shape)
    requires !c.Top?
    ensures At(S, c, t) <==> At(S, c.up, ParentShape(c, t))
  {
    if c.InLeft? {
      FocusLeft(S, c.up, ParentShape(c, t));
    } else {
      FocusRight(S, c.up, ParentShape(c, t));
    }
  }

  /** A focused tree is a tree. */
  lemma Unfocus(S: set<Node>, c: Ctx, t: Shape)
    ensures At(S, c, t) <==> At(S, Top, Plug(c, t))
    ensures At(S, c, t) ==> S == Nodes(Plug(c, t))
  {
    PlugLinks(Snap(S), c, t, null);
    PlugApart(c, t);
  }

  /** What the fields of a node, of its parent and of its children hold. */
  lemma Peek(S: set<Node>, c: Ctx, t: Shape)
    requires At(S, c, t) && t.Branch?
    ensures t.node in S && t.node.Fields() == RootCell(t, HoleParent(c, null))
    ensures t.left.Branch? ==> t.left.node in S && t.left.node.Fields() == RootCell(t.left, t.node)
    ensures t.right.Branch? ==> t.right.node in S && t.right.node.Fields() == RootCell(t.right, t.node)
    ensures !c.Top? ==> c.node in S && c.node.Fields() == HoleCell(c, t.node, null)
  {
    assert Links(Snap(S), t.left, t.node) && Links(Snap(S), t.right, t.node);
    assert t.left.Branch? ==> t.left.node in Nodes(t);
    assert t.right.Branch? ==> t.right.node in Nodes(t);
  }

  /** The four branches of `avl_tree_do_balance`, with their effect on the shape. */
  method BalanceR(node: Node, child: Node, ghost S: set<Node>, ghost c: Ctx, ghost t: Shape)
    requires At(S, c, t) && t.Branch? && t.node == node && t.bal == -2
    requires t.left.Branch? && t.left.node == child && -1 <= t.left.bal <= 0
    modifies S
    ensures Held(Snap(S), c, AvlShape.Rot1R(t.left.left, child, t.left.bal, t.left.right, node, t.right))
  {
    ghost var m := Snap(S);
    Peek(S, c, t);
    FocusLeft(S, c, t);
    Peek(S, InLeft(c, t.node, t.bal, t.right), t.left);
    Rot1R(child, node);
    Rot1RShape(m, Snap(S), c, t.left.left, child, t.left.bal, t.left.right, node, t.right);
  }

  method BalanceL(node: Node, child: Node, ghost S: set<Node>, ghost c: Ctx, ghost t: Shape)
    requires At(S, c, t) && t.Branch? && t.node == node && t.bal == 2
    requires t.right.Branch? && t.right.node == child && 0 <= t.right.bal <= 1
    modifies S
    ensures Held(Snap(S), c, AvlShape.Rot1L(t.left, node, t.right.left, child, t.right.bal, t.right.right))
  {
    ghost var m := Snap(S);
    Peek(S, c, t);
    FocusRight(S, c, t);
    Peek(S, InRight(t.left, t.node, t.bal, c), t.right);
    Rot1L(child, node);
    Rot1LShape(m, Snap(S), c, t.left, node, t.right.left, child, t.right.bal, t.right.right);
  }

  /** What a double rotation asserts on entry, and that its nodes are all different. */
  lemma Rot2Ready(S: set<Node>, c: Ctx, side: Side, a: Shape, lo: Node, r: Shape, hi: Node, d: Shape)
    requires r.Branch? && At(S, c, Zigzag(side, a, lo, r, hi, d))
    ensures var p, q := if side.LEFT? then hi else lo, if side.LEFT? then lo else hi;
      && {p, q, r.node} <= S && p != q && p != r.node && q != r.node
      && p.parent !in {p, q, r.node} && p.parent == HoleParent(c, null)
      && Outside(r.node.left, p, q, r.node) && Outside(r.node.right, p, q, r.node)
      && (r.node.left != null ==> r.node.left != r.node.right)
    ensures lo.balance == (if side.LEFT? then 1 else 2)
    ensures hi.balance == (if side.LEFT? then -2 else -1)
    ensures r.node.Fields() == RootCell(r, if side.LEFT? then lo else hi)
    ensures side.LEFT? ==> lo.Fields() == Cell(RootNode(a), r.node, hi, 1) && hi.left == lo && hi.right == RootNode(d)
    ensures side.RIGHT? ==> hi.Fields() == Cell(r.node, RootNode(d), lo, -1) && lo.right == hi && lo.left == RootNode(a)
    ensures !c.Top? ==> c.node in S && c.node.Fields() == HoleCell(c, if side.LEFT? then hi else lo, null)
    ensures r.left.Branch? ==> r.left.node in S && r.left.node.Fields() == RootCell(r.left, r.node)
    ensures r.right.Branch? ==> r.right.node in S && r.right.node.Fields() == RootCell(r.right, r.node)
  {
    var t := Zigzag(side, a, lo, r, hi, d);
    Peek(S, c, t);
    if side.LEFT? {
      var c1 := InLeft(c, hi, -2, d);
      FocusLeft(S, c, t);
      FocusRight(S, c1, t.left);
      Peek(S, InRight(a, lo, 1, c1), r);
    } else {
      var c1 := InRight(a, lo, 2, c);
      FocusRight(S, c, t);
      FocusLeft(S, c1, t.right);
      Peek(S, InLeft(c1, hi, -1, d), r);
    }
  }

  method BalanceLR(node: Node, child: Node, ghost S: set<Node>, ghost c: Ctx, ghost t: Shape)
    requires At(S, c, t) && t.Branch? && t.node == node && t.bal == -2
    requires t.left.Branch? && t.left.node == child && t.left.bal == 1
    requires t.left.right.Branch? && -1 <= t.left.right.bal <= 1
    modifies S
    ensures var r := t.left.right;
      Held(Snap(S), c, Rot2(t.left.left, child, r.left, r.node, r.bal, r.right, node, t.right))
  {
    ghost var m := Snap(S);
    Rot2Ready(S, c, LEFT, t.left.left, child, t.left.right, node, t.right);
    Rot2LR(child.right, child, node);
    Rot2Shape(m, Snap(S), c, LEFT, t.left.left, child, t.left.right, node, t.right);
  }

  method BalanceRL(node: Node, child: Node, ghost S: set<Node>, ghost c: Ctx, ghost t: Shape)
    requires At(S, c, t) && t.Branch? && t.node == node && t.bal == 2
    requires t.right.Branch? && t.right.node == child && t.right.bal == -1
    requires t.right.left.Branch? && -1 <= t.right.left.bal <= 1
    modifies S
    ensures var r := t.right.left;
      Held(Snap(S), c, Rot2(t.left, node, r.left, r.node, r.bal, r.right, child, t.right.right))
  {
    ghost var m := Snap(S);
    Rot2Ready(S, c, RIGHT, t.left, node, t.right.left, child, t.right.right);
    Rot2RL(child.left, child, node);
    Rot2Shape(m, Snap(S), c, RIGHT, t.left, node, t.right.left, child, t.right.right);
  }

  method DoBalance(node: Node, ghost S: set<Node>, ghost c: Ctx, ghost t: Shape)
    returns (newRoot: Node, changed: bool)
    requires Rotatable(t) && t.node == node
    requires At(S, c, t)
    modifies S
    ensures var (t', changed') := AvlShape.DoBalance(t);
      At(S, c, t') && newRoot == t'.node && changed == changed'
  {
    Peek(S, c, t);
    if node.balance < 0 {
      var child := node.left;
      if child.balance == 1 {
        FocusLeft(S, c, t);
        Peek(S, InLeft(c, t.node, t.bal, t.right), t.left);
        assert Avl(t.left.right);
        newRoot := child.right;
        BalanceLR(node, child, S, c, t);
        changed := true;
      } else {
        newRoot := child;
        changed := child.balance != 0;
        BalanceR(node, child, S, c, t);
      }
    } else {
      var child := node.right;
      if child.balance >= 0 {
        newRoot := child;
        changed := child.balance != 0;
        BalanceL(node, child, S, c, t);
      } else {
        FocusRight(S, c, t);
        Peek(S, InRight(t.left, t.node, t.bal, c), t.right);
        assert Avl(t.right.left);
        newRoot := child.left;
        BalanceRL(node, child, S, c, t);
        changed := true;
      }
    }
    DoBalanceKeepsOrder(t);
    SameOrder(c, t, AvlShape.DoBalance(t).0);
  }

  /** Writing only the balance of the focused node. */
  lemma Rebalanced(m: Store, m': Store, c: Ctx, l: Shape, n: Node, b: int, r: Shape, b': int)
    requires Held(m, c, Branch(l, n, b, r)) && Apart(c, Branch(l, n, b, r))
    requires AgreeOff(m, m', {n}) && n in m' && m'[n] == m[n].(balance := b')
    ensures Held(m', c, Branch(l, n, b', r)) && Apart(c, Branch(l, n, b', r))
  {
    Untouched(m, m', {n}, l, n);
    Untouched(m, m', {n}, r, n);
    CtxUntouched(m, m', {n}, c, n, null);
  }

  /** The new balance of a node, and whether the height of its subtree changed with it. */
  method AdjustBalance(node: Node, side: Side, heightIncreased: bool) returns (heightChanged: bool)
    modifies node`balance
    ensures (node.balance, heightChanged) == Adjust(old(node.balance), side, heightIncreased)
  {
    if side == LEFT {
      if heightIncreased {
        heightChanged := node.balance <= 0;
        node.balance := node.balance - 1;
      } else {
        heightChanged := node.balance < 0;
        node.balance := node.balance + 1;
      }
    } else {
      if heightIncreased {
        heightChanged := node.balance >= 0;
        node.balance := node.balance + 1;
      } else {
        heightChanged := node.balance > 0;
        node.balance := node.balance - 1;
      }
    }
  }

  /** One iteration of `avl_tree_balance`, up to the test for stopping. */
  method BalanceStep(node0: Node, side: Side, heightIncreased: bool,
                     ghost S: set<Node>, ghost c: Ctx, ghost l: Shape, ghost b: int, ghost r: Shape)
    returns (node: Node, heightChanged: bool)
    requires Pending(l, b, r, side, heightIncreased)
    requires At(S, c, Branch(l, node0, b, r))
    modifies S
    ensures var (t, changed) := Step(l, node0, b, r, side, heightIncreased);
      At(S, c, t) && node == t.node && heightChanged == changed
  {
    ghost var m := Snap(S);
    Peek(S, c, Branch(l, node0, b, r));
    node := node0;
    heightChanged := AdjustBalance(node, side, heightIncreased);
    ghost var t := Branch(l, node, node.balance, r);
    Rebalanced(m, Snap(S), c, l, node, b, r, node.balance);

    assert -2 <= node.balance <= 2;
    if node.balance == -2 || node.balance == 2 {
      node, heightChanged := DoBalance(node, S, c, t);
      heightChanged := if heightIncreased then false else heightChanged;
    }
  }

  /** The iteration seen from the whole tree. */
  method BalanceStepWhole(node0: Node, side: Side, heightIncreased: bool,
                          ghost S: set<Node>, ghost c: Ctx, ghost l: Shape, ghost b: int, ghost r: Shape)
    returns (node: Node, heightChanged: bool, ghost t: Shape)
    requires Pending(l, b, r, side, heightIncreased)
    requires CtxAvl(c, OldHeight(l, r, side, heightIncreased))
    requires At(S, c, Branch(l, node0, b, r))
    modifies S
    ensures Stepped(c, t, heightChanged, heightIncreased) && At(S, c, t) && t.Branch? && node == t.node
    ensures Inorder(Plug(c, t)) == Inorder(Plug(c, Branch(l, node0, b, r)))
  {
    StepWhole(c, l, node0, b, r, side, heightIncreased);
    t := Step(l, node0, b, r, side, heightIncreased).0;
    node, heightChanged := BalanceStep(node0, side, heightIncreased, S, c, l, b, r);
  }

  /** From a subtree that changed its height to the node above it. */
  method ClimbUp(node: Node, ghost inc: bool, ghost S: set<Node>, ghost c: Ctx, ghost t: Shape)
    returns (parent: Node, side: Side)
    requires At(S, c, t) && t.Branch? && node == t.node && Stepped(c, t, true, inc) && !c.Top?
    ensures var p := ParentShape(c, t);
      && parent == p.node && At(S, c.up, p) && Pending(p.left, p.bal, p.right, side, inc)
      && CtxAvl(c.up, OldHeight(p.left, p.right, side, inc))
  {
    Peek(S, c, t);
    SteppedPending(c, t, inc);
    FocusUp(S, c, t);
    ApartSides(c, t);
    parent := node.parent;
    side := if parent.left == node then LEFT else RIGHT;
  }

  /** The other child of the parent is another node. */
  lemma ApartSides(c: Ctx, t: Shape)
    requires !c.Top? && t.Branch? && Apart(c, t)
    ensures c.InRight? ==> RootNode(c.left) != t.node
  {
    assert c.InRight? && c.left.Branch? ==> c.left.node in CtxNodes(c);
  }

  /** `avl_tree_balance`. At the head of every iteration the child on `side` is the only subtree
      whose height differs, by one, from what the balances recorded; wherever the loop stops, the
      whole tree is balanced and its in-order sequence is what it was. */
  method Balance(start: Node, startSide: Side, heightIncreased: bool,
                 ghost S: set<Node>, ghost c0: Ctx, ghost l0: Shape, ghost b0: int, ghost r0: Shape)
    returns (node: Node, ghost c: Ctx, ghost t: Shape, ghost steps: nat)
    requires Pending(l0, b0, r0, startSide, heightIncreased)
    requires CtxAvl(c0, OldHeight(l0, r0, startSide, heightIncreased))
    requires At(S, c0, Branch(l0, start, b0, r0))
    modifies S
    ensures t.Branch? && node == t.node && At(S, c, t)
    ensures Avl(Plug(c, t))
    ensures Inorder(Plug(c, t)) == Inorder(Plug(c0, Branch(l0, start, b0, r0)))
    ensures !c.Top? ==> OuterNode(c, node) == OuterNode(c0, start)
    ensures steps <= CtxDepth(c0) + 1
  {
    var side := startSide;
    node, c, steps := start, c0, 0;
    ghost var l, b, r := l0, b0, r0;
    while true
      invariant Pending(l, b, r, side, heightIncreased)
      invariant CtxAvl(c, OldHeight(l, r, side, heightIncreased))
      invariant At(S, c, Branch(l, node, b, r))
      invariant Inorder(Plug(c, Branch(l, node, b, r))) == Inorder(Plug(c0, Branch(l0, start, b0, r0)))
      invariant OuterNode(c, node) == OuterNode(c0, start)
      invariant steps + CtxDepth(c) == CtxDepth(c0)
      decreases c
    {
      var heightChanged;
      steps := steps + 1;
      node, heightChanged, t := BalanceStepWhole(node, side, heightIncreased, S, c, l, b, r);
      Peek(S, c, t);
      if !heightChanged || node.parent == null {
        PlugAvl(c, t);
        return;
      }
      node, side := ClimbUp(node, heightIncreased, S, c, t);
      ghost var p := ParentShape(c, t);
      c, l, b, r := c.up, p.left, p.bal, p.right;
    }
  }
}
