/** Ghost shapes of the intrusive AVL tree and the rebalancing algorithm on them.

    A shape records, for every node object, its two subtrees and its stored `balance`.
    `AvlTree.dfy` ties shapes to the pointer fields of the heap. */
module AvlShape {

  /** The user's data a node is embedded in; only the tree's comparison looks at it. */
  type Key(!new)

  /** The four fields of a node at some moment. */
  datatype Cell = Cell(left: Node?, right: Node?, parent: Node?, balance: int)

  /** `struct avl_tree_node`, together with the key of the structure around it. */
  class Node {
    const key: Key
    var left: Node?
    var right: Node?
    var parent: Node?
    var balance: int

    constructor (key: Key)
      ensures this.key == key
    {
      this.key := key;
      left, right, parent, balance := null, null, null, 0;
    }

    ghost function Fields(): Cell
      reads this
    {
      Cell(left, right, parent, balance)
    }
  }

  datatype Shape = Leaf | Branch(left: Shape, node: Node, bal: int, right: Shape)

  /** A tree with one subtree missing, from the hole outwards: the chain of ancestors that
      climbing through `parent` visits. */
  datatype Ctx =
    | Top
    | InLeft(up: Ctx, node: Node, bal: int, right: Shape)
    | InRight(left: Shape, node: Node, bal: int, up: Ctx)

  /** A subtree together with everything around it. */
  datatype Focus = Focus(ctx: Ctx, tree: Shape) {
    function Whole(): Shape { Plug(ctx, tree) }
  }

  datatype Side = LEFT | RIGHT

  function Plug(c: Ctx, t: Shape): Shape
  {
    match c
    case Top => t
    case InLeft(up, n, b, r) => Plug(up, Branch(t, n, b, r))
    case InRight(l, n, b, up) => Plug(up, Branch(l, n, b, t))
  }

  /** How many ancestors the hole has. */
  function CtxDepth(c: Ctx): nat
  {
    if c.Top? then 0 else 1 + CtxDepth(c.up)
  }

  /** The subtree one level up from the hole when `t` fills it. */
  function ParentShape(c: Ctx, t: Shape): (p: Shape)
    requires !c.Top?
    ensures p.Branch? && Plug(c.up, p) == Plug(c, t)
  {
    match c
    case InLeft(_, n, b, r) => Branch(t, n, b, r)
    case InRight(l, n, b, _) => Branch(l, n, b, t)
  }

  function HoleSide(c: Ctx): Side
    requires !c.Top?
  {
    if c.InLeft? then LEFT else RIGHT
  }

  function RootNode(t: Shape): Node?
  {
    if t.Leaf? then null else t.node
  }

  function Max(a: int, b: int): int
  {
    if a < b then b else a
  }

  // ---------------------------------------------------------------- in-order sequence

  function Inorder(t: Shape): seq<Node>
  {
    match t
    case Leaf => []
    case Branch(l, n, _, r) => Inorder(l) + [n] + Inorder(r)
  }

  /** The nodes in order before the hole, and after it. */
  function Before(c: Ctx): seq<Node>
  {
    match c
    case Top => []
    case InLeft(up, _, _, _) => Before(up)
    case InRight(l, n, _, up) => Before(up) + Inorder(l) + [n]
  }

  function After(c: Ctx): seq<Node>
  {
    match c
    case Top => []
    case InLeft(up, n, _, r) => [n] + Inorder(r) + After(up)
    case InRight(_, _, _, up) => After(up)
  }

  lemma {:induction false} PlugInorder(c: Ctx, t: Shape)
    ensures Inorder(Plug(c, t)) == Before(c) + Inorder(t) + After(c)
  {
    match c
    case Top =>
    case InLeft(up, n, b, r) =>
      PlugInorder(up, Branch(t, n, b, r));
      RegroupLeft(Before(up), Inorder(t), n, Inorder(r), After(up));
    case InRight(l, n, b, up) =>
      PlugInorder(up, Branch(l, n, b, t));
      RegroupRight(Before(up), Inorder(l), n, Inorder(t), After(up));
  }

  lemma PlugSame(c: Ctx, t: Shape, t': Shape)
    requires Inorder(t) == Inorder(t')
    ensures Inorder(Plug(c, t)) == Inorder(Plug(c, t'))
  {
    PlugInorder(c, t);
    PlugInorder(c, t');
  }

  lemma RegroupLeft(a: seq<Node>, b: seq<Node>, n: Node, c: seq<Node>, d: seq<Node>)
    ensures a + (b + [n] + c) + d == a + b + ([n] + c + d)
  {
  }

  lemma RegroupRight(a: seq<Node>, b: seq<Node>, n: Node, c: seq<Node>, d: seq<Node>)
    ensures a + (b + [n] + c) + d == (a + b + [n]) + c + d
  {
  }

  // ---------------------------------------------------------------- distinct nodes

  function Nodes(t: Shape): set<Node>
  {
    match t
    case Leaf => {}
    case Branch(l, n, _, r) => Nodes(l) + {n} + Nodes(r)
  }

  function CtxNodes(c: Ctx): set<Node>
  {
    match c
    case Top => {}
    case InLeft(up, n, _, r) => CtxNodes(up) + {n} + Nodes(r)
    case InRight(l, n, _, up) => CtxNodes(up) + {n} + Nodes(l)
  }

  ghost predicate Distinct(t: Shape)
  {
    match t
    case Leaf => true
    case Branch(l, n, _, r) =>
      && Distinct(l) && Distinct(r)
      && n !in Nodes(l) && n !in Nodes(r) && Nodes(l) !! Nodes(r)
  }

  ghost predicate CtxDistinct(c: Ctx)
  {
    match c
    case Top => true
    case InLeft(up, n, _, r) =>
      && CtxDistinct(up) && Distinct(r)
      && n !in CtxNodes(up) && n !in Nodes(r) && CtxNodes(up) !! Nodes(r)
    case InRight(l, n, _, up) =>
      && CtxDistinct(up) && Distinct(l)
      && n !in CtxNodes(up) && n !in Nodes(l) && CtxNodes(up) !! Nodes(l)
  }

  /** Subtree and surroundings share no node. */
  ghost predicate Apart(c: Ctx, t: Shape)
  {
    Distinct(t) && CtxDistinct(c) && Nodes(t) !! CtxNodes(c)
  }

  lemma {:induction false} PlugApart(c: Ctx, t: Shape)
    ensures Nodes(Plug(c, t)) == CtxNodes(c) + Nodes(t)
    ensures Distinct(Plug(c, t)) <==> Apart(c, t)
  {
    match c
    case Top =>
    case InLeft(up, n, b, r) => PlugApart(up, Branch(t, n, b, r));
    case InRight(l, n, b, up) => PlugApart(up, Branch(l, n, b, t));
  }

  ghost predicate NoDup(s: seq<Node>)
  {
    forall i, j :: 0 <= i < j < |s| ==> s[i] != s[j]
  }

  ghost predicate SeqsApart(a: seq<Node>, b: seq<Node>)
  {
    forall x :: x in a ==> x !in b
  }

  lemma NoDupSplit(a: seq<Node>, n: Node, b: seq<Node>)
    ensures NoDup(a + [n] + b) <==>
      NoDup(a) && NoDup(b) && n !in a && n !in b && SeqsApart(a, b)
  {
    var s := a + [n] + b;
    if NoDup(s) {
      NoDupParts(a, n, b);
    } else {
      var i, j :| 0 <= i < j < |s| && s[i] == s[j];
      if j < |a| {
        assert a[i] == a[j];
      } else if i > |a| {
        assert b[i - |a| - 1] == b[j - |a| - 1];
      } else if i < |a| < j {
        assert a[i] in a && b[j - |a| - 1] in b;
      }
    }
  }

  lemma NoDupParts(a: seq<Node>, n: Node, b: seq<Node>)
    requires NoDup(a + [n] + b)
    ensures NoDup(a) && NoDup(b) && n !in a && n !in b
    ensures SeqsApart(a, b)
  {
    var s := a + [n] + b;
    assert s[|a|] == n;
    forall i, j | 0 <= i < j < |a| ensures a[i] != a[j] {
      assert s[i] == a[i] && s[j] == a[j];
    }
    forall i, j | 0 <= i < j < |b| ensures b[i] != b[j] {
      assert s[|a| + 1 + i] == b[i] && s[|a| + 1 + j] == b[j];
    }
    forall i | 0 <= i < |a| ensures a[i] != n && a[i] !in b {
      assert s[i] == a[i];
      forall j | 0 <= j < |b| ensures b[j] != a[i] {
        assert s[|a| + 1 + j] == b[j];
      }
    }
    forall i | 0 <= i < |b| ensures b[i] != n {
      assert s[|a| + 1 + i] == b[i];
    }
  }

  function SetOf(s: seq<Node>): set<Node>
  {
    set x | x in s
  }

  lemma {:induction false} NodesInorder(t: Shape)
    ensures Nodes(t) == SetOf(Inorder(t))
  {
    match t
    case Leaf =>
    case Branch(l, n, _, r) =>
      NodesInorder(l);
      NodesInorder(r);
  }

  lemma NodesApart(l: Shape, n: Node, r: Shape)
    ensures Nodes(l) !! Nodes(r) <==> SeqsApart(Inorder(l), Inorder(r))
    ensures n in Nodes(l) <==> n in Inorder(l)
    ensures n in Nodes(r) <==> n in Inorder(r)
  {
    NodesInorder(l);
    NodesInorder(r);
    if !(Nodes(l) !! Nodes(r)) {
      var x :| x in Nodes(l) && x in Nodes(r);
    }
  }

  /** A tree holds every node once exactly when its in-order sequence repeats none; so whatever
      keeps the sequence keeps the nodes distinct. */
  lemma {:induction false} DistinctInorder(t: Shape)
    ensures Distinct(t) <==> NoDup(Inorder(t))
  {
    match t
    case Leaf =>
    case Branch(l, n, _, r) =>
      DistinctInorder(l);
      DistinctInorder(r);
      NoDupSplit(Inorder(l), n, Inorder(r));
      NodesApart(l, n, r);
  }

  // ---------------------------------------------------------------- heights and balance

  function Height(t: Shape): nat
  {
    match t
    case Leaf => 0
    case Branch(l, _, _, r) => 1 + Max(Height(l), Height(r))
  }

  /** Every stored balance is height(right) - height(left) and is -1, 0 or 1. */
  ghost predicate Avl(t: Shape)
  {
    match t
    case Leaf => true
    case Branch(l, _, b, r) =>
      Avl(l) && Avl(r) && b == Height(r) - Height(l) && -1 <= b <= 1
  }

  /** Everything around the hole is balanced, provided an AVL tree of height `h` fills it. */
  ghost predicate CtxAvl(c: Ctx, h: int)
  {
    match c
    case Top => true
    case InLeft(up, _, b, r) =>
      Avl(r) && b == Height(r) - h && -1 <= b <= 1 && CtxAvl(up, 1 + Max(h, Height(r)))
    case InRight(l, _, b, up) =>
      Avl(l) && b == h - Height(l) && -1 <= b <= 1 && CtxAvl(up, 1 + Max(Height(l), h))
  }

  lemma {:induction false} PlugAvl(c: Ctx, t: Shape)
    ensures Avl(Plug(c, t)) <==> Avl(t) && CtxAvl(c, Height(t))
  {
    match c
    case Top =>
    case InLeft(up, n, b, r) => PlugAvl(up, Branch(t, n, b, r));
    case InRight(l, n, b, up) => PlugAvl(up, Branch(l, n, b, t));
  }

  // ---------------------------------------------------------------- rotations

  function Rot1L(a: Shape, p: Node, b: Shape, q: Node, qb: int, c: Shape): Shape
  {
    if qb == 1 then Branch(Branch(a, p, 0, b), q, 0, c)
    else Branch(Branch(a, p, 1, b), q, -1, c)
  }

  function Rot1R(a: Shape, q: Node, qb: int, b: Shape, p: Node, c: Shape): Shape
  {
    if qb == -1 then Branch(a, q, 0, Branch(b, p, 0, c))
    else Branch(a, q, 1, Branch(b, p, -1, c))
  }

  /** Both double rotations end in the same shape; `lo` and `hi` are the two nodes that become
      children of `r`. */
  function Rot2(a: Shape, lo: Node, b: Shape, r: Node, rb: int, c: Shape, hi: Node, d: Shape): Shape
  {
    Branch(Branch(a, lo, if rb == 1 then -1 else 0, b), r, 0,
           Branch(c, hi, if rb == -1 then 1 else 0, d))
  }

  /** What the code may assume of a node handed to `avl_tree_do_balance`. */
  ghost predicate Rotatable(t: Shape)
  {
    && t.Branch?
    && Avl(t.left) && Avl(t.right)
    && t.bal == Height(t.right) - Height(t.left)
    && (t.bal == 2 || t.bal == -2)
  }

  /** `avl_tree_do_balance`: the rotated subtree, and whether the code says its height changed.
      The height is unchanged only after a single rotation around an even child. */
  function DoBalance(t: Shape): (r: (Shape, bool))
    requires Rotatable(t)
    ensures r.0.Branch? && Avl(r.0)
    ensures Height(r.0) == Height(t) - (if r.1 then 1 else 0)
    ensures !r.1 ==> (if t.bal < 0 then t.left.bal == 0 else t.right.bal == 0)
  {
    if t.bal < 0 then
      var q := t.left;
      if q.bal == 1 then
        var r := q.right;
        assert Avl(q) && Avl(r);
        Rot2Avl(q.left, q.node, r.left, r.node, r.bal, r.right, t.node, t.right);
        (Rot2(q.left, q.node, r.left, r.node, r.bal, r.right, t.node, t.right), true)
      else
        (Rot1R(q.left, q.node, q.bal, q.right, t.node, t.right), q.bal != 0)
    else
      var q := t.right;
      if q.bal >= 0 then
        (Rot1L(t.left, t.node, q.left, q.node, q.bal, q.right), q.bal != 0)
      else
        var r := q.left;
        assert Avl(q) && Avl(r);
        Rot2Avl(t.left, t.node, r.left, r.node, r.bal, r.right, q.node, q.right);
        (Rot2(t.left, t.node, r.left, r.node, r.bal, r.right, q.node, q.right), true)
  }

  lemma Rot2Avl(a: Shape, lo: Node, b: Shape, r: Node, rb: int, c: Shape, hi: Node, d: Shape)
    requires Avl(a) && Avl(b) && Avl(c) && Avl(d)
    requires rb == Height(c) - Height(b) && -1 <= rb <= 1
    requires Height(a) == Height(d) == Max(Height(b), Height(c))
    ensures Avl(Rot2(a, lo, b, r, rb, c, hi, d))
    ensures Height(Rot2(a, lo, b, r, rb, c, hi, d)) == Height(a) + 2
  {
    assert Avl(Branch(a, lo, if rb == 1 then -1 else 0, b));
    assert Avl(Branch(c, hi, if rb == -1 then 1 else 0, d));
  }

  /** Every rotation keeps the in-order sequence. */
  lemma DoBalanceKeepsOrder(t: Shape)
    requires Rotatable(t)
    ensures Inorder(DoBalance(t).0) == Inorder(t)
  {
    if t.bal < 0 {
      var q := t.left;
      if q.bal == 1 {
        Rot2Order(q.left, q.node, q.right, t.node, t.right);
      } else {
        Regroup1(Inorder(q.left), q.node, Inorder(q.right), t.node, Inorder(t.right));
      }
    } else {
      var q := t.right;
      if q.bal >= 0 {
        Regroup1(Inorder(t.left), t.node, Inorder(q.left), q.node, Inorder(q.right));
      } else {
        Rot2Order(t.left, t.node, q.left, q.node, q.right);
      }
    }
  }

  lemma Rot2Order(a: Shape, lo: Node, r: Shape, hi: Node, d: Shape)
    requires r.Branch?
    ensures Inorder(Rot2(a, lo, r.left, r.node, r.bal, r.right, hi, d))
         == (Inorder(a) + [lo] + Inorder(r)) + [hi] + Inorder(d)
    ensures Inorder(Rot2(a, lo, r.left, r.node, r.bal, r.right, hi, d))
         == Inorder(a) + [lo] + (Inorder(r) + [hi] + Inorder(d))
  {
    var t := Rot2(a, lo, r.left, r.node, r.bal, r.right, hi, d);
    assert Inorder(t.left) == Inorder(a) + [lo] + Inorder(r.left);
    assert Inorder(t.right) == Inorder(r.right) + [hi] + Inorder(d);
    Regroup2(Inorder(a), lo, Inorder(r.left), r.node, Inorder(r.right), hi, Inorder(d));
  }

  lemma Regroup1(a: seq<Node>, x: Node, b: seq<Node>, y: Node, c: seq<Node>)
    ensures (a + [x] + b) + [y] + c == a + [x] + (b + [y] + c)
  {
  }

  lemma Regroup2(a: seq<Node>, x: Node, b: seq<Node>, y: Node, c: seq<Node>, z: Node, d: seq<Node>)
    ensures (a + [x] + b) + [y] + (c + [z] + d) == (a + [x] + (b + [y] + c)) + [z] + d
    ensures (a + [x] + b) + [y] + (c + [z] + d) == a + [x] + ((b + [y] + c) + [z] + d)
  {
  }

  // ---------------------------------------------------------------- climbing to the root

  function Delta(inc: bool): int
  {
    if inc then 1 else -1
  }

  /** Height of the subtree at a node before the child on `side` grew or shrank by one. */
  function OldHeight(l: Shape, r: Shape, side: Side, inc: bool): int
  {
    match side
    case LEFT => 1 + Max(Height(l) - Delta(inc), Height(r))
    case RIGHT => 1 + Max(Height(l), Height(r) - Delta(inc))
  }

  /** A subtree that has just grown is a single new node, or leans to one side. */
  ghost predicate Grown(t: Shape)
  {
    t.Branch? && (Height(t) == 1 || t.bal != 0)
  }

  /** The state at the head of each iteration of `avl_tree_balance`: both children are AVL trees,
      and the node's stored balance is right for them except that the child on `side` has since
      grown or shrunk by exactly one. */
  ghost predicate Pending(l: Shape, b: int, r: Shape, side: Side, inc: bool)
  {
    && Avl(l) && Avl(r) && -1 <= b <= 1
    && match side
       case LEFT => b == Height(r) - (Height(l) - Delta(inc)) && (inc ==> Grown(l))
       case RIGHT => b == (Height(r) - Delta(inc)) - Height(l) && (inc ==> Grown(r))
  }

  /** The new balance of the node, and whether the subtree's height changed with it. */
  function Adjust(b: int, side: Side, inc: bool): (int, bool)
  {
    if side.LEFT? then
      if inc then (b - 1, b <= 0) else (b + 1, b < 0)
    else
      if inc then (b + 1, b >= 0) else (b - 1, b > 0)
  }

  /** One iteration: the balanced subtree, and whether its height still differs from the old one.
      After an insertion a rotation is taken to restore the height; `Grown` is why that holds. */
  function Step(l: Shape, n: Node, b: int, r: Shape, side: Side, inc: bool): (res: (Shape, bool))
    requires Pending(l, b, r, side, inc)
    ensures res.0.Branch? && Avl(res.0)
    ensures Height(res.0) == OldHeight(l, r, side, inc) + (if res.1 then Delta(inc) else 0)
    ensures inc && res.1 ==> Grown(res.0)
  {
    var (b', changed) := Adjust(b, side, inc);
    if b' == 2 || b' == -2 then
      var (t, ret) := DoBalance(Branch(l, n, b', r));
      (t, if inc then false else ret)
    else
      (Branch(l, n, b', r), changed)
  }

  lemma StepKeepsOrder(l: Shape, n: Node, b: int, r: Shape, side: Side, inc: bool)
    requires Pending(l, b, r, side, inc)
    ensures Inorder(Step(l, n, b, r, side, inc).0) == Inorder(Branch(l, n, b, r))
  {
    var b' := Adjust(b, side, inc).0;
    if b' == 2 || b' == -2 {
      DoBalanceKeepsOrder(Branch(l, n, b', r));
    }
  }

  /** After an iteration: the subtree is balanced, and if its height changed it is the only one
      that differs from what its surroundings record. */
  ghost predicate Stepped(c: Ctx, t: Shape, changed: bool, inc: bool)
  {
    && Avl(t) && (inc && changed ==> Grown(t))
    && CtxAvl(c, Height(t) - (if changed then Delta(inc) else 0))
  }

  lemma StepWhole(c: Ctx, l: Shape, n: Node, b: int, r: Shape, side: Side, inc: bool)
    requires Pending(l, b, r, side, inc) && CtxAvl(c, OldHeight(l, r, side, inc))
    ensures var (t, changed) := Step(l, n, b, r, side, inc);
      Stepped(c, t, changed, inc) && Inorder(Plug(c, t)) == Inorder(Plug(c, Branch(l, n, b, r)))
  {
    StepKeepsOrder(l, n, b, r, side, inc);
    PlugSame(c, Step(l, n, b, r, side, inc).0, Branch(l, n, b, r));
  }

  /** The parent of a subtree that changed its height is in turn the next pending node. */
  lemma SteppedPending(c: Ctx, t: Shape, inc: bool)
    requires Stepped(c, t, true, inc) && !c.Top?
    ensures var p := ParentShape(c, t);
      && Pending(p.left, p.bal, p.right, HoleSide(c), inc)
      && CtxAvl(c.up, OldHeight(p.left, p.right, HoleSide(c), inc))
  {
    var h := Height(t) - Delta(inc);
    if c.InLeft? {
      UpLeft(c, h, OldHeight(t, c.right, LEFT, inc));
    } else {
      UpRight(c, h, OldHeight(c.left, t, RIGHT, inc));
    }
  }

  /** One level of a balanced context. */
  lemma UpLeft(c: Ctx, h: int, o: int)
    requires c.InLeft? && CtxAvl(c, h) && o == 1 + Max(h, Height(c.right))
    ensures Avl(c.right) && c.bal == Height(c.right) - h && -1 <= c.bal <= 1 && CtxAvl(c.up, o)
  {
  }

  lemma UpRight(c: Ctx, h: int, o: int)
    requires c.InRight? && CtxAvl(c, h) && o == 1 + Max(Height(c.left), h)
    ensures Avl(c.left) && c.bal == h - Height(c.left) && -1 <= c.bal <= 1 && CtxAvl(c.up, o)
  {
  }

  /** The root of the whole tree when `n` fills the hole. */
  function OuterNode(c: Ctx, n: Node?): Node?
  {
    if c.Top? then n else OuterNode(c.up, c.node)
  }

  lemma {:induction false} PlugRoot(c: Ctx, t: Shape)
    ensures RootNode(Plug(c, t)) == OuterNode(c, RootNode(t))
  {
    match c
    case Top =>
    case InLeft(up, n, b, r) => PlugRoot(up, Branch(t, n, b, r));
    case InRight(l, n, b, up) => PlugRoot(up, Branch(l, n, b, t));
  }
}
