/** `avl_tree_delete`: exchanging a node with its successor by relinking, and unlinking it. */
module AvlDelete {
  import opened AvlShape
  import opened AvlHeap

  // ---------------------------------------------------------------- shapes

  /** `inner` placed in the hole of `outer`. */
  function Comp(inner: Ctx, outer: Ctx): Ctx
  {
    match inner
    case Top => outer
    case InLeft(up, n, b, r) => InLeft(Comp(up, outer), n, b, r)
    case InRight(l, n, b, up) => InRight(l, n, b, Comp(up, outer))
  }

  lemma {:induction false} CompPlug(inner: Ctx, outer: Ctx, t: Shape)
    ensures Plug(Comp(inner, outer), t) == Plug(outer, Plug(inner, t))
  {
    match inner
    case Top =>
    case InLeft(up, n, b, r) => CompPlug(up, outer, Branch(t, n, b, r));
    case InRight(l, n, b, up) => CompPlug(up, outer, Branch(l, n, b, t));
  }

  /** A chain of left children: the path to a leftmost node. */
  ghost predicate LeftSpine(c: Ctx)
  {
    match c
    case Top => true
    case InLeft(up, _, _, _) => LeftSpine(up)
    case InRight(_, _, _, _) => false
  }

  lemma {:induction false} SpineStarts(c: Ctx)
    requires LeftSpine(c)
    ensures Before(c) == []
  {
    if c.InLeft? { SpineStarts(c.up); }
  }

  /** The leftmost node of a tree, and the path to it. */
  ghost function LeftFocus(c: Ctx, t: Shape): (f: Focus)
    requires LeftSpine(c) && t.Branch?
    ensures LeftSpine(f.ctx) && f.tree.Branch? && f.tree.left.Leaf? && f.Whole() == Plug(c, t)
    decreases t
  {
    if t.left.Leaf? then Focus(c, t) else LeftFocus(InLeft(c, t.node, t.bal, t.right), t.left)
  }

  lemma {:induction false} OuterComp(inner: Ctx, outer: Ctx, x: Node?)
    ensures OuterNode(Comp(inner, outer), x) == OuterNode(outer, OuterNode(inner, x))
  {
    if !inner.Top? { OuterComp(inner.up, outer, inner.node); }
  }

  lemma {:induction false} PlugHeight(c: Ctx, t: Shape, t': Shape)
    requires Height(t) == Height(t')
    ensures Height(Plug(c, t)) == Height(Plug(c, t'))
  {
    match c
    case Top =>
    case InLeft(up, n, b, r) => PlugHeight(up, Branch(t, n, b, r), Branch(t', n, b, r));
    case InRight(l, n, b, up) => PlugHeight(up, Branch(l, n, b, t), Branch(l, n, b, t'));
  }

  /** The surroundings of `node` once it has changed places with its successor `next`, which was
      the leftmost node, at `spine`, of its right subtree. */
  function Swapped(c: Ctx, l: Shape, next: Node, b: int, spine: Ctx): Ctx
  {
    Comp(spine, InRight(l, next, b, c))
  }

  /** Another node at the end of the spine changes neither balance nor height. */
  lemma SpineAvl(spine: Ctx, node: Node, next: Node, nb: int, nr: Shape)
    requires Avl(Plug(spine, Branch(Leaf, next, nb, nr)))
    ensures 0 <= nb <= 1 && Height(nr) == nb && Avl(nr)
    ensures Avl(Plug(spine, Branch(Leaf, node, nb, nr)))
    ensures Height(Plug(spine, Branch(Leaf, node, nb, nr))) == Height(Plug(spine, Branch(Leaf, next, nb, nr)))
  {
    PlugAvl(spine, Branch(Leaf, next, nb, nr));
    PlugAvl(spine, Branch(Leaf, node, nb, nr));
    PlugHeight(spine, Branch(Leaf, next, nb, nr), Branch(Leaf, node, nb, nr));
  }

  lemma RightReplaced(c: Ctx, l: Shape, node: Node, next: Node, b: int, r: Shape, r': Shape)
    requires Avl(Plug(c, Branch(l, node, b, r))) && Avl(r') && Height(r') == Height(r)
    ensures Avl(Plug(c, Branch(l, next, b, r')))
  {
    PlugAvl(c, Branch(l, node, b, r));
    PlugAvl(c, Branch(l, next, b, r'));
  }

  lemma RightAvl(c: Ctx, l: Shape, node: Node, b: int, r: Shape)
    requires Avl(Plug(c, Branch(l, node, b, r)))
    ensures Avl(r)
  {
    PlugAvl(c, Branch(l, node, b, r));
  }

  lemma SwappedAvl(c: Ctx, l: Shape, node: Node, b: int, spine: Ctx, next: Node, nb: int, nr: Shape)
    requires Avl(Plug(c, Branch(l, node, b, Plug(spine, Branch(Leaf, next, nb, nr)))))
    ensures 0 <= nb <= 1 && Height(nr) == nb && Avl(nr)
    ensures CtxAvl(Swapped(c, l, next, b, spine), Height(nr) + 1)
  {
    var t, t' := Branch(Leaf, next, nb, nr), Branch(Leaf, node, nb, nr);
    RightAvl(c, l, node, b, Plug(spine, t));
    SpineAvl(spine, node, next, nb, nr);
    RightReplaced(c, l, node, next, b, Plug(spine, t), Plug(spine, t'));
    CompPlug(spine, InRight(l, next, b, c), t');
    PlugAvl(Swapped(c, l, next, b, spine), t');
  }

  /** Unlinking `node` after the exchange leaves the old sequence without it. */
  lemma SwappedOrder(c: Ctx, l: Shape, node: Node, b: int, spine: Ctx, next: Node, nb: int, nr: Shape)
    requires LeftSpine(spine)
    ensures var r := Plug(spine, Branch(Leaf, next, nb, nr));
      Inorder(Plug(Swapped(c, l, next, b, spine), nr))
      == (Before(c) + Inorder(l)) + (Inorder(r) + After(c))
  {
    var r' := Plug(spine, nr);
    SpineOrder(spine, next, nb, nr);
    CompPlug(spine, InRight(l, next, b, c), nr);
    PlugInorder(c, Branch(l, next, b, r'));
    RegroupSwap(Before(c), Inorder(l), next, Inorder(r'), After(c));
  }

  lemma SpineOrder(spine: Ctx, next: Node, nb: int, nr: Shape)
    requires LeftSpine(spine)
    ensures Inorder(Plug(spine, Branch(Leaf, next, nb, nr))) == [next] + Inorder(Plug(spine, nr))
  {
    SpineStarts(spine);
    PlugInorder(spine, Branch(Leaf, next, nb, nr));
    PlugInorder(spine, nr);
    RegroupSpine(next, Inorder(nr), After(spine));
  }

  lemma RegroupSpine(n: Node, a: seq<Node>, b: seq<Node>)
    ensures [] + ([] + [n] + a) + b == [n] + ([] + a + b)
  {
  }

  lemma RegroupSwap(a: seq<Node>, b: seq<Node>, n: Node, c: seq<Node>, d: seq<Node>)
    ensures a + (b + [n] + c) + d == (a + b) + (([n] + c) + d)
  {
  }

  // ---------------------------------------------------------------- the exchange, in the heap

  /** What the fields of the exchanged nodes and their neighbours must look like on entry. */
  ghost predicate CanSwap(node: Node, next: Node)
    reads node, next, Ref(node.parent), Ref(next.parent)
  {
    var l, r, nr, np, p := node.left, node.right, next.right, next.parent, node.parent;
    && node != next && next.left == null && l != null && r != null
    && (r == next <==> np == node)
    && np != null && np != next
    && (r != next ==> np.left == next && np != l)
    && l != node && l != next && l != r && l != nr
    && r != node && r != nr
    && nr != node && nr != next && nr != np
    && p != node && p != next
    && (p != null ==>
          && (p.left == node || p.right == node)
          && p != l && p != r && p != nr && p != np)
  }

  /** `next` gets the parent and the left child of `node`. */
  method TakePlace(node: Node, next: Node)
    requires CanSwap(node, next)
    modifies next, Ref(node.parent), Ref(node.left)
    ensures node.parent != null ==>
      node.parent.Fields() == Replace(old(node.parent.Fields()), node, next)
    ensures node.left.Fields() == old(node.left.Fields()).(parent := next)
    ensures next.Fields() == old(next.Fields()).(parent := node.parent, left := node.left)
  {
    FixupLink(node, next, node.parent);
    FixupLink(next.left, node.left, next);
  }

  /** The part of the exchange that depends on whether `next` is a child of `node`. */
  method RelinkRight(node: Node, next: Node, tmpParent: Node)
    requires node != next && node.right != null && node.right != node && tmpParent != next
    requires next.left != null && next.left != next.right && node.right != next.left
    requires node.right != next ==>
      tmpParent != node && tmpParent.left == next && node.right != next.right
    modifies node, next, Ref(node.right), tmpParent
    ensures node.left == old(node.left) && node.right == old(node.right)
    ensures node.balance == old(node.balance)
    ensures node.parent == if node.right == next then next else tmpParent
    ensures next.left == old(next.left) && next.parent == old(next.parent)
    ensures next.balance == old(next.balance)
    ensures next.right == if node.right == next then node else node.right
    ensures node.right == next && tmpParent != node ==> unchanged(tmpParent)
    ensures node.right != next && node.right == tmpParent ==>
      tmpParent.Fields() == old(tmpParent.Fields()).(parent := next, left := node)
    ensures node.right != next && node.right != tmpParent ==>
      && node.right.Fields() == old(node.right.Fields()).(parent := next)
      && tmpParent.Fields() == old(tmpParent.Fields()).(left := node)
  {
    if next == node.right {
      next.right := node;
      node.parent := next;
    } else {
      FixupLink(next.right, node.right, next);
      FixupLink(next, node, tmpParent);
    }
  }

  /** Puts `next`, the successor of `node`, in the place of `node` and `node` in its place. */
  method Exchange(node: Node, next: Node)
    requires CanSwap(node, next)
    modifies node, next, Ref(node.parent), Ref(node.left), Ref(node.right), Ref(next.parent),
             Ref(next.right)
    ensures old(node.parent) != null ==>
      old(node.parent).Fields() == Replace(old(node.parent.Fields()), node, next)
    ensures old(node.left).Fields() == old(node.left.Fields()).(parent := next)
    ensures old(next.right) != null ==>
      old(next.right).Fields() == old(next.right.Fields()).(parent := node)
    ensures old(node.right) == next ==>
      && next.Fields() == Cell(old(node.left), node, old(node.parent), old(node.balance))
      && node.Fields() == Cell(null, old(next.right), next, old(next.balance))
    ensures old(node.right) != next ==>
      && next.Fields() == Cell(old(node.left), old(node.right), old(node.parent), old(node.balance))
      && node.Fields() == Cell(null, old(next.right), old(next.parent), old(next.balance))
      && (old(node.right) == old(next.parent) ==>
            old(node.right).Fields() == old(node.right.Fields()).(parent := next, left := node))
      && (old(node.right) != old(next.parent) ==>
            && old(node.right).Fields() == old(node.right.Fields()).(parent := next)
            && old(next.parent).Fields() == old(next.parent.Fields()).(left := node))
  {
    var tmpRight := next.right;
    var tmpParent := next.parent;
    var tmpBalance := next.balance;

    TakePlace(node, next);
    RelinkRight(node, next, tmpParent);
    node.left := null;
    FixupLink(node.right, tmpRight, node);

    next.balance := node.balance;
    node.balance := tmpBalance;
  }

  // ---------------------------------------------------------------- the exchange, on shapes

  /** The outermost node of `c` has parent `q`, when the hole points to `x`. */
  ghost predicate OuterAt(m: Store, c: Ctx, x: Node?, q: Node?)
  {
    if c.Top? then true
    else if c.up.Top? then HoleAt(m, c, x, q)
    else OuterAt(m, c.up, c.node, q)
  }

  /** A piece of a tree of which at most the innermost and the outermost node were written, and
      which now hangs below `q` with `x` in its hole. */
  lemma {:induction false} Rehang(m: Store, m': Store, W: set<Node>, c: Ctx, x0: Node?, x: Node?, q0: Node?, q: Node?)
    requires Hang(m, c, x0, q0) && CtxDistinct(c) && AgreeOff(m, m', W)
    requires CtxNodes(c) * W <= Ref(HoleParent(c, null)) + Ref(OuterNode(c, null))
    requires HoleAt(m', c, x, q) && OuterAt(m', c, x, q)
    ensures Hang(m', c, x, q)
  {
    if !c.Top? {
      OuterInside(c);
      var sibling := if c.InLeft? then c.right else c.left;
      assert Nodes(sibling) <= CtxNodes(c) && c.node !in Nodes(sibling);
      assert OuterNode(c, null) !in Nodes(sibling);
      assert Nodes(sibling) !! W by {
        assert Nodes(sibling) * W <= CtxNodes(c) * W;
        assert Nodes(sibling) * W <= {};
      }
      Untouched(m, m', W, sibling, c.node);
      if !c.up.Top? {
        OuterInside(c.up);
        HoleKept(m, m', W, c, q0, q);
        Rehang(m, m', W, c.up, c.node, c.node, q0, q);
      }
    }
  }

  lemma {:induction false} OuterInside(c: Ctx)
    requires !c.Top?
    ensures OuterNode(c, null) != null && OuterNode(c, null) in CtxNodes(c)
    ensures !c.up.Top? ==> OuterNode(c, null) == OuterNode(c.up, null)
    ensures !c.up.Top? ==> OuterNode(c, null) in CtxNodes(c.up)
    ensures c.up.Top? ==> OuterNode(c, null) == c.node
  {
    if !c.up.Top? { OuterInside(c.up); }
  }

  lemma HoleKept(m: Store, m': Store, W: set<Node>, c: Ctx, q0: Node?, q: Node?)
    requires !c.Top? && !c.up.Top? && CtxDistinct(c) && AgreeOff(m, m', W)
    requires CtxNodes(c) * W <= Ref(HoleParent(c, null)) + Ref(OuterNode(c, null))
    requires HoleAt(m, c.up, c.node, q0) && OuterAt(m', c.up, c.node, q)
    ensures HoleAt(m', c.up, c.node, q)
  {
    OuterInside(c);
    if !c.up.up.Top? {
      OuterInside(c.up);
      assert c.up.node != c.node && c.up.node != OuterNode(c, null) by {
        OuterInside(c.up);
        assert c.up.node !in CtxNodes(c.up.up);
      }
    }
  }

  /** The nodes the exchange writes. */
  function ExchangeWrites(c: Ctx, l: Shape, node: Node, spine: Ctx, next: Node, nr: Shape): set<Node>
  {
    {node, next} + Ref(HoleParent(c, null)) + Ref(RootNode(l)) + Ref(RootNode(nr))
    + Ref(HoleParent(spine, null)) + Ref(OuterNode(spine, null))
  }

  /** The written nodes lie where the pieces of the tree allow it. */
  lemma ExchangeApart(c: Ctx, l: Shape, node: Node, b: int, spine: Ctx, next: Node, nb: int, nr: Shape)
    requires Apart(c, Branch(l, node, b, Plug(spine, Branch(Leaf, next, nb, nr))))
    ensures var W := ExchangeWrites(c, l, node, spine, next, nr);
      && Nodes(l) * W <= Ref(RootNode(l)) && Nodes(nr) * W <= Ref(RootNode(nr))
      && CtxNodes(c) * W <= Ref(HoleParent(c, null))
      && CtxNodes(spine) * W <= Ref(HoleParent(spine, null)) + Ref(OuterNode(spine, null))
    ensures CtxDistinct(spine) && Distinct(nr) && Distinct(l) && CtxDistinct(c)
  {
    ExchangeDistinct(c, l, node, b, spine, next, nb, nr);
    if !spine.Top? { OuterInside(spine); }
    PiecesApart(Nodes(l), Nodes(nr), CtxNodes(c), CtxNodes(spine), {node, next}, RootNode(l),
                RootNode(nr), HoleParent(c, null), HoleParent(spine, null), OuterNode(spine, null));
  }

  ghost predicate Pairwise(A: set<Node>, B: set<Node>, C: set<Node>, D: set<Node>, E: set<Node>)
  {
    && A !! B && A !! C && A !! D && A !! E
    && B !! C && B !! D && B !! E
    && C !! D && C !! E
    && D !! E
  }

  lemma PiecesApart(A: set<Node>, B: set<Node>, C: set<Node>, D: set<Node>, E: set<Node>,
                    a: Node?, b: Node?, c: Node?, d: Node?, d': Node?)
    requires Pairwise(A, B, C, D, E)
    requires Ref(a) <= A && Ref(b) <= B && Ref(c) <= C && Ref(d) <= D && Ref(d') <= D
    ensures var W := E + Ref(c) + Ref(a) + Ref(b) + Ref(d) + Ref(d');
      A * W <= Ref(a) && B * W <= Ref(b) && C * W <= Ref(c) && D * W <= Ref(d) + Ref(d')
  {
  }

  lemma SwappedApart(c: Ctx, l: Shape, node: Node, b: int, spine: Ctx, next: Node, nb: int, nr: Shape)
    requires Apart(c, Branch(l, node, b, Plug(spine, Branch(Leaf, next, nb, nr))))
    ensures Apart(Swapped(c, l, next, b, spine), Branch(Leaf, node, nb, nr))
    ensures CtxNodes(Swapped(c, l, next, b, spine)) + Nodes(Branch(Leaf, node, nb, nr))
         == CtxNodes(c) + Nodes(Branch(l, node, b, Plug(spine, Branch(Leaf, next, nb, nr))))
  {
    var t' := Branch(Leaf, node, nb, nr);
    PlugApart(spine, Branch(Leaf, next, nb, nr));
    PlugApart(spine, t');
    PlugApart(c, Branch(l, next, b, Plug(spine, t')));
    CompPlug(spine, InRight(l, next, b, c), t');
    PlugApart(Swapped(c, l, next, b, spine), t');
  }

  lemma ExchangeShape(m: Store, m': Store, c: Ctx, l: Shape, node: Node, b: int, spine: Ctx, next: Node, nb: int,
                      nr: Shape)
    requires var t := Branch(l, node, b, Plug(spine, Branch(Leaf, next, nb, nr)));
      Held(m, c, t) && Apart(c, t)
    requires AgreeOff(m, m', ExchangeWrites(c, l, node, spine, next, nr))
    requires RootAt(m', l, next) && RootAt(m', nr, node) && HoleAt(m', c, next, null)
    requires next in m' && m'[next] == Cell(RootNode(l), OuterNode(spine, node), HoleParent(c, null), b)
    requires node in m' && m'[node] == Cell(null, RootNode(nr), HoleParent(spine, next), nb)
    requires HoleAt(m', spine, node, next) && OuterAt(m', spine, node, next)
    ensures Held(m', Swapped(c, l, next, b, spine), Branch(Leaf, node, nb, nr))
  {
    var W := ExchangeWrites(c, l, node, spine, next, nr);
    var u, u' := Branch(Leaf, next, nb, nr), Branch(Leaf, node, nb, nr);
    ExchangeApart(c, l, node, b, spine, next, nb, nr);
    PlugLinks(m, spine, u, node);
    Reparent(m, m', W, l, node, next);
    Reparent(m, m', W, nr, next, node);
    Rehang(m, m', W, spine, next, node, node, next);
    Retarget(m, m', W, c, node, next, null);
    ExchangeHeld(m', c, l, b, spine, next, u');
  }

  lemma ExchangeHeld(m: Store, c: Ctx, l: Shape, b: int, spine: Ctx, next: Node, u: Shape)
    requires u.Branch? && Links(m, u, HoleParent(spine, next)) && Hang(m, spine, u.node, next)
    requires Links(m, l, next) && Hang(m, c, next, null)
    requires next in m && m[next] == Cell(RootNode(l), OuterNode(spine, u.node), HoleParent(c, null), b)
    ensures Held(m, Swapped(c, l, next, b, spine), u)
  {
    PlugLinks(m, spine, u, next);
    PlugRoot(spine, u);
    var t := Branch(l, next, b, Plug(spine, u));
    assert Links(m, t, HoleParent(c, null));
    PlugLinks(m, c, t, null);
    CompPlug(spine, InRight(l, next, b, c), u);
    PlugLinks(m, Swapped(c, l, next, b, spine), u, null);
  }

  lemma {:induction false} HangOuter(m: Store, c: Ctx, x: Node?, q: Node?)
    requires Hang(m, c, x, q)
    ensures OuterAt(m, c, x, q)
    ensures !c.Top? ==> OuterNode(c, null) in m && m[OuterNode(c, null)].parent == q
  {
    if !c.Top? && !c.up.Top? { HangOuter(m, c.up, c.node, q); }
  }

  lemma {:induction false} OuterUpdate(m: Store, m': Store, c: Ctx, x: Node?, x': Node?, q: Node?, q': Node?)
    requires OuterAt(m, c, x, q)
    requires !c.Top? && !c.up.Top?
    requires var o := OuterNode(c, null); o in m && o in m' && m'[o] == m[o].(parent := q')
    ensures OuterAt(m', c, x', q')
  {
    assert OuterNode(c, null) == OuterNode(c.up, c.node) == OuterNode(c.up.up, c.up.node);
    if !c.up.up.Top? { OuterUpdate(m, m', c.up, c.node, c.node, q, q'); }
  }

  lemma CompHole(inner: Ctx, outer: Ctx, x: Node?, q: Node?)
    ensures HoleParent(Comp(inner, outer), q) == HoleParent(inner, HoleParent(outer, q))
    ensures !inner.Top? ==> HoleCell(Comp(inner, outer), x, q) == HoleCell(inner, x, HoleParent(outer, q))
  {
    if !inner.Top? {
      assert HoleParent(Comp(inner.up, outer), q) == HoleParent(inner.up, HoleParent(outer, q));
    }
  }

  lemma FocusInner(S: set<Node>, c: Ctx, l: Shape, node: Node, b: int, spine: Ctx, u: Shape)
    ensures At(S, c, Branch(l, node, b, Plug(spine, u)))
       <==> At(S, Comp(spine, InRight(l, node, b, c)), u)
  {
    CompPlug(spine, InRight(l, node, b, c), u);
    Unfocus(S, c, Branch(l, node, b, Plug(spine, u)));
    Unfocus(S, Comp(spine, InRight(l, node, b, c)), u);
  }

  /** The fields of the nodes the exchange touches: around `node`, and around `next`. */
  lemma OuterFields(S: set<Node>, c: Ctx, l: Shape, node: Node, b: int, r: Shape)
    requires At(S, c, Branch(l, node, b, r)) && l.Branch?
    ensures {node, l.node} + Ref(HoleParent(c, null)) <= S
    ensures node.Fields() == Cell(l.node, RootNode(r), HoleParent(c, null), b)
    ensures l.node.Fields() == RootCell(l, node)
    ensures !c.Top? ==> c.node.Fields() == HoleCell(c, node, null)
  {
    Peek(S, c, Branch(l, node, b, r));
  }

  lemma InnerFields(S: set<Node>, spine: Ctx, outer: Ctx, next: Node, nb: int, nr: Shape)
    requires At(S, Comp(spine, outer), Branch(Leaf, next, nb, nr)) && !outer.Top?
    ensures {next} + Ref(RootNode(nr)) + Ref(HoleParent(spine, null)) <= S
    ensures next.Fields() == Cell(null, RootNode(nr), HoleParent(spine, outer.node), nb)
    ensures nr.Branch? ==> nr.node.Fields() == RootCell(nr, next)
    ensures !spine.Top? ==> spine.node.Fields() == HoleCell(spine, next, outer.node)
  {
    CompHole(spine, outer, next, null);
    Peek(S, Comp(spine, outer), Branch(Leaf, next, nb, nr));
  }

  /** The nodes around `node` and around `next` are different ones, as far as they can be. */
  lemma ExchangeDistinct(c: Ctx, l: Shape, node: Node, b: int, spine: Ctx, next: Node, nb: int, nr: Shape)
    requires Apart(c, Branch(l, node, b, Plug(spine, Branch(Leaf, next, nb, nr))))
    ensures Pairwise(Nodes(l), Nodes(nr), CtxNodes(c), CtxNodes(spine), {node, next}) && node != next
    ensures CtxDistinct(spine) && Distinct(nr) && Distinct(l) && CtxDistinct(c)
  {
    var u := Branch(Leaf, next, nb, nr);
    PlugApart(spine, u);
    SplitRight(Nodes(l), Nodes(Plug(spine, u)), CtxNodes(c), CtxNodes(spine), Nodes(nr), node, next);
  }

  lemma SplitRight(A: set<Node>, R: set<Node>, C: set<Node>, D: set<Node>, B: set<Node>, node: Node, next: Node)
    requires R == D + ({next} + B) && A !! R && node !in A && node !in R && (A + {node} + R) !! C
    requires next !in B && ({next} + B) !! D
    ensures Pairwise(A, B, C, D, {node, next}) && node != next
  {
  }

  lemma CanExchange(S: set<Node>, c: Ctx, l: Shape, node: Node, b: int, spine: Ctx, next: Node, nb: int, nr: Shape)
    requires At(S, c, Branch(l, node, b, Plug(spine, Branch(Leaf, next, nb, nr))))
    requires l.Branch? && LeftSpine(spine)
    ensures CanSwap(node, next)
  {
    var u := Branch(Leaf, next, nb, nr);
    OuterFields(S, c, l, node, b, Plug(spine, u));
    FocusInner(S, c, l, node, b, spine, u);
    InnerFields(S, spine, InRight(l, node, b, c), next, nb, nr);
    PlugRoot(spine, u);
    ExchangeDistinct(c, l, node, b, spine, next, nb, nr);
    if !spine.Top? { OuterInside(spine); OuterAny(spine, next); }
  }

  lemma {:induction false} OuterAny(c: Ctx, x: Node?)
    requires !c.Top?
    ensures OuterNode(c, x) == OuterNode(c, null)
  {
  }

  lemma ExchangeSpine(m: Store, m': Store, spine: Ctx, node: Node, next: Node)
    requires Hang(m, spine, next, node) && LeftSpine(spine) && CtxDistinct(spine)
    requires !spine.Top? ==> spine.node in m' && OuterNode(spine, null) in m'
    requires OuterNode(spine, null) == HoleParent(spine, null) != null ==>
      m'[spine.node] == m[spine.node].(parent := next, left := node)
    requires OuterNode(spine, null) != HoleParent(spine, null) ==>
      var o := OuterNode(spine, null);
      && m'[spine.node] == m[spine.node].(left := node)
      && o in m && m'[o] == m[o].(parent := next)
    ensures HoleAt(m', spine, node, next) && OuterAt(m', spine, node, next)
  {
    if !spine.Top? {
      OuterInside(spine);
      if !spine.up.Top? {
        HangOuter(m, spine, next, node);
        OuterUpdate(m, m', spine, next, node, node, next);
      }
    }
  }

  /** The cells that the exchange reads. */
  ghost predicate SwapReads(m: Store, c: Ctx, l: Shape, node: Node, b: int, spine: Ctx, next: Node, nb: int, nr: Shape)
  {
    && node in m && m[node] == Cell(RootNode(l), OuterNode(spine, next), HoleParent(c, null), b)
    && next in m && m[next] == Cell(null, RootNode(nr), HoleParent(spine, node), nb)
    && RootAt(m, l, node) && RootAt(m, nr, next) && HoleAt(m, c, node, null) && Hang(m, spine, next, node)
  }

  lemma SwapBefore(m: Store, c: Ctx, l: Shape, node: Node, b: int, spine: Ctx, next: Node, nb: int, nr: Shape)
    requires Held(m, c, Branch(l, node, b, Plug(spine, Branch(Leaf, next, nb, nr))))
    ensures SwapReads(m, c, l, node, b, spine, next, nb, nr)
  {
    var u := Branch(Leaf, next, nb, nr);
    PlugRoot(spine, u);
    var t := Branch(l, node, b, Plug(spine, u));
    assert RootAt(m, t, HoleParent(c, null)) && RootCell(t, HoleParent(c, null)).right == OuterNode(spine, next);
    assert Links(m, Plug(spine, u), node) && Links(m, l, node) && Hang(m, c, node, null);
    PlugLinks(m, spine, u, node);
    assert RootAt(m, u, HoleParent(spine, node)) && Links(m, nr, next);
  }

  /** What the exchange makes of the store. */
  ghost predicate Exchanged(m: Store, m': Store, node: Node, next: Node)
    requires node in m && next in m
  {
    var p, l, r, np, nr := m[node].parent, m[node].left, m[node].right, m[next].parent, m[next].right;
    && AgreeOff(m, m', {node, next} + Ref(p) + Ref(l) + Ref(r) + Ref(np) + Ref(nr))
    && (p != null ==> p in m && p in m' && m'[p] == Replace(m[p], node, next))
    && (l != null ==> l in m && l in m' && m'[l] == m[l].(parent := next))
    && (nr != null ==> nr in m && nr in m' && m'[nr] == m[nr].(parent := node))
    && next in m' && m'[next] == Cell(l, if r == next then node else r, p, m[node].balance)
    && node in m' && m'[node] == Cell(null, nr, if r == next then next else np, m[next].balance)
    && (r != next && r == np && r != null ==> r in m && r in m' && m'[r] == m[r].(parent := next, left := node))
    && (r != next && r != np ==>
          && (r != null ==> r in m && r in m' && m'[r] == m[r].(parent := next))
          && (np != null ==> np in m && np in m' && m'[np] == m[np].(left := node)))
  }

  /** The exchange, seen from the store. */
  method ExchangeIn(node: Node, next: Node, ghost S: set<Node>)
    requires CanSwap(node, next) && {node, next} + Ref(node.parent) + Ref(node.left) + Ref(node.right) <= S
    requires Ref(next.parent) + Ref(next.right) <= S
    modifies S
    ensures Exchanged(old(Snap(S)), Snap(S), node, next)
  {
    Exchange(node, next);
  }

  lemma SwapAfter(m: Store, m': Store, c: Ctx, l: Shape, node: Node, b: int, spine: Ctx, next: Node, nb: int, nr: Shape)
    requires var t := Branch(l, node, b, Plug(spine, Branch(Leaf, next, nb, nr)));
      Held(m, c, t) && Apart(c, t) && l.Branch? && LeftSpine(spine)
    requires SwapReads(m, c, l, node, b, spine, next, nb, nr) && Exchanged(m, m', node, next)
    ensures Held(m', Swapped(c, l, next, b, spine), Branch(Leaf, node, nb, nr))
  {
    ExchangeDistinct(c, l, node, b, spine, next, nb, nr);
    if !spine.Top? {
      OuterInside(spine);
      OuterAny(spine, next);
      OuterAny(spine, node);
      HangOuter(m, spine, next, node);
    }
    ExchangeSpine(m, m', spine, node, next);
    ExchangeShape(m, m', c, l, node, b, spine, next, nb, nr);
  }

  method SwapWithNext(node: Node, next: Node, ghost S: set<Node>, ghost c: Ctx, ghost l: Shape, ghost b: int,
                      ghost spine: Ctx, ghost nb: int, ghost nr: Shape)
    requires At(S, c, Branch(l, node, b, Plug(spine, Branch(Leaf, next, nb, nr))))
    requires l.Branch? && LeftSpine(spine)
    modifies S
    ensures At(S, Swapped(c, l, next, b, spine), Branch(Leaf, node, nb, nr))
  {
    ghost var m := Snap(S);
    CanExchange(S, c, l, node, b, spine, next, nb, nr);
    SwapBefore(m, c, l, node, b, spine, next, nb, nr);
    ExchangeInside(S, c, l, node, b, spine, next, nb, nr);
    ExchangeIn(node, next, S);
    SwapAfter(m, Snap(S), c, l, node, b, spine, next, nb, nr);
    SwappedApart(c, l, node, b, spine, next, nb, nr);
  }

  /** All that the exchange writes belongs to the tree. */
  lemma ExchangeInside(S: set<Node>, c: Ctx, l: Shape, node: Node, b: int, spine: Ctx, next: Node, nb: int, nr: Shape)
    requires At(S, c, Branch(l, node, b, Plug(spine, Branch(Leaf, next, nb, nr)))) && l.Branch?
    requires SwapReads(Snap(S), c, l, node, b, spine, next, nb, nr)
    ensures {node, next} + Ref(node.parent) + Ref(node.left) + Ref(node.right) <= S
    ensures Ref(next.parent) + Ref(next.right) <= S
  {
    var m := Snap(S);
    assert m[node] == node.Fields() && m[next] == next.Fields();
    if !spine.Top? {
      OuterAny(spine, next);
      HangOuter(m, spine, next, node);
    }
  }

  // ---------------------------------------------------------------- unlinking and replacing

  /** The only subtree of a node that has at most one. */
  function OnlyChild(t: Shape): Shape
    requires t.Branch?
  {
    if t.left.Branch? then t.left else t.right
  }

  lemma DetachShape(m: Store, m': Store, c: Ctx, t: Shape)
    requires Held(m, c, t) && Apart(c, t) && t.Branch? && (t.left.Leaf? || t.right.Leaf?)
    requires var x := OnlyChild(t);
      && AgreeOff(m, m', {t.node} + Ref(RootNode(x)) + Ref(HoleParent(c, null)))
      && RootAt(m', x, HoleParent(c, null)) && HoleAt(m', c, RootNode(x), null)
    ensures Held(m', c, OnlyChild(t)) && Apart(c, OnlyChild(t))
  {
    var x := OnlyChild(t);
    var W := {t.node} + Ref(RootNode(x)) + Ref(HoleParent(c, null));
    assert x.Branch? ==> x.node in Nodes(x);
    Reparent(m, m', W, x, t.node, HoleParent(c, null));
    Retarget(m, m', W, c, t.node, RootNode(x), null);
  }

  /** Takes a node with at most one child out of the tree; its own fields stay as they were. */
  method Detach(node: Node, ghost S: set<Node>, ghost c: Ctx, ghost t: Shape) returns (child: Node?)
    requires At(S, c, t) && t.Branch? && t.node == node && (t.left.Leaf? || t.right.Leaf?)
    modifies S - {node}
    ensures At(S - {node}, c, OnlyChild(t)) && child == RootNode(OnlyChild(t))
  {
    ghost var m := Snap(S);
    Peek(S, c, t);
    if node.left == null && node.right == null {
      child := null;
      FixupLink(node, null, node.parent);
    } else if node.left != null && node.right == null {
      child := node.left;
      FixupLink(node, node.left, node.parent);
    } else {
      assert node.left == null && node.right != null;
      child := node.right;
      FixupLink(node, node.right, node.parent);
    }
    DetachShape(m, Snap(S - {node}), c, t);
  }

  lemma ReplaceShape(m: Store, m': Store, c: Ctx, t: Shape, n: Node)
    requires Held(m, c, t) && Apart(c, t) && t.Branch? && n !in CtxNodes(c) + Nodes(t)
    requires AgreeOff(m, m', {t.node, n} + Ref(RootNode(t.left)) + Ref(RootNode(t.right)) + Ref(HoleParent(c, null)))
    requires RootAt(m', t.(node := n), HoleParent(c, null)) && HoleAt(m', c, n, null)
    requires RootAt(m', t.left, n) && RootAt(m', t.right, n)
    ensures Held(m', c, t.(node := n)) && Apart(c, t.(node := n))
  {
    var W := {t.node, n} + Ref(RootNode(t.left)) + Ref(RootNode(t.right)) + Ref(HoleParent(c, null));
    assert t.left.Branch? ==> t.left.node in Nodes(t.left);
    assert t.right.Branch? ==> t.right.node in Nodes(t.right);
    Reparent(m, m', W, t.left, t.node, n);
    Reparent(m, m', W, t.right, t.node, n);
    Retarget(m, m', W, c, t.node, n, null);
  }

  /** The assignments of `avl_tree_swap_node`. */
  method CopyLinks(oldNode: Node, newNode: Node)
    requires newNode != oldNode && newNode.Fields() == Cell(null, null, null, 0)
    requires var l, r, p := oldNode.left, oldNode.right, oldNode.parent;
      && newNode != l && newNode != r && newNode != p && oldNode != l && oldNode != r && oldNode != p
      && (l != null ==> l != r && l != p) && (r != null ==> r != p)
      && (p != null ==> p.left == oldNode || p.right == oldNode)
    modifies newNode, Ref(oldNode.parent), Ref(oldNode.left), Ref(oldNode.right)
    ensures newNode.Fields() == old(oldNode.Fields())
    ensures oldNode.parent != null ==>
      oldNode.parent.Fields() == Replace(old(oldNode.parent.Fields()), oldNode, newNode)
    ensures oldNode.left != null ==> oldNode.left.Fields() == old(oldNode.left.Fields()).(parent := newNode)
    ensures oldNode.right != null ==> oldNode.right.Fields() == old(oldNode.right.Fields()).(parent := newNode)
  {
    FixupLink(oldNode, newNode, oldNode.parent);

    newNode.left := oldNode.left;
    if newNode.left != null {
      newNode.left.parent := newNode;
    }
    newNode.right := oldNode.right;
    if newNode.right != null {
      newNode.right.parent := newNode;
    }

    newNode.balance := oldNode.balance;
  }

  /** Puts a fresh node in the place of another one, links and balance included. */
  method ReplaceNode(oldNode: Node, newNode: Node, ghost S: set<Node>, ghost c: Ctx, ghost t: Shape)
    requires At(S, c, t) && t.Branch? && t.node == oldNode
    requires newNode !in S && newNode.Fields() == Cell(null, null, null, 0)
    modifies S - {oldNode}, newNode
    ensures At(S - {oldNode} + {newNode}, c, t.(node := newNode))
  {
    ghost var m := Snap(S);
    Peek(S, c, t);
    assert t.left.Branch? ==> t.left.node in Nodes(t.left);
    assert t.right.Branch? ==> t.right.node in Nodes(t.right);
    assert !c.Top? ==> c.node in CtxNodes(c);
    CopyLinks(oldNode, newNode);
    ReplaceShape(m, Snap(S - {oldNode} + {newNode}), c, t, newNode);
  }
}
