/** Stable sorted sequences of nodes: what the AVL tree implements. */
module AvlOrder {
  import opened AvlShape

  /** `tree->cmp` is a total preorder (<=) on keys. */
  ghost predicate TotalPreorder(cmp: (Key, Key) -> bool)
  {
    && (forall a, b :: cmp(a, b) || cmp(b, a))
    && (forall a, b, c :: cmp(a, b) && cmp(b, c) ==> cmp(a, c))
  }

  ghost predicate Sorted(cmp: (Key, Key) -> bool, s: seq<Node>)
  {
    forall i, j :: 0 <= i < j < |s| ==> cmp(s[i].key, s[j].key)
  }

  /** Once `cmp(k, .)` holds along `s`, it goes on holding. */
  ghost predicate Monotone<A>(cmp: (A, Key) -> bool, k: A, s: seq<Node>)
  {
    forall i, j :: 0 <= i < j < |s| && cmp(k, s[i].key) ==> cmp(k, s[j].key)
  }

  lemma SortedMonotone(cmp: (Key, Key) -> bool, k: Key, s: seq<Node>)
    requires TotalPreorder(cmp) && Sorted(cmp, s)
    ensures Monotone(cmp, k, s)
  {
  }

  /** `k` is above every element of `s`, or at or below every one. */
  ghost predicate AllBelow<A>(cmp: (A, Key) -> bool, k: A, s: seq<Node>)
  {
    forall e :: e in s ==> !cmp(k, e.key)
  }

  ghost predicate AllAbove<A>(cmp: (A, Key) -> bool, k: A, s: seq<Node>)
  {
    forall e :: e in s ==> cmp(k, e.key)
  }

  /** The index of the first element at or above `k`, or the length. */
  function Slot<A>(cmp: (A, Key) -> bool, k: A, s: seq<Node>): (i: nat)
    ensures i <= |s|
    ensures i < |s| ==> cmp(k, s[i].key)
    ensures AllBelow(cmp, k, s[..i])
  {
    if s == [] || cmp(k, s[0].key) then 0
    else
      var i := 1 + Slot(cmp, k, s[1..]);
      assert s[..i] == [s[0]] + s[1..][..i - 1];
      i
  }

  /** Equal elements end up newest first. */
  function StableInsert(cmp: (Key, Key) -> bool, s: seq<Node>, n: Node): seq<Node>
  {
    var i := Slot(cmp, n.key, s);
    s[..i] + [n] + s[i..]
  }

  /** `Slot` is the only place with everything before it below `k` and everything after it not. */
  lemma {:induction false} SlotIs<A>(cmp: (A, Key) -> bool, k: A, a: seq<Node>, b: seq<Node>)
    requires AllBelow(cmp, k, a) && AllAbove(cmp, k, b)
    ensures Slot(cmp, k, a + b) == |a|
  {
    if a == [] {
      assert a + b == b;
      assert b != [] ==> b[0] in b;
    } else {
      assert a[0] in a;
      assert (a + b)[1..] == a[1..] + b;
      SlotIs(cmp, k, a[1..], b);
    }
  }

  /** Descending to the left or right of the focused node keeps everything before the focus below
      `k` and everything after it at or above `k`. */
  lemma Descend<A>(cmp: (A, Key) -> bool, k: A, c: Ctx, t: Shape)
    requires t.Branch? && Monotone(cmp, k, Inorder(Plug(c, t)))
    requires AllBelow(cmp, k, Before(c)) && AllAbove(cmp, k, After(c))
    ensures cmp(k, t.node.key) ==> AllAbove(cmp, k, After(InLeft(c, t.node, t.bal, t.right)))
    ensures !cmp(k, t.node.key) ==> AllBelow(cmp, k, Before(InRight(t.left, t.node, t.bal, c)))
  {
    PlugInorder(c, t);
    var s := Before(c) + Inorder(t) + After(c);
    MonotoneParts(cmp, k, Before(c), Inorder(t.left), t.node, Inorder(t.right), After(c));
  }

  lemma MonotoneParts<A>(cmp: (A, Key) -> bool, k: A, a: seq<Node>, l: seq<Node>, n: Node, r: seq<Node>, b: seq<Node>)
    requires Monotone(cmp, k, a + (l + [n] + r) + b)
    ensures cmp(k, n.key) ==> AllAbove(cmp, k, r)
    ensures !cmp(k, n.key) ==> AllBelow(cmp, k, l)
  {
    var s := a + (l + [n] + r) + b;
    var i := |a| + |l|;
    assert s[i] == n;
    forall j | 0 <= j < |r| ensures cmp(k, n.key) ==> cmp(k, r[j].key) {
      assert s[i + 1 + j] == r[j];
    }
    forall j | 0 <= j < |l| ensures !cmp(k, n.key) ==> !cmp(k, l[j].key) {
      assert s[|a| + j] == l[j];
    }
  }

  lemma StableInsertSorted(cmp: (Key, Key) -> bool, s: seq<Node>, n: Node)
    requires TotalPreorder(cmp) && Sorted(cmp, s)
    ensures Sorted(cmp, StableInsert(cmp, s, n))
  {
    var k := Slot(cmp, n.key, s);
    forall i | 0 <= i < k ensures cmp(s[i].key, n.key) {
      assert s[i] in s[..k];
    }
  }

  /** The lower bound of a key right after inserting a node with it is that node. */
  lemma LowerBoundAfterInsert(cmp: (Key, Key) -> bool, s: seq<Node>, n: Node)
    requires TotalPreorder(cmp)
    ensures var s' := StableInsert(cmp, s, n); var i := Slot(cmp, n.key, s');
      i == Slot(cmp, n.key, s) && i < |s'| && s'[i] == n
  {
    var i := Slot(cmp, n.key, s);
    SlotPrefix(cmp, n.key, s[..i], n, s[i..]);
  }

  lemma {:induction false} SlotPrefix<A>(cmp: (A, Key) -> bool, k: A, a: seq<Node>, n: Node, b: seq<Node>)
    requires AllBelow(cmp, k, a) && cmp(k, n.key)
    ensures Slot(cmp, k, a + [n] + b) == |a|
  {
    var s := a + [n] + b;
    if a != [] {
      assert a[0] in a;
      assert s[1..] == a[1..] + [n] + b;
      SlotPrefix(cmp, k, a[1..], n, b);
    }
  }

  // ---------------------------------------------------------------- positions

  function IndexOf(s: seq<Node>, n: Node): (i: nat)
    requires n in s
    ensures i < |s| && s[i] == n
  {
    if s[0] == n then 0 else 1 + IndexOf(s[1..], n)
  }

  lemma IndexAt(s: seq<Node>, i: nat)
    requires NoDup(s) && i < |s|
    ensures IndexOf(s, s[i]) == i
  {
  }

  function Without(s: seq<Node>, n: Node): seq<Node>
    requires n in s
  {
    var i := IndexOf(s, n);
    s[..i] + s[i + 1..]
  }
}
