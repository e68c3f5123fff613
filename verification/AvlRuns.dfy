/** Runs of insertions, deletions and replacements: the tree is a stable sorted sequence. */
module AvlRuns {
  import opened AvlShape
  import opened AvlOrder
  import opened AvlTree

  datatype Op = Insert(n: Node) | Delete(n: Node) | Swap(before: Node, after: Node)

  /** The elements in order, and for each one when it came in; a node put in the place of another
      counts as old as that one. */
  datatype State = State(elems: seq<Node>, birth: map<Node, nat>, clock: nat)

  const START := State([], map[], 0)

  ghost predicate Enabled(cmp: (Key, Key) -> bool, st: State, op: Op)
  {
    match op
    case Insert(n) => n !in st.elems
    case Delete(n) => n in st.elems
    case Swap(before, after) =>
      before in st.elems && after !in st.elems && Equal(cmp, before.key, after.key)
  }

  /** When an element came in. */
  function Birth(st: State, n: Node): nat
  {
    if n in st.birth then st.birth[n] else 0
  }

  ghost function Apply(cmp: (Key, Key) -> bool, st: State, op: Op): State
    requires Enabled(cmp, st, op)
  {
    match op
    case Insert(n) => State(StableInsert(cmp, st.elems, n), st.birth[n := st.clock], st.clock + 1)
    case Delete(n) => st.(elems := Without(st.elems, n))
    case Swap(before, after) =>
      State(st.elems[IndexOf(st.elems, before) := after], st.birth[after := Birth(st, before)], st.clock)
  }

  ghost predicate Legal(cmp: (Key, Key) -> bool, st: State, ops: seq<Op>)
    decreases |ops|
  {
    ops == [] || (Enabled(cmp, st, ops[0]) && Legal(cmp, Apply(cmp, st, ops[0]), ops[1..]))
  }

  ghost function Run(cmp: (Key, Key) -> bool, st: State, ops: seq<Op>): State
    requires Legal(cmp, st, ops)
    decreases |ops|
  {
    if ops == [] then st else Run(cmp, Apply(cmp, st, ops[0]), ops[1..])
  }

  /** Sorted, and of two equal elements the newer is on the left. */
  ghost predicate Stable(cmp: (Key, Key) -> bool, st: State)
  {
    && Sorted(cmp, st.elems) && NoDup(st.elems)
    && (forall e :: e in st.elems ==> e in st.birth && st.birth[e] < st.clock)
    && (forall i, j :: 0 <= i < j < |st.elems| && Equal(cmp, st.elems[i].key, st.elems[j].key) ==>
          st.birth[st.elems[i]] > st.birth[st.elems[j]])
  }

  /** Where an element of the sequence with `n` put in at `k` comes from. */
  function Origin(k: nat, i: nat): nat
    requires i != k
  {
    if i < k then i else i - 1
  }

  lemma PutIn(s: seq<Node>, k: nat, n: Node, i: nat)
    requires k <= |s| && i <= |s|
    ensures |s[..k] + [n] + s[k..]| == |s| + 1
    ensures (s[..k] + [n] + s[k..])[i] == if i == k then n else s[Origin(k, i)]
  {
  }

  /** Two elements after an insertion. */
  lemma PairStable(cmp: (Key, Key) -> bool, st: State, n: Node, k: nat, s': seq<Node>, i: nat, j: nat)
    requires Stable(cmp, st) && n !in st.elems && k == Slot(cmp, n.key, st.elems)
    requires s' == st.elems[..k] + [n] + st.elems[k..] && i < j < |s'|
    ensures s'[i] != s'[j]
    ensures var birth := st.birth[n := st.clock];
      Equal(cmp, s'[i].key, s'[j].key) ==> s'[i] in birth && s'[j] in birth && birth[s'[i]] > birth[s'[j]]
  {
    var s := st.elems;
    PutIn(s, k, n, i);
    PutIn(s, k, n, j);
    if j == k {
      assert s[i] in s[..k];
    } else {
      assert s[Origin(k, j)] in s;
      if i != k { assert s[Origin(k, i)] in s; }
    }
  }

  lemma InsertStable(cmp: (Key, Key) -> bool, st: State, n: Node)
    requires TotalPreorder(cmp) && Stable(cmp, st) && n !in st.elems
    ensures Stable(cmp, Apply(cmp, st, Op.Insert(n)))
  {
    var st' := Apply(cmp, st, Op.Insert(n));
    StableInsertSorted(cmp, st.elems, n);
    assert forall e :: e in st'.elems ==> e == n || e in st.elems;
    forall i, j | 0 <= i < j < |st'.elems|
      ensures st'.elems[i] != st'.elems[j]
      ensures Equal(cmp, st'.elems[i].key, st'.elems[j].key) ==> st'.birth[st'.elems[i]] > st'.birth[st'.elems[j]]
    {
      PairStable(cmp, st, n, Slot(cmp, n.key, st.elems), st'.elems, i, j);
    }
  }

  lemma DeleteStable(cmp: (Key, Key) -> bool, st: State, n: Node)
    requires Stable(cmp, st) && n in st.elems
    ensures Stable(cmp, Apply(cmp, st, Op.Delete(n)))
  {
    var s' := Without(st.elems, n);
    var k := IndexOf(st.elems, n);
    forall e | e in s' ensures e in st.elems {
      var i :| 0 <= i < |s'| && s'[i] == e;
      TakenOut(st.elems, k, s', i);
    }
    forall i, j | 0 <= i < j < |s'|
      ensures s'[i] != s'[j] && cmp(s'[i].key, s'[j].key)
      ensures Equal(cmp, s'[i].key, s'[j].key) ==> st.birth[s'[i]] > st.birth[s'[j]]
    {
      TakenOut(st.elems, k, s', i);
      TakenOut(st.elems, k, s', j);
    }
  }

  lemma TakenOut(s: seq<Node>, k: nat, s': seq<Node>, i: nat)
    requires k < |s| && s' == s[..k] + s[k + 1..] && i < |s'|
    ensures s'[i] == s[Past(k, i)]
  {
  }

  /** Where element `i` of a sequence without element `k` was before. */
  function Past(k: nat, i: nat): nat
  {
    if i < k then i else i + 1
  }

  lemma SwapStable(cmp: (Key, Key) -> bool, st: State, a: Node, b: Node)
    requires TotalPreorder(cmp) && Stable(cmp, st) && Enabled(cmp, st, Swap(a, b))
    ensures Stable(cmp, Apply(cmp, st, Swap(a, b)))
  {
    var s := st.elems;
    var k := IndexOf(s, a);
    var s' := s[k := b];
    ReplaceSorted(cmp, s, k, b);
    assert forall e :: e in s' ==> e == b || e in s;
  }

  /** Every run keeps the elements sorted and stable. */
  lemma {:induction false} RunStable(cmp: (Key, Key) -> bool, st: State, ops: seq<Op>)
    requires TotalPreorder(cmp) && Stable(cmp, st) && Legal(cmp, st, ops)
    ensures Stable(cmp, Run(cmp, st, ops))
    decreases |ops|
  {
    if ops != [] {
      match ops[0] {
        case Insert(n) => InsertStable(cmp, st, n);
        case Delete(n) => DeleteStable(cmp, st, n);
        case Swap(a, b) => SwapStable(cmp, st, a, b);
      }
      RunStable(cmp, Apply(cmp, st, ops[0]), ops[1..]);
    }
  }

  lemma RunFromEmpty(cmp: (Key, Key) -> bool, ops: seq<Op>)
    requires TotalPreorder(cmp) && Legal(cmp, START, ops)
    ensures Stable(cmp, Run(cmp, START, ops))
  {
    RunStable(cmp, START, ops);
  }

  function OpNodes(ops: seq<Op>): set<Node>
  {
    if ops == [] then {}
    else (match ops[0]
          case Insert(n) => {n}
          case Delete(n) => {n}
          case Swap(a, b) => {a, b}) + OpNodes(ops[1..])
  }

  /** Carrying out a run on the pointer tree gives, in order, the elements of the abstract run. */
  method Execute(tree: Tree, ops: seq<Op>, ghost st: State)
    requires tree.Valid() && tree.Ordered() && tree.Elements() == st.elems
    requires Legal(tree.cmp, st, ops)
    modifies tree, tree.nodes, OpNodes(ops)
    ensures tree.Valid() && tree.Ordered()
    ensures tree.Elements() == Run(tree.cmp, st, ops).elems
    ensures tree.nodes <= old(tree.nodes) + OpNodes(ops)
    decreases |ops|
  {
    if ops != [] {
      NodesInorder(tree.shape);
      match ops[0] {
        case Insert(n) => var _ := tree.Insert(n);
        case Delete(n) => var _ := tree.Delete(n);
        case Swap(a, b) => tree.SwapNode(a, b);
      }
      Execute(tree, ops[1..], Apply(tree.cmp, st, ops[0]));
    }
  }
}
