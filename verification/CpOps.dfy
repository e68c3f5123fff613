/** What a parent adds to a checkpoint, and how it lies there. */
module CpOps {
  import opened Words
  import opened CStrings
  import opened CpFormat
  import opened CpStore
  import opened CpEmit
  import opened CpJobs
  import opened CpLists

  /** One emission: a memory area; an entry of a kind that is not restored here; the argument or
      environment list; the copy of an object; the overflow string of the `shim_qstr` at `rel` of an
      object; or a handle for the word at `rel` of an object. The object is the one that operation
      `host` copied. */
  datatype Op =
    | Memory(addr: u64, size: u64, prot: nat)
    | Value(kind: u64, val: u64)
    | Vector(environ: bool, v: seq<cstring>)
    | Object(data: seq<byte>)
    | Qstr(host: nat, rel: nat, text: cstring)
    | Handle(host: nat, rel: nat, handle: u64, uri: u64)

  function VectorKind(kinds: Kinds, environ: bool): u64
  {
    if environ then kinds.environ else kinds.arguments
  }

  /** The object has a `shim_qstr` at `rel`, with an overflow string of that length. */
  predicate TextOk(data: seq<byte>, rel: nat, text: cstring)
  {
    && rel + QSTR_BYTES <= |data| && WordAt(data, rel + QSTR_LEN) == |text|
    && WordAt(data, rel + QSTR_OFLOW) != 0 && |text| + 9 <= WORD_MAX
  }

  predicate OpOk(ops: seq<Op>, j: nat, kinds: Kinds)
    requires j < |ops|
  {
    match ops[j]
    case Memory(_, _, _) => true
    case Value(kind, val) =>
      && ItemOk(Entry(kind, val)) && kind != kinds.arguments && kind != kinds.environ && kind != kinds.qstr
    case Vector(_, v) => 8 * (|v| + 1) + TotalBytes(v) + 8 <= WORD_MAX
    case Object(data) => |data| + 8 <= WORD_MAX
    case Qstr(host, rel, text) => host < j && ops[host].Object? && TextOk(ops[host].data, rel, text)
    case Handle(host, rel, _, _) => host < j && ops[host].Object? && rel + 8 <= |ops[host].data|
  }

  predicate HasHost(op: Op)
  {
    op.Qstr? || op.Handle?
  }

  /** Two operations on one object concern different parts of it, and only one is for its handle. */
  predicate PairOk(a: Op, b: Op)
  {
    HasHost(a) && HasHost(b) && a.host == b.host ==>
      && (a.Qstr? || b.Qstr?)
      && var m, n := if a.Qstr? then QSTR_BYTES else 8, if b.Qstr? then QSTR_BYTES else 8;
         a.rel + m <= b.rel || b.rel + n <= a.rel
  }

  /** What checkpoint functions do: objects come before what belongs to them, in any interleaving. */
  predicate RunOk(ops: seq<Op>, kinds: Kinds)
  {
    && (forall j :: 0 <= j < |ops| ==> OpOk(ops, j, kinds))
    && forall i, j :: 0 <= i < j < |ops| ==> PairOk(ops[i], ops[j])
  }

  lemma PairEither(ops: seq<Op>, kinds: Kinds, i: nat, j: nat)
    requires RunOk(ops, kinds) && i < |ops| && j < |ops| && i != j
    ensures PairOk(ops[i], ops[j])
  {
    assert PairOk(ops[if i < j then i else j], ops[if i < j then j else i]);
  }

  // ---------------------------------------------------------------- where things are

  /** The items an operation adds. */
  function Width(op: Op): nat
  {
    if op.Vector? || HasHost(op) then 2 else 1
  }

  /** The bytes it takes. */
  function Need(op: Op): nat
  {
    match op
    case Memory(_, _, _) => NODE_NEED
    case Value(_, _) => ENTRY_SIZE
    case Vector(_, v) => VectorNeed(v)
    case Object(data) => ENTRY_SIZE + AlignUp8(|data|)
    case Qstr(_, _, text) => TextNeed(text)
    case Handle(_, _, _, _) => NODE_NEED + ENTRY_SIZE
  }

  /** The items before operation `n`, and the bytes. */
  function At(ops: seq<Op>, n: nat): nat
    requires n <= |ops|
  {
    if n == 0 then 0 else At(ops, n - 1) + Width(ops[n - 1])
  }

  function TotalNeed(ops: seq<Op>, n: nat): nat
    requires n <= |ops|
  {
    if n == 0 then 0 else TotalNeed(ops, n - 1) + Need(ops[n - 1])
  }

  /** The item of the object that operation `j` is about. */
  function HostAt(ops: seq<Op>, j: nat): nat
    requires j < |ops|
  {
    if HasHost(ops[j]) && ops[j].host < |ops| then At(ops, ops[j].host) else 0
  }

  lemma {:induction false} AtMonotone(ops: seq<Op>, i: nat, j: nat)
    requires i < j <= |ops|
    ensures At(ops, i) + Width(ops[i]) <= At(ops, j)
  {
    if i < j - 1 { AtMonotone(ops, i, j - 1); }
  }

  /** An item belongs to one operation, in one role. */
  lemma SamePlace(ops: seq<Op>, i: nat, a: nat, j: nat, b: nat)
    requires i < |ops| && j < |ops| && a < Width(ops[i]) && b < Width(ops[j])
    requires At(ops, i) + a == At(ops, j) + b
    ensures i == j && a == b
  {
    if i < j { AtMonotone(ops, i, j); }
    if j < i { AtMonotone(ops, j, i); }
  }

  /** Items of objects belong to objects. */
  lemma HostIs(ops: seq<Op>, kinds: Kinds, j: nat, i: nat)
    requires RunOk(ops, kinds) && j < |ops| && HasHost(ops[j]) && i < |ops| && HostAt(ops, j) == At(ops, i)
    ensures ops[j].host == i && ops[i].Object?
  {
    assert OpOk(ops, j, kinds);
    SamePlace(ops, ops[j].host, 0, i, 0);
  }

  // ---------------------------------------------------------------- what is to be restored

  function OpJobs(op: Op, host: nat): (js: seq<Job>)
    ensures |js| == Width(op)
  {
    match op
    case Vector(_, v) => [Other, Vec(v)]
    case Qstr(_, rel, text) => [Other, Overflow(host, rel, text)]
    case Handle(_, _, _, _) => [Other, Other]
    case _ => [Other]
  }

  function Jobs(ops: seq<Op>, n: nat): (js: seq<Job>)
    requires n <= |ops|
    ensures |js| == At(ops, n)
  {
    if n == 0 then [] else Jobs(ops, n - 1) + OpJobs(ops[n - 1], HostAt(ops, n - 1))
  }

  /** The operation that item `k` belongs to. */
  function OpOf(ops: seq<Op>, n: nat, k: nat): (j: nat)
    requires n <= |ops| && k < At(ops, n)
    ensures j < n && At(ops, j) <= k < At(ops, j) + Width(ops[j])
  {
    if k >= At(ops, n - 1) then n - 1 else OpOf(ops, n - 1, k)
  }

  lemma {:induction false} JobOf(ops: seq<Op>, n: nat, k: nat)
    requires n <= |ops| && k < At(ops, n)
    ensures var j := OpOf(ops, n, k); Jobs(ops, n)[k] == OpJobs(ops[j], HostAt(ops, j))[k - At(ops, j)]
  {
    if k < At(ops, n - 1) { JobOf(ops, n - 1, k); }
  }

  /** The job of an item by its operation and its role in it. */
  lemma JobAt(ops: seq<Op>, n: nat, j: nat, a: nat)
    requires j < n <= |ops| && a < Width(ops[j])
    ensures At(ops, j) + a < At(ops, n)
    ensures Jobs(ops, n)[At(ops, j) + a] == OpJobs(ops[j], HostAt(ops, j))[a]
  {
    AtMonotone(ops, j, n);
    var k := At(ops, j) + a;
    var i := OpOf(ops, n, k);
    SamePlace(ops, j, a, i, k - At(ops, i));
    JobOf(ops, n, k);
  }

  /** The jobs are those of the entries of vectors and overflow strings. */
  lemma JobRole(ops: seq<Op>, n: nat, k: nat)
    requires n <= |ops| && k < At(ops, n)
    ensures var j, job := OpOf(ops, n, k), Jobs(ops, n)[k];
      && (!job.Other? ==> k == At(ops, j) + 1)
      && (job.Vec? ==> ops[j].Vector? && ops[j].v == job.v)
      && (job.Overflow? ==>
            ops[j].Qstr? && job.host == HostAt(ops, j) && job.rel == ops[j].rel && job.text == ops[j].text)
  {
    JobOf(ops, n, k);
  }

  lemma PairApart(ops: seq<Op>, kinds: Kinds, n: nat, j: nat, k: nat)
    requires RunOk(ops, kinds) && n <= |ops| && j < At(ops, n) && k < At(ops, n) && j != k
    ensures JobsApart(Jobs(ops, n)[j], j, Jobs(ops, n)[k], k)
  {
    JobRole(ops, n, j);
    JobRole(ops, n, k);
    var a, b := OpOf(ops, n, j), OpOf(ops, n, k);
    var x, y := Jobs(ops, n)[j], Jobs(ops, n)[k];
    if x.Overflow? && !y.Other? && x.host == k - 1 { HostIs(ops, kinds, a, b); }
    if y.Overflow? && !x.Other? && y.host == j - 1 { HostIs(ops, kinds, b, a); }
    if x.Overflow? && y.Overflow? && x.host == y.host { SameHost(ops, kinds, a, b); }
  }

  lemma SameHost(ops: seq<Op>, kinds: Kinds, a: nat, b: nat)
    requires RunOk(ops, kinds) && a < |ops| && b < |ops| && a != b && ops[a].Qstr? && ops[b].Qstr?
    requires HostAt(ops, a) == HostAt(ops, b)
    ensures ops[a].rel + QSTR_BYTES <= ops[b].rel || ops[b].rel + QSTR_BYTES <= ops[a].rel
  {
    assert OpOk(ops, b, kinds);
    HostIs(ops, kinds, a, ops[b].host);
    PairEither(ops, kinds, a, b);
  }

  /** Jobs of a run never interfere. */
  lemma JobsApartInRun(ops: seq<Op>, kinds: Kinds, n: nat)
    requires RunOk(ops, kinds) && n <= |ops|
    ensures AllApart(Jobs(ops, n))
  {
    var jobs := Jobs(ops, n);
    forall j, k | 0 <= j < |jobs| && 0 <= k < |jobs| && j != k ensures JobsApart(jobs[j], j, jobs[k], k) {
      PairApart(ops, kinds, n, j, k);
    }
    forall k | 0 <= k < |jobs| && jobs[k].Overflow? ensures jobs[k].host != k - 1 {
      JobRole(ops, n, k);
      var j := OpOf(ops, n, k);
      if HostAt(ops, j) == At(ops, j) { HostIs(ops, kinds, j, j); }
    }
  }

  // ---------------------------------------------------------------- the lists of a run

  ghost function WithOp(l: Lists, op: Op, at: nat, host: nat): Lists
  {
    match op
    case Memory(addr, size, prot) => WithRegion(l, at, Region(addr, size, prot))
    case Handle(_, rel, handle, _) => WithRef(l, at, Ref(handle, host, rel))
    case _ => l
  }

  /** The region and handle lists that the first `n` operations make. */
  ghost function ListsOf(ops: seq<Op>, n: nat): Lists
    requires n <= |ops|
  {
    if n == 0 then Lists([], [], [], [])
    else WithOp(ListsOf(ops, n - 1), ops[n - 1], At(ops, n - 1), HostAt(ops, n - 1))
  }

  ghost predicate MemoryOp(ops: seq<Op>, j: nat, x: nat)
  {
    j < |ops| && ops[j].Memory? && x == At(ops, j)
  }

  ghost predicate HandleOp(ops: seq<Op>, j: nat, x: nat)
  {
    j < |ops| && ops[j].Handle? && x == At(ops, j)
  }

  ghost predicate SlotOp(ops: seq<Op>, j: nat, r: Ref)
  {
    j < |ops| && ops[j].Handle? && r == Ref(ops[j].handle, HostAt(ops, j), ops[j].rel)
  }

  /** Where the nodes and slots of a run come from. */
  lemma {:induction false} ListOrigins(ops: seq<Op>, n: nat)
    requires n <= |ops|
    ensures forall x :: x in ListsOf(ops, n).memIdx ==> exists j: nat :: j < n && MemoryOp(ops, j, x)
    ensures forall x :: x in ListsOf(ops, n).hdlIdx ==> exists j: nat :: j < n && HandleOp(ops, j, x)
    ensures forall r :: r in ListsOf(ops, n).refs ==> exists j: nat :: j < n && SlotOp(ops, j, r)
  {
    if n > 0 {
      var i, l, l' := n - 1, ListsOf(ops, n - 1), ListsOf(ops, n);
      ListOrigins(ops, i);
      forall x | x in l'.memIdx ensures exists j: nat :: j < n && MemoryOp(ops, j, x) {
        if x !in l.memIdx { assert MemoryOp(ops, i, x); }
      }
      forall x | x in l'.hdlIdx ensures exists j: nat :: j < n && HandleOp(ops, j, x) {
        if x !in l.hdlIdx { assert HandleOp(ops, i, x); }
      }
      forall r | r in l'.refs ensures exists j: nat :: j < n && SlotOp(ops, j, r) {
        if r !in l.refs { assert SlotOp(ops, i, r); }
      }
    }
  }

  ghost predicate RegionOf(l: Lists, x: nat, k: nat, r: Region)
  {
    x < |l.memIdx| && x < |l.regions| && l.memIdx[x] == k && l.regions[x] == r
  }

  ghost predicate Member(l: Lists, op: Op, at: nat, host: nat)
  {
    match op
    case Memory(addr, size, prot) => exists x: nat :: RegionOf(l, x, at, Region(addr, size, prot))
    case Handle(_, rel, handle, _) => Ref(handle, host, rel) in l.refs
    case _ => true
  }

  /** Every memory area and every handle of a run is in its list. */
  lemma {:induction false} ListMembers(ops: seq<Op>, n: nat, j: nat)
    requires j < n <= |ops|
    ensures Member(ListsOf(ops, n), ops[j], At(ops, j), HostAt(ops, j))
  {
    var l, l', op, at := ListsOf(ops, n - 1), ListsOf(ops, n), ops[j], At(ops, j);
    if j < n - 1 { ListMembers(ops, n - 1, j); }
    if op.Memory? {
      var r := Region(op.addr, op.size, op.prot);
      if j < n - 1 {
        var x: nat :| RegionOf(l, x, at, r);
        assert RegionOf(l', x, at, r);
      } else {
        ListsEven(ops, n - 1);
        assert RegionOf(l', |l.memIdx|, at, r);
      }
    }
  }

  lemma {:induction false} ListsEven(ops: seq<Op>, n: nat)
    requires n <= |ops|
    ensures |ListsOf(ops, n).regions| == |ListsOf(ops, n).memIdx|
  {
    if n > 0 { ListsEven(ops, n - 1); }
  }

  /** The first item of another operation is no node, and of slots only its own lie in it. */
  lemma NotANode(ops: seq<Op>, kinds: Kinds, n: nat, j: nat)
    requires RunOk(ops, kinds) && n <= |ops| && j < |ops| && !ops[j].Memory? && !ops[j].Handle?
    ensures var l := ListsOf(ops, n);
      && At(ops, j) !in l.memIdx && At(ops, j) !in l.hdlIdx
      && forall r :: r in l.refs && r.item == At(ops, j) ==>
           exists i: nat :: i < n && SlotOp(ops, i, r) && ops[i].host == j && ops[j].Object?
  {
    var l, k := ListsOf(ops, n), At(ops, j);
    ListOrigins(ops, n);
    if k in l.memIdx {
      var i: nat :| i < n && MemoryOp(ops, i, k);
      SamePlace(ops, i, 0, j, 0);
    }
    if k in l.hdlIdx {
      var i: nat :| i < n && HandleOp(ops, i, k);
      SamePlace(ops, i, 0, j, 0);
    }
    forall r | r in l.refs && r.item == k
      ensures exists i: nat :: i < n && SlotOp(ops, i, r) && ops[i].host == j && ops[j].Object?
    {
      var i: nat :| i < n && SlotOp(ops, i, r);
      HostIs(ops, kinds, i, j);
    }
  }

  /** Before its handle is added, an object has no slot. */
  lemma HostFree(ops: seq<Op>, kinds: Kinds, j: nat)
    requires RunOk(ops, kinds) && j < |ops| && ops[j].Handle?
    ensures Free(ListsOf(ops, j), HostAt(ops, j))
  {
    assert OpOk(ops, j, kinds);
    var h, l := ops[j].host, ListsOf(ops, j);
    NotANode(ops, kinds, j, h);
    forall r | r in l.refs ensures r.item != At(ops, h) {
      if r.item == At(ops, h) {
        var i: nat :| i < j && SlotOp(ops, i, r) && ops[i].host == h && ops[h].Object?;
        PairEither(ops, kinds, i, j);
      }
    }
  }

  /** Receiving changes nothing that restoring this job depends on, and the other way round. */
  ghost predicate JobClear(l: Lists, job: Job, k: nat)
  {
    && (!job.Other? ==> k > 0 && Free(l, k - 1))
    && (job.Overflow? ==>
          && job.host !in l.memIdx && job.host !in l.hdlIdx
          && forall r :: r in l.refs && r.item == job.host ==> r.rel + 8 <= job.rel || job.rel + QSTR_BYTES <= r.rel)
  }

  ghost predicate AllClear(l: Lists, jobs: seq<Job>)
  {
    forall k :: 0 <= k < |jobs| ==> JobClear(l, jobs[k], k)
  }

  /** The slot in an object is apart from its `shim_qstr`s. */
  lemma SlotApart(ops: seq<Op>, kinds: Kinds, n: nat, j: nat, r: Ref)
    requires RunOk(ops, kinds) && n <= |ops| && j < |ops| && ops[j].Qstr?
    requires r in ListsOf(ops, n).refs && r.item == HostAt(ops, j)
    ensures r.rel + 8 <= ops[j].rel || ops[j].rel + QSTR_BYTES <= r.rel
  {
    assert OpOk(ops, j, kinds);
    NotANode(ops, kinds, n, ops[j].host);
    var i: nat :| i < n && SlotOp(ops, i, r) && ops[i].host == ops[j].host;
    PairEither(ops, kinds, i, j);
  }

  lemma RunClear(ops: seq<Op>, kinds: Kinds, n: nat)
    requires RunOk(ops, kinds) && n <= |ops|
    ensures AllClear(ListsOf(ops, n), Jobs(ops, n))
  {
    var l, jobs := ListsOf(ops, n), Jobs(ops, n);
    forall k | 0 <= k < |jobs| ensures JobClear(l, jobs[k], k) {
      JobRole(ops, n, k);
      var j := OpOf(ops, n, k);
      if !jobs[k].Other? { NotANode(ops, kinds, n, j); }
      if jobs[k].Overflow? {
        assert OpOk(ops, j, kinds);
        NotANode(ops, kinds, n, ops[j].host);
        forall r | r in l.refs && r.item == jobs[k].host
          ensures r.rel + 8 <= jobs[k].rel || jobs[k].rel + QSTR_BYTES <= r.rel
        {
          SlotApart(ops, kinds, n, j, r);
        }
      }
    }
  }

  // ---------------------------------------------------------------- what the parent's items hold

  /** Item `k` is the copy of an object. */
  ghost predicate CopyHeld(items: seq<Item>, k: nat, data: seq<byte>)
  {
    && k < |items| && items[k].Oob? && |items[k].payload| == AlignUp8(|data|)
    && HasAt(items[k].payload, 0, data)
  }

  ghost predicate TextHeld(items: seq<Item>, kinds: Kinds, at: nat, host: nat, rel: nat, text: cstring)
  {
    && at + 1 < |items| && host < |items| && TextItem(items, at, text)
    && items[at + 1].Entry? && items[at + 1].kind == kinds.qstr && items[at + 1].val == PayloadAt(items, host) + rel
  }

  ghost predicate NodeHeld(items: seq<Item>, kinds: Kinds, at: nat)
  {
    NodeItem(items, at) && at + 1 < |items| && items[at + 1].Entry? && items[at + 1].kind == kinds.palhdl
  }

  /** The items from `at` on are those of `op`, for a checkpoint at `base`. */
  ghost predicate OpHeld(items: seq<Item>, base: nat, kinds: Kinds, op: Op, at: nat, host: nat)
  {
    && at + Width(op) <= |items|
    && match op
       case Memory(_, _, _) => NodeItem(items, at)
       case Value(kind, val) => items[at] == Entry(kind, val)
       case Vector(environ, v) =>
         VectorItem(items, at, base, v) && EntryFor(items, at + 1, VectorKind(kinds, environ))
       case Object(data) => CopyHeld(items, at, data)
       case Qstr(_, rel, text) => TextHeld(items, kinds, at, host, rel, text)
       case Handle(_, _, _, _) => NodeHeld(items, kinds, at)
  }

  lemma HeldKept(items: seq<Item>, items': seq<Item>, base: nat, kinds: Kinds, op: Op, at: nat, host: nat)
    requires OpHeld(items, base, kinds, op, at, host) && items <= items'
    ensures OpHeld(items', base, kinds, op, at, host)
  {
    if op.Vector? { SameOffsets(items, items', at); }
    if op.Qstr? { SameOffsets(items, items', host); }
  }

  /** Operation `j` of a run lies in its place. */
  ghost predicate InPlace(items: seq<Item>, base: nat, kinds: Kinds, ops: seq<Op>, j: nat)
    requires j < |ops|
  {
    OpHeld(items, base, kinds, ops[j], At(ops, j), HostAt(ops, j))
  }

  ghost predicate AllHeld(items: seq<Item>, base: nat, kinds: Kinds, ops: seq<Op>, n: nat)
    requires n <= |ops|
  {
    |items| == At(ops, n) && forall j :: 0 <= j < n ==> InPlace(items, base, kinds, ops, j)
  }

  lemma InPlaceKept(items: seq<Item>, items': seq<Item>, base: nat, kinds: Kinds, ops: seq<Op>, j: nat)
    requires j < |ops| && InPlace(items, base, kinds, ops, j) && items <= items'
    ensures InPlace(items', base, kinds, ops, j)
  {
    HeldKept(items, items', base, kinds, ops[j], At(ops, j), HostAt(ops, j));
  }

  lemma HeldNext(items: seq<Item>, items': seq<Item>, base: nat, kinds: Kinds, ops: seq<Op>, i: nat, n: nat)
    requires n == i + 1 <= |ops| && AllHeld(items, base, kinds, ops, i) && items <= items'
    requires |items'| == |items| + Width(ops[i]) && InPlace(items', base, kinds, ops, i)
    ensures AllHeld(items', base, kinds, ops, n)
  {
    forall j | 0 <= j < n ensures InPlace(items', base, kinds, ops, j) {
      if j < i { InPlaceKept(items, items', base, kinds, ops, j); }
    }
  }

  /** The copy of a `shim_qstr` has its length and its pointer. */
  lemma QstrCopied(items: seq<Item>, k: nat, data: seq<byte>, rel: nat, text: cstring)
    requires CopyHeld(items, k, data) && TextOk(data, rel, text)
    ensures QstrAt(items, k, rel, |text|) && WordAt(items[k].payload, rel + QSTR_OFLOW) != 0
  {
    DataWord(items[k].payload, data, rel + QSTR_LEN);
    DataWord(items[k].payload, data, rel + QSTR_OFLOW);
  }

  /** The word at `x` of a payload that starts with `data`. */
  lemma DataWord(p: seq<byte>, data: seq<byte>, x: nat)
    requires HasAt(p, 0, data) && x + 8 <= |data|
    ensures WordAt(p, x) == WordAt(data, x)
  {
    SliceSlice(p, 0, |data|, x, 8);
  }

  /** Item `k` is ready for its job, which is the one its type asks for. */
  ghost predicate Fit(items: seq<Item>, base: nat, kinds: Kinds, job: Job, k: nat)
    requires k < |items|
  {
    Ready(items, job, k, base) && JobFits(items[k], job, kinds)
  }

  lemma OpReady(items: seq<Item>, base: nat, kinds: Kinds, ops: seq<Op>, j: nat, at: nat, host: nat, a: nat)
    requires KindsOk(kinds) && j < |ops| && OpOk(ops, j, kinds) && a < Width(ops[j])
    requires OpHeld(items, base, kinds, ops[j], at, host)
    requires ops[j].Qstr? ==> QstrAt(items, host, ops[j].rel, |ops[j].text|)
    ensures Fit(items, base, kinds, OpJobs(ops[j], host)[a], at + a)
  {
  }

  /** The host of an overflow string is there when the string is. */
  lemma HostReady(items: seq<Item>, base: nat, kinds: Kinds, ops: seq<Op>, n: nat, j: nat)
    requires RunOk(ops, kinds) && n <= |ops| && AllHeld(items, base, kinds, ops, n) && j <= n && j < |ops|
    requires HasHost(ops[j])
    ensures OpOk(ops, j, kinds)
    ensures CopyHeld(items, HostAt(ops, j), ops[ops[j].host].data)
    ensures ops[j].Qstr? ==>
      && QstrAt(items, HostAt(ops, j), ops[j].rel, |ops[j].text|)
      && WordAt(items[HostAt(ops, j)].payload, ops[j].rel + QSTR_OFLOW) != 0
  {
    assert OpOk(ops, j, kinds);
    assert InPlace(items, base, kinds, ops, ops[j].host);
    if ops[j].Qstr? { QstrCopied(items, HostAt(ops, j), ops[ops[j].host].data, ops[j].rel, ops[j].text); }
  }

  lemma ItemReady(items: seq<Item>, base: nat, kinds: Kinds, ops: seq<Op>, n: nat, k: nat, j: nat, at: nat)
    requires KindsOk(kinds) && RunOk(ops, kinds) && n <= |ops| && AllHeld(items, base, kinds, ops, n)
    requires k < At(ops, n) && j == OpOf(ops, n, k) && at == At(ops, j)
    ensures Fit(items, base, kinds, Jobs(ops, n)[k], k)
  {
    JobOf(ops, n, k);
    assert InPlace(items, base, kinds, ops, j) && OpOk(ops, j, kinds);
    if ops[j].Qstr? { HostReady(items, base, kinds, ops, n, j); }
    OpReady(items, base, kinds, ops, j, at, HostAt(ops, j), k - at);
  }

  /** Every item of a run is ready to be restored, and has the job its type asks for. */
  lemma RunReady(items: seq<Item>, base: nat, kinds: Kinds, ops: seq<Op>, n: nat, to: nat)
    requires KindsOk(kinds) && RunOk(ops, kinds) && n <= |ops| && AllHeld(items, base, kinds, ops, n)
    ensures Status(items, Jobs(ops, n), 0, base, to) && AllFit(items, Jobs(ops, n), kinds)
  {
    var jobs := Jobs(ops, n);
    forall k | 0 <= k < |jobs| ensures Fit(items, base, kinds, jobs[k], k) {
      ItemReady(items, base, kinds, ops, n, k, OpOf(ops, n, k), At(ops, OpOf(ops, n, k)));
    }
    assert forall k :: 0 <= k < |jobs| && Fit(items, base, kinds, jobs[k], k) ==>
      Ready(items, jobs[k], k, base) && JobFits(items[k], jobs[k], kinds);
  }
}
