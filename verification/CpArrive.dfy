/** What becomes of a checkpoint when its memory and handles are received and its objects restored:
    the two leave each other's part alone. */
module CpArrive {
  import opened Wrappers
  import opened Words
  import opened CStrings
  import opened CpFormat
  import opened CpStore
  import opened CpChange
  import opened CpEmit
  import opened CpJobs
  import opened CpLists
  import opened CpHandles
  import opened CpOps

  // ---------------------------------------------------------------- receiving spares the jobs

  ghost predicate Untouched(t: iset<Place>, k: nat)
  {
    forall i: nat :: (k, i) !in t
  }

  /** All that makes an item ready for its job lies outside `t`. */
  ghost predicate Spared(t: iset<Place>, job: Job, k: nat)
  {
    && (!job.Other? ==> k > 0 && Untouched(t, k - 1))
    && (job.Overflow? ==> forall i: nat :: job.rel <= i < job.rel + QSTR_BYTES ==> (job.host, i) !in t)
  }

  lemma ListsSpare(l: Lists, job: Job, k: nat)
    requires JobClear(l, job, k)
    ensures Spared(ListBytes(l), job, k)
  {
  }

  lemma ItemSame(items: seq<Item>, items': seq<Item>, t: iset<Place>, k: nat)
    requires Same(items, items', t) && k < |items| && Untouched(t, k)
    ensures items'[k] == items[k]
  {
    assert SameAt(items, items', t, k);
    if items[k].Oob? {
      var p, p' := items[k].payload, items'[k].payload;
      forall i | 0 <= i < |p| ensures p'[i] == p[i] {
        assert (k, i) !in t;
      }
      assert p' == p;
    }
  }

  lemma ReadyKept(items: seq<Item>, items': seq<Item>, t: iset<Place>, job: Job, k: nat, base: nat)
    requires Same(items, items', t) && k < |items| && Spared(t, job, k) && Ready(items, job, k, base)
    ensures Ready(items', job, k, base)
  {
    if !job.Other? {
      assert SameAt(items, items', t, k);
      ItemSame(items, items', t, k - 1);
      SameOffset(items, items', t, k - 1);
    }
    if job.Overflow? {
      SameOffset(items, items', t, job.host);
      SameSlice(items, items', t, job.host, job.rel + QSTR_LEN, 8);
    }
  }

  /** After the lists have been received, everything is as ready for restoring as the parent left it. */
  lemma StillReady(items: seq<Item>, items': seq<Item>, l: Lists, jobs: seq<Job>, kinds: Kinds, from: nat, to: nat)
    requires Same(items, items', ListBytes(l)) && AllClear(l, jobs)
    requires Status(items, jobs, 0, from, to) && AllFit(items, jobs, kinds)
    ensures Status(items', jobs, 0, from, to) && AllFit(items', jobs, kinds)
  {
    forall k | 0 <= k < |jobs| ensures Ready(items', jobs[k], k, from) && JobFits(items'[k], jobs[k], kinds) {
      assert JobFits(items[k], jobs[k], kinds) && SameAt(items, items', ListBytes(l), k);
      ListsSpare(l, jobs[k], k);
      ReadyKept(items, items', ListBytes(l), jobs[k], k, from);
    }
  }

  // ---------------------------------------------------------------- restoring spares the lists

  /** Byte `i` of item `k` is part of a node or a slot. */
  ghost predicate InList(l: Lists, k: nat, i: nat)
  {
    k in l.memIdx || k in l.hdlIdx || exists r :: r in l.refs && r.item == k && r.rel <= i < r.rel + 8
  }

  lemma JobsSpare(l: Lists, jobs: seq<Job>, k: nat, i: nat)
    requires AllClear(l, jobs) && InList(l, k, i)
    ensures (k, i) !in JobBytes(jobs)
  {
  }

  lemma NodeKept(items: seq<Item>, items': seq<Item>, l: Lists, jobs: seq<Job>, k: nat)
    requires Same(items, items', JobBytes(jobs)) && AllClear(l, jobs) && k < |items|
    requires k in l.memIdx || k in l.hdlIdx
    ensures items'[k] == items[k]
  {
    forall i: nat ensures (k, i) !in JobBytes(jobs) {
      JobsSpare(l, jobs, k, i);
    }
    ItemSame(items, items', JobBytes(jobs), k);
  }

  lemma ChainSame(items: seq<Item>, items': seq<Item>, t: iset<Place>, base: nat, head: nat, idx: seq<nat>)
    requires Same(items, items', t) && Chain(items, base, head, idx)
    requires forall j :: 0 <= j < |idx| ==> items'[idx[j]] == items[idx[j]]
    ensures Chain(items', base, head, idx)
  {
    BeforeSame(items, items', t, base, idx, |idx|);
    forall j | 0 <= j < |idx| ensures Linked(items', base, idx, j) {
      assert Linked(items, base, idx, j);
      BeforeSame(items, items', t, base, idx, j);
    }
  }

  lemma BeforeSame(items: seq<Item>, items': seq<Item>, t: iset<Place>, base: nat, idx: seq<nat>, j: nat)
    requires Same(items, items', t) && Positions(idx, |items|) && j <= |idx|
    ensures Before(items', base, idx, j) == Before(items, base, idx, j)
  {
    if j > 0 { SameOffset(items, items', t, idx[j - 1]); }
  }

  lemma RefSame(items: seq<Item>, items': seq<Item>, t: iset<Place>, base: nat, k: nat, r: Ref)
    requires Same(items, items', t) && RefAt(items, base, k, r) && items'[k] == items[k]
    ensures RefAt(items', base, k, r)
  {
    assert SameAt(items, items', t, r.item);
    SameOffset(items, items', t, r.item);
  }

  /** Restoring leaves both lists as they are. */
  lemma StillListed(items: seq<Item>, items': seq<Item>, base: nat, firstMem: nat, lastHdl: nat, l: Lists,
                    jobs: seq<Job>)
    requires Same(items, items', JobBytes(jobs)) && AllClear(l, jobs) && Listed(items, base, firstMem, lastHdl, l)
    ensures Listed(items', base, firstMem, lastHdl, l)
  {
    var t := JobBytes(jobs);
    forall j | 0 <= j < |l.memIdx| ensures items'[l.memIdx[j]] == items[l.memIdx[j]] {
      NodeKept(items, items', l, jobs, l.memIdx[j]);
    }
    forall j | 0 <= j < |l.hdlIdx| ensures items'[l.hdlIdx[j]] == items[l.hdlIdx[j]] {
      NodeKept(items, items', l, jobs, l.hdlIdx[j]);
    }
    ChainSame(items, items', t, base, firstMem, l.memIdx);
    ChainSame(items, items', t, base, lastHdl, l.hdlIdx);
    forall j | 0 <= j < |l.memIdx| ensures RegionAt(items', l.memIdx[j], l.regions[j]) {
      assert RegionAt(items, l.memIdx[j], l.regions[j]);
    }
    forall j | 0 <= j < |l.hdlIdx| ensures RefAt(items', base, l.hdlIdx[j], l.refs[j]) {
      assert RefAt(items, base, l.hdlIdx[j], l.refs[j]);
      RefSame(items, items', t, base, l.hdlIdx[j], l.refs[j]);
    }
  }

  /** ... and the handles where they were stored. */
  lemma StillStored(items: seq<Item>, items': seq<Item>, l: Lists, jobs: seq<Job>)
    requires Same(items, items', JobBytes(jobs)) && AllClear(l, jobs) && Stored(items, l.refs, |l.refs|)
    ensures Stored(items', l.refs, |l.refs|)
  {
    forall n | 0 <= n < |l.refs| ensures SlotHolds(items', l.refs[n]) {
      var r := l.refs[n];
      assert SlotHolds(items, r);
      forall i: nat | r.rel <= i < r.rel + 8 ensures (r.item, i) !in JobBytes(jobs) {
        JobsSpare(l, jobs, r.item, i);
      }
      SameSlice(items, items', JobBytes(jobs), r.item, r.rel, 8);
    }
  }

  // ---------------------------------------------------------------- what has arrived

  /** `op` has byte `i` of the object of operation `j` overwritten: an `oflow` pointer or a handle. */
  predicate Overwrites(op: Op, j: nat, i: nat)
  {
    || (op.Qstr? && op.host == j && op.rel + QSTR_OFLOW <= i < op.rel + QSTR_OFLOW + 8)
    || (op.Handle? && op.host == j && op.rel <= i < op.rel + 8)
  }

  ghost predicate Replaced(ops: seq<Op>, j: nat, i: nat)
  {
    exists m :: 0 <= m < |ops| && Overwrites(ops[m], j, i)
  }

  /** The copy of the object of operation `j`, apart from what is replaced. */
  ghost predicate CopyArrived(items: seq<Item>, ops: seq<Op>, j: nat, at: nat, data: seq<byte>)
  {
    && at < |items| && items[at].Oob? && |items[at].payload| == AlignUp8(|data|)
    && forall i :: 0 <= i < |data| && !Replaced(ops, j, i) ==> items[at].payload[i] == data[i]
  }

  /** The `oflow` pointer of the `shim_qstr` leads to its text, in item `at`. */
  ghost predicate LeadsToText(items: seq<Item>, base: nat, host: nat, rel: nat, text: cstring, at: nat)
  {
    && QstrAt(items, host, rel, |text|) && TextItem(items, at, text)
    && WordAt(items[host].payload, rel + QSTR_OFLOW) == base + PayloadAt(items, at)
  }

  ghost predicate OpArrived(items: seq<Item>, base: nat, kinds: Kinds, ops: seq<Op>, j: nat, at: nat, host: nat)
    requires j < |ops|
  {
    && at + Width(ops[j]) <= |items|
    && match ops[j]
       case Memory(addr, size, prot) => RegionAt(items, at, Region(addr, size, prot))
       case Value(kind, val) => items[at] == Entry(kind, val)
       case Vector(environ, v) =>
         VectorItem(items, at, base, v) && EntryFor(items, at + 1, VectorKind(kinds, environ))
       case Object(data) => CopyArrived(items, ops, j, at, data)
       case Qstr(_, rel, text) => LeadsToText(items, base, host, rel, text, at)
       case Handle(_, rel, handle, _) => SlotHolds(items, Ref(handle, host, rel))
  }

  /** Operation `j` has arrived in a checkpoint that is now at `base`. */
  ghost predicate Arrived(items: seq<Item>, base: nat, kinds: Kinds, ops: seq<Op>, j: nat)
    requires j < |ops|
  {
    OpArrived(items, base, kinds, ops, j, At(ops, j), HostAt(ops, j))
  }

  /** The rest of an object is never written to. */
  lemma UntouchedByte(ops: seq<Op>, kinds: Kinds, j: nat, i: nat)
    requires RunOk(ops, kinds) && j < |ops| && ops[j].Object? && !Replaced(ops, j, i)
    ensures (At(ops, j), i) !in ListBytes(ListsOf(ops, |ops|))
    ensures (At(ops, j), i) !in JobBytes(Jobs(ops, |ops|))
  {
    var at, jobs := At(ops, j), Jobs(ops, |ops|);
    NoSlotByte(ops, kinds, j, i);
    if at + 1 < |jobs| { NoVectorIn(ops, j, at, at + 1); }
    forall k | 0 <= k < |jobs| ensures !OflowByte(jobs[k], at, i) {
      OtherOflow(ops, kinds, j, i, at, k);
    }
  }

  lemma NoSlotByte(ops: seq<Op>, kinds: Kinds, j: nat, i: nat)
    requires RunOk(ops, kinds) && j < |ops| && ops[j].Object? && !Replaced(ops, j, i)
    ensures (At(ops, j), i) !in ListBytes(ListsOf(ops, |ops|))
  {
    var n, at := |ops|, At(ops, j);
    NotANode(ops, kinds, n, j);
    forall r | r in ListsOf(ops, n).refs && r.item == at ensures !(r.rel <= i < r.rel + 8) {
      var m: nat :| m < n && SlotOp(ops, m, r) && ops[m].host == j && ops[j].Object?;
      assert !Overwrites(ops[m], j, i);
    }
  }

  lemma NoVectorIn(ops: seq<Op>, j: nat, at: nat, k: nat)
    requires j < |ops| && ops[j].Object? && at == At(ops, j) && k == at + 1 < At(ops, |ops|)
    ensures !Jobs(ops, |ops|)[k].Vec?
  {
    JobRole(ops, |ops|, k);
    var i := OpOf(ops, |ops|, k);
    if Jobs(ops, |ops|)[k].Vec? {
      assert At(ops, i) == at;
      SamePlace(ops, i, 0, j, 0);
    }
  }

  lemma OtherOflow(ops: seq<Op>, kinds: Kinds, j: nat, i: nat, at: nat, k: nat)
    requires RunOk(ops, kinds) && j < |ops| && ops[j].Object? && !Replaced(ops, j, i) && at == At(ops, j)
    requires k < At(ops, |ops|)
    ensures !OflowByte(Jobs(ops, |ops|)[k], at, i)
  {
    JobRole(ops, |ops|, k);
    var m := OpOf(ops, |ops|, k);
    if OflowByte(Jobs(ops, |ops|)[k], at, i) {
      HostIs(ops, kinds, m, j);
      assert Overwrites(ops[m], j, i);
    }
  }

  /** The parent's items `p` become `m` when the lists are received, and `c` when the objects are restored. */
  ghost predicate Passage(p: seq<Item>, m: seq<Item>, c: seq<Item>, from: nat, to: nat, kinds: Kinds, ops: seq<Op>)
  {
    var l, jobs := ListsOf(ops, |ops|), Jobs(ops, |ops|);
    && RunOk(ops, kinds) && AllHeld(p, from, kinds, ops, |ops|) && Same(p, m, ListBytes(l))
    && Same(m, c, JobBytes(jobs)) && Status(c, jobs, |jobs|, from, to) && Stored(c, l.refs, |l.refs|)
    && (forall x :: 0 <= x < |l.memIdx| && x < |l.regions| ==> RegionAt(c, l.memIdx[x], l.regions[x]))
  }

  lemma EntryPassed(p: seq<Item>, m: seq<Item>, c: seq<Item>, from: nat, to: nat, kinds: Kinds, ops: seq<Op>, k: nat)
    requires Passage(p, m, c, from, to, kinds, ops) && k < |p|
    ensures |c| == |p| && c[k].Entry? == p[k].Entry? && (p[k].Entry? ==> c[k] == p[k])
    ensures p[k].Oob? ==> |c[k].payload| == |p[k].payload|
  {
    var l, jobs := ListsOf(ops, |ops|), Jobs(ops, |ops|);
    assert SameAt(p, m, ListBytes(l), k) && SameAt(m, c, JobBytes(jobs), k);
  }

  lemma JobPassed(p: seq<Item>, m: seq<Item>, c: seq<Item>, from: nat, to: nat, kinds: Kinds, ops: seq<Op>, j: nat,
                  a: nat, job: Job)
    requires Passage(p, m, c, from, to, kinds, ops) && j < |ops| && a < Width(ops[j])
    requires job == OpJobs(ops[j], HostAt(ops, j))[a]
    ensures At(ops, j) + a < |c| && Done(c, job, At(ops, j) + a, to)
  {
    JobAt(ops, |ops|, j, a);
  }

  lemma VectorArrives(p: seq<Item>, m: seq<Item>, c: seq<Item>, from: nat, to: nat, kinds: Kinds, ops: seq<Op>, j: nat,
                      at: nat)
    requires Passage(p, m, c, from, to, kinds, ops) && j < |ops| && ops[j].Vector? && at == At(ops, j)
    requires InPlace(p, from, kinds, ops, j)
    ensures at + 1 < |c| && VectorItem(c, at, to, ops[j].v)
    ensures EntryFor(c, at + 1, VectorKind(kinds, ops[j].environ))
  {
    JobPassed(p, m, c, from, to, kinds, ops, j, 1, Vec(ops[j].v));
    EntryPassed(p, m, c, from, to, kinds, ops, at + 1);
    VectorDone(c, to, ops[j].v, at, at + 1);
  }

  lemma VectorDone(items: seq<Item>, base: nat, v: seq<cstring>, at: nat, k: nat)
    requires k == at + 1 < |items| && Done(items, Vec(v), k, base)
    ensures VectorItem(items, at, base, v) && EntryFor(items, k, items[k].kind)
  {
  }

  lemma BytesArrive(p: seq<Item>, m: seq<Item>, c: seq<Item>, from: nat, to: nat, kinds: Kinds, ops: seq<Op>, j: nat,
                    at: nat, data: seq<byte>, i: nat)
    requires Passage(p, m, c, from, to, kinds, ops) && j < |ops| && ops[j] == Object(data) && at == At(ops, j)
    requires CopyHeld(p, at, data) && i < |data| && !Replaced(ops, j, i)
    ensures at < |c| && c[at].Oob? && i < |c[at].payload| && c[at].payload[i] == data[i]
  {
    var l, jobs := ListsOf(ops, |ops|), Jobs(ops, |ops|);
    UntouchedByte(ops, kinds, j, i);
    assert SameAt(p, m, ListBytes(l), at) && SameAt(m, c, JobBytes(jobs), at);
    assert p[at].payload[0..|data|][i] == data[i];
  }

  lemma ObjectArrives(p: seq<Item>, m: seq<Item>, c: seq<Item>, from: nat, to: nat, kinds: Kinds, ops: seq<Op>, j: nat,
                      at: nat, data: seq<byte>)
    requires Passage(p, m, c, from, to, kinds, ops) && j < |ops| && ops[j] == Object(data) && at == At(ops, j)
    requires CopyHeld(p, at, data)
    ensures CopyArrived(c, ops, j, at, data)
  {
    EntryPassed(p, m, c, from, to, kinds, ops, at);
    forall i | 0 <= i < |data| && !Replaced(ops, j, i) ensures c[at].payload[i] == data[i] {
      BytesArrive(p, m, c, from, to, kinds, ops, j, at, data, i);
    }
  }

  lemma TextArrives(p: seq<Item>, m: seq<Item>, c: seq<Item>, from: nat, to: nat, kinds: Kinds, ops: seq<Op>, j: nat,
                    at: nat, host: nat)
    requires Passage(p, m, c, from, to, kinds, ops) && j < |ops| && ops[j].Qstr? && at == At(ops, j)
    requires host == HostAt(ops, j)
    ensures LeadsToText(c, to, host, ops[j].rel, ops[j].text, at)
  {
    JobPassed(p, m, c, from, to, kinds, ops, j, 1, Overflow(host, ops[j].rel, ops[j].text));
    DoneLeads(c, to, host, ops[j].rel, ops[j].text, at, at + 1);
  }

  lemma DoneLeads(items: seq<Item>, base: nat, host: nat, rel: nat, text: cstring, at: nat, k: nat)
    requires k == at + 1 < |items| && Done(items, Overflow(host, rel, text), k, base)
    ensures LeadsToText(items, base, host, rel, text, at)
  {
  }

  /** Every operation arrives. */
  lemma OpArrives(p: seq<Item>, m: seq<Item>, c: seq<Item>, from: nat, to: nat, kinds: Kinds, ops: seq<Op>, j: nat,
                  at: nat, host: nat)
    requires Passage(p, m, c, from, to, kinds, ops) && j < |ops| && at == At(ops, j) && host == HostAt(ops, j)
    ensures OpArrived(c, to, kinds, ops, j, at, host)
  {
    var l := ListsOf(ops, |ops|);
    assert InPlace(p, from, kinds, ops, j);
    ListMembers(ops, |ops|, j);
    EntryPassed(p, m, c, from, to, kinds, ops, at);
    match ops[j] {
      case Memory(addr, size, prot) =>
        var x: nat :| RegionOf(l, x, at, Region(addr, size, prot));
      case Value(_, _) =>
      case Vector(_, _) => VectorArrives(p, m, c, from, to, kinds, ops, j, at);
      case Object(data) => ObjectArrives(p, m, c, from, to, kinds, ops, j, at, data);
      case Qstr(_, _, _) => TextArrives(p, m, c, from, to, kinds, ops, j, at, host);
      case Handle(_, _, _, _) =>
    }
  }

  // ---------------------------------------------------------------- the migrated pointers

  /** The last argument list of a run, or the last environment. */
  function LastVector(ops: seq<Op>, n: nat, environ: bool): (r: Option<nat>)
    requires n <= |ops|
    ensures r.Some? ==> r.value < n && ops[r.value].Vector? && ops[r.value].environ == environ
  {
    if n == 0 then None
    else if ops[n - 1].Vector? && ops[n - 1].environ == environ then Some(n - 1)
    else LastVector(ops, n - 1, environ)
  }

  /** Where it starts in a checkpoint; 0 when there is none. */
  function VectorStart(items: seq<Item>, ops: seq<Op>, n: nat, environ: bool): nat
    requires n <= |ops| && At(ops, n) <= |items|
  {
    match LastVector(ops, n, environ)
    case None => 0
    case Some(j) => AtMonotone(ops, j, n); PayloadAt(items, At(ops, j))
  }

  /** An entry that is restored in another way, or as the other kind of list. */
  lemma NotThatVector(items: seq<Item>, kinds: Kinds, op: Op, environ: bool, at: nat, host: nat, k: nat)
    requires KindsOk(kinds) && at <= k < at + Width(op) && k < |items|
    requires op.Vector? ==>
      op.environ != environ && items[at].Oob? && EntryFor(items, at + 1, VectorKind(kinds, !environ))
    requires JobFits(items[k], OpJobs(op, host)[k - at], kinds)
    ensures items[k].Entry? ==> items[k].kind != VectorKind(kinds, environ)
  {
  }

  lemma FitsAt(items: seq<Item>, kinds: Kinds, ops: seq<Op>, j: nat, at: nat, k: nat)
    requires AllFit(items, Jobs(ops, |ops|), kinds) && j < |ops| && at == At(ops, j) && at <= k < at + Width(ops[j])
    ensures k < |items| && JobFits(items[k], OpJobs(ops[j], HostAt(ops, j))[k - at], kinds)
  {
    JobAt(ops, |ops|, j, k - at);
  }

  /** An operation that is not such a vector leaves the last entry of that kind as it is. */
  lemma LastKept(items: seq<Item>, base: nat, kinds: Kinds, ops: seq<Op>, j: nat, environ: bool, at: nat, at': nat)
    requires KindsOk(kinds) && AllFit(items, Jobs(ops, |ops|), kinds) && j < |ops|
    requires at == At(ops, j) && at' == at + Width(ops[j]) <= |items| && Arrived(items, base, kinds, ops, j)
    requires !(ops[j].Vector? && ops[j].environ == environ)
    ensures LastVal(items, VectorKind(kinds, environ), at') == LastVal(items, VectorKind(kinds, environ), at)
  {
    var kind := VectorKind(kinds, environ);
    forall k | at <= k < at' && items[k].Entry? ensures items[k].kind != kind {
      FitsAt(items, kinds, ops, j, at, k);
      NotThatVector(items, kinds, ops[j], environ, at, HostAt(ops, j), k);
    }
    LastValSkip(items, kind, at, at');
  }

  lemma LastIsIt(items: seq<Item>, kinds: Kinds, environ: bool, at: nat, at': nat)
    requires EntryFor(items, at + 1, VectorKind(kinds, environ)) && at' == at + 2
    ensures LastVal(items, VectorKind(kinds, environ), at') == PayloadAt(items, at)
  {
  }

  /** The last entry of its kind is that of the last vector. */
  lemma {:induction false} LastMigrated(items: seq<Item>, base: nat, kinds: Kinds, ops: seq<Op>, n: nat, environ: bool)
    requires KindsOk(kinds) && n <= |ops| && AllFit(items, Jobs(ops, |ops|), kinds) && At(ops, n) <= |items|
    requires forall j :: 0 <= j < |ops| ==> Arrived(items, base, kinds, ops, j)
    ensures LastVal(items, VectorKind(kinds, environ), At(ops, n)) == VectorStart(items, ops, n, environ)
  {
    if n > 0 {
      var j := n - 1;
      assert Arrived(items, base, kinds, ops, j);
      if ops[j].Vector? && ops[j].environ == environ {
        LastIsIt(items, kinds, environ, At(ops, j), At(ops, n));
      } else {
        LastKept(items, base, kinds, ops, j, environ, At(ops, j), At(ops, n));
        LastMigrated(items, base, kinds, ops, j, environ);
      }
    }
  }
}
