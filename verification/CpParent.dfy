/** Emission of a whole checkpoint by the parent. */
module CpParent {
  import opened Words
  import opened CStrings
  import opened CpFormat
  import opened CpStore
  import opened CpEmit
  import opened CpJobs
  import opened CpLists
  import opened CpSend
  import opened CpOps

  /** The store holds the first `n` operations, and nothing else. */
  ghost predicate Emitted(store: Store, kinds: Kinds, ops: seq<Op>, n: nat)
    requires n <= |ops|
    reads store
  {
    && Holds(store, ListsOf(ops, n)) && AllHeld(store.items, store.base, kinds, ops, n)
    && store.offset == TotalNeed(ops, n)
  }

  /** `items` is followed by `n` new ones that take `need` bytes; the lists are `l`. */
  ghost predicate Added(items: seq<Item>, offset: nat, store: Store, n: nat, need: nat, l: Lists)
    reads store
  {
    Holds(store, l) && |store.items| == |items| + n && items <= store.items && store.offset == offset + need
  }

  /** `op`, about the object of item `host`, has been added at item `at`. */
  ghost predicate Grown(items: seq<Item>, offset: nat, store: Store, kinds: Kinds, op: Op, l: Lists, at: nat, host: nat)
    reads store
  {
    && Added(items, offset, store, Width(op), Need(op), WithOp(l, op, at, host))
    && OpHeld(store.items, store.base, kinds, op, at, host)
  }

  /** Adding anything but a node leaves the lists as they are. */
  lemma NoNode(items: seq<Item>, offset: nat, store: Store, kinds: Kinds, op: Op, l: Lists, at: nat, host: nat)
    requires !op.Memory? && !op.Handle? && store.Valid() && OpHeld(store.items, store.base, kinds, op, at, host)
    requires Listed(items, store.base, store.firstMem, store.lastHdl, l) && items <= store.items
    requires store.memCnt == |l.memIdx| && store.hdlCnt == |l.hdlIdx|
    requires |store.items| == |items| + Width(op) && store.offset == offset + Need(op)
    ensures Grown(items, offset, store, kinds, op, l, at, host)
  {
    ListedKept(items, store.items, store.base, store.firstMem, store.lastHdl, l);
  }

  // ---------------------------------------------------------------- one operation of each kind

  method PutMemory(store: Store, kinds: Kinds, op: Op, ghost l: Lists, ghost at: nat, ghost host: nat)
    returns (ok: bool)
    requires Holds(store, l) && op.Memory? && at == |store.items|
    modifies store
    ensures old(store.offset) + Need(op) <= store.room ==> ok
    ensures ok ==> Grown(old(store.items), old(store.offset), store, kinds, op, l, at, host)
  {
    ok := AddMemory(store, op.addr, op.size, op.prot, l);
  }

  method PutValue(store: Store, kinds: Kinds, op: Op, ghost l: Lists, ghost at: nat, ghost host: nat)
    returns (ok: bool)
    requires Holds(store, l) && op.Value? && ItemOk(Entry(op.kind, op.val)) && at == |store.items|
    modifies store
    ensures old(store.offset) + Need(op) <= store.room ==> ok
    ensures ok ==> Grown(old(store.items), old(store.offset), store, kinds, op, l, at, host)
  {
    ghost var items, offset := store.items, store.offset;
    var off;
    ok, off := store.AddEntry(op.kind, op.val);
    if ok {
      NoNode(items, offset, store, kinds, op, l, at, host);
    }
  }

  method PutStrings(store: Store, kinds: Kinds, op: Op, ghost l: Lists, ghost at: nat, ghost host: nat)
    returns (ok: bool)
    requires Holds(store, l) && KindsOk(kinds) && op.Vector? && at == |store.items|
    requires 8 * (|op.v| + 1) + TotalBytes(op.v) + 8 <= WORD_MAX
    modifies store
    ensures old(store.offset) + Need(op) <= store.room ==> ok
    ensures ok ==> Grown(old(store.items), old(store.offset), store, kinds, op, l, at, host)
  {
    ghost var items, offset := store.items, store.offset;
    ok := CpVector(store, VectorKind(kinds, op.environ), op.v);
    if ok {
      NoNode(items, offset, store, kinds, op, l, at, host);
    }
  }

  /** `ADD_CP_OFFSET(sizeof(*obj))` and the copy. */
  method CopyObject(store: Store, data: seq<byte>, ghost at: nat) returns (ok: bool, off: nat)
    requires store.Valid() && |data| + 8 <= WORD_MAX && at == |store.items|
    modifies store`mem, store`offset, store`items
    ensures old(store.offset) + ENTRY_SIZE + AlignUp8(|data|) <= store.room ==> ok
    ensures ok ==>
      && store.Valid() && |store.items| == at + 1 && old(store.items) <= store.items && CopyHeld(store.items, at, data)
      && off == PayloadAt(store.items, at) && store.offset == old(store.offset) + ENTRY_SIZE + AlignUp8(|data|)
  {
    ok, off := store.AddOffset(|data|);
    if ok {
      PutHas(store.items[at].payload, 0, data);
      store.Write(off, data, at, 0);
    }
  }

  method PutObject(store: Store, kinds: Kinds, op: Op, ghost l: Lists, ghost at: nat, ghost host: nat)
    returns (ok: bool, off: nat)
    requires Holds(store, l) && op.Object? && |op.data| + 8 <= WORD_MAX && at == |store.items|
    modifies store
    ensures old(store.offset) + Need(op) <= store.room ==> ok
    ensures ok ==> Grown(old(store.items), old(store.offset), store, kinds, op, l, at, host)
    ensures ok ==> off == PayloadAt(store.items, at)
  {
    ghost var items, offset := store.items, store.offset;
    ok, off := CopyObject(store, op.data, at);
    if ok {
      NoNode(items, offset, store, kinds, op, l, at, host);
    }
  }

  lemma TextIsHeld(items: seq<Item>, store: Store, kinds: Kinds, op: Op, at: nat, host: nat)
    requires op.Qstr? && at == |items| && TextAdded(items, store, kinds.qstr, op.text, host, op.rel)
    ensures items <= store.items && |store.items| == |items| + Width(op)
    ensures OpHeld(store.items, store.base, kinds, op, at, host)
  {
  }

  /** The overflow string of the `shim_qstr` at `op.rel` of the object at offset `obj`. */
  method PutText(store: Store, kinds: Kinds, op: Op, obj: nat, ghost l: Lists, ghost at: nat, ghost host: nat)
    returns (ok: bool)
    requires Holds(store, l) && KindsOk(kinds) && op.Qstr? && |op.text| + 9 <= WORD_MAX && at == |store.items|
    requires QstrAt(store.items, host, op.rel, |op.text|) && obj == PayloadAt(store.items, host)
    requires WordAt(store.items[host].payload, op.rel + QSTR_OFLOW) != 0
    modifies store
    ensures old(store.offset) + Need(op) <= store.room ==> ok
    ensures ok ==> Grown(old(store.items), old(store.offset), store, kinds, op, l, at, host)
  {
    ghost var items, offset := store.items, store.offset;
    ok := CpQstr(store, kinds.qstr, obj + op.rel, op.text, host, op.rel);
    if ok {
      TextIsHeld(items, store, kinds, op, at, host);
      NoNode(items, offset, store, kinds, op, l, at, host);
    }
  }

  /** The handle for the word at `op.rel` of the object at offset `obj`. */
  method PutHandle(store: Store, kinds: Kinds, op: Op, obj: nat, ghost l: Lists, ghost at: nat, ghost host: nat)
    returns (ok: bool)
    requires Holds(store, l) && KindsOk(kinds) && op.Handle? && at == |store.items|
    requires SlotOk(store.items, Ref(op.handle, host, op.rel)) && obj == PayloadAt(store.items, host) && Free(l, host)
    modifies store
    ensures old(store.offset) + Need(op) <= store.room ==> ok
    ensures ok ==> Grown(old(store.items), old(store.offset), store, kinds, op, l, at, host)
  {
    ok := AddHandle(store, kinds.palhdl, op.handle, obj, op.rel, op.uri, l, host);
  }

  // ---------------------------------------------------------------- a run

  /** The offsets of the objects copied so far. */
  ghost predicate Offsets(items: seq<Item>, ops: seq<Op>, offs: seq<nat>, n: nat)
    requires n <= |ops|
  {
    && |offs| == n
    && forall j :: 0 <= j < n && ops[j].Object? ==> At(ops, j) < |items| && offs[j] == PayloadAt(items, At(ops, j))
  }

  lemma OffsetsNext(items: seq<Item>, items': seq<Item>, ops: seq<Op>, offs: seq<nat>, off: nat, i: nat, n: nat)
    requires n == i + 1 <= |ops| && Offsets(items, ops, offs, i) && items <= items'
    requires ops[i].Object? ==> At(ops, i) < |items'| && off == PayloadAt(items', At(ops, i))
    ensures Offsets(items', ops, offs + [off], n)
  {
    forall j | 0 <= j < n && ops[j].Object?
      ensures At(ops, j) < |items'| && (offs + [off])[j] == PayloadAt(items', At(ops, j))
    {
      if j < i { SameOffsets(items, items', At(ops, j)); }
    }
  }

  /** What belongs to an object copied before. */
  method PutMember(store: Store, kinds: Kinds, ops: seq<Op>, i: nat, offs: seq<nat>) returns (ok: bool)
    requires RunOk(ops, kinds) && KindsOk(kinds) && i < |ops| && Emitted(store, kinds, ops, i) && HasHost(ops[i])
    requires Offsets(store.items, ops, offs, i)
    modifies store
    ensures old(store.offset) + Need(ops[i]) <= store.room ==> ok
    ensures ok ==>
      Grown(old(store.items), old(store.offset), store, kinds, ops[i], ListsOf(ops, i), At(ops, i), HostAt(ops, i))
  {
    HostReady(store.items, store.base, kinds, ops, i, i);
    var obj := offs[ops[i].host];
    if ops[i].Qstr? {
      ok := PutText(store, kinds, ops[i], obj, ListsOf(ops, i), At(ops, i), HostAt(ops, i));
    } else {
      HostFree(ops, kinds, i);
      ok := PutHandle(store, kinds, ops[i], obj, ListsOf(ops, i), At(ops, i), HostAt(ops, i));
    }
  }

  method PutOp(store: Store, kinds: Kinds, ops: seq<Op>, i: nat, offs: seq<nat>) returns (ok: bool, off: nat)
    requires RunOk(ops, kinds) && KindsOk(kinds) && i < |ops| && Emitted(store, kinds, ops, i)
    requires Offsets(store.items, ops, offs, i)
    modifies store
    ensures old(store.offset) + Need(ops[i]) <= store.room ==> ok
    ensures ok ==>
      Grown(old(store.items), old(store.offset), store, kinds, ops[i], ListsOf(ops, i), At(ops, i), HostAt(ops, i))
    ensures ok && ops[i].Object? ==> At(ops, i) < |store.items| && off == PayloadAt(store.items, At(ops, i))
  {
    off := 0;
    ghost var l, at, host := ListsOf(ops, i), At(ops, i), HostAt(ops, i);
    assert OpOk(ops, i, kinds);
    match ops[i] {
      case Memory(_, _, _) => ok := PutMemory(store, kinds, ops[i], l, at, host);
      case Value(_, _) => ok := PutValue(store, kinds, ops[i], l, at, host);
      case Vector(_, _) => ok := PutStrings(store, kinds, ops[i], l, at, host);
      case Object(_) => ok, off := PutObject(store, kinds, ops[i], l, at, host);
      case _ => ok := PutMember(store, kinds, ops, i, offs);
    }
  }

  lemma EmittedNext(items: seq<Item>, offset: nat, store: Store, kinds: Kinds, ops: seq<Op>, i: nat, n: nat)
    requires n == i + 1 <= |ops| && AllHeld(items, store.base, kinds, ops, i) && offset == TotalNeed(ops, i)
    requires Grown(items, offset, store, kinds, ops[i], ListsOf(ops, i), At(ops, i), HostAt(ops, i))
    ensures Emitted(store, kinds, ops, n)
  {
    HeldNext(items, store.items, store.base, kinds, ops, i, n);
  }

  /** One operation. */
  method EmitOp(store: Store, kinds: Kinds, ops: seq<Op>, i: nat, offs: seq<nat>, ghost n: nat)
    returns (ok: bool, offs': seq<nat>)
    requires RunOk(ops, kinds) && KindsOk(kinds) && n == i + 1 <= |ops| && Emitted(store, kinds, ops, i)
    requires Offsets(store.items, ops, offs, i)
    modifies store
    ensures TotalNeed(ops, n) <= store.room ==> ok
    ensures ok ==> Emitted(store, kinds, ops, n) && Offsets(store.items, ops, offs', n)
  {
    ghost var items, offset := store.items, store.offset;
    var off;
    ok, off := PutOp(store, kinds, ops, i, offs);
    offs' := offs + [off];
    if ok {
      EmittedNext(items, offset, store, kinds, ops, i, n);
      OffsetsNext(items, store.items, ops, offs, off, i, n);
    }
  }

  method EmitEach(store: Store, kinds: Kinds, ops: seq<Op>) returns (ok: bool)
    requires Emitted(store, kinds, ops, 0) && RunOk(ops, kinds) && KindsOk(kinds)
    modifies store
    ensures TotalNeed(ops, |ops|) <= store.room ==> ok
    ensures ok ==> Emitted(store, kinds, ops, |ops|)
  {
    ok := true;
    var i, offs := 0, [];
    while i < |ops|
      invariant i <= |ops| && ok && Emitted(store, kinds, ops, i) && Offsets(store.items, ops, offs, i)
    {
      var n := i + 1;
      NeedMonotone(ops, n, |ops|);
      ok, offs := EmitOp(store, kinds, ops, i, offs, n);
      if !ok {
        return;
      }
      i := n;
    }
  }

  /** The emission of a whole checkpoint. */
  method EmitAll(store: Store, kinds: Kinds, ops: seq<Op>) returns (ok: bool)
    requires Emitted(store, kinds, ops, 0) && RunOk(ops, kinds) && KindsOk(kinds)
    modifies store
    ensures TotalNeed(ops, |ops|) + ENTRY_SIZE <= store.room ==> ok
    ensures ok ==>
      && Finished(store, ListsOf(ops, |ops|)) && AllHeld(store.items, store.base, kinds, ops, |ops|)
      && store.offset == TotalNeed(ops, |ops|) + ENTRY_SIZE
  {
    ok := EmitEach(store, kinds, ops);
    if ok {
      ok := store.Close();
    }
  }

  lemma {:induction false} NeedMonotone(ops: seq<Op>, i: nat, j: nat)
    requires i <= j <= |ops|
    ensures TotalNeed(ops, i) <= TotalNeed(ops, j)
  {
    if i < j { NeedMonotone(ops, i, j - 1); }
  }
}
