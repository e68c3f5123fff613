/** A whole migration: the parent emits its state and sends it, the child receives it at another
    address and restores it. */
module CpMigrate {
  import opened Wrappers
  import opened Words
  import opened CStrings
  import opened CpFormat
  import opened CpChange
  import opened CpWalk
  import opened CpStore
  import opened CpStream
  import opened CpLists
  import opened CpSend
  import opened CpEmit
  import opened CpRestore
  import opened CpReceive
  import opened CpHandles
  import opened CpJobs
  import opened CpRoundTrip
  import opened CpOps
  import opened CpParent
  import opened CpArrive
  import opened CpHeader

  // ---------------------------------------------------------------- the message

  /** What a complete migration puts on the stream after the header. */
  function Message(m: seq<byte>, ram: nat -> byte, l: Lists): seq<Token>
  {
    Tokens(m) + (MemTokens(ram, l.regions, |l.regions|) + HdlTokens(l.refs, |l.refs|))
  }

  /** The parent: checkpoint, regions and handles on one stream. On a stream that does not end early
      success means that the whole message is there, and failure that a part of it is. */
  method SendAll(store: Store, host: Host, ram: nat -> byte, ghost l: Lists) returns (ret: int)
    requires Finished(store, l)
    modifies host
    ensures old(Open(host.sched)) ==> Sent(old(host.wire), host.wire, Message(store.mem[..store.offset], ram, l), ret)
    ensures Accounted(host.outcome, old(host.made), host.made, SendDue(l.regions, 0) + HandleCalls(l.refs), ret)
    ensures old(host.Smooth()) ==> ret == if FirstNull(l.refs) == |l.refs| then 0 else -EINVAL
  {
    ghost var open := Open(host.sched);
    ghost var blob, regions := Tokens(store.mem[..store.offset]), MemTokens(ram, l.regions, |l.regions|);
    ghost var handles := HdlTokens(l.refs, |l.refs|);
    Regroup(blob, regions, handles, []);
    ghost var n, cut;
    ret, n, cut := SendCheckpoint(store, host, ram, l);
    if ret < 0 {
      if open { SentFirst(old(host.wire), host.wire, blob + regions, handles, ret); }
      return;
    }
    ghost var mid, made := host.wire, host.made;
    FinishedHandles(store, l);
    ret := SendHandles(store, host, l);
    AccountedNext(host.outcome, old(host.made), made, host.made, SendDue(l.regions, 0), HandleCalls(l.refs), ret);
    if open { SentBoth(old(host.wire), mid, host.wire, blob + regions, handles, ret); }
  }

  /** The header, and all that it describes. On a stream that does not end early success means that the
      whole of it is sent, and failure that a part of it is. */
  method SendOff(store: Store, host: Host, ram: nat -> byte, ghost l: Lists) returns (ret: int, ghost hdr: Hdr)
    requires Finished(store, l)
    modifies host
    ensures Describes(hdr, store.mem[..store.offset], store.items, l)
    ensures hdr.addr == store.base && hdr.size == store.offset
    ensures old(Open(host.sched)) ==>
      Sent(old(host.wire), host.wire,
           Tokens(Packed(HdrFields(hdr))) + Message(store.mem[..store.offset], ram, l), ret)
    ensures Accounted(host.outcome, old(host.made), host.made, SendDue(l.regions, 0) + HandleCalls(l.refs), ret)
    ensures old(host.Smooth()) ==> ret == if FirstNull(l.refs) == |l.refs| then 0 else -EINVAL
  {
    var h := MakeHdr(store, l);
    hdr := h;
    ret := SendWith(store, host, ram, Packed(HdrFields(h)), l);
  }

  method SendWith(store: Store, host: Host, ram: nat -> byte, head: seq<byte>, ghost l: Lists) returns (ret: int)
    requires Finished(store, l)
    modifies host
    ensures old(Open(host.sched)) ==>
      Sent(old(host.wire), host.wire, Tokens(head) + Message(store.mem[..store.offset], ram, l), ret)
    ensures Accounted(host.outcome, old(host.made), host.made, SendDue(l.regions, 0) + HandleCalls(l.refs), ret)
    ensures old(host.Smooth()) ==> ret == if FirstNull(l.refs) == |l.refs| then 0 else -EINVAL
  {
    ghost var open, message := Open(host.sched), Message(store.mem[..store.offset], ram, l);
    ghost var moved;
    ret, moved := host.WriteAll(head);
    if ret < 0 {
      if open { SentFirst(old(host.wire), host.wire, Tokens(head), message, ret); }
      return;
    }
    ghost var mid := host.wire;
    ret := SendAll(store, host, ram, l);
    if open { SentBoth(old(host.wire), mid, host.wire, Tokens(head), message, ret); }
  }

  // ---------------------------------------------------------------- the child

  /** The header leads to both lists, which are still those of the parent. */
  lemma RebaseBegins(hdr: Hdr, m: seq<byte>, items: seq<Item>, to: nat, firstMem: nat, lastHdl: nat, l: Lists)
    requires Describes(hdr, m, items, l) && Listed(items, hdr.addr, firstMem, lastHdl, l)
    ensures hdr.memCnt == |l.memIdx| && hdr.hdlCnt == |l.hdlIdx|
    ensures MemState(items, hdr.addr, to, lastHdl, l, hdr.memCnt)
    ensures hdr.memCnt > 0 ==> hdr.memOffset == PayloadAt(items, l.memIdx[hdr.memCnt - 1])
    ensures hdr.hdlCnt > 0 ==> lastHdl == hdr.addr + hdr.hdlOffset
  {
  }

  lemma TurnToHandles(blob: Blob, from: u64, lastHdl: nat, firstMem: nat, l: Lists)
    requires MemReady(blob, from, lastHdl, l, 0)
    requires firstMem == Before(blob.items, blob.base, l.memIdx, |l.memIdx|)
    ensures HdlReady(blob, from, firstMem, l, |l.refs|, |l.refs|) && |l.refs| == |l.hdlIdx|
    ensures |l.refs| > 0 ==> lastHdl == from + PayloadAt(blob.items, l.hdlIdx[|l.refs| - 1])
  {
  }

  /** What follows the blob. */
  function ListTokens(ram: nat -> byte, l: Lists): seq<Token>
  {
    MemTokens(ram, l.regions, |l.regions|) + HdlTokens(l.refs, |l.refs|)
  }

  /** The host calls of the child. */
  function ListCalls(l: Lists): nat
  {
    ReceiveDue(l.regions, 0) + NonNull(l.refs, |l.refs|)
  }

  method ReceiveHead(blob: Blob, host: Host, space: Space, hdr: Hdr, ghost lastHdl: nat, ghost l: Lists,
                     ghost ram: nat -> byte) returns (ret: int)
    requires MemReady(blob, hdr.addr, lastHdl, l, hdr.memCnt) && hdr.memCnt == |l.memIdx|
    requires hdr.memCnt > 0 ==> hdr.memOffset == PayloadAt(blob.items, l.memIdx[hdr.memCnt - 1])
    modifies blob`mem, blob`items, host, space
    ensures Same(old(blob.items), blob.items, ListBytes(l)) && Elsewhere(old(space.bytes), space.bytes, l.regions, 0)
    ensures ret <= 0 && (ret == 0 ==> MemReady(blob, hdr.addr, lastHdl, l, 0))
    ensures Accounted(host.outcome, old(host.made), host.made, ReceiveDue(l.regions, 0), ret)
    ensures old(Open(host.sched) && host.wire == ListTokens(ram, l)) && FirstNull(l.refs) == |l.refs| ==>
      && (ret == 0 ==> Coming(host, l.refs, 0, []) && Filled(old(space.bytes), space.bytes, ram, l.regions, 0))
      && (old(host.Smooth()) ==> ret == 0 && host.Smooth())
  {
    ret := ReceiveMemory(blob, host, space, hdr.addr, hdr.memCnt, hdr.memOffset, ram, lastHdl, l,
                         HdlTokens(l.refs, |l.refs|));
    if ret == 0 && old(Open(host.sched) && host.wire == ListTokens(ram, l)) && FirstNull(l.refs) == |l.refs| {
      HandlesNext(host, space, old(space.bytes), ram, l);
    }
  }

  /** Memory and handles, after the blob. */
  method ReceiveLists(blob: Blob, host: Host, space: Space, hdr: Hdr, ghost lastHdl0: nat, ghost l: Lists,
                      ghost ram: nat -> byte) returns (ret: int, ghost firstMem: nat, ghost lastHdl: nat)
    requires MemReady(blob, hdr.addr, lastHdl0, l, hdr.memCnt) && FirstNull(l.refs) == |l.refs|
    requires hdr.memCnt == |l.memIdx| && hdr.hdlCnt == |l.hdlIdx|
    requires hdr.memCnt > 0 ==> hdr.memOffset == PayloadAt(blob.items, l.memIdx[hdr.memCnt - 1])
    requires hdr.hdlCnt > 0 ==> lastHdl0 == hdr.addr + hdr.hdlOffset
    modifies blob`mem, blob`items, host, space
    ensures Same(old(blob.items), blob.items, ListBytes(l)) && Elsewhere(old(space.bytes), space.bytes, l.regions, 0)
    ensures ret <= 0 && (ret == 0 ==> hdr.addr + |blob.mem| <= WORD_MAX && Storing(blob, firstMem, lastHdl, l))
    ensures old(Open(host.sched) && host.wire == ListTokens(ram, l)) ==>
      && (ret == 0 ==> Filled(old(space.bytes), space.bytes, ram, l.regions, 0) && Through(blob, host, l, [], |l.refs|))
      && (old(host.Smooth()) ==> ret == 0)
    ensures Accounted(host.outcome, old(host.made), host.made, ListCalls(l), ret)
  {
    firstMem, lastHdl := 0, 0;
    ret := ReceiveHead(blob, host, space, hdr, lastHdl0, l, ram);
    if ret < 0 {
      return;
    }
    ghost var items, made := blob.items, host.made;
    ret, firstMem, lastHdl := ReceiveTail(blob, host, hdr, lastHdl0, l);
    AccountedNext(host.outcome, old(host.made), made, host.made, ReceiveDue(l.regions, 0), NonNull(l.refs, |l.refs|),
                  ret);
    SameTrans(old(blob.items), items, blob.items, ListBytes(l));
  }

  method ReceiveTail(blob: Blob, host: Host, hdr: Hdr, ghost lastHdl0: nat, ghost l: Lists)
    returns (ret: int, ghost firstMem: nat, ghost lastHdl: nat)
    requires MemReady(blob, hdr.addr, lastHdl0, l, 0) && hdr.hdlCnt == |l.hdlIdx|
    requires hdr.hdlCnt > 0 ==> lastHdl0 == hdr.addr + hdr.hdlOffset
    modifies blob`mem, blob`items, host`made, host`wire
    ensures Same(old(blob.items), blob.items, ListBytes(l)) && hdr.addr + |blob.mem| <= WORD_MAX
    ensures ret <= 0 && Storing(blob, firstMem, lastHdl, l)
    ensures old(Coming(host, l.refs, 0, [])) ==>
      (ret == 0 ==> Through(blob, host, l, [], |l.refs|)) && (old(host.Smooth()) ==> ret == 0)
    ensures Accounted(host.outcome, old(host.made), host.made, NonNull(l.refs, |l.refs|), ret)
  {
    firstMem := Before(blob.items, blob.base, l.memIdx, |l.memIdx|);
    TurnToHandles(blob, hdr.addr, lastHdl0, firstMem, l);
    ret, lastHdl := ReceiveHandles(blob, host, hdr.addr, hdr.hdlCnt, hdr.hdlOffset, firstMem, l, []);
  }

  /** When all regions have landed the handles are next. */
  lemma HandlesNext(host: Host, space: Space, before: map<nat, byte>, ram: nat -> byte, l: Lists)
    requires Arriving(host, space, before, ram, l.regions, HdlTokens(l.refs, |l.refs|), 0)
    requires FirstNull(l.refs) == |l.refs|
    ensures Coming(host, l.refs, 0, []) && Filled(before, space.bytes, ram, l.regions, 0)
  {
    assert MemTokens(ram, l.regions, 0) + HdlTokens(l.refs, |l.refs|) == HdlTokens(l.refs, |l.refs|)[0..] + [];
  }

  /** The parent's items `p` have been received: both lists are rebased, the handles are in their
      slots, and all else is as it was sent. */
  ghost predicate Received(blob: Blob, p: seq<Item>, from: nat, l: Lists)
    reads blob
  {
    && blob.Valid() && from + |blob.mem| <= WORD_MAX && Same(p, blob.items, ListBytes(l))
    && Stored(blob.items, l.refs, |l.refs|)
    && exists firstMem: nat, lastHdl: nat :: Listed(blob.items, blob.base, firstMem, lastHdl, l)
  }

  /** The part of `receive_checkpoint_and_restore` between the blob and the restore functions. */
  method ReceiveRest(host: Host, space: Space, hdr: Hdr, blob: Blob, ghost m: seq<byte>, ghost items: seq<Item>,
                     ghost l: Lists, ghost ram: nat -> byte) returns (ret: int)
    requires Describes(hdr, m, items, l) && blob.Valid() && blob.mem == m && blob.items == items
    requires FirstNull(l.refs) == |l.refs|
    modifies blob`mem, blob`items, host, space
    ensures ret <= 0 && Elsewhere(old(space.bytes), space.bytes, l.regions, 0)
    ensures old(Open(host.sched) && host.wire == ListTokens(ram, l)) ==>
      && (ret == 0 ==>
            && host.wire == [] && Filled(old(space.bytes), space.bytes, ram, l.regions, 0)
            && Received(blob, items, hdr.addr, l))
      && (old(host.Smooth()) ==> ret == 0)
    ensures Accounted(host.outcome, old(host.made), host.made, ListCalls(l), ret)
  {
    ghost var firstMem: nat, lastHdl: nat :| Listed(items, hdr.addr, firstMem, lastHdl, l);
    RebaseBegins(hdr, m, items, blob.base, firstMem, lastHdl, l);
    ret, firstMem, lastHdl := ReceiveLists(blob, host, space, hdr, lastHdl, l, ram);
  }

  /** `receive_checkpoint_and_restore` up to the restore functions: on a stream that does not end
      early, success means that everything is consumed, the regions hold what they hold in the
      parent, both lists are rebased, and handle `i` is in the slot of node `i`. All else in the
      checkpoint is as the parent sent it. A host that does not fail makes it succeed; one that
      does leaves all memory outside the regions alone. */
  method ReceiveAll(host: Host, space: Space, hdr: Hdr, base: u64, ghost m: seq<byte>, ghost items: seq<Item>,
                    ghost l: Lists, ghost ram: nat -> byte) returns (ret: int, blob: Blob?)
    requires Describes(hdr, m, items, l) && 0 < base && base + hdr.size <= WORD_MAX && FirstNull(l.refs) == |l.refs|
    requires Open(host.sched) && host.wire == Message(m, ram, l)
    modifies host, space
    ensures ret <= 0 && Elsewhere(old(space.bytes), space.bytes, l.regions, 0) && (old(host.Smooth()) ==> ret == 0)
    ensures ret == 0 ==>
      && blob != null && fresh(blob) && blob.base == base && host.wire == []
      && Filled(old(space.bytes), space.bytes, ram, l.regions, 0) && Received(blob, items, hdr.addr, l)
    ensures Accounted(host.outcome, old(host.made), host.made, ListCalls(l), ret)
  {
    ret, blob := ReceiveBlob(host, hdr.size, base, m, items, ListTokens(ram, l));
    if ret < 0 {
      return;
    }
    ret := ReceiveRest(host, space, hdr, blob, m, items, l, ram);
  }

  /** The checkpoint itself. */
  method ReceiveBlob(host: Host, size: nat, base: u64, ghost m: seq<byte>, ghost items: seq<Item>,
                     ghost rest: seq<Token>) returns (ret: int, blob: Blob?)
    requires Closed(m, items) && |m| == size && 0 < base && base + size <= WORD_MAX
    requires Open(host.sched) && host.wire == Tokens(m) + rest
    modifies host`sched, host`wire
    ensures ret <= 0 && Open(host.sched) && (old(Steady(host.sched)) ==> ret == 0 && Steady(host.sched))
    ensures ret == 0 ==>
      && blob != null && fresh(blob) && blob.Valid() && blob.base == base && blob.mem == m && blob.items == items
      && host.wire == rest
  {
    var got;
    ret, got := host.ReadAll(size, m, rest);
    if ret < 0 {
      return ret, null;
    }
    blob := new Blob(base, got, items);
  }

  // ---------------------------------------------------------------- the restored child

  /** All that the parent emitted is in the child's checkpoint, and works there. */
  ghost predicate Delivered(blob: Blob, kinds: Kinds, ops: seq<Op>)
    reads blob
  {
    var l := ListsOf(ops, |ops|);
    && blob.Valid() && |blob.items| == At(ops, |ops|)
    && (forall j :: 0 <= j < |ops| ==> Arrived(blob.items, blob.base, kinds, ops, j))
    && (exists firstMem: nat, lastHdl: nat :: Listed(blob.items, blob.base, firstMem, lastHdl, l))
    && blob.migratedArgv == VectorStart(blob.items, ops, |ops|, false)
    && blob.migratedEnvp == VectorStart(blob.items, ops, |ops|, true)
  }

  /** `restore_checkpoint` on all that was received. */
  method RestoreAll(blob: Blob, kinds: Kinds, from: u64, ghost p: seq<Item>, ghost ops: seq<Op>)
    requires Received(blob, p, from, ListsOf(ops, |ops|)) && AllHeld(p, from, kinds, ops, |ops|) && KindsOk(kinds)
    requires RunOk(ops, kinds)
    modifies blob
    ensures Delivered(blob, kinds, ops)
  {
    ghost var l, jobs, m := ListsOf(ops, |ops|), Jobs(ops, |ops|), blob.items;
    RunReady(p, from, kinds, ops, |ops|, blob.base);
    RunClear(ops, kinds, |ops|);
    StillReady(p, m, l, jobs, kinds, from, blob.base);
    JobsApartInRun(ops, kinds, |ops|);
    RestoreCheckpoint(blob, kinds, from, jobs);
    Restored(p, m, blob.items, from, blob.base, kinds, ops);
  }

  lemma Restored(p: seq<Item>, m: seq<Item>, c: seq<Item>, from: nat, to: nat, kinds: Kinds, ops: seq<Op>)
    requires KindsOk(kinds) && RunOk(ops, kinds) && AllHeld(p, from, kinds, ops, |ops|)
    requires AllClear(ListsOf(ops, |ops|), Jobs(ops, |ops|)) && AllFit(m, Jobs(ops, |ops|), kinds)
    requires Same(p, m, ListBytes(ListsOf(ops, |ops|))) && Same(m, c, JobBytes(Jobs(ops, |ops|)))
    requires Status(c, Jobs(ops, |ops|), At(ops, |ops|), from, to) && SameEntries(m, c)
    requires Stored(m, ListsOf(ops, |ops|).refs, |ListsOf(ops, |ops|).refs|)
    requires exists firstMem: nat, lastHdl: nat :: Listed(m, to, firstMem, lastHdl, ListsOf(ops, |ops|))
    ensures |c| == At(ops, |ops|) && forall j :: 0 <= j < |ops| ==> Arrived(c, to, kinds, ops, j)
    ensures exists firstMem: nat, lastHdl: nat :: Listed(c, to, firstMem, lastHdl, ListsOf(ops, |ops|))
    ensures LastVal(c, kinds.arguments, |c|) == VectorStart(c, ops, |ops|, false)
    ensures LastVal(c, kinds.environ, |c|) == VectorStart(c, ops, |ops|, true)
  {
    var l, jobs := ListsOf(ops, |ops|), Jobs(ops, |ops|);
    var firstMem: nat, lastHdl: nat :| Listed(m, to, firstMem, lastHdl, l);
    StillListed(m, c, to, firstMem, lastHdl, l, jobs);
    StillStored(m, c, l, jobs);
    assert Passage(p, m, c, from, to, kinds, ops);
    forall j | 0 <= j < |ops| ensures Arrived(c, to, kinds, ops, j) {
      OpArrives(p, m, c, from, to, kinds, ops, j, At(ops, j), HostAt(ops, j));
    }
    FitKept(m, c, jobs, kinds);
    LastMigrated(c, to, kinds, ops, |ops|, false);
    LastMigrated(c, to, kinds, ops, |ops|, true);
  }

  lemma FitKept(items: seq<Item>, items': seq<Item>, jobs: seq<Job>, kinds: Kinds)
    requires SameEntries(items, items') && AllFit(items, jobs, kinds)
    ensures AllFit(items', jobs, kinds)
  {
    forall k | 0 <= k < |jobs| ensures JobFits(items'[k], jobs[k], kinds) {
      assert JobFits(items[k], jobs[k], kinds);
    }
  }

  /** The list that a migrated pointer leads to, if it is set. */
  method ReadStrings(blob: Blob, at: nat, ghost kinds: Kinds, ghost ops: seq<Op>, ghost environ: bool)
    returns (v: seq<seq<byte>>)
    requires Delivered(blob, kinds, ops) && at == VectorStart(blob.items, ops, |ops|, environ)
    requires forall i :: 0 <= i < |ops| && ops[i].Vector? ==> NoNuls(ops[i].v)
    ensures v == LastStrings(ops, environ)
  {
    ghost var r := LastVector(ops, |ops|, environ);
    if at == 0 {
      return [];
    }
    assert Arrived(blob.items, blob.base, kinds, ops, r.value);
    v := ReadMigrated(blob, at, At(ops, r.value), ops[r.value].v);
  }

  /** The last argument list that was emitted, or the last environment. */
  function LastStrings(ops: seq<Op>, environ: bool): seq<cstring>
  {
    match LastVector(ops, |ops|, environ)
    case None => []
    case Some(j) => ops[j].v
  }

  // ---------------------------------------------------------------- both sides

  /** The memory regions of a run, in order of emission. */
  function Regions(ops: seq<Op>, n: nat): seq<Region>
    requires n <= |ops|
  {
    if n == 0 then []
    else
      var op := ops[n - 1];
      Regions(ops, n - 1) + if op.Memory? then [Region(op.addr, op.size, op.prot)] else []
  }

  lemma {:induction false} RegionsListed(ops: seq<Op>, n: nat)
    requires n <= |ops|
    ensures ListsOf(ops, n).regions == Regions(ops, n)
  {
    if n > 0 { RegionsListed(ops, n - 1); }
  }

  predicate NoNull(ops: seq<Op>)
  {
    forall i :: 0 <= i < |ops| && ops[i].Handle? ==> ops[i].handle != 0
  }

  lemma NullHandles(ops: seq<Op>)
    ensures var refs := ListsOf(ops, |ops|).refs; FirstNull(refs) == |refs| <==> NoNull(ops)
  {
    var refs := ListsOf(ops, |ops|).refs;
    var n := FirstNull(refs);
    ListOrigins(ops, |ops|);
    if n < |refs| {
      assert refs[n] in refs;
      var j: nat :| j < |ops| && SlotOp(ops, j, refs[n]);
    }
    forall j | 0 <= j < |ops| && ops[j].Handle? && n == |refs| ensures ops[j].handle != 0 {
      ListMembers(ops, |ops|, j);
    }
  }

  /** A store on which nothing has been emitted. */
  ghost predicate Unused(store: Store)
    reads store
  {
    && store.Valid() && store.items == [] && store.firstMem == 0 && store.memCnt == 0 && store.lastHdl == 0
    && store.hdlCnt == 0
  }

  /** The parent's part: everything is emitted and sent. */
  method Depart(store: Store, kinds: Kinds, ops: seq<Op>, ram: nat -> byte, host: Host)
    returns (made: bool, ret: int, ghost hdr: Hdr)
    requires Unused(store) && KindsOk(kinds) && host.Smooth() && host.wire == []
    requires RunOk(ops, kinds)
    modifies store, host
    ensures TotalNeed(ops, |ops|) + ENTRY_SIZE <= store.room ==> made
    ensures ret == if !made then -ENOMEM else if NoNull(ops) then 0 else -EINVAL
    ensures made && ret == 0 ==>
      store.offset <= |store.mem| && Departed(hdr, store.mem[..store.offset], store.items, kinds, ops, ram, host.wire)
  {
    made := EmitAll(store, kinds, ops);
    if !made {
      return false, -ENOMEM, Hdr(0, 0, 0, 0, 0, 0);
    }
    NullHandles(ops);
    ghost var l := ListsOf(ops, |ops|);
    ret, hdr := SendOff(store, host, ram, l);
    if ret == 0 {
      SentWhole(host.wire, Tokens(Packed(HdrFields(hdr))) + Message(store.mem[..store.offset], ram, l));
    }
  }

  lemma SentWhole(wire: seq<Token>, msg: seq<Token>)
    requires Sent([], wire, msg, 0)
    ensures wire == msg
  {
  }

  /** The whole message is on the stream. */
  ghost predicate Departed(hdr: Hdr, m: seq<byte>, items: seq<Item>, kinds: Kinds, ops: seq<Op>, ram: nat -> byte,
                           wire: seq<Token>)
  {
    var l := ListsOf(ops, |ops|);
    && Describes(hdr, m, items, l) && AllHeld(items, hdr.addr, kinds, ops, |ops|)
    && |m| == TotalNeed(ops, |ops|) + ENTRY_SIZE && wire == Tokens(Packed(HdrFields(hdr))) + Message(m, ram, l)
  }

  /** The child has all that the parent emitted. */
  ghost predicate AllThere(blob: Blob, host: Host, before: map<nat, byte>, space: Space, ram: nat -> byte, kinds: Kinds,
                           ops: seq<Op>)
    reads blob, host, space
  {
    && host.wire == [] && Filled(before, space.bytes, ram, Regions(ops, |ops|), 0) && Delivered(blob, kinds, ops)
  }

  /** The child goes on after reading the header. */
  predicate Starts(sched: seq<Event>)
  {
    Single(sched, HDR_BYTES, HDR_BYTES) == HDR_BYTES
  }

  /** The child's part: the header is read, and then everything is received and restored. */
  method Arrive(host: Host, space: Space, base: u64, kinds: Kinds, ghost hdr: Hdr, ghost m: seq<byte>,
                ghost items: seq<Item>, ghost ops: seq<Op>, ghost ram: nat -> byte)
    returns (started: bool, ret: int, blob: Blob?)
    requires Departed(hdr, m, items, kinds, ops, ram, host.wire) && 0 < base && base + hdr.size <= WORD_MAX
    requires NoNull(ops) && KindsOk(kinds) && RunOk(ops, kinds) && Open(host.sched)
    modifies host, space
    ensures started <==> Starts(old(host.sched))
    ensures (old(host.Smooth()) && started ==> blob != null) && (!started ==> blob == null)
    ensures ret == 0 <==> blob != null
    ensures blob != null ==>
      fresh(blob) && blob.base == base && AllThere(blob, host, old(space.bytes), space, ram, kinds, ops)
  {
    var h;
    started, h := ReadHdr(host, hdr, Message(m, ram, ListsOf(ops, |ops|)));
    if !started {
      return false, -EINVAL, null;
    }
    ret, blob := ReceiveAndRestore(host, space, h, base, kinds, m, items, ops, ram);
  }

  /** `receive_checkpoint_and_restore`. */
  method ReceiveAndRestore(host: Host, space: Space, hdr: Hdr, base: u64, kinds: Kinds, ghost m: seq<byte>,
                           ghost items: seq<Item>, ghost ops: seq<Op>, ghost ram: nat -> byte)
    returns (ret: int, blob: Blob?)
    requires Describes(hdr, m, items, ListsOf(ops, |ops|)) && 0 < base && base + hdr.size <= WORD_MAX && NoNull(ops)
    requires AllHeld(items, hdr.addr, kinds, ops, |ops|) && KindsOk(kinds) && RunOk(ops, kinds)
    requires Open(host.sched) && host.wire == Message(m, ram, ListsOf(ops, |ops|))
    modifies host, space
    ensures old(host.Smooth()) ==> ret == 0
    ensures ret == 0 <==> blob != null
    ensures blob != null ==>
      fresh(blob) && blob.base == base && AllThere(blob, host, old(space.bytes), space, ram, kinds, ops)
  {
    NullHandles(ops);
    RegionsListed(ops, |ops|);
    ret, blob := ReceiveAll(host, space, hdr, base, m, items, ListsOf(ops, |ops|), ram);
    if ret < 0 {
      return ret, null;
    }
    RestoreAll(blob, kinds, hdr.addr, items, ops);
  }

  /** Migration of every parent state, between all pairs of base addresses and over all schedules on
      which the stream does not end early and the host does not fail: if the child gets the header
      with its first read, it consumes exactly what the parent sent; its memory holds all regions;
      every object has arrived, with its handle in its slot and its `oflow` pointers leading to
      their texts; and the argument and environment lists read the same. A null handle makes the
      parent give up. */
  method Migrate(store: Store, kinds: Kinds, ops: seq<Op>, ram: nat -> byte, parent: Host, child: Host, space: Space,
                 base: u64) returns (made: bool, ret: int, blob: Blob?, argv: seq<seq<byte>>, envp: seq<seq<byte>>)
    requires Unused(store) && KindsOk(kinds) && RunOk(ops, kinds) && 0 < base
    requires forall i :: 0 <= i < |ops| && ops[i].Vector? ==> NoNuls(ops[i].v)
    requires parent != child && parent.Smooth() && parent.wire == [] && child.Smooth()
    modifies store, parent, child, space
    ensures TotalNeed(ops, |ops|) + ENTRY_SIZE <= store.room ==> made
    ensures ret == if !made then -ENOMEM else if NoNull(ops) then 0 else -EINVAL
    ensures made ==> (blob != null <==> Arrives(ops, base, old(child.sched)))
    ensures blob != null ==>
      && made && fresh(blob) && blob.base == base
      && AllThere(blob, child, old(space.bytes), space, ram, kinds, ops)
      && argv == LastStrings(ops, false) && envp == LastStrings(ops, true)
  {
    blob, argv, envp := null, [], [];
    ghost var hdr;
    made, ret, hdr := Depart(store, kinds, ops, ram, parent);
    if made && ret == 0 && base as int + store.offset <= WORD_MAX {
      child.wire := parent.wire;
      blob, argv, envp := Settle(child, space, base, kinds, hdr, store.mem[..store.offset], store.items, ops, ram);
    }
  }

  /** No handle is null, the checkpoint fits at `base`, and the header comes in one piece. */
  predicate Arrives(ops: seq<Op>, base: u64, sched: seq<Event>)
  {
    NoNull(ops) && base + TotalNeed(ops, |ops|) + ENTRY_SIZE <= WORD_MAX && Starts(sched)
  }

  /** The child's part, and what it then finds as its arguments and environment. */
  method Settle(host: Host, space: Space, base: u64, kinds: Kinds, ghost hdr: Hdr, ghost m: seq<byte>,
                ghost items: seq<Item>, ghost ops: seq<Op>, ghost ram: nat -> byte)
    returns (blob: Blob?, argv: seq<seq<byte>>, envp: seq<seq<byte>>)
    requires Departed(hdr, m, items, kinds, ops, ram, host.wire) && 0 < base && base + hdr.size <= WORD_MAX
    requires NoNull(ops) && KindsOk(kinds) && RunOk(ops, kinds) && host.Smooth()
    requires forall i :: 0 <= i < |ops| && ops[i].Vector? ==> NoNuls(ops[i].v)
    modifies host, space
    ensures blob != null <==> Starts(old(host.sched))
    ensures blob != null ==>
      && fresh(blob) && blob.base == base && AllThere(blob, host, old(space.bytes), space, ram, kinds, ops)
      && argv == LastStrings(ops, false) && envp == LastStrings(ops, true)
  {
    argv, envp := [], [];
    var started, ret;
    started, ret, blob := Arrive(host, space, base, kinds, hdr, m, items, ops, ram);
    if blob != null {
      argv, envp := ReadBoth(blob, kinds, ops);
    }
  }

  method ReadBoth(blob: Blob, ghost kinds: Kinds, ghost ops: seq<Op>)
    returns (argv: seq<seq<byte>>, envp: seq<seq<byte>>)
    requires Delivered(blob, kinds, ops)
    requires forall i :: 0 <= i < |ops| && ops[i].Vector? ==> NoNuls(ops[i].v)
    ensures argv == LastStrings(ops, false) && envp == LastStrings(ops, true)
  {
    argv := ReadStrings(blob, blob.migratedArgv, kinds, ops, false);
    envp := ReadStrings(blob, blob.migratedEnvp, kinds, ops, true);
  }

  /** In particular, a checkpoint of an argument list and an environment gives back the same two. */
  method MigrateStrings(store: Store, kinds: Kinds, argv: seq<cstring>, envp: seq<cstring>, ram: nat -> byte,
                        parent: Host, child: Host, space: Space, base: u64)
    returns (made: bool, blob: Blob?, argv': seq<seq<byte>>, envp': seq<seq<byte>>)
    requires Unused(store) && KindsOk(kinds) && NoNuls(argv) && NoNuls(envp) && 0 < base
    requires 8 * (|argv| + 1) + TotalBytes(argv) + 8 <= WORD_MAX
    requires 8 * (|envp| + 1) + TotalBytes(envp) + 8 <= WORD_MAX
    requires parent != child && parent.Smooth() && parent.wire == [] && child.Smooth()
    modifies store, parent, child, space
    ensures VectorNeed(argv) + VectorNeed(envp) + ENTRY_SIZE <= store.room ==> made
    ensures made && base + VectorNeed(argv) + VectorNeed(envp) + ENTRY_SIZE <= WORD_MAX && Starts(old(child.sched)) ==>
      blob != null
    ensures blob != null ==> argv' == argv && envp' == envp
  {
    var ops := [Vector(false, argv), Vector(true, envp)];
    TwoVectors(ops, kinds, argv, envp);
    var ret;
    made, ret, blob, argv', envp' := Migrate(store, kinds, ops, ram, parent, child, space, base);
  }

  lemma TwoVectors(ops: seq<Op>, kinds: Kinds, argv: seq<cstring>, envp: seq<cstring>)
    requires ops == [Vector(false, argv), Vector(true, envp)]
    requires 8 * (|argv| + 1) + TotalBytes(argv) + 8 <= WORD_MAX
    requires 8 * (|envp| + 1) + TotalBytes(envp) + 8 <= WORD_MAX
    ensures RunOk(ops, kinds) && NoNull(ops) && TotalNeed(ops, |ops|) == VectorNeed(argv) + VectorNeed(envp)
    ensures LastStrings(ops, false) == argv && LastStrings(ops, true) == envp
  {
    assert TotalNeed(ops, 1) == VectorNeed(argv);
    assert TotalNeed(ops, 2) == TotalNeed(ops, 1) + VectorNeed(envp);
    assert LastVector(ops, 1, false) == Some(0) && LastVector(ops, 2, true) == Some(1);
  }

  // ---------------------------------------------------------------- the acknowledgement

  const VMID_BYTES := 4

  /** A single write moves a whole VMID. */
  predicate Notified(sched: seq<Event>)
  {
    Single(sched, VMID_BYTES, VMID_BYTES) == VMID_BYTES
  }

  /** The child tells the parent its VMID with a single write. */
  method Notify(host: Host, vmid: nat) returns (ok: bool)
    modifies host`sched, host`wire
    ensures ok <==> Notified(old(host.sched))
    ensures ok ==> host.wire == old(host.wire) + Tokens(ToBytes(vmid, VMID_BYTES))
  {
    var n := host.WriteOnce(ToBytes(vmid, VMID_BYTES));
    ok := n == VMID_BYTES;
    assert ToBytes(vmid, VMID_BYTES)[..VMID_BYTES] == ToBytes(vmid, VMID_BYTES);
  }

  /** The parent waits for it: `child_vmid` is 0 before it is read. On a steady stream it is what the
      child wrote; but if the child has gone without writing, the parent goes on with 0. */
  method AwaitVmid(host: Host, ghost vmid: nat) returns (ret: int, childVmid: nat)
    requires vmid < Power256(VMID_BYTES)
    modifies host`sched, host`wire
    ensures ret == Transfer(old(host.sched), VMID_BYTES, Readable(old(host.wire))).ret
    ensures old(Steady(host.sched) && host.wire == Tokens(ToBytes(vmid, VMID_BYTES))) ==> ret == 0 && childVmid == vmid
    ensures old(Steady(host.sched) && host.wire == []) ==> ret == 0 && childVmid == 0
  {
    ghost var b := ToBytes(vmid, VMID_BYTES);
    FromTo(vmid, VMID_BYTES);
    if Steady(host.sched) && host.wire == Tokens(b) {
      ReadableAtLeast(host.wire, VMID_BYTES);
      SteadyTransfer(host.sched, VMID_BYTES, Readable(host.wire));
    } else if Steady(host.sched) && host.wire == [] {
      SteadyShort(host.sched, VMID_BYTES, 0);
    }
    var got;
    ret, got := host.ReadExact(VMID_BYTES);
    if old(Steady(host.sched) && host.wire == Tokens(b)) { TokensEqual(got, host.wire, b, []); }
    childVmid := FromBytes(got);
  }

  /** The parent's view of the whole: it gets the VMID of a child that has arrived and written it. But
      it also reports success, with VMID 0, for a child that never arrived. */
  method CreateProcess(store: Store, kinds: Kinds, ops: seq<Op>, ram: nat -> byte, parent: Host, child: Host,
                       space: Space, base: u64, childOut: Host, parentIn: Host, vmid: nat)
    returns (made: bool, ret: int, childVmid: nat, blob: Blob?)
    requires Unused(store) && KindsOk(kinds) && RunOk(ops, kinds) && 0 < base && vmid < Power256(VMID_BYTES)
    requires forall i :: 0 <= i < |ops| && ops[i].Vector? ==> NoNuls(ops[i].v)
    requires parent != child && parent.Smooth() && parent.wire == [] && child.Smooth()
    requires childOut !in {parent, child} && parentIn !in {parent, child, childOut}
    requires childOut.wire == []
    modifies store, parent, child, space, childOut, parentIn
    ensures made ==> (blob != null <==> Arrives(ops, base, old(child.sched)))
    ensures blob != null ==> AllThere(blob, child, old(space.bytes), space, ram, kinds, ops)
    ensures !made ==> ret == -ENOMEM
    ensures made && !NoNull(ops) ==> ret == -EINVAL
    ensures made && NoNull(ops) ==> ret == Transfer(old(parentIn.sched), VMID_BYTES, Readable(childOut.wire)).ret
    ensures old(Steady(parentIn.sched)) && blob != null && Notified(old(childOut.sched)) ==>
      ret == 0 && childVmid == vmid
    ensures old(Steady(parentIn.sched)) && made && NoNull(ops) && blob == null ==> ret == 0 && childVmid == 0
  {
    childVmid := 0;
    var argv, envp;
    made, ret, blob, argv, envp := Migrate(store, kinds, ops, ram, parent, child, space, base);
    if !made || ret < 0 {
      return;
    }
    if blob != null {
      var ok := Notify(childOut, vmid);
    }
    parentIn.wire := childOut.wire;
    ret, childVmid := AwaitVmid(parentIn, vmid);
  }
}
