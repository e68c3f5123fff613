/** `receive_handles_on_stream`: the handle list is rebased and collected, then every handle is stored
    where its node says. */
module CpHandles {
  import opened Words
  import opened CpFormat
  import opened CpChange
  import opened CpStream
  import opened CpLists
  import opened CpSend
  import opened CpRestore
  import opened CpReceive

  /** The handle list in mid-rebase: the links from node `j` on and the slot pointers from node `p`
      on are rebased. The region list is rebased already. */
  ghost predicate HdlState(items: seq<Item>, from: nat, to: nat, firstMem: nat, l: Lists, j: nat, p: nat)
  {
    && Half(items, from, to, l.hdlIdx, j) && |l.refs| == |l.hdlIdx|
    && (forall i :: 0 <= i < p && i < |l.refs| ==> RefAt(items, from, l.hdlIdx[i], l.refs[i]))
    && (forall i :: p <= i < |l.refs| ==> RefAt(items, to, l.hdlIdx[i], l.refs[i]))
    && MemList(items, to, firstMem, l) && Apart(l)
  }

  /** A reference is unaffected by a change that spares its handle and slot pointer. */
  lemma RefOnly(items: seq<Item>, items': seq<Item>, k: nat, base: nat, n: nat, r: Ref)
    requires Only(items, items', k) && RefAt(items, base, n, r)
    requires n == k ==> items'[k].payload[8..16] == items[k].payload[8..16]
    requires n == k ==> items'[k].payload[24..32] == items[k].payload[24..32]
    ensures RefAt(items', base, n, r)
  {
    OnlyOffsets(items, items', k, r.item);
  }

  lemma LinkStep(items: seq<Item>, items': seq<Item>, from: nat, to: nat, firstMem: nat, l: Lists, n: nat, j: nat, w: u64)
    requires HdlState(items, from, to, firstMem, l, n, n) && n == j + 1
    requires WordSet(items, items', l.hdlIdx[j], 0, w) && w == Before(items, to, l.hdlIdx, j)
    ensures HdlState(items', from, to, firstMem, l, j, n)
  {
    var k := l.hdlIdx[j];
    assert RefAt(items, from, k, l.refs[j]);
    HalfStep(items, items', from, to, l.hdlIdx, j);
    MemListOnly(items, items', k, to, firstMem, l);
    OtherWord(items, items', k, 0, w, 8, 8);
    OtherWord(items, items', k, 0, w, 24, 8);
    forall i | 0 <= i < n ensures RefAt(items', from, l.hdlIdx[i], l.refs[i]) {
      RefOnly(items, items', k, from, l.hdlIdx[i], l.refs[i]);
    }
    forall i | n <= i < |l.refs| ensures RefAt(items', to, l.hdlIdx[i], l.refs[i]) {
      RefOnly(items, items', k, to, l.hdlIdx[i], l.refs[i]);
    }
  }

  lemma SlotStep(items: seq<Item>, items': seq<Item>, from: nat, to: nat, firstMem: nat, l: Lists, n: nat, j: nat, w: u64)
    requires HdlState(items, from, to, firstMem, l, j, n) && n == j + 1 <= |l.refs|
    requires WordSet(items, items', l.hdlIdx[j], 24, w) && SlotOk(items, l.refs[j])
    requires w == to + PayloadAt(items, l.refs[j].item) + l.refs[j].rel
    ensures HdlState(items', from, to, firstMem, l, j, j)
  {
    var k := l.hdlIdx[j];
    assert RefAt(items, from, k, l.refs[j]) && Linked(items, to, l.hdlIdx, j);
    MemListOnly(items, items', k, to, firstMem, l);
    OtherWord(items, items', k, 24, w, 0, 8);
    OtherWord(items, items', k, 24, w, 8, 8);
    OnlyOffsets(items, items', k, l.refs[j].item);
    HalfSlot(items, items', from, to, l.hdlIdx, j);
    forall i | 0 <= i < j ensures RefAt(items', from, l.hdlIdx[i], l.refs[i]) {
      RefOnly(items, items', k, from, l.hdlIdx[i], l.refs[i]);
    }
    forall i | n <= i < |l.refs| ensures RefAt(items', to, l.hdlIdx[i], l.refs[i]) {
      RefOnly(items, items', k, to, l.hdlIdx[i], l.refs[i]);
    }
  }

  lemma HalfSlot(items: seq<Item>, items': seq<Item>, from: nat, to: nat, idx: seq<nat>, j: nat)
    requires Half(items, from, to, idx, j) && j < |idx| && Only(items, items', idx[j])
    requires NodeItem(items, idx[j]) && WordAt(items'[idx[j]].payload, 0) == WordAt(items[idx[j]].payload, 0)
    ensures Half(items', from, to, idx, j)
  {
    assert Linked(items, to, idx, j);
    BeforeOnly(items, items', idx[j], to, idx, j);
    forall i | 0 <= i < j ensures Linked(items', from, idx, i) {
      LinkedOnly(items, items', idx[j], from, idx, i);
    }
    forall i | j < i < |idx| ensures Linked(items', to, idx, i) {
      LinkedOnly(items, items', idx[j], to, idx, i);
    }
  }

  ghost predicate HdlReady(blob: Blob, from: u64, firstMem: nat, l: Lists, j: nat, p: nat)
    reads blob
  {
    && blob.Valid() && 0 < from && from + |blob.mem| <= WORD_MAX
    && HdlState(blob.items, from, blob.base, firstMem, l, j, p)
  }

  /** `CP_REBASE(entry->prev)`. */
  method RebasePrev(blob: Blob, at: nat, rebase: u64, ghost from: u64, ghost firstMem: nat, ghost l: Lists,
                    ghost n: nat, ghost j: nat)
    requires HdlReady(blob, from, firstMem, l, n, n) && n == j + 1
    requires rebase == Sub64(blob.base, from) && at == PayloadAt(blob.items, l.hdlIdx[j])
    modifies blob`mem, blob`items
    ensures HdlReady(blob, from, firstMem, l, j, n) && at == PayloadAt(blob.items, l.hdlIdx[j])
    ensures Only(old(blob.items), blob.items, l.hdlIdx[j]) && Same(old(blob.items), blob.items, ListBytes(l))
  {
    ghost var items, k, w := blob.items, l.hdlIdx[j], Before(blob.items, blob.base, l.hdlIdx, j);
    HalfWord(blob, from, rebase, l.hdlIdx, j);
    Rebase(blob, at, rebase, k, 0, w);
    LinkStep(items, blob.items, from, blob.base, firstMem, l, n, j, w);
    OnlyOffsets(items, blob.items, k, k);
    TouchedWords(l, j);
    WordSame(items, blob.items, k, 0, w, ListBytes(l));
  }

  lemma SlotWord(blob: Blob, from: u64, rebase: u64, k: nat, r: Ref)
    requires blob.Valid() && 0 < from && from + |blob.mem| <= WORD_MAX && rebase == Sub64(blob.base, from)
    requires RefAt(blob.items, from, k, r)
    ensures blob.base + PayloadAt(blob.items, r.item) + r.rel < WORD_MAX
    ensures
      var v := WordAt(blob.items[k].payload, 24);
      v != 0 && Add64(v, rebase) == blob.base + PayloadAt(blob.items, r.item) + r.rel
  {
    OffsetMonotone(blob.items, r.item, |blob.items|);
    RebaseExact(from, blob.base, PayloadAt(blob.items, r.item) + r.rel);
  }

  /** `CP_REBASE(entry->phandle)`. */
  method RebaseSlot(blob: Blob, at: nat, rebase: u64, ghost from: u64, ghost firstMem: nat, ghost l: Lists,
                    ghost n: nat, ghost j: nat)
    requires HdlReady(blob, from, firstMem, l, j, n) && n == j + 1 <= |l.refs|
    requires rebase == Sub64(blob.base, from) && at == PayloadAt(blob.items, l.hdlIdx[j])
    modifies blob`mem, blob`items
    ensures HdlReady(blob, from, firstMem, l, j, j) && at == PayloadAt(blob.items, l.hdlIdx[j])
    ensures Only(old(blob.items), blob.items, l.hdlIdx[j]) && Same(old(blob.items), blob.items, ListBytes(l))
  {
    ghost var items, k, r := blob.items, l.hdlIdx[j], l.refs[j];
    assert RefAt(items, from, k, r);
    SlotWord(blob, from, rebase, k, r);
    ghost var w := blob.base + PayloadAt(blob.items, r.item) + r.rel;
    Rebase(blob, at + 24, rebase, k, 24, w);
    SlotStep(items, blob.items, from, blob.base, firstMem, l, n, j, w);
    OnlyOffsets(items, blob.items, k, k);
    TouchedWords(l, j);
    WordSame(items, blob.items, k, 24, w, ListBytes(l));
  }

  /** The link of node `j`, which is rebased. */
  method ReadPrev(blob: Blob, at: nat, ghost from: u64, ghost firstMem: nat, ghost l: Lists, ghost j: nat)
    returns (prev: nat)
    requires HdlReady(blob, from, firstMem, l, j, j) && j < |l.refs| && at == PayloadAt(blob.items, l.hdlIdx[j])
    ensures prev == Before(blob.items, blob.base, l.hdlIdx, j)
  {
    assert Linked(blob.items, blob.base, l.hdlIdx, j);
    blob.WordIn(l.hdlIdx[j], 0);
    prev := WordAt(blob.mem, at);
  }

  /** One round of the first loop. */
  method RebaseHandle(blob: Blob, entry: nat, rebase: u64, ghost from: u64, ghost firstMem: nat, ghost l: Lists,
                      ghost n: nat, ghost j: nat) returns (prev: nat)
    requires HdlReady(blob, from, firstMem, l, n, n) && n == j + 1
    requires rebase == Sub64(blob.base, from) && entry == Before(blob.items, blob.base, l.hdlIdx, n)
    modifies blob`mem, blob`items
    ensures HdlReady(blob, from, firstMem, l, j, j) && prev == Before(blob.items, blob.base, l.hdlIdx, j)
    ensures entry == blob.base + PayloadAt(blob.items, l.hdlIdx[j])
    ensures Only(old(blob.items), blob.items, l.hdlIdx[j]) && Same(old(blob.items), blob.items, ListBytes(l))
  {
    var at: nat := entry - blob.base;
    RebasePrev(blob, at, rebase, from, firstMem, l, n, j);
    ghost var items := blob.items;
    RebaseSlot(blob, at, rebase, from, firstMem, l, n, j);
    SameTrans(old(blob.items), items, blob.items, ListBytes(l));
    prev := ReadPrev(blob, at, from, firstMem, l, j);
  }

  lemma CollectedOnly(items: seq<Item>, items': seq<Item>, k: nat, l: Lists, a: seq<nat>, i: nat)
    requires Only(items, items', k) && Collected(items, l, a, i)
    ensures Collected(items', l, a, i)
  {
    forall j | i <= j < |a| ensures a[j] == PayloadAt(items', l.hdlIdx[j]) {
      OnlyOffsets(items, items', k, l.hdlIdx[j]);
    }
  }

  /** One round of the first loop, for the node at `entry`. */
  method CollectOne(blob: Blob, a: array<nat>, entry: nat, rebase: u64, j: nat, ghost from: u64, ghost firstMem: nat,
                    ghost l: Lists, ghost n: nat) returns (prev: nat)
    requires HdlReady(blob, from, firstMem, l, n, n) && n == j + 1
    requires rebase == Sub64(blob.base, from) && entry == Before(blob.items, blob.base, l.hdlIdx, n)
    requires Collected(blob.items, l, a[..], n)
    modifies blob`mem, blob`items, a
    ensures HdlReady(blob, from, firstMem, l, j, j) && prev == Before(blob.items, blob.base, l.hdlIdx, j)
    ensures Collected(blob.items, l, a[..], j) && Same(old(blob.items), blob.items, ListBytes(l))
  {
    ghost var items := blob.items;
    prev := RebaseHandle(blob, entry, rebase, from, firstMem, l, n, j);
    CollectedOnly(items, blob.items, l.hdlIdx[j], l, a[..], n);
    a[j] := entry - blob.base;
  }

  /** The first loop: newest first, the nodes are rebased and put in order of emission. */
  method RebaseHandles(blob: Blob, from: u64, off: nat, cnt: nat, ghost firstMem: nat, ghost l: Lists)
    returns (entries: seq<nat>)
    requires HdlReady(blob, from, firstMem, l, cnt, cnt) && cnt == |l.refs| > 0
    requires off == PayloadAt(blob.items, l.hdlIdx[cnt - 1])
    modifies blob`mem, blob`items
    ensures HdlReady(blob, from, firstMem, l, 0, 0) && Collected(blob.items, l, entries, 0)
    ensures Same(old(blob.items), blob.items, ListBytes(l))
  {
    var a := new nat[cnt];
    var rebase := Sub64(blob.base, from);
    var entry: nat, i: nat := blob.base + off, cnt;
    SameRefl(blob.items, ListBytes(l));
    while i > 0
      invariant i <= cnt && HdlReady(blob, from, firstMem, l, i, i)
      invariant entry == Before(blob.items, blob.base, l.hdlIdx, i) && Collected(blob.items, l, a[..], i)
      invariant Same(old(blob.items), blob.items, ListBytes(l))
    {
      assert entry != 0;
      var j: nat := i - 1;
      ghost var items := blob.items;
      entry := CollectOne(blob, a, entry, rebase, j, from, firstMem, l, i);
      SameTrans(old(blob.items), items, blob.items, ListBytes(l));
      i := j;
    }
    assert entry == 0;
    entries := a[..];
  }

  // ---------------------------------------------------------------- storing the handles

  ghost predicate SlotHolds(items: seq<Item>, r: Ref)
  {
    SlotOk(items, r) && WordAt(items[r.item].payload, r.rel) == r.handle
  }

  /** The slots of the first `n` references hold their handles. */
  ghost predicate Stored(items: seq<Item>, refs: seq<Ref>, n: nat)
  {
    n <= |refs| && forall i :: 0 <= i < n ==> SlotHolds(items, refs[i])
  }

  lemma ListedSlot(items: seq<Item>, items': seq<Item>, base: nat, firstMem: nat, lastHdl: nat, l: Lists, i: nat)
    requires Listed(items, base, firstMem, lastHdl, l) && i < |l.refs| && Only(items, items', l.refs[i].item)
    ensures Listed(items', base, firstMem, lastHdl, l)
  {
    HdlListOnly(items, items', l.refs[i].item, base, lastHdl, l);
    MemListOnly(items, items', l.refs[i].item, base, firstMem, l);
  }

  lemma StoredNext(items: seq<Item>, items': seq<Item>, l: Lists, n: nat, i: nat, w: u64)
    requires Apart(l) && i < |l.refs| && n == i + 1 && Stored(items, l.refs, i) && SlotOk(items, l.refs[i])
    requires WordSet(items, items', l.refs[i].item, l.refs[i].rel, w) && w == l.refs[i].handle
    ensures Stored(items', l.refs, n)
  {
    forall j | 0 <= j < i ensures SlotHolds(items', l.refs[j]) {
      assert SlotHolds(items, l.refs[j]);
    }
  }

  ghost predicate Storing(blob: Blob, firstMem: nat, lastHdl: nat, l: Lists)
    reads blob
  {
    blob.Valid() && Listed(blob.items, blob.base, firstMem, lastHdl, l)
  }

  /** `*entry->phandle = hdl` for the node at `at`. */
  method StoreHandle(blob: Blob, at: nat, h: u64, ghost firstMem: nat, ghost lastHdl: nat, ghost l: Lists, ghost i: nat)
    requires Storing(blob, firstMem, lastHdl, l) && i < |l.refs| && at == PayloadAt(blob.items, l.hdlIdx[i])
    modifies blob`mem, blob`items
    ensures blob.Valid() && WordSet(old(blob.items), blob.items, l.refs[i].item, l.refs[i].rel, h)
    ensures |blob.mem| == old(|blob.mem|)
  {
    ghost var k, r := l.hdlIdx[i], l.refs[i];
    assert RefAt(blob.items, blob.base, k, r);
    blob.WordIn(k, 24);
    var phandle: nat := WordAt(blob.mem, at + 24);
    PokeWord(blob.items, r.item, r.rel, h);
    blob.Write(phandle - blob.base, Bytes(h), r.item, r.rel);
  }

  method ReadHandle(blob: Blob, at: nat, ghost firstMem: nat, ghost lastHdl: nat, ghost l: Lists, ghost i: nat)
    returns (h: u64)
    requires Storing(blob, firstMem, lastHdl, l) && i < |l.refs| && at == PayloadAt(blob.items, l.hdlIdx[i])
    ensures h == l.refs[i].handle
  {
    assert RefAt(blob.items, blob.base, l.hdlIdx[i], l.refs[i]);
    blob.WordIn(l.hdlIdx[i], 8);
    h := WordAt(blob.mem, at + 8);
  }

  /** The handles from number `i` on are next on the stream, none of them null. */
  ghost predicate Coming(host: Host, refs: seq<Ref>, i: nat, rest: seq<Token>)
    reads host
  {
    && i <= |refs| && FirstNull(refs) == |refs|
    && host.wire == HdlTokens(refs, |refs|)[i..] + rest
  }

  lemma {:induction false} HdlTokensAt(refs: seq<Ref>, n: nat, i: nat)
    requires i < n <= |refs|
    ensures HdlTokens(refs, n)[i] == Cargo(refs[i].handle)
  {
    if i < n - 1 { HdlTokensAt(refs, n - 1, i); }
  }

  /** `DkReceiveHandle`, when handle `i` is next. */
  method NextHandle(host: Host, ghost refs: seq<Ref>, ghost i: nat, ghost rest: seq<Token>) returns (h: u64)
    requires i < |refs|
    modifies host`made, host`wire
    ensures host.made == old(host.made) + 1 && (h != 0 ==> host.outcome(old(host.made)) == 0)
    ensures old(Coming(host, refs, i, rest)) ==>
      && (h != 0 ==> h == refs[i].handle && Coming(host, refs, i + 1, rest))
      && (h == 0 ==> host.outcome(old(host.made)) != 0)
  {
    HdlTokensAt(refs, |refs|, i);
    ghost var t := HdlTokens(refs, |refs|);
    assert t[i..] + rest == [t[i]] + (t[i + 1..] + rest);
    h := host.ReceiveHandle();
    if old(Coming(host, refs, i, rest)) && h != 0 {
      assert old(host.wire)[0] == Cargo(h) && host.wire == old(host.wire)[1..];
    }
  }

  /** The handles among the first `i` that are received: those that are not null. */
  function NonNull(refs: seq<Ref>, i: nat): nat
    requires i <= |refs|
  {
    if i == 0 then 0 else NonNull(refs, i - 1) + if refs[i - 1].handle == 0 then 0 else 1
  }

  lemma {:induction false} NonNullMonotone(refs: seq<Ref>, i: nat, n: nat)
    requires i <= n <= |refs|
    ensures NonNull(refs, i) <= NonNull(refs, n)
  {
    if i < n { NonNullMonotone(refs, i, n - 1); }
  }

  /** The calls for the first `i` handles, numbered from `start`, are made. If the handles are `whole` on
      the stream, only such a call can fail. */
  ghost predicate HandleAccount(outcome: nat -> nat, start: nat, made: nat, refs: seq<Ref>, whole: bool, i: nat,
                                ret: int)
    requires i <= |refs|
  {
    && Accounted(outcome, start, made, NonNull(refs, i), ret)
    && (whole && ret != 0 ==> Report(outcome, start, made) != 0)
  }

  lemma HandleNext(outcome: nat -> nat, start: nat, a: nat, b: nat, refs: seq<Ref>, whole: bool, i: nat, n: nat,
                   ok: bool)
    requires n == i + 1 <= |refs| && HandleAccount(outcome, start, a, refs, whole, i, 0)
    requires refs[i].handle == 0 ==> b == a && ok
    requires refs[i].handle != 0 ==> b == a + 1 && (ok ==> outcome(a) == 0) && (whole && !ok ==> outcome(a) != 0)
    ensures HandleAccount(outcome, start, b, refs, whole, n, if ok then 0 else -EINVAL)
  {
  }

  /** Stores handle `i` through node `i`. */
  method StoreNext(blob: Blob, entries: seq<nat>, h: u64, i: nat, ghost firstMem: nat, ghost lastHdl: nat,
                   ghost l: Lists, ghost n: nat)
    requires Storing(blob, firstMem, lastHdl, l) && Collected(blob.items, l, entries, 0)
    requires n == i + 1 <= |l.refs|
    modifies blob`mem, blob`items
    ensures Storing(blob, firstMem, lastHdl, l) && Collected(blob.items, l, entries, 0)
    ensures Same(old(blob.items), blob.items, ListBytes(l)) && |blob.mem| == old(|blob.mem|)
    ensures old(Stored(blob.items, l.refs, i)) && h == l.refs[i].handle ==> Stored(blob.items, l.refs, n)
  {
    ghost var items := blob.items;
    assert RefAt(items, blob.base, l.hdlIdx[i], l.refs[i]);
    StoreHandle(blob, entries[i], h, firstMem, lastHdl, l, i);
    TouchedWords(l, i);
    WordSame(items, blob.items, l.refs[i].item, l.refs[i].rel, h, ListBytes(l));
    ListedSlot(items, blob.items, blob.base, firstMem, lastHdl, l, i);
    CollectedOnly(items, blob.items, l.refs[i].item, l, entries, 0);
    if Stored(items, l.refs, i) && h == l.refs[i].handle {
      StoredNext(items, blob.items, l, n, i, h);
    }
  }

  /** The first `i` handles have been received and stored. */
  ghost predicate Through(blob: Blob, host: Host, l: Lists, rest: seq<Token>, i: nat)
    reads blob, host
  {
    Coming(host, l.refs, i, rest) && Stored(blob.items, l.refs, i)
  }

  /** One round of the second loop. */
  method ReceiveNext(blob: Blob, host: Host, entries: seq<nat>, i: nat, ghost firstMem: nat, ghost lastHdl: nat,
                     ghost l: Lists, ghost rest: seq<Token>, ghost start: nat, ghost whole: bool, ghost n: nat)
    returns (ok: bool)
    requires Storing(blob, firstMem, lastHdl, l) && Collected(blob.items, l, entries, 0)
    requires n == i + 1 <= |l.refs| && (whole ==> Through(blob, host, l, rest, i))
    requires HandleAccount(host.outcome, start, host.made, l.refs, whole, i, 0)
    modifies blob`mem, blob`items, host`made, host`wire
    ensures Storing(blob, firstMem, lastHdl, l) && Collected(blob.items, l, entries, 0)
    ensures Same(old(blob.items), blob.items, ListBytes(l)) && |blob.mem| == old(|blob.mem|)
    ensures whole && ok ==> Through(blob, host, l, rest, n)
    ensures HandleAccount(host.outcome, start, host.made, l.refs, whole, n, if ok then 0 else -EINVAL)
  {
    SameRefl(blob.items, ListBytes(l));
    var handle := ReadHandle(blob, entries[i], firstMem, lastHdl, l, i);
    if handle == 0 {
      HandleNext(host.outcome, start, host.made, host.made, l.refs, whole, i, n, true);
      return true;
    }
    var h := NextHandle(host, l.refs, i, rest);
    ok := h != 0;
    HandleNext(host.outcome, start, old(host.made), host.made, l.refs, whole, i, n, ok);
    if ok {
      StoreNext(blob, entries, h, i, firstMem, lastHdl, l, n);
    }
  }

  /** The second loop: handle number `i` goes through node number `i`. */
  method ReceiveEach(blob: Blob, host: Host, entries: seq<nat>, ghost firstMem: nat, ghost lastHdl: nat, ghost l: Lists,
                     ghost rest: seq<Token>) returns (ret: int)
    requires Storing(blob, firstMem, lastHdl, l) && Collected(blob.items, l, entries, 0)
    modifies blob`mem, blob`items, host`made, host`wire
    ensures Same(old(blob.items), blob.items, ListBytes(l)) && |blob.mem| == old(|blob.mem|)
    ensures Storing(blob, firstMem, lastHdl, l) && (ret == 0 || ret == -EINVAL)
    ensures ret == 0 && old(Coming(host, l.refs, 0, rest)) ==> Through(blob, host, l, rest, |l.refs|)
    ensures HandleAccount(host.outcome, old(host.made), host.made, l.refs, old(Coming(host, l.refs, 0, rest)), |l.refs|,
                          ret)
  {
    ghost var whole, start := Coming(host, l.refs, 0, rest), host.made;
    var i := 0;
    SameRefl(blob.items, ListBytes(l));
    while i < |entries|
      invariant Same(old(blob.items), blob.items, ListBytes(l)) && |blob.mem| == old(|blob.mem|)
      invariant i <= |entries| && Storing(blob, firstMem, lastHdl, l) && Collected(blob.items, l, entries, 0)
      invariant whole ==> Through(blob, host, l, rest, i)
      invariant HandleAccount(host.outcome, start, host.made, l.refs, whole, i, 0)
    {
      var n := i + 1;
      ghost var items := blob.items;
      var ok := ReceiveNext(blob, host, entries, i, firstMem, lastHdl, l, rest, start, whole, n);
      SameTrans(old(blob.items), items, blob.items, ListBytes(l));
      if !ok {
        NonNullMonotone(l.refs, n, |l.refs|);
        return -EINVAL;
      }
      i := n;
    }
    ret := 0;
  }

  lemma BothRebased(blob: Blob, from: u64, firstMem: nat, lastHdl: nat, l: Lists)
    requires HdlReady(blob, from, firstMem, l, 0, 0) && lastHdl == Before(blob.items, blob.base, l.hdlIdx, |l.hdlIdx|)
    ensures Storing(blob, firstMem, lastHdl, l)
  {
  }

  /** The first loop, after which both lists are rebased. */
  method RebaseBoth(blob: Blob, from: u64, off: nat, cnt: nat, ghost firstMem: nat, ghost l: Lists)
    returns (entries: seq<nat>, ghost lastHdl: nat)
    requires HdlReady(blob, from, firstMem, l, cnt, cnt) && cnt == |l.refs| > 0
    requires off == PayloadAt(blob.items, l.hdlIdx[cnt - 1])
    modifies blob`mem, blob`items
    ensures Storing(blob, firstMem, lastHdl, l) && Collected(blob.items, l, entries, 0)
    ensures Same(old(blob.items), blob.items, ListBytes(l)) && from + |blob.mem| <= WORD_MAX
  {
    entries := RebaseHandles(blob, from, off, cnt, firstMem, l);
    lastHdl := Before(blob.items, blob.base, l.hdlIdx, cnt);
    BothRebased(blob, from, firstMem, lastHdl, l);
  }

  /** `receive_handles_on_stream`. Whatever the host does both lists are in place afterwards; success
      means that every handle is in its slot. */
  method ReceiveHandles(blob: Blob, host: Host, from: u64, cnt: nat, off: nat, ghost firstMem: nat, ghost l: Lists,
                        ghost rest: seq<Token>) returns (ret: int, ghost lastHdl: nat)
    requires HdlReady(blob, from, firstMem, l, cnt, cnt) && cnt == |l.refs|
    requires cnt > 0 ==> off == PayloadAt(blob.items, l.hdlIdx[cnt - 1])
    modifies blob`mem, blob`items, host`made, host`wire
    ensures Same(old(blob.items), blob.items, ListBytes(l)) && from + |blob.mem| <= WORD_MAX
    ensures Storing(blob, firstMem, lastHdl, l) && (ret == 0 || ret == -EINVAL)
    ensures ret == 0 && old(Coming(host, l.refs, 0, rest)) ==> Through(blob, host, l, rest, cnt)
    ensures HandleAccount(host.outcome, old(host.made), host.made, l.refs, old(Coming(host, l.refs, 0, rest)), cnt, ret)
  {
    SameRefl(blob.items, ListBytes(l));
    if cnt == 0 {
      BothRebased(blob, from, firstMem, 0, l);
      return 0, 0;
    }
    var entries;
    entries, lastHdl := RebaseBoth(blob, from, off, cnt, firstMem, l);
    ghost var items := blob.items;
    ret := ReceiveEach(blob, host, entries, firstMem, lastHdl, l, rest);
    SameTrans(old(blob.items), items, blob.items, ListBytes(l));
  }
}