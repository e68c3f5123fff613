/** The two lists threaded through a checkpoint: memory regions to be sent (`cp_memory`) and PAL
    handles to be passed (`cp_palhdl`). Both are linked through the first word of their nodes. */
module CpLists {
  import opened Words
  import opened CpFormat
  import opened CpChange
  import opened CpStore

  const NODE_SIZE := 32

  /** The bytes a node takes in a checkpoint. */
  const NODE_NEED := ENTRY_SIZE + NODE_SIZE

  /** The items that are nodes of a list, in order of emission. */
  ghost predicate Positions(idx: seq<nat>, n: nat)
  {
    && (forall j :: 0 <= j < |idx| ==> idx[j] < n)
    && (forall i, j :: 0 <= i < j < |idx| ==> idx[i] < idx[j])
  }

  ghost predicate NodeItem(items: seq<Item>, k: nat)
  {
    k < |items| && items[k].Oob? && |items[k].payload| == NODE_SIZE
  }

  /** The address of the node emitted before node `j`; 0 when there is none. */
  ghost function Before(items: seq<Item>, base: nat, idx: seq<nat>, j: nat): nat
    requires Positions(idx, |items|) && j <= |idx|
  {
    if j == 0 then 0 else base + PayloadAt(items, idx[j - 1])
  }

  ghost predicate Linked(items: seq<Item>, base: nat, idx: seq<nat>, j: nat)
    requires Positions(idx, |items|) && j < |idx|
  {
    NodeItem(items, idx[j]) && WordAt(items[idx[j]].payload, 0) == Before(items, base, idx, j)
  }

  /** Each node points to the one emitted before it, the list head to the last one. */
  ghost predicate Chain(items: seq<Item>, base: nat, head: nat, idx: seq<nat>)
  {
    && Positions(idx, |items|) && head == Before(items, base, idx, |idx|)
    && forall j :: 0 <= j < |idx| ==> Linked(items, base, idx, j)
  }

  // ---------------------------------------------------------------- node contents

  datatype Region = Region(addr: u64, size: u64, prot: nat)

  /** A handle, and the word in the payload of item `item` that is to receive it. */
  datatype Ref = Ref(handle: u64, item: nat, rel: nat)

  ghost predicate RegionAt(items: seq<Item>, k: nat, r: Region)
  {
    && NodeItem(items, k) && WordAt(items[k].payload, 8) == r.addr && WordAt(items[k].payload, 16) == r.size
    && HasAt(items[k].payload, 24, ToBytes(r.prot, 4))
  }

  ghost predicate SlotOk(items: seq<Item>, r: Ref)
  {
    r.item < |items| && items[r.item].Oob? && r.rel + 8 <= |items[r.item].payload|
  }

  ghost predicate RefAt(items: seq<Item>, base: nat, k: nat, r: Ref)
  {
    && NodeItem(items, k) && SlotOk(items, r) && WordAt(items[k].payload, 8) == r.handle
    && WordAt(items[k].payload, 24) == base + PayloadAt(items, r.item) + r.rel
  }

  /** What the lists of a checkpoint hold. */
  datatype Lists = Lists(memIdx: seq<nat>, regions: seq<Region>, hdlIdx: seq<nat>, refs: seq<Ref>)

  ghost predicate MemList(items: seq<Item>, base: nat, head: nat, l: Lists)
  {
    && Chain(items, base, head, l.memIdx) && |l.regions| == |l.memIdx|
    && forall j :: 0 <= j < |l.memIdx| ==> RegionAt(items, l.memIdx[j], l.regions[j])
  }

  ghost predicate HdlList(items: seq<Item>, base: nat, head: nat, l: Lists)
  {
    && Chain(items, base, head, l.hdlIdx) && |l.refs| == |l.hdlIdx|
    && forall j :: 0 <= j < |l.hdlIdx| ==> RefAt(items, base, l.hdlIdx[j], l.refs[j])
  }

  /** Nodes and slots lie in different items. */
  ghost predicate Apart(l: Lists)
  {
    && (forall i, j :: 0 <= i < |l.memIdx| && 0 <= j < |l.hdlIdx| ==> l.memIdx[i] != l.hdlIdx[j])
    && (forall i, j :: 0 <= i < |l.memIdx| && 0 <= j < |l.refs| ==> l.memIdx[i] != l.refs[j].item)
    && (forall i, j :: 0 <= i < |l.hdlIdx| && 0 <= j < |l.refs| ==> l.hdlIdx[i] != l.refs[j].item)
    && (forall i, j :: 0 <= i < j < |l.refs| ==> l.refs[i].item != l.refs[j].item)
  }

  ghost predicate Listed(items: seq<Item>, base: nat, firstMem: nat, lastHdl: nat, l: Lists)
  {
    MemList(items, base, firstMem, l) && HdlList(items, base, lastHdl, l) && Apart(l)
  }

  /** Byte `i` of item `k` belongs to a link, a slot pointer or a slot. */
  ghost predicate Touches(l: Lists, k: nat, i: nat)
  {
    || (k in l.memIdx && i < 8)
    || (k in l.hdlIdx && (i < 8 || 24 <= i < 32))
    || exists r :: r in l.refs && r.item == k && r.rel <= i < r.rel + 8
  }

  /** All that receiving memory and handles may change in a checkpoint. */
  ghost function ListBytes(l: Lists): iset<Place>
  {
    iset p: Place | Touches(l, p.0, p.1)
  }

  lemma TouchedWords(l: Lists, j: nat)
    ensures j < |l.memIdx| ==> forall i: nat :: i < 8 ==> (l.memIdx[j], i) in ListBytes(l)
    ensures j < |l.hdlIdx| ==> forall i: nat :: i < 8 || 24 <= i < 32 ==> (l.hdlIdx[j], i) in ListBytes(l)
    ensures j < |l.refs| ==>
      forall i: nat :: l.refs[j].rel <= i < l.refs[j].rel + 8 ==> (l.refs[j].item, i) in ListBytes(l)
  {
  }

  // ---------------------------------------------------------------- growing

  /** Emitting more items leaves a chain as it is. */
  lemma ChainKept(items: seq<Item>, items': seq<Item>, base: nat, head: nat, idx: seq<nat>)
    requires Chain(items, base, head, idx) && items <= items'
    ensures Chain(items', base, head, idx)
  {
    BeforeKept(items, items', base, idx, |idx|);
    forall j | 0 <= j < |idx| ensures Linked(items', base, idx, j) {
      assert Linked(items, base, idx, j);
      BeforeKept(items, items', base, idx, j);
    }
  }

  lemma BeforeKept(items: seq<Item>, items': seq<Item>, base: nat, idx: seq<nat>, j: nat)
    requires Positions(idx, |items|) && items <= items' && j <= |idx|
    ensures Before(items', base, idx, j) == Before(items, base, idx, j)
  {
    if j > 0 { SameOffsets(items, items', idx[j - 1]); }
  }

  lemma RefKept(items: seq<Item>, items': seq<Item>, base: nat, k: nat, r: Ref)
    requires RefAt(items, base, k, r) && items <= items'
    ensures RefAt(items', base, k, r)
  {
    SameOffsets(items, items', r.item);
  }

  lemma ListedKept(items: seq<Item>, items': seq<Item>, base: nat, firstMem: nat, lastHdl: nat, l: Lists)
    requires Listed(items, base, firstMem, lastHdl, l) && items <= items'
    ensures Listed(items', base, firstMem, lastHdl, l)
  {
    ChainKept(items, items', base, firstMem, l.memIdx);
    ChainKept(items, items', base, lastHdl, l.hdlIdx);
    forall j | 0 <= j < |l.memIdx| ensures RegionAt(items', l.memIdx[j], l.regions[j]) {
      assert RegionAt(items, l.memIdx[j], l.regions[j]);
    }
    forall j | 0 <= j < |l.hdlIdx| ensures RefAt(items', base, l.hdlIdx[j], l.refs[j]) {
      assert RefAt(items, base, l.hdlIdx[j], l.refs[j]);
      RefKept(items, items', base, l.hdlIdx[j], l.refs[j]);
    }
  }

  /** Linking the newest node in front. */
  lemma ChainPush(items: seq<Item>, base: nat, head: nat, idx: seq<nat>, k: nat)
    requires Chain(items, base, head, idx) && NodeItem(items, k) && WordAt(items[k].payload, 0) == head
    requires forall j :: 0 <= j < |idx| ==> idx[j] < k
    ensures Chain(items, base, base + PayloadAt(items, k), idx + [k])
  {
    var idx' := idx + [k];
    forall j | 0 <= j < |idx'| ensures Linked(items, base, idx', j) {
      if j < |idx| { assert Linked(items, base, idx, j); }
    }
  }

  ghost function WithRegion(l: Lists, k: nat, r: Region): Lists
  {
    l.(memIdx := l.memIdx + [k], regions := l.regions + [r])
  }

  ghost function WithRef(l: Lists, k: nat, r: Ref): Lists
  {
    l.(hdlIdx := l.hdlIdx + [k], refs := l.refs + [r])
  }

  /** All nodes and slots lie below item `n`. */
  ghost predicate Below(l: Lists, n: nat)
  {
    && Positions(l.memIdx, n) && Positions(l.hdlIdx, n)
    && forall j :: 0 <= j < |l.refs| ==> l.refs[j].item < n
  }

  lemma ListedBelow(items: seq<Item>, base: nat, firstMem: nat, lastHdl: nat, l: Lists)
    requires Listed(items, base, firstMem, lastHdl, l)
    ensures Below(l, |items|)
  {
    forall j | 0 <= j < |l.refs| ensures l.refs[j].item < |items| {
      assert RefAt(items, base, l.hdlIdx[j], l.refs[j]);
    }
  }

  /** Item `k` is no node and has no slot. */
  ghost predicate Free(l: Lists, k: nat)
  {
    k !in l.memIdx && k !in l.hdlIdx && forall r :: r in l.refs ==> r.item != k
  }

  lemma ApartRef(l: Lists, n: nat, k: nat, r: Ref)
    requires Apart(l) && Below(l, n) && n <= k && Free(l, r.item) && r.item != k
    ensures Apart(WithRef(l, k, r))
  {
  }

  lemma ListedMemory(items0: seq<Item>, items: seq<Item>, base: nat, firstMem: nat, lastHdl: nat, l: Lists,
                     k: nat, r: Region)
    requires Listed(items0, base, firstMem, lastHdl, l) && items0 <= items && |items0| <= k
    requires RegionAt(items, k, r) && WordAt(items[k].payload, 0) == firstMem
    ensures Listed(items, base, base + PayloadAt(items, k), lastHdl, WithRegion(l, k, r))
  {
    ListedBelow(items0, base, firstMem, lastHdl, l);
    ListedKept(items0, items, base, firstMem, lastHdl, l);
    ChainPush(items, base, firstMem, l.memIdx, k);
  }

  lemma ListedHandle(items0: seq<Item>, items: seq<Item>, base: nat, firstMem: nat, lastHdl: nat, l: Lists,
                     k: nat, r: Ref)
    requires Listed(items0, base, firstMem, lastHdl, l) && items0 <= items && |items0| <= k && Free(l, r.item)
    requires RefAt(items, base, k, r) && r.item != k && WordAt(items[k].payload, 0) == lastHdl
    ensures Listed(items, base, firstMem, base + PayloadAt(items, k), WithRef(l, k, r))
  {
    ListedBelow(items0, base, firstMem, lastHdl, l);
    ListedKept(items0, items, base, firstMem, lastHdl, l);
    ChainPush(items, base, lastHdl, l.hdlIdx, k);
    ApartRef(l, |items0|, k, r);
  }

  // ---------------------------------------------------------------- filling in a node

  lemma Fields(p: seq<byte>, w8: u64, w16: u64, last: seq<byte>, w0: u64)
    requires |p| == NODE_SIZE && |last| <= 8
    ensures var p' := Put(Put(Put(Put(p, 8, Bytes(w8)), 16, Bytes(w16)), 24, last), 0, Bytes(w0));
      WordAt(p', 0) == w0 && WordAt(p', 8) == w8 && WordAt(p', 16) == w16 && HasAt(p', 24, last)
  {
    var p1 := Put(p, 8, Bytes(w8));
    var p2 := Put(p1, 16, Bytes(w16));
    WordPut(p, 8, w8);
    FieldsSecond(p1, w16);
    FieldsTail(p2, last);
    FieldsLink(Put(p2, 24, last), w0, |last|);
  }

  lemma FieldsSecond(p: seq<byte>, w16: u64)
    requires |p| == NODE_SIZE
    ensures var p' := Put(p, 16, Bytes(w16));
      WordAt(p', 16) == w16 && WordAt(p', 8) == WordAt(p, 8) && WordAt(p', 0) == WordAt(p, 0)
  {
    WordPut(p, 16, w16);
    OtherWordKept(p, 16, w16, 8);
    OtherWordKept(p, 16, w16, 0);
  }

  lemma OtherWordKept(p: seq<byte>, at: nat, w: u64, rel: nat)
    requires at + 8 <= |p| && rel + 8 <= |p| && (rel + 8 <= at || at + 8 <= rel)
    ensures WordAt(Put(p, at, Bytes(w)), rel) == WordAt(p, rel)
  {
    PutAway(p, at, Bytes(w), rel, 8);
  }

  lemma FieldsLink(p: seq<byte>, w0: u64, n: nat)
    requires |p| == NODE_SIZE && n <= 8
    ensures var p' := Put(p, 0, Bytes(w0));
      && WordAt(p', 0) == w0 && WordAt(p', 8) == WordAt(p, 8) && WordAt(p', 16) == WordAt(p, 16)
      && p'[24..24 + n] == p[24..24 + n]
  {
    WordPut(p, 0, w0);
    PutAway(p, 0, Bytes(w0), 8, 8);
    PutAway(p, 0, Bytes(w0), 16, 8);
    PutAway(p, 0, Bytes(w0), 24, n);
  }

  /** Overwriting the end of a node. */
  lemma FieldsTail(p: seq<byte>, last: seq<byte>)
    requires |p| == NODE_SIZE && |last| <= 8
    ensures var p' := Put(p, 24, last);
      && HasAt(p', 24, last) && WordAt(p', 0) == WordAt(p, 0) && WordAt(p', 8) == WordAt(p, 8)
      && WordAt(p', 16) == WordAt(p, 16)
  {
    PutHas(p, 24, last);
    PutAway(p, 24, last, 0, 8);
    PutAway(p, 24, last, 8, 8);
    PutAway(p, 24, last, 16, 8);
  }

  lemma NodeCompleted(p: seq<byte>, w16: u64, w24: u64)
    requires |p| == NODE_SIZE
    ensures var p' := Put(Put(p, 16, Bytes(w16)), 24, Bytes(w24));
      WordAt(p', 0) == WordAt(p, 0) && WordAt(p', 8) == WordAt(p, 8) && WordAt(p', 24) == w24
  {
    var p1 := Put(p, 16, Bytes(w16));
    FieldsSecond(p, w16);
    FieldsTail(p1, Bytes(w24));
    WordHas(Put(p1, 24, Bytes(w24)), 24, w24);
  }

  /** A new payload of 32 bytes, filled in from its second word on and then linked. */
  method NewNode(store: Store, w8: u64, w16: u64, last: seq<byte>, w0: u64) returns (ok: bool, off: nat)
    requires store.Valid() && |last| <= 8
    modifies store`mem, store`offset, store`items
    ensures old(store.offset) + NODE_NEED <= store.room ==> ok
    ensures ok ==> store.offset == old(store.offset) + NODE_NEED
    ensures ok ==>
      && store.Valid() && |store.items| == |old(store.items)| + 1
      && store.items[..|old(store.items)|] == old(store.items)
      && NodeItem(store.items, |old(store.items)|) && off == PayloadAt(store.items, |old(store.items)|)
    ensures ok ==>
      var p := store.items[|old(store.items)|].payload;
      && WordAt(p, 0) == w0 && WordAt(p, 8) == w8 && WordAt(p, 16) == w16 && HasAt(p, 24, last)
  {
    ghost var k := |store.items|;
    ok, off := store.AddOffset(NODE_SIZE);
    if !ok {
      return;
    }
    Fields(store.items[k].payload, w8, w16, last, w0);
    store.Write(off + 8, Bytes(w8), k, 8);
    store.Write(off + 16, Bytes(w16), k, 16);
    store.Write(off + 24, last, k, 24);
    store.Write(off, Bytes(w0), k, 0);
  }

  // ---------------------------------------------------------------- cp_memory and cp_palhdl

  const PROT_READ_WRITE := 3

  /** The store's two lists hold `l`. */
  ghost predicate Holds(store: Store, l: Lists)
    reads store
  {
    && store.Valid() && Listed(store.items, store.base, store.firstMem, store.lastHdl, l)
    && store.memCnt == |l.memIdx| && store.hdlCnt == |l.hdlIdx|
  }

  /** `cp_memory`: the node is linked in front of the list. */
  method CpMemory(store: Store, addr: u64, size: u64) returns (ok: bool, off: nat)
    requires store.Valid()
    modifies store`mem, store`offset, store`items, store`firstMem, store`memCnt
    ensures old(store.offset) + NODE_NEED <= store.room ==> ok
    ensures ok ==> store.offset == old(store.offset) + NODE_NEED
    ensures ok ==>
      && store.Valid() && |store.items| == |old(store.items)| + 1
      && store.items[..|old(store.items)|] == old(store.items)
      && RegionAt(store.items, |old(store.items)|, Region(addr, size, PROT_READ_WRITE))
      && WordAt(store.items[|old(store.items)|].payload, 0) == old(store.firstMem)
      && off == PayloadAt(store.items, |old(store.items)|)
      && store.firstMem == store.base + off && store.memCnt == old(store.memCnt) + 1
  {
    ghost var k := |store.items|;
    ok, off := NewNode(store, addr, size, ToBytes(PROT_READ_WRITE, 4), store.firstMem);
    if ok {
      NodeInside(store, k);
      store.firstMem := store.base + off;
      store.memCnt := store.memCnt + 1;
    }
  }

  lemma NodeInside(store: Store, k: nat)
    requires store.Valid() && NodeItem(store.items, k)
    ensures store.base + PayloadAt(store.items, k) < WORD_MAX
  {
    OffsetMonotone(store.items, k, |store.items|);
  }

  /** Overwriting the end of the node at `off`. */
  method SetTail(store: Store, off: nat, b: seq<byte>, ghost k: nat)
    requires store.Valid() && NodeItem(store.items, k) && off == PayloadAt(store.items, k) && |b| <= 8
    modifies store`mem, store`items
    ensures store.Valid() && NodeItem(store.items, k) && store.items == old(store.items)[k := store.items[k]]
    ensures PayloadAt(store.items, k) == off
    ensures
      var p, p' := old(store.items[k].payload), store.items[k].payload;
      && WordAt(p', 0) == WordAt(p, 0) && WordAt(p', 8) == WordAt(p, 8) && WordAt(p', 16) == WordAt(p, 16)
      && HasAt(p', 24, b)
  {
    FieldsTail(store.items[k].payload, b);
    store.Write(off + 24, b, k, 24);
  }

  /** A memory area with its own protection, as the VMA checkpoint adds it: it is the new head of the
      list, behind which the others are still in place. */
  method AddMemory(store: Store, addr: u64, size: u64, prot: nat, ghost l: Lists) returns (ok: bool)
    requires Holds(store, l)
    modifies store`mem, store`offset, store`items, store`firstMem, store`memCnt
    ensures old(store.offset) + NODE_NEED <= store.room ==> ok
    ensures ok ==> Holds(store, WithRegion(l, |old(store.items)|, Region(addr, size, prot)))
    ensures ok ==>
      && store.offset == old(store.offset) + NODE_NEED && |store.items| == |old(store.items)| + 1
      && store.items[..|old(store.items)|] == old(store.items) && NodeItem(store.items, |old(store.items)|)
  {
    ghost var items, head := store.items, store.firstMem;
    var off;
    ok, off := CpMemory(store, addr, size);
    if !ok {
      return;
    }
    SetTail(store, off, ToBytes(prot, 4), |items|);
    ListedMemory(items, store.items, store.base, head, store.lastHdl, l, |items|, Region(addr, size, prot));
  }

  /** `cp_palhdl`: a node with the handle, to be completed by the caller, and its entry. */
  method CpPalHandle(store: Store, kind: u64, handle: u64) returns (ok: bool, off: nat)
    requires store.Valid() && kind >= CP_FUNC_BASE
    modifies store`mem, store`offset, store`items, store`lastHdl, store`hdlCnt
    ensures old(store.offset) + NODE_NEED + ENTRY_SIZE <= store.room ==> ok
    ensures ok ==> store.offset == old(store.offset) + NODE_NEED + ENTRY_SIZE
    ensures ok ==>
      && store.Valid() && |store.items| == |old(store.items)| + 2
      && store.items[..|old(store.items)|] == old(store.items)
      && NodeItem(store.items, |old(store.items)|) && off == PayloadAt(store.items, |old(store.items)|)
      && store.items[|old(store.items)| + 1].Entry? && store.items[|old(store.items)| + 1].kind == kind
      && store.items[|old(store.items)| + 1].val == off
      && store.lastHdl == store.base + off && store.hdlCnt == old(store.hdlCnt) + 1
    ensures ok ==>
      var p := store.items[|old(store.items)|].payload;
      && WordAt(p, 0) == old(store.lastHdl) && WordAt(p, 8) == handle && WordAt(p, 16) == 0
      && HasAt(p, 24, Bytes(0))
  {
    ghost var k := |store.items|;
    ok, off := NewNode(store, handle, 0, Bytes(0), store.lastHdl);
    if !ok {
      return;
    }
    NodeInside(store, k);
    ghost var items := store.items;
    store.lastHdl := store.base + off;
    store.hdlCnt := store.hdlCnt + 1;
    var entry;
    ok, entry := store.AddEntry(kind, off);
    if ok {
      SameOffsets(items, store.items, k);
    }
  }

  /** `entry->uri` and `entry->phandle` of the node at `off`. */
  method Complete(store: Store, off: nat, uri: u64, phandle: u64, ghost k: nat)
    requires store.Valid() && NodeItem(store.items, k) && off == PayloadAt(store.items, k)
    modifies store`mem, store`items
    ensures store.Valid() && NodeItem(store.items, k) && store.items == old(store.items)[k := store.items[k]]
    ensures PayloadAt(store.items, k) == off
    ensures
      var p, p' := old(store.items[k].payload), store.items[k].payload;
      && WordAt(p', 0) == WordAt(p, 0) && WordAt(p', 8) == WordAt(p, 8) && WordAt(p', 24) == phandle
  {
    NodeCompleted(store.items[k].payload, uri, phandle);
    store.Write(off + 16, Bytes(uri), k, 16);
    store.Write(off + 24, Bytes(phandle), k, 24);
  }

  /** A handle that belongs to the object at offset `obj`, in the payload of item `host`: the node
      is told the word at `rel` of that object (`entry->phandle = &new_hdl->pal_handle`). */
  method AddHandle(store: Store, kind: u64, handle: u64, obj: nat, rel: nat, uri: u64, ghost l: Lists,
                   ghost host: nat) returns (ok: bool)
    requires store.Valid() && kind >= CP_FUNC_BASE && SlotOk(store.items, Ref(handle, host, rel))
    requires obj == PayloadAt(store.items, host) && Holds(store, l) && Free(l, host)
    modifies store`mem, store`offset, store`items, store`lastHdl, store`hdlCnt
    ensures old(store.offset) + NODE_NEED + ENTRY_SIZE <= store.room ==> ok
    ensures ok ==>
      && store.offset == old(store.offset) + NODE_NEED + ENTRY_SIZE && |store.items| == |old(store.items)| + 2
      && store.items[..|old(store.items)|] == old(store.items) && NodeItem(store.items, |old(store.items)|)
      && store.items[|old(store.items)| + 1].Entry? && store.items[|old(store.items)| + 1].kind == kind
    ensures ok ==> Holds(store, WithRef(l, |old(store.items)|, Ref(handle, host, rel)))
  {
    ghost var items, head, r := store.items, store.lastHdl, Ref(handle, host, rel);
    SlotInside(store, r);
    var off;
    ok, off := CpPalHandle(store, kind, handle);
    if !ok {
      return;
    }
    Complete(store, off, uri, store.base + obj + rel, |items|);
    NewRef(items, store.items, store.base, |items|, r);
    ListedHandle(items, store.items, store.base, store.firstMem, head, l, |items|, r);
  }

  lemma SlotInside(store: Store, r: Ref)
    requires store.Valid() && SlotOk(store.items, r)
    ensures store.base + PayloadAt(store.items, r.item) + r.rel < WORD_MAX
  {
    OffsetMonotone(store.items, r.item, |store.items|);
  }

  lemma NewRef(items: seq<Item>, items': seq<Item>, base: nat, k: nat, r: Ref)
    requires items <= items' && SlotOk(items, r) && NodeItem(items', k) && WordAt(items'[k].payload, 8) == r.handle
    requires WordAt(items'[k].payload, 24) == base + PayloadAt(items, r.item) + r.rel
    ensures RefAt(items', base, k, r)
  {
    SameOffsets(items, items', r.item);
  }
}
