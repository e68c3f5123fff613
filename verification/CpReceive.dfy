/** The child's side of the protocol: the lists are rebased while they are followed. */
module CpReceive {
  import opened Words
  import opened CpFormat
  import opened CpChange
  import opened CpStream
  import opened CpLists
  import opened CpSend
  import opened CpRestore

  // ---------------------------------------------------------------- one pointer

  /** `CP_REBASE` of one pointer. */
  method Rebase(blob: Blob, at: nat, rebase: u64, ghost k: nat, ghost rel: nat, ghost w: u64)
    requires blob.Valid() && k < |blob.items| && blob.items[k].Oob? && rel + 8 <= |blob.items[k].payload|
    requires at == PayloadAt(blob.items, k) + rel
    requires var v := WordAt(blob.items[k].payload, rel); w == if v == 0 then 0 else Add64(v, rebase)
    modifies blob`mem, blob`items
    ensures blob.Valid() && |blob.mem| == old(|blob.mem|) && WordSet(old(blob.items), blob.items, k, rel, w)
  {
    blob.WordIn(k, rel);
    var v := WordAt(blob.mem, at);
    if v != 0 {
      PokeWord(blob.items, k, rel, w);
      blob.Write(at, Bytes(Add64(v, rebase)), k, rel);
    }
  }

  // ---------------------------------------------------------------- frames

  lemma BeforeOnly(items: seq<Item>, items': seq<Item>, k: nat, base: nat, idx: seq<nat>, j: nat)
    requires Only(items, items', k) && Positions(idx, |items|) && j <= |idx|
    ensures Before(items', base, idx, j) == Before(items, base, idx, j)
  {
    if j > 0 { OnlyOffsets(items, items', k, idx[j - 1]); }
  }

  /** A change inside an item that is no node of the handle list. */
  lemma HdlListOnly(items: seq<Item>, items': seq<Item>, k: nat, base: nat, head: nat, l: Lists)
    requires HdlList(items, base, head, l) && Only(items, items', k)
    requires forall j :: 0 <= j < |l.hdlIdx| ==> l.hdlIdx[j] != k
    ensures HdlList(items', base, head, l)
  {
    BeforeOnly(items, items', k, base, l.hdlIdx, |l.hdlIdx|);
    forall j | 0 <= j < |l.hdlIdx|
      ensures Linked(items', base, l.hdlIdx, j) && RefAt(items', base, l.hdlIdx[j], l.refs[j])
    {
      assert Linked(items, base, l.hdlIdx, j) && RefAt(items, base, l.hdlIdx[j], l.refs[j]);
      BeforeOnly(items, items', k, base, l.hdlIdx, j);
      OnlyOffsets(items, items', k, l.refs[j].item);
    }
  }

  /** A change inside an item that is no node of the region list. */
  lemma MemListOnly(items: seq<Item>, items': seq<Item>, k: nat, base: nat, head: nat, l: Lists)
    requires MemList(items, base, head, l) && Only(items, items', k)
    requires forall j :: 0 <= j < |l.memIdx| ==> l.memIdx[j] != k
    ensures MemList(items', base, head, l)
  {
    BeforeOnly(items, items', k, base, l.memIdx, |l.memIdx|);
    forall j | 0 <= j < |l.memIdx|
      ensures Linked(items', base, l.memIdx, j) && RegionAt(items', l.memIdx[j], l.regions[j])
    {
      assert Linked(items, base, l.memIdx, j) && RegionAt(items, l.memIdx[j], l.regions[j]);
      BeforeOnly(items, items', k, base, l.memIdx, j);
    }
  }

  // ---------------------------------------------------------------- a list being rebased

  /** The nodes from `j` on are rebased from `from` to `to`, those before are not. */
  ghost predicate Half(items: seq<Item>, from: nat, to: nat, idx: seq<nat>, j: nat)
  {
    && Positions(idx, |items|) && j <= |idx|
    && (forall i :: 0 <= i < j ==> Linked(items, from, idx, i))
    && (forall i :: j <= i < |idx| ==> Linked(items, to, idx, i))
  }

  lemma LinkedOnly(items: seq<Item>, items': seq<Item>, k: nat, base: nat, idx: seq<nat>, i: nat)
    requires Only(items, items', k) && Positions(idx, |items|) && i < |idx| && idx[i] != k
    requires Linked(items, base, idx, i)
    ensures Linked(items', base, idx, i)
  {
    BeforeOnly(items, items', k, base, idx, i);
  }

  lemma HalfStep(items: seq<Item>, items': seq<Item>, from: nat, to: nat, idx: seq<nat>, j: nat)
    requires Half(items, from, to, idx, j + 1) && NodeItem(items, idx[j]) && Only(items, items', idx[j])
    requires WordAt(items'[idx[j]].payload, 0) == Before(items, to, idx, j)
    ensures Half(items', from, to, idx, j)
  {
    BeforeOnly(items, items', idx[j], to, idx, j);
    forall i | 0 <= i < j ensures Linked(items', from, idx, i) {
      LinkedOnly(items, items', idx[j], from, idx, i);
    }
    forall i | j < i < |idx| ensures Linked(items', to, idx, i) {
      LinkedOnly(items, items', idx[j], to, idx, i);
    }
  }

  /** The pointer in node `j` of a half rebased list, before and after. */
  lemma HalfWord(blob: Blob, from: u64, rebase: u64, idx: seq<nat>, j: nat)
    requires blob.Valid() && Half(blob.items, from, blob.base, idx, j + 1)
    requires 0 < from && from + |blob.mem| <= WORD_MAX && rebase == Sub64(blob.base, from)
    ensures NodeItem(blob.items, idx[j]) && Before(blob.items, blob.base, idx, j) < WORD_MAX
    ensures
      var v := WordAt(blob.items[idx[j]].payload, 0);
      Before(blob.items, blob.base, idx, j) == if v == 0 then 0 else Add64(v, rebase)
  {
    assert Linked(blob.items, from, idx, j);
    if j > 0 {
      assert Linked(blob.items, from, idx, j - 1);
      OffsetMonotone(blob.items, idx[j - 1], |blob.items|);
      RebaseExact(from, blob.base, PayloadAt(blob.items, idx[j - 1]));
    }
  }

  // ---------------------------------------------------------------- memory regions

  /** The child's memory outside the blob. */
  class Space {
    var bytes: map<nat, byte>

    /** Data arrives at `addr`. */
    method Land(addr: nat, data: seq<byte>)
      modifies this
      ensures bytes == Landed(old(bytes), addr, data)
    {
      bytes := Landed(bytes, addr, data);
    }
  }

  function Landed(m: map<nat, byte>, addr: nat, data: seq<byte>): map<nat, byte>
  {
    m + map a: nat | addr <= a < addr + |data| :: ByteFor(addr, data, a)
  }

  function ByteFor(addr: nat, data: seq<byte>, a: nat): byte
    requires addr <= a < addr + |data|
  {
    data[a - addr]
  }

  predicate InRegion(r: Region, a: nat)
  {
    r.addr <= a < r.addr + r.size
  }

  ghost predicate InSome(regions: seq<Region>, j: nat, a: nat)
  {
    exists i :: j <= i < |regions| && InRegion(regions[i], a)
  }

  ghost predicate FilledAt(before: map<nat, byte>, now: map<nat, byte>, ram: nat -> byte, inside: bool, a: nat)
  {
    if inside then a in now && now[a] == ram(a) else SameByte(before, now, a)
  }

  predicate SameByte(before: map<nat, byte>, now: map<nat, byte>, a: nat)
  {
    (a in now <==> a in before) && (a in now ==> now[a] == before[a])
  }

  /** Nothing outside the regions from `j` on has changed. */
  ghost predicate Elsewhere(before: map<nat, byte>, now: map<nat, byte>, regions: seq<Region>, j: nat)
  {
    forall a: nat :: !InSome(regions, j, a) ==> SameByte(before, now, a)
  }

  lemma ElsewhereStep(before: map<nat, byte>, mid: map<nat, byte>, now: map<nat, byte>, regions: seq<Region>, j: nat,
                      data: seq<byte>)
    requires j < |regions| && Elsewhere(before, mid, regions, j + 1) && |data| <= regions[j].size
    requires now == mid || now == Landed(mid, regions[j].addr, data)
    ensures Elsewhere(before, now, regions, j)
  {
    forall a: nat | !InSome(regions, j, a) ensures SameByte(before, now, a) {
      assert !InRegion(regions[j], a) && !InSome(regions, j + 1, a);
    }
  }

  /** The regions from `j` on hold what they hold in the parent; all else is as before. */
  ghost predicate Filled(before: map<nat, byte>, now: map<nat, byte>, ram: nat -> byte, regions: seq<Region>, j: nat)
  {
    forall a: nat :: FilledAt(before, now, ram, InSome(regions, j, a), a)
  }

  lemma FilledStep(before: map<nat, byte>, now: map<nat, byte>, ram: nat -> byte, regions: seq<Region>, j: nat)
    requires j < |regions| && Filled(before, now, ram, regions, j + 1)
    ensures Filled(before, Landed(now, regions[j].addr, Contents(ram, regions[j])), ram, regions, j)
  {
    var r := regions[j];
    var now' := Landed(now, r.addr, Contents(ram, r));
    forall a: nat ensures FilledAt(before, now', ram, InSome(regions, j, a), a) {
      assert FilledAt(before, now, ram, InSome(regions, j + 1, a), a);
      assert InSome(regions, j, a) <==> InRegion(r, a) || InSome(regions, j + 1, a);
    }
  }

  lemma FilledStart(m: map<nat, byte>, ram: nat -> byte, regions: seq<Region>)
    ensures Filled(m, m, ram, regions, |regions|)
  {
    forall a: nat ensures FilledAt(m, m, ram, InSome(regions, |regions|, a), a) {
      assert !InSome(regions, |regions|, a);
    }
  }

  /** The host calls for a region: its pages are allocated and, if it cannot be written, protected. */
  function ReceiveCalls(prot: nat): nat
  {
    if prot / 2 % 2 == 0 then 2 else 1
  }

  /** The host calls for the regions from `j` on. */
  function ReceiveDue(regions: seq<Region>, j: nat): nat
    requires j <= |regions|
    decreases |regions| - j
  {
    if j == |regions| then 0 else ReceiveDue(regions, j + 1) + ReceiveCalls(regions[j].prot)
  }

  lemma {:induction false} ReceiveDueMonotone(regions: seq<Region>, j: nat)
    requires j <= |regions|
    ensures ReceiveDue(regions, j) <= ReceiveDue(regions, 0)
    decreases j
  {
    if j > 0 { ReceiveDueMonotone(regions, j - 1); }
  }

  /** Of `due` host calls, numbered from `a`, those below `b` are made, and one that fails is reported. If
      the stream is `steady`, nothing else is. */
  ghost predicate Reported(outcome: nat -> nat, a: nat, b: nat, due: nat, ret: int, steady: bool)
  {
    Accounted(outcome, a, b, due, ret) && (steady || Report(outcome, a, b) != 0 ==> ret == Report(outcome, a, b))
  }

  /** One region: its pages are allocated, filled and, if need be, made read-only. */
  method ReceiveRegion(host: Host, space: Space, addr: u64, size: u64, prot: nat,
                       ghost data: seq<byte>, ghost rest: seq<Token>) returns (ret: int, got: seq<byte>)
    modifies host, space
    ensures ret <= 0 && |got| <= size
    ensures Reported(host.outcome, old(host.made), host.made, ReceiveCalls(prot), ret,
                     old(Steady(host.sched) && |data| == size && host.wire == Tokens(data) + rest))
    ensures old(Steady(host.sched) && |data| == size && host.wire == Tokens(data) + rest) ==> Steady(host.sched)
    ensures space.bytes == old(space.bytes) || space.bytes == Landed(old(space.bytes), addr, got)
    ensures host.outcome(old(host.made)) != 0 ==>
      host.sched == old(host.sched) && host.wire == old(host.wire) && space.bytes == old(space.bytes)
    ensures old(Open(host.sched) && |data| == size && host.wire == Tokens(data) + rest) ==>
      && Open(host.sched)
      && (ret == 0 ==> host.wire == rest && space.bytes == Landed(old(space.bytes), addr, data))
  {
    got := [];
    var err := host.Call();
    if err != 0 {
      return -(err as int), got;
    }
    ret, got := host.ReadAll(size, data, rest);
    space.Land(addr, got);
    if ret < 0 {
      return;
    }
    if prot / 2 % 2 == 0 {
      err := host.Call();
      if err != 0 {
        return -(err as int), got;
      }
    }
  }

  /** The region list in mid-rebase; the handle list is still as it came. */
  ghost predicate MemState(items: seq<Item>, from: nat, to: nat, lastHdl: nat, l: Lists, j: nat)
  {
    && Half(items, from, to, l.memIdx, j) && |l.regions| == |l.memIdx|
    && (forall i :: 0 <= i < |l.memIdx| ==> RegionAt(items, l.memIdx[i], l.regions[i]))
    && HdlList(items, from, lastHdl, l) && Apart(l)
  }

  lemma MemStateStep(items: seq<Item>, items': seq<Item>, from: nat, to: nat, lastHdl: nat, l: Lists, j: nat, w: u64)
    requires MemState(items, from, to, lastHdl, l, j + 1) && WordSet(items, items', l.memIdx[j], 0, w)
    requires w == Before(items, to, l.memIdx, j)
    ensures MemState(items', from, to, lastHdl, l, j)
  {
    var k := l.memIdx[j];
    assert RegionAt(items, k, l.regions[j]);
    HalfStep(items, items', from, to, l.memIdx, j);
    HdlListOnly(items, items', k, from, lastHdl, l);
    OtherWord(items, items', k, 0, w, 8, 8);
    OtherWord(items, items', k, 0, w, 16, 8);
    OtherWord(items, items', k, 0, w, 24, 4);
    forall i | 0 <= i < |l.memIdx| ensures RegionAt(items', l.memIdx[i], l.regions[i]) {
      assert RegionAt(items, l.memIdx[i], l.regions[i]);
    }
  }

  /** `CP_REBASE(entry->next)`. */
  method RebaseNext(blob: Blob, at: nat, rebase: u64, ghost from: u64, ghost lastHdl: nat, ghost l: Lists, ghost j: nat)
    requires blob.Valid() && MemState(blob.items, from, blob.base, lastHdl, l, j + 1)
    requires 0 < from && from + |blob.mem| <= WORD_MAX && rebase == Sub64(blob.base, from)
    requires at == PayloadAt(blob.items, l.memIdx[j])
    modifies blob`mem, blob`items
    ensures blob.Valid() && |blob.mem| == old(|blob.mem|) && |blob.items| == old(|blob.items|)
    ensures MemState(blob.items, from, blob.base, lastHdl, l, j) && at == PayloadAt(blob.items, l.memIdx[j])
    ensures Same(old(blob.items), blob.items, ListBytes(l))
  {
    ghost var items, k, w := blob.items, l.memIdx[j], Before(blob.items, blob.base, l.memIdx, j);
    HalfWord(blob, from, rebase, l.memIdx, j);
    Rebase(blob, at, rebase, k, 0, w);
    MemStateStep(items, blob.items, from, blob.base, lastHdl, l, j, w);
    OnlyOffsets(items, blob.items, k, k);
    TouchedWords(l, j);
    WordSame(items, blob.items, k, 0, w, ListBytes(l));
  }

  lemma RegionWords(blob: Blob, k: nat, r: Region, at: nat)
    requires blob.Valid() && RegionAt(blob.items, k, r) && at == PayloadAt(blob.items, k)
    ensures at + NODE_SIZE <= |blob.mem| && WordAt(blob.mem, at) == WordAt(blob.items[k].payload, 0)
    ensures WordAt(blob.mem, at + 8) == r.addr && WordAt(blob.mem, at + 16) == r.size
    ensures SameRights(WordAt(blob.mem, at + 24) % 0x1_0000_0000, r.prot)
  {
    RightsKept(blob.items[k].payload, r.prot);
    blob.WordIn(k, 0);
    blob.WordIn(k, 8);
    blob.WordIn(k, 16);
    blob.WordIn(k, 24);
  }

  /** Reads the node at `at`, whose link is rebased. */
  method ReadRegion(blob: Blob, at: nat, ghost from: u64, ghost lastHdl: nat, ghost l: Lists, ghost j: nat)
    returns (next: u64, addr: u64, size: u64, prot: nat)
    requires blob.Valid() && MemState(blob.items, from, blob.base, lastHdl, l, j)
    requires j < |l.memIdx| && at == PayloadAt(blob.items, l.memIdx[j])
    ensures next == Before(blob.items, blob.base, l.memIdx, j) && addr == l.regions[j].addr && size == l.regions[j].size
    ensures SameRights(prot, l.regions[j].prot)
  {
    assert RegionAt(blob.items, l.memIdx[j], l.regions[j]) && Linked(blob.items, blob.base, l.memIdx, j);
    RegionWords(blob, l.memIdx[j], l.regions[j], at);
    next, addr, size := WordAt(blob.mem, at), WordAt(blob.mem, at + 8), WordAt(blob.mem, at + 16);
    prot := WordAt(blob.mem, at + 24) % 0x1_0000_0000;
  }

  /** The stream has not ended, and with `j` regions to come the others have landed. */
  ghost predicate Arriving(host: Host, space: Space, before: map<nat, byte>, ram: nat -> byte, regions: seq<Region>,
                           rest: seq<Token>, j: nat)
    requires j <= |regions|
    reads host, space
  {
    && Open(host.sched) && host.wire == MemTokens(ram, regions, j) + rest
    && Filled(before, space.bytes, ram, regions, j)
  }

  /** The calls for the regions from `j` on, numbered from `start`, are made, and all went well so far if
      the stream is steady and whole. */
  ghost predicate ReceiveAccount(host: Host, start: nat, regions: seq<Region>, steady: bool, j: nat, ret: int)
    requires j <= |regions|
    reads host
  {
    Reported(host.outcome, start, host.made, ReceiveDue(regions, j), ret, steady) && (steady ==> Steady(host.sched))
  }

  lemma ReportedNext(outcome: nat -> nat, a: nat, b: nat, c: nat, due: nat, due': nat, ret: int, steady: bool)
    requires Reported(outcome, a, b, due, 0, steady) && Reported(outcome, b, c, due', ret, steady)
    ensures Reported(outcome, a, c, due + due', ret, steady)
  {
    AccountedNext(outcome, a, b, c, due, due', ret);
  }

  /** Receiving region `j`. */
  method LandRegion(host: Host, space: Space, addr: u64, size: u64, prot: nat, ghost before: map<nat, byte>,
                    ghost ram: nat -> byte, ghost regions: seq<Region>, ghost rest: seq<Token>, ghost start: nat,
                    ghost whole: bool, ghost steady: bool, ghost n: nat, ghost j: nat) returns (ret: int)
    requires n == j + 1 <= |regions| && addr == regions[j].addr && size == regions[j].size
    requires SameRights(prot, regions[j].prot) && Elsewhere(before, space.bytes, regions, n)
    requires whole ==> Arriving(host, space, before, ram, regions, rest, n)
    requires ReceiveAccount(host, start, regions, whole && steady, n, 0)
    modifies host, space
    ensures ret <= 0 && Elsewhere(before, space.bytes, regions, j)
    ensures ReceiveAccount(host, start, regions, whole && steady, j, ret)
    ensures whole && ret == 0 ==> Arriving(host, space, before, ram, regions, rest, j)
  {
    ghost var mid := space.bytes;
    ghost var data, left := Contents(ram, regions[j]), MemTokens(ram, regions, j);
    Regroup([], Tokens(data), left, rest);
    if whole {
      FilledStep(before, space.bytes, ram, regions, j);
    }
    var got;
    ret, got := ReceiveRegion(host, space, addr, size, prot, data, left + rest);
    ReportedNext(host.outcome, start, old(host.made), host.made, ReceiveDue(regions, n), ReceiveCalls(regions[j].prot),
                 ret, whole && steady);
    ElsewhereStep(before, mid, space.bytes, regions, j, got);
  }

  /** The received blob with its region list rebased from `j` on. */
  ghost predicate MemReady(blob: Blob, from: u64, lastHdl: nat, l: Lists, j: nat)
    reads blob
  {
    && blob.Valid() && 0 < from && from + |blob.mem| <= WORD_MAX
    && MemState(blob.items, from, blob.base, lastHdl, l, j)
  }

  /** One round of the loop, for the node of region `j` at `entry`. */
  method ReceiveOne(blob: Blob, host: Host, space: Space, entry: nat, rebase: u64, ghost from: u64, ghost lastHdl: nat,
                    ghost l: Lists, ghost before: map<nat, byte>, ghost ram: nat -> byte, ghost rest: seq<Token>,
                    ghost start: nat, ghost whole: bool, ghost steady: bool, ghost n: nat, ghost j: nat)
    returns (ret: int, next: nat)
    requires MemReady(blob, from, lastHdl, l, n) && entry == Before(blob.items, blob.base, l.memIdx, n)
    requires rebase == Sub64(blob.base, from) && n == j + 1 && Elsewhere(before, space.bytes, l.regions, n)
    requires whole ==> Arriving(host, space, before, ram, l.regions, rest, n)
    requires ReceiveAccount(host, start, l.regions, whole && steady, n, 0)
    modifies blob`mem, blob`items, host, space
    ensures MemReady(blob, from, lastHdl, l, j) && next == Before(blob.items, blob.base, l.memIdx, j)
    ensures Same(old(blob.items), blob.items, ListBytes(l))
    ensures ret <= 0 && Elsewhere(before, space.bytes, l.regions, j)
    ensures ReceiveAccount(host, start, l.regions, whole && steady, j, ret)
    ensures whole && ret == 0 ==> Arriving(host, space, before, ram, l.regions, rest, j)
  {
    var at: nat := entry - blob.base;
    RebaseNext(blob, at, rebase, from, lastHdl, l, j);
    var addr, size, prot;
    next, addr, size, prot := ReadRegion(blob, at, from, lastHdl, l, j);
    ret := LandRegion(host, space, addr, size, prot, before, ram, l.regions, rest, start, whole, steady, n, j);
  }

  /** `receive_memory_on_stream`: the regions come in newest first, the links are rebased on the way.
      Whatever the host does, only the regions and the list nodes change. On a stream that does not
      end early success means that all regions have arrived. */
  method ReceiveMemory(blob: Blob, host: Host, space: Space, from: u64, cnt: nat, off: nat, ghost ram: nat -> byte,
                       ghost lastHdl: nat, ghost l: Lists, ghost rest: seq<Token>) returns (ret: int)
    requires MemReady(blob, from, lastHdl, l, |l.memIdx|) && cnt == |l.memIdx|
    requires cnt > 0 ==> off == PayloadAt(blob.items, l.memIdx[cnt - 1])
    modifies blob`mem, blob`items, host, space
    ensures ret <= 0 && (ret == 0 ==> MemReady(blob, from, lastHdl, l, 0))
    ensures Same(old(blob.items), blob.items, ListBytes(l)) && Elsewhere(old(space.bytes), space.bytes, l.regions, 0)
    ensures ret == 0 && old(Open(host.sched) && host.wire == MemTokens(ram, l.regions, cnt) + rest) ==>
      Arriving(host, space, old(space.bytes), ram, l.regions, rest, 0)
    ensures ReceiveAccount(host, old(host.made), l.regions,
                           old(Steady(host.sched) && host.wire == MemTokens(ram, l.regions, cnt) + rest), 0, ret)
  {
    FilledStart(space.bytes, ram, l.regions);
    SameRefl(blob.items, ListBytes(l));
    if cnt == 0 {
      return 0;
    }
    ghost var steady := Steady(host.sched);
    ghost var whole := Open(host.sched) && host.wire == MemTokens(ram, l.regions, cnt) + rest;
    ret := FollowRegions(blob, host, space, from, blob.base + off, ram, lastHdl, l, rest, whole, steady, cnt);
  }

  lemma ElsewhereWider(before: map<nat, byte>, now: map<nat, byte>, regions: seq<Region>, j: nat)
    requires Elsewhere(before, now, regions, j)
    ensures Elsewhere(before, now, regions, 0)
  {
    forall a: nat | !InSome(regions, 0, a) ensures SameByte(before, now, a) {
      assert !InSome(regions, j, a);
    }
  }

  method FollowRegions(blob: Blob, host: Host, space: Space, from: u64, first: nat, ghost ram: nat -> byte,
                       ghost lastHdl: nat, ghost l: Lists, ghost rest: seq<Token>, ghost whole: bool,
                       ghost steady: bool, ghost cnt: nat) returns (ret: int)
    requires MemReady(blob, from, lastHdl, l, cnt) && first == Before(blob.items, blob.base, l.memIdx, cnt)
    requires cnt == |l.regions| && (steady ==> Steady(host.sched))
    requires whole ==> Arriving(host, space, space.bytes, ram, l.regions, rest, cnt)
    modifies blob`mem, blob`items, host, space
    ensures ret <= 0 && (ret == 0 ==> MemReady(blob, from, lastHdl, l, 0))
    ensures Same(old(blob.items), blob.items, ListBytes(l)) && Elsewhere(old(space.bytes), space.bytes, l.regions, 0)
    ensures whole && ret == 0 ==> Arriving(host, space, old(space.bytes), ram, l.regions, rest, 0)
    ensures ReceiveAccount(host, old(host.made), l.regions, whole && steady, 0, ret)
  {
    ghost var before, start, j: nat := space.bytes, host.made, cnt;
    var rebase := Sub64(blob.base, from);
    var entry := first;
    SameRefl(blob.items, ListBytes(l));
    while entry != 0
      invariant Same(old(blob.items), blob.items, ListBytes(l))
      invariant MemReady(blob, from, lastHdl, l, j) && entry == Before(blob.items, blob.base, l.memIdx, j)
      invariant Elsewhere(before, space.bytes, l.regions, j)
      invariant whole ==> Arriving(host, space, before, ram, l.regions, rest, j)
      invariant ReceiveAccount(host, start, l.regions, whole && steady, j, 0)
      decreases j
    {
      ghost var i: nat, items := j - 1, blob.items;
      ret, entry := ReceiveOne(blob, host, space, entry, rebase, from, lastHdl, l, before, ram, rest, start, whole,
                               steady, j, i);
      SameTrans(old(blob.items), items, blob.items, ListBytes(l));
      j := i;
      if ret < 0 {
        ElsewhereWider(before, space.bytes, l.regions, j);
        ReceiveDueMonotone(l.regions, j);
        AccountedFirst(host.outcome, start, host.made, ReceiveDue(l.regions, j), ReceiveDue(l.regions, 0), ret);
        return;
      }
    }
    ret := 0;
  }
}