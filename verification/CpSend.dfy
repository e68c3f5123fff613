/** The parent's side of the protocol: the blob, then the memory regions, then the handles. */
module CpSend {
  import Bits
  import opened Words
  import opened CpFormat
  import opened CpWalk
  import opened CpStore
  import opened CpStream
  import opened CpLists

  /** The bytes of a region in the address space `ram`. */
  function Contents(ram: nat -> byte, r: Region): (b: seq<byte>)
    ensures |b| == r.size
  {
    seq(r.size, i requires 0 <= i < r.size => ram(r.addr + i))
  }

  /** The first `n` regions emitted, as they are sent: the newest first. */
  function MemTokens(ram: nat -> byte, regions: seq<Region>, n: nat): seq<Token>
    requires n <= |regions|
  {
    if n == 0 then [] else Tokens(Contents(ram, regions[n - 1])) + MemTokens(ram, regions, n - 1)
  }

  /** The first `n` handles emitted, in order of emission. */
  function HdlTokens(refs: seq<Ref>, n: nat): (t: seq<Token>)
    requires n <= |refs|
    ensures |t| == n
  {
    if n == 0 then [] else HdlTokens(refs, n - 1) + [Cargo(refs[n - 1].handle)]
  }

  function FirstNull(refs: seq<Ref>): (n: nat)
    ensures n <= |refs| && (n < |refs| ==> refs[n].handle == 0)
    ensures forall i :: 0 <= i < n ==> refs[i].handle != 0
  {
    if refs == [] || refs[0].handle == 0 then 0 else 1 + FirstNull(refs[1..])
  }

  /** A complete checkpoint, closed and with both lists in place. */
  ghost predicate Finished(store: Store, l: Lists)
    reads store
  {
    && store.Addressable() && Closed(store.mem, store.items)
    && store.offset == Size(store.items) + ENTRY_SIZE <= |store.mem|
    && Listed(store.items, store.base, store.firstMem, store.lastHdl, l)
    && store.memCnt == |l.memIdx| && store.hdlCnt == |l.hdlIdx|
  }

  /** A word of the payload of item `k`, read from memory. */
  lemma NodeWord(m: seq<byte>, items: seq<Item>, k: nat, rel: nat)
    requires Laid(m, items) && NodeItem(items, k) && rel + 8 <= NODE_SIZE
    ensures PayloadAt(items, k) + rel + 8 <= |m|
    ensures WordAt(m, PayloadAt(items, k) + rel) == WordAt(items[k].payload, rel)
  {
    PayloadBytes(m, items, k, rel, 8);
  }

  datatype Node = Node(next: u64, w8: u64, w16: u64, w24: u64)

  /** The four words of the node at offset `at`. */
  method ReadNode(store: Store, at: nat, ghost k: nat) returns (e: Node)
    requires Laid(store.mem, store.items) && NodeItem(store.items, k) && at == PayloadAt(store.items, k)
    ensures var p := store.items[k].payload;
      e == Node(WordAt(p, 0), WordAt(p, 8), WordAt(p, 16), WordAt(p, 24))
  {
    NodeWord(store.mem, store.items, k, 0);
    NodeWord(store.mem, store.items, k, 8);
    NodeWord(store.mem, store.items, k, 16);
    NodeWord(store.mem, store.items, k, 24);
    e := Node(WordAt(store.mem, at), WordAt(store.mem, at + 8), WordAt(store.mem, at + 16), WordAt(store.mem, at + 24));
  }

  /** The host calls for a region: if it cannot be read, its protection is changed and changed back. */
  function SendCalls(r: Region): nat
  {
    if r.prot % 2 == 0 && r.size > 0 then 2 else 0
  }

  /** The host calls for the regions from `j` on. */
  function SendDue(regions: seq<Region>, j: nat): nat
    requires j <= |regions|
    decreases |regions| - j
  {
    if j == |regions| then 0 else SendDue(regions, j + 1) + SendCalls(regions[j])
  }

  lemma {:induction false} SendDueMonotone(regions: seq<Region>, j: nat)
    requires j <= |regions|
    ensures SendDue(regions, j) <= SendDue(regions, 0)
    decreases j
  {
    if j > 0 { SendDueMonotone(regions, j - 1); }
  }

  /** One region: an unreadable one is made readable for the while. */
  method SendRegion(host: Host, ram: nat -> byte, addr: u64, size: u64, prot: nat)
    returns (ret: int, ghost moved: nat)
    modifies host
    ensures ret <= 0 && Accounted(host.outcome, old(host.made), host.made, SendCalls(Region(addr, size, prot)), ret)
    ensures old(Steady(host.sched)) ==>
      Steady(host.sched) && ret == Report(host.outcome, old(host.made), host.made)
    ensures SendCalls(Region(addr, size, prot)) > 0 && host.outcome(old(host.made)) != 0 ==> moved == 0
    ensures host.wire == old(host.wire) + Part(ram, Region(addr, size, prot), moved)
    ensures old(Open(host.sched)) ==>
      && Open(host.sched)
      && Sent(old(host.wire), host.wire, Tokens(Contents(ram, Region(addr, size, prot))), ret)
  {
    var hidden := prot % 2 == 0 && size > 0;
    if hidden {
      var err := host.Call();
      if err != 0 {
        return -(err as int), 0;
      }
    }
    ret, moved := host.WriteAll(Contents(ram, Region(addr, size, prot)));
    if hidden {
      var err := host.Call();
      if err != 0 && ret == 0 {
        ret := -(err as int);
      }
    }
  }

  /** The first `n` bytes of a region. */
  function Part(ram: nat -> byte, r: Region, n: nat): seq<Token>
  {
    Tokens(Contents(ram, r)[..Min(n, r.size)])
  }

  /** The first regions that are sent, of each as many bytes as `cut` says. */
  function Cut(ram: nat -> byte, regions: seq<Region>, cut: seq<nat>): seq<Token>
    requires |cut| <= |regions|
  {
    if cut == [] then []
    else
      var n := |cut| - 1;
      Cut(ram, regions, cut[..n]) + Part(ram, regions[|regions| - 1 - n], cut[n])
  }

  lemma CutNext(before: seq<Token>, mid: seq<Token>, wire: seq<Token>, ram: nat -> byte, regions: seq<Region>,
                cut: seq<nat>, cut': seq<nat>, i: nat)
    requires |cut| + i + 1 == |regions| && |cut'| == |cut| + 1 && cut'[..|cut|] == cut
    requires mid == before + Cut(ram, regions, cut) && wire == mid + Part(ram, regions[i], cut'[|cut|])
    ensures wire == before + Cut(ram, regions, cut')
  {
    Regroup(before, Cut(ram, regions, cut), Part(ram, regions[i], cut'[|cut|]), []);
  }

  /** The regions from `j` on, as they are sent. */
  ghost function Gone(ram: nat -> byte, regions: seq<Region>, j: nat): seq<Token>
    requires j <= |regions|
    decreases |regions| - j
  {
    if j == |regions| then [] else Gone(ram, regions, j + 1) + Tokens(Contents(ram, regions[j]))
  }

  lemma {:induction false} GoneAll(ram: nat -> byte, regions: seq<Region>, j: nat)
    requires j <= |regions|
    ensures Gone(ram, regions, j) + MemTokens(ram, regions, j) == MemTokens(ram, regions, |regions|)
    decreases |regions| - j
  {
    if j < |regions| {
      GoneAll(ram, regions, j + 1);
      Regroup([], Gone(ram, regions, j + 1), Tokens(Contents(ram, regions[j])), MemTokens(ram, regions, j));
    }
  }

  /** Region `i` follows those before it on the stream, or the sending stops there. */
  lemma MoreSent(before: seq<Token>, mid: seq<Token>, wire: seq<Token>, ram: nat -> byte, regions: seq<Region>, n: nat,
                 i: nat, ret: int)
    requires n == i + 1 <= |regions| && mid == before + Gone(ram, regions, n)
    requires Sent(mid, wire, Tokens(Contents(ram, regions[i])), ret)
    ensures ret == 0 ==> wire == before + Gone(ram, regions, i)
    ensures ret != 0 ==> Sent(before, wire, MemTokens(ram, regions, |regions|), ret)
  {
    var part := Tokens(Contents(ram, regions[i]));
    SentBoth(before, mid, wire, Gone(ram, regions, n), part, ret);
    if ret != 0 {
      SentFirst(before, wire, Gone(ram, regions, i), MemTokens(ram, regions, i), ret);
      GoneAll(ram, regions, i);
    }
  }

  /** How far the sending has come when there are `j` regions left: what is on the stream behind `before`,
      and which of the host calls, numbered from `start`, have been made. */
  ghost predicate Underway(host: Host, ram: nat -> byte, regions: seq<Region>, before: seq<Token>, start: nat,
                           cut: seq<nat>, steady: bool, open: bool, j: nat)
    reads host
  {
    && |cut| + j == |regions| && host.wire == before + Cut(ram, regions, cut)
    && Accounted(host.outcome, start, host.made, SendDue(regions, j), 0) && (steady ==> Steady(host.sched))
    && (open ==> Open(host.sched) && host.wire == before + Gone(ram, regions, j))
  }

  /** How the sending ends. */
  ghost predicate Ended(host: Host, ram: nat -> byte, regions: seq<Region>, before: seq<Token>, start: nat,
                        cut: seq<nat>, steady: bool, open: bool, ret: int)
    reads host
  {
    && |cut| <= |regions| && host.wire == before + Cut(ram, regions, cut) && (ret == 0 ==> |cut| == |regions|)
    && Accounted(host.outcome, start, host.made, SendDue(regions, 0), ret)
    && (steady ==> Steady(host.sched) && ret == Report(host.outcome, start, host.made))
    && (open ==> Open(host.sched) && Sent(before, host.wire, MemTokens(ram, regions, |regions|), ret))
  }

  lemma AllSent(host: Host, ram: nat -> byte, regions: seq<Region>, before: seq<Token>, start: nat, cut: seq<nat>,
                steady: bool, open: bool)
    requires Underway(host, ram, regions, before, start, cut, steady, open, 0)
    ensures Ended(host, ram, regions, before, start, cut, steady, open, 0)
  {
    GoneAll(ram, regions, 0);
  }

  /** Sends region `i`, which is at `addr`. */
  method SendNumbered(host: Host, ram: nat -> byte, addr: u64, size: u64, prot: nat, ghost regions: seq<Region>,
                      ghost n: nat, ghost i: nat, ghost before: seq<Token>, ghost start: nat, ghost cut: seq<nat>,
                      ghost steady: bool, ghost open: bool)
    returns (ret: int, ghost cut': seq<nat>)
    requires n == i + 1 <= |regions| && addr == regions[i].addr && size == regions[i].size
    requires SameRights(prot, regions[i].prot)
    requires Underway(host, ram, regions, before, start, cut, steady, open, n)
    modifies host
    ensures ret <= 0
    ensures ret == 0 ==> Underway(host, ram, regions, before, start, cut', steady, open, i)
    ensures ret != 0 ==> Ended(host, ram, regions, before, start, cut', steady, open, ret)
  {
    ghost var moved;
    ret, moved := SendRegion(host, ram, addr, size, prot);
    SamePart(ram, Region(addr, size, prot), regions[i], moved);
    AccountedNext(host.outcome, start, old(host.made), host.made, SendDue(regions, n), SendCalls(regions[i]), ret);
    cut' := cut + [moved];
    CutNext(before, old(host.wire), host.wire, ram, regions, cut, cut', i);
    if open {
      MoreSent(before, old(host.wire), host.wire, ram, regions, n, i, ret);
    }
    if ret != 0 {
      SendDueMonotone(regions, i);
      AccountedFirst(host.outcome, start, host.made, SendDue(regions, i), SendDue(regions, 0), ret);
    }
  }

  /** The node at `at`, which is that of region `i`. */
  method RegionNode(store: Store, at: nat, ghost l: Lists, ghost n: nat, ghost i: nat) returns (e: Node)
    requires 0 < store.base && Laid(store.mem, store.items) && MemList(store.items, store.base, store.firstMem, l)
    requires n == i + 1 <= |l.regions| && at == Before(store.items, store.base, l.memIdx, n)
    ensures e.next == Before(store.items, store.base, l.memIdx, i)
    ensures e.w8 == l.regions[i].addr && e.w16 == l.regions[i].size
    ensures SameRights(e.w24 % 0x1_0000_0000, l.regions[i].prot)
  {
    NodeBefore(store.items, store.base, store.firstMem, l, n);
    e := ReadNode(store, at - store.base, l.memIdx[i]);
  }

  lemma SamePart(ram: nat -> byte, r: Region, r': Region, n: nat)
    requires r.addr == r'.addr && r.size == r'.size
    ensures Contents(ram, r) == Contents(ram, r') && Part(ram, r, n) == Part(ram, r', n)
  {
  }

  /** `send_memory_on_stream`: the regions go out newest first. Whatever the host does, the stream gets
      a part of each region in turn; if it does not end early, a failure leaves a prefix of the
      whole and is reported. Success means that every change of protection was made and none
      failed; on a steady stream the result is that of the last one. */
  method SendMemory(store: Store, host: Host, ram: nat -> byte, ghost l: Lists) returns (ret: int, ghost cut: seq<nat>)
    requires 0 < store.base && Laid(store.mem, store.items) && MemList(store.items, store.base, store.firstMem, l)
    modifies host
    ensures ret <= 0 && |cut| <= |l.regions| && host.wire == old(host.wire) + Cut(ram, l.regions, cut)
    ensures ret == 0 ==> |cut| == |l.regions|
    ensures Accounted(host.outcome, old(host.made), host.made, SendDue(l.regions, 0), ret)
    ensures old(Steady(host.sched)) ==> Steady(host.sched) && ret == Report(host.outcome, old(host.made), host.made)
    ensures old(Open(host.sched)) ==>
      Open(host.sched) && Sent(old(host.wire), host.wire, MemTokens(ram, l.regions, |l.regions|), ret)
  {
    ghost var steady, open, start, before := Steady(host.sched), Open(host.sched), host.made, host.wire;
    ghost var j: nat := |l.regions|;
    cut := [];
    var entry: nat := store.firstMem;
    while entry != 0
      invariant j <= |l.regions| && entry == Before(store.items, store.base, l.memIdx, j)
      invariant Underway(host, ram, l.regions, before, start, cut, steady, open, j)
      decreases j
    {
      ghost var i: nat := j - 1;
      var e := RegionNode(store, entry, l, j, i);
      ret, cut := SendNumbered(host, ram, e.w8, e.w16, e.w24 % 0x1_0000_0000, l.regions, j, i, before, start, cut,
                               steady, open);
      if ret < 0 {
        return;
      }
      entry, j := e.next, i;
    }
    AllSent(host, ram, l.regions, before, start, cut, steady, open);
    ret := 0;
  }

  /** What the node reached with `j` regions to go holds. */
  lemma NodeBefore(items: seq<Item>, base: nat, head: nat, l: Lists, j: nat)
    requires MemList(items, base, head, l) && 0 < j <= |l.regions|
    ensures var k, r := l.memIdx[j - 1], l.regions[j - 1];
      && NodeItem(items, k) && Before(items, base, l.memIdx, j) == base + PayloadAt(items, k)
      && WordAt(items[k].payload, 0) == Before(items, base, l.memIdx, j - 1)
      && WordAt(items[k].payload, 8) == r.addr && WordAt(items[k].payload, 16) == r.size
      && SameRights(WordAt(items[k].payload, 24) % 0x1_0000_0000, r.prot)
  {
    assert Linked(items, base, l.memIdx, j - 1);
    assert RegionAt(items, l.memIdx[j - 1], l.regions[j - 1]);
    RightsKept(items[l.memIdx[j - 1]].payload, l.regions[j - 1].prot);
  }

  /** The bits that say whether an area can be read, and written. */
  predicate SameRights(prot: nat, prot': nat)
  {
    prot % 2 == prot' % 2 && prot / 2 % 2 == prot' / 2 % 2
  }

  /** They are in the lowest byte of the four that are stored. */
  lemma RightsKept(p: seq<byte>, prot: nat)
    requires 32 <= |p| && HasAt(p, 24, ToBytes(prot, 4))
    ensures SameRights(WordAt(p, 24) % 0x1_0000_0000, prot)
  {
    assert p[24] == p[24..28][0] == ToBytes(prot, 4)[0] == prot % 256;
    LowestByte(p[24..32]);
    LowBits(WordAt(p, 24), p[24], prot);
  }

  lemma LowestByte(b: seq<byte>)
    requires b != []
    ensures FromBytes(b) % 4 == b[0] % 4
  {
  }

  lemma LowBits(w: nat, b: nat, prot: nat)
    requires w % 4 == b % 4 && b == prot % 256
    ensures SameRights(w % 0x1_0000_0000, prot)
  {
    ModFour(w, 0x4000_0000);
    ModFour(prot, 64);
    SameBits(w % 0x1_0000_0000, prot);
  }

  lemma ModFour(a: nat, n: nat)
    requires n > 0
    ensures a % (4 * n) % 4 == a % 4
  {
    var q, r := a / (4 * n), a % (4 * n);
    var s, t := r / 4, r % 4;
    assert a == 4 * n * q + r;
    assert 4 * n * q == 4 * (n * q);
    Bits.ModIs(a, 4, n * q + s, t);
  }

  lemma SameBits(a: nat, b: nat)
    requires a % 4 == b % 4
    ensures SameRights(a, b)
  {
  }

  lemma Regroup<T>(a: seq<T>, b: seq<T>, c: seq<T>, d: seq<T>)
    ensures b + (c + d) == (b + c) + d && a + (b + c) == (a + b) + c
  {
  }

  /** `send_checkpoint_on_stream`. */
  method SendCheckpoint(store: Store, host: Host, ram: nat -> byte, ghost l: Lists)
    returns (ret: int, ghost n: nat, ghost cut: seq<nat>)
    requires Finished(store, l)
    modifies host
    ensures n <= store.offset && |cut| <= |l.regions|
    ensures host.wire == old(host.wire) + Tokens(store.mem[..store.offset][..n]) + Cut(ram, l.regions, cut)
    ensures ret == 0 ==> |cut| == |l.regions|
    ensures ret <= 0 && Accounted(host.outcome, old(host.made), host.made, SendDue(l.regions, 0), ret)
    ensures old(Steady(host.sched)) ==> Steady(host.sched) && ret == Report(host.outcome, old(host.made), host.made)
    ensures old(Open(host.sched)) ==>
      && Open(host.sched)
      && Sent(old(host.wire), host.wire,
              Tokens(store.mem[..store.offset]) + MemTokens(ram, l.regions, |l.regions|), ret)
  {
    ghost var blob, regions := Tokens(store.mem[..store.offset]), MemTokens(ram, l.regions, |l.regions|);
    ghost var open := Open(host.sched);
    cut := [];
    ret, n := host.WriteAll(store.mem[..store.offset]);
    if ret < 0 {
      if open { SentFirst(old(host.wire), host.wire, blob, regions, ret); }
      return;
    }
    ghost var mid := host.wire;
    ret, cut := SendMemory(store, host, ram, l);
    if open { SentBoth(old(host.wire), mid, host.wire, blob, regions, ret); }
  }

  ghost predicate HandlesReady(store: Store, l: Lists)
    reads store
  {
    && 0 < store.base && Laid(store.mem, store.items) && HdlList(store.items, store.base, store.lastHdl, l)
    && store.hdlCnt == |l.hdlIdx|
  }

  /** The addresses of the handle nodes, oldest first. */
  ghost predicate Collected(items: seq<Item>, l: Lists, a: seq<nat>, i: nat)
  {
    && |a| == |l.hdlIdx| && Positions(l.hdlIdx, |items|)
    && forall j :: i <= j < |a| ==> a[j] == PayloadAt(items, l.hdlIdx[j])
  }

  lemma HandleBefore(items: seq<Item>, base: nat, head: nat, l: Lists, j: nat)
    requires HdlList(items, base, head, l) && 0 < j <= |l.refs|
    ensures var k, r := l.hdlIdx[j - 1], l.refs[j - 1];
      && NodeItem(items, k) && Before(items, base, l.hdlIdx, j) == base + PayloadAt(items, k)
      && WordAt(items[k].payload, 0) == Before(items, base, l.hdlIdx, j - 1)
      && WordAt(items[k].payload, 8) == r.handle
  {
    assert Linked(items, base, l.hdlIdx, j - 1);
    assert RefAt(items, base, l.hdlIdx[j - 1], l.refs[j - 1]);
  }

  /** Where the node at `entry` is, and what it links to. */
  method FollowHandle(store: Store, entry: nat, ghost l: Lists, ghost n: nat, ghost j: nat) returns (at: nat, prev: nat)
    requires HandlesReady(store, l) && n == j + 1 <= |l.refs| && entry == Before(store.items, store.base, l.hdlIdx, n)
    ensures at == PayloadAt(store.items, l.hdlIdx[j]) && prev == Before(store.items, store.base, l.hdlIdx, j)
  {
    HandleBefore(store.items, store.base, store.lastHdl, l, n);
    assert entry != 0;
    at := entry - store.base;
    var e := ReadNode(store, at, l.hdlIdx[j]);
    prev := e.next;
  }

  /** The first loop of `send_handles_on_stream`: the list is newest first. */
  method CollectHandles(store: Store, ghost l: Lists) returns (entries: seq<nat>)
    requires HandlesReady(store, l)
    ensures Collected(store.items, l, entries, 0)
  {
    var a := new nat[store.hdlCnt];
    var entry: nat, i: nat := store.lastHdl, store.hdlCnt;
    while i > 0
      invariant i <= |l.refs| && entry == Before(store.items, store.base, l.hdlIdx, i)
      invariant Collected(store.items, l, a[..], i)
    {
      var j: nat, at := i - 1, 0;
      at, entry := FollowHandle(store, entry, l, i, j);
      a[j] := at;
      i := j;
    }
    assert entry == 0;
    entries := a[..];
  }

  method SendOne(store: Store, host: Host, at: nat, ghost l: Lists, ghost i: nat) returns (ok: bool)
    requires HandlesReady(store, l) && i < |l.refs| && at == PayloadAt(store.items, l.hdlIdx[i])
    modifies host`made, host`wire
    ensures ok <==> l.refs[i].handle != 0 && host.outcome(old(host.made)) == 0
    ensures host.made == old(host.made) + if l.refs[i].handle == 0 then 0 else 1
    ensures host.wire == old(host.wire) + if ok then [Cargo(l.refs[i].handle)] else []
  {
    HandleBefore(store.items, store.base, store.lastHdl, l, i + 1);
    var e := ReadNode(store, at, l.hdlIdx[i]);
    ok := host.SendHandle(e.w8);
  }

  /** The first `n` handles can be sent, with calls numbered from `at`, and the next one cannot. */
  ghost predicate SentUpTo(refs: seq<Ref>, outcome: nat -> nat, at: nat, n: nat)
  {
    && n <= |refs| && (forall i :: 0 <= i < n ==> refs[i].handle != 0) && Good(outcome, at, at + n)
    && (n < |refs| ==> refs[n].handle == 0 || outcome(at + n) != 0)
  }

  /** How many handles are sent, if the call for the first of them has number `at`: those before the first
      one that is null or whose call fails. */
  ghost function Sendable(refs: seq<Ref>, outcome: nat -> nat, at: nat): (n: nat)
    ensures SentUpTo(refs, outcome, at, n)
  {
    if refs == [] || refs[0].handle == 0 || outcome(at) != 0 then 0 else 1 + Sendable(refs[1..], outcome, at + 1)
  }

  /** The host calls for all handles: the array for them is allocated, and each of them is sent. */
  function HandleCalls(refs: seq<Ref>): nat
  {
    if refs == [] then 0 else 1 + |refs|
  }

  /** What becomes of all handles, on any host: once the array is allocated they go out in order
      of emission, up to the first that cannot be sent. */
  ghost predicate HandlesSent(refs: seq<Ref>, outcome: nat -> nat, a: nat, b: nat, before: seq<Token>, wire: seq<Token>,
                              ret: int)
  {
    if refs == [] then b == a && wire == before && ret == 0
    else if outcome(a) != 0 then b == a + 1 && wire == before && ret == -ENOMEM
    else
      var n := Sendable(refs, outcome, a + 1);
      && wire == before + HdlTokens(refs, n) && ret == (if n == |refs| then 0 else -EINVAL)
      && b == a + 1 + n + if n < |refs| && refs[n].handle != 0 then 1 else 0
  }

  lemma {:induction false} SendableAll(refs: seq<Ref>, outcome: nat -> nat, at: nat)
    requires forall i: nat :: at <= i ==> outcome(i) == 0
    ensures Sendable(refs, outcome, at) == FirstNull(refs)
  {
    if refs != [] { SendableAll(refs[1..], outcome, at + 1); }
  }

  /** On a host without failures, all of them go out up to the first null one. */
  lemma SmoothlySent(refs: seq<Ref>, outcome: nat -> nat, a: nat, b: nat, before: seq<Token>, wire: seq<Token>,
                     ret: int)
    requires HandlesSent(refs, outcome, a, b, before, wire, ret) && forall i: nat :: a <= i ==> outcome(i) == 0
    ensures wire == before + HdlTokens(refs, FirstNull(refs)) && a <= b
    ensures ret == if FirstNull(refs) == |refs| then 0 else -EINVAL
  {
    SendableAll(refs, outcome, a + 1);
  }

  lemma SentIsAccounted(refs: seq<Ref>, outcome: nat -> nat, a: nat, b: nat, before: seq<Token>, wire: seq<Token>,
                        ret: int)
    requires HandlesSent(refs, outcome, a, b, before, wire, ret)
    ensures Accounted(outcome, a, b, HandleCalls(refs), ret)
    ensures Sent(before, wire, HdlTokens(refs, |refs|), ret)
  {
    HdlPrefix(refs, Sendable(refs, outcome, a + 1), |refs|);
  }

  /** `send_handles_on_stream`: all handles go out in order of emission, unless one of them is null or
      cannot be sent; then those before it do and the migration is given up. */
  method SendHandles(store: Store, host: Host, ghost l: Lists) returns (ret: int)
    requires HandlesReady(store, l)
    modifies host`made, host`wire
    ensures HandlesSent(l.refs, host.outcome, old(host.made), host.made, old(host.wire), host.wire, ret)
    ensures Sent(old(host.wire), host.wire, HdlTokens(l.refs, |l.refs|), ret)
    ensures Accounted(host.outcome, old(host.made), host.made, HandleCalls(l.refs), ret)
    ensures old(host.Smooth()) ==>
      && host.Smooth() && host.wire == old(host.wire) + HdlTokens(l.refs, FirstNull(l.refs))
      && ret == (if FirstNull(l.refs) == |l.refs| then 0 else -EINVAL)
  {
    ghost var a := host.made;
    ret := SendCollected(store, host, l);
    SentIsAccounted(l.refs, host.outcome, a, host.made, old(host.wire), host.wire, ret);
    if old(host.Smooth()) { SmoothlySent(l.refs, host.outcome, a, host.made, old(host.wire), host.wire, ret); }
  }

  lemma FinishedHandles(store: Store, l: Lists)
    requires Finished(store, l)
    ensures HandlesReady(store, l)
  {
  }

  method SendCollected(store: Store, host: Host, ghost l: Lists) returns (ret: int)
    requires HandlesReady(store, l)
    modifies host`made, host`wire
    ensures HandlesSent(l.refs, host.outcome, old(host.made), host.made, old(host.wire), host.wire, ret)
  {
    if store.hdlCnt == 0 {
      return 0;
    }
    var err := host.Call();
    if err != 0 {
      return -ENOMEM;
    }
    ghost var stop := Sendable(l.refs, host.outcome, host.made);
    var entries := CollectHandles(store, l);
    ret := SendEach(store, host, entries, l, stop);
  }

  lemma HdlSnoc(before: seq<Token>, refs: seq<Ref>, i: nat, n: nat)
    requires n == i + 1 <= |refs|
    ensures before + HdlTokens(refs, n) == before + HdlTokens(refs, i) + [Cargo(refs[i].handle)]
  {
  }

  lemma {:induction false} HdlPrefix(refs: seq<Ref>, i: nat, n: nat)
    requires i <= n <= |refs|
    ensures HdlTokens(refs, i) <= HdlTokens(refs, n)
  {
    if i < n { HdlPrefix(refs, i, n - 1); }
  }

  lemma StopsThere(refs: seq<Ref>, outcome: nat -> nat, start: nat, at: nat, stop: nat, i: nat)
    requires SentUpTo(refs, outcome, start, stop) && i <= stop && i < |refs| && at == start + i
    ensures i == stop <==> refs[i].handle == 0 || outcome(at) != 0
  {
  }

  /** The second loop. */
  method SendEach(store: Store, host: Host, entries: seq<nat>, ghost l: Lists, ghost stop: nat) returns (ret: int)
    requires HandlesReady(store, l) && Collected(store.items, l, entries, 0)
    requires SentUpTo(l.refs, host.outcome, host.made, stop)
    modifies host`made, host`wire
    ensures host.wire == old(host.wire) + HdlTokens(l.refs, stop) && ret == (if stop == |l.refs| then 0 else -EINVAL)
    ensures host.made == old(host.made) + stop + if stop < |l.refs| && l.refs[stop].handle != 0 then 1 else 0
  {
    var i := 0;
    while i < |entries|
      invariant i <= |entries| && i <= stop && host.wire == old(host.wire) + HdlTokens(l.refs, i)
      invariant host.made == old(host.made) + i
    {
      var n := i + 1;
      StopsThere(l.refs, host.outcome, old(host.made), host.made, stop, i);
      var ok := SendOne(store, host, entries[i], l, i);
      if !ok {
        return -EINVAL;
      }
      HdlSnoc(old(host.wire), l.refs, i, n);
      i := n;
    }
    ret := 0;
  }
}
