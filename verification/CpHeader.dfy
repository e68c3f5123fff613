/** The header of a checkpoint, as the parent makes and sends it and as the child reads it. */
module CpHeader {
  import opened Words
  import opened CpFormat
  import opened CpWalk
  import opened CpStore
  import opened CpStream
  import opened CpLists
  import opened CpSend
  import opened CpRoundTrip

  /** `struct checkpoint_hdr`, without the field that is always 0. */
  datatype Hdr = Hdr(addr: u64, size: u64, memOffset: u64, memCnt: u64, hdlOffset: u64, hdlCnt: u64)

  /** A blob `m` with its lists, and the header that describes it. */
  ghost predicate Describes(hdr: Hdr, m: seq<byte>, items: seq<Item>, l: Lists)
  {
    && 0 < hdr.addr && hdr.addr + |m| <= WORD_MAX && hdr.size == |m| && Closed(m, items)
    && hdr.memCnt == |l.memIdx| && hdr.hdlCnt == |l.hdlIdx|
    && (exists firstMem: nat, lastHdl: nat :: Listed(items, hdr.addr, firstMem, lastHdl, l))
    && (hdr.memCnt > 0 ==> hdr.memOffset == PayloadAt(items, l.memIdx[hdr.memCnt - 1]))
    && (hdr.hdlCnt > 0 ==> hdr.hdlOffset == PayloadAt(items, l.hdlIdx[hdr.hdlCnt - 1]))
  }

  // ---------------------------------------------------------------- made by the parent

  lemma {:induction false} PositionsBound(idx: seq<nat>, n: nat, j: nat)
    requires Positions(idx, n) && j <= |idx|
    ensures j > 0 ==> j <= idx[j - 1] + 1
    ensures j <= n
  {
    if j > 1 { PositionsBound(idx, n, j - 1); }
  }

  lemma {:induction false} ItemsBound(items: seq<Item>, k: nat)
    requires k <= |items|
    ensures k <= Offset(items, k)
  {
    if k > 0 { ItemsBound(items, k - 1); }
  }

  /** A list has fewer nodes than the checkpoint has bytes. */
  lemma CountFits(items: seq<Item>, idx: seq<nat>)
    requires Positions(idx, |items|)
    ensures |idx| <= Size(items)
  {
    PositionsBound(idx, |items|, |idx|);
    ItemsBound(items, |items|);
  }

  method MakeHdr(store: Store, ghost l: Lists) returns (hdr: Hdr)
    requires Finished(store, l)
    ensures Describes(hdr, store.mem[..store.offset], store.items, l)
    ensures hdr.addr == store.base && hdr.size == store.offset
  {
    ClosedPrefix(store.mem, store.items, store.offset);
    CountFits(store.items, l.memIdx);
    CountFits(store.items, l.hdlIdx);
    var memOffset: u64, hdlOffset: u64 := 0, 0;
    if store.memCnt > 0 {
      memOffset := store.firstMem - store.base;
    }
    if store.hdlCnt > 0 {
      hdlOffset := store.lastHdl - store.base;
    }
    hdr := Hdr(store.base, store.offset, memOffset, store.memCnt, hdlOffset, store.hdlCnt);
    assert Listed(store.items, hdr.addr, store.firstMem, store.lastHdl, l);
  }

  // ---------------------------------------------------------------- in bytes

  const HDR_WORDS := 7
  const HDR_BYTES := 56

  function Packed(ws: seq<u64>): (b: seq<byte>)
    ensures |b| == 8 * |ws|
  {
    if ws == [] then [] else Packed(ws[..|ws| - 1]) + Bytes(ws[|ws| - 1])
  }

  lemma {:induction false} PackedWord(ws: seq<u64>, i: nat)
    requires i < |ws|
    ensures WordAt(Packed(ws), 8 * i) == ws[i]
  {
    var n := |ws| - 1;
    var b, b' := Packed(ws[..n]), Packed(ws);
    if i < n {
      PackedWord(ws[..n], i);
      assert b'[8 * i..8 * i + 8] == b[8 * i..8 * i + 8];
    } else {
      assert b'[8 * n..8 * n + 8] == Bytes(ws[n]);
      WordHas(b', 8 * n, ws[n]);
    }
  }

  function HdrFields(hdr: Hdr): (ws: seq<u64>)
    ensures |ws| == HDR_WORDS
  {
    [hdr.addr, hdr.size, 0, hdr.memOffset, hdr.memCnt, hdr.hdlOffset, hdr.hdlCnt]
  }

  function Unpacked(b: seq<byte>): Hdr
    requires |b| == HDR_BYTES
  {
    Hdr(WordAt(b, 0), WordAt(b, 8), WordAt(b, 24), WordAt(b, 32), WordAt(b, 40), WordAt(b, 48))
  }

  lemma RoundTrip(hdr: Hdr)
    ensures |Packed(HdrFields(hdr))| == HDR_BYTES && Unpacked(Packed(HdrFields(hdr))) == hdr
  {
    var ws := HdrFields(hdr);
    PackedWord(ws, 0);
    PackedWord(ws, 1);
    PackedWord(ws, 3);
    PackedWord(ws, 4);
    PackedWord(ws, 5);
    PackedWord(ws, 6);
  }

  // ---------------------------------------------------------------- read by the child

  /** The header comes with a single read, which has to deliver all of it: that is the condition for
      the child to go on. */
  method ReadHdr(host: Host, ghost hdr: Hdr, ghost rest: seq<Token>) returns (ok: bool, h: Hdr)
    requires host.wire == Tokens(Packed(HdrFields(hdr))) + rest
    modifies host`sched, host`wire
    ensures ok <==> Single(old(host.sched), HDR_BYTES, HDR_BYTES) == HDR_BYTES
    ensures ok ==> h == hdr && host.wire == rest
    ensures old(host.Smooth()) ==> host.Smooth()
    ensures old(Open(host.sched)) ==> Open(host.sched)
  {
    RoundTrip(hdr);
    ReadableAtLeast(host.wire, HDR_BYTES);
    var got := host.ReadOnce(HDR_BYTES);
    ok, h := |got| == HDR_BYTES, Hdr(0, 0, 0, 0, 0, 0);
    if ok {
      TokensEqual(got, host.wire, Packed(HdrFields(hdr)), rest);
      h := Unpacked(got);
    }
  }
}
