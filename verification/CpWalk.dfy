/** Reading a checkpoint: `NEXT_CP_ENTRY` and the walk over all entries. */
module CpWalk {
  import opened Words
  import opened CpFormat

  datatype Found = Nothing | Found(off: nat, kind: u64, val: u64)

  /** A complete checkpoint: the emitted items and the null entry after them. */
  ghost predicate Closed(m: seq<byte>, items: seq<Item>)
  {
    Laid(m, items) && Size(items) + ENTRY_SIZE <= |m| && WordAt(m, Size(items)) == CP_NULL
  }

  /** The entries that are not out-of-band, from item `k` on, in the order of emission. */
  function Entries(items: seq<Item>, k: nat): seq<Found>
    requires k <= |items|
    decreases |items| - k
  {
    if k == |items| then []
    else if items[k].Entry? then [Found(Offset(items, k), items[k].kind, items[k].val)] + Entries(items, k + 1)
    else Entries(items, k + 1)
  }

  /** `NEXT_CP_ENTRY`: skips payloads whatever bytes they hold, and stops at the null entry. */
  method NextCpEntry(m: seq<byte>, off0: nat, ghost items: seq<Item>, ghost k0: nat)
    returns (entry: Found, off: nat, ghost k: nat)
    requires Closed(m, items) && k0 <= |items| && off0 == Offset(items, k0)
    ensures k <= |items| && off == Offset(items, k) <= Size(items)
    ensures entry.Nothing? ==> Entries(items, k0) == [] && k == |items|
    ensures forall j :: k0 <= j < (if entry.Found? then k - 1 else k) ==> items[j].Oob?
    ensures entry.Found? ==> k0 < k && Entries(items, k0) == [entry] + Entries(items, k)
    ensures entry.Found? ==>
      && items[k - 1].Entry?
      && entry == Found(Offset(items, k - 1), items[k - 1].kind, items[k - 1].val)
  {
    off, k := off0, k0;
    while true
      invariant k0 <= k <= |items| && off == Offset(items, k)
      invariant Entries(items, k0) == Entries(items, k)
      invariant forall j :: k0 <= j < k ==> items[j].Oob?
      decreases |items| - k
    {
      if k < |items| {
        assert ItemHeld(m, items, k);
        OffsetMonotone(items, k, |items|);
      }
      var kind, val := WordAt(m, off), WordAt(m, off + 8);
      if kind == CP_NULL {
        return Nothing, off, k;
      }
      var tmp := off;
      off, k := off + ENTRY_SIZE, k + 1;
      if kind == CP_OOB {
        off := off + val;
      } else {
        if k < |items| { OffsetMonotone(items, k, |items|); }
        return Found(tmp, kind, val), off, k;
      }
    }
  }

  /** The walk of `restore_checkpoint` from the start of the blob. */
  method WalkAll(m: seq<byte>, ghost items: seq<Item>) returns (found: seq<Found>)
    requires Closed(m, items)
    ensures found == Entries(items, 0)
  {
    found := [];
    var entry, off;
    ghost var k;
    entry, off, k := NextCpEntry(m, 0, items, 0);
    while entry.Found?
      invariant k <= |items| && off == Offset(items, k)
      invariant entry.Found? ==> found + [entry] + Entries(items, k) == Entries(items, 0)
      invariant entry.Nothing? ==> found == Entries(items, 0)
      decreases |items| - k, if entry.Found? then 1 else 0
    {
      found := found + [entry];
      entry, off, k := NextCpEntry(m, off, items, k);
    }
  }
}
