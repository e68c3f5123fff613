/** Reading the argument and environment lists of a restored checkpoint. */
module CpRoundTrip {
  import opened Words
  import opened CStrings
  import opened CpFormat
  import opened CpWalk
  import opened CpStore
  import opened CpEmit
  import opened CpRestore
  import opened CpJobs

  /** A vector in a payload is a vector in the memory around it. */
  lemma VectorLift(m: seq<byte>, items: seq<Item>, k: nat, base: nat, v: seq<cstring>)
    requires Laid(m, items) && VectorItem(items, k, base, v)
    ensures Vector(m, base, PayloadAt(items, k), PayloadAt(items, k) + 8 * (|v| + 1), v)
  {
    var o, strs := PayloadAt(items, k), 8 * (|v| + 1);
    PointersLift(m, items, k, base + o + strs, v);
    StringsLift(m, items, k, strs, o + strs, v);
    PayloadBytes(m, items, k, 8 * |v|, 8);
  }

  lemma PointersLift(m: seq<byte>, items: seq<Item>, k: nat, addr: nat, v: seq<cstring>)
    requires Laid(m, items) && k < |items| && items[k].Oob?
    requires Pointers(items[k].payload, 0, addr, v, |v|)
    ensures Pointers(m, PayloadAt(items, k), addr, v, |v|)
  {
    var o := PayloadAt(items, k);
    forall i | 0 <= i < |v| ensures PointerHeld(m, o, addr, v, i) {
      assert PointerHeld(items[k].payload, 0, addr, v, i);
      PayloadBytes(m, items, k, 8 * i, 8);
    }
  }

  lemma StringsLift(m: seq<byte>, items: seq<Item>, k: nat, strs: nat, strs': nat, v: seq<cstring>)
    requires Laid(m, items) && k < |items| && items[k].Oob? && strs' == PayloadAt(items, k) + strs
    requires Strings(items[k].payload, strs, v, |v|)
    ensures Strings(m, strs', v, |v|)
  {
    forall i | 0 <= i < |v| ensures StringHeld(m, strs', v, i) {
      assert StringHeld(items[k].payload, strs, v, i);
      PayloadBytes(m, items, k, strs + Start(v, i), |v[i]| + 1);
    }
  }

  lemma ClosedPrefix(m: seq<byte>, items: seq<Item>, n: nat)
    requires Closed(m, items) && n == Size(items) + ENTRY_SIZE
    ensures Closed(m[..n], items)
  {
    assert m[..n][..Size(items)] == m[..Size(items)];
    LaidFrame(m, m[..n], items);
    assert m[..n][Size(items)..Size(items) + 8] == m[Size(items)..Size(items) + 8];
  }

  method ReadMigrated(blob: Blob, at: nat, ghost k: nat, ghost v: seq<cstring>) returns (r: seq<seq<byte>>)
    requires blob.Valid() && VectorItem(blob.items, k, blob.base, v) && at == PayloadAt(blob.items, k) && NoNuls(v)
    ensures r == v
  {
    VectorLift(blob.mem, blob.items, k, blob.base, v);
    r := ReadVector(blob.mem, blob.base, at, PayloadAt(blob.items, k) + 8 * (|v| + 1), v);
  }
}
