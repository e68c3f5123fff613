/** The checkpoint blob of LibOS/shim/include/shim_checkpoint.h: a row of 16-byte entries, some of
    them out-of-band entries followed by a payload, closed by a null entry. */
module CpFormat {
  import opened Words

  const CP_NULL: u64 := 0
  const CP_OOB: u64 := 1
  const CP_FUNC_BASE: u64 := 4

  const ENTRY_SIZE := 16

  /** What was emitted: an entry, or an out-of-band payload. */
  datatype Item = Entry(kind: u64, val: u64) | Oob(payload: seq<byte>)

  predicate ItemOk(i: Item)
  {
    match i
    case Entry(kind, _) => kind != CP_NULL && kind != CP_OOB
    case Oob(p) => |p| % 8 == 0
  }

  function ItemSize(i: Item): nat
  {
    if i.Entry? then ENTRY_SIZE else ENTRY_SIZE + |i.payload|
  }

  // ---------------------------------------------------------------- offsets

  function Size(items: seq<Item>): nat
  {
    Offset(items, |items|)
  }

  /** Where item `k` starts. */
  function Offset(items: seq<Item>, k: nat): nat
    requires k <= |items|
  {
    if k == 0 then 0 else Offset(items, k - 1) + ItemSize(items[k - 1])
  }

  /** Where the payload of item `k` starts. */
  function PayloadAt(items: seq<Item>, k: nat): nat
    requires k < |items|
  {
    Offset(items, k) + ENTRY_SIZE
  }

  /** Items do not overlap. */
  lemma {:induction false} OffsetMonotone(items: seq<Item>, j: nat, k: nat)
    requires j < k <= |items|
    ensures Offset(items, j) + ItemSize(items[j]) <= Offset(items, k)
  {
    if j < k - 1 { OffsetMonotone(items, j, k - 1); }
  }

  /** Sizes are multiples of eight, so every offset is aligned. */
  lemma {:induction false} OffsetAligned(items: seq<Item>, k: nat)
    requires k <= |items| && forall i :: 0 <= i < |items| ==> ItemOk(items[i])
    ensures Offset(items, k) % 8 == 0
  {
    if k > 0 {
      assert ItemOk(items[k - 1]);
      OffsetAligned(items, k - 1);
      SumAligned(Offset(items, k - 1), items[k - 1]);
    }
  }

  lemma SumAligned(o: nat, i: Item)
    requires o % 8 == 0 && ItemOk(i)
    ensures (o + ItemSize(i)) % 8 == 0
  {
  }

  /** Offsets depend on the sizes only, and on nothing behind. */
  lemma {:induction false} SameOffsets(items: seq<Item>, items': seq<Item>, k: nat)
    requires k <= |items| && k <= |items'|
    requires forall i :: 0 <= i < k ==> ItemSize(items[i]) == ItemSize(items'[i])
    ensures Offset(items, k) == Offset(items', k)
  {
    if k > 0 { SameOffsets(items, items', k - 1); }
  }

  // ---------------------------------------------------------------- items in memory

  /** Memory `m` holds item `i` at offset `o`. */
  ghost predicate HeldAt(m: seq<byte>, o: nat, i: Item)
  {
    && o + ItemSize(i) <= |m|
    && match i
       case Entry(kind, val) => WordAt(m, o) == kind && WordAt(m, o + 8) == val
       case Oob(p) => WordAt(m, o) == CP_OOB && WordAt(m, o + 8) == |p| && HasAt(m, o + ENTRY_SIZE, p)
  }

  ghost predicate ItemHeld(m: seq<byte>, items: seq<Item>, k: nat)
    requires k < |items|
  {
    ItemOk(items[k]) && HeldAt(m, Offset(items, k), items[k])
  }

  /** Memory `m` holds the items one after the other from its start. */
  ghost predicate Laid(m: seq<byte>, items: seq<Item>)
  {
    forall k :: 0 <= k < |items| ==> ItemHeld(m, items, k)
  }

  /** Only bytes outside an item changed. */
  lemma HeldFrame(m: seq<byte>, m': seq<byte>, o: nat, i: Item)
    requires HeldAt(m, o, i) && o + ItemSize(i) <= |m'|
    requires m'[o..o + ItemSize(i)] == m[o..o + ItemSize(i)]
    ensures HeldAt(m', o, i)
  {
    var n := ItemSize(i);
    SliceSlice(m, o, o + n, 0, 8);
    SliceSlice(m', o, o + n, 0, 8);
    SliceSlice(m, o, o + n, 8, 8);
    SliceSlice(m', o, o + n, 8, 8);
    if i.Oob? {
      SliceSlice(m, o, o + n, ENTRY_SIZE, |i.payload|);
      SliceSlice(m', o, o + n, ENTRY_SIZE, |i.payload|);
    }
  }

  lemma LaidFrame(m: seq<byte>, m': seq<byte>, items: seq<Item>)
    requires Laid(m, items) && Size(items) <= |m| && Size(items) <= |m'| && m'[..Size(items)] == m[..Size(items)]
    ensures Laid(m', items)
  {
    forall k | 0 <= k < |items| ensures ItemHeld(m', items, k) {
      assert ItemHeld(m, items, k);
      OffsetMonotone(items, k, |items|);
      var o, n := Offset(items, k), ItemSize(items[k]);
      SliceSlice(m, 0, Size(items), o, n);
      SliceSlice(m', 0, Size(items), o, n);
      HeldFrame(m, m', o, items[k]);
    }
  }

  /** Emitting one more item. */
  lemma LaidAppend(m: seq<byte>, items: seq<Item>, i: Item)
    requires Laid(m, items) && ItemOk(i) && HeldAt(m, Size(items), i)
    ensures Laid(m, items + [i]) && Size(items + [i]) == Size(items) + ItemSize(i)
  {
    var items' := items + [i];
    SameOffsets(items, items', |items|);
    forall k | 0 <= k < |items'| ensures ItemHeld(m, items', k) {
      SameOffsets(items, items', k);
      if k < |items| { assert ItemHeld(m, items, k); }
    }
  }

  // ---------------------------------------------------------------- payload access

  /** Overwriting part of the payload of item `k`. */
  function Poke(items: seq<Item>, k: nat, rel: nat, b: seq<byte>): seq<Item>
    requires k < |items| && items[k].Oob? && rel + |b| <= |items[k].payload|
  {
    items[k := Oob(Put(items[k].payload, rel, b))]
  }

  lemma PokeOffsets(items: seq<Item>, k: nat, rel: nat, b: seq<byte>, j: nat)
    requires k < |items| && items[k].Oob? && rel + |b| <= |items[k].payload| && j <= |items|
    ensures Offset(Poke(items, k, rel, b), j) == Offset(items, j)
  {
    SameOffsets(items, Poke(items, k, rel, b), j);
  }

  /** Writing those bytes to memory changes that payload and no other item. */
  lemma PokeLaid(m: seq<byte>, items: seq<Item>, k: nat, rel: nat, b: seq<byte>)
    requires Laid(m, items) && k < |items| && items[k].Oob? && rel + |b| <= |items[k].payload|
    ensures PayloadAt(items, k) + rel + |b| <= |m|
    ensures Laid(Put(m, PayloadAt(items, k) + rel, b), Poke(items, k, rel, b))
  {
    assert ItemHeld(m, items, k);
    var m', items' := Put(m, PayloadAt(items, k) + rel, b), Poke(items, k, rel, b);
    forall j | 0 <= j < |items'| ensures ItemHeld(m', items', j) {
      PokeEach(m, items, k, rel, b, j, m', items');
    }
  }

  lemma PokeEach(m: seq<byte>, items: seq<Item>, k: nat, rel: nat, b: seq<byte>, j: nat,
                 m': seq<byte>, items': seq<Item>)
    requires Laid(m, items) && k < |items| && items[k].Oob? && rel + |b| <= |items[k].payload|
    requires j < |items| && PayloadAt(items, k) + rel + |b| <= |m|
    requires m' == Put(m, PayloadAt(items, k) + rel, b) && items' == Poke(items, k, rel, b)
    ensures ItemHeld(m', items', j)
  {
    assert ItemHeld(m, items, j);
    PokeOffsets(items, k, rel, b, j);
    if j == k {
      PokeSame(m, items, k, rel, b, m');
    } else {
      PokeOther(m, items, k, rel, b, j);
    }
  }

  lemma PokeSame(m: seq<byte>, items: seq<Item>, k: nat, rel: nat, b: seq<byte>, m': seq<byte>)
    requires k < |items| && ItemHeld(m, items, k) && items[k].Oob? && rel + |b| <= |items[k].payload|
    requires PayloadAt(items, k) + rel + |b| <= |m| && m' == Put(m, PayloadAt(items, k) + rel, b)
    ensures HeldAt(m', Offset(items, k), Oob(Put(items[k].payload, rel, b)))
  {
    PokeHeld(m, Offset(items, k), items[k], rel, b);
  }

  lemma PokeOther(m: seq<byte>, items: seq<Item>, k: nat, rel: nat, b: seq<byte>, j: nat)
    requires k < |items| && j < |items| && j != k && items[k].Oob? && rel + |b| <= |items[k].payload|
    requires PayloadAt(items, k) + rel + |b| <= |m| && HeldAt(m, Offset(items, j), items[j])
    ensures HeldAt(Put(m, PayloadAt(items, k) + rel, b), Offset(items, j), items[j])
  {
    if j < k { OffsetMonotone(items, j, k); } else { OffsetMonotone(items, k, j); }
    PutAway(m, PayloadAt(items, k) + rel, b, Offset(items, j), ItemSize(items[j]));
    HeldFrame(m, Put(m, PayloadAt(items, k) + rel, b), Offset(items, j), items[j]);
  }

  lemma PokeHeld(m: seq<byte>, o: nat, i: Item, rel: nat, b: seq<byte>)
    requires i.Oob? && HeldAt(m, o, i) && rel + |b| <= |i.payload|
    ensures HeldAt(Put(m, o + ENTRY_SIZE + rel, b), o, Oob(Put(i.payload, rel, b)))
  {
    var at := o + ENTRY_SIZE + rel;
    PutAway(m, at, b, o, 8);
    PutAway(m, at, b, o + 8, 8);
    PutInside(m, o + ENTRY_SIZE, i.payload, rel, b);
  }

  lemma PutInside(m: seq<byte>, o: nat, p: seq<byte>, rel: nat, b: seq<byte>)
    requires HasAt(m, o, p) && rel + |b| <= |p|
    ensures HasAt(Put(m, o + rel, b), o, Put(p, rel, b))
  {
    var m' := Put(m, o + rel, b);
    PutBytes(m, o + rel, b);
    PutBytes(p, rel, b);
    forall i | 0 <= i < |p| ensures m'[o + i] == Put(p, rel, b)[i] {
      assert m[o..o + |p|][i] == m[o + i];
    }
    assert m'[o..o + |p|] == Put(p, rel, b);
  }

  /** The bytes of a payload, read from memory. */
  lemma PayloadBytes(m: seq<byte>, items: seq<Item>, k: nat, rel: nat, n: nat)
    requires Laid(m, items) && k < |items| && items[k].Oob? && rel + n <= |items[k].payload|
    ensures PayloadAt(items, k) + rel + n <= |m|
    ensures m[PayloadAt(items, k) + rel..PayloadAt(items, k) + rel + n] == items[k].payload[rel..rel + n]
  {
    assert ItemHeld(m, items, k);
    SliceSlice(m, PayloadAt(items, k), PayloadAt(items, k) + |items[k].payload|, rel, n);
  }
}
