/** The parent's side of a checkpoint: the growing store and the `ADD_CP_*` macros. */
module CpStore {
  import Bits
  import opened Words
  import opened CpFormat
  import opened CpWalk

  const ENOMEM := 12

  /** `ALIGN_UP(n, sizeof(void*))`. */
  function AlignUp8(n: nat): (r: nat)
    ensures r % 8 == 0 && n <= r < n + 8
  {
    (n + 7) - (n + 7) % 8
  }

  /** The bound after doubling until `need` bytes fit. */
  function Doubled(bound: nat, need: nat): (b: nat)
    requires bound > 0
    ensures b >= need && b >= bound && (b == bound || b < 2 * need)
    decreases need - bound
  {
    if need <= bound then bound else Doubled(2 * bound, need)
  }

  /** `b` is `bound` doubled `k` times, and no more often than `need` bytes require. */
  ghost predicate TimesTwo(bound: nat, need: nat, b: nat, k: nat)
  {
    b == Bits.Shl(bound, k) && need <= b && (k > 0 ==> Bits.Shl(bound, k - 1) < need)
  }

  lemma {:induction false} DoubledIs(bound: nat, need: nat)
    requires bound > 0
    ensures exists k: nat :: TimesTwo(bound, need, Doubled(bound, need), k)
    decreases need - bound
  {
    if need <= bound {
      assert TimesTwo(bound, need, Doubled(bound, need), 0);
    } else {
      DoubledIs(2 * bound, need);
      var k: nat :| TimesTwo(2 * bound, need, Doubled(2 * bound, need), k);
      TwiceFirst(bound, k);
      if k > 0 { TwiceFirst(bound, k - 1); }
      assert TimesTwo(bound, need, Doubled(bound, need), k + 1);
    }
  }

  lemma {:induction false} TwiceFirst(a: nat, k: nat)
    ensures Bits.Shl(2 * a, k) == Bits.Shl(a, k + 1)
  {
    if k > 0 { TwiceFirst(a, k - 1); }
  }

  /** The bound of a store of `bound` bytes once it holds `need`. */
  function Extended(bound: nat, need: nat): nat
    requires bound > 0
  {
    if need <= bound then bound else Doubled(2 * bound, need)
  }

  lemma ExtendedIs(bound: nat, need: nat)
    requires bound > 0
    ensures exists k: nat :: TimesTwo(bound, need, Extended(bound, need), k)
  {
    DoubledIs(bound, need);
    assert Extended(bound, need) == Doubled(bound, need);
  }

  /** `struct shim_cp_store`: `mem` is the area [base, base + bound), of which `offset` bytes are in
      use. `grow` says whether `store->alloc` can provide a given extension, and `junk` what
      bytes new memory happens to hold. `room` is a number of bytes for which it always can. */
  class Store {
    const base: nat
    const grow: (nat, nat) -> bool
    const junk: nat -> byte
    ghost const room: nat
    var mem: seq<byte>
    var offset: nat
    var firstMem: u64
    var memCnt: nat
    var lastHdl: u64
    var hdlCnt: nat
    ghost var items: seq<Item>

    /** No allocation reaches past the end of the address space, and all that are needed for `room`
        bytes are granted. */
    ghost predicate Addressable()
      reads this`mem
    {
      && 0 < base && |mem| > 0 && base + |mem| <= WORD_MAX
      && (forall a: nat, n: nat :: grow(a, n) ==> a + n <= WORD_MAX)
      && (forall a: nat, n: nat :: base < a && a + n <= base + 2 * room ==> grow(a, n))
    }

    /** A store of `bound` bytes has room for `need`, or can be extended for them. */
    predicate Grants(bound: nat, need: nat)
      requires bound > 0
    {
      need <= bound || grow(base + bound, Doubled(2 * bound, need) - bound)
    }

    predicate CanReserve(size: nat)
      requires |mem| > 0
      reads this`mem, this`offset
    {
      Grants(|mem|, offset + size)
    }

    /** There is room for a header, and then for the payload. */
    predicate CanAddOffset(size: nat)
      requires |mem| > 0
      reads this`mem, this`offset
    {
      && CanReserve(ENTRY_SIZE)
      && Grants(Extended(|mem|, offset + ENTRY_SIZE), offset + ENTRY_SIZE + AlignUp8(size))
    }

    ghost predicate Valid()
      reads this
    {
      Addressable() && Laid(mem, items) && offset == Size(items) <= |mem|
    }

    constructor (base: nat, bound: nat, grow: (nat, nat) -> bool, junk: nat -> byte, ghost room: nat)
      requires 0 < base && 0 < bound && base + bound <= WORD_MAX
      requires forall a: nat, n: nat :: grow(a, n) ==> a + n <= WORD_MAX
      requires forall a: nat, n: nat :: base < a && a + n <= base + 2 * room ==> grow(a, n)
      ensures Valid() && items == [] && this.base == base && |mem| == bound && this.room == room
      ensures firstMem == 0 && memCnt == 0 && lastHdl == 0 && hdlCnt == 0
    {
      this.base, this.grow, this.junk, this.room := base, grow, junk, room;
      mem := seq(bound, i requires 0 <= i < bound => junk(i));
      offset, items := 0, [];
      firstMem, memCnt, lastHdl, hdlCnt := 0, 0, 0, 0;
    }

    /** The doubling loop of `__ADD_CP_OFFSET`. */
    method NewBound(need: nat) returns (newBound: nat)
      requires 0 < |mem| < need
      ensures newBound == Doubled(2 * |mem|, need)
    {
      newBound := |mem| * 2;
      while need > newBound
        invariant 0 < newBound && Doubled(newBound, need) == Doubled(2 * |mem|, need)
        decreases need - newBound
      {
        newBound := newBound * 2;
      }
    }

    /** `__ADD_CP_OFFSET`: reserves `size` bytes, doubling the area until they fit. */
    method Reserve(size: nat) returns (ok: bool, off: nat)
      requires Addressable() && offset <= |mem|
      modifies this`mem, this`offset
      ensures Addressable() && ok == old(CanReserve(size))
      ensures off + size <= room ==> ok
      ensures off == old(offset) && old(mem) <= mem
      ensures ok ==> offset == off + size <= |mem|
      ensures ok ==> |mem| == Extended(old(|mem|), offset) && (|mem| == old(|mem|) || |mem| < 2 * offset)
      ensures !ok ==> offset == off && mem == old(mem)
    {
      off := offset;
      if offset + size > |mem| {
        var newBound := NewBound(offset + size);
        var bound := |mem|;
        if !grow(base + bound, newBound - bound) {
          return false, off;
        }
        mem := mem + seq(newBound - bound, i requires 0 <= i < newBound - bound => junk(bound + i));
      }
      offset := offset + size;
      ok := true;
    }

    /** Reserves a `struct shim_cp_entry` and fills it in. */
    method AddHeader(kind: u64, val: u64) returns (ok: bool, off: nat)
      requires Valid()
      modifies this`mem, this`offset
      ensures off == old(offset) && Addressable() && ok == old(CanReserve(ENTRY_SIZE))
      ensures off + ENTRY_SIZE <= room ==> ok
      ensures ok ==>
        && offset == off + ENTRY_SIZE <= |mem| == Extended(old(|mem|), offset) && Laid(mem, items)
        && WordAt(mem, off) == kind && WordAt(mem, off + 8) == val
      ensures !ok ==> Valid()
    {
      ghost var m := mem;
      ok, off := Reserve(ENTRY_SIZE);
      if !ok {
        return;
      }
      LaidFrame(m, mem, items);
      PutTwo(mem, off, kind, val);
      m := mem;
      mem := Put(mem, off, Bytes(kind));
      mem := Put(mem, off + 8, Bytes(val));
      LaidFrame(m, mem, items);
    }

    /** `ADD_CP_ENTRY` and `ADD_CP_FUNC_ENTRY`. */
    method AddEntry(kind: u64, val: u64) returns (ok: bool, off: nat)
      requires Valid() && ItemOk(Entry(kind, val))
      modifies this`mem, this`offset, this`items
      ensures Valid() && ok == old(CanReserve(ENTRY_SIZE)) && (old(offset) + ENTRY_SIZE <= room ==> ok)
      ensures ok ==> items == old(items) + [Entry(kind, val)] && off == old(offset) && offset == off + ENTRY_SIZE
      ensures !ok ==> items == old(items)
    {
      ok, off := AddHeader(kind, val);
      if ok {
        LaidAppend(mem, items, Entry(kind, val));
        items := items + [Entry(kind, val)];
      }
    }

    /** `ADD_CP_OFFSET`: an out-of-band entry and its payload, whose bytes are still to be written.
        The offset returned is past an entry header, so it is never 0. A failure leaves all that was
        emitted before in place. */
    method AddOffset(size: nat) returns (ok: bool, off: nat)
      requires Valid() && size + 8 <= WORD_MAX
      modifies this`mem, this`offset, this`items
      ensures ok == old(CanAddOffset(size))
      ensures !ok ==> Addressable() && Laid(mem, items) && items == old(items)
      ensures old(offset) + ENTRY_SIZE + AlignUp8(size) <= room ==> ok
      ensures ok ==> offset == old(offset) + ENTRY_SIZE + AlignUp8(size)
      ensures ok ==>
        && Valid() && |items| == |old(items)| + 1 && items[..|old(items)|] == old(items)
        && items[|old(items)|].Oob? && |items[|old(items)|].payload| == AlignUp8(size)
        && off == PayloadAt(items, |old(items)|) && off >= ENTRY_SIZE && off % 8 == 0
    {
      var alignedSize := AlignUp8(size);
      var oob;
      ok, oob := AddHeader(CP_OOB, alignedSize);
      if !ok {
        return ok, 0;
      }
      ghost var m := mem;
      assert CanReserve(alignedSize) == old(CanAddOffset(size));
      ok, off := Reserve(alignedSize);
      if !ok {
        LaidFrame(m, mem, items);
        return;
      }
      ghost var payload := Oob(mem[off..off + alignedSize]);
      PayloadAdded(m, mem, items, oob, alignedSize, payload);
      items := items + [payload];
    }

    /** `END_MIGRATION_DEF` closes the checkpoint with a null entry. */
    method Close() returns (ok: bool)
      requires Valid()
      modifies this`mem, this`offset
      ensures Addressable() && ok == old(CanReserve(ENTRY_SIZE)) && (old(offset) + ENTRY_SIZE <= room ==> ok)
      ensures ok ==> Closed(mem, items) && offset == Size(items) + ENTRY_SIZE <= |mem|
      ensures !ok ==> Valid()
    {
      var off;
      ok, off := AddHeader(CP_NULL, 0);
    }

    /** Writing bytes through a pointer into the payload of item `k`. */
    method Write(at: nat, b: seq<byte>, ghost k: nat, ghost rel: nat)
      requires Valid() && k < |items| && items[k].Oob? && rel + |b| <= |items[k].payload|
      requires at == PayloadAt(items, k) + rel
      modifies this`mem, this`items
      ensures Valid() && items == Poke(old(items), k, rel, b) && |mem| == old(|mem|)
      ensures PayloadAt(items, k) == old(PayloadAt(items, k))
    {
      PokeLaid(mem, items, k, rel, b);
      PokeOffsets(items, k, rel, b, |items|);
      PokeOffsets(items, k, rel, b, k);
      mem := Put(mem, at, b);
      items := Poke(items, k, rel, b);
    }
  }

  lemma PayloadAdded(m: seq<byte>, m': seq<byte>, items: seq<Item>, oob: nat, size: nat, i: Item)
    requires m <= m' && Laid(m, items) && Size(items) == oob && oob + ENTRY_SIZE <= |m| && size % 8 == 0
    requires WordAt(m, oob) == CP_OOB && WordAt(m, oob + 8) == size && oob + ENTRY_SIZE + size <= |m'|
    requires i == Oob(m'[oob + ENTRY_SIZE..oob + ENTRY_SIZE + size])
    ensures Laid(m', items + [i]) && Size(items + [i]) == oob + ENTRY_SIZE + size
    ensures PayloadAt(items + [i], |items|) == oob + ENTRY_SIZE && (oob + ENTRY_SIZE) % 8 == 0
  {
    LaidFrame(m, m', items);
    assert m'[oob..oob + 8] == m[oob..oob + 8];
    assert m'[oob + 8..oob + 16] == m[oob + 8..oob + 16];
    LaidAppend(m', items, i);
    SameOffsets(items, items + [i], |items|);
    LaidAligned(m, items);
  }

  lemma LaidAligned(m: seq<byte>, items: seq<Item>)
    requires Laid(m, items)
    ensures Size(items) % 8 == 0
  {
    forall k | 0 <= k < |items| ensures ItemOk(items[k]) {
      assert ItemHeld(m, items, k);
    }
    OffsetAligned(items, |items|);
  }

  lemma PutTwo(m: seq<byte>, off: nat, a: u64, b: u64)
    requires off + 16 <= |m|
    ensures var m' := Put(Put(m, off, Bytes(a)), off + 8, Bytes(b));
      && WordAt(m', off) == a && WordAt(m', off + 8) == b
      && m'[..off] == m[..off]
  {
    var m1 := Put(m, off, Bytes(a));
    WordPut(m, off, a);
    WordPut(m1, off + 8, b);
    PutPrefixKept(m, off, Bytes(a));
    PutPrefixKept(m1, off + 8, Bytes(b));
    PutAway(m1, off + 8, Bytes(b), off, 8);
  }
}
