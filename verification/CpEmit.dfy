/** The checkpoint functions of shim_checkpoint.c that copy strings: `cp_arguments`, `cp_environ`
    and `cp_qstr`. */
module CpEmit {
  import opened Words
  import opened CStrings
  import opened CpFormat
  import opened CpStore

  /** Item `k` of a checkpoint made at `base` is the payload of a string vector `v`: an array of
      pointers, then the strings. */
  ghost predicate VectorItem(items: seq<Item>, k: nat, base: nat, v: seq<cstring>)
  {
    && k < |items| && items[k].Oob?
    && Vector(items[k].payload, base + PayloadAt(items, k), 0, 8 * (|v| + 1), v)
    && 8 * (|v| + 1) + TotalBytes(v) <= |items[k].payload|
  }

  /** Item `k` is an entry of that kind for the payload just before it. */
  ghost predicate EntryFor(items: seq<Item>, k: nat, kind: u64)
  {
    && 0 < k < |items| && items[k - 1].Oob? && items[k].Entry?
    && items[k].kind == kind && items[k].val == PayloadAt(items, k - 1)
  }

  /** The bytes a vector takes in a checkpoint. */
  function VectorNeed(v: seq<cstring>): nat
  {
    2 * ENTRY_SIZE + AlignUp8(8 * (|v| + 1) + TotalBytes(v))
  }

  /** `cp_arguments` and `cp_environ`, which differ in `kind` only. */
  method CpVector(store: Store, kind: u64, v: seq<cstring>) returns (ok: bool)
    requires store.Valid() && kind >= CP_FUNC_BASE
    requires 8 * (|v| + 1) + TotalBytes(v) + 8 <= WORD_MAX
    modifies store`mem, store`offset, store`items
    ensures old(store.offset) + VectorNeed(v) <= store.room ==> ok
    ensures ok ==> store.offset == old(store.offset) + VectorNeed(v)
    ensures ok ==>
      && store.Valid() && |store.items| == old(|store.items|) + 2
      && store.items[..old(|store.items|)] == old(store.items)
      && VectorItem(store.items, old(|store.items|), store.base, v)
      && EntryFor(store.items, old(|store.items|) + 1, kind)
  {
    ghost var k := |store.items|;
    var off;
    ok, off := PutVector(store, v);
    if !ok {
      return;
    }
    ghost var items := store.items;
    var entry;
    ok, entry := store.AddEntry(kind, off);
    if ok {
      SameOffsets(items, store.items, k);
    }
  }

  /** The payload of a vector. */
  method PutVector(store: Store, v: seq<cstring>) returns (ok: bool, off: nat)
    requires store.Valid() && 8 * (|v| + 1) + TotalBytes(v) + 8 <= WORD_MAX
    modifies store`mem, store`offset, store`items
    ensures old(store.offset) + VectorNeed(v) <= store.room + ENTRY_SIZE ==> ok
    ensures ok ==> store.offset == old(store.offset) + VectorNeed(v) - ENTRY_SIZE
    ensures ok ==>
      && store.Valid() && |store.items| == old(|store.items|) + 1
      && store.items[..old(|store.items|)] == old(store.items)
      && VectorItem(store.items, old(|store.items|), store.base, v)
      && off == PayloadAt(store.items, old(|store.items|))
  {
    var cnt, bytes := Measure(v);
    ghost var k := |store.items|;
    ok, off := store.AddOffset(8 * (cnt + 1) + bytes);
    if ok {
      CopyVector(store, off, v, k);
    }
  }

  /** The copying loop: `new_argv` is at offset `off`, the strings follow the pointers. */
  method CopyVector(store: Store, off: nat, v: seq<cstring>, ghost k: nat)
    requires store.Valid() && k + 1 == |store.items| && store.items[k].Oob?
    requires off == PayloadAt(store.items, k)
    requires 8 * (|v| + 1) + TotalBytes(v) <= |store.items[k].payload|
    modifies store`mem, store`items
    ensures store.Valid() && |store.items| == k + 1
    ensures store.items[..k] == old(store.items[..k]) && PayloadAt(store.items, k) == off
    ensures VectorItem(store.items, k, store.base, v)
  {
    ghost var size := |store.items[k].payload|;
    var strs := 8 * (|v| + 1);
    ghost var addr := store.base + off;
    var i, newStr := 0, strs;
    while i < |v|
      invariant i <= |v| && newStr == strs + Start(v, i)
      invariant store.Valid() && |store.items| == k + 1 && store.items[..k] == old(store.items[..k])
      invariant store.items[k].Oob? && |store.items[k].payload| == size
      invariant PayloadAt(store.items, k) == off
      invariant Pointers(store.items[k].payload, 0, addr + strs, v, i)
      invariant Strings(store.items[k].payload, strs, v, i)
    {
      CopyOne(store, off, strs, v, i, newStr, k);
      newStr := newStr + |v[i]| + 1;
      i := i + 1;
    }
    EndVector(store, off, v, 0, k);
  }

  /** `new_argv[arg_cnt] = NULL`. */
  method EndVector(store: Store, off: nat, v: seq<cstring>, nil: u64, ghost k: nat)
    requires store.Valid() && k + 1 == |store.items| && store.items[k].Oob? && off == PayloadAt(store.items, k)
    requires 8 * (|v| + 1) + TotalBytes(v) <= |store.items[k].payload| && nil == 0
    requires Pointers(store.items[k].payload, 0, store.base + off + 8 * (|v| + 1), v, |v|)
    requires Strings(store.items[k].payload, 8 * (|v| + 1), v, |v|)
    modifies store`mem, store`items
    ensures store.Valid() && |store.items| == k + 1 && store.items[..k] == old(store.items[..k])
    ensures PayloadAt(store.items, k) == off && VectorItem(store.items, k, store.base, v)
  {
    VectorItemEnd(store.items, k, store.base, v, nil);
    store.Write(off + 8 * |v|, Bytes(nil), k, 8 * |v|);
  }

  lemma VectorItemEnd(items: seq<Item>, k: nat, base: nat, v: seq<cstring>, nil: u64)
    requires k < |items| && items[k].Oob? && nil == 0
    requires 8 * (|v| + 1) + TotalBytes(v) <= |items[k].payload|
    requires Pointers(items[k].payload, 0, base + PayloadAt(items, k) + 8 * (|v| + 1), v, |v|)
    requires Strings(items[k].payload, 8 * (|v| + 1), v, |v|)
    ensures VectorItem(Poke(items, k, 8 * |v|, Bytes(nil)), k, base, v)
  {
    var p, at := items[k].payload, PayloadAt(items, k);
    PokeOffsets(items, k, 8 * |v|, Bytes(nil), k);
    VectorEnd(p, Put(p, 8 * |v|, Bytes(nil)), base + at, 0, 8 * (|v| + 1), v, nil);
    VectorPoked(items, k, base, v, at, 8 * |v|, Bytes(nil));
  }

  lemma VectorPoked(items: seq<Item>, k: nat, base: nat, v: seq<cstring>, at: nat, rel: nat, b: seq<byte>)
    requires k < |items| && items[k].Oob? && rel + |b| <= |items[k].payload|
    requires PayloadAt(Poke(items, k, rel, b), k) == at
    requires Vector(Put(items[k].payload, rel, b), base + at, 0, 8 * (|v| + 1), v)
    requires 8 * (|v| + 1) + TotalBytes(v) <= |items[k].payload|
    ensures VectorItem(Poke(items, k, rel, b), k, base, v)
  {
  }

  /** `new_argv[i] = new_arg_str` and the copy of string `i`. */
  method CopyOne(store: Store, off: nat, strs: nat, v: seq<cstring>, i: nat, newStr: nat, ghost k: nat)
    requires store.Valid() && k + 1 == |store.items| && store.items[k].Oob? && off == PayloadAt(store.items, k)
    requires i < |v| && newStr == strs + Start(v, i) && strs == 8 * (|v| + 1)
    requires strs + TotalBytes(v) <= |store.items[k].payload|
    requires Pointers(store.items[k].payload, 0, store.base + off + strs, v, i)
    requires Strings(store.items[k].payload, strs, v, i)
    modifies store`mem, store`items
    ensures store.Valid() && |store.items| == k + 1 && store.items[..k] == old(store.items[..k])
    ensures store.items[k].Oob? && |store.items[k].payload| == old(|store.items[k].payload|)
    ensures PayloadAt(store.items, k) == off
    ensures Pointers(store.items[k].payload, 0, store.base + off + strs, v, i + 1)
    ensures Strings(store.items[k].payload, strs, v, i + 1)
  {
    PayloadInside(store, k);
    PutArg(store.items[k].payload, 0, store.base + off + strs, strs, v, i);
    store.Write(off + 8 * i, Bytes(store.base + off + newStr), k, 8 * i);
    store.Write(off + newStr, Terminated(v[i]), k, newStr);
  }

  /** A payload lies inside the address space. */
  lemma PayloadInside(store: Store, k: nat)
    requires store.Valid() && k < |store.items| && store.items[k].Oob?
    ensures store.base + PayloadAt(store.items, k) + |store.items[k].payload| <= WORD_MAX
  {
    OffsetMonotone(store.items, k, |store.items|);
  }

  // ---------------------------------------------------------------- overflow strings

  /** The layout of `struct shim_qstr`. */
  const QSTR_LEN := 8
  const QSTR_OFLOW := 48
  const QSTR_BYTES := 56

  /** A `shim_qstr` with length `len` lies at `rel` in the payload of item `host`. */
  ghost predicate QstrAt(items: seq<Item>, host: nat, rel: nat, len: nat)
  {
    && host < |items| && items[host].Oob? && rel + QSTR_BYTES <= |items[host].payload|
    && WordAt(items[host].payload, rel + QSTR_LEN) == len
  }

  /** Item `k` is the copy of an overflow string. */
  ghost predicate TextItem(items: seq<Item>, k: nat, text: cstring)
  {
    && k < |items| && items[k].Oob?
    && HasAt(items[k].payload, 0, Terminated(text)) && |items[k].payload| == AlignUp8(|text| + 1)
  }

  /** The bytes an overflow string takes in a checkpoint. */
  function TextNeed(text: cstring): nat
  {
    2 * ENTRY_SIZE + AlignUp8(|text| + 1)
  }

  /** The copy of an overflow string, whose length is `len`. */
  method CopyText(store: Store, len: nat, text: cstring) returns (ok: bool)
    requires store.Valid() && len == |text| && |text| + 9 <= WORD_MAX
    modifies store`mem, store`offset, store`items
    ensures old(store.offset) + ENTRY_SIZE + AlignUp8(|text| + 1) <= store.room ==> ok
    ensures ok ==>
      && store.Valid() && |store.items| == old(|store.items|) + 1
      && store.items[..old(|store.items|)] == old(store.items)
      && TextItem(store.items, old(|store.items|), text)
      && store.offset == old(store.offset) + ENTRY_SIZE + AlignUp8(|text| + 1)
  {
    ghost var k := |store.items|;
    var off;
    ok, off := store.AddOffset(len + 1);
    if ok {
      PutHas(store.items[k].payload, 0, Terminated(text));
      store.Write(off, Terminated(text), k, 0);
    }
  }

  /** `cp_qstr` on the `shim_qstr` at offset `qstr` of the checkpoint; `text` is the string that its
      `oflow` pointer leads to. */
  method CpQstr(store: Store, kind: u64, qstr: nat, text: cstring, ghost host: nat, ghost rel: nat) returns (ok: bool)
    requires store.Valid() && kind >= CP_FUNC_BASE && |text| + 9 <= WORD_MAX
    requires QstrAt(store.items, host, rel, |text|) && qstr == PayloadAt(store.items, host) + rel
    modifies store`mem, store`offset, store`items
    ensures old(WordAt(store.items[host].payload, rel + QSTR_OFLOW)) == 0 ==>
      ok && store.Valid() && store.items == old(store.items) && store.offset == old(store.offset)
    ensures old(store.offset) + TextNeed(text) <= store.room ==> ok
    ensures ok && old(WordAt(store.items[host].payload, rel + QSTR_OFLOW)) != 0 ==>
      TextAdded(old(store.items), store, kind, text, host, rel) && store.offset == old(store.offset) + TextNeed(text)
  {
    ghost var items := store.items;
    PayloadBytes(store.mem, items, host, rel + QSTR_OFLOW, 8);
    PayloadBytes(store.mem, items, host, rel + QSTR_LEN, 8);
    if WordAt(store.mem, qstr + QSTR_OFLOW) == 0 {
      return true;
    }
    PayloadInside(store, host);
    ok := CopyText(store, WordAt(store.mem, qstr + QSTR_LEN), text);
    if !ok {
      return;
    }
    var entry;
    ok, entry := store.AddEntry(kind, qstr);
    if ok {
      SameOffsets(items, store.items, host);
    }
  }

  /** To `items` a text and the entry for its `shim_qstr` have been added. */
  ghost predicate TextAdded(items: seq<Item>, store: Store, kind: u64, text: cstring, host: nat, rel: nat)
    reads store
  {
    && store.Valid() && |store.items| == |items| + 2 && store.items[..|items|] == items && host < |items|
    && TextItem(store.items, |items|, text) && store.items[|items| + 1].Entry?
    && store.items[|items| + 1].kind == kind
    && store.items[|items| + 1].val == PayloadAt(store.items, host) + rel
  }
}
