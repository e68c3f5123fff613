/** The map from object addresses to checkpoint offsets: hash buckets over entries that lie in
    buffers of fixed size. */
module CpMap {
  import opened Wrappers

  const CP_MAP_ENTRY_NUM := 64
  const CP_HASH_SIZE := 256

  /** `struct shim_cp_map_entry`. */
  datatype MapEntry = MapEntry(addr: nat, off: nat)

  /** `struct cp_map_buffer`. */
  class Buffer {
    const entries: array<MapEntry>
    var cnt: nat

    constructor ()
      ensures cnt == 0 && fresh(entries) && entries.Length == CP_MAP_ENTRY_NUM
    {
      entries := new MapEntry[CP_MAP_ENTRY_NUM];
      cnt := 0;
    }
  }

  /** A pointer to an entry: its buffer, counted from the oldest, and its place in it. */
  datatype Slot = Slot(buffer: nat, index: nat)

  /** The entries handed out so far, buffer by buffer. */
  type Pools = seq<seq<MapEntry>>

  ghost predicate Given(pools: Pools, s: Slot)
  {
    s.buffer < |pools| && s.index < |pools[s.buffer]|
  }

  ghost function EntryAt(pools: Pools, s: Slot): MapEntry
    requires Given(pools, s)
  {
    pools[s.buffer][s.index]
  }

  /** Only the newest buffer has free entries. */
  ghost predicate Packed(pools: Pools)
  {
    && pools != [] && |Newest(pools)| <= CP_MAP_ENTRY_NUM
    && forall i :: 0 <= i < |pools| - 1 ==> |pools[i]| == CP_MAP_ENTRY_NUM
  }

  ghost function Newest(pools: Pools): seq<MapEntry>
    requires pools != []
  {
    pools[|pools| - 1]
  }

  ghost predicate Known(pools: Pools, dict: map<nat, Slot>, s: Slot)
  {
    Given(pools, s) && EntryAt(pools, s).addr in dict && dict[EntryAt(pools, s).addr] == s
  }

  ghost predicate Placed(head: seq<seq<Slot>>, pools: Pools, dict: map<nat, Slot>, hash: nat -> nat, a: nat)
    requires a in dict && |head| == CP_HASH_SIZE
  {
    Given(pools, dict[a]) && EntryAt(pools, dict[a]).addr == a && dict[a] in head[hash(a) % CP_HASH_SIZE]
  }

  /** No entry occurs twice in a bucket. */
  ghost predicate NoRepeats(head: seq<seq<Slot>>)
  {
    forall b, i, j :: 0 <= b < |head| && 0 <= i < j < |head[b]| ==> head[b][i] != head[b][j]
  }

  lemma NoRepeatsAdd(head: seq<seq<Slot>>, head': seq<seq<Slot>>, b: nat, s: Slot)
    requires NoRepeats(head) && b < |head| && s !in head[b] && head' == head[b := [s] + head[b]]
    ensures NoRepeats(head')
  {
    forall c, i, j | 0 <= c < |head'| && 0 <= i < j < |head'[c]| ensures head'[c][i] != head'[c][j] {
      if c == b {
        assert head'[b][j] == head[b][j - 1];
        if i > 0 { assert head'[b][i] == head[b][i - 1]; }
      }
    }
  }

  /** `dict` gives the one entry of every address, which is in the bucket of that address; all
      entries handed out, and all in the buckets, are entries of `dict`. */
  ghost predicate Indexed(head: seq<seq<Slot>>, pools: Pools, dict: map<nat, Slot>, hash: nat -> nat)
  {
    && |head| == CP_HASH_SIZE
    && (forall a :: a in dict ==> Placed(head, pools, dict, hash, a))
    && (forall b, i :: 0 <= b < CP_HASH_SIZE && 0 <= i < |head[b]| ==> Known(pools, dict, head[b][i]))
    && (forall s :: Given(pools, s) ==> Known(pools, dict, s))
  }

  /** So no two entries have the same address. */
  lemma OnePerAddress(head: seq<seq<Slot>>, pools: Pools, dict: map<nat, Slot>, hash: nat -> nat, s: Slot, t: Slot)
    requires Indexed(head, pools, dict, hash) && Given(pools, s) && Given(pools, t)
    requires EntryAt(pools, s).addr == EntryAt(pools, t).addr
    ensures s == t
  {
    assert Known(pools, dict, s) && Known(pools, dict, t);
  }

  // ---------------------------------------------------------------- handing out an entry

  /** The next entry of the newest buffer is given to `addr`. */
  ghost function Taken(pools: Pools, addr: nat): Pools
    requires pools != []
  {
    pools[|pools| - 1 := Newest(pools) + [MapEntry(addr, 0)]]
  }

  ghost function Free(pools: Pools): Slot
    requires pools != []
  {
    Slot(|pools| - 1, |Newest(pools)|)
  }

  /** Everything handed out is still there, unchanged. */
  ghost predicate Intact(pools: Pools, pools': Pools)
  {
    forall s :: Given(pools, s) ==> Given(pools', s) && EntryAt(pools', s) == EntryAt(pools, s)
  }

  lemma TakenIntact(pools: Pools, addr: nat)
    requires pools != []
    ensures Intact(pools, Taken(pools, addr)) && !Given(pools, Free(pools))
    ensures Given(Taken(pools, addr), Free(pools)) && EntryAt(Taken(pools, addr), Free(pools)) == MapEntry(addr, 0)
    ensures forall s :: Given(Taken(pools, addr), s) ==> s == Free(pools) || Given(pools, s)
  {
  }

  lemma PlacedAdd(head: seq<seq<Slot>>, head': seq<seq<Slot>>, pools: Pools, pools': Pools, dict: map<nat, Slot>,
                  hash: nat -> nat, addr: nat, s: Slot, a: nat)
    requires |head| == CP_HASH_SIZE && a in dict && Placed(head, pools, dict, hash, a) && a != addr
    requires Intact(pools, pools') && head' == head[hash(addr) % CP_HASH_SIZE := [s] + head[hash(addr) % CP_HASH_SIZE]]
    ensures Placed(head', pools', dict[addr := s], hash, a)
  {
  }

  lemma KnownAdd(pools: Pools, pools': Pools, dict: map<nat, Slot>, addr: nat, s: Slot, x: Slot)
    requires Known(pools, dict, x) && Intact(pools, pools') && addr !in dict
    ensures Known(pools', dict[addr := s], x)
  {
  }

  /** Linking the entry at the front of its bucket. */
  lemma IndexedAdd(head: seq<seq<Slot>>, head': seq<seq<Slot>>, pools: Pools, pools': Pools, dict: map<nat, Slot>,
                   hash: nat -> nat, addr: nat, s: Slot)
    requires Indexed(head, pools, dict, hash) && addr !in dict && Intact(pools, pools')
    requires Given(pools', s) && EntryAt(pools', s) == MapEntry(addr, 0)
    requires forall x :: Given(pools', x) ==> x == s || Given(pools, x)
    requires head' == head[hash(addr) % CP_HASH_SIZE := [s] + head[hash(addr) % CP_HASH_SIZE]]
    ensures Indexed(head', pools', dict[addr := s], hash)
  {
    var b, dict' := hash(addr) % CP_HASH_SIZE, dict[addr := s];
    forall a | a in dict' ensures Placed(head', pools', dict', hash, a) {
      if a == addr { assert head'[b][0] == s; } else { PlacedAdd(head, head', pools, pools', dict, hash, addr, s, a); }
    }
    forall c, i | 0 <= c < CP_HASH_SIZE && 0 <= i < |head'[c]| ensures Known(pools', dict', head'[c][i]) {
      if c != b {
        KnownAdd(pools, pools', dict, addr, s, head[c][i]);
      } else if i > 0 {
        assert head'[b][i] == head[b][i - 1];
        KnownAdd(pools, pools', dict, addr, s, head[b][i - 1]);
      }
    }
    forall x | Given(pools', x) ensures Known(pools', dict', x) {
      if x != s { KnownAdd(pools, pools', dict, addr, s, x); }
    }
  }

  lemma CoherentExtended(head: seq<seq<Slot>>, pools: Pools, dict: map<nat, Slot>, view: map<nat, nat>,
                         hash: nat -> nat)
    requires Coherent(head, pools, dict, view, hash) && |Newest(pools)| == CP_MAP_ENTRY_NUM
    ensures Coherent(head, pools + [[]], dict, view, hash) && Intact(pools, pools + [[]])
  {
    var pools' := pools + [[]];
    forall x ensures Given(pools', x) == Given(pools, x) && Known(pools', dict, x) == Known(pools, dict, x) {
    }
    forall a | a in dict ensures Placed(head, pools', dict, hash, a) {
      assert Placed(head, pools, dict, hash, a);
    }
  }

  lemma ViewsAdd(pools: Pools, pools': Pools, dict: map<nat, Slot>, view: map<nat, nat>, addr: nat, s: Slot)
    requires Views(pools, dict, view) && Intact(pools, pools') && addr !in dict
    requires Given(pools', s) && EntryAt(pools', s) == MapEntry(addr, 0)
    ensures Views(pools', dict[addr := s], view[addr := 0])
  {
  }

  // ---------------------------------------------------------------- changing an offset

  ghost function Changed(pools: Pools, s: Slot, off: nat): Pools
    requires Given(pools, s)
  {
    pools[s.buffer := pools[s.buffer][s.index := EntryAt(pools, s).(off := off)]]
  }

  /** Every entry is still there, for the same address. */
  ghost predicate SameAddresses(pools: Pools, pools': Pools)
  {
    forall s :: Given(pools, s) ==> Given(pools', s) && EntryAt(pools', s).addr == EntryAt(pools, s).addr
  }

  lemma ChangedAt(pools: Pools, s: Slot, off: nat, x: Slot)
    requires Given(pools, s)
    ensures Given(Changed(pools, s, off), x) <==> Given(pools, x)
    ensures Given(pools, x) ==> EntryAt(Changed(pools, s, off), x).addr == EntryAt(pools, x).addr
    ensures Given(pools, x) ==> EntryAt(Changed(pools, s, off), x).off == if x == s then off else EntryAt(pools, x).off
  {
  }

  lemma IndexedChange(head: seq<seq<Slot>>, pools: Pools, dict: map<nat, Slot>, hash: nat -> nat, s: Slot, off: nat)
    requires Indexed(head, pools, dict, hash) && Given(pools, s)
    ensures Indexed(head, Changed(pools, s, off), dict, hash)
  {
    var pools' := Changed(pools, s, off);
    forall a | a in dict ensures Placed(head, pools', dict, hash, a) {
      assert Placed(head, pools, dict, hash, a);
      ChangedAt(pools, s, off, dict[a]);
    }
    forall x | Known(pools, dict, x) ensures Known(pools', dict, x) {
      ChangedAt(pools, s, off, x);
    }
    forall x | Given(pools', x) ensures Known(pools', dict, x) {
      ChangedAt(pools, s, off, x);
    }
  }

  lemma ViewsChange(pools: Pools, dict: map<nat, Slot>, view: map<nat, nat>, addr: nat, off: nat)
    requires Views(pools, dict, view) && addr in dict && forall a :: a in dict ==> EntryAt(pools, dict[a]).addr == a
    ensures Views(Changed(pools, dict[addr], off), dict, view[addr := off])
  {
    forall a | a in dict
      ensures Given(Changed(pools, dict[addr], off), dict[a])
      ensures EntryAt(Changed(pools, dict[addr], off), dict[a]).off == view[addr := off][a]
    {
      ChangedAt(pools, dict[addr], off, dict[a]);
    }
  }

  // ---------------------------------------------------------------- the map

  /** Every offset lies behind an entry header, as `ADD_CP_OFFSET` gives them out. */
  ghost predicate PastHeader(view: map<nat, nat>)
  {
    forall a :: a in view ==> view[a] >= 16
  }

  /** `view` gives the offset in the entry of every address. */
  ghost predicate Views(pools: Pools, dict: map<nat, Slot>, view: map<nat, nat>)
  {
    && view.Keys == dict.Keys
    && forall a :: a in dict ==> Given(pools, dict[a]) && EntryAt(pools, dict[a]).off == view[a]
  }

  /** The buckets and entries stand for `view`. */
  ghost predicate Coherent(head: seq<seq<Slot>>, pools: Pools, dict: map<nat, Slot>, view: map<nat, nat>,
                           hash: nat -> nat)
  {
    Packed(pools) && Indexed(head, pools, dict, hash) && NoRepeats(head) && Views(pools, dict, view)
  }

  lemma CoherentEntry(head: seq<seq<Slot>>, pools: Pools, dict: map<nat, Slot>, view: map<nat, nat>, hash: nat -> nat,
                      addr: nat)
    requires Coherent(head, pools, dict, view, hash) && addr in dict
    ensures Given(pools, dict[addr]) && addr in view && EntryAt(pools, dict[addr]) == MapEntry(addr, view[addr])
    ensures dict[addr] in head[hash(addr) % CP_HASH_SIZE]
  {
    assert Placed(head, pools, dict, hash, addr);
  }

  lemma CoherentTaken(head: seq<seq<Slot>>, head': seq<seq<Slot>>, pools: Pools, dict: map<nat, Slot>,
                      view: map<nat, nat>, hash: nat -> nat, addr: nat, s: Slot)
    requires Coherent(head, pools, dict, view, hash) && addr !in dict && |Newest(pools)| < CP_MAP_ENTRY_NUM
    requires s == Free(pools)
    requires head' == head[hash(addr) % CP_HASH_SIZE := [s] + head[hash(addr) % CP_HASH_SIZE]]
    ensures Coherent(head', Taken(pools, addr), dict[addr := s], view[addr := 0], hash)
  {
    TakenIntact(pools, addr);
    IndexedAdd(head, head', pools, Taken(pools, addr), dict, hash, addr, s);
    assert forall i :: 0 <= i < |head[hash(addr) % CP_HASH_SIZE]| ==>
      Known(pools, dict, head[hash(addr) % CP_HASH_SIZE][i]);
    NoRepeatsAdd(head, head', hash(addr) % CP_HASH_SIZE, s);
    ViewsAdd(pools, Taken(pools, addr), dict, view, addr, s);
  }

  lemma CoherentChanged(head: seq<seq<Slot>>, pools: Pools, dict: map<nat, Slot>, view: map<nat, nat>,
                        hash: nat -> nat, addr: nat, off: nat)
    requires Coherent(head, pools, dict, view, hash) && addr in dict
    ensures Given(pools, dict[addr])
    ensures Coherent(head, Changed(pools, dict[addr], off), dict, view[addr := off], hash)
    ensures SameAddresses(pools, Changed(pools, dict[addr], off))
  {
    forall a | a in dict ensures EntryAt(pools, dict[a]).addr == a {
      assert Placed(head, pools, dict, hash, a);
    }
    IndexedChange(head, pools, dict, hash, dict[addr], off);
    ViewsChange(pools, dict, view, addr, off);
    forall x | Given(pools, x)
      ensures Given(Changed(pools, dict[addr], off), x)
      ensures EntryAt(Changed(pools, dict[addr], off), x).addr == EntryAt(pools, x).addr
    {
      ChangedAt(pools, dict[addr], off, x);
    }
  }

  ghost predicate Mirror(b: Buffer, pool: seq<MapEntry>)
    reads b, b.entries
  {
    b.entries.Length == CP_MAP_ENTRY_NUM && b.cnt == |pool| <= CP_MAP_ENTRY_NUM && b.entries[..b.cnt] == pool
  }

  ghost predicate Mirrors(buffers: seq<Buffer>, pools: Pools)
    reads buffers, set b | b in buffers :: b.entries
  {
    && |buffers| == |pools| && (forall i :: 0 <= i < |buffers| ==> Mirror(buffers[i], pools[i]))
    && forall i, j :: 0 <= i < j < |buffers| ==>
         buffers[i] != buffers[j] && buffers[i].entries != buffers[j].entries
  }

  class Map {
    const hash: nat -> nat
    var head: seq<seq<Slot>>
    var buffers: seq<Buffer>
    ghost var pools: Pools
    ghost var dict: map<nat, Slot>
    ghost var view: map<nat, nat>
    ghost var repr: set<object>

    /** The buffers hold `pools`. */
    ghost predicate Shaped()
      reads this, repr
    {
      && this in repr && (forall i :: 0 <= i < |buffers| ==> buffers[i] in repr && buffers[i].entries in repr)
      && Mirrors(buffers, pools)
    }

    /** `view` is the abstract map from addresses to offsets, `dict` the entries it lies in. */
    ghost predicate Valid()
      reads this, repr
    {
      Shaped() && Coherent(head, pools, dict, view, hash)
    }

    /** `create_cp_map`, when memory is available. */
    constructor (hash: nat -> nat)
      ensures Valid() && dict == map[] && view == map[] && this.hash == hash && fresh(repr)
    {
      this.hash := hash;
      head := seq(CP_HASH_SIZE, _ => []);
      var b := new Buffer();
      buffers, pools, dict, view, repr := [b], [[]], map[], map[], {this, b, b.entries};
    }

    /** What the entry at `s` holds. */
    method Read(s: Slot) returns (e: MapEntry)
      requires Valid() && Given(pools, s)
      ensures e == EntryAt(pools, s)
    {
      assert Mirror(buffers[s.buffer], pools[s.buffer]);
      e := buffers[s.buffer].entries[..buffers[s.buffer].cnt][s.index];
    }

    /** `extend_cp_map`: `alloc` tells whether `malloc` succeeds. */
    method Extend(alloc: bool) returns (ok: bool)
      requires Valid() && |Newest(pools)| == CP_MAP_ENTRY_NUM
      modifies this`buffers, this`pools, this`repr
      ensures Valid() && ok == alloc && fresh(repr - old(repr))
      ensures pools == if ok then old(pools) + [[]] else old(pools)
      ensures Intact(old(pools), pools)
    {
      ok := alloc;
      if ok {
        CoherentExtended(head, pools, dict, view, hash);
        var b := new Buffer();
        buffers, pools, repr := buffers + [b], pools + [[]], repr + {b, b.entries};
      }
    }

    /** The bucket search of `get_cp_map_entry`: it keeps the last match, and there is only one. */
    method Search(addr: nat) returns (e: Option<Slot>)
      requires Valid()
      ensures e == if addr in dict then Some(dict[addr]) else None
    {
      var bucket := head[hash(addr) % CP_HASH_SIZE];
      e := None;
      for i := 0 to |bucket|
        invariant e.Some? ==> addr in dict && e.value == dict[addr]
        invariant e.None? ==> forall j :: 0 <= j < i ==> addr in dict ==> bucket[j] != dict[addr]
      {
        assert Known(pools, dict, bucket[i]);
        var x := Read(bucket[i]);
        if x.addr == addr {
          e := Some(bucket[i]);
        }
      }
      if addr in dict { CoherentEntry(head, pools, dict, view, hash, addr); }
    }

    /** `new = &buffer->entries[buffer->cnt++]`. */
    method Fill(addr: nat)
      requires Shaped() && pools != [] && |Newest(pools)| < CP_MAP_ENTRY_NUM
      modifies this`pools, buffers[|buffers| - 1], buffers[|buffers| - 1].entries
      ensures Shaped() && pools == Taken(old(pools), addr)
    {
      var n := |buffers| - 1;
      var b := buffers[n];
      assert Mirror(b, pools[n]);
      var e := MapEntry(addr, 0);
      b.entries[b.cnt] := e;
      b.cnt := b.cnt + 1;
      assert b.entries[..b.cnt] == pools[n] + [e];
      pools := pools[n := pools[n] + [e]];
      forall i | 0 <= i < |buffers| ensures Mirror(buffers[i], pools[i]) {
        assert old(Mirror(buffers[i], pools[i]));
      }
    }

    /** The same, and the entry at the front of its bucket. */
    method Link(addr: nat, s: Slot, b: nat)
      requires Shaped() && pools != [] && |Newest(pools)| < CP_MAP_ENTRY_NUM && b < |head|
      modifies repr
      ensures Shaped() && repr == old(repr) && pools == Taken(old(pools), addr)
      ensures head == old(head)[b := [s] + old(head)[b]]
      ensures dict == old(dict)[addr := s] && view == old(view)[addr := 0]
    {
      Fill(addr);
      head := head[b := [s] + head[b]];
      dict, view := dict[addr := s], view[addr := 0];
    }

    /** Takes the next free entry of the newest buffer and links it in. */
    method Take(addr: nat) returns (s: Slot)
      requires Valid() && addr !in dict && |Newest(pools)| < CP_MAP_ENTRY_NUM
      modifies repr
      ensures Valid() && repr == old(repr) && s == Free(old(pools)) && pools == Taken(old(pools), addr)
      ensures dict == old(dict)[addr := s] && view == old(view)[addr := 0]
    {
      assert Mirror(buffers[|buffers| - 1], Newest(pools));
      s := Slot(|buffers| - 1, buffers[|buffers| - 1].cnt);
      var b := hash(addr) % CP_HASH_SIZE;
      CoherentTaken(head, head[b := [s] + head[b]], pools, dict, view, hash, addr, s);
      Link(addr, s, b);
    }

    /** A new entry, from a new buffer if need be. */
    method Make(addr: nat, alloc: bool) returns (e: Option<Slot>)
      requires Valid() && addr !in dict
      modifies repr
      ensures Valid() && fresh(repr - old(repr)) && Intact(old(pools), pools)
      ensures e.None? <==> old(|Newest(pools)|) == CP_MAP_ENTRY_NUM && !alloc
      ensures e.None? ==> dict == old(dict) && view == old(view)
      ensures e.Some? ==>
        && dict == old(dict)[addr := e.value] && view == old(view)[addr := 0] && !Given(old(pools), e.value)
        && Given(pools, e.value) && EntryAt(pools, e.value) == MapEntry(addr, 0)
    {
      assert Mirror(buffers[|buffers| - 1], Newest(pools));
      if buffers[|buffers| - 1].cnt == CP_MAP_ENTRY_NUM {
        var ok := Extend(alloc);
        if !ok {
          return None;
        }
      }
      TakenIntact(pools, addr);
      var s := Take(addr);
      e := Some(s);
    }

    /** `get_cp_map_entry`. Pointers handed out earlier stay good: what they point to is unchanged,
        also when a buffer is added. */
    method GetEntry(addr: nat, create: bool, alloc: bool) returns (e: Option<Slot>)
      requires Valid()
      modifies repr
      ensures Valid() && fresh(repr - old(repr)) && Intact(old(pools), pools)
      ensures e.None? <==>
        old(addr !in dict && (!create || (|Newest(pools)| == CP_MAP_ENTRY_NUM && !alloc)))
      ensures e.None? ==> dict == old(dict) && view == old(view)
      ensures e.Some? ==>
        && dict == old(dict)[addr := e.value] && Given(pools, e.value) && EntryAt(pools, e.value).addr == addr
        && view == old(view)[addr := EntryAt(pools, e.value).off]
      ensures e.Some? && addr !in old(dict) ==> !Given(old(pools), e.value) && EntryAt(pools, e.value).off == 0
    {
      e := Search(addr);
      if e.Some? {
        CoherentEntry(head, pools, dict, view, hash, addr);
        assert dict == dict[addr := e.value] && view == view[addr := view[addr]];
        return;
      }
      if !create {
        return;
      }
      e := Make(addr, alloc);
    }

    /** `GET_FROM_CP_MAP`. */
    method GetFrom(addr: nat) returns (off: nat)
      requires Valid()
      ensures off == if addr in view then view[addr] else 0
      ensures PastHeader(view) ==> (off == 0 <==> addr !in view)
    {
      var e := Search(addr);
      off := 0;
      if e.Some? {
        CoherentEntry(head, pools, dict, view, hash, addr);
        var x := Read(e.value);
        off := x.off;
      }
    }

    /** `e->off = off`. */
    method Assign(ghost addr: nat, s: Slot, off: nat)
      requires Shaped() && Given(pools, s)
      modifies repr
      ensures Shaped() && repr == old(repr) && head == old(head) && dict == old(dict)
      ensures pools == Changed(old(pools), s, off) && view == old(view)[addr := off]
    {
      var b := buffers[s.buffer];
      assert Mirror(b, pools[s.buffer]);
      var e := b.entries[..b.cnt][s.index];
      b.entries[s.index] := e.(off := off);
      assert b.entries[..b.cnt] == pools[s.buffer][s.index := e.(off := off)];
      pools := pools[s.buffer := pools[s.buffer][s.index := e.(off := off)]];
      forall i | 0 <= i < |buffers| ensures Mirror(buffers[i], pools[i]) {
        assert old(Mirror(buffers[i], pools[i]));
      }
      view := view[addr := off];
    }

    method SetOff(ghost addr: nat, s: Slot, off: nat)
      requires Valid() && addr in dict && dict[addr] == s && Given(pools, s)
      modifies repr
      ensures Valid() && repr == old(repr) && view == old(view)[addr := off] && SameAddresses(old(pools), pools)
    {
      CoherentChanged(head, pools, dict, view, hash, addr, off);
      Assign(addr, s, off);
    }

    /** `ADD_TO_CP_MAP`; `ok` is false where the source would write through a null pointer. */
    method AddTo(addr: nat, off: nat, alloc: bool) returns (ok: bool)
      requires Valid()
      modifies repr
      ensures Valid() && fresh(repr - old(repr)) && SameAddresses(old(pools), pools)
      ensures ok <==> old(addr in dict || |Newest(pools)| < CP_MAP_ENTRY_NUM) || alloc
      ensures view == if ok then old(view)[addr := off] else old(view)
    {
      var e := GetEntry(addr, true, alloc);
      ok := e.Some?;
      if ok {
        Overwrite(old(view), addr, EntryAt(pools, e.value).off, off);
        ghost var between := pools;
        SetOff(addr, e.value, off);
        StillThere(old(pools), between, pools);
      }
    }

    /** Addition `n` of a run that began with entries `pools0` and map `view0`. */
    method AddNext(ops: seq<(nat, nat)>, alloc: bool, i: nat, ghost n: nat, ghost pools0: Pools,
                   ghost view0: map<nat, nat>) returns (ok: bool)
      requires Valid() && n == i + 1 <= |ops| && Added(pools0, view0, pools, view, ops, i)
      modifies repr
      ensures Valid() && fresh(repr - old(repr)) && (alloc ==> ok)
      ensures Added(pools0, view0, pools, view, ops, if ok then n else i)
    {
      AddsSnoc(view0, ops, i);
      ok := AddTo(ops[i].0, ops[i].1, alloc);
    }

    /** A run of additions, as far as memory lasts: the map holds, for every address, the last
        offset given to it, and pointers handed out earlier still lead to the entries of their
        addresses. */
    method AddAll(ops: seq<(nat, nat)>, alloc: nat -> bool) returns (n: nat)
      requires Valid()
      modifies repr
      ensures Valid() && n <= |ops| && Added(old(pools), old(view), pools, view, ops, n)
      ensures n < |ops| ==> !alloc(n)
    {
      n := 0;
      assert ops[..0] == [];
      while n < |ops|
        invariant n <= |ops| && Valid() && fresh(repr - old(repr)) && Added(old(pools), old(view), pools, view, ops, n)
      {
        var m := n + 1;
        var ok := AddNext(ops, alloc(n), n, m, old(pools), old(view));
        if !ok {
          return;
        }
        n := m;
      }
    }
  }

  /** After `n` additions the map is the abstract one, and all older entries are where they were. */
  ghost predicate Added(pools0: Pools, view0: map<nat, nat>, pools: Pools, view: map<nat, nat>, ops: seq<(nat, nat)>,
                        n: nat)
  {
    n <= |ops| && view == Adds(view0, ops[..n]) && SameAddresses(pools0, pools)
  }

  lemma StillThere(a: Pools, b: Pools, c: Pools)
    requires Intact(a, b) && SameAddresses(b, c)
    ensures SameAddresses(a, c)
  {
  }

  lemma Overwrite(m: map<nat, nat>, a: nat, x: nat, y: nat)
    ensures m[a := x][a := y] == m[a := y]
  {
  }

  function Adds(view: map<nat, nat>, ops: seq<(nat, nat)>): map<nat, nat>
  {
    if ops == [] then view
    else Adds(view, ops[..|ops| - 1])[ops[|ops| - 1].0 := ops[|ops| - 1].1]
  }

  lemma AddsSnoc(view: map<nat, nat>, ops: seq<(nat, nat)>, i: nat)
    requires i < |ops|
    ensures Adds(view, ops[..i + 1]) == Adds(view, ops[..i])[ops[i].0 := ops[i].1]
  {
    assert ops[..i + 1][..i] == ops[..i];
  }

  /** Offsets past a header, in a map that has only such, keep "0 means absent" true. */
  lemma {:induction false} AddsPastHeader(view: map<nat, nat>, ops: seq<(nat, nat)>)
    requires PastHeader(view) && forall i :: 0 <= i < |ops| ==> ops[i].1 >= 16
    ensures PastHeader(Adds(view, ops))
  {
    if ops != [] { AddsPastHeader(view, ops[..|ops| - 1]); }
  }

  /** The offset that a run gives an address is the last one it was added with. */
  lemma {:induction false} AddsLast(view: map<nat, nat>, ops: seq<(nat, nat)>, i: nat)
    requires i < |ops| && forall j :: i < j < |ops| ==> ops[j].0 != ops[i].0
    ensures ops[i].0 in Adds(view, ops) && Adds(view, ops)[ops[i].0] == ops[i].1
  {
    if i < |ops| - 1 { AddsLast(view, ops[..|ops| - 1], i); }
  }
}
