/** How checkpoint functions share objects: each one is copied when it is first met, and the address
    map leads to that copy from then on. */
module CpShare {
  import opened Words
  import opened CpFormat
  import opened CpStore
  import opened CpMap

  /** Every address in the map has a copy of its own: the offset is that of the payload of item
      `place[a]`. */
  ghost predicate Shared(items: seq<Item>, view: map<nat, nat>, place: map<nat, nat>)
  {
    && view.Keys == place.Keys && (forall a :: a in place ==> Copied(items, view, place, a))
    && forall a, b :: a in place && b in place && place[a] == place[b] ==> a == b
  }

  ghost predicate Copied(items: seq<Item>, view: map<nat, nat>, place: map<nat, nat>, a: nat)
    requires a in place
  {
    a in view && place[a] < |items| && items[place[a]].Oob? && view[a] == PayloadAt(items, place[a])
  }

  /** So "offset 0 means absent" is unambiguous. */
  lemma SharedPastHeader(items: seq<Item>, view: map<nat, nat>, place: map<nat, nat>)
    requires Shared(items, view, place)
    ensures PastHeader(view)
  {
    forall a | a in view ensures view[a] >= 16 {
      assert Copied(items, view, place, a);
    }
  }

  /** Different addresses have different offsets. */
  lemma SharedApart(items: seq<Item>, view: map<nat, nat>, place: map<nat, nat>, a: nat, b: nat)
    requires Shared(items, view, place) && a in view && b in view
    ensures view[a] == view[b] <==> a == b
  {
    assert Copied(items, view, place, a) && Copied(items, view, place, b);
    if place[a] < place[b] {
      OffsetMonotone(items, place[a], place[b]);
    } else if place[b] < place[a] {
      OffsetMonotone(items, place[b], place[a]);
    }
  }

  lemma SharedKept(items: seq<Item>, items': seq<Item>, view: map<nat, nat>, place: map<nat, nat>)
    requires Shared(items, view, place) && items <= items'
    ensures Shared(items', view, place)
  {
    forall a | a in place ensures Copied(items', view, place, a) {
      assert Copied(items, view, place, a);
      SameOffsets(items, items', place[a]);
    }
  }

  lemma SharedNew(items: seq<Item>, items': seq<Item>, view: map<nat, nat>, place: map<nat, nat>, addr: nat, k: nat,
                  off: nat)
    requires Shared(items, view, place) && items <= items' && k == |items| < |items'| && items'[k].Oob?
    requires off == PayloadAt(items', k)
    ensures Shared(items', view[addr := off], place[addr := k])
  {
    SharedKept(items, items', view, place);
    var view', place' := view[addr := off], place[addr := k];
    forall a | a in place' ensures Copied(items', view', place', a) {
      if a != addr { assert Copied(items', view, place, a); }
    }
    forall a | a in place ensures place[a] < k {
      assert Copied(items, view, place, a);
    }
  }

  /** Nothing in `m` is changed. */
  ghost predicate Extends(m: map<nat, nat>, m': map<nat, nat>)
  {
    forall a :: a in m ==> a in m' && m'[a] == m[a]
  }

  /** The store and the map belong together. */
  ghost predicate Sharing(store: Store, cpMap: Map, place: map<nat, nat>)
    reads store, cpMap, cpMap.repr
  {
    && store.Valid() && cpMap.Valid() && store !in cpMap.repr
    && Shared(store.items, cpMap.view, place)
  }

  /** `addr` has its copy at `off`, and nothing that was there has changed. */
  ghost predicate Reached(store: Store, cpMap: Map, place: map<nat, nat>, items: seq<Item>, view: map<nat, nat>,
                          addr: nat, off: nat)
    reads store, cpMap, cpMap.repr
  {
    && Sharing(store, cpMap, place) && addr in cpMap.view && cpMap.view[addr] == off
    && items <= store.items && Extends(view, cpMap.view)
  }

  /** What one copy adds to the store and to the addresses of the map. */
  ghost predicate Charged(offset: nat, offset': nat, keys: set<nat>, keys': set<nat>, addr: nat, size: nat)
  {
    keys' == keys + {addr} && offset' == offset + if addr in keys then 0 else ENTRY_SIZE + AlignUp8(size)
  }

  /** The store can take a new object of `size` bytes, and the map its address. */
  ghost predicate CanCopy(store: Store, cpMap: Map, size: nat, alloc: bool)
    requires |store.mem| > 0 && cpMap.pools != []
    reads store, cpMap
  {
    store.CanAddOffset(size) && (|Newest(cpMap.pools)| < CP_MAP_ENTRY_NUM || alloc)
  }

  /** Nothing is added for an object that is known, and one payload of its size for a new one. */
  ghost predicate Placed(items: seq<Item>, items': seq<Item>, place: map<nat, nat>, place': map<nat, nat>, addr: nat,
                         known: bool, size: nat)
  {
    if known then items' == items && place' == place
    else
      && place' == place[addr := |items|] && items <= items' && |items'| == |items| + 1 && items'[|items|].Oob?
      && |items'[|items|].payload| == AlignUp8(size)
  }

  /** `addr` has its copy at `off`; what that took; and where it was placed. */
  ghost predicate CopyOf(store: Store, cpMap: Map, place: map<nat, nat>, place': map<nat, nat>, items: seq<Item>,
                         view: map<nat, nat>, offset: nat, addr: nat, off: nat, size: nat)
    reads store, cpMap, cpMap.repr
  {
    && Reached(store, cpMap, place', items, view, addr, off)
    && Charged(offset, store.offset, view.Keys, cpMap.view.Keys, addr, size)
    && Placed(items, store.items, place, place', addr, addr in view, size)
  }

  /** `off = GET_FROM_CP_MAP(obj); if (!off) { off = ADD_CP_OFFSET(size); ADD_TO_CP_MAP(obj, off); }`:
      an object that is already there is not copied again, a new one gets a copy of its own. */
  method CopyOnce(store: Store, cpMap: Map, addr: nat, size: nat, alloc: bool, ghost place: map<nat, nat>)
    returns (ok: bool, off: nat, ghost place': map<nat, nat>)
    requires Sharing(store, cpMap, place) && size + 8 <= WORD_MAX
    modifies store, cpMap.repr
    ensures ok <==> old(addr in cpMap.view) || old(CanCopy(store, cpMap, size, alloc))
    ensures old(store.offset) + ENTRY_SIZE + AlignUp8(size) <= store.room && alloc ==> ok
    ensures ok ==> CopyOf(store, cpMap, place, place', old(store.items), old(cpMap.view), old(store.offset), addr, off,
                          size)
    ensures fresh(cpMap.repr - old(cpMap.repr))
    ensures !ok ==> cpMap.view == old(cpMap.view)
  {
    SharedPastHeader(store.items, cpMap.view, place);
    off := cpMap.GetFrom(addr);
    if off != 0 {
      ok, place' := true, place;
      IsOldCopy(store, cpMap, place, addr, off, size);
    } else {
      ok, off, place' := CopyNew(store, cpMap, addr, size, alloc, place);
    }
  }

  /** The first copy of an object. */
  method CopyNew(store: Store, cpMap: Map, addr: nat, size: nat, alloc: bool, ghost place: map<nat, nat>)
    returns (ok: bool, off: nat, ghost place': map<nat, nat>)
    requires Sharing(store, cpMap, place) && size + 8 <= WORD_MAX && addr !in cpMap.view
    modifies store, cpMap.repr
    ensures ok == old(CanCopy(store, cpMap, size, alloc))
    ensures old(store.offset) + ENTRY_SIZE + AlignUp8(size) <= store.room && alloc ==> ok
    ensures ok ==> CopyOf(store, cpMap, place, place', old(store.items), old(cpMap.view), old(store.offset), addr, off,
                          size)
    ensures fresh(cpMap.repr - old(cpMap.repr))
    ensures !ok ==> cpMap.view == old(cpMap.view)
  {
    ghost var items, view, offset := store.items, cpMap.view, store.offset;
    place' := place[addr := |items|];
    ok, off := store.AddOffset(size);
    if ok {
      SharedNew(items, store.items, view, place, addr, |items|, off);
      ok := Enter(store, cpMap, addr, off, alloc);
      if ok {
        IsNewCopy(store, cpMap, place, items, view, offset, addr, off, size);
      }
    }
  }

  lemma IsOldCopy(store: Store, cpMap: Map, place: map<nat, nat>, addr: nat, off: nat, size: nat)
    requires Sharing(store, cpMap, place) && addr in cpMap.view && cpMap.view[addr] == off
    ensures CopyOf(store, cpMap, place, place, store.items, cpMap.view, store.offset, addr, off, size)
  {
    assert cpMap.view.Keys == cpMap.view.Keys + {addr};
  }

  lemma IsNewCopy(store: Store, cpMap: Map, place: map<nat, nat>, items: seq<Item>, view: map<nat, nat>, offset: nat,
                  addr: nat, off: nat, size: nat)
    requires store.Valid() && cpMap.Valid() && store !in cpMap.repr
    requires Shared(store.items, cpMap.view, place[addr := |items|])
    requires items <= store.items && addr !in view && cpMap.view == view[addr := off]
    requires store.offset == offset + ENTRY_SIZE + AlignUp8(size)
    requires Placed(items, store.items, place, place[addr := |items|], addr, false, size)
    ensures CopyOf(store, cpMap, place, place[addr := |items|], items, view, offset, addr, off, size)
  {
  }

  /** `ADD_TO_CP_MAP` for a new address, which leaves the store alone. */
  method Enter(store: Store, cpMap: Map, addr: nat, off: nat, alloc: bool) returns (ok: bool)
    requires cpMap.Valid() && store !in cpMap.repr && addr !in cpMap.view
    modifies cpMap.repr
    ensures cpMap.Valid() && store !in cpMap.repr && fresh(cpMap.repr - old(cpMap.repr))
    ensures ok <==> old(|Newest(cpMap.pools)| < CP_MAP_ENTRY_NUM) || alloc
    ensures cpMap.view == if ok then old(cpMap.view)[addr := off] else old(cpMap.view)
  {
    ok := cpMap.AddTo(addr, off, alloc);
  }

  /** After a run of copies of the objects `objs`, each given by its address and size. */
  ghost predicate AllCopied(objs: seq<(nat, nat)>, offs: seq<nat>, view: map<nat, nat>, n: nat)
  {
    n <= |objs| && |offs| == n && forall i :: 0 <= i < n ==> objs[i].0 in view && offs[i] == view[objs[i].0]
  }

  lemma CopiedNext(objs: seq<(nat, nat)>, offs: seq<nat>, view: map<nat, nat>, view': map<nat, nat>, off: nat, i: nat,
                   n: nat)
    requires AllCopied(objs, offs, view, i) && Extends(view, view') && n == i + 1 <= |objs|
    requires objs[i].0 in view' && off == view'[objs[i].0]
    ensures AllCopied(objs, offs + [off], view', n)
  {
  }

  /** The addresses that are known once the first `n` objects are copied. */
  ghost function Met(objs: seq<(nat, nat)>, known: set<nat>, n: nat): set<nat>
    requires n <= |objs|
  {
    if n == 0 then known else Met(objs, known, n - 1) + {objs[n - 1].0}
  }

  /** The bytes that the first `n` objects take: those with a known address none, and each other address
      an entry and a payload where it first occurs. */
  ghost function Need(objs: seq<(nat, nat)>, known: set<nat>, n: nat): nat
    requires n <= |objs|
  {
    if n == 0 then 0
    else
      Need(objs, known, n - 1)
      + if objs[n - 1].0 in Met(objs, known, n - 1) then 0 else ENTRY_SIZE + AlignUp8(objs[n - 1].1)
  }

  lemma {:induction false} MetIs(objs: seq<(nat, nat)>, known: set<nat>, n: nat, a: nat)
    requires n <= |objs|
    ensures a in Met(objs, known, n) <==> a in known || exists i :: 0 <= i < n && objs[i].0 == a
  {
    if n > 0 { MetIs(objs, known, n - 1, a); }
  }

  lemma {:induction false} NeedMonotone(objs: seq<(nat, nat)>, known: set<nat>, m: nat, n: nat)
    requires m <= n <= |objs|
    ensures Need(objs, known, m) <= Need(objs, known, n)
    decreases n
  {
    if m < n { NeedMonotone(objs, known, m, n - 1); }
  }

  /** The store and the addresses of the map after the first `n` objects. */
  ghost predicate AllCharged(objs: seq<(nat, nat)>, offset: nat, offset': nat, known: set<nat>, keys: set<nat>, n: nat)
  {
    n <= |objs| && keys == Met(objs, known, n) && offset' == offset + Need(objs, known, n)
  }

  lemma ChargedNext(objs: seq<(nat, nat)>, offset: nat, offset': nat, offset'': nat, known: set<nat>, keys: set<nat>,
                    keys': set<nat>, i: nat, n: nat)
    requires AllCharged(objs, offset, offset', known, keys, i) && n == i + 1 <= |objs|
    requires Charged(offset', offset'', keys, keys', objs[i].0, objs[i].1)
    ensures AllCharged(objs, offset, offset'', known, keys', n)
  {
  }

  /** What the next object takes still fits. */
  lemma NextFits(objs: seq<(nat, nat)>, offset: nat, offset': nat, known: set<nat>, keys: set<nat>, room: nat, i: nat)
    requires AllCharged(objs, offset, offset', known, keys, i) && i < |objs|
    requires offset + Need(objs, known, |objs|) <= room
    ensures objs[i].0 in keys || offset' + ENTRY_SIZE + AlignUp8(objs[i].1) <= room
  {
    NeedMonotone(objs, known, i + 1, |objs|);
  }

  /** The copies of the first `n` objects are made, beginning with `offset` bytes in the store and the
      addresses `known` in the map. */
  ghost predicate Underway(objs: seq<(nat, nat)>, offs: seq<nat>, view: map<nat, nat>, offset: nat, offset': nat,
                           known: set<nat>, n: nat)
  {
    AllCopied(objs, offs, view, n) && AllCharged(objs, offset, offset', known, view.Keys, n)
  }

  method CopyNext(store: Store, cpMap: Map, objs: seq<(nat, nat)>, alloc: bool, offs: seq<nat>, i: nat, ghost n: nat,
                  ghost place: map<nat, nat>, ghost offset: nat, ghost known: set<nat>)
    returns (ok: bool, off: nat, ghost place': map<nat, nat>)
    requires Sharing(store, cpMap, place) && Underway(objs, offs, cpMap.view, offset, store.offset, known, i)
    requires n == i + 1 <= |objs| && objs[i].1 + 8 <= WORD_MAX
    modifies store, cpMap.repr
    ensures ok ==>
      Sharing(store, cpMap, place') && Underway(objs, offs + [off], cpMap.view, offset, store.offset, known, n)
    ensures fresh(cpMap.repr - old(cpMap.repr))
    ensures offset + Need(objs, known, |objs|) <= store.room && alloc ==> ok
  {
    ghost var view, at := cpMap.view, store.offset;
    if offset + Need(objs, known, |objs|) <= store.room {
      NextFits(objs, offset, at, known, view.Keys, store.room, i);
    }
    ok, off, place' := CopyOnce(store, cpMap, objs[i].0, objs[i].1, alloc, place);
    if ok {
      CopiedNext(objs, offs, view, cpMap.view, off, i, n);
      ChargedNext(objs, offset, at, store.offset, known, view.Keys, cpMap.view.Keys, i, n);
    }
  }

  /** Two objects have the same copy exactly if they have the same address. */
  ghost predicate Apart(objs: seq<(nat, nat)>, offs: seq<nat>)
  {
    && |offs| == |objs|
    && forall i, j :: 0 <= i < |objs| && 0 <= j < |objs| ==> (offs[i] == offs[j] <==> objs[i].0 == objs[j].0)
  }

  lemma AllApart(items: seq<Item>, view: map<nat, nat>, place: map<nat, nat>, objs: seq<(nat, nat)>, offs: seq<nat>)
    requires Shared(items, view, place) && AllCopied(objs, offs, view, |objs|)
    ensures Apart(objs, offs)
  {
    forall i, j | 0 <= i < |objs| && 0 <= j < |objs| ensures offs[i] == offs[j] <==> objs[i].0 == objs[j].0 {
      SharedApart(items, view, place, objs[i].0, objs[j].0);
    }
  }

  /** There is room for all, and the map can always get another pool. */
  ghost predicate Enough(objs: seq<(nat, nat)>, known: set<nat>, offset: nat, room: nat, alloc: nat -> bool)
  {
    offset + Need(objs, known, |objs|) <= room && forall i :: 0 <= i < |objs| ==> alloc(i)
  }

  /** The copies from object `i` on. */
  method CopyFrom(store: Store, cpMap: Map, objs: seq<(nat, nat)>, alloc: nat -> bool, offs: seq<nat>, i: nat,
                  ghost place: map<nat, nat>, ghost offset: nat, ghost known: set<nat>)
    returns (ok: bool, offs': seq<nat>, ghost place': map<nat, nat>)
    requires Sharing(store, cpMap, place) && forall i :: 0 <= i < |objs| ==> objs[i].1 + 8 <= WORD_MAX
    requires Underway(objs, offs, cpMap.view, offset, store.offset, known, i)
    modifies store, cpMap.repr
    ensures ok ==> Sharing(store, cpMap, place')
    ensures ok ==> Underway(objs, offs', cpMap.view, offset, store.offset, known, |objs|)
    ensures Enough(objs, known, offset, store.room, alloc) ==> ok
    decreases |objs| - i
  {
    if i == |objs| {
      return true, offs, place;
    }
    var off, n := 0, i + 1;
    ok, off, place' := CopyNext(store, cpMap, objs, alloc(i), offs, i, n, place, offset, known);
    if !ok {
      return ok, offs, place';
    }
    ok, offs', place' := CopyFrom(store, cpMap, objs, alloc, offs + [off], n, place', offset, known);
  }

  /** A run of copies: an object that occurs several times is copied once, and different objects have
      different copies. It takes exactly the bytes that the first occurrences of the new objects
      need, and succeeds if the store has that room and the map can always get another pool. */
  method CopyAll(store: Store, cpMap: Map, objs: seq<(nat, nat)>, alloc: nat -> bool, ghost place: map<nat, nat>)
    returns (ok: bool, offs: seq<nat>, ghost place': map<nat, nat>)
    requires Sharing(store, cpMap, place) && forall i :: 0 <= i < |objs| ==> objs[i].1 + 8 <= WORD_MAX
    modifies store, cpMap.repr
    ensures ok ==> Sharing(store, cpMap, place') && Apart(objs, offs)
    ensures ok ==>
      Underway(objs, offs, cpMap.view, old(store.offset), store.offset, old(cpMap.view.Keys), |objs|)
    ensures Enough(objs, old(cpMap.view.Keys), old(store.offset), store.room, alloc) ==> ok
  {
    ok, offs, place' := CopyFrom(store, cpMap, objs, alloc, [], 0, place, store.offset, cpMap.view.Keys);
    if ok {
      AllApart(store.items, cpMap.view, place', objs, offs);
    }
  }
}
