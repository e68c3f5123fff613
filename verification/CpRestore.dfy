/** The child's side: restoring the objects of a checkpoint that was loaded at another address. */
module CpRestore {
  import opened Words
  import opened CStrings
  import opened CpFormat
  import opened CpWalk
  import opened CpStore
  import opened CpEmit

  /** Only item `k` has changed, and the first `i` of its pointers are rebased. */
  ghost predicate RebasingItems(items0: seq<Item>, items: seq<Item>, k: nat, val: nat, from: nat, to: nat,
                                v: seq<cstring>, i: nat)
  {
    && k < |items0| && items0[k].Oob? && |items| == |items0|
    && items == items0[k := items[k]] && items[k].Oob?
    && |items[k].payload| == |items0[k].payload| && PayloadAt(items, k) == val
    && 8 * (|v| + 1) + TotalBytes(v) <= |items[k].payload|
    && Rebasing(items[k].payload, from + val, to + val, 0, 8 * (|v| + 1), v, i)
  }

  lemma RebasingNext(items0: seq<Item>, items: seq<Item>, items': seq<Item>, k: nat, val: nat, from: nat, to: nat,
                     v: seq<cstring>, i: nat, p: seq<byte>, p': seq<byte>)
    requires RebasingItems(items0, items, k, val, from, to, v, i)
    requires p == items[k].payload && items' == items[k := Oob(p')] && |p'| == |p|
    requires Rebasing(p', from + val, to + val, 0, 8 * (|v| + 1), v, i + 1)
    ensures RebasingItems(items0, items', k, val, from, to, v, i + 1)
  {
    SameOffsets(items, items', k);
  }

  lemma RebasingPayload(p: seq<byte>, p': seq<byte>, from: nat, to: nat, strs: nat, v: seq<cstring>, i: nat)
    requires Rebasing(p, from, to, 0, strs, v, i) && i < |v| && strs == 8 * (|v| + 1)
    requires to + strs + Start(v, i) < WORD_MAX && p' == Put(p, 8 * i, Bytes(to + strs + Start(v, i)))
    ensures Rebasing(p', from, to, 0, strs, v, i + 1)
  {
    RebaseStep(p, p', from, to, 0, strs, v, i);
  }

  /** The received checkpoint, loaded at `base`; `migratedArgv` and `migratedEnvp` are offsets into
      it, 0 when unset. */
  class Blob {
    const base: u64
    var mem: seq<byte>
    var migratedArgv: nat
    var migratedEnvp: nat
    ghost var items: seq<Item>

    ghost predicate Valid()
      reads this
    {
      0 < base && base + |mem| <= WORD_MAX && Closed(mem, items)
    }

    constructor (base: u64, mem: seq<byte>, ghost items: seq<Item>)
      requires 0 < base && base + |mem| <= WORD_MAX && Closed(mem, items)
      ensures Valid() && this.base == base && this.mem == mem && this.items == items
      ensures migratedArgv == 0 && migratedEnvp == 0
    {
      this.base, this.mem, this.items := base, mem, items;
      migratedArgv, migratedEnvp := 0, 0;
    }

    /** Writing bytes through a pointer into the payload of item `k`. */
    method Write(at: nat, b: seq<byte>, ghost k: nat, ghost rel: nat)
      requires Valid() && k < |items| && items[k].Oob? && rel + |b| <= |items[k].payload|
      requires at == PayloadAt(items, k) + rel
      modifies this`mem, this`items
      ensures Valid() && items == Poke(old(items), k, rel, b) && |mem| == old(|mem|)
      ensures PayloadAt(items, k) == old(PayloadAt(items, k))
    {
      PokeLaid(mem, items, k, rel, b);
      PokeOffsets(items, k, rel, b, |items|);
      PokeOffsets(items, k, rel, b, k);
      OffsetMonotone(items, k, |items|);
      PutAway(mem, at, b, Size(items), 8);
      mem := Put(mem, at, b);
      items := Poke(items, k, rel, b);
    }

    /** Reading a word of the payload of item `k`. */
    lemma WordIn(k: nat, rel: nat)
      requires Valid() && k < |items| && items[k].Oob? && rel + 8 <= |items[k].payload|
      ensures PayloadAt(items, k) + rel + 8 <= |mem|
      ensures WordAt(mem, PayloadAt(items, k) + rel) == WordAt(items[k].payload, rel)
    {
      PayloadBytes(mem, items, k, rel, 8);
    }

    /** `rs_arguments` and `rs_environ`: rebases the pointers up to the null one. */
    method RsVector(val: nat, rebase: u64, ghost k: nat, ghost from: u64, ghost v: seq<cstring>)
      requires Valid() && VectorItem(items, k, from, v) && val == PayloadAt(items, k)
      requires from + |mem| <= WORD_MAX && rebase == Sub64(base, from)
      modifies this`mem, this`items
      ensures Valid() && VectorItem(items, k, base, v) && |mem| == old(|mem|)
      ensures items == old(items)[k := items[k]] && |items[k].payload| == |old(items)[k].payload|
    {
      ghost var items0 := items;
      var a := val;
      ghost var i := 0;
      RebasingStarts(k, val, from, v);
      VectorWord(items0, k, val, from, v, 0);
      while WordAt(mem, a) != 0
        invariant |mem| == old(|mem|) && RebasingAt(items0, k, val, from, v, i)
        invariant a == val + 8 * i && a + 8 <= |mem|
        invariant WordAt(mem, a) == if i < |v| then from + val + 8 * (|v| + 1) + Start(v, i) else 0
        decreases |v| - i
      {
        RebaseOne(a, rebase, items0, k, val, from, v, i);
        a := a + 8;
        i := i + 1;
        VectorWord(items0, k, val, from, v, i);
      }
      RebasingEnds(items0, k, val, from, v);
    }

    ghost predicate RebasingAt(items0: seq<Item>, k: nat, val: nat, from: u64, v: seq<cstring>, i: nat)
      reads this
    {
      Valid() && RebasingItems(items0, items, k, val, from, base, v, i)
    }

    /** `CP_REBASE(*a)` for pointer `i`. */
    method RebaseOne(a: nat, rebase: u64, ghost items0: seq<Item>, ghost k: nat, ghost val: nat, ghost from: u64,
                     ghost v: seq<cstring>, ghost i: nat)
      requires RebasingAt(items0, k, val, from, v, i)
      requires from + |mem| <= WORD_MAX && rebase == Sub64(base, from)
      requires i < |v| && a == val + 8 * i && a + 8 <= |mem|
      requires WordAt(mem, a) == from + val + 8 * (|v| + 1) + Start(v, i)
      modifies this`mem, this`items
      ensures RebasingAt(items0, k, val, from, v, i + 1) && |mem| == old(|mem|)
    {
      RebasedWord(k, from, v, i);
      var w := Add64(WordAt(mem, a), rebase);
      PutRebased(a, w, items0, k, val, from, v, i);
    }

    method PutRebased(a: nat, w: u64, ghost items0: seq<Item>, ghost k: nat, ghost val: nat, ghost from: u64,
                      ghost v: seq<cstring>, ghost i: nat)
      requires RebasingAt(items0, k, val, from, v, i) && i < |v| && a == val + 8 * i
      requires w == base + val + 8 * (|v| + 1) + Start(v, i)
      modifies this`mem, this`items
      ensures RebasingAt(items0, k, val, from, v, i + 1) && |mem| == old(|mem|)
    {
      ghost var before, p := items, items[k].payload;
      RebasingPayload(p, Put(p, 8 * i, Bytes(w)), from + val, base + val, 8 * (|v| + 1), v, i);
      Write(a, Bytes(w), k, 8 * i);
      RebasingNext(items0, before, items, k, val, from, base, v, i, p, Put(p, 8 * i, Bytes(w)));
    }

    lemma RebasedWord(k: nat, from: u64, v: seq<cstring>, i: nat)
      requires Valid() && k < |items| && items[k].Oob? && i < |v| && from + |mem| <= WORD_MAX
      requires 8 * (|v| + 1) + TotalBytes(v) <= |items[k].payload|
      ensures var o := PayloadAt(items, k) + 8 * (|v| + 1) + Start(v, i);
        && from + o < WORD_MAX && base + o < WORD_MAX
        && Add64(from + o, Sub64(base, from)) == base + o
    {
      StartMonotone(v, i, |v|);
      OffsetMonotone(items, k, |items|);
      RebaseExact(from, base, PayloadAt(items, k) + 8 * (|v| + 1) + Start(v, i));
    }

    /** The word the loop looks at next. */
    lemma VectorWord(items0: seq<Item>, k: nat, val: nat, from: u64, v: seq<cstring>, i: nat)
      requires RebasingAt(items0, k, val, from, v, i)
      ensures val + 8 * i + 8 <= |mem| && i <= |v|
      ensures WordAt(mem, val + 8 * i)
           == if i < |v| then from + val + 8 * (|v| + 1) + Start(v, i) else 0
    {
      var p := items[k].payload;
      if i < |v| {
        assert PointerHeld(p, 0, from + val + 8 * (|v| + 1), v, i);
      }
      WordIn(k, 8 * i);
    }

    lemma RebasingStarts(k: nat, val: nat, from: u64, v: seq<cstring>)
      requires Valid() && VectorItem(items, k, from, v) && val == PayloadAt(items, k)
      ensures RebasingAt(items, k, val, from, v, 0)
    {
      RebaseStart(items[k].payload, from + val, base + val, 0, 8 * (|v| + 1), v);
    }

    lemma RebasingEnds(items0: seq<Item>, k: nat, val: nat, from: u64, v: seq<cstring>)
      requires RebasingAt(items0, k, val, from, v, |v|)
      ensures VectorItem(items, k, base, v)
    {
      RebaseEnd(items[k].payload, from + val, base + val, 0, 8 * (|v| + 1), v);
    }

    /** `rs_qstr`: the overflow string lies right before the entry, so its start is computed
        backwards from the entry. */
    method RsQstr(entry: nat, val: nat, ghost host: nat, ghost rel: nat, ghost k: nat, ghost text: cstring)
      requires Valid() && QstrAt(items, host, rel, |text|) && TextItem(items, k, text) && k + 1 < |items|
      requires entry == Offset(items, k + 1) && val == PayloadAt(items, host) + rel
      modifies this`mem, this`items
      ensures Valid() && |mem| == old(|mem|)
      ensures old(base + PayloadAt(items, k)) < WORD_MAX
      ensures items == Poke(old(items), host, rel + QSTR_OFLOW, Bytes(old(base + PayloadAt(items, k))))
    {
      WordIn(host, rel + QSTR_LEN);
      TextStart(k, text);
      var len: nat := WordAt(mem, val + QSTR_LEN);
      var size := AlignUp8(len + 1);
      var start := entry - size;
      Write(val + QSTR_OFLOW, Bytes(base + start), host, rel + QSTR_OFLOW);
    }

    lemma TextStart(k: nat, text: cstring)
      requires Valid() && TextItem(items, k, text)
      ensures Offset(items, k + 1) - AlignUp8(|text| + 1) == PayloadAt(items, k)
      ensures base + PayloadAt(items, k) < WORD_MAX
    {
      OffsetMonotone(items, k, |items|);
    }
  }
}
