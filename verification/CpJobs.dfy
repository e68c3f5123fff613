/** `restore_checkpoint`: walking a received checkpoint and restoring every object in it. */
module CpJobs {
  import opened Words
  import opened CStrings
  import opened CpFormat
  import opened CpWalk
  import opened CpChange
  import opened CpEmit
  import opened CpRestore

  /** The entry types of the functions modelled here; they depend on the link order. */
  datatype Kinds = Kinds(arguments: u64, environ: u64, qstr: u64, palhdl: u64)

  predicate KindsOk(kinds: Kinds)
  {
    && CP_FUNC_BASE <= kinds.arguments && CP_FUNC_BASE <= kinds.environ && CP_FUNC_BASE <= kinds.qstr
    && kinds.qstr != kinds.arguments && kinds.qstr != kinds.environ && kinds.arguments != kinds.environ
    && CP_FUNC_BASE <= kinds.palhdl && kinds.palhdl != kinds.arguments && kinds.palhdl != kinds.environ
    && kinds.palhdl != kinds.qstr
  }

  /** What an item stands for. */
  datatype Job =
    | Vec(v: seq<cstring>)
    | Overflow(host: nat, rel: nat, text: cstring)
    | Other

  /** Entry `k` and its payload are as the parent emitted them at address `base`. */
  ghost predicate Ready(items: seq<Item>, job: Job, k: nat, base: nat)
    requires k < |items|
  {
    match job
    case Vec(v) =>
      && 0 < k && items[k].Entry? && VectorItem(items, k - 1, base, v)
      && items[k].val == PayloadAt(items, k - 1)
    case Overflow(host, rel, text) =>
      && 0 < k && items[k].Entry? && QstrAt(items, host, rel, |text|) && TextItem(items, k - 1, text)
      && items[k].val == PayloadAt(items, host) + rel
    case Other => true
  }

  /** Entry `k` is restored for a checkpoint at address `base`: its vector is there, or its `oflow`
      pointer leads to its text. */
  ghost predicate Done(items: seq<Item>, job: Job, k: nat, base: nat)
    requires k < |items|
  {
    && Ready(items, job, k, base)
    && (job.Overflow? ==>
          WordAt(items[job.host].payload, job.rel + QSTR_OFLOW) == base + PayloadAt(items, k - 1))
  }

  /** Two jobs write to different places, and not to the text of one another. */
  ghost predicate JobsApart(a: Job, j: nat, b: Job, k: nat)
  {
    && (a.Vec? && b.Overflow? ==> b.host != j - 1)
    && (b.Vec? && a.Overflow? ==> a.host != k - 1)
    && (a.Overflow? && b.Overflow? ==>
          && a.host != k - 1 && b.host != j - 1
          && (a.host == b.host ==> a.rel + QSTR_BYTES <= b.rel || b.rel + QSTR_BYTES <= a.rel))
  }

  ghost predicate AllApart(jobs: seq<Job>)
  {
    && (forall j, k :: 0 <= j < |jobs| && 0 <= k < |jobs| && j != k ==> JobsApart(jobs[j], j, jobs[k], k))
    && (forall k :: 0 <= k < |jobs| && jobs[k].Overflow? ==> jobs[k].host != k - 1)
  }

  /** The job of an entry is the one its type asks for. */
  ghost predicate JobFits(item: Item, job: Job, kinds: Kinds)
  {
    if item.Oob? then job.Other?
    else if item.kind == kinds.arguments || item.kind == kinds.environ then job.Vec?
    else if item.kind == kinds.qstr then job.Overflow?
    else job.Other?
  }

  ghost predicate AllFit(items: seq<Item>, jobs: seq<Job>, kinds: Kinds)
  {
    |items| == |jobs| && forall k :: 0 <= k < |jobs| ==> JobFits(items[k], jobs[k], kinds)
  }

  ghost predicate Status(items: seq<Item>, jobs: seq<Job>, n: nat, from: nat, to: nat)
  {
    && |jobs| == |items|
    && (forall k :: 0 <= k < |jobs| && k < n ==> Done(items, jobs[k], k, to))
    && (forall k :: n <= k < |jobs| ==> Ready(items, jobs[k], k, from))
  }

  ghost predicate OflowByte(job: Job, k: nat, i: nat)
  {
    job.Overflow? && job.host == k && job.rel + QSTR_OFLOW <= i < job.rel + QSTR_OFLOW + 8
  }

  /** Byte `i` of item `k` belongs to a vector, or to an `oflow` pointer that is set. */
  ghost predicate Rewrites(jobs: seq<Job>, k: nat, i: nat)
  {
    (k + 1 < |jobs| && jobs[k + 1].Vec?) || exists n :: 0 <= n < |jobs| && OflowByte(jobs[n], k, i)
  }

  /** All that restoring may change in a checkpoint. */
  ghost function JobBytes(jobs: seq<Job>): iset<Place>
  {
    iset p: Place | Rewrites(jobs, p.0, p.1)
  }

  // ---------------------------------------------------------------- frames

  /** A job is not disturbed by a change to a payload that is not its own. */
  lemma Undisturbed(items: seq<Item>, items': seq<Item>, h: nat, job: Job, k: nat, base: nat)
    requires Only(items, items', h) && k < |items|
    requires (job.Vec? || job.Overflow?) ==> h != k - 1
    requires job.Overflow? ==> job.host != h
    ensures Ready(items, job, k, base) ==> Ready(items', job, k, base)
    ensures Done(items, job, k, base) ==> Done(items', job, k, base)
  {
    if !job.Other? && 0 < k && Ready(items, job, k, base) {
      OnlyOffsets(items, items', h, k - 1);
      if job.Overflow? { OnlyOffsets(items, items', h, job.host); }
    }
  }

  /** ... nor by a write next to its `shim_qstr`. */
  lemma UndisturbedHost(items: seq<Item>, h: nat, at: nat, w: seq<byte>, job: Job, k: nat, base: nat)
    requires h < |items| && items[h].Oob? && |w| == 8 && at + 8 <= |items[h].payload| && k < |items|
    requires job.Overflow? && job.host == h && h != k - 1
    requires at + 8 <= job.rel || job.rel + QSTR_BYTES <= at
    ensures Ready(items, job, k, base) ==> Ready(Poke(items, h, at, w), job, k, base)
    ensures Done(items, job, k, base) ==> Done(Poke(items, h, at, w), job, k, base)
  {
    var items' := Poke(items, h, at, w);
    if 0 < k && Ready(items, job, k, base) {
      OnlyOffsets(items, items', h, k - 1);
      OnlyOffsets(items, items', h, h);
      PutAway(items[h].payload, at, w, job.rel + QSTR_LEN, 8);
      PutAway(items[h].payload, at, w, job.rel + QSTR_OFLOW, 8);
    }
  }

  /** Restoring the vector of entry `n` leaves every other job as it was. */
  lemma VecStep(items: seq<Item>, items': seq<Item>, jobs: seq<Job>, n: nat, from: nat, to: nat)
    requires Status(items, jobs, n, from, to) && n < |jobs| && 0 < n && jobs[n].Vec? && AllApart(jobs)
    requires Only(items, items', n - 1) && VectorItem(items', n - 1, to, jobs[n].v)
    ensures Status(items', jobs, n + 1, from, to)
  {
    forall k | 0 <= k < |jobs|
      ensures k < n + 1 ==> Done(items', jobs[k], k, to)
      ensures n + 1 <= k ==> Ready(items', jobs[k], k, from)
    {
      if k == n {
        OnlyOffsets(items, items', n - 1, n - 1);
      } else {
        assert JobsApart(jobs[n], n, jobs[k], k);
        Undisturbed(items, items', n - 1, jobs[k], k, if k < n then to else from);
      }
    }
  }

  /** ... and so does setting the `oflow` pointer of entry `n`. */
  lemma OverflowStep(items: seq<Item>, jobs: seq<Job>, n: nat, from: nat, to: nat)
    requires Status(items, jobs, n, from, to) && n < |jobs| && 0 < n && jobs[n].Overflow? && AllApart(jobs)
    requires to + PayloadAt(items, n - 1) < WORD_MAX
    ensures jobs[n].host < |items| && items[jobs[n].host].Oob?
    ensures jobs[n].rel + QSTR_BYTES <= |items[jobs[n].host].payload|
    ensures Status(Poke(items, jobs[n].host, jobs[n].rel + QSTR_OFLOW, Bytes(to + PayloadAt(items, n - 1))),
                   jobs, n + 1, from, to)
  {
    var h, at, w := jobs[n].host, jobs[n].rel + QSTR_OFLOW, Bytes(to + PayloadAt(items, n - 1));
    assert Ready(items, jobs[n], n, from);
    var items' := Poke(items, h, at, w);
    assert jobs[n].host != n - 1;
    forall k | 0 <= k < |jobs|
      ensures k < n + 1 ==> Done(items', jobs[k], k, to)
      ensures n + 1 <= k ==> Ready(items', jobs[k], k, from)
    {
      if k == n {
        OverflowDone(items, jobs[n], n, from, to);
      } else {
        assert JobsApart(jobs[n], n, jobs[k], k);
        if jobs[k].Overflow? && jobs[k].host == h {
          UndisturbedHost(items, h, at, w, jobs[k], k, if k < n then to else from);
        } else {
          Undisturbed(items, items', h, jobs[k], k, if k < n then to else from);
        }
      }
    }
  }

  lemma OverflowDone(items: seq<Item>, job: Job, n: nat, from: nat, to: nat)
    requires n < |items| && 0 < n && job.Overflow? && Ready(items, job, n, from) && job.host != n - 1
    requires to + PayloadAt(items, n - 1) < WORD_MAX
    ensures Done(Poke(items, job.host, job.rel + QSTR_OFLOW, Bytes(to + PayloadAt(items, n - 1))), job, n, to)
  {
    var h, at, w := job.host, job.rel + QSTR_OFLOW, to + PayloadAt(items, n - 1);
    var items' := Poke(items, h, at, Bytes(w));
    OnlyOffsets(items, items', h, n - 1);
    OnlyOffsets(items, items', h, h);
    PutAway(items[h].payload, at, Bytes(w), job.rel + QSTR_LEN, 8);
    WordPut(items[h].payload, at, w);
  }

  // ---------------------------------------------------------------- the restoring walk

  /** `restore_checkpoint` on a checkpoint made at `from` and loaded at `blob.base`: every entry is
      restored, whatever the two addresses are. */
  method RestoreCheckpoint(blob: Blob, kinds: Kinds, from: u64, ghost jobs: seq<Job>)
    requires blob.Valid() && KindsOk(kinds) && from + |blob.mem| <= WORD_MAX
    requires Status(blob.items, jobs, 0, from, blob.base) && AllApart(jobs)
    requires AllFit(blob.items, jobs, kinds)
    modifies blob
    ensures blob.Valid() && Status(blob.items, jobs, |jobs|, from, blob.base)
    ensures |blob.mem| == old(|blob.mem|) && SameEntries(old(blob.items), blob.items)
    ensures Same(old(blob.items), blob.items, JobBytes(jobs))
    ensures Migrated(blob, kinds, |blob.items|)
  {
    blob.migratedArgv, blob.migratedEnvp := 0, 0;
    var rebase := Sub64(blob.base, from);
    var cpent, offset;
    ghost var n := 0;
    cpent, offset, n := NextRestored(blob, kinds, 0, from, jobs, 0);
    SameRefl(blob.items, JobBytes(jobs));
    while cpent.Found?
      invariant Same(old(blob.items), blob.items, JobBytes(jobs))
      invariant AtEntry(blob, kinds, from, jobs, n, cpent, offset)
      invariant |blob.mem| == old(|blob.mem|) && SameEntries(old(blob.items), blob.items)
      decreases |blob.items| - n
    {
      ghost var items := blob.items;
      cpent, offset, n := RestoreOne(blob, kinds, cpent, offset, rebase, from, jobs, n);
      SameTrans(old(blob.items), items, blob.items, JobBytes(jobs));
    }
  }

  /** The walk has come to item `n`, with all before it restored. */
  ghost predicate AtEntry(blob: Blob, kinds: Kinds, from: u64, jobs: seq<Job>, n: nat, cpent: Found, offset: nat)
    reads blob
  {
    && blob.Valid() && KindsOk(kinds) && from + |blob.mem| <= WORD_MAX && AllApart(jobs)
    && AllFit(blob.items, jobs, kinds) && n <= |jobs|
    && (cpent.Found? ==> Current(blob.items, n, cpent) && offset == Offset(blob.items, n + 1))
    && (cpent.Nothing? ==> n == |jobs|)
    && Status(blob.items, jobs, n, from, blob.base) && Migrated(blob, kinds, n)
  }

  /** One round of the loop. */
  method RestoreOne(blob: Blob, kinds: Kinds, cpent0: Found, offset0: nat, rebase: u64, ghost from: u64,
                    ghost jobs: seq<Job>, ghost n0: nat) returns (cpent: Found, offset: nat, ghost n: nat)
    requires AtEntry(blob, kinds, from, jobs, n0, cpent0, offset0) && cpent0.Found?
    requires rebase == Sub64(blob.base, from)
    modifies blob
    ensures AtEntry(blob, kinds, from, jobs, n, cpent, offset) && n0 < n
    ensures Same(old(blob.items), blob.items, JobBytes(jobs))
    ensures |blob.mem| == old(|blob.mem|) && SameEntries(old(blob.items), blob.items)
  {
    ghost var k := n0 + 1;
    RestoreEntry(blob, kinds, cpent0, rebase, from, jobs, n0, k);
    cpent, offset, n := NextRestored(blob, kinds, offset0, from, jobs, k);
  }

  /** `NEXT_CP_ENTRY` on the blob; the items passed over need no restoring. */
  method NextRestored(blob: Blob, ghost kinds: Kinds, off0: nat, ghost from: u64, ghost jobs: seq<Job>, ghost n0: nat)
    returns (cpent: Found, offset: nat, ghost n: nat)
    requires blob.Valid() && AllFit(blob.items, jobs, kinds) && n0 <= |jobs| && off0 == Offset(blob.items, n0)
    requires Status(blob.items, jobs, n0, from, blob.base) && Migrated(blob, kinds, n0)
    ensures n0 <= n <= |jobs| && Status(blob.items, jobs, n, from, blob.base)
    ensures cpent.Found? ==> Current(blob.items, n, cpent) && offset == Offset(blob.items, n + 1)
    ensures cpent.Nothing? ==> n == |jobs|
    ensures Migrated(blob, kinds, n)
  {
    ghost var k;
    cpent, offset, k := NextCpEntry(blob.mem, off0, blob.items, n0);
    n := if cpent.Found? then k - 1 else k;
    SkipOthers(blob.items, jobs, kinds, n0, n, from, blob.base);
    LastValSkip(blob.items, kinds.arguments, n0, n);
    LastValSkip(blob.items, kinds.environ, n0, n);
  }

  /** The migrated pointers are those of the last vectors among the first `n` items. */
  ghost predicate Migrated(blob: Blob, kinds: Kinds, n: nat)
    reads blob
  {
    && n <= |blob.items|
    && blob.migratedArgv == LastVal(blob.items, kinds.arguments, n)
    && blob.migratedEnvp == LastVal(blob.items, kinds.environ, n)
  }

  /** `cpent` is what the walk found at item `n`. */
  ghost predicate Current(items: seq<Item>, n: nat, cpent: Found)
  {
    && n < |items| && items[n].Entry?
    && cpent == Found(Offset(items, n), items[n].kind, items[n].val)
  }

  /** The entries, though not the payloads, are the same. */
  ghost predicate SameEntries(items: seq<Item>, items': seq<Item>)
  {
    && |items'| == |items|
    && forall k :: 0 <= k < |items| ==>
         items[k].Entry? == items'[k].Entry? && (items[k].Entry? ==> items'[k] == items[k])
  }

  /** The value of the last of the first `n` items that is an entry of that kind, or 0. */
  function LastVal(items: seq<Item>, kind: u64, n: nat): nat
    requires n <= |items|
  {
    if n == 0 then 0
    else if items[n - 1].Entry? && items[n - 1].kind == kind then items[n - 1].val
    else LastVal(items, kind, n - 1)
  }

  lemma {:induction false} LastValSame(items: seq<Item>, items': seq<Item>, kind: u64, n: nat)
    requires SameEntries(items, items') && n <= |items|
    ensures LastVal(items', kind, n) == LastVal(items, kind, n)
  {
    if n > 0 { LastValSame(items, items', kind, n - 1); }
  }

  lemma {:induction false} LastValSkip(items: seq<Item>, kind: u64, n: nat, n': nat)
    requires n <= n' <= |items| && forall k :: n <= k < n' && items[k].Entry? ==> items[k].kind != kind
    ensures LastVal(items, kind, n') == LastVal(items, kind, n)
  {
    if n < n' { LastValSkip(items, kind, n, n' - 1); }
  }

  /** Calls the restore function that the entry's type stands for. */
  method RestoreEntry(blob: Blob, kinds: Kinds, cpent: Found, rebase: u64, ghost from: u64, ghost jobs: seq<Job>,
                      ghost n: nat, ghost k: nat)
    requires blob.Valid() && KindsOk(kinds) && from + |blob.mem| <= WORD_MAX
    requires rebase == Sub64(blob.base, from) && k == n + 1
    requires Current(blob.items, n, cpent) && Status(blob.items, jobs, n, from, blob.base) && AllApart(jobs)
    requires AllFit(blob.items, jobs, kinds) && Migrated(blob, kinds, n)
    modifies blob
    ensures blob.Valid() && |blob.mem| == old(|blob.mem|) && |blob.items| == old(|blob.items|)
    ensures Status(blob.items, jobs, k, from, blob.base)
    ensures AllFit(blob.items, jobs, kinds)
    ensures Offset(blob.items, n + 1) == old(Offset(blob.items, n + 1))
    ensures SameEntries(old(blob.items), blob.items) && Same(old(blob.items), blob.items, JobBytes(jobs))
    ensures Migrated(blob, kinds, k)
  {
    ghost var items := blob.items;
    SameRefl(items, JobBytes(jobs));
    assert Ready(blob.items, jobs[n], n, from) && JobFits(blob.items[n], jobs[n], kinds);
    if cpent.kind < CP_FUNC_BASE {
      SkipOne(blob.items, jobs, n, from, blob.base);
    } else if cpent.kind == kinds.arguments {
      RestoreVec(blob, kinds, cpent, rebase, from, jobs, n);
      blob.migratedArgv := cpent.val;
    } else if cpent.kind == kinds.environ {
      RestoreVec(blob, kinds, cpent, rebase, from, jobs, n);
      blob.migratedEnvp := cpent.val;
    } else if cpent.kind == kinds.qstr {
      RestoreText(blob, cpent, from, jobs[n], n);
      TextRestored(items, blob.items, jobs, kinds, n, from, blob.base);
      OflowSame(items, jobs, n, blob.base);
    } else {
      SkipOne(blob.items, jobs, n, from, blob.base);
    }
    LastValSame(items, blob.items, kinds.arguments, n);
    LastValSame(items, blob.items, kinds.environ, n);
  }

  lemma SkipOne(items: seq<Item>, jobs: seq<Job>, n: nat, from: nat, to: nat)
    requires Status(items, jobs, n, from, to) && n < |jobs| && jobs[n].Other?
    ensures Status(items, jobs, n + 1, from, to)
  {
  }

  method RestoreVec(blob: Blob, ghost kinds: Kinds, cpent: Found, rebase: u64, ghost from: u64, ghost jobs: seq<Job>,
                    ghost n: nat)
    requires blob.Valid() && from + |blob.mem| <= WORD_MAX && rebase == Sub64(blob.base, from)
    requires Current(blob.items, n, cpent) && Status(blob.items, jobs, n, from, blob.base) && AllApart(jobs)
    requires AllFit(blob.items, jobs, kinds)
    requires jobs[n].Vec?
    modifies blob`mem, blob`items
    ensures blob.Valid() && |blob.mem| == old(|blob.mem|) && |blob.items| == old(|blob.items|)
    ensures Status(blob.items, jobs, n + 1, from, blob.base)
    ensures AllFit(blob.items, jobs, kinds)
    ensures Offset(blob.items, n + 1) == old(Offset(blob.items, n + 1))
    ensures SameEntries(old(blob.items), blob.items) && Same(old(blob.items), blob.items, JobBytes(jobs))
  {
    ghost var items := blob.items;
    assert Ready(items, jobs[n], n, from);
    blob.RsVector(cpent.val, rebase, n - 1, from, jobs[n].v);
    OnlySame(items, blob.items, n - 1, JobBytes(jobs));
    VecStep(items, blob.items, jobs, n, from, blob.base);
    ReplacedFit(items, blob.items, n - 1, jobs, kinds, n);
  }

  method RestoreText(blob: Blob, cpent: Found, ghost from: u64, ghost job: Job, ghost n: nat)
    requires blob.Valid() && Current(blob.items, n, cpent) && job.Overflow? && Ready(blob.items, job, n, from)
    modifies blob`mem, blob`items
    ensures blob.Valid() && |blob.mem| == old(|blob.mem|)
    ensures old(blob.base + PayloadAt(blob.items, n - 1)) < WORD_MAX
    ensures blob.items == PointToText(old(blob.items), job, n, blob.base)
  {
    blob.TextStart(n - 1, job.text);
    blob.RsQstr(cpent.off, cpent.val, job.host, job.rel, n - 1, job.text);
  }

  /** The items once the `oflow` pointer of entry `n` is set. */
  function PointToText(items: seq<Item>, job: Job, n: nat, base: nat): seq<Item>
    requires 0 < n < |items| && job.Overflow? && base + PayloadAt(items, n - 1) < WORD_MAX
    requires job.host < |items| && items[job.host].Oob? && job.rel + QSTR_BYTES <= |items[job.host].payload|
  {
    Poke(items, job.host, job.rel + QSTR_OFLOW, Bytes(base + PayloadAt(items, n - 1)))
  }

  lemma OflowSame(items: seq<Item>, jobs: seq<Job>, n: nat, base: nat)
    requires 0 < n < |jobs| && n < |items| && jobs[n].Overflow? && base + PayloadAt(items, n - 1) < WORD_MAX
    requires QstrAt(items, jobs[n].host, jobs[n].rel, |jobs[n].text|)
    ensures Same(items, PointToText(items, jobs[n], n, base), JobBytes(jobs))
  {
    var h, at, w := jobs[n].host, jobs[n].rel + QSTR_OFLOW, base + PayloadAt(items, n - 1);
    PokeWord(items, h, at, w);
    forall i: nat | at <= i < at + 8 ensures (h, i) in JobBytes(jobs) {
      assert OflowByte(jobs[n], h, i);
    }
    WordSame(items, PointToText(items, jobs[n], n, base), h, at, w, JobBytes(jobs));
  }

  lemma TextRestored(items: seq<Item>, items': seq<Item>, jobs: seq<Job>, kinds: Kinds, n: nat, from: nat, to: nat)
    requires Status(items, jobs, n, from, to) && n < |jobs| && 0 < n && jobs[n].Overflow? && AllApart(jobs)
    requires AllFit(items, jobs, kinds) && to + PayloadAt(items, n - 1) < WORD_MAX
    requires QstrAt(items, jobs[n].host, jobs[n].rel, |jobs[n].text|)
    requires items' == PointToText(items, jobs[n], n, to)
    ensures Status(items', jobs, n + 1, from, to) && AllFit(items', jobs, kinds)
    ensures Offset(items', n + 1) == Offset(items, n + 1) && SameEntries(items, items')
  {
    OverflowStep(items, jobs, n, from, to);
    ReplacedFit(items, items', jobs[n].host, jobs, kinds, n);
  }

  lemma ReplacedFit(items: seq<Item>, items': seq<Item>, h: nat, jobs: seq<Job>, kinds: Kinds, n: nat)
    requires Only(items, items', h) && AllFit(items, jobs, kinds) && n < |items|
    ensures SameEntries(items, items')
    ensures AllFit(items', jobs, kinds) && Offset(items', n + 1) == Offset(items, n + 1)
  {
    SameOffsets(items, items', n + 1);
    forall k | 0 <= k < |jobs| ensures JobFits(items'[k], jobs[k], kinds) {
      assert JobFits(items[k], jobs[k], kinds);
    }
  }

  lemma SkipOthers(items: seq<Item>, jobs: seq<Job>, kinds: Kinds, n: nat, n': nat, from: nat, to: nat)
    requires Status(items, jobs, n, from, to) && n <= n' <= |items|
    requires AllFit(items, jobs, kinds)
    requires forall k :: n <= k < n' ==> items[k].Oob?
    ensures Status(items, jobs, n', from, to)
  {
    forall k | n <= k < n' ensures Done(items, jobs[k], k, to) {
      assert JobFits(items[k], jobs[k], kinds);
    }
  }
}
