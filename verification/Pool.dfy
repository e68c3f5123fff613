/** The two-ended pool of Pal/src/slab.c: blocks are taken alternately from the low and the high end,
    and the last block of an end is reclaimed when it is freed. */
module Pool {

  /** A block of one end. A block that was freed but not reclaimed is not live. */
  datatype Block = Block(addr: nat, size: nat, live: bool)

  /** The blocks of both ends in order of allocation. */
  datatype State = State(lows: seq<Block>, highs: seq<Block>, fromLow: bool)

  function Total(q: seq<Block>, n: nat): nat
    requires n <= |q|
  {
    if n == 0 then 0 else Total(q, n - 1) + q[n - 1].size
  }

  lemma {:induction false} TotalMonotone(q: seq<Block>, i: nat, n: nat)
    requires i < n <= |q|
    ensures Total(q, i) + q[i].size <= Total(q, n)
  {
    if i < n - 1 { TotalMonotone(q, i, n - 1); }
  }

  lemma {:induction false} TotalSame(q: seq<Block>, q': seq<Block>, n: nat)
    requires n <= |q| && n <= |q'| && forall i :: 0 <= i < n ==> q[i].size == q'[i].size
    ensures Total(q, n) == Total(q', n)
  {
    if n > 0 { TotalSame(q, q', n - 1); }
  }

  ghost predicate LowAt(q: seq<Block>, i: nat)
    requires i < |q|
  {
    q[i].size > 0 && q[i].addr == Total(q, i)
  }

  ghost predicate HighAt(q: seq<Block>, end: nat, i: nat)
    requires i < |q|
  {
    q[i].size > 0 && q[i].addr == end - Total(q, i + 1)
  }

  function Low(s: State): nat
  {
    Total(s.lows, |s.lows|)
  }

  function High(s: State, end: nat): int
  {
    end - Total(s.highs, |s.highs|)
  }

  /** Blocks of an end are adjacent, and the ends do not meet. */
  ghost predicate Valid(s: State, end: nat)
  {
    && (forall i :: 0 <= i < |s.lows| ==> LowAt(s.lows, i))
    && (forall i :: 0 <= i < |s.highs| ==> HighAt(s.highs, end, i))
    && Low(s) <= High(s, end)
  }

  // ---------------------------------------------------------------- operations

  /** Allocation of `size` bytes, or freeing block `i` of one end. */
  datatype Op = Malloc(size: nat) | FreeLow(i: nat) | FreeHigh(i: nat)

  predicate Enabled(s: State, op: Op)
  {
    match op
    case Malloc(size) => size > 0
    case FreeLow(i) => i < |s.lows| && s.lows[i].live
    case FreeHigh(i) => i < |s.highs| && s.highs[i].live
  }

  function Freed(q: seq<Block>, i: nat): seq<Block>
    requires i < |q|
  {
    if i == |q| - 1 then q[..i] else q[i := q[i].(live := false)]
  }

  function Apply(s: State, end: nat, op: Op): State
    requires Valid(s, end) && Enabled(s, op)
  {
    match op
    case Malloc(size) =>
      if Low(s) + size > High(s, end) then s
      else if s.fromLow then s.(lows := s.lows + [Block(Low(s), size, true)], fromLow := false)
      else s.(highs := s.highs + [Block(High(s, end) - size, size, true)], fromLow := true)
    case FreeLow(i) => s.(lows := Freed(s.lows, i))
    case FreeHigh(i) => s.(highs := Freed(s.highs, i))
  }

  lemma LowPushed(q: seq<Block>, b: Block)
    requires (forall i :: 0 <= i < |q| ==> LowAt(q, i)) && b.size > 0 && b.addr == Total(q, |q|)
    ensures forall i :: 0 <= i < |q + [b]| ==> LowAt(q + [b], i)
    ensures Total(q + [b], |q| + 1) == Total(q, |q|) + b.size
  {
    TotalSame(q, q + [b], |q|);
    forall i | 0 <= i < |q + [b]| ensures LowAt(q + [b], i) {
      TotalSame(q, q + [b], i);
      if i < |q| { assert LowAt(q, i); }
    }
  }

  lemma HighPushed(q: seq<Block>, end: nat, b: Block)
    requires (forall i :: 0 <= i < |q| ==> HighAt(q, end, i)) && b.size > 0 && b.addr == end - Total(q, |q|) - b.size
    ensures forall i :: 0 <= i < |q + [b]| ==> HighAt(q + [b], end, i)
    ensures Total(q + [b], |q| + 1) == Total(q, |q|) + b.size
  {
    TotalSame(q, q + [b], |q|);
    forall i | 0 <= i < |q + [b]| ensures HighAt(q + [b], end, i) {
      if i < |q| {
        TotalSame(q, q + [b], i + 1);
        assert HighAt(q, end, i);
      }
    }
  }

  lemma FreedSizes(q: seq<Block>, i: nat, n: nat)
    requires i < |q| && n <= |Freed(q, i)|
    ensures Total(Freed(q, i), n) == Total(q, n)
  {
    TotalSame(q, Freed(q, i), n);
  }

  lemma LowFreed(q: seq<Block>, i: nat)
    requires i < |q| && forall j :: 0 <= j < |q| ==> LowAt(q, j)
    ensures forall j :: 0 <= j < |Freed(q, i)| ==> LowAt(Freed(q, i), j)
    ensures Total(Freed(q, i), |Freed(q, i)|) == if i == |q| - 1 then q[i].addr else Total(q, |q|)
  {
    var q' := Freed(q, i);
    assert LowAt(q, i);
    FreedSizes(q, i, |q'|);
    forall j | 0 <= j < |q'| ensures LowAt(q', j) {
      assert LowAt(q, j);
      FreedSizes(q, i, j);
    }
  }

  lemma HighFreed(q: seq<Block>, end: nat, i: nat)
    requires i < |q| && forall j :: 0 <= j < |q| ==> HighAt(q, end, j)
    ensures forall j :: 0 <= j < |Freed(q, i)| ==> HighAt(Freed(q, i), end, j)
    ensures end - Total(Freed(q, i), |Freed(q, i)|) == if i == |q| - 1 then q[i].addr + q[i].size else end - Total(q, |q|)
  {
    var q' := Freed(q, i);
    assert HighAt(q, end, i);
    FreedSizes(q, i, |q'|);
    forall j | 0 <= j < |q'| ensures HighAt(q', end, j) {
      assert HighAt(q, end, j);
      FreedSizes(q, i, j + 1);
    }
  }

  lemma StepValid(s: State, end: nat, op: Op)
    requires Valid(s, end) && Enabled(s, op)
    ensures Valid(Apply(s, end, op), end)
  {
    match op
    case Malloc(size) =>
      if Low(s) + size <= High(s, end) {
        if s.fromLow {
          LowPushed(s.lows, Block(Low(s), size, true));
        } else {
          HighPushed(s.highs, end, Block(High(s, end) - size, size, true));
        }
      }
    case FreeLow(i) =>
      LowFreed(s.lows, i);
      FreedBound(s.lows, i);
    case FreeHigh(i) =>
      HighFreed(s.highs, end, i);
      FreedBound(s.highs, i);
  }

  lemma FreedBound(q: seq<Block>, i: nat)
    requires i < |q|
    ensures Total(Freed(q, i), |Freed(q, i)|) <= Total(q, |q|)
  {
    FreedSizes(q, i, |Freed(q, i)|);
  }

  // ---------------------------------------------------------------- disjointness

  predicate Disjoint(b: Block, c: Block)
  {
    b.addr + b.size <= c.addr || c.addr + c.size <= b.addr
  }

  /** Any two blocks are disjoint; low ones lie below the low mark, high ones above the high mark. */
  lemma LowsDisjoint(s: State, end: nat, i: nat, j: nat)
    requires Valid(s, end) && i < j < |s.lows|
    ensures Disjoint(s.lows[i], s.lows[j])
  {
    assert LowAt(s.lows, i) && LowAt(s.lows, j);
    TotalMonotone(s.lows, i, j);
  }

  lemma HighsDisjoint(s: State, end: nat, i: nat, j: nat)
    requires Valid(s, end) && i < j < |s.highs|
    ensures Disjoint(s.highs[i], s.highs[j])
  {
    assert HighAt(s.highs, end, i) && HighAt(s.highs, end, j);
    if i + 1 < j { TotalMonotone(s.highs, i + 1, j); }
  }

  lemma LowInside(s: State, end: nat, i: nat)
    requires Valid(s, end) && i < |s.lows|
    ensures s.lows[i].addr + s.lows[i].size <= Low(s) <= High(s, end) <= end
  {
    assert LowAt(s.lows, i);
    TotalMonotone(s.lows, i, |s.lows|);
  }

  lemma HighInside(s: State, end: nat, i: nat)
    requires Valid(s, end) && i < |s.highs|
    ensures Low(s) <= High(s, end) <= s.highs[i].addr && s.highs[i].addr + s.highs[i].size <= end
  {
    assert HighAt(s.highs, end, i);
    if i + 1 < |s.highs| { TotalMonotone(s.highs, i + 1, |s.highs|); }
  }

  // ---------------------------------------------------------------- the allocator

  /** `g_low`, `g_high` and `g_alloc_from_low`, as offsets into a pool of `end` bytes. */
  class Allocator {
    const end: nat
    var low: nat
    var high: nat
    var fromLow: bool
    ghost var state: State

    ghost predicate Ok()
      reads this
    {
      && Valid(state, end) && low == Low(state) && high == High(state, end) && fromLow == state.fromLow
    }

    constructor (end: nat)
      ensures Ok() && this.end == end && state == State([], [], true)
    {
      this.end := end;
      low, high, fromLow := 0, end, true;
      state := State([], [], true);
    }

    /** `__malloc`; without space the caller falls back to other memory. */
    method Malloc(size: nat) returns (found: bool, addr: nat)
      requires Ok() && size > 0
      modifies this
      ensures Ok() && state == Apply(old(state), end, Op.Malloc(size))
      ensures found == (old(low) + size <= old(high))
      ensures found && old(fromLow) ==> state.lows == old(state.lows) + [Block(addr, size, true)]
      ensures found && !old(fromLow) ==> state.highs == old(state.highs) + [Block(addr, size, true)]
      ensures fromLow == if found then !old(fromLow) else old(fromLow)
      ensures !found ==> state == old(state)
    {
      found, addr := false, 0;
      StepValid(state, end, Op.Malloc(size));
      if low + size <= high {
        if fromLow {
          LowPushed(state.lows, Block(low, size, true));
          addr, low := low, low + size;
        } else {
          HighPushed(state.highs, end, Block(high - size, size, true));
          addr, high := high - size, high - size;
        }
        found, fromLow := true, !fromLow;
      }
      state := Apply(state, end, Op.Malloc(size));
    }

    /** `__free` of a live block of the pool: it is told by its address which end it belongs to, and
        whether it is the last one there. */
    method Free(addr: nat, size: nat, ghost op: Op)
      requires Ok() && Enabled(state, op) && !op.Malloc?
      requires op.FreeLow? ==> state.lows[op.i] == Block(addr, size, true)
      requires op.FreeHigh? ==> state.highs[op.i] == Block(addr, size, true)
      modifies this
      ensures Ok() && state == Apply(old(state), end, op)
    {
      StepValid(state, end, op);
      if op.FreeLow? {
        LowIsLast(state, end, op.i);
        LowFreed(state.lows, op.i);
      } else {
        HighIsLast(state, end, op.i);
        HighFreed(state.highs, end, op.i);
      }
      if addr == high {
        high := addr + size;
      } else if addr + size == low {
        low := addr;
      }
      state := Apply(state, end, op);
    }
  }

  lemma LowIsLast(s: State, end: nat, i: nat)
    requires Valid(s, end) && i < |s.lows|
    ensures s.lows[i].addr != High(s, end)
    ensures s.lows[i].addr + s.lows[i].size == Low(s) <==> i == |s.lows| - 1
  {
    LowInside(s, end, i);
    assert LowAt(s.lows, i);
    if i < |s.lows| - 1 {
      assert LowAt(s.lows, |s.lows| - 1);
      TotalMonotone(s.lows, i, |s.lows| - 1);
    }
  }

  lemma HighIsLast(s: State, end: nat, i: nat)
    requires Valid(s, end) && i < |s.highs|
    ensures s.highs[i].addr + s.highs[i].size != Low(s)
    ensures s.highs[i].addr == High(s, end) <==> i == |s.highs| - 1
  {
    HighInside(s, end, i);
    assert HighAt(s.highs, end, i);
    if i < |s.highs| - 1 {
      assert HighAt(s.highs, end, |s.highs| - 1);
      if i + 1 < |s.highs| - 1 { TotalMonotone(s.highs, i + 1, |s.highs| - 1); }
    }
  }

  // ---------------------------------------------------------------- runs

  ghost predicate Legal(s: State, end: nat, run: seq<Op>)
    requires Valid(s, end)
    decreases |run|
  {
    run == [] || (Enabled(s, run[0]) && (StepValid(s, end, run[0]); Legal(Apply(s, end, run[0]), end, run[1..])))
  }

  ghost function After(s: State, end: nat, run: seq<Op>): State
    requires Valid(s, end) && Legal(s, end, run)
    decreases |run|
  {
    if run == [] then s else StepValid(s, end, run[0]); After(Apply(s, end, run[0]), end, run[1..])
  }

  // ---------------------------------------------------------------- the ends take turns

  datatype End = LowEnd | HighEnd

  /** The end at which a step adds a block, if it does. */
  function Grown(s: State, s': State): seq<End>
  {
    (if |s.lows| < |s'.lows| then [LowEnd] else []) + (if |s.highs| < |s'.highs| then [HighEnd] else [])
  }

  /** The ends of the successful allocations of a run, in order. */
  ghost function Taken(s: State, end: nat, run: seq<Op>): seq<End>
    requires Valid(s, end) && Legal(s, end, run)
    decreases |run|
  {
    if run == [] then [] else
      StepValid(s, end, run[0]);
      Grown(s, Apply(s, end, run[0])) + Taken(Apply(s, end, run[0]), end, run[1..])
  }

  /** From `first` on, the two ends take turns. */
  ghost predicate InTurn(taken: seq<End>, first: End)
  {
    forall i :: 0 <= i < |taken| ==> (taken[i] == first <==> i % 2 == 0)
  }

  lemma InTurnNext(x: End, y: End, taken: seq<End>)
    requires x != y && InTurn(taken, y)
    ensures InTurn([x] + taken, x)
  {
    forall i | 0 <= i < |[x] + taken| ensures ([x] + taken)[i] == x <==> i % 2 == 0 {
      if i > 0 { assert taken[i - 1] == y <==> (i - 1) % 2 == 0; }
    }
  }

  /** An allocation adds a block exactly if the space between the marks suffices; nothing else does. */
  lemma GrownIff(s: State, end: nat, op: Op)
    requires Valid(s, end) && Enabled(s, op)
    ensures Grown(s, Apply(s, end, op)) != [] <==> op.Malloc? && op.size <= High(s, end) - Low(s)
    ensures |Grown(s, Apply(s, end, op))| <= 1
  {
  }

  lemma {:induction false} TurnsFrom(s: State, end: nat, run: seq<Op>)
    requires Valid(s, end) && Legal(s, end, run)
    ensures InTurn(Taken(s, end, run), if s.fromLow then LowEnd else HighEnd)
    decreases |run|
  {
    if run != [] {
      StepValid(s, end, run[0]);
      var s' := Apply(s, end, run[0]);
      TurnsFrom(s', end, run[1..]);
      GrownIff(s, end, run[0]);
      if Grown(s, s') == [] {
        assert Taken(s, end, run) == Taken(s', end, run[1..]);
      } else {
        InTurnNext(Grown(s, s')[0], if s'.fromLow then LowEnd else HighEnd, Taken(s', end, run[1..]));
      }
    }
  }

  lemma {:induction false} TurnCount(taken: seq<End>, first: End, second: End)
    requires first != second && InTurn(taken, first)
    ensures multiset(taken)[first] == (|taken| + 1) / 2 && multiset(taken)[second] == |taken| / 2
  {
    if taken != [] {
      var n := |taken| - 1;
      TurnCount(taken[..n], first, second);
      assert taken == taken[..n] + [taken[n]];
    }
  }

  /** In every run from the empty pool, with frees and failed allocations anywhere in it, the successful
      allocations go in turn to the low and the high end, the first to the low one. So of `n` of
      them half are at each end, and the odd one at the low end. */
  lemma EndsAlternate(end: nat, run: seq<Op>)
    requires Legal(State([], [], true), end, run)
    ensures var taken := Taken(State([], [], true), end, run);
      var n := |taken|;
      && (forall i :: 0 <= i < n ==> (taken[i] == LowEnd <==> i % 2 == 0))
      && multiset(taken)[LowEnd] == (n + 1) / 2 && multiset(taken)[HighEnd] == n / 2
  {
    var taken := Taken(State([], [], true), end, run);
    TurnsFrom(State([], [], true), end, run);
    TurnCount(taken, LowEnd, HighEnd);
  }

  /** Two allocations that succeed, and then the first block is freed: its space is given back, whichever
      end it was at, although it was not the last one allocated. */
  lemma FirstOfTwoReclaimed(s: State, end: nat, m: nat, n: nat)
    requires Valid(s, end) && 0 < m && 0 < n && m + n <= High(s, end) - Low(s)
    ensures
      var s1 := (StepValid(s, end, Op.Malloc(m)); Apply(s, end, Op.Malloc(m)));
      var s2 := (StepValid(s1, end, Op.Malloc(n)); Apply(s1, end, Op.Malloc(n)));
      var free := if s.fromLow then FreeLow(|s.lows|) else FreeHigh(|s.highs|);
      && Enabled(s2, free)
      && var s3 := Apply(s2, end, free);
         && (s.fromLow ==> Low(s3) == Low(s) && High(s3, end) == High(s, end) - n)
         && (!s.fromLow ==> High(s3, end) == High(s, end) && Low(s3) == Low(s) + n)
  {
    var s1 := (StepValid(s, end, Op.Malloc(m)); Apply(s, end, Op.Malloc(m)));
    MallocMarks(s, end, m);
    MallocMarks(s1, end, n);
    StepValid(s1, end, Op.Malloc(n));
    var s2 := Apply(s1, end, Op.Malloc(n));
    if s.fromLow {
      assert Freed(s2.lows, |s.lows|) == s.lows;
    } else {
      assert Freed(s2.highs, |s.highs|) == s.highs;
    }
  }

  /** An allocation that fits moves the mark of one end by its size. */
  lemma MallocMarks(s: State, end: nat, size: nat)
    requires Valid(s, end) && 0 < size <= High(s, end) - Low(s)
    ensures var s' := Apply(s, end, Op.Malloc(size));
      if s.fromLow then Low(s') == Low(s) + size && s'.highs == s.highs
      else High(s', end) == High(s, end) - size && s'.lows == s.lows
  {
    if s.fromLow {
      LowPushed(s.lows, Block(Low(s), size, true));
    } else {
      HighPushed(s.highs, end, Block(High(s, end) - size, size, true));
    }
  }

  // ---------------------------------------------------------------- recovery

  /** Every free takes the last block of its end. */
  ghost predicate Lifo(s: State, end: nat, run: seq<Op>)
    requires Valid(s, end) && Legal(s, end, run)
    decreases |run|
  {
    run != [] ==>
      && (run[0].FreeLow? ==> run[0].i == |s.lows| - 1) && (run[0].FreeHigh? ==> run[0].i == |s.highs| - 1)
      && (StepValid(s, end, run[0]); Lifo(Apply(s, end, run[0]), end, run[1..]))
  }

  predicate AllLive(q: seq<Block>)
  {
    forall i :: 0 <= i < |q| ==> q[i].live
  }

  /** A block that was freed out of order stays in the way for good. */
  lemma DeadStays(s: State, end: nat, op: Op)
    requires Valid(s, end) && Enabled(s, op)
    ensures !AllLive(s.lows) ==> !AllLive(Apply(s, end, op).lows)
    ensures !AllLive(s.highs) ==> !AllLive(Apply(s, end, op).highs)
  {
    var s' := Apply(s, end, op);
    if !AllLive(s.lows) {
      var i :| 0 <= i < |s.lows| && !s.lows[i].live;
      assert i < |s'.lows| && !s'.lows[i].live;
    }
    if !AllLive(s.highs) {
      var i :| 0 <= i < |s.highs| && !s.highs[i].live;
      assert i < |s'.highs| && !s'.highs[i].live;
    }
  }

  lemma FreedLive(q: seq<Block>, i: nat)
    requires i < |q| && AllLive(q)
    ensures AllLive(Freed(q, i)) <==> i == |q| - 1
  {
    if i < |q| - 1 { assert !Freed(q, i)[i].live; }
  }

  lemma {:induction false} LifoLeavesNoHoles(s: State, end: nat, run: seq<Op>)
    requires Valid(s, end) && Legal(s, end, run)
    ensures AllLive(After(s, end, run).lows) && AllLive(After(s, end, run).highs)
      <==> AllLive(s.lows) && AllLive(s.highs) && Lifo(s, end, run)
    decreases |run|
  {
    if run != [] {
      var op := run[0];
      StepValid(s, end, op);
      DeadStays(s, end, op);
      if AllLive(s.lows) && AllLive(s.highs) {
        if op.FreeLow? { FreedLive(s.lows, op.i); }
        if op.FreeHigh? { FreedLive(s.highs, op.i); }
      }
      LifoLeavesNoHoles(Apply(s, end, op), end, run[1..]);
    }
  }

  lemma RecoveredIff(s: State, end: nat)
    requires Valid(s, end)
    ensures Low(s) == 0 && High(s, end) == end <==> s.lows == [] && s.highs == []
  {
    if s.lows != [] {
      assert LowAt(s.lows, 0);
      TotalMonotone(s.lows, 0, |s.lows|);
    }
    if s.highs != [] {
      assert HighAt(s.highs, end, 0);
      TotalMonotone(s.highs, 0, |s.highs|);
    }
  }

  /** A run from the empty pool that ends with nothing live gives the whole pool back if and only if
      each end was freed in reverse order of allocation. */
  lemma Recovery(end: nat, run: seq<Op>)
    requires Legal(State([], [], true), end, run)
    requires var s := After(State([], [], true), end, run);
      (forall i :: 0 <= i < |s.lows| ==> !s.lows[i].live) && (forall i :: 0 <= i < |s.highs| ==> !s.highs[i].live)
    ensures var s := After(State([], [], true), end, run);
      Low(s) == 0 && High(s, end) == end <==> Lifo(State([], [], true), end, run)
  {
    var s0 := State([], [], true);
    var s := After(s0, end, run);
    LifoLeavesNoHoles(s0, end, run);
    AfterValid(s0, end, run);
    RecoveredIff(s, end);
    if s.lows != [] { assert !s.lows[0].live; }
    if s.highs != [] { assert !s.highs[0].live; }
  }

  lemma {:induction false} AfterValid(s: State, end: nat, run: seq<Op>)
    requires Valid(s, end) && Legal(s, end, run)
    ensures Valid(After(s, end, run), end)
    decreases |run|
  {
    if run != [] {
      StepValid(s, end, run[0]);
      AfterValid(Apply(s, end, run[0]), end, run[1..]);
    }
  }

  /** After every run the ends do not meet, low blocks lie below the low mark and high ones above the
      high mark, and all blocks are pairwise disjoint. */
  lemma RunSplits(end: nat, run: seq<Op>)
    requires Legal(State([], [], true), end, run)
    ensures var s := After(State([], [], true), end, run);
      && Low(s) <= High(s, end)
      && (forall i :: 0 <= i < |s.lows| ==> s.lows[i].addr + s.lows[i].size <= Low(s))
      && (forall i :: 0 <= i < |s.highs| ==> High(s, end) <= s.highs[i].addr && s.highs[i].addr + s.highs[i].size <= end)
      && (forall i, j :: 0 <= i < j < |s.lows| ==> Disjoint(s.lows[i], s.lows[j]))
      && (forall i, j :: 0 <= i < j < |s.highs| ==> Disjoint(s.highs[i], s.highs[j]))
      && (forall i, j :: 0 <= i < |s.lows| && 0 <= j < |s.highs| ==> Disjoint(s.lows[i], s.highs[j]))
  {
    var s := After(State([], [], true), end, run);
    AfterValid(State([], [], true), end, run);
    forall i | 0 <= i < |s.lows| ensures s.lows[i].addr + s.lows[i].size <= Low(s) {
      LowInside(s, end, i);
    }
    forall i | 0 <= i < |s.highs| ensures High(s, end) <= s.highs[i].addr && s.highs[i].addr + s.highs[i].size <= end {
      HighInside(s, end, i);
    }
    forall i, j | 0 <= i < j < |s.lows| ensures Disjoint(s.lows[i], s.lows[j]) {
      LowsDisjoint(s, end, i, j);
    }
    forall i, j | 0 <= i < j < |s.highs| ensures Disjoint(s.highs[i], s.highs[j]) {
      HighsDisjoint(s, end, i, j);
    }
  }
}
