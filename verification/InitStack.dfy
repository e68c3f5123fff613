/** `populate_stack` of LibOS/shim/src/shim_init.c: the initial stack is filled from both ends, then
    its low part is moved up against the strings. */
module InitStack {
  import opened Words
  import opened CStrings

  const ENOMEM := 12

  /** Eight auxiliary vectors of 16 bytes, and 16 bytes more. */
  const AUXV_BYTES := 8 * 16 + 16

  // ---------------------------------------------------------------- memory operations

  /** `memcpy` from elsewhere. */
  method Copy(a: array<byte>, off: nat, b: seq<byte>)
    requires off + |b| <= a.Length
    modifies a
    ensures a[..] == Put(old(a[..]), off, b)
  {
    for i := 0 to |b|
      invariant forall j :: 0 <= j < a.Length ==>
        a[j] == if off <= j < off + i then b[j - off] else old(a[j])
    {
      a[off + i] := b[i];
    }
    PutBytes(old(a[..]), off, b);
  }

  /** `memmove` to a higher address, from the last byte on. */
  method MoveUp(a: array<byte>, dst: nat, n: nat)
    requires dst + n <= a.Length
    modifies a
    ensures a[..] == Put(old(a[..]), dst, old(a[..n]))
  {
    var i := n;
    while i > 0
      invariant 0 <= i <= n
      invariant forall j :: 0 <= j < a.Length ==>
        a[j] == if dst + i <= j < dst + n then old(a[j - dst]) else old(a[j])
    {
      i := i - 1;
      a[dst + i] := a[i];
    }
    PutBytes(old(a[..]), dst, old(a[..n]));
  }

  function Zeros(n: nat): (z: seq<byte>)
    ensures |z| == n
  {
    seq(n, _ => 0)
  }

  /** `memset` with zeros. */
  method Clear(a: array<byte>, n: nat)
    requires n <= a.Length
    modifies a
    ensures a[..] == Put(old(a[..]), 0, Zeros(n))
  {
    for i := 0 to n
      invariant forall j :: 0 <= j < a.Length ==> a[j] == if j < i then 0 else old(a[j])
    {
      a[i] := 0;
    }
    PutBytes(old(a[..]), 0, Zeros(n));
  }

  // ---------------------------------------------------------------- one vector

  /** One string and its pointer. */
  lemma PutPair(m: seq<byte>, ptrs: nat, addr: nat, strs: nat, v: seq<cstring>, n: nat)
    requires n < |v| && ptrs + 8 * n + 8 <= strs && strs + TotalBytes(v) <= |m| && addr + TotalBytes(v) <= WORD_MAX
    requires Pointers(m, ptrs, addr, v, n) && Strings(m, strs, v, n)
    ensures strs + Start(v, n) + |v[n]| + 1 <= |m| && addr + Start(v, n) < WORD_MAX
    ensures var m' := Put(Put(m, strs + Start(v, n), Terminated(v[n])), ptrs + 8 * n, Bytes(addr + Start(v, n)));
      Pointers(m', ptrs, addr, v, n + 1) && Strings(m', strs, v, n + 1)
  {
    StartMonotone(v, n, |v|);
    var b, w := Terminated(v[n]), Bytes(addr + Start(v, n));
    PointersFrame(m, strs + Start(v, n), b, ptrs, addr, v, n);
    PutString(m, strs, v, n);
    var m1 := Put(m, strs + Start(v, n), b);
    PutPointer(m1, ptrs, addr, v, n);
    StringsFrame(m1, ptrs + 8 * n, w, strs, v, n + 1);
  }

  /** Bytes before `lo` and from `hi` on are as in `m`. */
  ghost predicate KeptAround(m: seq<byte>, m': seq<byte>, lo: nat, hi: nat)
  {
    lo <= |m| && hi <= |m| && |m'| == |m| && m'[..lo] == m[..lo] && m'[hi..] == m[hi..]
  }

  lemma PutAround(m: seq<byte>, m': seq<byte>, lo: nat, hi: nat, off: nat, b: seq<byte>)
    requires KeptAround(m, m', lo, hi) && lo <= off && off + |b| <= hi
    ensures KeptAround(m, Put(m', off, b), lo, hi)
  {
    PutAway(m', off, b, 0, lo);
    PutAway(m', off, b, hi, |m| - hi);
    var p := Put(m', off, b);
    assert p[..lo] == p[0..0 + lo] && m'[..lo] == m'[0..0 + lo];
    assert p[hi..] == p[hi..hi + (|m| - hi)] && m'[hi..] == m'[hi..hi + (|m| - hi)];
  }

  method CopyOne(a: array<byte>, base: nat, ptrs: nat, strs: nat, v: seq<cstring>, n: nat, low: nat, str: nat,
                 ghost m: seq<byte>, ghost k: nat)
    requires k == n + 1 <= |v| && ptrs + 8 * k <= strs && strs + TotalBytes(v) <= a.Length
    requires base + a.Length <= WORD_MAX && low == ptrs + 8 * n && str == strs + Start(v, n)
    requires Pointers(a[..], ptrs, base + strs, v, n) && Strings(a[..], strs, v, n)
    requires KeptAround(m, a[..], ptrs, strs + TotalBytes(v))
    modifies a
    ensures Pointers(a[..], ptrs, base + strs, v, k) && Strings(a[..], strs, v, k)
    ensures KeptAround(m, a[..], ptrs, strs + TotalBytes(v))
  {
    PutPair(a[..], ptrs, base + strs, strs, v, n);
    StartMonotone(v, n, |v|);
    PutAround(m, a[..], ptrs, strs + TotalBytes(v), str, Terminated(v[n]));
    Copy(a, str, Terminated(v[n]));
    PutAround(m, a[..], ptrs, strs + TotalBytes(v), low, Bytes(base + str));
    Copy(a, low, Bytes(base + str));
  }

  /** The loops over `argv` and `envp`: pointers go to the low end, strings to the place reserved for
      them at the high end, where `high == strs`. */
  method CopyVector(a: array<byte>, base: nat, v: seq<cstring>, ptrs: nat, strs: nat, nil: u64)
    returns (ok: bool, low: nat)
    requires ptrs <= strs && strs + TotalBytes(v) <= a.Length && base + a.Length <= WORD_MAX && nil == 0
    modifies a
    ensures ok <==> ptrs + 8 * (|v| + 1) <= strs
    ensures ok ==> low == ptrs + 8 * (|v| + 1) && Vector(a[..], base, ptrs, strs, v)
    ensures ok ==> KeptAround(old(a[..]), a[..], ptrs, strs + TotalBytes(v))
  {
    ghost var m := a[..];
    low := ptrs;
    var str, n := strs, 0;
    while n < |v|
      invariant n <= |v| && low == ptrs + 8 * n <= strs && str == strs + Start(v, n)
      invariant Pointers(a[..], ptrs, base + strs, v, n) && Strings(a[..], strs, v, n)
      invariant KeptAround(m, a[..], ptrs, strs + TotalBytes(v))
    {
      if low + 8 > strs {
        return false, low;
      }
      var k := n + 1;
      CopyOne(a, base, ptrs, strs, v, n, low, str, m, k);
      low, str, n := low + 8, str + |v[n]| + 1, k;
    }
    if low + 8 > strs {
      return false, low;
    }
    VectorEnd(a[..], Put(a[..], low, Bytes(nil)), base, ptrs, strs, v, nil);
    PutAround(m, a[..], ptrs, strs + TotalBytes(v), low, Bytes(nil));
    Copy(a, low, Bytes(nil));
    return true, low + 8;
  }

  // ---------------------------------------------------------------- moving the low part

  /** The first `k` bytes are found at `p`, the bytes from `s` on in place. */
  ghost predicate Moved(m: seq<byte>, m': seq<byte>, p: nat, k: nat, s: nat)
  {
    |m'| == |m| && k <= |m| && p + k <= |m| && s <= |m| && m'[p..p + k] == m[..k] && m'[s..] == m[s..]
  }

  lemma MovedWord(m: seq<byte>, m': seq<byte>, p: nat, k: nat, s: nat, at: nat)
    requires Moved(m, m', p, k, s) && at + 8 <= k
    ensures WordAt(m', p + at) == WordAt(m, at)
  {
    SliceSlice(m', p, p + k, at, 8);
    SliceSlice(m, 0, k, at, 8);
    assert m[0..k] == m[..k];
  }

  lemma MovedVector(m: seq<byte>, m': seq<byte>, p: nat, k: nat, s: nat, base: nat, ptrs: nat, strs: nat, v: seq<cstring>)
    requires Moved(m, m', p, k, s) && Vector(m, base, ptrs, strs, v)
    requires ptrs + 8 * |v| + 8 <= k && s <= strs && strs + TotalBytes(v) <= |m|
    ensures Vector(m', base, p + ptrs, strs, v)
  {
    var ptrs', addr := p + ptrs, base + strs;
    forall i | 0 <= i < |v| ensures PointerHeld(m', ptrs', addr, v, i) {
      assert PointerHeld(m, ptrs, addr, v, i);
      MovedWord(m, m', p, k, s, ptrs + 8 * i);
    }
    forall i | 0 <= i < |v| ensures StringHeld(m', strs, v, i) {
      assert StringHeld(m, strs, v, i);
      StartMonotone(v, i, |v|);
      SliceSlice(m, s, |m|, strs + Start(v, i) - s, |v[i]| + 1);
      SliceSlice(m', s, |m|, strs + Start(v, i) - s, |v[i]| + 1);
      assert m[s..|m|] == m[s..] && m'[s..|m|] == m'[s..];
    }
    MovedWord(m, m', p, k, s, ptrs + 8 * |v|);
  }

  /** What moving up and clearing does to the memory. */
  lemma MoveAndClear(m: seq<byte>, p: nat, k: nat, s: nat)
    requires p + k <= s <= |m|
    ensures var m' := Put(Put(m, p, m[..k]), 0, Zeros(p));
      Moved(m, m', p, k, s) && m'[..p] == Zeros(p)
  {
    var m1 := Put(m, p, m[..k]);
    var m' := Put(m1, 0, Zeros(p));
    PutBytes(m, p, m[..k]);
    PutBytes(m1, 0, Zeros(p));
  }

  // ---------------------------------------------------------------- the whole stack

  /** The bytes taken at the low end. */
  function LowBytes(argv: seq<cstring>, envp: seq<cstring>): nat
  {
    8 + 8 * (|argv| + 1) + 8 * (|envp| + 1) + AUXV_BYTES
  }

  /** The memory `m` at `base` holds, at offset `p`, the initial stack frame of the x86-64 psABI: the
      argument count, the argument pointers, the environment pointers, and room for `auxv` at
      `auxv`. The strings are at the end, `argv` behind `envp`, and all below `p` is clear. */
  ghost predicate Frame(m: seq<byte>, base: nat, p: nat, auxv: nat, argv: seq<cstring>, envp: seq<cstring>)
  {
    var strsA := |m| - TotalBytes(argv);
    var strsE := strsA - TotalBytes(envp);
    && 0 <= strsE && p + 8 <= |m| && Aligned(base + p) && WordAt(m, p) == |argv|
    && Vector(m, base, p + 8, strsA, argv)
    && Vector(m, base, p + 8 + 8 * (|argv| + 1), strsE, envp)
    && auxv == p + 8 + 8 * (|argv| + 1) + 8 * (|envp| + 1) && auxv + AUXV_BYTES <= strsE < auxv + AUXV_BYTES + 16
    && m[..p] == Zeros(p)
  }

  /** The memory before the move: the low part from 0 on, the strings at the end. */
  ghost predicate Spread(m: seq<byte>, base: nat, argv: seq<cstring>, envp: seq<cstring>, strsA: nat, strsE: nat)
  {
    && strsA == strsE + TotalBytes(envp) && |m| == strsA + TotalBytes(argv) && LowBytes(argv, envp) <= strsE
    && WordAt(m, 0) == |argv|
    && Vector(m, base, 8, strsA, argv)
    && Vector(m, base, 8 + 8 * (|argv| + 1), strsE, envp)
  }

  lemma SpreadMoved(m: seq<byte>, m': seq<byte>, base: nat, p: nat, argv: seq<cstring>, envp: seq<cstring>,
                    strsA: nat, strsE: nat)
    requires Spread(m, base, argv, envp, strsA, strsE) && Aligned(base + p)
    requires p <= strsE - LowBytes(argv, envp) < p + 16
    requires Moved(m, m', p, LowBytes(argv, envp), strsE) && m'[..p] == Zeros(p)
    ensures Frame(m', base, p, p + LowBytes(argv, envp) - AUXV_BYTES, argv, envp)
  {
    var k := LowBytes(argv, envp);
    MovedWord(m, m', p, k, strsE, 0);
    MovedVector(m, m', p, k, strsE, base, 8, strsA, argv);
    MovedVector(m, m', p, k, strsE, base, 8 + 8 * (|argv| + 1), strsE, envp);
  }

  predicate Aligned(addr: nat)
  {
    addr % 16 == 0
  }

  /** `ALIGN_DOWN_PTR` to 16 bytes. */
  method AlignDown(base: nat, x: nat) returns (y: nat)
    requires Aligned(base)
    ensures y <= x < y + 16 && Aligned(base + y)
  {
    y := x - (base + x) % 16;
  }

  method Shift(a: array<byte>, newLow: nat, low: nat, ghost high: nat)
    requires newLow + low <= high <= a.Length
    modifies a
    ensures Moved(old(a[..]), a[..], newLow, low, high) && a[..][..newLow] == Zeros(newLow)
  {
    ghost var m := a[..];
    MoveAndClear(m, newLow, low, high);
    assert a[..low] == m[..low];
    MoveUp(a, newLow, low);
    Clear(a, newLow);
  }

  /** The last steps: the low part is moved up, aligned to 16 bytes, and the rest is cleared. */
  method Close(a: array<byte>, base: nat, low: nat, high: nat, ghost argv: seq<cstring>, ghost envp: seq<cstring>,
               ghost strsA: nat) returns (newLow: nat)
    requires Aligned(base) && Spread(a[..], base, argv, envp, strsA, high) && low == LowBytes(argv, envp)
    modifies a
    ensures Frame(a[..], base, newLow, newLow + low - AUXV_BYTES, argv, envp)
  {
    newLow := AlignDown(base, high - low);
    Shift(a, newLow, low, high);
    SpreadMoved(old(a[..]), a[..], base, newLow, argv, envp, strsA, high);
  }

  /** The bytes of a word and of a vector lie apart from what is written later. */
  lemma VectorKept(m: seq<byte>, m': seq<byte>, base: nat, ptrs: nat, strs: nat, v: seq<cstring>, lo: nat, hi: nat)
    requires Vector(m, base, ptrs, strs, v) && KeptAround(m, m', lo, hi)
    requires ptrs + 8 * |v| + 8 <= lo && hi <= strs && strs + TotalBytes(v) <= |m|
    ensures Vector(m', base, ptrs, strs, v)
  {
    assert m'[0..0 + lo] == m'[..lo];
    MovedVector(m, m', 0, lo, hi, base, ptrs, strs, v);
  }

  lemma WordKept(m: seq<byte>, m': seq<byte>, at: nat, lo: nat, hi: nat)
    requires KeptAround(m, m', lo, hi) && at + 8 <= lo
    ensures WordAt(m', at) == WordAt(m, at)
  {
    assert m'[0..0 + lo] == m'[..lo];
    MovedWord(m, m', 0, lo, hi, at);
  }

  /** The argument count and `argv`, into an empty stack. */
  method FillArgs(a: array<byte>, base: nat, argv: seq<cstring>) returns (ok: bool, low: nat, high: nat)
    requires base + a.Length <= WORD_MAX && |argv| < WORD_MAX
    modifies a
    ensures ok <==> 8 + 8 * (|argv| + 1) + TotalBytes(argv) <= a.Length
    ensures ok ==>
      && low == 8 + 8 * (|argv| + 1) && high + TotalBytes(argv) == a.Length
      && WordAt(a[..], 0) == |argv| && Vector(a[..], base, 8, high, argv)
  {
    var argc, argvSize := Measure(argv);
    low, high := 8, a.Length;
    if low > high {
      return false, low, high;
    }
    WordPut(a[..], 0, argc);
    Copy(a, 0, Bytes(argc));
    if high < argvSize + low {
      return false, low, high;
    }
    high := high - argvSize;
    ghost var m := a[..];
    ok, low := CopyVector(a, base, argv, low, high, 0);
    if ok { WordKept(m, a[..], 0, 8, a.Length); }
  }

  /** `envp`, below what is there already. */
  method FillEnvs(a: array<byte>, base: nat, envp: seq<cstring>, low0: nat, high0: nat, ghost argv: seq<cstring>)
    returns (ok: bool, low: nat, high: nat)
    requires base + a.Length <= WORD_MAX && low0 == 8 + 8 * (|argv| + 1) <= high0 && high0 + TotalBytes(argv) == a.Length
    requires WordAt(a[..], 0) == |argv| && Vector(a[..], base, 8, high0, argv)
    modifies a
    ensures ok <==> low0 + 8 * (|envp| + 1) + TotalBytes(envp) <= high0
    ensures ok ==>
      && low == low0 + 8 * (|envp| + 1) && high + TotalBytes(envp) == high0
      && WordAt(a[..], 0) == |argv| && Vector(a[..], base, 8, high0, argv) && Vector(a[..], base, low0, high, envp)
  {
    var cnt, envpSize := Measure(envp);
    low, high := low0, high0;
    if high < envpSize + low {
      return false, low, high;
    }
    high := high - envpSize;
    ghost var m := a[..];
    ok, low := CopyVector(a, base, envp, low, high, 0);
    if ok {
      WordKept(m, a[..], 0, low0, high0);
      VectorKept(m, a[..], base, 8, high0, argv, low0, high0);
    }
  }

  /** `populate_stack`: it fails exactly when the stack is too small. */
  method Populate(a: array<byte>, base: nat, argv: seq<cstring>, envp: seq<cstring>)
    returns (ret: int, argp: nat, auxv: nat)
    requires 0 < base && Aligned(base) && base + a.Length <= WORD_MAX && |argv| < WORD_MAX
    modifies a
    ensures ret == if LowBytes(argv, envp) + TotalBytes(argv) + TotalBytes(envp) <= a.Length then 0 else -ENOMEM
    ensures ret == 0 ==> Frame(a[..], base, argp, auxv, argv, envp)
  {
    var ok, low, high := FillArgs(a, base, argv);
    if !ok {
      return -ENOMEM, 0, 0;
    }
    ghost var strsA := high;
    ok, low, high := FillEnvs(a, base, envp, low, high, argv);
    if !ok {
      return -ENOMEM, 0, 0;
    }
    low := low + AUXV_BYTES;
    if low > high {
      return -ENOMEM, 0, 0;
    }
    assert Spread(a[..], base, argv, envp, strsA, high);
    argp := Close(a, base, low, high, argv, envp, strsA);
    return 0, argp, argp + low - AUXV_BYTES;
  }

  /** What a program finds when it follows the frame: its arguments and its environment. */
  method Decode(m: seq<byte>, base: nat, p: nat, ghost auxv: nat, ghost argv: seq<cstring>, ghost envp: seq<cstring>)
    returns (args: seq<seq<byte>>, envs: seq<seq<byte>>)
    requires 0 < base && Frame(m, base, p, auxv, argv, envp) && NoNuls(argv) && NoNuls(envp)
    ensures args == argv && envs == envp
  {
    var argc: nat := WordAt(m, p);
    args := ReadVector(m, base, p + 8, |m| - TotalBytes(argv), argv);
    envs := ReadVector(m, base, p + 8 + 8 * (argc + 1), |m| - TotalBytes(argv) - TotalBytes(envp), envp);
  }

  /** The argument strings are adjacent and in increasing order, and end with the stack. */
  lemma Adjacent(m: seq<byte>, base: nat, p: nat, auxv: nat, argv: seq<cstring>, envp: seq<cstring>, i: nat)
    requires Frame(m, base, p, auxv, argv, envp) && i < |argv|
    ensures p + 8 + 8 * i + 8 <= |m|
    ensures WordAt(m, p + 8 + 8 * i) + |argv[i]| + 1
      == if i + 1 < |argv| then WordAt(m, p + 8 + 8 * (i + 1)) else base + |m|
  {
    var strs := |m| - TotalBytes(argv);
    assert PointerHeld(m, p + 8, base + strs, argv, i);
    if i + 1 < |argv| { assert PointerHeld(m, p + 8, base + strs, argv, i + 1); }
  }
}
