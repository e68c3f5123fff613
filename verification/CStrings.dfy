/** NUL-terminated strings, and null-terminated arrays of pointers to them. */
module CStrings {
  import opened Words

  type cstring = seq<byte>

  predicate NoNul(s: cstring)
  {
    forall i :: 0 <= i < |s| ==> s[i] != 0
  }

  ghost predicate NoNuls(v: seq<cstring>)
  {
    forall i :: 0 <= i < |v| ==> NoNul(v[i])
  }

  /** A string with its terminator. */
  function Terminated(s: cstring): seq<byte>
  {
    s + [0]
  }

  /** `strlen` and copy. */
  method ReadString(m: seq<byte>, at: nat, ghost s: cstring) returns (r: seq<byte>)
    requires HasAt(m, at, Terminated(s)) && NoNul(s)
    ensures r == s
  {
    var i := at;
    r := [];
    assert m[at] == m[at..at + |s| + 1][0] == Terminated(s)[0];
    while m[i] != 0
      invariant at <= i <= at + |s| && r == s[..i - at]
      invariant m[i] == Terminated(s)[i - at]
      decreases at + |s| - i
    {
      r := r + [m[i]];
      i := i + 1;
      assert m[i] == m[at..at + |s| + 1][i - at];
    }
  }

  /** The bytes that strings with their terminators take together. */
  function TotalBytes(v: seq<cstring>): nat
  {
    Start(v, |v|)
  }

  /** Where string `i` starts when all are stored one after the other. */
  function Start(v: seq<cstring>, i: nat): nat
    requires i <= |v|
  {
    if i == 0 then 0 else Start(v, i - 1) + |v[i - 1]| + 1
  }

  /** The loops that count strings and their bytes. */
  method Measure(v: seq<cstring>) returns (cnt: nat, bytes: nat)
    ensures cnt == |v| && bytes == TotalBytes(v)
  {
    cnt, bytes := 0, 0;
    while cnt < |v|
      invariant cnt <= |v| && bytes == Start(v, cnt)
    {
      bytes := bytes + |v[cnt]| + 1;
      cnt := cnt + 1;
    }
  }

  lemma {:induction false} StartMonotone(v: seq<cstring>, i: nat, j: nat)
    requires i < j <= |v|
    ensures Start(v, i) + |v[i]| + 1 <= Start(v, j)
  {
    if i < j - 1 { StartMonotone(v, i, j - 1); }
  }

  // ---------------------------------------------------------------- argument vectors

  /** Pointer `i` of the array at `ptrs` holds `addr + Start(v, i)`, and string `i` is at
      `strs + Start(v, i)`; so `addr` is the address of memory offset `strs`. */
  ghost predicate PointerHeld(m: seq<byte>, ptrs: nat, addr: nat, v: seq<cstring>, i: nat)
    requires i < |v|
  {
    ptrs + 8 * i + 8 <= |m| && WordAt(m, ptrs + 8 * i) == addr + Start(v, i)
  }

  ghost predicate StringHeld(m: seq<byte>, strs: nat, v: seq<cstring>, i: nat)
    requires i < |v|
  {
    HasAt(m, strs + Start(v, i), Terminated(v[i]))
  }

  /** The first `n` strings, or pointers, are in place. */
  ghost predicate Strings(m: seq<byte>, strs: nat, v: seq<cstring>, n: nat)
    requires n <= |v|
  {
    forall i :: 0 <= i < n ==> StringHeld(m, strs, v, i)
  }

  ghost predicate Pointers(m: seq<byte>, ptrs: nat, addr: nat, v: seq<cstring>, n: nat)
    requires n <= |v|
  {
    forall i :: 0 <= i < n ==> PointerHeld(m, ptrs, addr, v, i)
  }

  /** A null-terminated array of pointers at `ptrs` to the strings `v`, stored from `strs` on, in a
      memory that is loaded at address `base`. */
  ghost predicate Vector(m: seq<byte>, base: nat, ptrs: nat, strs: nat, v: seq<cstring>)
  {
    && Pointers(m, ptrs, base + strs, v, |v|) && Strings(m, strs, v, |v|)
    && ptrs + 8 * |v| + 8 <= |m| && WordAt(m, ptrs + 8 * |v|) == 0
  }

  /** Writes that miss the strings, or the pointers, keep them. */
  lemma StringsFrame(m: seq<byte>, off: nat, b: seq<byte>, strs: nat, v: seq<cstring>, n: nat)
    requires n <= |v| && off + |b| <= |m| && Strings(m, strs, v, n)
    requires off + |b| <= strs || strs + Start(v, n) <= off
    ensures Strings(Put(m, off, b), strs, v, n)
  {
    forall i | 0 <= i < n ensures StringHeld(Put(m, off, b), strs, v, i) {
      assert StringHeld(m, strs, v, i);
      StartMonotone(v, i, n);
      PutAway(m, off, b, strs + Start(v, i), |v[i]| + 1);
    }
  }

  lemma PointersFrame(m: seq<byte>, off: nat, b: seq<byte>, ptrs: nat, addr: nat, v: seq<cstring>, n: nat)
    requires n <= |v| && off + |b| <= |m| && Pointers(m, ptrs, addr, v, n)
    requires off + |b| <= ptrs || ptrs + 8 * n <= off
    ensures Pointers(Put(m, off, b), ptrs, addr, v, n)
  {
    forall i | 0 <= i < n ensures PointerHeld(Put(m, off, b), ptrs, addr, v, i) {
      assert PointerHeld(m, ptrs, addr, v, i);
      PutAway(m, off, b, ptrs + 8 * i, 8);
    }
  }

  /** Writing pointer `n`, and writing string `n`. */
  lemma PutPointer(m: seq<byte>, ptrs: nat, addr: nat, v: seq<cstring>, n: nat)
    requires n < |v| && ptrs + 8 * n + 8 <= |m| && addr + Start(v, n) < WORD_MAX
    requires Pointers(m, ptrs, addr, v, n)
    ensures Pointers(Put(m, ptrs + 8 * n, Bytes(addr + Start(v, n))), ptrs, addr, v, n + 1)
  {
    var w := Bytes(addr + Start(v, n));
    PointersFrame(m, ptrs + 8 * n, w, ptrs, addr, v, n);
    WordPut(m, ptrs + 8 * n, addr + Start(v, n));
    PointersSnoc(Put(m, ptrs + 8 * n, w), ptrs, addr, v, n);
  }

  lemma PointersSnoc(m: seq<byte>, ptrs: nat, addr: nat, v: seq<cstring>, n: nat)
    requires n < |v| && Pointers(m, ptrs, addr, v, n) && PointerHeld(m, ptrs, addr, v, n)
    ensures Pointers(m, ptrs, addr, v, n + 1)
  {
  }

  lemma StringsSnoc(m: seq<byte>, strs: nat, v: seq<cstring>, n: nat)
    requires n < |v| && Strings(m, strs, v, n) && StringHeld(m, strs, v, n)
    ensures Strings(m, strs, v, n + 1)
  {
  }

  lemma PutString(m: seq<byte>, strs: nat, v: seq<cstring>, n: nat)
    requires n < |v| && strs + Start(v, n) + |v[n]| + 1 <= |m| && Strings(m, strs, v, n)
    ensures Strings(Put(m, strs + Start(v, n), Terminated(v[n])), strs, v, n + 1)
  {
    var b := Terminated(v[n]);
    StringsFrame(m, strs + Start(v, n), b, strs, v, n);
    PutHas(m, strs + Start(v, n), b);
    StringsSnoc(Put(m, strs + Start(v, n), b), strs, v, n);
  }

  /** One round of the copying loops: pointer `n`, then string `n`. */
  lemma PutArg(m: seq<byte>, ptrs: nat, addr: nat, strs: nat, v: seq<cstring>, n: nat)
    requires n < |v| && ptrs + 8 * |v| <= strs && strs + TotalBytes(v) <= |m|
    requires addr + TotalBytes(v) <= WORD_MAX
    requires Pointers(m, ptrs, addr, v, n) && Strings(m, strs, v, n)
    ensures strs + Start(v, n) + |v[n]| + 1 <= |m| && addr + Start(v, n) < WORD_MAX
    ensures var m' := Put(Put(m, ptrs + 8 * n, Bytes(addr + Start(v, n))), strs + Start(v, n), Terminated(v[n]));
      Pointers(m', ptrs, addr, v, n + 1) && Strings(m', strs, v, n + 1)
  {
    StartMonotone(v, n, |v|);
    var w := Bytes(addr + Start(v, n));
    PutPointer(m, ptrs, addr, v, n);
    StringsFrame(m, ptrs + 8 * n, w, strs, v, n);
    var m1 := Put(m, ptrs + 8 * n, w);
    PointersFrame(m1, strs + Start(v, n), Terminated(v[n]), ptrs, addr, v, n + 1);
    PutString(m1, strs, v, n);
  }

  ghost predicate PointersFrom(m: seq<byte>, ptrs: nat, addr: nat, v: seq<cstring>, n: nat)
  {
    forall i :: n <= i < |v| ==> PointerHeld(m, ptrs, addr, v, i)
  }

  lemma PointersFromFrame(m: seq<byte>, off: nat, b: seq<byte>, ptrs: nat, addr: nat, v: seq<cstring>, n: nat)
    requires off + |b| <= |m| && off + |b| <= ptrs + 8 * n && PointersFrom(m, ptrs, addr, v, n)
    ensures PointersFrom(Put(m, off, b), ptrs, addr, v, n)
  {
    forall i | n <= i < |v| ensures PointerHeld(Put(m, off, b), ptrs, addr, v, i) {
      assert PointerHeld(m, ptrs, addr, v, i);
      PutAway(m, off, b, ptrs + 8 * i, 8);
    }
  }

  /** A vector part of the way through being rebased: the first `n` pointers already lead to the
      strings from base `to`, the others still from base `from`. */
  ghost predicate Rebasing(m: seq<byte>, from: nat, to: nat, ptrs: nat, strs: nat, v: seq<cstring>, n: nat)
  {
    && n <= |v| && Pointers(m, ptrs, to + strs, v, n) && Strings(m, strs, v, |v|)
    && PointersFrom(m, ptrs, from + strs, v, n)
    && ptrs + 8 * |v| + 8 <= |m| && WordAt(m, ptrs + 8 * |v|) == 0
  }

  lemma RebaseStep(m: seq<byte>, m': seq<byte>, from: nat, to: nat, ptrs: nat, strs: nat, v: seq<cstring>, n: nat)
    requires Rebasing(m, from, to, ptrs, strs, v, n) && n < |v| && ptrs + 8 * |v| + 8 <= strs
    requires to + strs + Start(v, n) < WORD_MAX && m' == Put(m, ptrs + 8 * n, Bytes(to + strs + Start(v, n)))
    ensures Rebasing(m', from, to, ptrs, strs, v, n + 1)
  {
    PutPointer(m, ptrs, to + strs, v, n);
    RebaseKeeps(m, m', from + strs, ptrs, strs, v, n, ptrs + 8 * n, ptrs + 8 * |v|, Bytes(to + strs + Start(v, n)));
  }

  /** Setting pointer `n` leaves the later ones, the final null and the strings as they are. */
  lemma RebaseKeeps(m: seq<byte>, m': seq<byte>, addr: nat, ptrs: nat, strs: nat, v: seq<cstring>, n: nat, at: nat,
                    end: nat, w: seq<byte>)
    requires n < |v| && at == ptrs + 8 * n && end == ptrs + 8 * |v| && end + 8 <= strs && end + 8 <= |m| && |w| == 8
    requires Strings(m, strs, v, |v|) && PointersFrom(m, ptrs, addr, v, n) && m' == Put(m, at, w)
    ensures Strings(m', strs, v, |v|) && PointersFrom(m', ptrs, addr, v, n + 1)
    ensures WordAt(m', end) == WordAt(m, end)
  {
    StringsFrame(m, at, w, strs, v, |v|);
    PutAway(m, at, w, end, 8);
    PointersFromFrame(m, at, w, ptrs, addr, v, n + 1);
  }

  lemma RebaseStart(m: seq<byte>, from: nat, to: nat, ptrs: nat, strs: nat, v: seq<cstring>)
    requires Vector(m, from, ptrs, strs, v)
    ensures Rebasing(m, from, to, ptrs, strs, v, 0)
  {
  }

  lemma RebaseEnd(m: seq<byte>, from: nat, to: nat, ptrs: nat, strs: nat, v: seq<cstring>)
    requires Rebasing(m, from, to, ptrs, strs, v, |v|)
    ensures Vector(m, to, ptrs, strs, v)
  {
  }

  /** Writing the null pointer that ends the array. */
  lemma VectorEnd(m: seq<byte>, m': seq<byte>, base: nat, ptrs: nat, strs: nat, v: seq<cstring>, nil: u64)
    requires nil == 0 && ptrs + 8 * |v| + 8 <= strs <= |m|
    requires Pointers(m, ptrs, base + strs, v, |v|) && Strings(m, strs, v, |v|)
    requires m' == Put(m, ptrs + 8 * |v|, Bytes(nil))
    ensures Vector(m', base, ptrs, strs, v)
  {
    var at := ptrs + 8 * |v|;
    EndKeeps(m, m', ptrs, base + strs, strs, v, at, Bytes(nil));
    WordPut(m, at, nil);
    VectorIs(m', base, ptrs, strs, v, at, nil);
  }

  lemma VectorIs(m: seq<byte>, base: nat, ptrs: nat, strs: nat, v: seq<cstring>, at: nat, nil: u64)
    requires Pointers(m, ptrs, base + strs, v, |v|) && Strings(m, strs, v, |v|)
    requires at == ptrs + 8 * |v| && at + 8 <= |m| && WordAt(m, at) == nil && nil == 0
    ensures Vector(m, base, ptrs, strs, v)
  {
  }

  lemma EndKeeps(m: seq<byte>, m': seq<byte>, ptrs: nat, addr: nat, strs: nat, v: seq<cstring>, at: nat, b: seq<byte>)
    requires Pointers(m, ptrs, addr, v, |v|) && Strings(m, strs, v, |v|)
    requires at == ptrs + 8 * |v| && at + |b| <= strs <= |m| && m' == Put(m, at, b)
    ensures Pointers(m', ptrs, addr, v, |v|) && Strings(m', strs, v, |v|)
  {
    PointersFrame(m, at, b, ptrs, addr, v, |v|);
    StringsFrame(m, at, b, strs, v, |v|);
  }

  /** Following the pointers of a vector gives back its strings. */
  method ReadVector(m: seq<byte>, base: nat, ptrs: nat, ghost strs: nat, ghost v: seq<cstring>)
    returns (r: seq<seq<byte>>)
    requires Vector(m, base, ptrs, strs, v) && NoNuls(v) && 0 < base
    ensures r == v
  {
    r := [];
    var a := ptrs;
    if v != [] { assert PointerHeld(m, ptrs, base + strs, v, 0); }
    while WordAt(m, a) != 0
      invariant |r| <= |v| && a == ptrs + 8 * |r|
      invariant |r| < |v| ==> WordAt(m, a) == base + strs + Start(v, |r|)
      invariant forall i :: 0 <= i < |r| ==> r[i] == v[i]
      decreases |v| - |r|
    {
      ghost var i := |r|;
      assert StringHeld(m, strs, v, i);
      var s := ReadString(m, WordAt(m, a) - base, v[i]);
      r := r + [s];
      a := a + 8;
      if i + 1 < |v| { assert PointerHeld(m, ptrs, base + strs, v, i + 1); }
    }
  }
}
