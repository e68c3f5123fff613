/** Looking up a name in one loaded object: `check_match` and `do_lookup_map`. */
module ElfLookup {
  import opened Wrappers
  import opened Words
  import opened Bits
  import opened ElfHash

  const SHN_UNDEF := 0
  const STT_TLS := 6

  /** An entry of the symbol table; `name` is an offset into the string table. */
  datatype Sym = Sym(name: nat, value: nat, shndx: nat, info: byte)

  datatype Object = Object(symtab: seq<Sym>, strtab: seq<byte>)

  // ---------------------------------------------------------------- matching

  function Kind(info: byte): nat
  {
    info % 16
  }

  function Binding(info: byte): nat
  {
    info / 16
  }

  /** `STT_NOTYPE`, `STT_OBJECT`, `STT_FUNC`, `STT_COMMON`, `STT_TLS`, `STT_GNU_IFUNC`. */
  predicate AllowedKind(kind: nat)
  {
    kind == 0 || kind == 1 || kind == 2 || kind == 5 || kind == 6 || kind == 10
  }

  /** `memcmp` over the length of `s`. */
  predicate StartsWith(strtab: seq<byte>, at: nat, s: name)
  {
    at + |s| <= |strtab| && strtab[at..at + |s|] == s
  }

  /** `check_match` on symbol `i`; `ref` is the symbol the reference comes from, if it is one of this
      object. */
  predicate Matches(o: Object, i: nat, s: name, ref: Option<nat>)
    requires i < |o.symtab|
  {
    var sym := o.symtab[i];
    && (sym.value != 0 || Kind(sym.info) == STT_TLS) && sym.shndx != SHN_UNDEF
    && AllowedKind(Kind(sym.info))
    && (ref == Some(i) || StartsWith(o.strtab, sym.name, s))
  }

  /** The string at `at`, up to a NUL or the end. */
  function StringAt(strtab: seq<byte>, at: nat): name
    decreases |strtab| - at
  {
    if at >= |strtab| || strtab[at] == 0 then [] else [strtab[at]] + StringAt(strtab, at + 1)
  }

  /** The comparison accepts every symbol whose name begins with `s`, not only `s` itself. */
  lemma {:induction false} PrefixSuffices(strtab: seq<byte>, at: nat, s: name)
    requires at <= |strtab| && forall i :: 0 <= i < |s| ==> s[i] != 0
    ensures StartsWith(strtab, at, s) <==> s <= StringAt(strtab, at)
    decreases |s|
  {
    if s != [] && at < |strtab| && strtab[at] == s[0] {
      PrefixSuffices(strtab, at + 1, s[1..]);
      HeadAndTail(strtab, at, s);
      assert s == [s[0]] + s[1..];
    }
  }

  lemma HeadAndTail(strtab: seq<byte>, at: nat, s: name)
    requires s != [] && at < |strtab| && strtab[at] == s[0]
    ensures StartsWith(strtab, at, s) <==> StartsWith(strtab, at + 1, s[1..])
  {
    if at + |s| <= |strtab| {
      assert strtab[at..at + |s|] == [strtab[at]] + strtab[at + 1..at + 1 + (|s| - 1)];
      assert s == [s[0]] + s[1..];
    }
  }

  // ---------------------------------------------------------------- the first of a range

  /** The first number in [lo, hi) with property `p`. */
  function FirstOf(lo: nat, hi: nat, p: nat -> bool): Option<nat>
    decreases hi - lo
  {
    if lo >= hi then None else if p(lo) then Some(lo) else FirstOf(lo + 1, hi, p)
  }

  lemma {:induction false} FirstFound(lo: nat, hi: nat, p: nat -> bool)
    ensures
      match FirstOf(lo, hi, p)
      case None => forall i :: lo <= i < hi ==> !p(i)
      case Some(x) => lo <= x < hi && p(x) && forall i :: lo <= i < x ==> !p(i)
    decreases hi - lo
  {
    if lo < hi && !p(lo) { FirstFound(lo + 1, hi, p); }
  }

  lemma FirstUnique(lo: nat, hi: nat, p: nat -> bool, x: nat)
    requires lo <= x < hi && p(x) && forall i :: lo <= i < x ==> !p(i)
    ensures FirstOf(lo, hi, p) == Some(x)
  {
    FirstFound(lo, hi, p);
  }

  ghost predicate IsFirst(lo: nat, hi: nat, p: nat -> bool, x: nat)
  {
    lo <= x < hi && p(x) && forall i :: lo <= i < x ==> !p(i)
  }

  lemma FirstIs(lo: nat, hi: nat, p: nat -> bool, x: nat)
    ensures FirstOf(lo, hi, p) == Some(x) <==> IsFirst(lo, hi, p, x)
  {
    FirstFound(lo, hi, p);
  }

  lemma FirstNone(lo: nat, hi: nat, p: nat -> bool)
    requires forall i :: lo <= i < hi ==> !p(i)
    ensures FirstOf(lo, hi, p) == None
  {
    FirstFound(lo, hi, p);
  }

  // ---------------------------------------------------------------- GNU hash tables

  datatype GnuTable =
    GnuTable(nbuckets: nat, symbias: nat, shift: nat, bitmask: seq<u64>, buckets: seq<nat>, chain: seq<nat>)

  function NameHash(o: Object, i: nat): nat
    requires i < |o.symtab|
  {
    var s := StringAt(o.strtab, o.symtab[i].name);
    GnuHash(s, |s|)
  }

  function Word(t: GnuTable, hash: nat): u64
    requires |t.bitmask| > 0
  {
    AndBound(hash / 64, |t.bitmask| - 1);
    t.bitmask[And(hash / 64, |t.bitmask| - 1)]
  }

  /** Both bits of `hash` are set in its word of the Bloom filter. */
  predicate Bloom(t: GnuTable, hash: nat)
    requires |t.bitmask| > 0
  {
    Bit(Word(t, hash), hash % 64) && Bit(Word(t, hash), hash / Pow2(t.shift) % 64)
  }

  ghost predicate Filtered(t: GnuTable, o: Object, i: nat)
    requires i < |o.symtab| && |t.bitmask| > 0
  {
    Bloom(t, NameHash(o, i))
  }

  /** The chain word of symbol `i`: its hash, with the lowest bit telling whether it is the last of
      its bucket. */
  ghost predicate Chained(t: GnuTable, o: Object, i: nat)
    requires t.symbias <= i < |o.symtab| == t.symbias + |t.chain| && t.nbuckets > 0
  {
    var c := t.chain[i - t.symbias];
    && c / 2 == NameHash(o, i) / 2
    && (c % 2 == 1 <==> i + 1 == |o.symtab| || NameHash(o, i + 1) % t.nbuckets != NameHash(o, i) % t.nbuckets)
  }

  /** A bucket holds the first symbol of its remainder, or 0. */
  ghost predicate Headed(t: GnuTable, o: Object, b: nat)
    requires b < t.nbuckets == |t.buckets|
  {
    var x := t.buckets[b];
    if x == 0 then forall i :: t.symbias <= i < |o.symtab| ==> NameHash(o, i) % t.nbuckets != b
    else
      && t.symbias <= x < |o.symtab| && NameHash(o, x) % t.nbuckets == b
      && forall i :: t.symbias <= i < x ==> NameHash(o, i) % t.nbuckets != b
  }

  /** A table as a linker writes it: the symbols from `symbias` on are sorted by bucket. */
  ghost predicate WellFormed(t: GnuTable, o: Object)
  {
    && 0 < t.nbuckets == |t.buckets| && 0 < t.symbias && |o.symtab| == t.symbias + |t.chain|
    && (exists k :: |t.bitmask| == Pow2(k))
    && (forall i, j :: t.symbias <= i < j < |o.symtab| ==>
          NameHash(o, i) % t.nbuckets <= NameHash(o, j) % t.nbuckets)
    && (forall i :: t.symbias <= i < |o.symtab| ==> Chained(t, o, i) && Filtered(t, o, i))
    && (forall b :: 0 <= b < t.nbuckets ==> Headed(t, o, b))
  }

  /** The plain reference: symbol `i` is in the bucket of `hash`, has the same hash up to the lowest
      bit, and matches. */
  predicate Candidate(t: GnuTable, o: Object, s: name, hash: nat, ref: Option<nat>, i: nat)
    requires t.nbuckets > 0
  {
    && i < |o.symtab| && NameHash(o, i) % t.nbuckets == hash % t.nbuckets && NameHash(o, i) / 2 == hash / 2
    && Matches(o, i, s, ref)
  }

  /** A plain scan of the symbol table. */
  function Scan(t: GnuTable, o: Object, s: name, hash: nat, ref: Option<nat>): Option<nat>
    requires t.nbuckets > 0
  {
    FirstOf(t.symbias, |o.symtab|, (i: nat) => Candidate(t, o, s, hash, ref, i))
  }

  /** Behind the last symbol of a bucket there is none of that bucket. */
  lemma AfterLast(t: GnuTable, o: Object, i: nat, j: nat)
    requires WellFormed(t, o) && t.symbias <= i < j < |o.symtab| && t.chain[i - t.symbias] % 2 == 1
    ensures NameHash(o, j) % t.nbuckets != NameHash(o, i) % t.nbuckets
  {
    assert Chained(t, o, i);
    if j > i + 1 {
      assert NameHash(o, i) % t.nbuckets <= NameHash(o, i + 1) % t.nbuckets <= NameHash(o, j) % t.nbuckets;
    }
  }

  /** The next symbol of the chain is in the same bucket. */
  lemma NotLast(t: GnuTable, o: Object, i: nat)
    requires WellFormed(t, o) && t.symbias <= i < |o.symtab| && t.chain[i - t.symbias] % 2 == 0
    ensures i + 1 < |o.symtab| && NameHash(o, i + 1) % t.nbuckets == NameHash(o, i) % t.nbuckets
  {
    assert Chained(t, o, i);
  }

  /** The walk along the chain of a bucket. It ends inside the bucket. */
  method WalkChain(t: GnuTable, o: Object, s: name, hash: nat, ref: Option<nat>, bucket: nat) returns (r: Option<nat>)
    requires WellFormed(t, o) && bucket == t.buckets[hash % t.nbuckets] != 0
    ensures r == Scan(t, o, s, hash, ref)
  {
    ghost var p := (i: nat) => Candidate(t, o, s, hash, ref, i);
    assert Headed(t, o, hash % t.nbuckets);
    var symidx := bucket;
    while true
      invariant t.symbias <= symidx < |o.symtab| && NameHash(o, symidx) % t.nbuckets == hash % t.nbuckets
      invariant forall i :: t.symbias <= i < symidx ==> !p(i)
      decreases |o.symtab| - symidx
    {
      var c := t.chain[symidx - t.symbias];
      assert Chained(t, o, symidx);
      XorHalf(c, hash);
      AndMod(c, 1);
      if Xor(c, hash) / 2 == 0 && Matches(o, symidx, s, ref) {
        FirstUnique(t.symbias, |o.symtab|, p, symidx);
        return Some(symidx);
      }
      if And(c, 1) != 0 {
        break;
      }
      NotLast(t, o, symidx);
      symidx := symidx + 1;
    }
    forall i | t.symbias <= i < |o.symtab| ensures !p(i) {
      if i > symidx { AfterLast(t, o, symidx, i); }
    }
    FirstNone(t.symbias, |o.symtab|, p);
    return None;
  }

  lemma EmptyBucket(t: GnuTable, o: Object, s: name, hash: nat, ref: Option<nat>)
    requires WellFormed(t, o) && t.buckets[hash % t.nbuckets] == 0
    ensures Scan(t, o, s, hash, ref) == None
  {
    assert Headed(t, o, hash % t.nbuckets);
    FirstNone(t.symbias, |o.symtab|, (i: nat) => Candidate(t, o, s, hash, ref, i));
  }

  /** Each symbol passes the filter with its own hash. */
  lemma NeverRejected(t: GnuTable, o: Object, hash: nat, i: nat)
    requires WellFormed(t, o) && t.symbias <= i < |o.symtab| && NameHash(o, i) == hash
    ensures Bloom(t, hash)
  {
    assert Filtered(t, o, i);
  }

  lemma RejectedAbsent(t: GnuTable, o: Object, hash: nat)
    requires WellFormed(t, o) && !Bloom(t, hash)
    ensures forall i :: t.symbias <= i < |o.symtab| ==> NameHash(o, i) != hash
  {
    forall i | t.symbias <= i < |o.symtab| ensures NameHash(o, i) != hash {
      if NameHash(o, i) == hash { NeverRejected(t, o, hash, i); }
    }
  }

  /** With two or more buckets, equality up to the lowest bit inside one bucket is equality. */
  lemma SameHash(a: nat, b: nat, n: nat)
    requires n >= 2 && a % n == b % n && a / 2 == b / 2
    ensures a == b
  {
    if a < b {
      NextRemainder(a, n);
    } else if b < a {
      NextRemainder(b, n);
    }
  }

  lemma NextRemainder(a: nat, n: nat)
    requires n >= 2
    ensures (a + 1) % n != a % n
  {
    var q, r := a / n, a % n;
    if r + 1 < n {
      ModIs(a + 1, n, q, r + 1);
    } else {
      assert a + 1 == n * (q + 1);
      ModIs(a + 1, n, q + 1, 0);
    }
  }

  lemma FilterAgrees(t: GnuTable, o: Object, s: name, hash: nat, ref: Option<nat>)
    requires WellFormed(t, o) && t.nbuckets >= 2 && !Bloom(t, hash)
    ensures Scan(t, o, s, hash, ref) == None
  {
    var p := (i: nat) => Candidate(t, o, s, hash, ref, i);
    forall i | t.symbias <= i < |o.symtab| ensures !p(i) {
      if p(i) {
        SameHash(NameHash(o, i), hash, t.nbuckets);
        NeverRejected(t, o, hash, i);
      }
    }
    FirstNone(t.symbias, |o.symtab|, p);
  }

  function GnuResult(t: GnuTable, o: Object, s: name, hash: nat, ref: Option<nat>): Option<nat>
    requires t.nbuckets > 0 && |t.bitmask| > 0
  {
    if Bloom(t, hash) then Scan(t, o, s, hash, ref) else None
  }

  /** `do_lookup_map` on a GNU hash table. */
  method LookupGnu(t: GnuTable, o: Object, s: name, hash: nat, ref: Option<nat>) returns (r: Option<nat>)
    requires WellFormed(t, o)
    ensures r == GnuResult(t, o, s, hash, ref)
  {
    var word := Word(t, hash);
    var hashbit1, hashbit2 := hash % 64, hash / Pow2(t.shift) % 64;
    r := None;
    if Bit(word, hashbit1) && Bit(word, hashbit2) {
      var bucket := t.buckets[hash % t.nbuckets];
      if bucket != 0 {
        r := WalkChain(t, o, s, hash, ref, bucket);
      } else {
        EmptyBucket(t, o, s, hash, ref);
      }
    }
  }

  /** The hash that differs in the lowest bit only. */
  function Flip(hash: nat): nat
  {
    if hash % 2 == 0 then hash + 1 else hash - 1
  }

  /** A symbol that matches `s` and has the neighbouring hash. */
  ghost predicate Neighbour(t: GnuTable, o: Object, s: name, hash: nat, ref: Option<nat>, i: nat)
  {
    t.symbias <= i < |o.symtab| && NameHash(o, i) == Flip(hash) && Matches(o, i, s, ref)
  }

  /** In a table with one bucket, a rejected hash makes a candidate of the neighbouring hash only. */
  lemma RejectedCandidates(t: GnuTable, o: Object, s: name, hash: nat, ref: Option<nat>, i: nat)
    requires WellFormed(t, o) && !Bloom(t, hash) && t.nbuckets == 1 && t.symbias <= i < |o.symtab|
    ensures Candidate(t, o, s, hash, ref, i) <==> Neighbour(t, o, s, hash, ref, i)
  {
    RejectedAbsent(t, o, hash);
  }

  /** The lookup differs from the plain scan exactly when the filter rejects the hash, there is only
      one bucket, and a symbol with the neighbouring hash matches. So with two or more buckets it
      never does, and neither for a hash that some symbol has. */
  lemma LookupIsScan(t: GnuTable, o: Object, s: name, hash: nat, ref: Option<nat>)
    requires WellFormed(t, o)
    ensures GnuResult(t, o, s, hash, ref) != Scan(t, o, s, hash, ref) <==>
      !Bloom(t, hash) && t.nbuckets == 1 && exists i: nat :: Neighbour(t, o, s, hash, ref, i)
    ensures (exists i :: t.symbias <= i < |o.symtab| && NameHash(o, i) == hash) ==>
      GnuResult(t, o, s, hash, ref) == Scan(t, o, s, hash, ref)
  {
    if !Bloom(t, hash) {
      RejectedAbsent(t, o, hash);
      if t.nbuckets >= 2 {
        FilterAgrees(t, o, s, hash, ref);
      } else {
        var p := (i: nat) => Candidate(t, o, s, hash, ref, i);
        FirstFound(t.symbias, |o.symtab|, p);
        forall i: nat | t.symbias <= i < |o.symtab| ensures p(i) <==> Neighbour(t, o, s, hash, ref, i) {
          RejectedCandidates(t, o, s, hash, ref, i);
        }
      }
    }
  }

  // ---------------------------------------------------------------- a name the filter loses

  /** "aMZUEHBV", a symbol whose hash is that of "a" but for the lowest bit. */
  const LONG_NAME: seq<byte> := [97, 77, 90, 85, 69, 72, 66, 86]

  function OneSymbol(): Object
  {
    Object([Sym(0, 0, 0, 0), Sym(0, 4096, 7, 18)], LONG_NAME + [0])
  }

  /** One bucket, and a filter word with bit 7 only. */
  function OneBucket(): GnuTable
  {
    GnuTable(1, 1, 0, [128], [1], [177671])
  }

  lemma ShortHash(s: name)
    requires s == [97]
    ensures GnuHash(s, |s|) == 177670
  {
    assert GnuHash(s, 0) == 5381;
  }

  lemma LongHash(s: name)
    requires s == LONG_NAME
    ensures GnuHash(s, |s|) == 177671
  {
    assert GnuHash(s, 1) == 177670;
    assert GnuHash(s, 2) == 5863187;
    assert GnuHash(s, 3) == 193485261;
    assert GnuHash(s, 4) == 2090046402;
    assert GnuHash(s, 5) == 252054599;
    assert GnuHash(s, 6) == 4022834543;
    assert GnuHash(s, 7) == 3904521105;
  }

  lemma OneName()
    ensures StringAt(OneSymbol().strtab, 0) == LONG_NAME && NameHash(OneSymbol(), 1) == 177671
  {
    var strtab := LONG_NAME + [0];
    assert StringAt(strtab, 8) == [];
    assert StringAt(strtab, 7) == [86];
    assert StringAt(strtab, 6) == [66, 86];
    assert StringAt(strtab, 5) == [72, 66, 86];
    assert StringAt(strtab, 4) == [69, 72, 66, 86];
    assert StringAt(strtab, 3) == [85, 69, 72, 66, 86];
    assert StringAt(strtab, 2) == [90, 85, 69, 72, 66, 86];
    assert StringAt(strtab, 1) == [77, 90, 85, 69, 72, 66, 86];
    LongHash(LONG_NAME);
  }

  lemma OneFilter(hash: nat)
    requires hash == 177670 || hash == 177671
    ensures Bloom(OneBucket(), hash) <==> hash == 177671
  {
    assert And(hash / 64, 0) == 0;
    assert Pow2(6) == 64 && Pow2(7) == 128;
  }

  lemma OneWellFormed(t: GnuTable, o: Object, h: nat)
    requires t == OneBucket() && o == OneSymbol() && h == NameHash(o, 1) && h == 177671
    ensures WellFormed(t, o)
  {
    OneFilter(h);
    assert |t.bitmask| == Pow2(0);
    assert Filtered(t, o, 1);
    OneChained(t, o);
    OneHead(t, o);
  }

  lemma OneChained(t: GnuTable, o: Object)
    requires t.nbuckets == 1 && t.symbias == 1 && t.chain == [177671] && |o.symtab| == 2 && NameHash(o, 1) == 177671
    ensures Chained(t, o, 1)
  {
  }

  lemma OneHead(t: GnuTable, o: Object)
    requires t.nbuckets == |t.buckets| == 1 && t.buckets[0] == t.symbias == 1 && |o.symtab| == 2
    ensures Headed(t, o, 0)
  {
  }

  lemma OneFound(t: GnuTable, o: Object, s: name, hash: nat)
    requires t == OneBucket() && o == OneSymbol() && NameHash(o, 1) == 177671 && hash == 177670 && s == [97]
    ensures Scan(t, o, s, hash, None) == Some(1)
  {
    assert Candidate(t, o, s, hash, None, 1);
    FirstUnique(1, 2, (i: nat) => Candidate(t, o, s, hash, None, i), 1);
  }

  /** With one bucket the filter can reject a name that the scan finds: looking up "a", the symbol
      above is a candidate, but the bit of "a" is not set. */
  lemma FilterLoses(t: GnuTable, o: Object, s: name, hash: nat)
    requires t == OneBucket() && o == OneSymbol() && s == [97] && hash == GnuHash(s, |s|)
    ensures WellFormed(t, o) && !Bloom(t, hash) && Scan(t, o, s, hash, None) == Some(1)
  {
    OneName();
    OneWellFormed(t, o, NameHash(o, 1));
    ShortHash(s);
    OneFilter(hash);
    OneFound(t, o, s, hash);
  }

  // ---------------------------------------------------------------- System V hash tables

  datatype SysvTable = SysvTable(buckets: seq<nat>, chain: seq<nat>)

  /** The symbols on the chain that starts at `x`. */
  function Path(t: SysvTable, x: nat, fuel: nat): seq<nat>
    decreases fuel
  {
    if x == 0 || x >= |t.chain| || fuel == 0 then [] else [x] + Path(t, t.chain[x], fuel - 1)
  }

  predicate Ends(t: SysvTable, x: nat, fuel: nat)
    decreases fuel
  {
    x == 0 || (x < |t.chain| && fuel > 0 && Ends(t, t.chain[x], fuel - 1))
  }

  /** Chains parallel the symbol table and end. */
  ghost predicate SysvOk(t: SysvTable, o: Object)
  {
    && |t.buckets| > 0 && |t.chain| == |o.symtab|
    && forall b :: 0 <= b < |t.buckets| ==> Ends(t, t.buckets[b], |t.chain|)
  }

  /** The first symbol of `path` with property `p`. */
  function FirstIn(path: seq<nat>, p: nat -> bool): Option<nat>
  {
    if path == [] then None else if p(path[0]) then Some(path[0]) else FirstIn(path[1..], p)
  }

  function SysvResult(t: SysvTable, o: Object, s: name, hash: nat, ref: Option<nat>): Option<nat>
    requires |t.buckets| > 0
  {
    FirstIn(Path(t, t.buckets[hash % |t.buckets|], |t.chain|), (i: nat) => i < |o.symtab| && Matches(o, i, s, ref))
  }

  /** `do_lookup_map` on a System V hash table. */
  method LookupSysv(t: SysvTable, o: Object, s: name, hash: nat, ref: Option<nat>) returns (r: Option<nat>)
    requires SysvOk(t, o)
    ensures r == SysvResult(t, o, s, hash, ref)
  {
    ghost var p := (i: nat) => i < |o.symtab| && Matches(o, i, s, ref);
    ghost var fuel: nat := |t.chain|;
    var symidx := t.buckets[hash % |t.buckets|];
    while symidx != 0
      invariant Ends(t, symidx, fuel)
      invariant FirstIn(Path(t, symidx, fuel), p) == SysvResult(t, o, s, hash, ref)
      decreases fuel
    {
      if Matches(o, symidx, s, ref) {
        return Some(symidx);
      }
      symidx, fuel := t.chain[symidx], fuel - 1;
    }
    return None;
  }

  lemma {:induction false} FirstInFound(path: seq<nat>, p: nat -> bool)
    ensures
      match FirstIn(path, p)
      case None => forall x :: x in path ==> !p(x)
      case Some(x) => exists k: nat :: FirstAt(path, p, k) && path[k] == x
  {
    if path != [] {
      if p(path[0]) {
        assert FirstAt(path, p, 0);
      } else {
        FirstInFound(path[1..], p);
        if FirstIn(path[1..], p).Some? {
          var k: nat :| FirstAt(path[1..], p, k) && path[1..][k] == FirstIn(path, p).value;
          FirstAtNext(path, p, k);
        }
      }
    }
  }

  /** Symbol `k` of the path has property `p`, and none before it. */
  ghost predicate FirstAt(path: seq<nat>, p: nat -> bool, k: nat)
  {
    k < |path| && p(path[k]) && forall j :: 0 <= j < k ==> !p(path[j])
  }

  lemma FirstInIs(path: seq<nat>, p: nat -> bool, x: nat)
    ensures FirstIn(path, p) == Some(x) <==> exists k: nat :: FirstAt(path, p, k) && path[k] == x
  {
    FirstInFound(path, p);
    if FirstIn(path, p).Some? {
      var k: nat :| FirstAt(path, p, k) && path[k] == FirstIn(path, p).value;
      assert forall j: nat :: FirstAt(path, p, j) ==> j == k;
    } else {
      forall k: nat | k < |path| ensures !FirstAt(path, p, k) {
        assert path[k] in path;
      }
    }
  }

  lemma FirstAtNext(path: seq<nat>, p: nat -> bool, k: nat)
    requires path != [] && !p(path[0]) && FirstAt(path[1..], p, k)
    ensures FirstAt(path, p, k + 1)
  {
    forall j | 0 <= j < k + 1 ensures !p(path[j]) {
      if j > 0 { assert path[j] == path[1..][j - 1]; }
    }
  }

  /** The hash of a symbol's name in words below `word`. */
  function SysvHash(o: Object, i: nat, word: nat): nat
    requires i < |o.symtab| && word > 0
  {
    var s := StringAt(o.strtab, o.symtab[i].name);
    AbiHash(s, |s|, word)
  }

  /** A table as a linker writes it that computes the hash in words below `word`: the chain of a bucket
      has exactly the symbols of that remainder. */
  ghost predicate SysvComplete(t: SysvTable, o: Object, word: nat)
    requires word > 0
  {
    && SysvOk(t, o)
    && forall b, i :: 0 <= b < |t.buckets| && 0 < i < |o.symtab| ==>
         (i in Path(t, t.buckets[b], |t.chain|) <==> SysvHash(o, i, word) % |t.buckets| == b)
  }

  /** Then a symbol is found if and only if one of the right remainder matches, whatever the word size
      of the linker. */
  lemma SysvFinds(t: SysvTable, o: Object, word: nat, s: name, hash: nat, ref: Option<nat>)
    requires word > 0 && SysvComplete(t, o, word)
    ensures SysvResult(t, o, s, hash, ref) != None <==>
      exists i :: 0 < i < |o.symtab| && SysvHash(o, i, word) % |t.buckets| == hash % |t.buckets| && Matches(o, i, s, ref)
  {
    var b := hash % |t.buckets|;
    var path := Path(t, t.buckets[b], |t.chain|);
    var p := (i: nat) => i < |o.symtab| && Matches(o, i, s, ref);
    FirstInFound(path, p);
    PathPositive(t, t.buckets[b], |t.chain|);
    if SysvResult(t, o, s, hash, ref) == None {
      forall i | 0 < i < |o.symtab| && SysvHash(o, i, word) % |t.buckets| == b ensures !Matches(o, i, s, ref) {
        assert i in path && !p(i);
      }
    } else {
      var k: nat :| FirstAt(path, p, k);
      assert path[k] in path;
    }
  }

  /** A symbol with exactly that name which `check_match` accepts. */
  ghost predicate Named(o: Object, s: name, ref: Option<nat>, i: nat)
  {
    0 < i < |o.symtab| && StringAt(o.strtab, o.symtab[i].name) == s && Matches(o, i, s, ref)
  }

  /** In a table of a linker that computes the hash in 32 bits, a name is found through its 64-bit hash
      if both hashes have the same remainder. If only symbols of that name match, it is found
      exactly then. */
  lemma SysvFinds32(t: SysvTable, o: Object, s: name, ref: Option<nat>, i: nat)
    requires SysvComplete(t, o, WORD32) && Named(o, s, ref, i)
    ensures var wide, narrow, n := AbiHash(s, |s|, WORD_MAX), AbiHash(s, |s|, WORD32), |t.buckets|;
      && (wide % n == narrow % n ==> SysvResult(t, o, s, wide, ref) != None)
      && ((forall j :: 0 < j < |o.symtab| && Matches(o, j, s, ref) ==> Named(o, s, ref, j)) ==>
            (SysvResult(t, o, s, wide, ref) != None <==> wide % n == narrow % n))
  {
    SysvFinds(t, o, WORD32, s, AbiHash(s, |s|, WORD_MAX), ref);
    assert SysvHash(o, i, WORD32) == AbiHash(s, |s|, WORD32);
  }

  lemma {:induction false} PathPositive(t: SysvTable, x: nat, fuel: nat)
    ensures forall i :: i in Path(t, x, fuel) ==> 0 < i < |t.chain|
    decreases fuel
  {
    if x != 0 && x < |t.chain| && fuel > 0 { PathPositive(t, t.chain[x], fuel - 1); }
  }
}
