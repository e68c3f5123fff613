/** The list of loaded objects: `setup_elf_hash`, appending an object, and `do_lookup`. */
module ElfResolve {
  import opened Wrappers
  import opened Words
  import opened ElfHash
  import opened ElfLookup

  const STB_GLOBAL := 1
  const STB_WEAK := 2
  const STB_GNU_UNIQUE := 10

  // ---------------------------------------------------------------- hash tables in memory

  type u32 = w: int | 0 <= w < 0x1_0000_0000

  /** The 64-bit words of the filter, as pairs of 32-bit words. */
  function Pairs(ws: seq<u64>): (r: seq<u32>)
    ensures |r| == 2 * |ws|
  {
    if ws == [] then [] else [ws[0] % 0x1_0000_0000, ws[0] / 0x1_0000_0000] + Pairs(ws[1..])
  }

  function Unpaired(r: seq<u32>): (ws: seq<u64>)
    ensures |ws| == |r| / 2
  {
    if |r| < 2 then [] else [r[0] as int + 0x1_0000_0000 * r[1] as int] + Unpaired(r[2..])
  }

  lemma {:induction false} PairsBack(ws: seq<u64>)
    ensures Unpaired(Pairs(ws)) == ws
  {
    if ws != [] {
      PairsBack(ws[1..]);
      assert Pairs(ws)[2..] == Pairs(ws[1..]);
    }
  }

  /** The layout of `DT_GNU_HASH`: four words, the filter, the buckets, the chains. */
  function GnuWords(t: GnuTable): seq<nat>
  {
    [t.nbuckets, t.symbias, |t.bitmask|, t.shift] + Pairs(t.bitmask) + t.buckets + t.chain
  }

  /** `setup_elf_hash` for `DT_GNU_HASH`: it finds the parts of any table laid out that way. */
  method SetupGnu(hash32: seq<nat>, ghost t0: GnuTable) returns (t: GnuTable)
    requires hash32 == GnuWords(t0) && |t0.buckets| == t0.nbuckets
    requires forall i :: 0 <= i < |hash32| ==> hash32[i] < 0x1_0000_0000
    ensures t == t0
  {
    var at := 4;
    var nbuckets, symbias, nwords, shift := hash32[0], hash32[1], hash32[2], hash32[3];
    ghost var head, pairs := [t0.nbuckets, t0.symbias, |t0.bitmask|, t0.shift], Pairs(t0.bitmask);
    Parts(head, pairs, t0.buckets, t0.chain);
    var bitmask := Unpaired(hash32[at..at + 2 * nwords]);
    PairsBack(t0.bitmask);
    at := at + 2 * nwords;
    var buckets := hash32[at..at + nbuckets];
    at := at + nbuckets;
    t := GnuTable(nbuckets, symbias, shift, bitmask, buckets, hash32[at..]);
  }

  lemma Parts(a: seq<nat>, b: seq<nat>, c: seq<nat>, d: seq<nat>)
    ensures var w := a + b + c + d;
      && w[|a|..|a| + |b|] == b && w[|a| + |b|..|a| + |b| + |c|] == c && w[|a| + |b| + |c|..] == d
  {
  }

  /** The layout of `DT_HASH`: two counts, the buckets, the chains. */
  function SysvWords(t: SysvTable): seq<nat>
  {
    [|t.buckets|, |t.chain|] + t.buckets + t.chain
  }

  /** `setup_elf_hash` for `DT_HASH`. The number of chains is not looked at. */
  method SetupSysv(hash: seq<nat>, ghost t0: SysvTable) returns (t: SysvTable)
    requires hash == SysvWords(t0)
    ensures t == t0
  {
    var nbuckets := hash[0];
    Parts([], [|t0.buckets|, |t0.chain|], t0.buckets, t0.chain);
    assert [] + [|t0.buckets|, |t0.chain|] == [|t0.buckets|, |t0.chain|];
    t := SysvTable(hash[2..2 + nbuckets], hash[2 + nbuckets..]);
  }

  // ---------------------------------------------------------------- one object

  datatype HashTable = Gnu(gnu: GnuTable) | Sysv(sysv: SysvTable)

  ghost predicate TableOk(t: HashTable, o: Object)
  {
    match t
    case Gnu(g) => WellFormed(g, o)
    case Sysv(v) => SysvOk(v, o)
  }

  /** What an object offers for a name. */
  datatype Offer = Nothing | Weak(sym: nat) | Strong(sym: nat)

  function OfferOf(o: Object, r: Option<nat>): Offer
  {
    if r == None || r.value >= |o.symtab| then Nothing
    else
      var binding := Binding(o.symtab[r.value].info);
      if binding == STB_WEAK then Weak(r.value)
      else if binding == STB_GLOBAL || binding == STB_GNU_UNIQUE then Strong(r.value)
      else Nothing
  }

  function MapResult(t: HashTable, o: Object, s: name, ref: Option<nat>): Option<nat>
    requires t.Gnu? ==> t.gnu.nbuckets > 0 && |t.gnu.bitmask| > 0
    requires t.Sysv? ==> |t.sysv.buckets| > 0
  {
    match t
    case Gnu(g) => GnuResult(g, o, s, GnuHash(s, |s|), ref)
    case Sysv(v) => SysvResult(v, o, s, AbiHash(s, |s|, WORD_MAX), ref)
  }

  /** A result is a symbol of the object. */
  lemma ResultInRange(t: HashTable, o: Object, s: name, ref: Option<nat>)
    requires TableOk(t, o) && MapResult(t, o, s, ref) != None
    ensures MapResult(t, o, s, ref).value < |o.symtab|
  {
    match t {
      case Gnu(g) =>
        var hash := GnuHash(s, |s|);
        FirstFound(g.symbias, |o.symtab|, (i: nat) => Candidate(g, o, s, hash, ref, i));
      case Sysv(v) =>
        var hash := AbiHash(s, |s|, WORD_MAX);
        FirstInFound(Path(v, v.buckets[hash % |v.buckets|], |v.chain|),
                     (i: nat) => i < |o.symtab| && Matches(o, i, s, ref));
    }
  }

  // ---------------------------------------------------------------- resolution

  /** The first strong offer, else the first weak one. */
  function Resolve(offers: seq<Offer>): (r: Option<nat>)
    ensures r.Some? ==> r.value < |offers| && !offers[r.value].Nothing?
  {
    var strong, weak := (i: nat) => i < |offers| && offers[i].Strong?, (i: nat) => i < |offers| && offers[i].Weak?;
    FirstFound(0, |offers|, strong);
    FirstFound(0, |offers|, weak);
    if FirstOf(0, |offers|, strong) != None then FirstOf(0, |offers|, strong) else FirstOf(0, |offers|, weak)
  }

  lemma ResolveMeans(offers: seq<Offer>)
    ensures
      match Resolve(offers)
      case None => forall i :: 0 <= i < |offers| ==> offers[i].Nothing?
      case Some(k) =>
        && k < |offers| && !offers[k].Nothing?
        && (offers[k].Strong? ==> forall i :: 0 <= i < k ==> !offers[i].Strong?)
        && (offers[k].Weak? ==>
              && (forall i :: 0 <= i < |offers| ==> !offers[i].Strong?)
              && (forall i :: 0 <= i < k ==> offers[i].Nothing?))
  {
    var strong, weak := (i: nat) => i < |offers| && offers[i].Strong?, (i: nat) => i < |offers| && offers[i].Weak?;
    FirstFound(0, |offers|, strong);
    FirstFound(0, |offers|, weak);
    assert forall i :: 0 <= i < |offers| ==> (strong(i) <==> offers[i].Strong?) && (weak(i) <==> offers[i].Weak?);
  }

  /** Objects loaded later never change a name that is resolved strongly; they change one that is
      resolved weakly, or not at all, to their first strong offer if they have one. */
  lemma LoadedLater(offers: seq<Offer>, more: seq<Offer>)
    ensures var r, r' := Resolve(offers), Resolve(offers + more);
      && (r != None && offers[r.value].Strong? ==> r' == r)
      && (r != None && offers[r.value].Weak? && r' != r ==>
            r'.Some? && r'.value >= |offers| && more[r'.value - |offers|].Strong?)
      && (r != None && offers[r.value].Weak? && (forall i :: 0 <= i < |more| ==> !more[i].Strong?) ==> r' == r)
      && (r == None ==> r' == if Resolve(more) == None then None else Some(|offers| + Resolve(more).value))
  {
    var all := offers + more;
    ResolveMeans(offers);
    ResolveMeans(more);
    ResolveMeans(all);
    var r, r' := Resolve(offers), Resolve(all);
    assert forall i :: 0 <= i < |offers| ==> all[i] == offers[i];
    assert forall i :: 0 <= i < |more| ==> all[|offers| + i] == more[i];
    if r != None { assert all[r.value] == offers[r.value]; }
  }

  // ---------------------------------------------------------------- the list of loaded objects

  class LinkMap {
    const obj: Object
    const table: HashTable
    var next: LinkMap?
    var prev: LinkMap?

    constructor (obj: Object, table: HashTable)
      ensures this.obj == obj && this.table == table
    {
      this.obj, this.table, next, prev := obj, table, null, null;
    }
  }

  /** A symbol of a loaded object. */
  datatype Origin = Origin(home: LinkMap, sym: nat)

  ghost function OfferFrom(m: LinkMap, s: name, ref: Option<Origin>): Offer
    requires TableOk(m.table, m.obj)
  {
    OfferOf(m.obj, MapResult(m.table, m.obj, s, LocalRef(m, ref)))
  }

  /** The same, as a relation that keeps the search in the object out of sight. */
  ghost predicate Offered(m: LinkMap, s: name, ref: Option<Origin>, offer: Offer)
    requires TableOk(m.table, m.obj)
  {
    forall r {:trigger OfferOf(m.obj, r)} ::
      r == MapResult(m.table, m.obj, s, LocalRef(m, ref)) ==> offer == OfferOf(m.obj, r)
  }

  /** The two hashes of a name. */
  ghost predicate Hashes(s: name, fastHash: nat, hash: nat)
  {
    && (forall n {:trigger GnuHash(s, n)} :: n == |s| ==> fastHash == GnuHash(s, n))
    && (forall n {:trigger AbiHash(s, n, WORD_MAX)} :: n == |s| ==> hash == AbiHash(s, n, WORD_MAX))
  }

  function LocalRef(m: LinkMap, ref: Option<Origin>): Option<nat>
  {
    if ref.Some? && ref.value.home == m then Some(ref.value.sym) else None
  }

  ghost predicate AllOk(list: seq<LinkMap>)
  {
    forall i :: 0 <= i < |list| ==> TableOk(list[i].table, list[i].obj)
  }

  ghost function Offers(list: seq<LinkMap>, s: name, ref: Option<Origin>): (r: seq<Offer>)
    requires AllOk(list)
    ensures |r| == |list|
  {
    seq(|list|, i requires 0 <= i < |list| => OfferFrom(list[i], s, ref))
  }

  /** Objects loaded later add their offers at the end. */
  lemma OffersGrow(list: seq<LinkMap>, more: seq<LinkMap>, s: name, ref: Option<Origin>)
    requires AllOk(list) && AllOk(more)
    ensures AllOk(list + more) && Offers(list + more, s, ref) == Offers(list, s, ref) + Offers(more, s, ref)
  {
  }

  // ---------------------------------------------------------------- what a lookup finds

  /** The bindings by their numbers in the upper half of `st_info`. */
  predicate StrongAt(o: Object, i: nat)
  {
    i < |o.symtab| && (o.symtab[i].info / 16 == 1 || o.symtab[i].info / 16 == 10)
  }

  predicate WeakAt(o: Object, i: nat)
  {
    i < |o.symtab| && o.symtab[i].info / 16 == 2
  }

  /** Symbol `i` is defined, and its name begins with `s` unless it is the reference itself. */
  ghost predicate DefinedAs(o: Object, i: nat, s: name, ref: Option<nat>)
  {
    && i < |o.symtab|
    && var sym := o.symtab[i];
       && sym.shndx != 0 && (sym.value != 0 || sym.info % 16 == 6)
       && (ref == Some(i) || (sym.name + |s| <= |o.strtab| && o.strtab[sym.name..sym.name + |s|] == s))
  }

  /** Symbol `x` is the first match where the hash table leads: from the bucket of the GNU table, if the
      filter lets the name pass, or along the System V chain. */
  ghost predicate Reached(m: LinkMap, s: name, ref: Option<nat>, x: nat)
    requires TableOk(m.table, m.obj)
  {
    match m.table
    case Gnu(g) => ReachedGnu(g, m.obj, s, GnuHash(s, |s|), ref, x)
    case Sysv(v) => ReachedSysv(v, m.obj, s, AbiHash(s, |s|, WORD_MAX), ref, x)
  }

  ghost predicate ReachedGnu(g: GnuTable, o: Object, s: name, hash: nat, ref: Option<nat>, x: nat)
    requires g.nbuckets > 0 && |g.bitmask| > 0
  {
    Bloom(g, hash) && IsFirst(g.symbias, |o.symtab|, (i: nat) => Candidate(g, o, s, hash, ref, i), x)
  }

  ghost predicate ReachedSysv(v: SysvTable, o: Object, s: name, hash: nat, ref: Option<nat>, x: nat)
    requires |v.buckets| > 0
  {
    var path := Path(v, v.buckets[hash % |v.buckets|], |v.chain|);
    exists k: nat :: FirstAt(path, (i: nat) => i < |o.symtab| && Matches(o, i, s, ref), k) && path[k] == x
  }

  /** The search in an object returns the symbol that is reached. */
  lemma ReachedIff(m: LinkMap, s: name, ref: Option<nat>, x: nat)
    requires TableOk(m.table, m.obj)
    ensures MapResult(m.table, m.obj, s, ref) == Some(x) <==> Reached(m, s, ref, x)
  {
    var o := m.obj;
    match m.table {
      case Gnu(g) =>
        var hash := GnuHash(s, |s|);
        FirstIs(g.symbias, |o.symtab|, (i: nat) => Candidate(g, o, s, hash, ref, i), x);
      case Sysv(v) =>
        var path := Path(v, v.buckets[AbiHash(s, |s|, WORD_MAX) % |v.buckets|], |v.chain|);
        FirstInIs(path, (i: nat) => i < |o.symtab| && Matches(o, i, s, ref), x);
    }
  }

  lemma ReachedMatches(m: LinkMap, s: name, ref: Option<nat>, x: nat)
    requires TableOk(m.table, m.obj) && Reached(m, s, ref, x)
    ensures x < |m.obj.symtab| && Matches(m.obj, x, s, ref) && DefinedAs(m.obj, x, s, ref)
  {
  }

  /** An offer is the symbol that is reached, by its binding. */
  lemma OfferMeans(m: LinkMap, s: name, ref: Option<Origin>, x: nat)
    requires TableOk(m.table, m.obj)
    ensures var reached := Reached(m, s, LocalRef(m, ref), x);
      && (OfferFrom(m, s, ref) == Strong(x) <==> reached && StrongAt(m.obj, x))
      && (OfferFrom(m, s, ref) == Weak(x) <==> reached && WeakAt(m.obj, x))
  {
    ReachedIff(m, s, LocalRef(m, ref), x);
  }

  /** Object `j` of the list leads to a symbol that is strong, or weak. */
  ghost predicate Strongly(list: seq<LinkMap>, s: name, ref: Option<Origin>, j: nat)
    requires AllOk(list) && j < |list|
  {
    exists x: nat :: Reached(list[j], s, LocalRef(list[j], ref), x) && StrongAt(list[j].obj, x)
  }

  ghost predicate Weakly(list: seq<LinkMap>, s: name, ref: Option<Origin>, j: nat)
    requires AllOk(list) && j < |list|
  {
    exists x: nat :: Reached(list[j], s, LocalRef(list[j], ref), x) && WeakAt(list[j].obj, x)
  }

  lemma OfferKinds(list: seq<LinkMap>, s: name, ref: Option<Origin>, j: nat)
    requires AllOk(list) && j < |list|
    ensures Offers(list, s, ref)[j].Strong? <==> Strongly(list, s, ref, j)
    ensures Offers(list, s, ref)[j].Weak? <==> Weakly(list, s, ref, j)
  {
    var m, offer := list[j], OfferFrom(list[j], s, ref);
    if !offer.Nothing? { OfferMeans(m, s, ref, offer.sym); }
    forall x: nat ensures Reached(m, s, LocalRef(m, ref), x) && StrongAt(m.obj, x) ==> offer.Strong? {
      OfferMeans(m, s, ref, x);
    }
    forall x: nat ensures Reached(m, s, LocalRef(m, ref), x) && WeakAt(m.obj, x) ==> offer.Weak? {
      OfferMeans(m, s, ref, x);
    }
  }

  /** A symbol of object `k` is the definition of `s`: it is defined under that name and global, unique
      or weak. If it is strong, no object before it leads to a strong symbol. If it is weak, no object
      leads to a strong one, and none before it to a weak one. */
  ghost predicate ResolvedAt(list: seq<LinkMap>, s: name, ref: Option<Origin>, r: Origin, k: nat)
    requires AllOk(list)
  {
    && k < |list| && r.home == list[k]
    && var o, local := r.home.obj, LocalRef(r.home, ref);
       && Reached(r.home, s, local, r.sym) && DefinedAs(o, r.sym, s, local)
       && (StrongAt(o, r.sym) || WeakAt(o, r.sym))
       && (StrongAt(o, r.sym) ==> forall j :: 0 <= j < k ==> !Strongly(list, s, ref, j))
       && (WeakAt(o, r.sym) ==>
             && (forall j :: 0 <= j < |list| ==> !Strongly(list, s, ref, j))
             && (forall j :: 0 <= j < k ==> !Weakly(list, s, ref, j)))
  }

  ghost predicate Resolved(list: seq<LinkMap>, s: name, ref: Option<Origin>, r: Option<Origin>)
    requires AllOk(list)
  {
    match r
    case None => forall j :: 0 <= j < |list| ==> !Strongly(list, s, ref, j) && !Weakly(list, s, ref, j)
    case Some(origin) => exists k: nat :: ResolvedAt(list, s, ref, origin, k)
  }

  lemma ResolvedMeans(list: seq<LinkMap>, s: name, ref: Option<Origin>)
    requires AllOk(list)
    ensures var offers := Offers(list, s, ref);
      Resolved(list, s, ref, OriginOf(list, offers, Resolve(offers)))
  {
    var offers := Offers(list, s, ref);
    ResolveMeans(offers);
    forall j | 0 <= j < |list|
      ensures (offers[j].Strong? <==> Strongly(list, s, ref, j)) && (offers[j].Weak? <==> Weakly(list, s, ref, j))
    {
      OfferKinds(list, s, ref, j);
    }
    if Resolve(offers).Some? {
      var k := Resolve(offers).value;
      var x := offers[k].sym;
      OfferMeans(list[k], s, ref, x);
      ReachedMatches(list[k], s, LocalRef(list[k], ref), x);
      assert ResolvedAt(list, s, ref, Origin(list[k], x), k);
    }
  }

  /** Symbol `i` is named `s` and entered in the hash table, and it is the only one that matches. In a
      System V table the name must have the same remainder in 64 bits as in the 32 bits of the linker. */
  ghost predicate Sole(m: LinkMap, s: name, ref: Option<nat>, i: nat)
    requires TableOk(m.table, m.obj)
  {
    && Named(m.obj, s, ref, i)
    && (forall j :: 0 <= j < |m.obj.symtab| && Matches(m.obj, j, s, ref) ==> j == i)
    && match m.table
       case Gnu(g) => g.symbias <= i
       case Sysv(v) =>
         && SysvComplete(v, m.obj, WORD32)
         && AbiHash(s, |s|, WORD_MAX) % |v.buckets| == AbiHash(s, |s|, WORD32) % |v.buckets|
  }

  lemma NamedInGnu(g: GnuTable, o: Object, s: name, hash: nat, ref: Option<nat>, i: nat)
    requires WellFormed(g, o) && g.symbias <= i && Named(o, s, ref, i) && hash == GnuHash(s, |s|)
    ensures GnuResult(g, o, s, hash, ref) != None
  {
    NeverRejected(g, o, hash, i);
    CandidateScanned(g, o, s, hash, ref, i);
  }

  lemma CandidateScanned(g: GnuTable, o: Object, s: name, hash: nat, ref: Option<nat>, i: nat)
    requires g.nbuckets > 0 && g.symbias <= i && Candidate(g, o, s, hash, ref, i)
    ensures Scan(g, o, s, hash, ref) != None
  {
    var p := (j: nat) => Candidate(g, o, s, hash, ref, j);
    FirstFound(g.symbias, |o.symtab|, p);
    assert p(i);
  }

  lemma SoleReached(m: LinkMap, s: name, ref: Option<nat>, i: nat)
    requires TableOk(m.table, m.obj) && Sole(m, s, ref, i)
    ensures Reached(m, s, ref, i)
  {
    match m.table {
      case Gnu(g) => NamedInGnu(g, m.obj, s, GnuHash(s, |s|), ref, i);
      case Sysv(v) => SysvFinds32(v, m.obj, s, ref, i);
    }
    var r := MapResult(m.table, m.obj, s, ref);
    ReachedIff(m, s, ref, r.value);
    ReachedMatches(m, s, ref, r.value);
  }

  /** A name that is the name of one strong or weak symbol of some object is found, and found strongly
      if that symbol is strong. */
  lemma SoleIsFound(list: seq<LinkMap>, s: name, ref: Option<Origin>, r: Option<Origin>, j: nat, x: nat)
    requires AllOk(list) && Resolved(list, s, ref, r) && j < |list| && Sole(list[j], s, LocalRef(list[j], ref), x)
    ensures StrongAt(list[j].obj, x) || WeakAt(list[j].obj, x) ==> r.Some?
    ensures StrongAt(list[j].obj, x) ==> r.Some? && StrongAt(r.value.home.obj, r.value.sym)
  {
    SoleReached(list[j], s, LocalRef(list[j], ref), x);
    assert StrongAt(list[j].obj, x) ==> Strongly(list, s, ref, j);
    assert WeakAt(list[j].obj, x) ==> Weakly(list, s, ref, j);
  }

  /** A strong symbol wins over all weak ones, also over those of earlier objects: it is the definition if
      no symbol of an earlier object matches and is strong. */
  lemma StrongWins(list: seq<LinkMap>, s: name, ref: Option<Origin>, r: Option<Origin>, j: nat, x: nat)
    requires AllOk(list) && Resolved(list, s, ref, r)
    requires j < |list| && Sole(list[j], s, LocalRef(list[j], ref), x) && StrongAt(list[j].obj, x)
    requires forall i, y: nat :: 0 <= i < j && StrongAt(list[i].obj, y) ==>
      !Matches(list[i].obj, y, s, LocalRef(list[i], ref))
    ensures r == Some(Origin(list[j], x))
  {
    SoleIsFound(list, s, ref, r, j, x);
    SoleReached(list[j], s, LocalRef(list[j], ref), x);
    assert Strongly(list, s, ref, j);
    var k: nat :| ResolvedAt(list, s, ref, r.value, k);
    ReachedMatches(list[k], s, LocalRef(list[k], ref), r.value.sym);
  }

  /** "ab", weak, and behind it in the only chain "a", global. */
  function TwoNames(): Object
  {
    Object([Sym(0, 0, 0, 0), Sym(0, 4096, 7, 34), Sym(3, 8192, 7, 18)], [97, 98, 0, 97, 0])
  }

  /** Only the first match of an object counts. Looking up "a" leads to "ab", which begins with it and is
      weak, so the strong symbol of that very name is passed over. */
  lemma StrongPassedOver(v: SysvTable, o: Object, s: name, hash: nat)
    requires v == SysvTable([1], [0, 2, 0]) && o == TwoNames() && s == [97]
    ensures SysvOk(v, o) && ReachedSysv(v, o, s, hash, None, 1) && WeakAt(o, 1)
    ensures Named(o, s, None, 2) && StrongAt(o, 2) && !ReachedSysv(v, o, s, hash, None, 2)
  {
    var p := (i: nat) => i < |o.symtab| && Matches(o, i, s, None);
    var path := Path(v, 1, 3);
    assert path == [1, 2] by {
      assert Path(v, 0, 1) == [];
      assert Path(v, 2, 2) == [2];
    }
    assert Ends(v, 0, 1) && Ends(v, 2, 2);
    assert StringAt(o.strtab, 4) == [];
    assert o.strtab[0..1] == [97] && o.strtab[3..4] == [97];
    assert p(1) && FirstAt(path, p, 0);
    FirstInIs(path, p, 1);
    FirstInIs(path, p, 2);
  }

  /** Object `i` of the list points to its neighbours. */
  ghost predicate LinksAt(list: seq<LinkMap>, i: nat)
    requires i < |list|
    reads list[i]
  {
    && list[i].next == (if i + 1 < |list| then list[i + 1] else null)
    && list[i].prev == (if i > 0 then list[i - 1] else null)
  }

  /** `g_loaded_maps`. */
  class Loader {
    var maps: LinkMap?
    ghost var list: seq<LinkMap>

    ghost predicate Valid()
      reads this, list
    {
      && maps == (if list == [] then null else list[0])
      && (forall i :: 0 <= i < |list| ==> LinksAt(list, i))
      && (forall i, j :: 0 <= i < j < |list| ==> list[i] != list[j])
      && AllOk(list)
    }

    constructor ()
      ensures Valid() && list == []
    {
      maps, list := null, [];
    }

    /** The end of `load_elf_object_by_handle`: the object goes to the end of the list. */
    method Append(m: LinkMap)
      requires Valid() && m !in list && TableOk(m.table, m.obj)
      modifies this, m, list
      ensures Valid() && list == old(list) + [m]
    {
      m.next := null;
      if maps == null {
        m.prev := null;
        maps := m;
      } else {
        var end: LinkMap := maps;
        ghost var i := 0;
        assert LinksAt(list, 0);
        while end.next != null
          invariant 0 <= i < |list| && end == list[i] && LinksAt(list, i)
          invariant Valid() && m.next == null
          decreases |list| - i
        {
          end, i := end.next, i + 1;
        }
        end.next := m;
        m.prev := end;
      }
      ghost var n := |list|;
      list := list + [m];
      forall i | 0 <= i < |list| ensures LinksAt(list, i) {
        if i < n { assert old(LinksAt(list, i)); }
      }
    }

    /** `do_lookup_map`. */
    method LookupMap(m: LinkMap, s: name, ref: Option<Origin>, fastHash: nat, hash: nat) returns (r: Option<nat>)
      requires TableOk(m.table, m.obj) && Hashes(s, fastHash, hash)
      ensures r == MapResult(m.table, m.obj, s, LocalRef(m, ref)) && (r.Some? ==> r.value < |m.obj.symtab|)
    {
      match m.table {
        case Gnu(g) => r := LookupGnu(g, m.obj, s, fastHash, LocalRef(m, ref));
        case Sysv(v) => r := LookupSysv(v, m.obj, s, hash, LocalRef(m, ref));
      }
      if r.Some? { ResultInRange(m.table, m.obj, s, LocalRef(m, ref)); }
    }

    /** The definition an object has for a name, by its binding. */
    method LookupOffer(m: LinkMap, s: name, ref: Option<Origin>, fastHash: nat, hash: nat, ghost expected: Offer)
      returns (offer: Offer)
      requires TableOk(m.table, m.obj) && Hashes(s, fastHash, hash) && Offered(m, s, ref, expected)
      ensures offer == expected
    {
      var sym := LookupMap(m, s, ref, fastHash, hash);
      assert expected == OfferOf(m.obj, sym);
      if sym == None {
        return Nothing;
      }
      var binding := Binding(m.obj.symtab[sym.value].info);
      if binding == STB_WEAK {
        offer := Weak(sym.value);
      } else if binding == STB_GLOBAL || binding == STB_GNU_UNIQUE {
        offer := Strong(sym.value);
      } else {
        offer := Nothing;
      }
    }

    /** `do_lookup`: the first strong definition in load order, else the first weak one. */
    method DoLookup(s: name, ref: Option<Origin>) returns (r: Option<Origin>)
      requires Valid()
      ensures
        var offers := Offers(list, s, ref);
        r == OriginOf(list, offers, Resolve(offers))
      ensures Resolved(list, s, ref, r)
      ensures forall j: nat, x: nat :: j < |list| && Sole(list[j], s, LocalRef(list[j], ref), x) ==>
        && (StrongAt(list[j].obj, x) || WeakAt(list[j].obj, x) ==> r.Some?)
        && (StrongAt(list[j].obj, x) ==> StrongAt(r.value.home.obj, r.value.sym))
    {
      var fastHash := FastCompute(s);
      var hash := Compute(s);
      r := Search(s, ref, fastHash, hash, Offers(list, s, ref));
      ResolvedMeans(list, s, ref);
      forall j: nat, x: nat | j < |list| && Sole(list[j], s, LocalRef(list[j], ref), x)
        ensures StrongAt(list[j].obj, x) || WeakAt(list[j].obj, x) ==> r.Some?
        ensures StrongAt(list[j].obj, x) ==> r.Some? && StrongAt(r.value.home.obj, r.value.sym)
      {
        SoleIsFound(list, s, ref, r, j, x);
      }
    }

    method Search(s: name, ref: Option<Origin>, fastHash: nat, hash: nat, ghost offers: seq<Offer>)
      returns (r: Option<Origin>)
      requires Valid() && Hashes(s, fastHash, hash)
      requires |offers| == |list| && forall i :: 0 <= i < |list| ==> Offered(list[i], s, ref, offers[i])
      ensures r == OriginOf(list, offers, Resolve(offers))
    {
      var m, weak: Option<Origin> := maps, None;
      ghost var k, w := 0, None;
      while m != null
        invariant 0 <= k <= |list| && m == (if k < |list| then list[k] else null)
        invariant Seen(offers, k, w) && weak == OriginOf(list, offers, w)
        decreases |list| - k
      {
        assert LinksAt(list, k);
        var offer := LookupOffer(m, s, ref, fastHash, hash, offers[k]);
        match offer {
          case Weak(sym) =>
            if weak == None {
              weak, w := Some(Origin(m, sym)), Some(k);
            }
          case Strong(sym) =>
            FirstIsResolved(offers, k, w);
            return Some(Origin(m, sym));
          case Nothing =>
        }
        m, k := m.next, k + 1;
      }
      NoStrong(offers, w);
      return weak;
    }
  }

  /** Among the first `k` offers there is no strong one, and `w` is the first weak one. */
  ghost predicate Seen(offers: seq<Offer>, k: nat, w: Option<nat>)
  {
    && k <= |offers| && (forall i :: 0 <= i < k ==> !offers[i].Strong?)
    && (w == None ==> forall i :: 0 <= i < k ==> offers[i].Nothing?)
    && (w.Some? ==> w.value < k && offers[w.value].Weak? && forall i :: 0 <= i < w.value ==> offers[i].Nothing?)
  }

  ghost function OriginOf(list: seq<LinkMap>, offers: seq<Offer>, w: Option<nat>): Option<Origin>
    requires |offers| == |list| && (w.Some? ==> w.value < |list| && !offers[w.value].Nothing?)
  {
    if w == None then None else Some(Origin(list[w.value], offers[w.value].sym))
  }

  lemma FirstIsResolved(offers: seq<Offer>, k: nat, w: Option<nat>)
    requires Seen(offers, k, w) && k < |offers| && offers[k].Strong?
    ensures Resolve(offers) == Some(k)
  {
    ResolveMeans(offers);
  }

  lemma NoStrong(offers: seq<Offer>, w: Option<nat>)
    requires Seen(offers, |offers|, w)
    ensures Resolve(offers) == w
  {
    ResolveMeans(offers);
  }
}
