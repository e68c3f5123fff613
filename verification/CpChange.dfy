/** What changes in a checkpoint when something is written into its payloads. */
module CpChange {
  import opened Words
  import opened CpFormat

  /** Only the payload of item `k` has changed, and not in length. */
  ghost predicate Only(items: seq<Item>, items': seq<Item>, k: nat)
  {
    && k < |items| && |items'| == |items| && items[k].Oob? && items'[k].Oob?
    && |items'[k].payload| == |items[k].payload| && items' == items[k := items'[k]]
  }

  /** Only the word at `rel` has changed, to `w`. */
  ghost predicate WordSet(items: seq<Item>, items': seq<Item>, k: nat, rel: nat, w: u64)
  {
    && Only(items, items', k) && rel + 8 <= |items[k].payload| && WordAt(items'[k].payload, rel) == w
    && items'[k].payload[..rel] == items[k].payload[..rel]
    && items'[k].payload[rel + 8..] == items[k].payload[rel + 8..]
  }

  lemma OnlyOffsets(items: seq<Item>, items': seq<Item>, k: nat, j: nat)
    requires Only(items, items', k) && j <= |items|
    ensures Offset(items', j) == Offset(items, j)
  {
    SameOffsets(items, items', j);
  }

  lemma PokeWord(items: seq<Item>, k: nat, rel: nat, w: u64)
    requires k < |items| && items[k].Oob? && rel + 8 <= |items[k].payload|
    ensures WordSet(items, Poke(items, k, rel, Bytes(w)), k, rel, w)
  {
    var p := items[k].payload;
    WordPut(p, rel, w);
    PutPrefixKept(p, rel, Bytes(w));
    PutAway(p, rel, Bytes(w), rel + 8, |p| - rel - 8);
    var p' := Put(p, rel, Bytes(w));
    assert p'[rel + 8..] == p'[rel + 8..rel + 8 + (|p| - rel - 8)];
    assert p[rel + 8..] == p[rel + 8..rel + 8 + (|p| - rel - 8)];
  }

  lemma OtherWord(items: seq<Item>, items': seq<Item>, k: nat, rel: nat, w: u64, at: nat, n: nat)
    requires WordSet(items, items', k, rel, w) && at + n <= |items[k].payload| && (at + n <= rel || rel + 8 <= at)
    ensures items'[k].payload[at..at + n] == items[k].payload[at..at + n]
  {
    var p, p' := items[k].payload, items'[k].payload;
    if at + n <= rel {
      SliceSlice(p, 0, rel, at, n);
      SliceSlice(p', 0, rel, at, n);
    } else {
      SliceSlice(p, rel + 8, |p|, at - rel - 8, n);
      SliceSlice(p', rel + 8, |p|, at - rel - 8, n);
    }
  }

  // ---------------------------------------------------------------- everything but some bytes

  /** Bytes of payloads: pairs of an item and a position in its payload. */
  type Place = (nat, nat)

  ghost predicate SameAt(items: seq<Item>, items': seq<Item>, t: iset<Place>, k: nat)
    requires k < |items| && k < |items'|
  {
    if items[k].Entry? then items'[k] == items[k]
    else
      && items'[k].Oob? && |items'[k].payload| == |items[k].payload|
      && forall i :: 0 <= i < |items[k].payload| && (k, i) !in t ==> items'[k].payload[i] == items[k].payload[i]
  }

  /** The entries are the same, and so are all payload bytes outside `t`. */
  ghost predicate Same(items: seq<Item>, items': seq<Item>, t: iset<Place>)
  {
    |items'| == |items| && forall k :: 0 <= k < |items| ==> SameAt(items, items', t, k)
  }

  lemma SameRefl(items: seq<Item>, t: iset<Place>)
    ensures Same(items, items, t)
  {
  }

  lemma SameTrans(a: seq<Item>, b: seq<Item>, c: seq<Item>, t: iset<Place>)
    requires Same(a, b, t) && Same(b, c, t)
    ensures Same(a, c, t)
  {
    forall k | 0 <= k < |a| ensures SameAt(a, c, t, k) {
      assert SameAt(a, b, t, k) && SameAt(b, c, t, k);
    }
  }

  lemma SameOffset(items: seq<Item>, items': seq<Item>, t: iset<Place>, j: nat)
    requires Same(items, items', t) && j <= |items|
    ensures Offset(items', j) == Offset(items, j)
  {
    forall k | 0 <= k < j ensures ItemSize(items[k]) == ItemSize(items'[k]) {
      assert SameAt(items, items', t, k);
    }
    SameOffsets(items, items', j);
  }

  /** A part of a payload that has no byte in `t`. */
  lemma SameSlice(items: seq<Item>, items': seq<Item>, t: iset<Place>, k: nat, at: nat, n: nat)
    requires Same(items, items', t) && k < |items| && items[k].Oob? && at + n <= |items[k].payload|
    requires forall i :: at <= i < at + n ==> (k, i) !in t
    ensures items'[k].Oob? && |items'[k].payload| == |items[k].payload|
    ensures items'[k].payload[at..at + n] == items[k].payload[at..at + n]
  {
    assert SameAt(items, items', t, k);
  }

  /** Changing a payload all of which is in `t`, or one word that is. */
  lemma OnlySame(items: seq<Item>, items': seq<Item>, k: nat, t: iset<Place>)
    requires Only(items, items', k) && forall i: nat :: i < |items[k].payload| ==> (k, i) in t
    ensures Same(items, items', t)
  {
  }

  lemma WordSame(items: seq<Item>, items': seq<Item>, k: nat, rel: nat, w: u64, t: iset<Place>)
    requires WordSet(items, items', k, rel, w) && forall i: nat :: rel <= i < rel + 8 ==> (k, i) in t
    ensures Same(items, items', t)
  {
    var p, p' := items[k].payload, items'[k].payload;
    forall i | 0 <= i < |p| && (k, i) !in t ensures p'[i] == p[i] {
      if i < rel {
        assert p'[..rel][i] == p[..rel][i];
      } else {
        assert p'[rel + 8..][i - rel - 8] == p[rel + 8..][i - rel - 8];
      }
    }
    forall j | 0 <= j < |items| ensures SameAt(items, items', t, j) {
    }
  }
}
