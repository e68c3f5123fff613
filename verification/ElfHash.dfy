/** The two symbol hash functions of the loader, in unsigned arithmetic of a given word size. */
module ElfHash {
  import opened Words
  import opened Bits

  /** A name without its terminating NUL. */
  type name = seq<byte>

  const WORD32: nat := 0x1_0000_0000
  const HIGH: nat := 0xf000_0000

  // ---------------------------------------------------------------- System V

  /** Chapter 5 of the System V gABI: bits 28 to 31 are folded back. */
  function AbiFold(h: nat): nat
  {
    var g := And(h, HIGH);
    AndNot(if g != 0 then Xor(h, g / 0x100_0000) else h, g)
  }

  function Push(h: nat, c: byte, word: nat): (r: nat)
    requires word > 0
    ensures r < word
  {
    (h * 16 + c) % word
  }

  /** The hash of the first `n` characters, computed in words below `word`. */
  function AbiHash(s: name, n: nat, word: nat): nat
    requires n <= |s| && word > 0
  {
    if n == 0 then 0 else AbiFold(Push(AbiHash(s, n - 1, word), s[n - 1], word))
  }

  lemma HighBits()
    ensures HIGH == 15 * Pow2(28) && Pow2(28) == 0x1000_0000 && Pow2(32) == WORD32
  {
    assert Pow2(7) == 0x80;
    assert Pow2(14) == 0x4000;
    assert Pow2(21) == 0x20_0000;
    assert Pow2(28) == 0x1000_0000;
  }

  /** The same without a branch. */
  lemma FoldsAgree(h: nat)
    ensures var hi := And(h, HIGH); Xor(Xor(h, hi), hi / 0x100_0000) == AbiFold(h)
  {
    var hi := And(h, HIGH);
    HighBits();
    AndBound(h, HIGH);
    AndLow(hi / 0x100_0000, 15, 28);
    ClearByXor(h, HIGH, hi / 0x100_0000);
    AndNotZero(h);
  }

  /** Nothing to fold yet. */
  lemma NoFold(h: nat)
    requires h < 0x1000_0000
    ensures AbiFold(h) == h
  {
    HighBits();
    AndLow(h, 15, 28);
    AndNotZero(h);
  }

  lemma SmallPush(h: nat, c: byte, bound: nat)
    requires h <= bound <= 0x20_0000
    ensures Push(h, c, WORD_MAX) == h * 16 + c <= bound * 16 + 0xff < 0x1000_0000
  {
  }

  lemma Early(s: name, i: nat, h: nat, bound: nat)
    requires i < |s| && h == AbiHash(s, i, WORD_MAX) && h <= bound <= 0x20_0000
    ensures AbiHash(s, i + 1, WORD_MAX) == Push(h, s[i], WORD_MAX) <= bound * 16 + 0xff
  {
    var p := Push(h, s[i], WORD_MAX);
    SmallPush(h, s[i], bound);
    NoFold(p);
  }

  /** `elf_hash`: the first five characters unrolled, the rest without branches. */
  method Compute(s: name) returns (hash: nat)
    ensures hash == AbiHash(s, |s|, WORD_MAX)
  {
    var i;
    hash, i := ComputeEarly(s);
    while i < |s|
      invariant i <= |s| && hash == AbiHash(s, i, WORD_MAX)
    {
      hash := Push(hash, s[i], WORD_MAX);
      var hi := And(hash, HIGH);
      FoldsAgree(hash);
      hash := Xor(hash, hi);
      hash := Xor(hash, hi / 0x100_0000);
      i := i + 1;
    }
  }

  method ComputeEarly(s: name) returns (hash: nat, i: nat)
    ensures i == (if |s| < 5 then |s| else 5) && hash == AbiHash(s, i, WORD_MAX)
  {
    hash, i := 0, 0;
    if |s| == 0 {
      return;
    }
    Early(s, 0, 0, 0);
    hash, i := s[0], 1;
    if |s| == 1 {
      return;
    }
    Early(s, 1, hash, 0xff);
    hash, i := Push(hash, s[1], WORD_MAX), 2;
    if |s| == 2 {
      return;
    }
    Early(s, 2, hash, 0x10ef);
    hash, i := Push(hash, s[2], WORD_MAX), 3;
    if |s| == 3 {
      return;
    }
    Early(s, 3, hash, 0x1_0fef);
    hash, i := Push(hash, s[3], WORD_MAX), 4;
    if |s| == 4 {
      return;
    }
    Early(s, 4, hash, 0x10_ffef);
    hash, i := Push(hash, s[4], WORD_MAX), 5;
  }

  // ---------------------------------------------------------------- word sizes

  lemma ClearAbove(a: nat, x: nat, t: nat, g: nat, k: nat)
    requires x < Pow2(k) && t < Pow2(k) && g < Pow2(k)
    ensures AndNot(Xor(a * Pow2(k) + x, t), g) == a * Pow2(k) + AndNot(Xor(x, t), g)
    ensures AndNot(a * Pow2(k) + x, g) == a * Pow2(k) + AndNot(x, g)
  {
    SplitAt(a, x, t, k);
    BelowPow2(x, t, k);
    SplitAt(a, Xor(x, t), g, k);
    SplitAt(a, x, g, k);
  }

  lemma FoldAbove(w: nat, a: nat, x: nat, k: nat)
    requires x < Pow2(k) && HIGH < Pow2(k) && w == a * Pow2(k) + x
    ensures AbiFold(w) == a * Pow2(k) + AbiFold(x)
  {
    var g := And(x, HIGH);
    AndBound(x, HIGH);
    SplitAt(a, x, HIGH, k);
    ClearAbove(a, x, g / 0x100_0000, g, k);
  }

  /** What lies above 32 bits takes no part in the folding. */
  lemma FoldWide(w: nat, a: nat, x: nat)
    requires x < WORD32 && w == a * WORD32 + x
    ensures AbiFold(w) == a * WORD32 + AbiFold(x)
  {
    HighBits();
    FoldAbove(w, a, x, 32);
  }

  lemma HighPart(x: nat, a: nat, y: nat)
    requires a < 16 && y < 0x1000_0000 && x == a * 0x1000_0000 + y
    ensures And(x, HIGH) == a * 0x1000_0000
  {
    HighBits();
    HighMask(a, y, 28, 15, 4);
  }

  lemma HighMask(a: nat, y: nat, k: nat, m: nat, n: nat)
    requires m == Pow2(n) - 1 && a <= m && y < Pow2(k)
    ensures And(a * Pow2(k) + y, m * Pow2(k)) == a * Pow2(k)
  {
    AndMod(a, n);
    ModIs(a, Pow2(n), 0, a);
    SplitHigh(a, y, m, k);
  }

  lemma HighCleared(a: nat, y: nat, t: nat)
    requires y < 0x1000_0000 && t < 0x1000_0000
    ensures AndNot(Xor(a * 0x1000_0000 + y, t), a * 0x1000_0000) == Xor(y, t) < 0x1000_0000
  {
    HighBits();
    SplitAt(a, y, t, 28);
    BelowPow2(y, t, 28);
    SplitHigh(a, Xor(y, t), a, 28);
    AndNotSelf(a);
  }

  /** After folding 28 bits are left of 32. */
  lemma FoldNarrow(x: nat)
    requires x < WORD32
    ensures AbiFold(x) < 0x1000_0000
  {
    var a, y := x / 0x1000_0000, x % 0x1000_0000;
    HighPart(x, a, y);
    HighCleared(a, y, a * 16);
    if a == 0 { NoFold(x); }
  }

  /** In 32 bits the hash has at most 28. */
  lemma {:induction false} Narrow(s: name, n: nat)
    requires n <= |s|
    ensures AbiHash(s, n, WORD32) < 0x1000_0000
  {
    if n > 0 { FoldNarrow(Push(AbiHash(s, n - 1, WORD32), s[n - 1], WORD32)); }
  }

  /** What character `i` pushes out of a 32-bit word beyond the bits that are folded back. */
  function Carry(s: name, i: nat): nat
    requires i < |s|
  {
    (AbiHash(s, i, WORD32) * 16 + s[i]) / WORD32
  }

  function Carries(s: name): (cs: seq<nat>)
    ensures |cs| == |s|
  {
    seq(|s|, i requires 0 <= i < |s| => Carry(s, i))
  }

  /** The carries of the last characters, one in four bits. */
  function Upper(cs: seq<nat>, n: nat): (u: nat)
    requires n <= |cs|
    ensures u < WORD32
  {
    if n == 0 then 0 else (16 * Upper(cs, n - 1) + cs[n - 1]) % WORD32
  }

  lemma PushWide(w: nat, u: nat, h: nat, c: byte, u': nat)
    requires u < WORD32 && h < WORD32 && w == u * WORD32 + h
    requires u' == (16 * u + (h * 16 + c) / WORD32) % WORD32
    ensures Push(w, c, WORD_MAX) == u' * WORD32 + Push(h, c, WORD32)
  {
  }

  lemma WideStep(w: nat, u: nat, h: nat, c: byte, u': nat)
    requires u < WORD32 && h < WORD32 && w == u * WORD32 + h
    requires u' == (16 * u + (h * 16 + c) / WORD32) % WORD32
    ensures AbiFold(Push(w, c, WORD_MAX)) == u' * WORD32 + AbiFold(Push(h, c, WORD32))
  {
    PushWide(w, u, h, c, u');
    FoldWide(Push(w, c, WORD_MAX), u', Push(h, c, WORD32));
  }

  /** The 64-bit hash is the 32-bit hash below the carries. */
  lemma {:induction false} WideHash(s: name, n: nat)
    requires n <= |s|
    ensures AbiHash(s, n, WORD_MAX) == Upper(Carries(s), n) * WORD32 + AbiHash(s, n, WORD32)
  {
    if n > 0 {
      var i := n - 1;
      WideHash(s, i);
      Narrow(s, i);
      WideStep(AbiHash(s, i, WORD_MAX), Upper(Carries(s), i), AbiHash(s, i, WORD32), s[i], Upper(Carries(s), n));
    }
  }

  function Pow16(j: nat): (p: nat)
    ensures p > 0
  {
    if j == 0 then 1 else 16 * Pow16(j - 1)
  }

  lemma {:induction false} Pow16Splits(j: nat, k: nat)
    ensures Pow16(j + k) == Pow16(j) * Pow16(k)
  {
    if k > 0 {
      Pow16Splits(j, k - 1);
      assert Pow16(j + k) == 16 * (Pow16(j) * Pow16(k - 1)) == Pow16(j) * (16 * Pow16(k - 1));
    }
  }

  /** The lowest `j` hexadecimal digits are zero. */
  predicate Zeros(u: nat, j: nat)
    decreases j
  {
    j == 0 || (u % 16 == 0 && Zeros(u / 16, j - 1))
  }

  lemma {:induction false} ZerosAll(u: nat, j: nat)
    requires u < Pow16(j)
    ensures Zeros(u, j) <==> u == 0
    decreases j
  {
    if j > 0 { ZerosAll(u / 16, j - 1); }
  }

  lemma NibbleMod(u: nat, q: nat)
    requires q > 0
    ensures u % (16 * q) % 16 == u % 16 && u % (16 * q) / 16 == u / 16 % q
  {
    var h := u / 16;
    var r := h % q;
    assert u == 16 * q * (h / q) + (16 * r + u % 16);
    ModIs(u, 16 * q, h / q, 16 * r + u % 16);
  }

  /** Reducing by `r` digits keeps the lower ones. */
  lemma {:induction false} ZerosMod(u: nat, r: nat, k: nat)
    requires k <= r
    ensures Zeros(u % Pow16(r), k) <==> Zeros(u, k)
    decreases k
  {
    if k > 0 {
      NibbleMod(u, Pow16(r - 1));
      ZerosMod(u / 16, r - 1, k - 1);
    }
  }

  lemma Pow16Word()
    ensures Pow16(7) == 0x1000_0000 && Pow16(8) == WORD32
  {
    assert Pow16(4) == 0x1_0000;
  }

  lemma NibbleStep(u: nat, c: nat, j: nat, k: nat, u': nat)
    requires c <= 1 && j == k + 1 <= 8 && u' == (16 * u + c) % WORD32
    ensures Zeros(u', j) <==> c == 0 && Zeros(u, k)
  {
    Pow16Word();
    ZerosMod(u, 7, k);
    Nibbles(u, c, u');
  }

  lemma Nibbles(u: nat, c: nat, u': nat)
    requires c < 16 && u' == (16 * u + c) % WORD32
    ensures u' % 16 == c && u' / 16 == u % 0x1000_0000
  {
    NibbleMod(16 * u + c, 0x1000_0000);
    assert (16 * u + c) % 16 == c && (16 * u + c) / 16 == u;
  }

  lemma CarryBit(s: name, i: nat)
    requires i < |s|
    ensures Carry(s, i) <= 1
  {
    Narrow(s, i);
  }

  /** The last `j` of the first `n` characters do not carry. */
  ghost predicate NoCarry(cs: seq<nat>, n: nat, j: nat)
    requires n <= |cs|
  {
    forall i :: 0 <= i < n <= i + j ==> cs[i] == 0
  }

  lemma {:induction false} UpperZero(cs: seq<nat>, n: nat, j: nat)
    requires n <= |cs| && j <= 8 && forall i :: 0 <= i < |cs| ==> cs[i] <= 1
    ensures Zeros(Upper(cs, n), j) <==> NoCarry(cs, n, j)
    decreases j
  {
    if n == 0 {
      ZerosAll(0, j);
    } else if j > 0 {
      var i, k := n - 1, j - 1;
      NibbleStep(Upper(cs, i), cs[i], j, k, Upper(cs, n));
      UpperZero(cs, i, k);
      NoCarryStep(cs, n, j, i, k);
    }
  }

  lemma NoCarryStep(cs: seq<nat>, n: nat, j: nat, i: nat, k: nat)
    requires n <= |cs| && n == i + 1 && j == k + 1
    ensures NoCarry(cs, n, j) <==> cs[i] == 0 && NoCarry(cs, i, k)
  {
  }

  lemma EqualIff(a: nat, b: nat, u: nat)
    requires a == u * WORD32 + b && u < WORD32
    ensures a == b <==> Zeros(u, 8)
  {
    Pow16Word();
    ZerosAll(u, 8);
  }

  /** The 64-bit hash is the 32-bit one, which other linkers compute, exactly when none of the last
      eight characters carries. */
  lemma WidthsAgree(s: name)
    ensures AbiHash(s, |s|, WORD_MAX) == AbiHash(s, |s|, WORD32) <==> NoCarry(Carries(s), |s|, 8)
  {
    WideHash(s, |s|);
    CarryBits(s);
    UpperZero(Carries(s), |s|, 8);
    EqualIff(AbiHash(s, |s|, WORD_MAX), AbiHash(s, |s|, WORD32), Upper(Carries(s), |s|));
  }

  lemma CarryBits(s: name)
    ensures forall i :: 0 <= i < |s| ==> Carries(s)[i] <= 1
  {
    forall i | 0 <= i < |s| ensures Carries(s)[i] <= 1 {
      CarryBit(s, i);
    }
  }

  /** A name on which they differ. */
  lemma WidthsDiffer(s: name)
    requires s == [15, 15, 15, 15, 15, 15, 15, 255]
    ensures AbiHash(s, |s|, WORD_MAX) != AbiHash(s, |s|, WORD32)
  {
    Fifteens(s, 7);
    assert Pow16(4) == 0x1_0000 && Pow16(7) == 0x1000_0000;
    assert Carries(s)[7] == Carry(s, 7) == 1;
    WidthsAgree(s);
  }

  lemma {:induction false} Fifteens(s: name, n: nat)
    requires n <= 7 <= |s| && forall i :: 0 <= i < 7 ==> s[i] == 15
    ensures AbiHash(s, n, WORD32) == Pow16(n) - 1
  {
    if n > 0 {
      var i := n - 1;
      Fifteens(s, i);
      FifteenStep(AbiHash(s, i, WORD32), s[i], n);
    }
  }

  lemma FifteenStep(h: nat, c: byte, n: nat)
    requires 0 < n <= 7 && h == Pow16(n - 1) - 1 && c == 15
    ensures AbiFold(Push(h, c, WORD32)) == Pow16(n) - 1
  {
    FifteenPush(h, c, n);
    NoFold(Push(h, c, WORD32));
  }

  lemma FifteenPush(h: nat, c: byte, n: nat)
    requires 0 < n <= 7 && h == Pow16(n - 1) - 1 && c == 15
    ensures Push(h, c, WORD32) == Pow16(n) - 1 < 0x1000_0000
  {
    Pow16Seven(n);
  }

  lemma Pow16Seven(n: nat)
    requires n <= 7
    ensures Pow16(n) <= 0x1000_0000
  {
    assert Pow16(4) == 0x1_0000 && Pow16(7) == 0x1000_0000;
    Pow16Splits(n, 7 - n);
    MulMono(Pow16(n), 1, Pow16(7 - n));
  }

  // ---------------------------------------------------------------- GNU

  /** The GNU hash, in 32 bits at every step. */
  function GnuHash(s: name, n: nat): (h: nat)
    requires n <= |s|
    ensures h < WORD32
  {
    if n == 0 then 5381 else (GnuHash(s, n - 1) * 33 + s[n - 1]) % WORD32
  }

  lemma LowWord(h: nat, c: byte)
    ensures (h * 33 + c) % WORD_MAX % WORD32 == (h % WORD32 * 33 + c) % WORD32
  {
    ModOfMod(h * 33 + c, WORD32, WORD32);
    var q, r := h / WORD32, h % WORD32;
    var y := r * 33 + c;
    ModIs(h * 33 + c, WORD32, 33 * q + y / WORD32, y % WORD32);
  }

  /** `elf_fast_hash`, in 64 bits and masked once at the end. */
  method FastCompute(s: name) returns (r: nat)
    ensures r == GnuHash(s, |s|)
  {
    var h: nat, i := 5381, 0;
    while i < |s|
      invariant i <= |s| && h % WORD32 == GnuHash(s, i)
    {
      LowWord(h, s[i]);
      h := (h * 33 + s[i]) % WORD_MAX;
      i := i + 1;
    }
    HighBits();
    AndMod(h, 32);
    r := And(h, WORD32 - 1);
  }
}
