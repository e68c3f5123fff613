/** Bitwise operations on natural numbers. */
module Bits {

  function Pow2(n: nat): (p: nat)
    ensures p > 0
  {
    if n == 0 then 1 else 2 * Pow2(n - 1)
  }

  predicate Bit(w: nat, i: nat)
  {
    w / Pow2(i) % 2 == 1
  }

  function And(a: nat, b: nat): nat
    decreases a + b
  {
    if b == 0 then 0 else 2 * And(a / 2, b / 2) + (if a % 2 == 1 && b % 2 == 1 then 1 else 0)
  }

  function Xor(a: nat, b: nat): nat
    decreases a + b
  {
    if a == 0 && b == 0 then 0 else 2 * Xor(a / 2, b / 2) + (if a % 2 != b % 2 then 1 else 0)
  }

  /** `a & ~b`. */
  function AndNot(a: nat, b: nat): nat
    decreases a + b
  {
    if a == 0 then 0 else 2 * AndNot(a / 2, b / 2) + (if a % 2 == 1 && b % 2 == 0 then 1 else 0)
  }

  /** The defining equations, without the base cases. */
  lemma {:induction false} Unfold(a: nat, b: nat)
    ensures And(a, b) == 2 * And(a / 2, b / 2) + (if a % 2 == 1 && b % 2 == 1 then 1 else 0)
    ensures Xor(a, b) == 2 * Xor(a / 2, b / 2) + (if a % 2 != b % 2 then 1 else 0)
    ensures AndNot(a, b) == 2 * AndNot(a / 2, b / 2) + (if a % 2 == 1 && b % 2 == 0 then 1 else 0)
  {
  }

  lemma Halves(a: nat, b: nat)
    ensures And(a, b) / 2 == And(a / 2, b / 2) && And(a, b) % 2 == (if a % 2 == 1 && b % 2 == 1 then 1 else 0)
    ensures Xor(a, b) / 2 == Xor(a / 2, b / 2) && Xor(a, b) % 2 == (if a % 2 != b % 2 then 1 else 0)
  {
    Unfold(a, b);
  }

  lemma {:induction false} AndBound(a: nat, b: nat)
    ensures And(a, b) <= b
    decreases b
  {
    if b > 0 { AndBound(a / 2, b / 2); }
  }

  lemma AndEven(a: nat, b: nat)
    ensures And(a, 2 * b) == 2 * And(a / 2, b)
  {
    AndHalf(a, 2 * b, b, 0);
  }

  lemma AndHalf(a: nat, m: nat, b: nat, r: nat)
    requires m == 2 * b + r && r < 2
    ensures And(a, m) == 2 * And(a / 2, b) + (if r == 1 then a % 2 else 0)
  {
    assert m / 2 == b && m % 2 == r;
    Unfold(a, m);
  }

  /** A mask whose bits all lie above `a`. */
  lemma {:induction false} AndLow(a: nat, m: nat, k: nat)
    requires a < Pow2(k)
    ensures And(a, m * Pow2(k)) == 0
    decreases k
  {
    if k > 0 {
      Doubled(m, k);
      AndEven(a, m * Pow2(k - 1));
      AndLow(a / 2, m, k - 1);
    } else {
      AndZero(m);
    }
  }

  lemma {:induction false} AndZero(b: nat)
    ensures And(0, b) == 0
  {
    if b > 0 { AndZero(b / 2); }
  }

  /** A mask of `k` ones is a remainder. */
  lemma {:induction false} AndMod(a: nat, k: nat)
    ensures And(a, Pow2(k) - 1) == a % Pow2(k)
    decreases k
  {
    if k > 0 {
      AndMod(a / 2, k - 1);
      MaskStep(a, Pow2(k - 1), Pow2(k));
    }
  }

  lemma MaskStep(a: nat, p: nat, q: nat)
    requires p > 0 && q == 2 * p && And(a / 2, p - 1) == a / 2 % p
    ensures And(a, q - 1) == a % q
  {
    AndHalf(a, q - 1, p - 1, 1);
    HalfMod(a, p);
  }

  lemma HalfMod(a: nat, p: nat)
    requires p > 0
    ensures a % (2 * p) == 2 * (a / 2 % p) + a % 2
  {
    var h := a / 2;
    var q, r := h / p, h % p;
    assert a == (2 * p) * q + (2 * r + a % 2);
    ModIs(a, 2 * p, q, 2 * r + a % 2);
  }

  lemma MulMono(d: nat, a: nat, b: nat)
    requires a <= b
    ensures d * a <= d * b
  {
  }

  lemma ModIs(a: nat, d: nat, q: nat, r: nat)
    requires d > 0 && a == d * q + r && r < d
    ensures a % d == r && a / d == q
  {
    var x := a / d;
    assert a == d * x + a % d;
    if x < q {
      MulMono(d, x + 1, q);
    } else if x > q {
      MulMono(d, q + 1, x);
    }
  }

  lemma MulAssoc(p: nat, m: nat, q: nat)
    ensures p * m * q == p * (m * q)
  {
  }

  lemma MulDist(p: nat, a: nat, b: nat)
    ensures p * a + p * b == p * (a + b)
  {
  }

  lemma ModOfMod(x: nat, p: nat, m: nat)
    requires p > 0 && m > 0
    ensures p * m > 0 && x % (p * m) % p == x % p
  {
    MulMono(p, 1, m);
    var d := p * m;
    var q, r := x / d, x % d;
    var q', r' := r / p, r % p;
    assert x == d * q + r && r == p * q' + r';
    MulAssoc(p, m, q);
    MulDist(p, m * q, q');
    ModIs(x, p, m * q + q', r');
  }

  lemma {:induction false} XorZero(a: nat, b: nat)
    ensures Xor(a, b) == 0 <==> a == b
    decreases a + b
  {
    if a + b > 0 { XorZero(a / 2, b / 2); }
  }

  /** `((a ^ b) >> 1) == 0` compares all but the lowest bit. */
  lemma XorHalf(a: nat, b: nat)
    ensures Xor(a, b) / 2 == 0 <==> a / 2 == b / 2
  {
    Unfold(a, b);
    XorZero(a / 2, b / 2);
  }

  /** Clearing the masked bits by a second exclusive or, when `t` avoids the mask. */
  lemma {:induction false} ClearByXor(h: nat, m: nat, t: nat)
    requires And(t, m) == 0
    ensures Xor(Xor(h, And(h, m)), t) == AndNot(Xor(h, t), And(h, m))
    decreases h + m + t
  {
    if h + m + t > 0 {
      var g, x, y := And(h, m), Xor(h, And(h, m)), Xor(h, t);
      Halves(h, m);
      Halves(t, m);
      Halves(h, g);
      Halves(h, t);
      Unfold(x, t);
      Unfold(y, g);
      ClearByXor(h / 2, m / 2, t / 2);
    }
  }

  lemma {:induction false} AndNotZero(a: nat)
    ensures AndNot(a, 0) == a && Xor(a, 0) == a
  {
    if a > 0 { AndNotZero(a / 2); }
  }

  lemma LowStep(a: nat, x: nat, y: nat)
    ensures And(2 * a + x, y) - And(x, y) == 2 * (And(a + x / 2, y / 2) - And(x / 2, y / 2))
    ensures Xor(2 * a + x, y) - Xor(x, y) == 2 * (Xor(a + x / 2, y / 2) - Xor(x / 2, y / 2))
    ensures AndNot(2 * a + x, y) - AndNot(x, y) == 2 * (AndNot(a + x / 2, y / 2) - AndNot(x / 2, y / 2))
  {
    Unfold(2 * a + x, y);
    Unfold(x, y);
  }

  /** Bits above those of `y` take no part. */
  lemma {:induction false} SplitAt(a: nat, x: nat, y: nat, k: nat)
    requires x < Pow2(k) && y < Pow2(k)
    ensures And(a * Pow2(k) + x, y) == And(x, y)
    ensures Xor(a * Pow2(k) + x, y) == a * Pow2(k) + Xor(x, y)
    ensures AndNot(a * Pow2(k) + x, y) == a * Pow2(k) + AndNot(x, y)
    decreases k
  {
    if k == 0 {
      AndNotZero(a);
    } else {
      Doubled(a, k);
      LowStep(a * Pow2(k - 1), x, y);
      SplitAt(a, x / 2, y / 2, k - 1);
    }
  }

  lemma {:induction false} BelowPow2(a: nat, b: nat, k: nat)
    requires a < Pow2(k) && b < Pow2(k)
    ensures Xor(a, b) < Pow2(k) && AndNot(a, b) < Pow2(k)
    decreases k
  {
    if k > 0 {
      Unfold(a, b);
      BelowPow2(a / 2, b / 2, k - 1);
    }
  }

  lemma Doubled(a: nat, k: nat)
    requires k > 0
    ensures a * Pow2(k) == 2 * (a * Pow2(k - 1))
  {
  }

  lemma HighStep(a: nat, x: nat, b: nat)
    ensures And(2 * a + x, 2 * b) == 2 * And(a + x / 2, b)
    ensures AndNot(2 * a + x, 2 * b) == 2 * AndNot(a + x / 2, b) + x % 2
  {
    Unfold(2 * a + x, 2 * b);
  }

  /** `a << k`, which is the product with a power of two. */
  function Shl(a: nat, k: nat): nat
  {
    if k == 0 then a else 2 * Shl(a, k - 1)
  }

  lemma {:induction false} ShlIs(a: nat, k: nat)
    ensures Shl(a, k) == a * Pow2(k)
  {
    if k > 0 {
      ShlIs(a, k - 1);
      Doubled(a, k);
    }
  }

  lemma {:induction false} ShiftHigh(a: nat, x: nat, b: nat, k: nat)
    requires x < Pow2(k)
    ensures And(Shl(a, k) + x, Shl(b, k)) == Shl(And(a, b), k)
    ensures AndNot(Shl(a, k) + x, Shl(b, k)) == Shl(AndNot(a, b), k) + x
    decreases k
  {
    if k > 0 {
      ShiftHigh(a, x / 2, b, k - 1);
      HighTwice(Shl(a, k - 1), x, Shl(b, k - 1), Shl(And(a, b), k - 1), Shl(AndNot(a, b), k - 1));
    }
  }

  /** Bits below those of `b` are kept. */
  lemma SplitHigh(a: nat, x: nat, b: nat, k: nat)
    requires x < Pow2(k)
    ensures And(a * Pow2(k) + x, b * Pow2(k)) == And(a, b) * Pow2(k)
    ensures AndNot(a * Pow2(k) + x, b * Pow2(k)) == AndNot(a, b) * Pow2(k) + x
  {
    ShiftHigh(a, x, b, k);
    ShlIs(a, k);
    ShlIs(b, k);
    ShlIs(And(a, b), k);
    ShlIs(AndNot(a, b), k);
  }

  lemma HighTwice(a: nat, x: nat, b: nat, c: nat, d: nat)
    requires And(a + x / 2, b) == c && AndNot(a + x / 2, b) == d + x / 2
    ensures And(2 * a + x, 2 * b) == 2 * c && AndNot(2 * a + x, 2 * b) == 2 * d + x
  {
    HighStep(a, x, b);
  }

  lemma {:induction false} AndNotSelf(a: nat)
    ensures AndNot(a, a) == 0
  {
    if a > 0 { AndNotSelf(a / 2); }
  }
}
