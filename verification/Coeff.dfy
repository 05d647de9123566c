/** `Coeff`: multiplication by a fraction as a multiplication and a shift. */
module Coeffs {
  import opened Bits

  datatype Coeff = Coeff(mult: nat, shift: nat, maxMultiplier: nat)

  const TWO32: nat := 0x1_0000_0000
  const TWO64: nat := 0x1_0000_0000_0000_0000

  /** The fraction scaled by 2^shift and rounded to the nearest integer. */
  function Scaled(numerator: nat, denominator: nat, shift: nat): nat
    requires denominator > 0
  {
    (numerator * Pow2(shift) + denominator / 2) / denominator
  }

  lemma DivBound(x: nat, d: nat)
    requires d > 0
    ensures x / d * d <= x < x / d * d + d
  {
  }

  /** Rounding is off by at most half. */
  lemma {:induction false} ScaledIsNearest(n: nat, d: nat, s: nat, m: nat, p: nat)
    requires d > 0 && p == Pow2(s) && m == Scaled(n, d, s)
    ensures 2 * (n * p) - d <= 2 * (m * d) <= 2 * (n * p) + d
  {
    DivBound(n * p + d / 2, d);
  }

  lemma {:induction false} ScaledGrows(n: nat, d: nat, s: nat, t: nat)
    requires d > 0 && s <= t
    ensures Scaled(n, d, s) <= Scaled(n, d, t)
  {
    if s < t {
      Pow2Monotone(s, t);
      MulGrows(Pow2(s), Pow2(t), n);
      DivGrows(n * Pow2(s) + d / 2, n * Pow2(t) + d / 2, d);
    }
  }

  lemma MulGrows(a: nat, b: nat, k: nat)
    requires a <= b
    ensures k * a <= k * b && a * k <= b * k
  {
  }

  lemma DivGrows(a: nat, b: nat, d: nat)
    requires d > 0 && a <= b
    ensures a / d <= b / d
  {
    DivBound(a, d);
    DivBound(b, d);
    if b / d + 1 <= a / d { MulGrows(b / d + 1, a / d, d); }
  }

  /** The bits left for `mult`: the most, up to 32, that keep its product with `max` below 2^64. */
  ghost predicate IsShiftAcc(max: nat, acc: nat) {
    acc <= 32 && max < Pow2(64 - acc) && (acc < 32 ==> Pow2(63 - acc) <= max)
  }

  method ShiftAcc(max: nat) returns (acc: nat)
    requires max < TWO64
    ensures IsShiftAcc(max, acc)
  {
    var tmp := Shr(max, 32);
    acc := 32;
    WordIsShort(max, 64);
    while tmp > 0
      invariant acc <= 32 && tmp == Shr(max, 64 - acc)
      invariant acc < 32 ==> Shr(max, 63 - acc) > 0
      decreases tmp
    {
      ShrHalf(max, 64 - acc);
      tmp := tmp / 2;
      acc := acc - 1;
    }
    ShrZero(max, 64 - acc);
    if acc < 32 { ShrZero(max, 63 - acc); }
  }

  lemma {:induction false} WordIsShort(x: nat, width: nat)
    requires x < TWO64 && width == 64
    ensures Shr(x, width) == 0
  {
    Pow2Values();
    ShrZero(x, width);
  }

  lemma {:induction false} ShrZero(x: nat, k: nat)
    ensures Shr(x, k) == 0 <==> x < Pow2(k)
  {
    if k > 0 { ShrZero(x / 2, k - 1); }
  }

  lemma {:induction false} ShrHalf(x: nat, k: nat)
    ensures Shr(x, k) / 2 == Shr(x, k + 1)
  {
    if k > 0 { ShrHalf(x / 2, k - 1); }
  }

  /** One trial of the search, in 64-bit arithmetic that wraps. */
  function Trial(numerator: nat, denominator: nat, shift: nat): nat
    requires denominator > 0
  {
    Wrap64(Wrap64(numerator * Pow2(shift)) + denominator / 2) / denominator
  }

  function Wrap64(x: nat): nat { x % TWO64 }

  predicate TrialFits(numerator: nat, denominator: nat, shift: nat) {
    numerator * Pow2(shift) + denominator / 2 < TWO64
  }

  /** A trial gives the rounded fraction exactly when it does not overflow. */
  lemma {:induction false} TrialIsScaled(numerator: nat, denominator: nat, shift: nat)
    requires 0 < denominator < TWO64
    ensures Trial(numerator, denominator, shift) == Scaled(numerator, denominator, shift)
       <==> TrialFits(numerator, denominator, shift)
  {
    var p := numerator * Pow2(shift);
    if TrialFits(numerator, denominator, shift) {
      WrapSmall(p, denominator / 2);
    } else {
      WrapLarge(p, denominator / 2);
      DivLess(Wrap64(Wrap64(p) + denominator / 2), p + denominator / 2, denominator);
    }
  }

  lemma WrapSmall(x: nat, y: nat)
    requires x + y < TWO64
    ensures Wrap64(Wrap64(x) + y) == x + y
  {
  }

  lemma WrapLarge(x: nat, y: nat)
    requires x + y >= TWO64
    ensures Wrap64(Wrap64(x) + y) + TWO64 <= x + y
  {
    if x < TWO64 { assert Wrap64(x) == x; } else { assert Wrap64(x) + TWO64 <= x; }
  }

  lemma DivLess(a: nat, b: nat, d: nat)
    requires d > 0 && a + d <= b
    ensures a / d < b / d
  {
    DivBound(a, d);
    DivBound(b, d);
    if b / d <= a / d { MulGrows(b / d + 1, a / d + 1, d); }
  }

  /** No trial of the search overflows. */
  predicate Fits(numerator: nat, denominator: nat) { numerator * TWO32 + denominator / 2 < TWO64 }

  lemma {:induction false} AllTrialsFit(numerator: nat, denominator: nat, shift: nat)
    requires shift <= 32 && Fits(numerator, denominator) && 0 < denominator < TWO64
    ensures Trial(numerator, denominator, shift) == Scaled(numerator, denominator, shift)
  {
    Pow2Values();
    if shift < 32 { Pow2Monotone(shift, 32); }
    MulGrows(Pow2(shift), TWO32, numerator);
    TrialIsScaled(numerator, denominator, shift);
  }

  /** The coefficient has the largest shift in 1..32 whose trial fits in `acc` bits; if there is none, it has
      shift 0 and the trial of shift 1, cut to 32 bits. */
  ghost predicate FoundBySearch(c: Coeff, numerator: nat, denominator: nat, acc: nat)
    requires denominator > 0
  {
    && c.shift <= 32
    && (forall s | c.shift < s <= 32 :: Trial(numerator, denominator, s) >= Pow2(acc))
    && (if c.shift > 0 then c.mult == Trial(numerator, denominator, c.shift) < Pow2(acc)
        else c.mult == Trial(numerator, denominator, c.shift + 1) % TWO32)
  }

  /** `Coeff::new`. */
  method New(numerator: nat, denominator: nat, max: nat) returns (c: Coeff, ghost acc: nat)
    requires 0 < denominator < TWO64 && numerator < TWO64 && max < TWO64
    ensures IsShiftAcc(max, acc) && c.maxMultiplier == max && FoundBySearch(c, numerator, denominator, acc)
  {
    var a := ShiftAcc(max);
    acc := a;
    var mult, shift := Search(numerator, denominator, a);
    if shift > 0 { AccIsSmall(acc, mult); }
    c := Coeff(mult % TWO32, shift, max);
  }

  /** The bits left for `mult` are determined by the maximum. */
  lemma {:induction false} AccIsUnique(max: nat, a: nat, b: nat)
    requires IsShiftAcc(max, a) && IsShiftAcc(max, b)
    ensures a == b
  {
    if a < b { AccIsMost(max, a, b); }
    if b < a { AccIsMost(max, b, a); }
  }

  lemma {:induction false} AccIsMost(max: nat, a: nat, b: nat)
    requires IsShiftAcc(max, a) && a < b <= 32
    ensures max >= Pow2(64 - b)
  {
    if b > a + 1 { Pow2Monotone(64 - b, 63 - a); }
  }

  /** A trial that fits fits for all smaller shifts. */
  lemma {:induction false} TrialFitsBelow(numerator: nat, denominator: nat, s: nat, t: nat)
    requires s <= t && TrialFits(numerator, denominator, t)
    ensures TrialFits(numerator, denominator, s)
  {
    if s < t { Pow2Monotone(s, t); }
    MulGrows(Pow2(s), Pow2(t), numerator);
  }

  /** Shift 1 fits, and no trial that overflows looks as if it fitted. */
  ghost predicate SearchIsSound(numerator: nat, denominator: nat, acc: nat)
    requires denominator > 0
  {
    && TrialFits(numerator, denominator, 1) && Scaled(numerator, denominator, 1) < Pow2(acc)
    && forall t | 1 <= t <= 32 && !TrialFits(numerator, denominator, t) :: Trial(numerator, denominator, t) >= Pow2(acc)
  }

  /** `Coeff::new` finds a shift with the right multiplier exactly when that is so, and no shift at all exactly when
      every trial is too large. Both conditions are on the arguments alone, since `max` determines `acc`. */
  lemma {:induction false} FoundIsRightIff(c: Coeff, numerator: nat, denominator: nat, max: nat, acc: nat)
    requires 0 < denominator < TWO64 && IsShiftAcc(max, acc) && FoundBySearch(c, numerator, denominator, acc)
    ensures c.shift > 0 && c.mult == Scaled(numerator, denominator, c.shift)
       <==> SearchIsSound(numerator, denominator, acc)
    ensures c.shift == 0 <==> forall t | 1 <= t <= 32 :: Trial(numerator, denominator, t) >= Pow2(acc)
  {
    var one := 1;
    TrialIsScaled(numerator, denominator, one);
    if c.shift > 0 { TrialIsScaled(numerator, denominator, c.shift); }
    if c.shift > 0 && c.mult == Scaled(numerator, denominator, c.shift) {
      TrialFitsBelow(numerator, denominator, one, c.shift);
      ScaledGrows(numerator, denominator, one, c.shift);
      forall t | 1 <= t <= 32 && !TrialFits(numerator, denominator, t)
        ensures Trial(numerator, denominator, t) >= Pow2(acc)
      {
        if t <= c.shift { TrialFitsBelow(numerator, denominator, t, c.shift); }
      }
    }
  }

  /** If no trial can overflow, the search finds a shift exactly when shift 1 fits, and then it is the largest that
      fits, with the right multiplier. */
  lemma {:induction false} FoundIsScaled(c: Coeff, numerator: nat, denominator: nat, acc: nat)
    requires 0 < denominator < TWO64 && Fits(numerator, denominator)
    requires FoundBySearch(c, numerator, denominator, acc)
    ensures c.shift > 0 <==> Scaled(numerator, denominator, 1) < Pow2(acc)
    ensures if c.shift > 0 then c.mult == Scaled(numerator, denominator, c.shift) < Pow2(acc)
            else c.mult == Scaled(numerator, denominator, 1) % TWO32
    ensures forall s | c.shift < s <= 32 :: Scaled(numerator, denominator, s) >= Pow2(acc)
  {
    var one := 1;
    AllTrialsFit(numerator, denominator, one);
    forall s | c.shift < s <= 32 ensures Scaled(numerator, denominator, s) >= Pow2(acc) {
      AllTrialsFit(numerator, denominator, s);
    }
    if c.shift > 0 {
      AllTrialsFit(numerator, denominator, c.shift);
      ScaledGrows(numerator, denominator, one, c.shift);
    } else {
      assert Trial(numerator, denominator, one) >= Pow2(acc);
    }
  }

  /** The search for a shift, from 32 down. */
  method Search(numerator: nat, denominator: nat, acc: nat) returns (mult: nat, shift: nat)
    requires denominator > 0
    ensures shift <= 32 && forall s | shift < s <= 32 :: Trial(numerator, denominator, s) >= Pow2(acc)
    ensures if shift > 0 then mult == Trial(numerator, denominator, shift) < Pow2(acc)
            else mult == Trial(numerator, denominator, shift + 1)
  {
    mult, shift := 0, 32;
    while shift > 0
      invariant shift <= 32 && forall s | shift < s <= 32 :: Trial(numerator, denominator, s) >= Pow2(acc)
      invariant shift < 32 ==> mult == Trial(numerator, denominator, shift + 1)
    {
      mult := Try(numerator, denominator, shift);
      ShrZero(mult, acc);
      if Shr(mult, acc) == 0 { break; }
      shift := shift - 1;
    }
  }

  method Try(numerator: nat, denominator: nat, shift: nat) returns (mult: nat)
    requires denominator > 0
    ensures mult == Trial(numerator, denominator, shift)
  {
    mult := Wrap64(numerator * Pow2(shift));
    mult := Wrap64(mult + denominator / 2);
    mult := mult / denominator;
  }

  lemma {:induction false} AccIsSmall(acc: nat, mult: nat)
    requires acc <= 32
    ensures mult < Pow2(acc) ==> mult < TWO32
  {
    Pow2Values();
    if acc < 32 { Pow2Monotone(acc, 32); }
  }

  /** `Coeff * u64` as a mathematical value. */
  function Apply(c: Coeff, x: nat): nat { Shr(x * c.mult, c.shift) }

  /** The same as the code computes it, in 64 bits. */
  function Multiply(c: Coeff, x: nat): nat { Shr(Wrap64(x * c.mult), c.shift) }

  lemma {:induction false} MultiplyIsApply(c: Coeff, x: nat)
    requires x * c.mult < TWO64
    ensures Multiply(c, x) == Apply(c, x)
  {
  }

  /** The product does not overflow. */
  lemma {:induction false} ApplyIsSafe(c: Coeff, x: nat, acc: nat)
    requires IsShiftAcc(c.maxMultiplier, acc) && c.mult < Pow2(acc) && x <= c.maxMultiplier
    ensures x * c.mult < TWO64
  {
    Pow2Values();
    Pow2Add(64 - acc, acc);
    assert (64 - acc) + acc == 64;
    ProductBelow(x, Pow2(64 - acc), c.mult, Pow2(acc));
  }

  lemma ProductBelow(x: nat, a: nat, y: nat, b: nat)
    requires x < a && y < b
    ensures x * y < a * b
  {
    MulGrows(x, a, y);
    MulGrows(y + 1, b, a);
    assert a * (y + 1) == a * y + a;
  }

  /** The result is off by at most x / 2^(shift + 1) + 1 from x * numerator / denominator. */
  lemma {:induction false} ApplyIsAccurate(n: nat, d: nat, c: Coeff, x: nat, p: nat)
    requires d > 0 && p == Pow2(c.shift) && c.mult == Scaled(n, d, c.shift)
    ensures var r := Apply(c, x);
            x * n * (2 * p) - x * d - d * (2 * p) <= r * d * (2 * p) <= x * n * (2 * p) + x * d
  {
    ScaledIsNearest(n, d, c.shift, c.mult, p);
    ShrLow(x * c.mult, c.shift, p);
    ErrorBound(n, d, c.mult, p, x, Apply(c, x));
  }

  lemma ErrorBound(n: nat, d: nat, m: nat, p: nat, x: nat, r: nat)
    requires 2 * (n * p) - d <= 2 * (m * d) <= 2 * (n * p) + d
    requires p * r <= x * m < p * r + p
    ensures x * n * (2 * p) - x * d - d * (2 * p) <= r * d * (2 * p) <= x * n * (2 * p) + x * d
  {
    // Both sides of the rounding bound times x, and both sides of the shift bound times 2 * d.
    MulBetween(2 * (n * p) - d, 2 * (m * d), 2 * (n * p) + d, x);
    MulBetween(p * r, x * m, p * r + p, 2 * d);
    Rearrange(n, d, m, p, x, r);
  }

  lemma MulBetween(a: int, b: int, c: int, k: nat)
    requires a <= b <= c
    ensures a * k <= b * k <= c * k
  {
  }

  lemma Rearrange(n: nat, d: nat, m: nat, p: nat, x: nat, r: nat)
    ensures (2 * (n * p) - d) * x == x * n * (2 * p) - x * d
    ensures (2 * (n * p) + d) * x == x * n * (2 * p) + x * d
    ensures 2 * (m * d) * x == x * m * (2 * d)
    ensures p * r * (2 * d) == r * d * (2 * p)
    ensures (p * r + p) * (2 * d) == r * d * (2 * p) + d * (2 * p)
  {
  }

  // ---- Inputs on which the value is lost ----

  lemma {:induction false} SmallMaxAcc(acc: nat)
    requires IsShiftAcc(1, acc)
    ensures acc == 32 && Pow2(acc) == TWO32
  {
    Pow2Values();
  }

  /** For 2^31 over 1 every trial is too large, and cutting the last one to 32 bits leaves 0. */
  lemma {:induction false} SearchCanFail(acc: nat)
    requires IsShiftAcc(1, acc)
    ensures Fits(0x8000_0000, 1)
    ensures Scaled(0x8000_0000, 1, 1) >= Pow2(acc) && Scaled(0x8000_0000, 1, 1) % TWO32 == 0
  {
    SmallMaxAcc(acc);
  }

  /** So `Coeff::new` gives a coefficient that turns everything into 0. */
  method FailingSearch() returns (c: Coeff)
    ensures c == Coeff(0, 0, 1) && forall x: nat :: Apply(c, x) == 0
  {
    ghost var acc: nat;
    c, acc := New(0x8000_0000, 1, 1);
    SearchCanFail(acc);
    FoundIsScaled(c, 0x8000_0000, 1, acc);
    forall x: nat ensures Apply(c, x) == 0 { assert x * 0 == 0; }
  }

  /** For 2^33 over 1 the first trial overflows to 0, which passes the test. */
  lemma {:induction false} FirstTrialOverflows(acc: nat)
    requires IsShiftAcc(1, acc)
    ensures !TrialFits(0x2_0000_0000, 1, 32) && Trial(0x2_0000_0000, 1, 32) == 0 < Pow2(acc)
    ensures !SearchIsSound(0x2_0000_0000, 1, acc)
  {
    SmallMaxAcc(acc);
    Pow2Values();
  }

  method OverflowingSearch() returns (c: Coeff)
    ensures c == Coeff(0, 32, 1) && forall x: nat :: Apply(c, x) == 0
  {
    ghost var acc: nat;
    c, acc := New(0x2_0000_0000, 1, 1);
    FirstTrialOverflows(acc);
    forall x: nat ensures Apply(c, x) == 0 { assert x * 0 == 0; ApplyNothing(c.shift); }
  }

  lemma {:induction false} ApplyNothing(shift: nat)
    ensures Shr(0, shift) == 0
  {
    ShrZero(0, shift);
  }
}
