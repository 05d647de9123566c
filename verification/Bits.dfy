/** Bit operations of unsigned machine words, as functions on natural numbers.

    A word of `n` bits is a natural number below `Pow2(n)`. The operators are
    defined digit by digit, and the lemmas give the arithmetic meaning of the
    masks that the kernel uses. */
module Bits {

  function Pow2(k: nat): (p: nat)
    ensures 1 <= p
  {
    if k == 0 then 1 else 2 * Pow2(k - 1)
  }

  /** Whether bit `k` of `x` is set. */
  predicate Bit(x: nat, k: nat) {
    if k == 0 then x % 2 == 1 else Bit(x / 2, k - 1)
  }

  function And(x: nat, y: nat): nat {
    if x == 0 || y == 0 then 0
    else (if x % 2 == 1 && y % 2 == 1 then 1 else 0) + 2 * And(x / 2, y / 2)
  }

  function Or(x: nat, y: nat): nat
    decreases x + y
  {
    if x == 0 then y else if y == 0 then x
    else (if x % 2 == 1 || y % 2 == 1 then 1 else 0) + 2 * Or(x / 2, y / 2)
  }

  /** The complement `!x` in a word of `width` bits. */
  function Not(x: nat, width: nat): nat
    requires x < Pow2(width)
  {
    Pow2(width) - 1 - x
  }

  /** `x >> k`. */
  function Shr(x: nat, k: nat): nat {
    if k == 0 then x else Shr(x / 2, k - 1)
  }

  /** The `k` low bits of `x`. */
  function Low(x: nat, k: nat): nat {
    if k == 0 then 0 else x % 2 + 2 * Low(x / 2, k - 1)
  }

  predicate IsPowerOfTwo(x: nat) { x != 0 && And(x, x - 1) == 0 }

  lemma {:induction false} Pow2Add(a: nat, b: nat)
    ensures Pow2(a + b) == Pow2(a) * Pow2(b)
  {
    if a > 0 {
      Pow2Add(a - 1, b);
      assert a + b - 1 == (a - 1) + b;
      assert Pow2(a) * Pow2(b) == 2 * (Pow2(a - 1) * Pow2(b));
    }
  }

  lemma Pow2Values()
    ensures Pow2(12) == 0x1000 && Pow2(16) == 0x1_0000 && Pow2(32) == 0x1_0000_0000
    ensures Pow2(60) == 0x1000_0000_0000_0000 && Pow2(61) == 0x2000_0000_0000_0000
    ensures Pow2(62) == 0x4000_0000_0000_0000 && Pow2(63) == 0x8000_0000_0000_0000
    ensures Pow2(64) == 0x1_0000_0000_0000_0000
  {
    assert Pow2(4) == 16 && Pow2(12) == 0x1000;
    Pow2Add(4, 12);
    Pow2Add(16, 16);
    Pow2Add(32, 16);
    Pow2Add(48, 12);
    assert Pow2(61) == 2 * Pow2(60);
    assert Pow2(62) == 2 * Pow2(61);
    assert Pow2(63) == 2 * Pow2(62);
    assert Pow2(64) == 2 * Pow2(63);
  }

  lemma {:induction false} Pow2Monotone(a: nat, b: nat)
    requires a < b
    ensures 2 * Pow2(a) <= Pow2(b)
    decreases b
  {
    if a + 1 < b { Pow2Monotone(a, b - 1); }
  }

  /** Shifting and masking split a word as division by a power of two does. */
  lemma {:induction false} ShrLow(x: nat, k: nat, p: nat)
    requires p == Pow2(k)
    ensures x == p * Shr(x, k) + Low(x, k) && Low(x, k) < p
  {
    if k > 0 {
      var h := Pow2(k - 1);
      ShrLow(x / 2, k - 1, h);
      TwiceProduct(p, h, Shr(x / 2, k - 1));
    }
  }

  lemma TwiceProduct(p: nat, h: nat, q: nat)
    requires p == 2 * h
    ensures p * q == 2 * (h * q)
  {
  }

  /** Bit `k` is the lowest digit of the word shifted right by `k`. */
  lemma {:induction false} BitIsDigit(x: nat, k: nat)
    ensures Bit(x, k) <==> Shr(x, k) % 2 == 1
  {
    if k > 0 { BitIsDigit(x / 2, k - 1); }
  }

  lemma AndStep(x: nat, y: nat)
    ensures And(x, y) == (if x % 2 == 1 && y % 2 == 1 then 1 else 0) + 2 * And(x / 2, y / 2)
  {
  }

  /** `x & (2^k - 1)` keeps the low bits. */
  lemma {:induction false} AndLowMask(x: nat, k: nat, p: nat)
    requires p == Pow2(k)
    ensures And(x, p - 1) == Low(x, k)
  {
    if k > 0 {
      var h := Pow2(k - 1);
      AndLowMask(x / 2, k - 1, h);
      var mask := 2 * h - 1;
      AndStep(x, mask);
      assert mask / 2 == h - 1 && mask % 2 == 1;
    }
  }

  /** `x & !(2^k - 1)` clears the low bits: it rounds down to a multiple of 2^k. */
  lemma {:induction false} AndHighMask(x: nat, k: nat, width: nat, p: nat, w: nat)
    requires k <= width && x < w && p == Pow2(k) && w == Pow2(width)
    ensures p - 1 < w && Not(p - 1, width) == w - p
    ensures And(x, w - p) == x - Low(x, k)
  {
    if k < width { Pow2Monotone(k, width); }
    if k == 0 {
      AndLowMask(x, width, w);
      LowOfSmall(x, width);
    } else {
      var h, v := Pow2(k - 1), Pow2(width - 1);
      AndHighMask(x / 2, k - 1, width - 1, h, v);
      var mask := 2 * v - 2 * h;
      AndStep(x, mask);
      assert mask / 2 == v - h && mask % 2 == 0;
    }
  }

  lemma {:induction false} LowOfSmall(x: nat, k: nat)
    requires x < Pow2(k)
    ensures Low(x, k) == x
  {
    if k > 0 { LowOfSmall(x / 2, k - 1); }
  }

  lemma {:induction false} BitOfZero(k: nat)
    ensures !Bit(0, k)
  {
    if k > 0 { BitOfZero(k - 1); }
  }

  lemma {:induction false} AndSingle(x: nat, k: nat, p: nat)
    requires p == Pow2(k)
    ensures And(x, p) == if Bit(x, k) then p else 0
  {
    if x == 0 {
      BitOfZero(k);
    } else if k == 0 {
      assert And(x / 2, 0) == 0;
    } else {
      AndSingle(x / 2, k - 1, p / 2);
    }
  }

  lemma {:induction false} OrSingle(x: nat, k: nat, p: nat)
    requires p == Pow2(k)
    ensures Or(x, p) == if Bit(x, k) then x else x + p
  {
    if x == 0 {
      BitOfZero(k);
    } else if k == 0 {
      assert Or(x / 2, 0) == x / 2;
    } else {
      OrSingle(x / 2, k - 1, p / 2);
    }
  }

  /** Masks with no bit in common can be tested one after the other. */
  lemma {:induction false} AndSplit(x: nat, a: nat, b: nat)
    requires And(a, b) == 0
    ensures And(x, a + b) == And(x, a) + And(x, b)
  {
    if x > 0 && a > 0 && b > 0 {
      AndSplit(x / 2, a / 2, b / 2);
      assert (a + b) / 2 == a / 2 + b / 2;
    }
  }

  lemma {:induction false} BitOfPow2(i: nat, j: nat)
    ensures Bit(Pow2(i), j) <==> i == j
  {
    if i == 0 {
      if j > 0 { BitOfZero(j - 1); }
    } else if j > 0 {
      BitOfPow2(i - 1, j - 1);
    }
  }

  /** Joining two different flags with `|` adds them, and a mask of two flags tests both. */
  lemma TwoFlags(x: nat, i: nat, j: nat, a: nat, b: nat)
    requires i != j && a == Pow2(i) && b == Pow2(j)
    ensures Or(a, b) == a + b
    ensures And(x, a + b) == And(x, a) + And(x, b)
  {
    BitOfPow2(i, j);
    OrSingle(a, j, b);
    AndSingle(a, j, b);
    AndSplit(x, a, b);
  }

  lemma ThreeFlags(x: nat, i: nat, j: nat, k: nat, a: nat, b: nat, c: nat)
    requires i != j && j != k && i != k && a == Pow2(i) && b == Pow2(j) && c == Pow2(k)
    ensures Or(Or(a, b), c) == a + b + c
    ensures And(x, a + b + c) == And(x, a) + And(x, b) + And(x, c)
  {
    TwoFlags(c, i, j, a, b);
    AndSingle(c, i, a);
    AndSingle(c, j, b);
    BitOfPow2(k, i);
    BitOfPow2(k, j);
    AndCommutes(c, a + b);
    AndSplit(x, a + b, c);
    TwoFlags(x, i, j, a, b);
    OrSingle(a + b, k, c);
    AndSingle(a + b, k, c);
  }

  lemma {:induction false} AndCommutes(x: nat, y: nat)
    ensures And(x, y) == And(y, x)
  {
    if x > 0 && y > 0 { AndCommutes(x / 2, y / 2); }
  }

  /** `x != 0 && x & (x - 1) == 0` recognises exactly the powers of two. */
  lemma {:induction false} PowerOfTwoTest(x: nat)
    ensures IsPowerOfTwo(x) <==> exists k: nat :: x == Pow2(k)
  {
    if x == 1 {
      assert x == Pow2(0);
    } else if x % 2 == 1 {
      AndStep(x, x - 1);
      AndSelf(x / 2);
      assert (x - 1) / 2 == x / 2;
      assert !IsPowerOfTwo(x);
      forall k: nat ensures x != Pow2(k) { OnlyOneIsOdd(k); }
    } else if x > 0 {
      AndStep(x, x - 1);
      assert (x - 1) / 2 == x / 2 - 1;
      assert IsPowerOfTwo(x) == IsPowerOfTwo(x / 2);
      PowerOfTwoTest(x / 2);
      if IsPowerOfTwo(x) {
        var k: nat :| x / 2 == Pow2(k);
        assert x == Pow2(k + 1);
      }
      forall k: nat | x == Pow2(k) ensures IsPowerOfTwo(x) {
        OnlyOneIsOdd(k);
        assert k > 0 && x / 2 == Pow2(k - 1);
      }
    }
  }

  lemma {:induction false} OnlyOneIsOdd(k: nat)
    ensures Pow2(k) % 2 == 1 <==> k == 0
    ensures k > 0 ==> Pow2(k) == 2 * Pow2(k - 1)
  {
  }

  lemma {:induction false} AndSelf(x: nat)
    ensures And(x, x) == x
  {
    if x > 0 { AndSelf(x / 2); }
  }

  // ---- The operators bit by bit ----

  lemma DigitAndRest(b: nat, rest: nat, x: nat)
    requires b < 2 && x == b + 2 * rest
    ensures x % 2 == b && x / 2 == rest
  {
  }

  lemma {:induction false} BitOfAnd(x: nat, y: nat, k: nat)
    ensures Bit(And(x, y), k) <==> Bit(x, k) && Bit(y, k)
  {
    AndStep(x, y);
    DigitAndRest(if x % 2 == 1 && y % 2 == 1 then 1 else 0, And(x / 2, y / 2), And(x, y));
    if k > 0 { BitOfAnd(x / 2, y / 2, k - 1); }
  }

  lemma {:induction false} OrStep(x: nat, y: nat)
    ensures Or(x, y) == (if x % 2 == 1 || y % 2 == 1 then 1 else 0) + 2 * Or(x / 2, y / 2)
  {
    if x != 0 && y != 0 {
    } else {
      assert Or(0, y / 2) == y / 2;
      assert x / 2 == 0 || Or(x / 2, 0) == x / 2;
    }
  }

  lemma {:induction false} BitOfOr(x: nat, y: nat, k: nat)
    ensures Bit(Or(x, y), k) <==> Bit(x, k) || Bit(y, k)
  {
    OrStep(x, y);
    DigitAndRest(if x % 2 == 1 || y % 2 == 1 then 1 else 0, Or(x / 2, y / 2), Or(x, y));
    if k > 0 { BitOfOr(x / 2, y / 2, k - 1); }
  }

  lemma {:induction false} BitOfNot(x: nat, width: nat, k: nat)
    requires x < Pow2(width) && k < width
    ensures Bit(Not(x, width), k) <==> !Bit(x, k)
  {
    assert Not(x, width) % 2 == 1 - x % 2;
    if k > 0 {
      assert Not(x, width) / 2 == Not(x / 2, width - 1);
      BitOfNot(x / 2, width - 1, k - 1);
    }
  }

  /** The mask of the `v` low bits. */
  lemma {:induction false} BitOfMask(v: nat, k: nat)
    ensures Bit(Pow2(v) - 1, k) <==> k < v
  {
    if v == 0 {
      BitOfZero(k);
    } else if k > 0 {
      assert (Pow2(v) - 1) / 2 == Pow2(v - 1) - 1;
      BitOfMask(v - 1, k - 1);
    }
  }

  lemma {:induction false} AndBelow(x: nat, y: nat)
    ensures And(x, y) <= x
  {
    if x != 0 && y != 0 { AndBelow(x / 2, y / 2); }
  }

  lemma {:induction false} OrBelow(x: nat, y: nat, width: nat)
    requires x < Pow2(width) && y < Pow2(width)
    ensures Or(x, y) < Pow2(width)
  {
    if width > 0 {
      OrStep(x, y);
      OrBelow(x / 2, y / 2, width - 1);
    }
  }
}
