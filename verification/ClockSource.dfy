/** `ClockSource`: instants from a cycle counter, kept up to date in steps. */
module ClockSources {
  import opened Bits
  import opened Coeffs

  const NANOS_PER_SECOND: nat := 1_000_000_000

  datatype Instant = Instant(secs: nat, nanos: nat)

  predicate InstantOk(i: Instant) { i.nanos < NANOS_PER_SECOND }

  function Nanos(i: Instant): nat { i.secs * NANOS_PER_SECOND + i.nanos }

  /** `Instant + Duration::from_nanos(delta)`: the same moment plus `delta`, with the nanoseconds carried. */
  function Plus(i: Instant, delta: nat): (r: Instant)
    requires InstantOk(i)
    ensures InstantOk(r) && Nanos(r) == Nanos(i) + delta
  {
    var secs, nanos := i.secs + delta / NANOS_PER_SECOND, i.nanos + delta % NANOS_PER_SECOND;
    if nanos >= NANOS_PER_SECOND then Instant(secs + 1, nanos - NANOS_PER_SECOND) else Instant(secs, nanos)
  }

  // ---- Converting in one step and in several ----

  lemma QuotientsAdd(p: nat, a: nat, b: nat, c: nat, x: nat, y: nat, z: nat)
    requires x < p && y < p && z < p && p * a + x + (p * b + y) == p * c + z
    ensures a + b <= c <= a + b + 1
  {
    assert p * (c + 1) == p * c + p && p * (a + b) == p * a + p * b;
    assert p * (a + b + 2) == p * a + p * b + p + p;
    if c < a + b { MulGrows(c + 1, a + b, p); }
    if c > a + b + 1 { MulGrows(a + b + 2, c, p); }
  }

  /** Two conversions together fall short of one conversion of the sum by at most 1. */
  lemma {:induction false} ApplyAdds(c: Coeff, x: nat, y: nat)
    ensures Apply(c, x) + Apply(c, y) <= Apply(c, x + y) <= Apply(c, x) + Apply(c, y) + 1
  {
    var p, s := Pow2(c.shift), c.shift;
    assert (x + y) * c.mult == x * c.mult + y * c.mult;
    ShrLow(x * c.mult, s, p);
    ShrLow(y * c.mult, s, p);
    ShrLow((x + y) * c.mult, s, p);
    QuotientsAdd(p, Shr(x * c.mult, s), Shr(y * c.mult, s), Shr((x + y) * c.mult, s),
                 Low(x * c.mult, s), Low(y * c.mult, s), Low((x + y) * c.mult, s));
  }

  lemma {:induction false} ApplyZero(c: Coeff)
    ensures Apply(c, 0) == 0
  {
    ShrZero(0, c.shift);
  }

  /** The conversions of an update at `last`, a read at `now` and a read at `cycles`, against those in one step. */
  lemma {:induction false} InOneStep(c: Coeff, origin: nat, last: nat, now: nat, cycles: nat)
    requires origin <= last <= now <= cycles
    ensures Apply(c, now - last) <= Apply(c, cycles - last)
    ensures Apply(c, last - origin) + Apply(c, cycles - last) <= Apply(c, cycles - origin)
    ensures Apply(c, cycles - origin) <=
            Apply(c, last - origin) + Apply(c, cycles - last) + if last == origin then 0 else 1
  {
    ApplyAdds(c, now - last, cycles - now);
    ApplyAdds(c, last - origin, cycles - last);
    ApplyZero(c);
    assert now - last + (cycles - now) == cycles - last && last - origin + (cycles - last) == cycles - origin;
  }

  /** A coefficient from cycles to nanoseconds, for gaps of up to `secs` seconds, that `New` found a shift for. */
  ghost predicate MadeFor(c: Coeff, acc: nat, freq: nat, secs: nat) {
    && 0 < freq < TWO64 && c.maxMultiplier == secs * freq && IsShiftAcc(c.maxMultiplier, acc)
    && 1 <= c.shift <= 32 && c.mult == Scaled(NANOS_PER_SECOND, freq, c.shift) < Pow2(acc)
  }

  /** `nanos` is at most x / (2 * p) more than x * 10^9 / freq, and at most x / (2 * p) + k + 1 less. */
  ghost predicate WithinError(nanos: nat, x: nat, freq: nat, p: nat, k: nat) {
    var exact, unit := x * NANOS_PER_SECOND * (2 * p), freq * (2 * p);
    exact - x * freq - (k + 1) * unit <= nanos * unit <= exact + x * freq
  }

  /** What lags a conversion by at most `k` is off from the true time by rounding and `k` alone. */
  lemma {:induction false} LagIsAccurate(c: Coeff, freq: nat, nanos: nat, x: nat, p: nat, k: nat)
    requires freq > 0 && p == Pow2(c.shift) && c.mult == Scaled(NANOS_PER_SECOND, freq, c.shift)
    requires nanos <= Apply(c, x) <= nanos + k
    ensures WithinError(nanos, x, freq, p, k)
  {
    var r, unit := Apply(c, x), freq * (2 * p);
    ApplyIsAccurate(NANOS_PER_SECOND, freq, c, x, p);
    Regroup(r, freq, 2 * p);
    MulGrows(nanos, r, unit);
    MulGrows(r, nanos + k, unit);
    SpreadOver(nanos, k, unit);
  }

  lemma Regroup(a: nat, b: nat, c: nat)
    ensures a * b * c == a * (b * c)
  {
  }

  lemma SpreadOver(a: nat, k: nat, unit: nat)
    ensures (a + k) * unit == a * unit + k * unit && (k + 1) * unit == k * unit + unit
  {
  }

  /** The larger of the two. */
  function AtLeastTwo(secs: nat): (r: nat)
    ensures r >= 2 && r >= secs && (r == 2 || r == secs)
  {
    if secs < 2 then 2 else secs
  }

  class ClockSource {
    const freq: nat
    /** The maximum delay that is reported, and the one that was asked for. */
    const maxDelaySecs: nat
    ghost const asked: nat
    const coeff: Coeff
    var lastInstant: Instant
    var lastCycles: nat

    ghost const acc: nat
    /** The counter when the recorded instant was last zero, and the number of updates since. */
    ghost var origin: nat
    ghost var updates: nat
    /** The last counter value read, and the nanoseconds of the last instant handed out since then. */
    ghost var now: nat
    ghost var shown: nat

    ghost predicate Valid()
      reads this
    {
      && MadeFor(coeff, acc, freq, asked) && maxDelaySecs == AtLeastTwo(asked) && InstantOk(lastInstant)
      && origin <= lastCycles <= now
      && Nanos(lastInstant) <= Apply(coeff, lastCycles - origin)
      && Apply(coeff, lastCycles - origin) <= Nanos(lastInstant) + (if updates == 0 then 0 else updates - 1)
      && (updates == 0 ==> lastCycles == origin)
      && shown <= Nanos(lastInstant) + Apply(coeff, now - lastCycles)
    }

    /** `ClockSource::new`: whenever the product of the arguments is a 64-bit number, the coefficient is one that was
        found, so conversions are safe and accurate. */
    constructor (freq: nat, maxDelaySecs: nat)
      requires 0 < freq < TWO64 && maxDelaySecs < 600 && maxDelaySecs * freq < TWO64
      ensures Valid() && origin == updates == 0
      ensures this.freq == freq && asked == maxDelaySecs
      ensures this.maxDelaySecs >= maxDelaySecs && this.maxDelaySecs >= 2
      ensures this.maxDelaySecs == maxDelaySecs || this.maxDelaySecs == 2
    {
      var c, a := New(NANOS_PER_SECOND, freq, maxDelaySecs * freq);
      NanosFit(freq);
      ShiftOneFits(freq, maxDelaySecs, a);
      FoundIsScaled(c, NANOS_PER_SECOND, freq, a);
      ApplyZero(c);
      this.freq, this.maxDelaySecs, asked := freq, AtLeastTwo(maxDelaySecs), maxDelaySecs;
      coeff, acc := c, a;
      lastInstant, lastCycles := Instant(0, 0), 0;
      origin, updates, now, shown := 0, 0, 0, 0;
    }

    /** `calculate_instant`, for an update within the reported delay. */
    method CalculateInstant(cycles: nat) returns (r: Instant)
      requires Valid() && now <= cycles && cycles - lastCycles <= maxDelaySecs * freq
      ensures InstantOk(r) && Nanos(r) == Nanos(lastInstant) + Apply(coeff, cycles - lastCycles)
      ensures Nanos(r) >= shown
      ensures Nanos(r) <= Apply(coeff, cycles - origin) <= Nanos(r) + updates
    {
      var delta := cycles - lastCycles;
      ReportedDelayIsSafe(this, delta);
      InOneStep(coeff, origin, lastCycles, now, cycles);
      return Plus(lastInstant, Multiply(coeff, delta));
    }

    /** `read_instant`: it never goes back, it never leads the conversion of all cycles since the
        origin in one step, and after k updates it lags that by at most k nanoseconds. So it is off from the
        true time since the origin by at most k + 1 nanoseconds and the rounding of the coefficient. */
    method ReadInstant(cycles: nat) returns (r: Instant)
      requires Valid() && now <= cycles && cycles - lastCycles <= maxDelaySecs * freq
      modifies this`now, this`shown
      ensures Valid() && InstantOk(r) && shown == Nanos(r) >= old(shown) && now == cycles
      ensures Nanos(r) <= Apply(coeff, cycles - origin) <= Nanos(r) + updates
      ensures WithinError(Nanos(r), cycles - origin, freq, Pow2(coeff.shift), updates)
    {
      r := CalculateInstant(cycles);
      LagIsAccurate(coeff, freq, Nanos(r), cycles - origin, Pow2(coeff.shift), updates);
      now, shown := cycles, Nanos(r);
    }

    /** `update`. */
    method Update(cycles: nat)
      requires Valid() && now <= cycles && cycles - lastCycles <= maxDelaySecs * freq
      modifies this`lastInstant, this`lastCycles, this`updates, this`now
      ensures Valid() && updates == old(updates) + 1 && lastCycles == now == cycles
      ensures Nanos(lastInstant) >= shown
    {
      var instant := CalculateInstant(cycles);
      lastCycles := cycles;
      lastInstant := instant;
      updates, now := updates + 1, cycles;
      ApplyZero(coeff);
    }

    /** `calibrate`: the recorded instant becomes zero at the given cycles. */
    method Calibrate(cycles: nat)
      requires Valid() && now <= cycles
      modifies this
      ensures Valid() && lastInstant == Instant(0, 0) && origin == lastCycles == cycles && updates == 0 && shown == 0
    {
      lastCycles := cycles;
      lastInstant := Instant(0, 0);
      origin, updates, now, shown := cycles, 0, cycles, 0;
      ApplyZero(coeff);
    }
  }

  /** A gap of the reported delay passes the assertion in `Coeff`'s multiplication exactly when at least two seconds
      were asked for. */
  lemma ReportedDelayMeetsAssertion(clock: ClockSource)
    requires clock.Valid()
    ensures clock.maxDelaySecs * clock.freq <= clock.coeff.maxMultiplier <==> clock.asked >= 2
  {
    if clock.asked < 2 {
      MulGrows(clock.asked + 1, 2, clock.freq);
      assert (clock.asked + 1) * clock.freq == clock.asked * clock.freq + clock.freq;
    }
  }

  /** A clock of 2.4 GHz for which one second was asked for reports two, and two seconds fail the assertion. */
  method OneSecondClock() returns (clock: ClockSource)
    ensures clock.Valid() && clock.freq == 2_400_000_000 && clock.asked == 1 && clock.maxDelaySecs == 2
    ensures clock.maxDelaySecs * clock.freq > clock.coeff.maxMultiplier
  {
    clock := new ClockSource(2_400_000_000, 1);
    ReportedDelayMeetsAssertion(clock);
  }

  /** Without the assertion nothing goes wrong: the product never overflows, for any clock and any gap of up to the
      reported delay. */
  lemma ReportedDelayIsSafe(clock: ClockSource, gap: nat)
    requires clock.Valid() && gap <= clock.maxDelaySecs * clock.freq
    ensures gap * clock.coeff.mult < TWO64 && Multiply(clock.coeff, gap) == Apply(clock.coeff, gap)
  {
    GapIsSafe(clock.coeff, clock.acc, clock.freq, clock.asked, gap);
    MultiplyIsApply(clock.coeff, gap);
  }

  lemma {:induction false} GapIsSafe(c: Coeff, acc: nat, freq: nat, secs: nat, gap: nat)
    requires MadeFor(c, acc, freq, secs) && gap <= AtLeastTwo(secs) * freq
    ensures gap * c.mult < TWO64
  {
    if secs >= 2 {
      ApplyIsSafe(c, gap, acc);
    } else {
      TwoSecondsAreSafe(freq, c.shift, c.mult, gap);
    }
  }

  lemma {:induction false} TwoSecondsAreSafe(freq: nat, shift: nat, mult: nat, gap: nat)
    requires 0 < freq < TWO64 && shift <= 32 && mult == Scaled(NANOS_PER_SECOND, freq, shift) && gap <= 2 * freq
    ensures gap * mult < TWO64
  {
    var p := Pow2(shift);
    assert p <= TWO32 by { Pow2Values(); Pow2AtLeast(shift, 32); }
    DivBound(NANOS_PER_SECOND * p + freq / 2, freq);
    if freq >= 0x8000_0000_0000_0000 {
      if mult > 0 { MulGrows(1, mult, freq); }
      assert mult == 0;
    } else {
      MulGrows(gap, 2 * freq, mult);
      assert 2 * freq * mult == 2 * (mult * freq);
    }
  }

  lemma NanosFit(freq: nat)
    requires freq < TWO64
    ensures Fits(NANOS_PER_SECOND, freq)
  {
  }

  /** With shift 1 the multiplier always fits. */
  lemma {:induction false} ShiftOneFits(freq: nat, maxDelaySecs: nat, acc: nat)
    requires 0 < freq && maxDelaySecs < 600 && IsShiftAcc(maxDelaySecs * freq, acc)
    ensures Scaled(NANOS_PER_SECOND, freq, 1) < Pow2(acc)
  {
    var x := NANOS_PER_SECOND * 2 + freq / 2;
    assert Pow2(1) == 2;
    if acc == 32 {
      Pow2Values();
      QuotientSmall(x, freq, TWO32);
    } else {
      ManyBits(freq, maxDelaySecs, acc, Pow2(acc), Pow2(63 - acc));
      QuotientSmall(x, freq, Pow2(acc));
    }
  }

  /** The fewer bits are left, the higher is the frequency. */
  lemma {:induction false} ManyBits(freq: nat, secs: nat, acc: nat, p: nat, r: nat)
    requires acc < 32 && secs < 600 && p == Pow2(acc) && r == Pow2(63 - acc) <= secs * freq
    ensures NANOS_PER_SECOND * 2 + freq / 2 < p * freq
  {
    assert p * r == 0x8000_0000_0000_0000 by { Pow2Values(); Pow2Add(acc, 63 - acc); assert acc + (63 - acc) == 63; }
    assert p >= 1;
    MulGrows(secs, 600, freq);
    MulGrows(r, 600 * freq, p);
    assert p * (600 * freq) == 600 * (p * freq);
    MulGrows(1, p, freq);
  }

  lemma QuotientSmall(x: nat, d: nat, k: nat)
    requires d > 0 && x < k * d
    ensures x / d < k
  {
    DivBound(x, d);
    if x / d >= k { MulGrows(k, x / d, d); }
  }

  lemma {:induction false} Pow2AtLeast(a: nat, b: nat)
    requires a <= b
    ensures Pow2(a) <= Pow2(b)
  {
    if a < b { Pow2Monotone(a, b); }
  }
}
