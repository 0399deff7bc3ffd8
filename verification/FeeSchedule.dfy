/** The fee calculator: packages/lib-base/src/Fees.ts. */
module FeeSchedule {
  import opened Outcomes
  import opened Numbers
  import opened Decimals

  datatype Constants = Constants(
    minimumBorrowingRate: Decimal,
    maximumBorrowingRate: Decimal,
    minimumRedemptionRate: Decimal)

  const MILLISECONDS_PER_MINUTE: nat := 60000

  datatype Fees = Fees(
    baseRateWithoutDecay: Decimal,
    minuteDecayFactor: Decimal,
    beta: Decimal,
    lastFeeOperation: int,
    timeOfLatestBlock: int,
    recoveryMode: bool)
  {
    /** What the constructor asserts. */
    predicate Valid() {
      minuteDecayFactor < ONE
    }

    function SetRecoveryMode(mode: bool): (r: Fees) {
      this.(recoveryMode := mode)
    }

    /** Whole minutes since the last fee operation; a time before it counts as none. */
    function MinutesSince(when: int): (r: nat) {
      (if lastFeeOperation < when then when - lastFeeOperation else 0) / MILLISECONDS_PER_MINUTE
    }

    function BaseRate(when: int): (r: Result<Decimal>) {
      var decay :- Pow(minuteDecayFactor, MinutesSince(when));
      Ok(Mul(decay, baseRateWithoutDecay))
    }

    function BorrowingRate(c: Constants, when: int): (r: Result<Decimal>) {
      if recoveryMode then Ok(0)
      else
        var base :- BaseRate(when);
        Ok(Min(c.minimumBorrowingRate + base, c.maximumBorrowingRate))
    }

    function RedemptionRate(c: Constants, fraction: Decimal, when: int): (r: Result<Decimal>) {
      var decayed :- BaseRate(when);
      var base := if fraction != 0 then Div(fraction, beta) + decayed else decayed;
      Ok(Min(c.minimumRedemptionRate + base, ONE))
    }
  }

  /** n whole minutes of 60000 milliseconds lie between the two times; none if the second is not later. */
  predicate MinutesBetween(earlier: int, later: int, n: nat) {
    if later <= earlier then n == 0 else n * 60000 <= later - earlier < (n + 1) * 60000
  }

  lemma ElapsedMinutes(f: Fees, when: int, n: nat)
    ensures MinutesBetween(f.lastFeeOperation, when, n) <==> n == f.MinutesSince(when)
  {
  }

  /** The rates are defined as long as the elapsed minutes fit the exponent of pow. */
  lemma RatesDefined(f: Fees, c: Constants, fraction: Decimal, when: int)
    ensures f.BaseRate(when).Ok? <==> f.MinutesSince(when) <= MAX_EXPONENT
    ensures f.BorrowingRate(c, when).Ok? <==> f.recoveryMode || f.MinutesSince(when) <= MAX_EXPONENT
    ensures f.RedemptionRate(c, fraction, when).Ok? <==> f.MinutesSince(when) <= MAX_EXPONENT
  {
  }

  /**
   * What the stored rate has become after n minutes: not more than it was, the same within the first
   * minute, and within (n + 1) / 2 units of exact geometric decay if it is at most one.
   */
  ghost predicate IsDecayed(base: Decimal, stored: Decimal, factor: Decimal, n: nat) {
    && base <= stored
    && (n == 0 ==> base == stored)
    && (stored <= ONE ==>
          2 * Abs(base * Exp(DIGITS, n) - stored * Exp(factor, n)) <= (n + 1) * Exp(DIGITS, n))
  }

  /** The base rate has decayed by the minutes since the last fee operation. */
  lemma BaseRateEnvelope(f: Fees, when: int, n: nat)
    requires f.Valid() && MinutesBetween(f.lastFeeOperation, when, n) && n <= MAX_EXPONENT
    ensures f.BaseRate(when).Ok? && IsDecayed(f.BaseRate(when).value, f.baseRateWithoutDecay, f.minuteDecayFactor, n)
  {
    ElapsedMinutes(f, when, n);
    var stored := f.baseRateWithoutDecay;
    var decay := Pow(f.minuteDecayFactor, n).value;
    if n == 0 {
      assert Exp(DIGITS, 0) == 1 && Exp(f.minuteDecayFactor, 0) == 1;
    } else {
      PowError(f.minuteDecayFactor, n);
      DecayedBelow(decay, stored);
      if stored <= ONE {
        DecayError(decay, stored, Mul(decay, stored), Exp(DIGITS, n - 1), Exp(f.minuteDecayFactor, n), n);
      }
    }
  }

  lemma DecayedBelow(decay: nat, stored: nat)
    requires decay <= DIGITS
    ensures Mul(decay, stored) <= stored
    ensures Mul(decay, stored) * DIGITS <= decay * stored < (Mul(decay, stored) + 1) * DIGITS
  {
    MulMonotone(decay, DIGITS, stored, stored);
  }

  lemma DecayError(decay: nat, stored: nat, rate: nat, p: nat, power: nat, n: nat)
    requires 1 <= n && stored <= DIGITS
    requires rate * DIGITS <= decay * stored < (rate + 1) * DIGITS
    requires 2 * Abs(decay * p - power) <= (n - 1) * p
    ensures 2 * Abs(rate * (DIGITS * p) - stored * power) <= (n + 1) * (DIGITS * p)
  {
    var floorError, powError := rate * DIGITS - decay * stored, decay * p - power;
    ScaledBound(floorError, p, 2 * DIGITS, p);
    ScaledBound(powError, stored, (n - 1) * p, DIGITS);
    DecaySplits(decay, stored, rate, p, power);
    assert (n - 1) * p * DIGITS == (n - 1) * (DIGITS * p);
    assert (n + 1) * (DIGITS * p) == (n - 1) * (DIGITS * p) + 2 * (DIGITS * p);
    assert 2 * DIGITS * p == 2 * (DIGITS * p);
    SumOfBounds(rate * (DIGITS * p) - stored * power, floorError * p, powError * stored, 0,
                2 * DIGITS * p, (n - 1) * p * DIGITS, 0, (n + 1) * (DIGITS * p));
  }

  lemma DecaySplits(decay: int, stored: int, rate: int, p: int, power: int)
    ensures rate * (DIGITS * p) - stored * power
         == (rate * DIGITS - decay * stored) * p + (decay * p - power) * stored
  {
    Assoc(rate, DIGITS, p);
    assert (rate * DIGITS - decay * stored) * p == rate * DIGITS * p - decay * stored * p;
    assert (decay * p - power) * stored == decay * p * stored - power * stored;
    Swap(decay, stored, p);
  }

  /** The borrowing rate: nothing in recovery; otherwise the decayed base on top of the minimum, capped. */
  lemma BorrowingRateEnvelope(f: Fees, c: Constants, when: int)
    requires f.Valid() && f.MinutesSince(when) <= MAX_EXPONENT
    requires c.minimumBorrowingRate <= c.maximumBorrowingRate
    ensures var r, base := f.BorrowingRate(c, when), f.BaseRate(when);
            && r.Ok? && base.Ok?
            && (f.recoveryMode ==> r.value == 0)
            && (!f.recoveryMode ==>
                  && c.minimumBorrowingRate <= r.value <= c.maximumBorrowingRate
                  && (r.value < c.maximumBorrowingRate ==> r.value - c.minimumBorrowingRate == base.value)
                  && (r.value == c.maximumBorrowingRate ==>
                        c.maximumBorrowingRate - c.minimumBorrowingRate <= base.value))
  {
  }

  /** Both rates from the decayed base rate, when nothing is redeemed. */
  lemma RatesFromBase(f: Fees, c: Constants, when: int)
    requires f.BaseRate(when).Ok?
    ensures var base := f.BaseRate(when).value;
            && f.BorrowingRate(c, when)
               == Ok(if f.recoveryMode then 0 else Min(c.minimumBorrowingRate + base, c.maximumBorrowingRate))
            && f.RedemptionRate(c, 0, when) == Ok(Min(c.minimumRedemptionRate + base, ONE))
  {
  }

  /** The redemption rate stays between its floor and one and grows with the redeemed fraction. */
  lemma RedemptionRateEnvelope(f: Fees, c: Constants, when: int, fraction: Decimal, larger: Decimal)
    requires f.Valid() && f.MinutesSince(when) <= MAX_EXPONENT
    requires c.minimumRedemptionRate <= ONE && fraction <= larger
    ensures var r, s := f.RedemptionRate(c, fraction, when), f.RedemptionRate(c, larger, when);
            && r.Ok? && s.Ok?
            && c.minimumRedemptionRate <= r.value <= s.value <= ONE
  {
    if f.beta != 0 {
      MulMonotone(fraction, larger, DIGITS, DIGITS);
      FloorMonotone(fraction * DIGITS, larger * DIGITS, f.beta);
    }
  }

  /**
   * The redemption rate adds the fraction over beta, rounded down, to floor and base, and is one exactly
   * when these add up to one; dividing by a beta of zero gives infinity.
   */
  lemma RedemptionRateSlope(f: Fees, c: Constants, when: int, fraction: Decimal)
    requires f.Valid() && f.MinutesSince(when) <= MAX_EXPONENT
    ensures var r, base := f.RedemptionRate(c, fraction, when), f.BaseRate(when);
            && r.Ok? && base.Ok?
            && (fraction == 0 ==> r.value == Min(c.minimumRedemptionRate + base.value, ONE))
            && (fraction != 0 && f.beta == 0 ==> r.value == ONE)
            && (0 < f.beta ==>
                  var slope := r.value - c.minimumRedemptionRate - base.value;
                  && (r.value < ONE ==> 0 <= slope && slope * f.beta <= fraction * DIGITS < (slope + 1) * f.beta)
                  && (r.value == ONE <==>
                        ONE * f.beta <= (c.minimumRedemptionRate + base.value) * f.beta + fraction * DIGITS))
  {
    if 0 < f.beta {
      Floor(fraction * DIGITS, f.beta);
      var low := c.minimumRedemptionRate + f.BaseRate(when).value;
      CappedSum(low, Div(fraction, f.beta), fraction * DIGITS, f.beta, ONE);
    }
  }

  lemma CappedSum(low: nat, q: nat, x: nat, beta: nat, cap: nat)
    requires 0 < beta && q * beta <= x < (q + 1) * beta
    ensures cap <= low + q <==> cap * beta <= low * beta + x
  {
    MulOrder(cap - low, q, beta);
    MulOrder(q + 1, cap - low, beta);
    assert (cap - low) * beta == cap * beta - low * beta;
  }
}
