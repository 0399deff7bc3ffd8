/** Fixed-point decimals: packages/lib-base/src/Decimal.ts. */
module Decimals {
  import opened Outcomes
  import opened Numbers

  const PRECISION: nat := 8
  const DIGITS: nat := 1_0000_0000
  const HALF: nat := 5000_0000
  const MAX_EXPONENT: nat := 0xffff_ffff
  const INFINITY: Decimal := 0xffff_ffff_ffff_ffff_ffff_ffff_ffff_ffff_ffff_ffff_ffff_ffff_ffff_ffff_ffff_ffff

  /** A decimal is a count of units of 10^-8, of unbounded size. */
  type Decimal = nat

  const ZERO: Decimal := 0
  const ONE: Decimal := DIGITS

  function Sub(a: Decimal, b: Decimal): (r: Result<Decimal>) {
    if b <= a then Ok(a - b) else Err(NegativeDecimal)
  }

  /** Subtraction that stops at zero, as the trove operations guard it. */
  function Monus(a: Decimal, b: Decimal): (r: Decimal) {
    if b < a then a - b else 0
  }

  function Mul(a: Decimal, b: Decimal): (r: Decimal) {
    a * b / DIGITS
  }

  function Div(a: Decimal, b: Decimal): (r: Decimal) {
    if b == 0 then INFINITY else a * DIGITS / b
  }

  function DivCeil(a: Decimal, b: Decimal): (r: Decimal) {
    if b == 0 then INFINITY else (a * DIGITS + (b - 1)) / b
  }

  function MulDiv(a: Decimal, b: Decimal, d: Decimal): (r: Decimal) {
    if d == 0 then INFINITY else a * b / d
  }

  function RoundedMul(x: nat, y: nat): (r: nat) {
    (x * y + HALF) / DIGITS
  }

  /** What the square-and-multiply loop returns from the state x, y, exponent. */
  function PowFrom(x: nat, y: nat, exponent: nat): (r: nat)
    requires 1 <= exponent
    decreases exponent
  {
    if exponent == 1 then RoundedMul(x, y)
    else PowFrom(RoundedMul(x, x), if exponent % 2 == 1 then RoundedMul(x, y) else y, exponent / 2)
  }

  function Pow(base: Decimal, exponent: int): (r: Result<Decimal>) {
    if !(0 <= exponent <= MAX_EXPONENT) then Err(BadExponent)
    else if exponent == 0 then Ok(ONE)
    else if exponent == 1 then Ok(base)
    else Ok(PowFrom(base, DIGITS, exponent))
  }

  /** The loop itself. */
  method ComputePow(base: Decimal, exponent: int) returns (r: Result<Decimal>)
    ensures r == Pow(base, exponent)
  {
    if !(0 <= exponent <= MAX_EXPONENT) { return Err(BadExponent); }
    if exponent == 0 { return Ok(ONE); }
    if exponent == 1 { return Ok(base); }
    var x, y, e := base, DIGITS, exponent;
    while 1 < e
      invariant 1 <= e
      invariant PowFrom(x, y, e) == PowFrom(base, DIGITS, exponent)
    {
      if e % 2 == 1 {
        y := RoundedMul(x, y);
      }
      x := RoundedMul(x, x);
      e := e / 2;
    }
    r := Ok(RoundedMul(x, y));
  }

  // ----- Rounded products -----

  /** The product is rounded to the nearest unit, and upwards from the middle. */
  lemma RoundedMulError(x: nat, y: nat)
    ensures var v := 2 * RoundedMul(x, y) * DIGITS;
            v <= 2 * (x * y) + DIGITS < v + 2 * DIGITS
    ensures 2 * Abs(RoundedMul(x, y) * DIGITS - x * y) <= DIGITS
  {
  }

  lemma RoundedMulMonotone(x: nat, x': nat, y: nat, y': nat)
    requires x <= x' && y <= y'
    ensures RoundedMul(x, y) <= RoundedMul(x', y')
  {
    MulMonotone(x, x', y, y');
  }

  lemma RoundedMulBelow(x: nat, y: nat)
    requires y <= DIGITS
    ensures RoundedMul(x, y) <= x
    ensures y == DIGITS ==> RoundedMul(x, y) == x
  {
    assert x * y <= x * DIGITS;
  }

  // ----- Error of pow -----

  /** v is within (n - 1) / 2 units of the exact n-th power of b / 10^8. */
  ghost predicate NearPower(v: nat, b: Decimal, n: nat) {
    1 <= n && 2 * Abs(v * Exp(DIGITS, n - 1) - Exp(b, n)) <= (n - 1) * Exp(DIGITS, n - 1)
  }

  /** Error of one product of approximations, over plain integers: k is p * q and scale is s * k. */
  lemma ProductError(
    x: nat, y: nat, v: nat, p: nat, q: nat, k: nat, scale: nat, a: nat, c: nat, ex: nat, ey: nat, s: nat)
    requires k == p * q && scale == s * k && y <= s && a <= s * p
    requires 2 * Abs(v * s - x * y) <= s
    requires 2 * Abs(x * p - a) <= ex * p
    requires 2 * Abs(y * q - c) <= ey * q
    ensures 2 * Abs(v * scale - a * c) <= (ex + ey + 1) * scale
  {
    Rearrange(x, y, p, q);
    MulMonotone(y, s, q, q);
    ErrorOf(v * s, x * y, k, x * p, y * q, a, c, s, ex * p, s * q, ey * q, s * p);
    Assoc(v, s, k);
    ErrorTerms(ex, ey, s, p, q, k, scale);
  }

  /** w stands for xy with a rounding error, x and y for the products with the exact a and c. */
  lemma ErrorOf(
    w: int, xy: int, k: nat, x: int, y: nat, a: nat, c: int, ew: nat, ex: nat, capY: nat, ey: nat, capA: nat)
    requires xy * k == x * y && y <= capY && a <= capA
    requires 2 * Abs(w - xy) <= ew && 2 * Abs(x - a) <= ex && 2 * Abs(y - c) <= ey
    ensures 2 * Abs(w * k - a * c) <= ew * k + ex * capY + ey * capA
  {
    ScaledBound(w - xy, k, ew, k);
    ScaledBound(x - a, y, ex, capY);
    ScaledBound(y - c, a, ey, capA);
    assert (w - xy) * k == w * k - x * y;
    assert (x - a) * y == x * y - a * y;
    assert (y - c) * a == a * y - a * c;
    SumOfBounds(w * k - a * c, (w - xy) * k, (x - a) * y, (y - c) * a, ew * k, ex * capY, ey * capA,
                ew * k + ex * capY + ey * capA);
  }

  lemma SumOfBounds(e: int, u0: int, u1: int, u2: int, b0: nat, b1: nat, b2: nat, bound: nat)
    requires e == u0 + u1 + u2 && b0 + b1 + b2 == bound
    requires 2 * Abs(u0) <= b0 && 2 * Abs(u1) <= b1 && 2 * Abs(u2) <= b2
    ensures 2 * Abs(e) <= bound
  {
  }

  lemma ErrorTerms(ex: nat, ey: nat, s: nat, p: nat, q: nat, k: nat, scale: nat)
    requires k == p * q && scale == s * k
    ensures s * k + (ex * p) * (s * q) + (ey * q) * (s * p) == (ex + ey + 1) * scale
  {
    ErrorTerm(ex, p, s, q);
    ErrorTerm(ey, q, s, p);
    assert (ex + ey + 1) * scale == ex * scale + ey * scale + scale;
  }

  lemma ErrorTerm(e: nat, p: nat, s: nat, q: nat)
    ensures (e * p) * (s * q) == e * (s * (p * q))
  {
    Assoc(e, p, s * q);
    assert p * (s * q) == s * (p * q);
  }

  lemma ScaledBound(t: int, m: nat, bound: nat, cap: nat)
    requires 2 * Abs(t) <= bound && m <= cap
    ensures 2 * Abs(t * m) <= bound * cap
  {
    MulMonotone(2 * Abs(t), bound, m, cap);
    assert Abs(t * m) == Abs(t) * m;
    assert 2 * Abs(t) * m == 2 * (Abs(t) * m);
  }

  lemma ProductNearPower(x: nat, y: nat, b: Decimal, j: nat, k: nat)
    requires b <= DIGITS && y <= DIGITS
    requires NearPower(x, b, j) && NearPower(y, b, k)
    ensures NearPower(RoundedMul(x, y), b, j + k)
  {
    var p, q := Exp(DIGITS, j - 1), Exp(DIGITS, k - 1);
    ExpAdds(DIGITS, j - 1, k - 1);
    assert Exp(DIGITS, j + k - 1) == DIGITS * Exp(DIGITS, j - 1 + (k - 1));
    ExpAdds(b, j, k);
    ExpMonotone(b, DIGITS, j);
    RoundedMulError(x, y);
    ProductError(x, y, RoundedMul(x, y), p, q, Exp(DIGITS, j - 1 + (k - 1)), Exp(DIGITS, j + k - 1),
                 Exp(b, j), Exp(b, k), j - 1, k - 1, DIGITS);
  }

  /** The accumulator: untouched, or an approximation of b^j no larger than b. */
  ghost predicate Accumulated(y: nat, b: Decimal, j: nat) {
    if j == 0 then y == DIGITS else y <= b && NearPower(y, b, j)
  }

  lemma AccumulateOne(x: nat, y: nat, b: Decimal, j: nat, k: nat)
    requires b <= DIGITS && x <= b && NearPower(x, b, k) && Accumulated(y, b, j)
    ensures Accumulated(RoundedMul(x, y), b, j + k)
  {
    RoundedMulBelow(x, y);
    if j != 0 {
      ProductNearPower(x, y, b, k, j);
    }
  }

  lemma Halve(k: nat, h: nat, e: nat)
    requires e == 2 * h || e == 2 * h + 1
    ensures (k + k) * h == if e == 2 * h then k * e else k * e - k
  {
  }

  lemma {:induction false} PowFromNearPower(x: nat, y: nat, e: nat, b: Decimal, j: nat, k: nat)
    requires b <= DIGITS && 1 <= e && x <= b
    requires NearPower(x, b, k) && Accumulated(y, b, j)
    ensures Accumulated(PowFrom(x, y, e), b, j + k * e)
    decreases e
  {
    if e == 1 {
      AccumulateOne(x, y, b, j, k);
    } else {
      RoundedMulBelow(x, x);
      ProductNearPower(x, x, b, k, k);
      if e % 2 == 1 {
        AccumulateOne(x, y, b, j, k);
        PowFromNearPower(RoundedMul(x, x), RoundedMul(x, y), e / 2, b, j + k, k + k);
        Halve(k, e / 2, e);
      } else {
        PowFromNearPower(RoundedMul(x, x), y, e / 2, b, j, k + k);
        Halve(k, e / 2, e);
      }
    }
  }

  /**
   * For a base of at most one, pow is within (n - 1) / 2 units of the exact power
   * and never above the base.
   */
  lemma PowError(b: Decimal, n: nat)
    requires b <= ONE && 1 <= n <= MAX_EXPONENT
    ensures Pow(b, n).Ok? && Pow(b, n).value <= b && NearPower(Pow(b, n).value, b, n)
  {
    assert Exp(b, 1) == b * Exp(b, 0) == b;
    assert NearPower(b, b, 1);
    if n != 1 {
      PowFromNearPower(b, DIGITS, n, b, 0, 1);
    }
  }

  // ----- Error of pow above one -----

  /**
   * v is within (n - 1) / 2 units, times the (n - 1)-th power of the base plus one unit, of the exact
   * n-th power of b / 10^8, and half a unit or more below the n-th power of the base plus one unit.
   */
  ghost predicate NearAbove(v: nat, b: Decimal, n: nat) {
    && 1 <= n
    && 2 * Abs(v * Exp(DIGITS, n - 1) - Exp(b, n)) <= (n - 1) * Exp(b + 1, n - 1)
    && 2 * (v * Exp(DIGITS, n - 1)) + Exp(DIGITS, n - 1) <= 2 * Exp(b + 1, n)
  }

  /** The upper bound of a product, over plain integers: x and y stay half of p and q below a and c. */
  lemma ProductBelow(x: nat, y: nat, p: nat, q: nat, a: nat, c: nat, s: nat)
    requires 2 * x + p <= 2 * a && 2 * y + q <= 2 * c
    requires (s + 1) * p <= a && (s + 1) * q <= c
    ensures 2 * (x * y) + 2 * (s * (p * q)) <= 2 * (a * c)
  {
    MulMonotone(2 * x, 2 * a - p, 2 * y, 2 * c - q);
    Rearrange(2, x, 2, y);
    Rearrange(2, a, 2, c);
    ExpandDifference(2 * a, p, 2 * c, q);
    Assoc(2, a, q);
    assert p * (2 * c) == 2 * (p * c);
    Above(s, p, a, q);
    Above(s, q, c, p);
    assert c * p == p * c && q * p == p * q;
  }

  lemma ExpandDifference(a: int, b: int, c: int, d: int)
    ensures (a - b) * (c - d) == a * c - a * d - b * c + b * d
  {
  }

  lemma Above(s: nat, p: nat, a: nat, q: nat)
    requires (s + 1) * p <= a
    ensures s * (p * q) + p * q <= a * q
  {
    MulMonotone((s + 1) * p, a, q, q);
    Assoc(s + 1, p, q);
    assert (s + 1) * (p * q) == s * (p * q) + p * q;
  }

  lemma {:induction false} PowerAbove(b: Decimal, n: nat)
    requires DIGITS <= b && 1 <= n
    ensures (DIGITS + 1) * Exp(DIGITS, n - 1) <= Exp(b + 1, n)
    ensures Exp(DIGITS, n) <= Exp(b + 1, n)
  {
    ExpMonotone(DIGITS, b + 1, n - 1);
    MulMonotone(DIGITS + 1, b + 1, Exp(DIGITS, n - 1), Exp(b + 1, n - 1));
  }

  /** The terms of the error of a product, each below its share of the bound. */
  lemma AboveTerms(j: nat, k: nat, m: nat, spq: nat)
    requires 1 <= j && 1 <= k && spq <= Exp(m, j + k - 1)
    ensures spq + ((j - 1) * Exp(m, j - 1)) * Exp(m, k) + ((k - 1) * Exp(m, k - 1)) * Exp(m, j)
            <= (j + k - 1) * Exp(m, j + k - 1)
  {
    ExpAdds(m, j - 1, k);
    ExpAdds(m, k - 1, j);
    Assoc(j - 1, Exp(m, j - 1), Exp(m, k));
    Assoc(k - 1, Exp(m, k - 1), Exp(m, j));
    var e := Exp(m, j + k - 1);
    assert (j + k - 1) * e == (j - 1) * e + (k - 1) * e + e;
  }

  lemma ProductNearAbove(x: nat, y: nat, b: Decimal, j: nat, k: nat)
    requires DIGITS <= b && NearAbove(x, b, j) && NearAbove(y, b, k)
    ensures NearAbove(RoundedMul(x, y), b, j + k)
  {
    var p, q, v, m := Exp(DIGITS, j - 1), Exp(DIGITS, k - 1), RoundedMul(x, y), b + 1;
    ExpAdds(DIGITS, j - 1, k - 1);
    assert Exp(DIGITS, j + k - 1) == DIGITS * Exp(DIGITS, j - 1 + (k - 1));
    ExpAdds(b, j, k);
    ExpAdds(m, j, k);
    ExpMonotone(b, m, j);
    PowerAbove(b, j);
    PowerAbove(b, k);
    RoundedMulError(x, y);
    Rearrange(x, y, p, q);
    Assoc(v, DIGITS, p * q);
    ProductBelow(x * p, y * q, p, q, Exp(m, j), Exp(m, k), DIGITS);
    ScaledUp(v, DIGITS, x * y, p * q);
    ExpMonotone(DIGITS, m, j + k - 1);
    ErrorOf(v * DIGITS, x * y, p * q, x * p, y * q, Exp(b, j), Exp(b, k),
            DIGITS, (j - 1) * Exp(m, j - 1), Exp(m, k), (k - 1) * Exp(m, k - 1), Exp(m, j));
    AboveTerms(j, k, m, DIGITS * (p * q));
  }

  lemma ScaledUp(v: nat, s: nat, xy: nat, k: nat)
    requires 2 * v * s <= 2 * xy + s
    ensures 2 * (v * (s * k)) <= 2 * (xy * k) + s * k
  {
    MulMonotone(2 * v * s, 2 * xy + s, k, k);
    assert (2 * v * s) * k == 2 * (v * (s * k));
    assert (2 * xy + s) * k == 2 * (xy * k) + s * k;
  }

  ghost predicate AccumulatedAbove(y: nat, b: Decimal, j: nat) {
    if j == 0 then y == DIGITS else NearAbove(y, b, j)
  }

  lemma AccumulateAbove(x: nat, y: nat, b: Decimal, j: nat, k: nat)
    requires DIGITS <= b && NearAbove(x, b, k) && AccumulatedAbove(y, b, j)
    ensures AccumulatedAbove(RoundedMul(x, y), b, j + k)
  {
    if j == 0 {
      RoundedMulBelow(x, y);
    } else {
      ProductNearAbove(x, y, b, k, j);
    }
  }

  lemma {:induction false} PowFromNearAbove(x: nat, y: nat, e: nat, b: Decimal, j: nat, k: nat)
    requires DIGITS <= b && 1 <= e && NearAbove(x, b, k) && AccumulatedAbove(y, b, j)
    ensures AccumulatedAbove(PowFrom(x, y, e), b, j + k * e)
    decreases e
  {
    if e == 1 {
      AccumulateAbove(x, y, b, j, k);
    } else {
      ProductNearAbove(x, x, b, k, k);
      Halve(k, e / 2, e);
      if e % 2 == 1 {
        AccumulateAbove(x, y, b, j, k);
        PowFromNearAbove(RoundedMul(x, x), RoundedMul(x, y), e / 2, b, j + k, k + k);
      } else {
        PowFromNearAbove(RoundedMul(x, x), y, e / 2, b, j, k + k);
      }
    }
  }

  /**
   * For a base from one on, the error grows with the power: within (n - 1) / 2 units times the (n - 1)-th
   * power of the base plus one unit.
   */
  lemma PowErrorAbove(b: Decimal, n: nat)
    requires ONE <= b && 1 <= n <= MAX_EXPONENT
    ensures Pow(b, n).Ok? && NearAbove(Pow(b, n).value, b, n)
  {
    assert Exp(b, 1) == b * Exp(b, 0) == b;
    assert Exp(b + 1, 1) == (b + 1) * Exp(b + 1, 0) == b + 1;
    assert NearAbove(b, b, 1);
    if n != 1 {
      PowFromNearAbove(b, DIGITS, n, b, 0, 1);
    }
  }

  /** The exponents that are accepted, and the zeroth power. */
  lemma PowDefined(b: Decimal, n: int)
    ensures Pow(b, n).Ok? <==> 0 <= n <= 0xffff_ffff
    ensures Pow(b, 0) == Ok(ONE)
  {
  }

  // ----- Whole bases -----

  /** Every product of whole numbers is exact. */
  lemma RoundedMulWhole(m: nat, k: nat)
    ensures RoundedMul(m * DIGITS, k * DIGITS) == m * k * DIGITS
  {
    var p := m * k;
    assert (m * DIGITS) * (k * DIGITS) == p * DIGITS * DIGITS;
    FloorUnique(p * DIGITS * DIGITS + HALF, DIGITS, p * DIGITS);
  }

  lemma {:induction false} PowFromWhole(m: nat, k: nat, e: nat)
    requires 1 <= e
    ensures PowFrom(m * DIGITS, k * DIGITS, e) == k * Exp(m, e) * DIGITS
    decreases e
  {
    RoundedMulWhole(m, k);
    if e == 1 {
      assert Exp(m, 1) == m * Exp(m, 0) == m;
    } else {
      RoundedMulWhole(m, m);
      var h := e / 2;
      ExpOfProduct(m, m, h);
      ExpAdds(m, h, h);
      if e % 2 == 1 {
        PowFromWhole(m * m, m * k, h);
        assert Exp(m, e) == m * Exp(m, h + h);
        Assoc(k, m, Exp(m, h + h));
      } else {
        PowFromWhole(m * m, k, h);
      }
    }
  }

  /** Whole-number bases of any size are raised exactly. */
  lemma PowWhole(m: nat, n: nat)
    requires n <= MAX_EXPONENT
    ensures Pow(m * DIGITS, n) == Ok(Exp(m, n) * DIGITS)
  {
    if n == 1 {
      assert Exp(m, 1) == m * Exp(m, 0) == m;
    } else if 1 < n {
      PowFromWhole(m, 1, n);
    }
  }

  lemma {:induction false} PowFromMonotone(x: nat, x': nat, y: nat, y': nat, e: nat)
    requires 1 <= e && x <= x' && y <= y'
    ensures PowFrom(x, y, e) <= PowFrom(x', y', e)
    decreases e
  {
    RoundedMulMonotone(x, x', y, y');
    if e == 1 {
    } else {
      RoundedMulMonotone(x, x', x, x');
      if e % 2 == 1 {
        PowFromMonotone(RoundedMul(x, x), RoundedMul(x', x'), RoundedMul(x, y), RoundedMul(x', y'), e / 2);
      } else {
        PowFromMonotone(RoundedMul(x, x), RoundedMul(x', x'), y, y', e / 2);
      }
    }
  }

  /** pow is monotone in its base, whatever the exponent. */
  lemma PowMonotone(b: Decimal, b': Decimal, n: nat)
    requires b <= b' && n <= MAX_EXPONENT
    ensures Pow(b, n).Ok? && Pow(b', n).Ok? && Pow(b, n).value <= Pow(b', n).value
  {
    if 1 < n {
      PowFromMonotone(b, b', DIGITS, DIGITS, n);
    }
  }
}
