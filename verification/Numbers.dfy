/** Integer facts that the fixed-point proofs share: powers and flooring division. */
module Numbers {

  function Exp(b: nat, n: nat): (r: nat) {
    if n == 0 then 1 else b * Exp(b, n - 1)
  }

  function Abs(x: int): (r: nat) {
    if x < 0 then -x else x
  }

  function Min(a: int, b: int): (r: int) {
    if a < b then a else b
  }

  function Sum(s: seq<nat>): (r: nat) {
    if s == [] then 0 else s[0] + Sum(s[1..])
  }

  lemma {:induction false} ExpAdds(b: nat, m: nat, n: nat)
    ensures Exp(b, m + n) == Exp(b, m) * Exp(b, n)
    decreases m
  {
    if m == 0 {
    } else {
      ExpAdds(b, m - 1, n);
      calc {
        Exp(b, m + n);
        b * Exp(b, m - 1 + n);
        b * (Exp(b, m - 1) * Exp(b, n));
        (b * Exp(b, m - 1)) * Exp(b, n);
      }
    }
  }

  lemma {:induction false} ExpPositive(b: nat, n: nat)
    requires 0 < b
    ensures 0 < Exp(b, n)
  {
    if n == 0 {
    } else {
      ExpPositive(b, n - 1);
    }
  }

  lemma {:induction false} ExpMonotone(a: nat, b: nat, n: nat)
    requires a <= b
    ensures Exp(a, n) <= Exp(b, n)
  {
    if n == 0 {
    } else {
      ExpMonotone(a, b, n - 1);
      MulMonotone(a, b, Exp(a, n - 1), Exp(b, n - 1));
    }
  }

  lemma {:induction false} ExpOfProduct(a: nat, b: nat, n: nat)
    ensures Exp(a * b, n) == Exp(a, n) * Exp(b, n)
  {
    if n == 0 {
    } else {
      ExpOfProduct(a, b, n - 1);
      Rearrange(a, b, Exp(a, n - 1), Exp(b, n - 1));
    }
  }

  lemma MulMonotone(a: nat, b: nat, c: nat, d: nat)
    requires a <= b && c <= d
    ensures a * c <= b * d
  {
    assert a * c <= b * c;
    assert b * c <= b * d;
  }

  /** Flooring division is the greatest quotient that does not overshoot. */
  lemma Floor(a: nat, d: nat)
    requires 0 < d
    ensures (a / d) * d <= a < (a / d + 1) * d
  {
  }

  lemma MulOrder(a: int, b: int, d: nat)
    requires 0 < d
    ensures a <= b <==> a * d <= b * d
  {
    assert (b - a) * d == b * d - a * d;
  }

  /** A quotient between the two bounds is the flooring one. */
  lemma FloorUnique(a: nat, d: nat, q: nat)
    requires 0 < d && q * d <= a < (q + 1) * d
    ensures a / d == q
  {
    Floor(a, d);
    MulOrder(a / d + 1, q, d);
    MulOrder(q + 1, a / d, d);
  }

  lemma FloorMonotone(a: nat, b: nat, d: nat)
    requires 0 < d && a <= b
    ensures a / d <= b / d
  {
    Floor(a, d);
    Floor(b, d);
    MulOrder(b / d + 1, a / d, d);
  }

  /** n is at most a / d exactly when n * d is at most a. */
  lemma AtMostFloor(n: nat, a: nat, d: nat)
    requires 0 < d
    ensures n <= a / d <==> n * d <= a
  {
    Floor(a, d);
    MulOrder(n, a / d, d);
    MulOrder(a / d + 1, n, d);
  }

  lemma Assoc(a: int, b: int, c: int)
    ensures (a * b) * c == a * (b * c)
  {
  }

  lemma Swap(a: int, b: int, c: int)
    ensures (a * b) * c == (a * c) * b
  {
  }

  lemma Rearrange(a: int, b: int, c: int, d: int)
    ensures (a * b) * (c * d) == (a * c) * (b * d)
  {
    Assoc(a, b, c * d);
    Assoc(a, c, b * d);
    Assoc(b, c, d);
    Assoc(c, b, d);
  }

  /** Flooring twice is flooring once by the product. */
  lemma FloorFloor(a: nat, c: nat, d: nat)
    requires 0 < c && 0 < d
    ensures 0 < c * d
    ensures (a / c) / d == a / (c * d)
  {
    Floor(a / c, d);
    Floor(a, c);
    NestedBounds(a, c, d, a / c, (a / c) / d);
    FloorUnique(a, c * d, (a / c) / d);
  }

  lemma NestedBounds(a: nat, c: nat, d: nat, u: nat, q: nat)
    requires 0 < c && 0 < d
    requires u * c <= a < (u + 1) * c && q * d <= u < (q + 1) * d
    ensures 0 < c * d && q * (c * d) <= a < (q + 1) * (c * d)
  {
    MulMonotone(q * d, u, c, c);
    MulMonotone(u + 1, (q + 1) * d, c, c);
    Assoc(q, d, c);
    Assoc(q + 1, d, c);
  }
}
