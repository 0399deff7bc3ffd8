/** Troves with a pending redistribution: packages/lib-base/src/Trove.ts, TroveWithPendingRedistribution. */
module Redistribution {
  import opened Numbers
  import opened Decimals
  import opened Troves

  datatype Status = NonExistent | Open | ClosedByOwner | ClosedByLiquidation | ClosedByRedemption

  datatype UserTrove = UserTrove(owner: string, status: Status, trove: Trove)

  /** A trove as of its last direct change, with the redistribution totals it had seen by then. */
  datatype PendingTrove = PendingTrove(owner: string, status: Status, trove: Trove, stake: Decimal, snapshot: Trove) {

    /** What the stake earns from the redistributions since the snapshot. */
    function Share(total: Trove): (r: Trove) {
      total.Subtract(snapshot).Multiply(stake)
    }

    function ApplyRedistribution(total: Trove): (r: UserTrove) {
      UserTrove(owner, status, trove.Add(Share(total)))
    }

    /** Taking the share and the snapshot, as every direct change of the trove does. */
    function Checkpoint(total: Trove): (r: PendingTrove) {
      PendingTrove(owner, status, ApplyRedistribution(total).trove, stake, total)
    }
  }

  // ----- Order -----

  /** The exact amounts, scaled by 10^8, whose floors the redistribution adds. */
  lemma ExactOrder(cA: nat, dA: nat, sA: nat, cB: nat, dB: nat, sB: nat, c: nat, d: nat, n: nat)
    requires 0 < cB && sA * cB == sB * cA && cB * dA <= cA * dB
    ensures (cB * n + sB * c) * (dA * n + sA * d) <= (cA * n + sA * c) * (dB * n + sB * d)
  {
    ExpandProduct(cA * n, sA * c, dB * n, sB * d);
    ExpandProduct(cB * n, sB * c, dA * n, sA * d);
    Rearrange(cA, n, dB, n);
    Rearrange(cB, n, dA, n);
    MulMonotone(cB * dA, cA * dB, n * n, n * n);
    Rearrange(cA, n, sB, d);
    Rearrange(cB, n, sA, d);
    Rearrange(sA, c, dB, n);
    Rearrange(sB, c, dA, n);
    StakeOrder(cA, dA, sA, cB, dB, sB);
    MulMonotone(sB * dA, sA * dB, c * n, c * n);
    Rearrange(sA, c, sB, d);
    Rearrange(sB, c, sA, d);
    assert cA * sB == sB * cA && cB * sA == sA * cB && sA * sB == sB * sA;
  }

  lemma ExpandProduct(a: int, b: int, c: int, d: int)
    ensures (a + b) * (c + d) == a * c + a * d + b * c + b * d
  {
  }

  /** With proportional stakes the debt per stake is ordered like the debt per collateral. */
  lemma StakeOrder(cA: nat, dA: nat, sA: nat, cB: nat, dB: nat, sB: nat)
    requires 0 < cB && sA * cB == sB * cA && cB * dA <= cA * dB
    ensures sB * dA <= sA * dB
  {
    MulMonotone(cB * dA, cA * dB, sB, sB);
    assert (cB * dA) * sB == (sB * dA) * cB;
    assert (cA * dB) * sB == (sB * cA) * dB;
    Swap(sA, cB, dB);
    MulOrder(sB * dA, sA * dB, cB);
  }

  lemma StrictProduct(a: nat, b: nat, x: nat, y: nat, c: nat, d: nat, n: nat)
    requires 0 < n && x < a * n && y < b * n
    requires c * d * (n * n) <= x * y
    ensures c * d < a * b
  {
    MulMonotone(x + 1, a * n, y + 1, b * n);
    assert (x + 1) * (y + 1) == x * y + x + y + 1;
    Rearrange(a, n, b, n);
    MulOrder(1, n, n);
    MulOrder(a * b, c * d, n * n);
  }

  /** One snapshot, stakes proportional to the collateral, and a's collateral ratio not below b's. */
  ghost predicate Ordered(a: PendingTrove, b: PendingTrove) {
    && a.snapshot == b.snapshot
    && 0 < a.trove.collateral && 0 < b.trove.collateral
    && a.stake * b.trove.collateral == b.stake * a.trove.collateral
    && b.trove.collateral * a.trove.debt <= a.trove.collateral * b.trove.debt
  }

  /** Redistribution preserves the order of collateral ratios up to one rounding unit. */
  lemma OrderPreserved(a: PendingTrove, b: PendingTrove, total: Trove)
    requires Ordered(a, b)
    ensures var a', b' := a.ApplyRedistribution(total).trove, b.ApplyRedistribution(total).trove;
            b'.collateral * a'.debt < (a'.collateral + 1) * (b'.debt + 1)
  {
    var delta := total.Subtract(a.snapshot);
    var a', b' := a.ApplyRedistribution(total).trove, b.ApplyRedistribution(total).trove;
    var xA, yA := Exact(a.trove.collateral, a.stake, delta.collateral), Exact(a.trove.debt, a.stake, delta.debt);
    var xB, yB := Exact(b.trove.collateral, b.stake, delta.collateral), Exact(b.trove.debt, b.stake, delta.debt);
    RoundsDown(a.trove.collateral, a.stake, delta.collateral);
    RoundsDown(a.trove.debt, a.stake, delta.debt);
    RoundsDown(b.trove.collateral, b.stake, delta.collateral);
    RoundsDown(b.trove.debt, b.stake, delta.debt);
    ExactOrder(a.trove.collateral, a.trove.debt, a.stake, b.trove.collateral, b.trove.debt, b.stake,
               delta.collateral, delta.debt, DIGITS);
    MulMonotone(b'.collateral * DIGITS, xB, a'.debt * DIGITS, yA);
    Rearrange(b'.collateral, DIGITS, a'.debt, DIGITS);
    StrictProduct(a'.collateral + 1, b'.debt + 1, xA, yB, b'.collateral, a'.debt, DIGITS);
  }

  function Exact(amount: nat, stake: nat, delta: nat): (r: nat) {
    amount * DIGITS + stake * delta
  }

  lemma RoundsDown(amount: nat, stake: nat, delta: nat)
    ensures var after := amount + Mul(delta, stake);
            after * DIGITS <= Exact(amount, stake, delta) < (after + 1) * DIGITS
  {
    Floor(delta * stake, DIGITS);
    assert delta * stake == stake * delta;
  }

  /** after is the amount with its exact share of delta, rounded down. */
  predicate WithShare(after: nat, amount: nat, stake: nat, delta: nat) {
    after * DIGITS <= Exact(amount, stake, delta) < (after + 1) * DIGITS
  }

  predicate HoldsShare(t: Trove, trove: Trove, stake: Decimal, delta: Trove) {
    WithShare(t.collateral, trove.collateral, stake, delta.collateral)
    && WithShare(t.debt, trove.debt, stake, delta.debt)
  }

  lemma ShareHeld(p: PendingTrove, total: Trove)
    ensures HoldsShare(p.ApplyRedistribution(total).trove, p.trove, p.stake, total.Subtract(p.snapshot))
  {
    var delta := total.Subtract(p.snapshot);
    ShareAdded(p.trove.collateral, p.stake, delta.collateral);
    ShareAdded(p.trove.debt, p.stake, delta.debt);
  }

  lemma ShareAdded(amount: nat, stake: nat, delta: nat)
    ensures WithShare(amount + Mul(delta, stake), amount, stake, delta)
  {
    RoundsDown(amount, stake, delta);
  }

  /** Nothing is held without a stake, whatever is redistributed. */
  lemma NothingHeld(p: PendingTrove, total: Trove)
    ensures p.trove == EMPTY && p.stake == 0 ==> p.ApplyRedistribution(total).trove == EMPTY
  {
    if p.stake == 0 {
      var delta := total.Subtract(p.snapshot);
      assert p.Share(total) == delta.Multiply(0);
      assert delta.Multiply(0) == EMPTY;
    }
  }

  // ----- When the order is kept exactly -----

  ghost predicate KeepsOrder(a: PendingTrove, b: PendingTrove, total: Trove) {
    var a', b' := a.ApplyRedistribution(total).trove, b.ApplyRedistribution(total).trove;
    b'.collateral * a'.debt <= a'.collateral * b'.debt
  }

  /**
   * Flooring does not favour b: per stake it gets no more collateral than a, and no less debt. This
   * depends on the two stakes and on what was redistributed, not on what the troves hold.
   */
  predicate FloorsEvenly(stakeA: Decimal, stakeB: Decimal, delta: Trove) {
    && Mul(delta.collateral, stakeB) * stakeA <= Mul(delta.collateral, stakeA) * stakeB
    && Mul(delta.debt, stakeA) * stakeB <= Mul(delta.debt, stakeB) * stakeA
  }

  /** A comparison of shares per stake is one of shares per collateral. */
  lemma PerCollateral(w: nat, u: nat, sA: nat, sB: nat, cA: nat, cB: nat)
    requires 0 < sB && sA * cB == sB * cA && w * sA <= u * sB
    ensures w * cA <= u * cB
  {
    MulMonotone(w * sA, u * sB, cB, cB);
    Assoc(w, sA, cB);
    Assoc(w, sB, cA);
    Swap(w, sB, cA);
    Swap(u, sB, cB);
    MulOrder(w * cA, u * cB, sB);
  }

  lemma CrossSwap(a: int, b: int, c: int, d: int)
    ensures (a * b) * (c * d) == (a * d) * (b * c)
  {
    assert c * d == d * c;
    Rearrange(a, b, d, c);
  }

  /** Two ordered cross products multiply into a third one. */
  lemma CrossCancel(w: nat, u: nat, c: nat, e: nat, x: nat, y: nat)
    requires 0 < c && 0 < e && w * c <= u * e && e * x <= c * y
    ensures w * x <= u * y
  {
    MulMonotone(w * c, u * e, e * x, c * y);
    CrossSwap(w, c, e, x);
    CrossSwap(u, e, c, y);
    assert c * e == e * c;
    MulOrder(1, c, e);
    MulOrder(w * x, u * y, c * e);
  }

  lemma SharesKeepOrder(cA: nat, dA: nat, cB: nat, dB: nat, u: nat, x: nat, w: nat, y: nat)
    requires 0 < cA && 0 < cB && cB * dA <= cA * dB
    requires w * cA <= u * cB && cB * x <= cA * y
    ensures (cB + w) * (dA + x) <= (cA + u) * (dB + y)
  {
    CrossCancel(w, u, cA, cB, dA, dB);
    CrossCancel(w, u, cA, cB, x, y);
    ExpandProduct(cB, w, dA, x);
    ExpandProduct(cA, u, dB, y);
  }

  lemma OrderKept(a: PendingTrove, b: PendingTrove, total: Trove)
    requires Ordered(a, b) && FloorsEvenly(a.stake, b.stake, total.Subtract(a.snapshot))
    ensures KeepsOrder(a, b, total)
  {
    var delta := total.Subtract(a.snapshot);
    var cA, cB := a.trove.collateral, b.trove.collateral;
    var u, w := Mul(delta.collateral, a.stake), Mul(delta.collateral, b.stake);
    var x, y := Mul(delta.debt, a.stake), Mul(delta.debt, b.stake);
    StakesTogether(a.stake, b.stake, cA, cB);
    if 0 < a.stake {
      PerCollateral(w, u, a.stake, b.stake, cA, cB);
      PerCollateral(x, y, b.stake, a.stake, cB, cA);
      assert cB * x == x * cB && cA * y == y * cA;
      SharesKeepOrder(cA, a.trove.debt, cB, b.trove.debt, u, x, w, y);
    }
  }

  lemma StakesTogether(sA: nat, sB: nat, cA: nat, cB: nat)
    requires 0 < cA && 0 < cB && sA * cB == sB * cA
    ensures sA == 0 <==> sB == 0
  {
    MulOrder(1, sA, cB);
    MulOrder(1, sB, cA);
  }

  /** With debt enough, an uneven collateral share decides. */
  lemma CollateralFlips(sA: nat, sB: nat, u: nat, x: nat, w: nat, y: nat, t: nat)
    requires u * sB < w * sA && t == (sA + u) * y + 1
    ensures (sA + u) * (t * sB + y) < (sB + w) * (t * sA + x)
  {
    ExpandProduct(sA, u, t * sB, y);
    ExpandProduct(sB, w, t * sA, x);
    assert sA * (t * sB) == sB * (t * sA);
    assert u * (t * sB) == (u * sB) * t && w * (t * sA) == (w * sA) * t;
    MulMonotone(u * sB + 1, w * sA, t, t);
    ExpandProduct(u * sB, 1, t, 0);
    ExpandProduct(sA, u, y, 0);
  }

  /** With collateral enough, an uneven debt share decides. */
  lemma DebtFlips(sA: nat, sB: nat, u: nat, x: nat, w: nat, y: nat, k: nat)
    requires y * sA < x * sB && k == u * y + 1
    ensures (k * sA + u) * y < (k * sB + w) * x
  {
    ExpandProduct(k * sA, u, y, 0);
    ExpandProduct(k * sB, w, x, 0);
    Swap(k, sA, y);
    Assoc(k, y, sA);
    Swap(k, sB, x);
    Assoc(k, x, sB);
    MulMonotone(k, k, y * sA + 1, x * sB);
    ExpandProduct(k, 0, y * sA, 1);
  }

  /** A trove that holds a multiple of its stake. */
  function StakeTrove(stake: Decimal, k: nat, t: nat, snapshot: Trove): (p: PendingTrove) {
    PendingTrove("", Open, Trove(k * stake, t * stake), stake, snapshot)
  }

  lemma StakeTrovesOrdered(sA: nat, sB: nat, k: nat, t: nat, snapshot: Trove)
    requires 0 < sA && 0 < sB && 0 < k
    ensures Ordered(StakeTrove(sA, k, t, snapshot), StakeTrove(sB, k, t, snapshot))
  {
    MulOrder(1, k, sA);
    MulOrder(1, k, sB);
    Assoc(sA, k, sB);
    Assoc(sB, k, sA);
    Swap(sA, k, sB);
    Swap(sB, k, sA);
    Rearrange(k, sB, t, sA);
    Rearrange(k, sA, t, sB);
  }

  /** What such troves hold after the redistribution, and so when they are swapped. */
  lemma StakeTrovesSwapped(sA: nat, sB: nat, k: nat, t: nat, total: Trove, snapshot: Trove)
    ensures var delta := total.Subtract(snapshot);
            var u, w := Mul(delta.collateral, sA), Mul(delta.collateral, sB);
            var x, y := Mul(delta.debt, sA), Mul(delta.debt, sB);
            (k * sA + u) * (t * sB + y) < (k * sB + w) * (t * sA + x)
            <==> !KeepsOrder(StakeTrove(sA, k, t, snapshot), StakeTrove(sB, k, t, snapshot), total)
  {
  }

  lemma UnevenFloorsFlip(sA: nat, sB: nat, total: Trove, snapshot: Trove) returns (k: nat, t: nat)
    requires !FloorsEvenly(sA, sB, total.Subtract(snapshot))
    ensures Ordered(StakeTrove(sA, k, t, snapshot), StakeTrove(sB, k, t, snapshot))
    ensures !KeepsOrder(StakeTrove(sA, k, t, snapshot), StakeTrove(sB, k, t, snapshot), total)
  {
    var delta := total.Subtract(snapshot);
    var u, w := Mul(delta.collateral, sA), Mul(delta.collateral, sB);
    var x, y := Mul(delta.debt, sA), Mul(delta.debt, sB);
    if u * sB < w * sA {
      k, t := 1, (sA + u) * y + 1;
      CollateralFlips(sA, sB, u, x, w, y, t);
    } else {
      k, t := u * y + 1, 0;
      DebtFlips(sA, sB, u, x, w, y, k);
    }
    StakeTrovesOrdered(sA, sB, k, t, snapshot);
    StakeTrovesSwapped(sA, sB, k, t, total, snapshot);
  }

  /**
   * Redistribution keeps the exact order of all troves with two given stakes if and only if it floors
   * their shares evenly.
   */
  lemma OrderKeptExactly(stakeA: Decimal, stakeB: Decimal, total: Trove, snapshot: Trove)
    ensures (forall a: PendingTrove, b: PendingTrove ::
               Ordered(a, b) && a.stake == stakeA && b.stake == stakeB && a.snapshot == snapshot
               ==> KeepsOrder(a, b, total))
            <==> FloorsEvenly(stakeA, stakeB, total.Subtract(snapshot))
  {
    if FloorsEvenly(stakeA, stakeB, total.Subtract(snapshot)) {
      forall a: PendingTrove, b: PendingTrove
        | Ordered(a, b) && a.stake == stakeA && b.stake == stakeB && a.snapshot == snapshot
        ensures KeepsOrder(a, b, total)
      {
        OrderKept(a, b, total);
      }
    } else {
      var k, t := UnevenFloorsFlip(stakeA, stakeB, total, snapshot);
      var a, b := StakeTrove(stakeA, k, t, snapshot), StakeTrove(stakeB, k, t, snapshot);
      assert Ordered(a, b) && !KeepsOrder(a, b, total);
    }
  }

  /** In particular when a's collateral share and b's debt share need no rounding. */
  lemma ExactSharesFloorEvenly(stakeA: Decimal, stakeB: Decimal, delta: Trove)
    requires (delta.collateral * stakeA) % DIGITS == 0 && (delta.debt * stakeB) % DIGITS == 0
    ensures FloorsEvenly(stakeA, stakeB, delta)
  {
    ExactAgainstFloor(delta.collateral, stakeA, stakeB);
    ExactAgainstFloor(delta.debt, stakeB, stakeA);
  }

  lemma ExactAgainstFloor(d: nat, exact: nat, floored: nat)
    requires (d * exact) % DIGITS == 0
    ensures Mul(d, floored) * exact <= Mul(d, exact) * floored
  {
    var w, u := Mul(d, floored), Mul(d, exact);
    assert u * DIGITS == d * exact;
    Floor(d * floored, DIGITS);
    MulMonotone(w * DIGITS, d * floored, exact, exact);
    Swap(w, DIGITS, exact);
    Swap(u, DIGITS, floored);
    Swap(d, floored, exact);
    MulOrder(w * exact, u * floored, DIGITS);
  }

  /**
   * Neither share may be rounded: an uneven floor of the collateral, or of the debt, swaps two troves
   * of equal ratio although the other component is not redistributed at all.
   */
  lemma OrderFlips()
    ensures var a, b := StakeTrove(1, 1, 1, EMPTY), StakeTrove(3, 1, 1, EMPTY);
            var collateral, debt := Trove(3333_3334, 0), Trove(0, 3333_3334);
            && Ordered(a, b) && !KeepsOrder(a, b, collateral)
            && Ordered(b, a) && !KeepsOrder(b, a, debt)
  {
    var a, b := StakeTrove(1, 1, 1, EMPTY), StakeTrove(3, 1, 1, EMPTY);
    var collateral, debt := Trove(3333_3334, 0), Trove(0, 3333_3334);
    assert a.ApplyRedistribution(collateral).trove == Trove(1, 1);
    assert b.ApplyRedistribution(collateral).trove == Trove(4, 3);
    assert a.ApplyRedistribution(debt).trove == Trove(1, 1);
    assert b.ApplyRedistribution(debt).trove == Trove(3, 4);
  }

  // ----- Conservation over many troves -----

  function Shares(ps: seq<PendingTrove>, total: Trove): (r: Trove) {
    if ps == [] then EMPTY else ps[0].Share(total).Add(Shares(ps[1..], total))
  }

  /** The shares before rounding, scaled by 10^8. */
  function ExactShares(ps: seq<PendingTrove>, total: Trove): (r: Trove) {
    if ps == [] then EMPTY
    else
      var delta, rest := total.Subtract(ps[0].snapshot), ExactShares(ps[1..], total);
      Trove(delta.collateral * ps[0].stake + rest.collateral, delta.debt * ps[0].stake + rest.debt)
  }

  lemma {:induction false} SharesBounds(ps: seq<PendingTrove>, total: Trove)
    ensures var given, exact := Shares(ps, total), ExactShares(ps, total);
            && given.collateral * DIGITS <= exact.collateral <= given.collateral * DIGITS + |ps| * (DIGITS - 1)
            && given.debt * DIGITS <= exact.debt <= given.debt * DIGITS + |ps| * (DIGITS - 1)
  {
    if ps == [] {
    } else {
      SharesBounds(ps[1..], total);
      var delta := total.Subtract(ps[0].snapshot);
      ShareBounds(delta.collateral, ps[0].stake);
      ShareBounds(delta.debt, ps[0].stake);
    }
  }

  lemma ShareBounds(delta: nat, stake: nat)
    ensures Mul(delta, stake) * DIGITS <= delta * stake <= Mul(delta, stake) * DIGITS + (DIGITS - 1)
  {
  }

  /** No more is given out than was redistributed, and fewer units are lost than there are troves. */
  lemma {:induction false} SharesConserved(ps: seq<PendingTrove>, total: Trove)
    requires ps != []
    ensures var given, exact := Shares(ps, total), ExactShares(ps, total);
            && given.collateral <= exact.collateral / DIGITS < given.collateral + |ps|
            && given.debt <= exact.debt / DIGITS < given.debt + |ps|
  {
    SharesBounds(ps, total);
  }

  // ----- Checkpoints -----

  ghost predicate NonDecreasing(from: Trove, totals: seq<Trove>)
    decreases totals
  {
    totals != [] ==>
      && from.collateral <= totals[0].collateral && from.debt <= totals[0].debt
      && NonDecreasing(totals[0], totals[1..])
  }

  function ThroughCheckpoints(p: PendingTrove, totals: seq<Trove>): (r: PendingTrove)
    decreases totals
  {
    if totals == [] then p else ThroughCheckpoints(p.Checkpoint(totals[0]), totals[1..])
  }

  /** Two steps give what one step gives, or one unit less. */
  lemma TwoSteps(stake: nat, low: nat, mid: nat, high: nat)
    requires low <= mid <= high
    ensures var split, whole := Mul(mid - low, stake) + Mul(high - mid, stake), Mul(high - low, stake);
            split <= whole <= split + 1
  {
    assert (high - low) * stake == (mid - low) * stake + (high - mid) * stake;
  }

  /** Through k checkpoints at most k - 1 units of each component are lost against one application. */
  lemma {:induction false} CheckpointsLose(p: PendingTrove, totals: seq<Trove>)
    requires totals != [] && NonDecreasing(p.snapshot, totals)
    ensures var last := totals[|totals| - 1];
            var stepped, once := ThroughCheckpoints(p, totals).trove, p.ApplyRedistribution(last).trove;
            && p.snapshot.collateral <= last.collateral && p.snapshot.debt <= last.debt
            && stepped.collateral <= once.collateral <= stepped.collateral + (|totals| - 1)
            && stepped.debt <= once.debt <= stepped.debt + (|totals| - 1)
    decreases totals
  {
    var q, last := p.Checkpoint(totals[0]), totals[|totals| - 1];
    if |totals| == 1 {
      assert ThroughCheckpoints(q, totals[1..]) == q;
    } else {
      CheckpointsLose(q, totals[1..]);
      assert totals[1..][|totals| - 2] == last;
      TwoSteps(p.stake, p.snapshot.collateral, totals[0].collateral, last.collateral);
      TwoSteps(p.stake, p.snapshot.debt, totals[0].debt, last.debt);
    }
  }
}
