/** Troves, the changes between them and their collateral ratios: packages/lib-base/src/Trove.ts. */
module Troves {
  import opened Outcomes
  import opened Numbers
  import opened Decimals

  datatype Trove = Trove(collateral: Decimal, debt: Decimal) {

    predicate IsEmpty() {
      collateral == 0 && debt == 0
    }

    function NetDebt(reserve: Decimal): (r: Result<Decimal>) {
      if debt < reserve then Err(DebtBelowReserve) else Ok(debt - reserve)
    }

    function Add(that: Trove): (r: Trove) {
      Trove(collateral + that.collateral, debt + that.debt)
    }

    /** Subtraction stops at zero, separately for collateral and debt. */
    function Subtract(that: Trove): (r: Trove) {
      Trove(Monus(collateral, that.collateral), Monus(debt, that.debt))
    }

    function Multiply(multiplier: Decimal): (r: Trove) {
      Trove(Mul(collateral, multiplier), Mul(debt, multiplier))
    }

    function CollateralRatio(price: Decimal): (r: Decimal) {
      MulDiv(collateral, price, debt)
    }

    function NominalCollateralRatio(): (r: Decimal) {
      MulDiv(collateral, NOMINAL_PRECISION, debt)
    }

    predicate RatioIsBelow(limit: Decimal, price: Decimal) {
      CollateralRatio(price) < limit
    }
  }

  const EMPTY: Trove := Trove(0, 0)
  const NOMINAL_PRECISION: Decimal := 100 * DIGITS

  // ----- Borrowing fee -----

  function ApplyFee(rate: Decimal, borrowed: Decimal): (r: Decimal) {
    Mul(borrowed, ONE + rate)
  }

  function UnapplyFee(rate: Decimal, increase: Decimal): (r: Decimal) {
    DivCeil(increase, ONE + rate)
  }

  /** The fee is the rate's part of the borrow, rounded down. */
  predicate IsFee(fee: int, rate: Decimal, borrowed: Decimal) {
    0 <= fee && fee * DIGITS <= borrowed * rate < (fee + 1) * DIGITS
  }

  lemma FeeCharged(rate: Decimal, borrowed: Decimal)
    ensures IsFee(ApplyFee(rate, borrowed) - borrowed, rate, borrowed)
  {
    Floor(borrowed * (ONE + rate), DIGITS);
    assert borrowed * (ONE + rate) == borrowed * DIGITS + borrowed * rate;
    AtMostFloor(borrowed, borrowed * (ONE + rate), DIGITS);
  }

  /** The ceiling quotient is the least one that reaches its dividend. */
  lemma CeilingIsLeast(a: nat, d: nat, n: nat)
    requires 0 < d
    ensures n >= (a + (d - 1)) / d <==> n * d >= a
  {
    var c := (a + (d - 1)) / d;
    AtMostFloor(n + 1, a + (d - 1), d);
    assert (n + 1) * d == n * d + d;
  }

  /** Unapplying the fee gives the least borrow that reaches the debt increase. */
  lemma UnapplyFeeIsLeast(rate: Decimal, borrowed: Decimal, increase: Decimal)
    ensures ApplyFee(rate, borrowed) >= increase <==> borrowed >= UnapplyFee(rate, increase)
  {
    LeastBorrow(borrowed, ONE + rate, increase);
  }

  lemma LeastBorrow(borrowed: nat, factor: nat, increase: nat)
    requires 0 < factor
    ensures increase <= borrowed * factor / DIGITS <==> (increase * DIGITS + (factor - 1)) / factor <= borrowed
  {
    AtMostFloor(increase, borrowed * factor, DIGITS);
    CeilingIsLeast(increase * DIGITS, factor, borrowed);
  }

  /** Applying a fee keeps different borrows apart. */
  lemma ApplyFeeStrict(rate: Decimal, b: Decimal)
    ensures ApplyFee(rate, b) >= b
    ensures 0 < b ==> ApplyFee(rate, b - 1) < ApplyFee(rate, b)
  {
    AtMostFloor(b, b * (ONE + rate), DIGITS);
    MulMonotone(b, b, DIGITS, ONE + rate);
    if 0 < b {
      var f := ApplyFee(rate, b - 1);
      Floor((b - 1) * (ONE + rate), DIGITS);
      assert b * (ONE + rate) == (b - 1) * (ONE + rate) + (ONE + rate);
      AtMostFloor(f + 1, b * (ONE + rate), DIGITS);
    }
  }

  /** Unapplying undoes applying, exactly. */
  lemma UnapplyApply(rate: Decimal, b: Decimal)
    ensures UnapplyFee(rate, ApplyFee(rate, b)) == b
  {
    UnapplyFeeIsLeast(rate, b, ApplyFee(rate, b));
    if 0 < b {
      ApplyFeeStrict(rate, b);
      UnapplyFeeIsLeast(rate, b - 1, ApplyFee(rate, b));
    }
  }

  /**
   * Applying after unapplying reaches the increase and overshoots by less than 1 + rate units:
   * not at all without a fee, and by at most one unit for a rate of at most one.
   */
  lemma ApplyUnapply(rate: Decimal, increase: Decimal)
    ensures var reached := ApplyFee(rate, UnapplyFee(rate, increase));
            && increase <= reached
            && (reached - increase) * DIGITS < ONE + rate
            && (rate == 0 ==> reached == increase)
            && (rate <= ONE ==> reached <= increase + 1)
  {
    var b, r := UnapplyFee(rate, increase), ONE + rate;
    UnapplyFeeIsLeast(rate, b, increase);
    CeilingIsLeast(increase * DIGITS, r, b);
    var reached := ApplyFee(rate, b);
    Floor(b * r, DIGITS);
    if 0 < b {
      CeilingIsLeast(increase * DIGITS, r, b - 1);
      assert b * r == (b - 1) * r + r;
    }
  }

  // ----- Changes -----

  /** Parameters of a transaction, each of them optional. */
  datatype Params = Params(
    depositCollateral: Option<Decimal>,
    withdrawCollateral: Option<Decimal>,
    borrowHCHF: Option<Decimal>,
    repayHCHF: Option<Decimal>)

  datatype SetToZero = Neither | SetCollateral | SetDebt

  datatype TroveChange =
    | InvalidCreation(invalidTrove: Trove)
    | Creation(depositCollateral: Decimal, borrowHCHF: Decimal)
    | Closure(withdrawCollateral: Decimal, repayHCHF: Option<Decimal>)
    | Adjustment(params: Params, setToZero: SetToZero)

  const NO_PARAMS: Params := Params(None, None, None, None)

  function DebtChange(params: Params, before: Trove, after: Trove, rate: Decimal): (r: Params) {
    if before.debt < after.debt then params.(borrowHCHF := Some(UnapplyFee(rate, after.debt - before.debt)))
    else params.(repayHCHF := Some(before.debt - after.debt))
  }

  function CollateralChange(params: Params, before: Trove, after: Trove): (r: Params) {
    if before.collateral < after.collateral
    then params.(depositCollateral := Some(after.collateral - before.collateral))
    else params.(withdrawCollateral := Some(before.collateral - after.collateral))
  }

  /** The change from one trove to another; none if they are equal. */
  function WhatChanged(reserve: Decimal, a: Trove, b: Trove, rate: Decimal): (r: Result<Option<TroveChange>>) {
    if a == b then Ok(None)
    else if a.IsEmpty() then
      if b.debt < reserve then Ok(Some(InvalidCreation(b)))
      else Ok(Some(Creation(b.collateral, UnapplyFee(rate, b.debt - reserve))))
    else if b.IsEmpty() then
      var net :- a.NetDebt(reserve);
      Ok(Some(Closure(a.collateral, if net != 0 then Some(net) else None)))
    else if a.collateral == b.collateral then
      Ok(Some(Adjustment(DebtChange(NO_PARAMS, a, b, rate), if b.debt == 0 then SetDebt else Neither)))
    else if a.debt == b.debt then
      Ok(Some(Adjustment(CollateralChange(NO_PARAMS, a, b), if b.collateral == 0 then SetCollateral else Neither)))
    else
      Ok(Some(Adjustment(CollateralChange(DebtChange(NO_PARAMS, a, b, rate), a, b),
                         if b.debt == 0 then SetDebt else if b.collateral == 0 then SetCollateral else Neither)))
  }

  function OrZero(d: Option<Decimal>): (r: Decimal) {
    if d.Some? then d.value else 0
  }

  function ApplyAdjustment(t: Trove, params: Params, setToZero: SetToZero, rate: Decimal): (r: Trove) {
    var collateralDecrease, collateralIncrease := OrZero(params.withdrawCollateral), OrZero(params.depositCollateral);
    var debtDecrease := OrZero(params.repayHCHF);
    var debtIncrease := if params.borrowHCHF.Some? then ApplyFee(rate, params.borrowHCHF.value) else 0;
    match setToZero
    case SetCollateral => Trove(0, Monus(t.debt + debtIncrease, debtDecrease))
    case SetDebt => Trove(Monus(t.collateral + collateralIncrease, collateralDecrease), 0)
    case Neither => t.Add(Trove(collateralIncrease, debtIncrease)).Subtract(Trove(collateralDecrease, debtDecrease))
  }

  function Apply(reserve: Decimal, t: Trove, change: Option<TroveChange>, rate: Decimal): (r: Result<Trove>) {
    match change
    case None => Ok(t)
    case Some(InvalidCreation(invalid)) => if t.IsEmpty() then Ok(invalid) else Err(OntoExistingTrove)
    case Some(Creation(deposit, borrow)) =>
      if t.IsEmpty() then Ok(Trove(deposit, reserve + ApplyFee(rate, borrow))) else Err(OntoExistingTrove)
    case Some(Closure(_, _)) => if t.IsEmpty() then Err(NothingToClose) else Ok(EMPTY)
    case Some(Adjustment(params, setToZero)) => Ok(ApplyAdjustment(t, params, setToZero, rate))
  }

  /**
   * Applying what changed from a to b gives b back for every pair of troves: the collateral exactly,
   * the debt exactly without a fee, and at most one unit too much for a rate of at most one. Only the
   * change that closes a trove with less debt than the reserve throws.
   */
  lemma ApplyWhatChanged(reserve: Decimal, a: Trove, b: Trove, rate: Decimal)
    ensures var change := WhatChanged(reserve, a, b, rate);
            && (change.Err? <==> !a.IsEmpty() && b.IsEmpty() && a.debt < reserve)
            && (change == Ok(None) <==> a == b)
            && (change.Ok? ==>
                  var r := Apply(reserve, a, change.value, rate);
                  && r.Ok?
                  && r.value.collateral == b.collateral
                  && b.debt <= r.value.debt
                  && (r.value.debt - b.debt) * DIGITS < ONE + rate
                  && (rate == 0 ==> r.value == b)
                  && (rate <= ONE ==> r.value.debt <= b.debt + 1))
  {
    if a.IsEmpty() && reserve <= b.debt {
      ApplyUnapply(rate, b.debt - reserve);
    } else if a.debt < b.debt {
      ApplyUnapply(rate, b.debt - a.debt);
    }
  }

  /** The amounts a valid change moves. */
  function Moved(change: TroveChange): (p: Params)
    requires !change.InvalidCreation?
  {
    match change
    case Creation(deposit, borrow) => Params(Some(deposit), None, Some(borrow), None)
    case Closure(withdraw, repay) => Params(None, Some(withdraw), None, repay)
    case Adjustment(params, _) => params
  }

  /**
   * What a change moves is the difference between the troves: the collateral to the unit, one way only;
   * the repayment to the unit, less the reserve that a closure leaves to be returned; and as the borrow
   * the least one whose fee-laden debt reaches the increase, above the reserve for a creation.
   */
  lemma ChangeBalances(reserve: Decimal, a: Trove, b: Trove, rate: Decimal, other: Decimal)
    requires WhatChanged(reserve, a, b, rate).Ok? && WhatChanged(reserve, a, b, rate).value.Some?
    ensures var change := WhatChanged(reserve, a, b, rate).value.value;
            && (change.InvalidCreation? <==> a.IsEmpty() && b.debt < reserve)
            && (!change.InvalidCreation? ==>
                  var p := Moved(change);
                  var kept := if a.IsEmpty() || b.IsEmpty() then reserve else 0;
                  && a.collateral + OrZero(p.depositCollateral) == b.collateral + OrZero(p.withdrawCollateral)
                  && (OrZero(p.depositCollateral) == 0 || OrZero(p.withdrawCollateral) == 0)
                  && (b.debt < a.debt ==> OrZero(p.repayHCHF) + kept == a.debt - b.debt && p.borrowHCHF.None?)
                  && p.repayHCHF != Some(0)
                  && (a.debt < b.debt ==>
                        && p.borrowHCHF.Some? && p.repayHCHF.None? && kept <= b.debt - a.debt
                        && (p.borrowHCHF.value <= other <==> b.debt - a.debt <= ApplyFee(rate, other) + kept)))
  {
    if a.IsEmpty() && reserve <= b.debt {
      UnapplyFeeIsLeast(rate, other, b.debt - reserve);
    } else if a.debt < b.debt {
      UnapplyFeeIsLeast(rate, other, b.debt - a.debt);
    }
  }

  /** The change between two open troves is an adjustment without zero entries, which marks what became zero. */
  lemma AdjustmentHasNoZeros(reserve: Decimal, a: Trove, b: Trove, rate: Decimal)
    requires a != b && !a.IsEmpty() && !b.IsEmpty()
    ensures var r := WhatChanged(reserve, a, b, rate);
            && r.Ok? && r.value.Some? && r.value.value.Adjustment?
            && NormalizeAdjustment(r.value.value.params) == Ok(r.value.value.params)
            && (r.value.value.setToZero == SetDebt <==> a.debt != 0 && b.debt == 0)
            && (r.value.value.setToZero == SetCollateral <==> a.collateral != 0 && b.collateral == 0)
  {
    if a.debt < b.debt {
      UnapplyFeeIsLeast(rate, 0, b.debt - a.debt);
    }
  }

  /**
   * Applied to any trove, a change to a debt-free or collateral-free trove keeps that zero, and a closure
   * empties any open trove.
   */
  lemma ZeroingsCarryOver(reserve: Decimal, a: Trove, b: Trove, c: Trove, rate: Decimal)
    requires b.collateral != 0 && b.debt != 0 && WhatChanged(reserve, b, c, rate).Ok?
    ensures var r := Apply(reserve, a, WhatChanged(reserve, b, c, rate).value, rate);
            && (r.Err? <==> c.IsEmpty() && a.IsEmpty())
            && (r.Ok? && c.debt == 0 ==> r.value.debt == 0)
            && (r.Ok? && c.collateral == 0 ==> r.value.collateral == 0)
  {
  }

  /**
   * A change from an empty trove applies to empty troves alone, one to an empty trove to open troves
   * alone, and any other one to every trove.
   */
  lemma ApplyAccepts(reserve: Decimal, a: Trove, b: Trove, rate: Decimal, t: Trove)
    requires WhatChanged(reserve, a, b, rate).Ok?
    ensures Apply(reserve, t, WhatChanged(reserve, a, b, rate).value, rate).Err?
            <==> a != b && ((a.IsEmpty() && !t.IsEmpty()) || (b.IsEmpty() && t.IsEmpty()))
  {
  }

  // ----- Creation parameters -----

  /** Both creation parameters must be present, and no other ones. */
  function NormalizeCreation(p: Params): (r: Result<TroveChange>) {
    if p.withdrawCollateral.Some? || p.repayHCHF.Some? then Err(BadParameters)
    else if p.depositCollateral.None? || p.borrowHCHF.None? then Err(BadParameters)
    else Ok(Creation(p.depositCollateral.value, p.borrowHCHF.value))
  }

  function Create(reserve: Decimal, p: Params, rate: Decimal): (r: Result<Trove>) {
    var change :- NormalizeCreation(p);
    Apply(reserve, EMPTY, Some(change), rate)
  }

  function Recreate(reserve: Decimal, that: Trove, rate: Decimal): (r: Result<Params>) {
    var change :- WhatChanged(reserve, EMPTY, that, rate);
    if change.Some? && change.value.Creation?
    then Ok(NO_PARAMS.(depositCollateral := Some(change.value.depositCollateral),
                       borrowHCHF := Some(change.value.borrowHCHF)))
    else Err(UnexpectedChange)
  }

  /** A created trove holds the deposit, and owes the reserve, the borrow and the fee on it. */
  lemma CreateCharges(reserve: Decimal, p: Params, rate: Decimal)
    ensures Create(reserve, p, rate).Ok? <==>
            && p.depositCollateral.Some? && p.borrowHCHF.Some?
            && p.withdrawCollateral.None? && p.repayHCHF.None?
    ensures Create(reserve, p, rate).Ok? ==>
              var t := Create(reserve, p, rate).value;
              && t.collateral == p.depositCollateral.value
              && IsFee(t.debt - reserve - p.borrowHCHF.value, rate, p.borrowHCHF.value)
  {
    FeeCharged(rate, OrZero(p.borrowHCHF));
  }

  /**
   * Recreating a created trove returns the creation parameters; the one exception is the all-zero
   * creation without a reserve, whose trove is empty.
   */
  lemma RecreateCreate(reserve: Decimal, p: Params, rate: Decimal)
    requires NormalizeCreation(p).Ok?
    ensures Create(reserve, p, rate).Ok?
    ensures Recreate(reserve, Create(reserve, p, rate).value, rate) == Ok(p)
            <==> 0 < reserve || 0 < p.depositCollateral.value || 0 < p.borrowHCHF.value
  {
    ApplyFeeStrict(rate, p.borrowHCHF.value);
    UnapplyApply(rate, p.borrowHCHF.value);
    assert ApplyFee(rate, 0) == 0;
  }

  // ----- Adjustment parameters -----

  function NonZero(d: Option<Decimal>): (r: Option<Decimal>) {
    if d == Some(0) then None else d
  }

  function WithoutZeros(p: Params): (r: Params) {
    Params(NonZero(p.depositCollateral), NonZero(p.withdrawCollateral), NonZero(p.borrowHCHF), NonZero(p.repayHCHF))
  }

  /** Zero entries are dropped; what is left may not contradict itself nor be nothing. */
  function NormalizeAdjustment(p: Params): (r: Result<Params>) {
    var q := WithoutZeros(p);
    if q.depositCollateral.Some? && q.withdrawCollateral.Some? then Err(BadParameters)
    else if q.borrowHCHF.Some? && q.repayHCHF.Some? then Err(BadParameters)
    else if q == NO_PARAMS then Err(BadParameters)
    else Ok(q)
  }

  function Adjust(t: Trove, p: Params, rate: Decimal): (r: Result<Trove>) {
    var q :- NormalizeAdjustment(p);
    Ok(ApplyAdjustment(t, q, Neither, rate))
  }

  /**
   * An adjustment is rejected if it is nothing or moves one thing both ways. Else the collateral moves by
   * what is deposited and withdrawn, the debt by what is repaid, or borrowed with the fee on it, and neither
   * goes below zero.
   */
  lemma AdjustCharges(t: Trove, p: Params, rate: Decimal)
    ensures var deposit, withdraw := OrZero(p.depositCollateral), OrZero(p.withdrawCollateral);
            var borrow, repay, r := OrZero(p.borrowHCHF), OrZero(p.repayHCHF), Adjust(t, p, rate);
            && (r.Err? <==>
                  || (0 < deposit && 0 < withdraw) || (0 < borrow && 0 < repay)
                  || deposit + withdraw + borrow + repay == 0)
            && (r.Ok? ==>
                  && (deposit + t.collateral >= withdraw ==> r.value.collateral == deposit + t.collateral - withdraw)
                  && (deposit + t.collateral < withdraw ==> r.value.collateral == 0)
                  && (t.debt < repay ==> r.value.debt == 0)
                  && (repay <= t.debt ==> IsFee(r.value.debt + repay - t.debt - borrow, rate, borrow)))
  {
    FeeCharged(rate, OrZero(p.borrowHCHF));
    FeeCharged(rate, 0);
  }

  function AdjustTo(reserve: Decimal, t: Trove, that: Trove, rate: Decimal): (r: Result<Params>) {
    var change :- WhatChanged(reserve, t, that, rate);
    if change.Some? && change.value.Adjustment? then Ok(change.value.params) else Err(UnexpectedChange)
  }

  /** What a caller can check: the trove is open, stays open, and nothing is taken that is not there. */
  predicate Adjustable(t: Trove, p: Params) {
    && !t.IsEmpty()
    && OrZero(p.withdrawCollateral) <= t.collateral
    && OrZero(p.repayHCHF) <= t.debt
    && (t.collateral + OrZero(p.depositCollateral) != OrZero(p.withdrawCollateral)
        || t.debt + OrZero(p.borrowHCHF) != OrZero(p.repayHCHF))
  }

  /** Adjusting and asking for the adjustment back returns the non-zero parameters, exactly then. */
  lemma AdjustToAdjust(reserve: Decimal, t: Trove, p: Params, rate: Decimal)
    requires NormalizeAdjustment(p).Ok?
    ensures Adjust(t, p, rate).Ok?
    ensures AdjustTo(reserve, t, Adjust(t, p, rate).value, rate) == Ok(WithoutZeros(p)) <==> Adjustable(t, p)
  {
    var b := OrZero(p.borrowHCHF);
    ApplyFeeStrict(rate, b);
    UnapplyApply(rate, b);
    assert ApplyFee(rate, 0) == 0;
  }

  /** Parameters are given back exactly for a trove that can be created, and for two different open troves. */
  lemma InversesReject(reserve: Decimal, t: Trove, that: Trove, rate: Decimal)
    ensures Recreate(reserve, that, rate).Err? <==> that.IsEmpty() || that.debt < reserve
    ensures AdjustTo(reserve, t, that, rate).Err? <==> t == that || t.IsEmpty() || that.IsEmpty()
  {
  }

  // ----- Collateral ratios -----

  /** The ratios are quotients rounded down, the nominal one at a price of 100; infinite without debt. */
  lemma RatioMeaning(t: Trove, price: Decimal)
    ensures var r, n := t.CollateralRatio(price), t.NominalCollateralRatio();
            && (t.debt == 0 ==> r == INFINITY && n == INFINITY)
            && (0 < t.debt ==>
                  && r * t.debt <= t.collateral * price < (r + 1) * t.debt
                  && n * t.debt <= t.collateral * (100 * DIGITS) < (n + 1) * t.debt)
  {
    if 0 < t.debt {
      Floor(t.collateral * price, t.debt);
      Floor(t.collateral * NOMINAL_PRECISION, t.debt);
    }
  }

  /** The fold with which totals are formed. */
  function Total(troves: seq<Trove>): (r: Trove) {
    if troves == [] then EMPTY else troves[0].Add(Total(troves[1..]))
  }

  /** Being below a limit, without division; a trove without debt is below no limit up to infinity. */
  predicate Below(t: Trove, limit: Decimal, price: Decimal) {
    if t.debt == 0 then INFINITY < limit else t.collateral * price < limit * t.debt
  }

  lemma RatioBelowByProduct(t: Trove, limit: Decimal, price: Decimal)
    ensures t.RatioIsBelow(limit, price) <==> Below(t, limit, price)
  {
    if t.debt != 0 {
      AtMostFloor(limit, t.collateral * price, t.debt);
    }
  }

  lemma NotBelowByProduct(t: Trove, limit: Decimal, price: Decimal)
    requires limit <= INFINITY && !t.RatioIsBelow(limit, price)
    ensures limit * t.debt <= t.collateral * price
  {
    RatioBelowByProduct(t, limit, price);
  }

  lemma {:induction false} TotalNotBelow(troves: seq<Trove>, limit: Decimal, price: Decimal)
    requires limit <= INFINITY
    requires forall t :: t in troves ==> !t.RatioIsBelow(limit, price)
    ensures Total(troves).collateral * price >= limit * Total(troves).debt
  {
    if troves == [] {
    } else {
      var t, rest := troves[0], Total(troves[1..]);
      NotBelowByProduct(t, limit, price);
      TotalNotBelow(troves[1..], limit, price);
      assert (t.collateral + rest.collateral) * price == t.collateral * price + rest.collateral * price;
      assert limit * (t.debt + rest.debt) == limit * t.debt + limit * rest.debt;
    }
  }

  lemma {:induction false} TotalBelow(troves: seq<Trove>, limit: Decimal, price: Decimal)
    requires limit <= INFINITY && troves != []
    requires forall t :: t in troves ==> t.RatioIsBelow(limit, price)
    ensures 0 < Total(troves).debt
    ensures Total(troves).collateral * price < limit * Total(troves).debt
  {
    var t, rest := troves[0], Total(troves[1..]);
    RatioBelowByProduct(t, limit, price);
    if |troves| == 1 {
      assert Total(troves[1..]) == EMPTY;
    } else {
      TotalBelow(troves[1..], limit, price);
      assert (t.collateral + rest.collateral) * price == t.collateral * price + rest.collateral * price;
      assert limit * (t.debt + rest.debt) == limit * t.debt + limit * rest.debt;
    }
  }

  /** A system below a limit has a trove below it; if all its troves are below, so is the system. */
  lemma SystemRatio(troves: seq<Trove>, limit: Decimal, price: Decimal)
    requires limit <= INFINITY
    ensures Total(troves).RatioIsBelow(limit, price) ==> exists t :: t in troves && t.RatioIsBelow(limit, price)
    ensures troves != [] && (forall t :: t in troves ==> t.RatioIsBelow(limit, price))
            ==> Total(troves).RatioIsBelow(limit, price)
  {
    RatioBelowByProduct(Total(troves), limit, price);
    if forall t :: t in troves ==> !t.RatioIsBelow(limit, price) {
      TotalNotBelow(troves, limit, price);
    }
    if troves != [] && forall t :: t in troves ==> t.RatioIsBelow(limit, price) {
      TotalBelow(troves, limit, price);
    }
  }

  /** Quotients that differ after flooring are ordered like the fractions. */
  lemma FloorsOrderFractions(a: nat, c: nat, b: nat, d: nat, n: nat)
    requires 0 < c && 0 < d && b * n / d < a * n / c
    ensures b * c <= a * d
  {
    var f := a * n / c;
    Floor(a * n, c);
    Floor(b * n, d);
    MulMonotone(b * n / d + 1, f, d, d);
    assert b * n < f * d;
    CrossMultiply(a, b, c, d, n, f);
  }

  lemma CrossMultiply(a: nat, b: nat, c: nat, d: nat, n: nat, f: nat)
    requires 0 < c && 0 < d && f * c <= a * n && b * n < f * d
    ensures b * c <= a * d
  {
    MulOrder(f * d, b * n, c);
    MulMonotone(f * c, a * n, d, d);
    Swap(f, d, c);
    Swap(b, n, c);
    Swap(a, n, d);
    assert (b * c) * n <= (a * d) * n;
    MulOrder(b * c, a * d, if n == 0 then 1 else n);
  }

  /** A strictly greater nominal ratio is at least as great a ratio at every price. */
  lemma NominalOrder(s: Trove, t: Trove, price: Decimal)
    requires 0 < s.debt && 0 < t.debt
    requires s.NominalCollateralRatio() < t.NominalCollateralRatio()
    ensures s.CollateralRatio(price) <= t.CollateralRatio(price)
  {
    FloorsOrderFractions(t.collateral, t.debt, s.collateral, s.debt, NOMINAL_PRECISION);
    RatioOrder(s, t, price);
  }

  lemma RatioOrder(s: Trove, t: Trove, price: Decimal)
    requires 0 < s.debt && 0 < t.debt
    requires s.collateral * t.debt <= t.collateral * s.debt
    ensures s.CollateralRatio(price) <= t.CollateralRatio(price)
  {
    var r := s.CollateralRatio(price);
    Floor(s.collateral * price, s.debt);
    MulMonotone(r * s.debt, s.collateral * price, t.debt, t.debt);
    MulMonotone(s.collateral * t.debt, t.collateral * s.debt, price, price);
    Swap(r, s.debt, t.debt);
    Swap(s.collateral, price, t.debt);
    Swap(t.collateral, price, s.debt);
    MulOrder(r * t.debt, t.collateral * price, s.debt);
    AtMostFloor(r, t.collateral * price, t.debt);
  }
}
