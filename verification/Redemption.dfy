/** The redemption estimate: packages/lib-base/src/redemptionDetails.ts. */
module Redemption {
  import opened Outcomes
  import opened Numbers
  import opened Decimals
  import opened Troves

  datatype Options = Options(
    sortedTroves: seq<Trove>,
    totalHchf: Decimal,
    totalHbar: Decimal,
    redeemedHchf: Decimal,
    redemptionFee: Decimal,
    reserve: Decimal,
    price: Decimal)

  /** The slippage is kept as a ratio, before it is wrapped as a percentage. */
  datatype Details = Details(
    redeemedHchf: Decimal,
    receivedHbar: Decimal,
    redemptionFeeInHbar: Decimal,
    slippage: Decimal)

  /** What is paid into each touched trove, in order. */
  function Payments(troves: seq<Trove>, amount: Decimal, reserve: Decimal): (r: Result<seq<Decimal>>) {
    if troves == [] || amount == 0 then Ok([])
    else
      var usable :- Sub(troves[0].debt, reserve);
      if usable <= amount then
        var rest :- Payments(troves[1..], amount - usable, reserve);
        Ok([usable] + rest)
      else Ok([amount])
  }

  /** The collateral bought by the payments, each of them rounded down. */
  function Bought(payments: seq<Decimal>, price: Decimal): (r: Decimal) {
    if payments == [] then 0 else Div(payments[0], price) + Bought(payments[1..], price)
  }

  /** The fee split and the comparison with the system's ratio. */
  function Settle(o: Options, redeemed: Decimal, bought: Decimal): (r: Result<Option<Details>>) {
    var fee := Mul(bought, o.redemptionFee);
    var received :- Sub(bought, fee);
    var toTarget := Div(Div(received, redeemed), Div(o.totalHbar, o.totalHchf));
    if ONE < toTarget then Ok(None) else Ok(Some(Details(redeemed, received, fee, ONE - toTarget)))
  }

  function RedemptionDetails(o: Options): (r: Result<Option<Details>>) {
    var payments :- Payments(o.sortedTroves, o.redeemedHchf, o.reserve);
    Settle(o, Sum(payments), Bought(payments, o.price))
  }

  /** The payments still to come, after those already made. */
  ghost function Continued(made: seq<Decimal>, rest: Result<seq<Decimal>>): (r: Result<seq<Decimal>>) {
    match rest
    case Ok(more) => Ok(made + more)
    case Err(e) => Err(e)
  }

  /** The loop over the sorted troves. */
  method GetRedemptionDetails(o: Options) returns (r: Result<Option<Details>>)
    ensures r == RedemptionDetails(o)
  {
    var remaining, bought, redeemed := o.redeemedHchf, ZERO, ZERO;
    ghost var made: seq<Decimal> := [];
    var i := 0;
    NothingMade(Payments(o.sortedTroves, o.redeemedHchf, o.reserve));
    assert o.sortedTroves[0..] == o.sortedTroves;
    while i < |o.sortedTroves|
      invariant 0 <= i <= |o.sortedTroves|
      invariant redeemed + remaining == o.redeemedHchf
      invariant redeemed == Sum(made) && bought == Bought(made, o.price)
      invariant Payments(o.sortedTroves, o.redeemedHchf, o.reserve)
             == Continued(made, Payments(o.sortedTroves[i..], remaining, o.reserve))
    {
      if remaining == 0 { break; }
      var trove := o.sortedTroves[i];
      assert o.sortedTroves[i..][0] == trove && o.sortedTroves[i..][1..] == o.sortedTroves[i + 1..];
      var usable := Sub(trove.debt, o.reserve);
      if usable.Err? { return Err(usable.failure); }
      var usableCollateral := Div(usable.value, o.price);
      if usable.value <= remaining {
        bought := bought + usableCollateral;
        redeemed := redeemed + usable.value;
        remaining := remaining - usable.value;
        MakePayment(made, usable.value, Payments(o.sortedTroves[i + 1..], remaining, o.reserve), o.price);
        made := made + [usable.value];
      } else {
        bought := bought + Div(remaining, o.price);
        redeemed := redeemed + remaining;
        MakePayment(made, remaining, Ok([]), o.price);
        assert [remaining] + [] == [remaining];
        made := made + [remaining];
        remaining := ZERO;
      }
      i := i + 1;
    }
    assert Continued(made, Ok([])) == Ok(made) by { assert made + [] == made; }
    r := Settle(o, redeemed, bought);
  }

  lemma {:induction false} SumAppend(s: seq<Decimal>, d: Decimal)
    ensures Sum(s + [d]) == Sum(s) + d
  {
    if s == [] {
      assert s + [d] == [d] && [d][1..] == [];
    } else {
      assert (s + [d])[1..] == s[1..] + [d];
      SumAppend(s[1..], d);
    }
  }

  lemma {:induction false} BoughtAppend(s: seq<Decimal>, d: Decimal, price: Decimal)
    ensures Bought(s + [d], price) == Bought(s, price) + Div(d, price)
  {
    if s == [] {
      assert s + [d] == [d] && [d][1..] == [];
    } else {
      assert (s + [d])[1..] == s[1..] + [d];
      BoughtAppend(s[1..], d, price);
    }
  }

  lemma NothingMade(rest: Result<seq<Decimal>>)
    ensures Continued([], rest) == rest
  {
    if rest.Ok? {
      assert [] + rest.value == rest.value;
    }
  }

  lemma MakePayment(made: seq<Decimal>, d: Decimal, rest: Result<seq<Decimal>>, price: Decimal)
    ensures Sum(made + [d]) == Sum(made) + d
    ensures Bought(made + [d], price) == Bought(made, price) + Div(d, price)
    ensures rest.Ok? ==> Continued(made, Ok([d] + rest.value)) == Continued(made + [d], rest)
  {
    SumAppend(made, d);
    BoughtAppend(made, d, price);
    if rest.Ok? {
      assert made + ([d] + rest.value) == (made + [d]) + rest.value;
    }
  }

  // ----- Conservation of HCHF -----

  /** Every trove can be redeemed from: its debt covers the reserve. */
  predicate Redeemable(troves: seq<Trove>, reserve: Decimal) {
    forall t :: t in troves ==> reserve <= t.debt
  }

  function UsableDebt(troves: seq<Trove>, reserve: Decimal): (r: nat)
    requires Redeemable(troves, reserve)
  {
    if troves == [] then 0 else (troves[0].debt - reserve) + UsableDebt(troves[1..], reserve)
  }

  lemma {:induction false} PaymentsSum(troves: seq<Trove>, amount: Decimal, reserve: Decimal)
    requires Redeemable(troves, reserve)
    ensures Payments(troves, amount, reserve).Ok?
    ensures Sum(Payments(troves, amount, reserve).value) == Min(amount, UsableDebt(troves, reserve))
  {
    if troves == [] || amount == 0 {
      assert Payments(troves, amount, reserve) == Ok([]);
    } else {
      var usable := troves[0].debt - reserve;
      if usable <= amount {
        PaymentsSum(troves[1..], amount - usable, reserve);
        SumCons(usable, Payments(troves[1..], amount - usable, reserve).value);
      } else {
        SumCons(amount, []);
      }
    }
  }

  lemma SumCons(d: Decimal, rest: seq<Decimal>)
    ensures Sum([d] + rest) == d + Sum(rest)
    ensures [d] + [] == [d]
  {
    assert ([d] + rest)[1..] == rest;
  }

  /** Only the last touched trove can be paid in part, and a payment below the request touches every trove. */
  lemma {:induction false} PaymentsInOrder(troves: seq<Trove>, amount: Decimal, reserve: Decimal)
    requires Redeemable(troves, reserve)
    ensures Payments(troves, amount, reserve).Ok?
    ensures var ps := Payments(troves, amount, reserve).value;
            && |ps| <= |troves|
            && (forall i :: 0 <= i < |ps| ==> ps[i] <= troves[i].debt - reserve)
            && (forall i :: 0 <= i < |ps| - 1 ==> ps[i] == troves[i].debt - reserve)
            && (UsableDebt(troves, reserve) < amount ==> |ps| == |troves|)
  {
    if troves == [] || amount == 0 {
      assert Payments(troves, amount, reserve) == Ok([]);
    } else if troves[0].debt - reserve <= amount {
      var usable := troves[0].debt - reserve;
      PaymentsInOrder(troves[1..], amount - usable, reserve);
      var rest := Payments(troves[1..], amount - usable, reserve).value;
      var ps := [usable] + rest;
      assert forall i :: 1 <= i < |ps| ==> ps[i] == rest[i - 1] && troves[i] == troves[1..][i - 1];
    }
  }

  /**
   * What is paid is the request or all usable debt, whichever is less; only the last touched trove
   * can be paid in part, and no trove is left out while anything remains.
   */
  lemma PaymentsConserve(troves: seq<Trove>, amount: Decimal, reserve: Decimal)
    requires Redeemable(troves, reserve)
    ensures Payments(troves, amount, reserve).Ok?
    ensures var ps := Payments(troves, amount, reserve).value;
            && Sum(ps) == Min(amount, UsableDebt(troves, reserve))
            && |ps| <= |troves|
            && (forall i :: 0 <= i < |ps| ==> ps[i] <= troves[i].debt - reserve)
            && (forall i :: 0 <= i < |ps| - 1 ==> ps[i] == troves[i].debt - reserve)
            && (Sum(ps) < amount ==> |ps| == |troves|)
  {
    PaymentsSum(troves, amount, reserve);
    PaymentsInOrder(troves, amount, reserve);
  }

  // ----- Fairness in HBAR -----

  lemma {:induction false} BoughtBounds(ps: seq<Decimal>, price: Decimal)
    requires 0 < price
    ensures Bought(ps, price) * price <= Sum(ps) * DIGITS <= Bought(ps, price) * price + |ps| * (price - 1)
  {
    if ps == [] {
    } else {
      BoughtBounds(ps[1..], price);
      Floor(ps[0] * DIGITS, price);
      AddBounds(Div(ps[0], price), Bought(ps[1..], price), ps[0] * DIGITS, Sum(ps[1..]) * DIGITS, price, |ps| - 1);
    }
  }

  lemma AddBounds(b: nat, rest: nat, first: nat, others: nat, price: nat, n: nat)
    requires 0 < price && b * price <= first < (b + 1) * price
    requires rest * price <= others <= rest * price + n * (price - 1)
    ensures (b + rest) * price <= first + others <= (b + rest) * price + (n + 1) * (price - 1)
  {
    assert (b + 1) * price == b * price + price;
    assert (b + rest) * price == b * price + rest * price;
    assert (n + 1) * (price - 1) == n * (price - 1) + (price - 1);
  }

  /** q is the quotient rounded down, or infinity over zero. */
  predicate IsQuotient(q: Decimal, a: Decimal, b: Decimal) {
    if b == 0 then q == INFINITY else q * b <= a * DIGITS < (q + 1) * b
  }

  lemma QuotientUnique(q: Decimal, a: Decimal, b: Decimal)
    ensures IsQuotient(q, a, b) <==> q == Div(a, b)
  {
    if b != 0 {
      Floor(a * DIGITS, b);
      if IsQuotient(q, a, b) { FloorUnique(a * DIGITS, b, q); }
    }
  }

  /** Each payment buys its own quotient, rounded down. */
  lemma {:induction false} BoughtPerTrove(ps: seq<Decimal>, price: Decimal) returns (qs: seq<Decimal>)
    ensures |qs| == |ps| && (forall i :: 0 <= i < |ps| ==> IsQuotient(qs[i], ps[i], price))
    ensures Bought(ps, price) == Sum(qs)
  {
    if ps == [] {
      qs := [];
    } else {
      var rest := BoughtPerTrove(ps[1..], price);
      qs := [Div(ps[0], price)] + rest;
      QuotientUnique(Div(ps[0], price), ps[0], price);
      SumCons(Div(ps[0], price), rest);
      assert forall i :: 1 <= i < |ps| ==> qs[i] == rest[i - 1] && ps[i] == ps[1..][i - 1];
    }
  }

  /** The redeemer gets at most what the payments are worth, short by fewer units than payments. */
  lemma BoughtIsFair(ps: seq<Decimal>, price: Decimal)
    requires 0 < price
    ensures Bought(ps, price) <= Sum(ps) * DIGITS / price
    ensures ps != [] ==> Sum(ps) * DIGITS / price < Bought(ps, price) + |ps|
  {
    BoughtBounds(ps, price);
    ShortByLess(Bought(ps, price), |ps|, Sum(ps) * DIGITS, price);
  }

  lemma ShortByLess(b: nat, n: nat, worth: nat, price: nat)
    requires 0 < price && b * price <= worth <= b * price + n * (price - 1)
    ensures b <= worth / price && (0 < n ==> worth / price < b + n)
  {
    AtMostFloor(b, worth, price);
    AtMostFloor(b + n, worth, price);
    assert (b + n) * price == b * price + n * (price - 1) + n;
  }

  /** Redeeming more never buys less. */
  lemma {:induction false} BoughtMonotone(
    troves: seq<Trove>, less: Decimal, more: Decimal, reserve: Decimal, price: Decimal)
    requires Redeemable(troves, reserve) && 0 < price && less <= more
    ensures Payments(troves, less, reserve).Ok? && Payments(troves, more, reserve).Ok?
    ensures Bought(Payments(troves, less, reserve).value, price) <= Bought(Payments(troves, more, reserve).value, price)
  {
    BoughtFirst(troves, more, reserve, price);
    BoughtFirst(troves, less, reserve, price);
    if troves == [] || less == 0 {
    } else {
      var usable := troves[0].debt - reserve;
      FloorMonotone(Min(usable, less) * DIGITS, Min(usable, more) * DIGITS, price);
      if usable <= less {
        BoughtMonotone(troves[1..], less - usable, more - usable, reserve, price);
      }
    }
  }

  /** What the first trove contributes. */
  lemma BoughtFirst(troves: seq<Trove>, amount: Decimal, reserve: Decimal, price: Decimal)
    requires Redeemable(troves, reserve)
    ensures Payments(troves, amount, reserve).Ok?
    ensures troves != [] && amount != 0 ==>
              var usable, first := troves[0].debt - reserve, Min(troves[0].debt - reserve, amount);
              && Payments(troves[1..], amount - first, reserve).Ok?
              && Bought(Payments(troves, amount, reserve).value, price)
              == Div(first, price) + Bought(Payments(troves[1..], amount - first, reserve).value, price)
  {
    PaymentsDefined(troves, amount, reserve);
    if troves != [] && amount != 0 {
      var first := Min(troves[0].debt - reserve, amount);
      PaymentsDefined(troves[1..], amount - first, reserve);
      BoughtCons(first, Payments(troves[1..], amount - first, reserve).value, price);
    }
  }

  lemma {:induction false} PaymentsDefined(troves: seq<Trove>, amount: Decimal, reserve: Decimal)
    requires Redeemable(troves, reserve)
    ensures Payments(troves, amount, reserve).Ok?
  {
    if troves == [] || amount < troves[0].debt - reserve {
    } else {
      PaymentsDefined(troves[1..], amount - (troves[0].debt - reserve), reserve);
    }
  }

  lemma BoughtCons(d: Decimal, rest: seq<Decimal>, price: Decimal)
    ensures Bought([d] + rest, price) == Div(d, price) + Bought(rest, price)
    ensures Bought([d], price) == Div(d, price)
  {
    assert ([d] + rest)[1..] == rest;
    assert [d][1..] == [];
  }

  /** Troves after the first ones that cover the request are not paid into. */
  lemma {:induction false} LaterTrovesUnpaid(
    troves: seq<Trove>, later: seq<Trove>, amount: Decimal, reserve: Decimal)
    requires Redeemable(troves, reserve) && amount <= UsableDebt(troves, reserve)
    ensures Payments(troves + later, amount, reserve) == Payments(troves, amount, reserve)
  {
    if troves == [] || amount == 0 {
    } else {
      var usable := troves[0].debt - reserve;
      assert (troves + later)[1..] == troves[1..] + later;
      if usable <= amount {
        LaterTrovesUnpaid(troves[1..], later, amount - usable, reserve);
      }
    }
  }

  /**
   * The whole estimate: it never throws for redeemable troves and a fee of at most one; when it has
   * details, what was redeemed is the request or all usable debt, and fee and receipt together are
   * the collateral that the payments buy.
   */
  lemma EstimateConserves(o: Options)
    requires Redeemable(o.sortedTroves, o.reserve) && o.redemptionFee <= ONE
    ensures RedemptionDetails(o).Ok?
    ensures var payments := Payments(o.sortedTroves, o.redeemedHchf, o.reserve);
            && payments.Ok?
            && (RedemptionDetails(o).value.Some? ==>
                  var d := RedemptionDetails(o).value.value;
                  && d.redeemedHchf == Min(o.redeemedHchf, UsableDebt(o.sortedTroves, o.reserve))
                  && d.redemptionFeeInHbar + d.receivedHbar == Bought(payments.value, o.price)
                  && d.redemptionFeeInHbar * DIGITS <= Bought(payments.value, o.price) * o.redemptionFee
                     < (d.redemptionFeeInHbar + 1) * DIGITS
                  && d.slippage <= ONE)
  {
    PaymentsConserve(o.sortedTroves, o.redeemedHchf, o.reserve);
    var bought := Bought(Payments(o.sortedTroves, o.redeemedHchf, o.reserve).value, o.price);
    MulMonotone(bought, bought, o.redemptionFee, ONE);
    Floor(bought * o.redemptionFee, DIGITS);
    FloorMonotone(bought * o.redemptionFee, bought * DIGITS, DIGITS);
  }

  /**
   * The estimate is fair to rounding: receipt and fee together are worth at most what is redeemed, short
   * by fewer units than troves touched.
   */
  lemma EstimateIsFair(o: Options)
    requires Redeemable(o.sortedTroves, o.reserve) && o.redemptionFee <= ONE && 0 < o.price
    requires RedemptionDetails(o).Ok? && RedemptionDetails(o).value.Some?
    ensures var d, ps := RedemptionDetails(o).value.value, Payments(o.sortedTroves, o.redeemedHchf, o.reserve);
            var hbar := d.receivedHbar + d.redemptionFeeInHbar;
            && ps.Ok? && |ps.value| <= |o.sortedTroves|
            && hbar <= d.redeemedHchf * DIGITS / o.price
            && (ps.value != [] ==> d.redeemedHchf * DIGITS / o.price < hbar + |ps.value|)
            && (ps.value == [] ==> hbar == 0)
  {
    EstimateConserves(o);
    PaymentsConserve(o.sortedTroves, o.redeemedHchf, o.reserve);
    BoughtIsFair(Payments(o.sortedTroves, o.redeemedHchf, o.reserve).value, o.price);
  }

  /** A larger request never yields less HBAR before the fee. */
  lemma EstimateGrows(o: Options, more: Decimal)
    requires Redeemable(o.sortedTroves, o.reserve) && o.redemptionFee <= ONE && 0 < o.price && o.redeemedHchf <= more
    ensures var r, s := RedemptionDetails(o), RedemptionDetails(o.(redeemedHchf := more));
            && r.Ok? && s.Ok?
            && (r.value.Some? && s.value.Some? ==>
                  && r.value.value.redeemedHchf <= s.value.value.redeemedHchf
                  && r.value.value.receivedHbar + r.value.value.redemptionFeeInHbar
                     <= s.value.value.receivedHbar + s.value.value.redemptionFeeInHbar)
  {
    EstimateConserves(o);
    EstimateConserves(o.(redeemedHchf := more));
    BoughtMonotone(o.sortedTroves, o.redeemedHchf, more, o.reserve, o.price);
  }

  /** A trove below the reserve is reached: the troves before it cannot cover the request. */
  ghost predicate BlockedAt(troves: seq<Trove>, amount: Decimal, reserve: Decimal, i: nat)
    requires i < |troves|
  {
    && Redeemable(troves[..i], reserve) && troves[i].debt < reserve
    && UsableDebt(troves[..i], reserve) < amount
  }

  lemma {:induction false} PaymentsBlocked(troves: seq<Trove>, amount: Decimal, reserve: Decimal)
    ensures Payments(troves, amount, reserve).Err?
            <==> exists i :: 0 <= i < |troves| && BlockedAt(troves, amount, reserve, i)
  {
    if troves == [] || amount == 0 {
    } else if troves[0].debt < reserve {
      assert troves[..0] == [];
      assert BlockedAt(troves, amount, reserve, 0);
    } else {
      var usable, rest := troves[0].debt - reserve, troves[1..];
      forall i | 0 < i < |troves|
        ensures BlockedAt(troves, amount, reserve, i)
                <==> usable <= amount && BlockedAt(rest, amount - usable, reserve, i - 1)
      {
        BlockedLater(troves, amount, reserve, i);
      }
      if usable <= amount {
        var left := amount - usable;
        PaymentsBlocked(rest, left, reserve);
        forall i | 0 <= i < |rest| && BlockedAt(rest, left, reserve, i)
          ensures BlockedAt(troves, amount, reserve, i + 1)
        {
        }
      }
    }
  }

  lemma BlockedLater(troves: seq<Trove>, amount: Decimal, reserve: Decimal, i: nat)
    requires 0 < i < |troves| && reserve <= troves[0].debt
    ensures BlockedAt(troves, amount, reserve, i)
            <==> troves[0].debt - reserve <= amount
                 && BlockedAt(troves[1..], amount - (troves[0].debt - reserve), reserve, i - 1)
  {
    assert troves[..i][0] == troves[0] && troves[..i][1..] == troves[1..][..i - 1];
    assert troves[i] == troves[1..][i - 1];
    assert forall t :: t in troves[..i] <==> t == troves[0] || t in troves[..i][1..];
  }

  /** The estimate throws exactly when it reaches such a trove, or when the fee exceeds what is bought. */
  lemma EstimateThrows(o: Options)
    ensures RedemptionDetails(o).Err? <==>
            || (exists i :: 0 <= i < |o.sortedTroves| && BlockedAt(o.sortedTroves, o.redeemedHchf, o.reserve, i))
            || (var ps := Payments(o.sortedTroves, o.redeemedHchf, o.reserve);
                ps.Ok? && (Bought(ps.value, o.price) + 1) * DIGITS <= Bought(ps.value, o.price) * o.redemptionFee)
  {
    PaymentsBlocked(o.sortedTroves, o.redeemedHchf, o.reserve);
    var ps := Payments(o.sortedTroves, o.redeemedHchf, o.reserve);
    if ps.Ok? {
      var bought := Bought(ps.value, o.price);
      AtMostFloor(bought + 1, bought * o.redemptionFee, DIGITS);
    }
  }

  /**
   * The slippage of the estimate: with the system's collateral per HCHF as target, and what is got per
   * redeemed HCHF after the fee, there are no details exactly when more is got than the target, and
   * otherwise the slippage is the part of the target that is missing, rounded up.
   */
  lemma EstimateSlippage(o: Options, payments: seq<Decimal>, fee: Decimal, got: Decimal, target: Decimal)
    requires Redeemable(o.sortedTroves, o.reserve) && o.redemptionFee <= ONE
    requires Payments(o.sortedTroves, o.redeemedHchf, o.reserve) == Ok(payments)
    requires IsFee(fee, o.redemptionFee, Bought(payments, o.price)) && fee <= Bought(payments, o.price)
    requires IsQuotient(target, o.totalHbar, o.totalHchf)
    requires IsQuotient(got, Bought(payments, o.price) - fee,
                        Min(o.redeemedHchf, UsableDebt(o.sortedTroves, o.reserve)))
    ensures var r := RedemptionDetails(o);
            && r.Ok?
            && (r.value.None? <==> (ONE + 1) * target <= got * DIGITS)
            && (r.value.Some? ==>
                  var kept := ONE - r.value.value.slippage;
                  && r.value.value.redemptionFeeInHbar == fee
                  && 0 <= kept && kept * target <= got * DIGITS < (kept + 1) * target)
  {
    var bought, redeemed := Bought(payments, o.price), Sum(payments);
    PaymentsSum(o.sortedTroves, o.redeemedHchf, o.reserve);
    QuotientUnique(target, o.totalHbar, o.totalHchf);
    QuotientUnique(got, bought - fee, redeemed);
    FloorUnique(bought * o.redemptionFee, DIGITS, fee);
    SlippageMeaning(o, redeemed, bought);
  }

  /** Troves after the first ones that cover the request do not matter, even ones below the reserve. */
  lemma LaterTrovesDoNotMatter(o: Options, later: seq<Trove>)
    requires Redeemable(o.sortedTroves, o.reserve) && o.redeemedHchf <= UsableDebt(o.sortedTroves, o.reserve)
    ensures RedemptionDetails(o.(sortedTroves := o.sortedTroves + later)) == RedemptionDetails(o)
  {
    LaterTrovesUnpaid(o.sortedTroves, later, o.redeemedHchf, o.reserve);
  }

  /**
   * What the comparison with the system's ratio means: there are no details exactly when the receipt
   * per HCHF exceeds the system's collateral per HCHF, and otherwise the slippage is the missing part
   * of the latter, rounded up.
   */
  lemma SlippageMeaning(o: Options, redeemed: Decimal, bought: Decimal)
    requires o.redemptionFee <= ONE
    ensures var r := Settle(o, redeemed, bought);
            && r.Ok?
            && var target := Div(o.totalHbar, o.totalHchf);
               var got := Div(bought - Mul(bought, o.redemptionFee), redeemed);
               && (r.value.None? <==> (ONE + 1) * target <= got * DIGITS)
               && (r.value.Some? ==>
                     var kept := ONE - r.value.value.slippage;
                     0 <= kept && kept * target <= got * DIGITS < (kept + 1) * target)
  {
    MulMonotone(bought, bought, o.redemptionFee, ONE);
    FloorMonotone(bought * o.redemptionFee, bought * DIGITS, DIGITS);
    var target := Div(o.totalHbar, o.totalHchf);
    var got := Div(bought - Mul(bought, o.redemptionFee), redeemed);
    if 0 < target {
      Floor(got * DIGITS, target);
      AtMostFloor(ONE + 1, got * DIGITS, target);
    }
  }
}
