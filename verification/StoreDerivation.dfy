/** The rule by which the store derives state: `_derive` of packages/lib-base/src/HLiquityStore.ts. */
module StoreDerivation {
  import opened Outcomes
  import opened Numbers
  import opened Decimals
  import opened Troves
  import opened Redistribution
  import opened FeeSchedule
  import opened StoreState

  datatype StoreConstants = StoreConstants(criticalRatio: Decimal, minimumRatio: Decimal, rates: FeeSchedule.Constants)

  /** The base fields are all there, and those derived from have the right types. */
  predicate BaseView(v: View) {
    && v.Keys == BASE_FIELDS
    && v[Price].Amount? && v[SystemTotal].TroveValue? && v[TotalRedistributed].TroveValue?
    && v[TroveBeforeRedistribution].PendingValue? && v[RiskiestTroveBeforeRedistribution].PendingValue?
    && v[FeesInNormalMode].FeesValue? && v[FeesInNormalMode].fees.Valid()
  }

  /** The last fee operation is recent enough for the exponent of pow. */
  predicate Timely(fees: Fees) {
    fees.MinutesSince(fees.timeOfLatestBlock) <= MAX_EXPONENT
  }

  /** The rule applies: all fields have their shape, and the fee time is recent enough. */
  predicate Derivable(v: View) {
    BaseView(v) && Timely(v[FeesInNormalMode].fees)
  }

  function FeesInMode(c: StoreConstants, normal: Fees, total: Trove, price: Decimal): (r: Fees) {
    normal.SetRecoveryMode(total.RatioIsBelow(c.criticalRatio, price))
  }

  /** A state of the wrong shape throws, like a missing property does. */
  function Derive(c: StoreConstants, v: View): (r: Result<View>) {
    if !BaseView(v) then Err(BadParameters)
    else
      var price, redistributed := v[Price].amount, v[TotalRedistributed].trove;
      var fees := FeesInMode(c, v[FeesInNormalMode].fees, v[SystemTotal].trove, price);
      var borrowingRate :- fees.BorrowingRate(c.rates, fees.timeOfLatestBlock);
      var redemptionRate :- fees.RedemptionRate(c.rates, 0, fees.timeOfLatestBlock);
      var riskiest := v[RiskiestTroveBeforeRedistribution].pending.ApplyRedistribution(redistributed);
      Ok(map[
        CurrentTrove := UserTroveValue(v[TroveBeforeRedistribution].pending.ApplyRedistribution(redistributed)),
        CurrentFees := FeesValue(fees),
        StoreState.BorrowingRate := Amount(borrowingRate),
        StoreState.RedemptionRate := Amount(redemptionRate),
        HaveUndercollateralizedTroves := Flag(riskiest.trove.RatioIsBelow(c.minimumRatio, price))])
  }

  function DerivationOf(c: StoreConstants): (d: Derivation) {
    v => Derive(c, v)
  }

  /** The rule yields the derived fields, and throws only on ill-shaped states and outdated fee times. */
  lemma DeriveDefined(c: StoreConstants, v: View)
    ensures Derive(c, v).Ok? <==> Derivable(v)
    ensures Derive(c, v).Ok? ==> Derive(c, v).value.Keys == DERIVED_FIELDS
  {
    if BaseView(v) {
      var fees := FeesInMode(c, v[FeesInNormalMode].fees, v[SystemTotal].trove, v[Price].amount);
      RatesDefined(fees, c.rates, 0, fees.timeOfLatestBlock);
    }
  }

  /**
   * What the derived state means: the trove with its share, rounded down; the fees, in recovery exactly
   * below the critical ratio; and a flag for a riskiest trove below the minimum ratio.
   */
  lemma DerivedMeaning(c: StoreConstants, v: View)
    requires Derivable(v)
    ensures Derive(c, v).Ok?
    ensures var r, price, total := Derive(c, v).value, v[Price].amount, v[SystemTotal].trove;
            var pending, redistributed := v[TroveBeforeRedistribution].pending, v[TotalRedistributed].trove;
            var riskiest := v[RiskiestTroveBeforeRedistribution].pending.ApplyRedistribution(redistributed).trove;
            && r.Keys == DERIVED_FIELDS
            && r[CurrentTrove].UserTroveValue?
            && var t := r[CurrentTrove].userTrove;
               && t.owner == pending.owner && t.status == pending.status
               && HoldsShare(t.trove, pending.trove, pending.stake, redistributed.Subtract(pending.snapshot))
               && r[CurrentFees]
                  == FeesValue(v[FeesInNormalMode].fees.(recoveryMode := Below(total, c.criticalRatio, price)))
               && r[HaveUndercollateralizedTroves] == Flag(Below(riskiest, c.minimumRatio, price))
  {
    DeriveDefined(c, v);
    var price, total, pending := v[Price].amount, v[SystemTotal].trove, v[TroveBeforeRedistribution].pending;
    var redistributed := v[TotalRedistributed].trove;
    ShareHeld(pending, redistributed);
    RatioBelowByProduct(total, c.criticalRatio, price);
    var riskiest := v[RiskiestTroveBeforeRedistribution].pending.ApplyRedistribution(redistributed).trove;
    RatioBelowByProduct(riskiest, c.minimumRatio, price);
  }

  /**
   * The derived rates: the stored rate, decayed over the n minutes from the last fee operation to the
   * latest block, on top of the minimum and capped; no borrowing rate in recovery.
   */
  lemma DerivedRates(c: StoreConstants, v: View, n: nat) returns (base: Decimal)
    requires Derivable(v)
    requires MinutesBetween(
               v[FeesInNormalMode].fees.lastFeeOperation, v[FeesInNormalMode].fees.timeOfLatestBlock, n)
    ensures var fees := v[FeesInNormalMode].fees;
            IsDecayed(base, fees.baseRateWithoutDecay, fees.minuteDecayFactor, n)
    ensures Derive(c, v).Ok? && Derive(c, v).value.Keys == DERIVED_FIELDS
    ensures var r, recovery := Derive(c, v).value, Below(v[SystemTotal].trove, c.criticalRatio, v[Price].amount);
            && r[StoreState.BorrowingRate]
               == Amount(if recovery then 0
                         else Min(c.rates.minimumBorrowingRate + base, c.rates.maximumBorrowingRate))
            && r[StoreState.RedemptionRate] == Amount(Min(c.rates.minimumRedemptionRate + base, ONE))
  {
    var fees := FeesInMode(c, v[FeesInNormalMode].fees, v[SystemTotal].trove, v[Price].amount);
    ElapsedMinutes(fees, fees.timeOfLatestBlock, n);
    BaseRateEnvelope(fees, fees.timeOfLatestBlock, n);
    base := fees.BaseRate(fees.timeOfLatestBlock).value;
    RatioBelowByProduct(v[SystemTotal].trove, c.criticalRatio, v[Price].amount);
    DerivedByFees(c, v, fees);
    RatesFromBase(fees, c.rates, fees.timeOfLatestBlock);
  }

  lemma DerivedByFees(c: StoreConstants, v: View, fees: Fees)
    requires Derivable(v) && fees == FeesInMode(c, v[FeesInNormalMode].fees, v[SystemTotal].trove, v[Price].amount)
    ensures Derive(c, v).Ok? && Derive(c, v).value.Keys == DERIVED_FIELDS
    ensures var b, r := fees.BorrowingRate(c.rates, fees.timeOfLatestBlock),
                        fees.RedemptionRate(c.rates, 0, fees.timeOfLatestBlock);
            && b.Ok? && Derive(c, v).value[StoreState.BorrowingRate] == Amount(b.value)
            && r.Ok? && Derive(c, v).value[StoreState.RedemptionRate] == Amount(r.value)
  {
    DeriveDefined(c, v);
  }

  lemma DerivationDerives(c: StoreConstants)
    ensures Derives(DerivationOf(c))
  {
    forall v: View | DerivationOf(c)(v).Ok?
      ensures DerivationOf(c)(v).value.Keys == DERIVED_FIELDS
    {
      DeriveDefined(c, v);
    }
  }

  /** An update leaves the derived state that of the base state exactly when its result can be derived from. */
  lemma UpdateConsistentExactly(c: StoreConstants, s: Store, update: Option<State>, extraUpdate: Option<ExtraUpdate>)
    requires Whole(s) && s.loaded && (update.Some? ==> update.value.Keys <= BASE_FIELDS)
    ensures Consistent(DerivationOf(c), LeftByUpdate(DerivationOf(c), s, update, extraUpdate))
            <==> Derivable(Merged(s.base.value, update))
  {
    DerivationDerives(c);
    DeriveDefined(c, Merged(s.base.value, update));
    UpdateLeaves(DerivationOf(c), s, update, extraUpdate);
  }

  /** Fees whose last operation lies one minute too far back. */
  const OUTDATED_FEES: Fees := Fees(0, 0, 0, 0, (MAX_EXPONENT + 1) * MILLISECONDS_PER_MINUTE, false)

  /** With such fees every loaded store is left inconsistent, whatever else it holds. */
  lemma OutdatedFeesBreak(c: StoreConstants, s: Store, id: Identity)
    requires Whole(s) && s.loaded
    ensures var update := map[FeesInNormalMode := Object(id, FeesValue(OUTDATED_FEES))];
            !Consistent(DerivationOf(c), LeftByUpdate(DerivationOf(c), s, Some(update), None))
  {
    var update := map[FeesInNormalMode := Object(id, FeesValue(OUTDATED_FEES))];
    assert FeesInNormalMode in BASE_FIELDS;
    UpdateConsistentExactly(c, s, Some(update), None);
    NotTimely(Merged(s.base.value, Some(update)));
  }

  /** A result with a new price and outdated fees. */
  function OutdatedPrice(id: Identity, price: Decimal): (r: State)
    ensures r.Keys == {Price, FeesInNormalMode} && r.Keys <= BASE_FIELDS && Defined(r) == r
    ensures r[Price].contents == Amount(price) && r[FeesInNormalMode].contents == FeesValue(OUTDATED_FEES)
  {
    map[Price := Object(id, Amount(price)), FeesInNormalMode := Object(id, FeesValue(OUTDATED_FEES))]
  }

  /** The fees of a base state alone. */
  function FeesAlone(base: State): (r: State)
    requires Derivable(ContentsOf(base))
    ensures r.Keys == {FeesInNormalMode} && r.Keys <= BASE_FIELDS && Defined(r) == r
    ensures r[FeesInNormalMode] == base[FeesInNormalMode]
  {
    map[FeesInNormalMode := base[FeesInNormalMode]]
  }

  /** The price in it is kept, but once an update brings the old fees back, no change record has listed it. */
  lemma SilentPrice(c: StoreConstants, s: Store, id: Identity, price: Decimal)
    requires Consistent(DerivationOf(c), s) && s.loaded
    ensures Derivable(ContentsOf(s.base.value))
    ensures Silent(DerivationOf(c), s, OutdatedPrice(id, price), FeesAlone(s.base.value), Price, Amount(price))
  {
    DerivationDerives(c);
    DeriveDefined(c, ContentsOf(s.base.value));
    PriceThenFees(c, s.base.value, id, price);
    SilentField(DerivationOf(c), s, OutdatedPrice(id, price), FeesAlone(s.base.value), Price);
  }

  /** Such a result cannot be derived from; with the old fees put back it can. */
  lemma PriceThenFees(c: StoreConstants, base: State, id: Identity, price: Decimal)
    requires Derivable(ContentsOf(base))
    ensures Derive(c, Merged(base, Some(OutdatedPrice(id, price)))).Err?
    ensures Derive(c, Merged(base, Some(OutdatedPrice(id, price))) + ContentsOf(Defined(FeesAlone(base)))).Ok?
  {
    var v := Merged(base, Some(OutdatedPrice(id, price)));
    var w := v + ContentsOf(FeesAlone(base));
    NotTimely(v);
    DeriveDefined(c, v);
    assert w == ContentsOf(base)[Price := Amount(price)];
    PriceOnly(ContentsOf(base), price);
    DeriveDefined(c, w);
  }

  lemma NotTimely(v: View)
    requires FeesInNormalMode in v && v[FeesInNormalMode] == FeesValue(OUTDATED_FEES)
    ensures !Derivable(v)
  {
    assert !Timely(OUTDATED_FEES);
  }

  lemma PriceOnly(v: View, price: Decimal)
    requires Derivable(v)
    ensures Derivable(v[Price := Amount(price)])
  {
    assert v[Price := Amount(price)].Keys == v.Keys;
  }
}
