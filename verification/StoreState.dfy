/** The state kept by the store and how an update changes it: packages/lib-base/src/HLiquityStore.ts. */
module StoreState {
  import opened Outcomes
  import opened Decimals
  import opened Troves
  import opened Redistribution
  import opened FeeSchedule

  // ----- Fields and values -----

  /** The keys of the state: base, derived and extra fields. */
  datatype Field =
    | Frontend | OwnFrontend | NumberOfTroves | AccountBalance | HchfBalance | HchfTokenAddress
    | HlqtTokenAddress | HlqtBalance | UniTokenBalance | UniTokenAllowance
    | RemainingLiquidityMiningHLQTReward | LiquidityMiningStake | TotalStakedUniTokens
    | LiquidityMiningHLQTReward | CollateralSurplusBalance | Price | HchfInStabilityPool | SystemTotal
    | TotalRedistributed | TroveBeforeRedistribution | StabilityDeposit
    | RemainingStabilityPoolHLQTReward | FeesInNormalMode | HlqtStake | TotalStakedHLQT
    | RiskiestTroveBeforeRedistribution | UserHasAssociatedWithHchf | UserHasAssociatedWithHlqt
    | UserHasAssociatedWithLpToken | HchfTokenAllowanceOfHchfContract | HlqtTokenAllowanceOfHlqtContract
    | CurrentTrove | CurrentFees | BorrowingRate | RedemptionRate | HaveUndercollateralizedTroves
    | BlockTag | BlockTimestamp

  const DERIVED_FIELDS: set<Field> :=
    {CurrentTrove, CurrentFees, BorrowingRate, RedemptionRate, HaveUndercollateralizedTroves}

  const EXTRA_FIELDS: set<Field> := {BlockTag, BlockTimestamp}

  const BASE_FIELDS: set<Field> := (set f: Field | true) - DERIVED_FIELDS - EXTRA_FIELDS

  /** The two fields that the store compares by identity. */
  predicate IsAllowance(f: Field) {
    f == HchfTokenAllowanceOfHchfContract || f == HlqtTokenAllowanceOfHlqtContract
  }

  datatype Contents =
    | Undefined
    | Amount(amount: Decimal)
    | Count(count: nat)
    | Text(text: string)
    | Flag(flag: bool)
    | FrontendStatus(kickbackRate: Option<Decimal>)
    | TroveValue(trove: Trove)
    | UserTroveValue(userTrove: UserTrove)
    | PendingValue(pending: PendingTrove)
    | FeesValue(fees: Fees)
    | DepositValue(
        initial: Decimal, current: Decimal, collateralGain: Decimal, hlqtReward: Decimal, frontendTag: string)
    | StakeValue(stakedHLQT: Decimal, stakeCollateralGain: Decimal, hchfGain: Decimal)

  /** Where an object was made: by the n-th fetch result, or for a field by the n-th derivation. */
  datatype Identity = Fetched(n: nat) | Computed(round: nat, field: Field)

  /** Objects are immutable, so identity and contents name one; strict equality of values is ==. */
  datatype Value = Primitive(contents: Contents) | Object(identity: Identity, contents: Contents)

  /** Counts, texts and flags are primitives of the language, everything else is an object. */
  function Made(identity: Identity, c: Contents): (v: Value)
    ensures v.contents == c && v != Primitive(Undefined)
  {
    if c.Count? || c.Text? || c.Flag? then Primitive(c) else Object(identity, c)
  }

  type State = map<Field, Value>

  type View = map<Field, Contents>

  /** The state without the identities. */
  function ContentsOf(s: State): (v: View)
    ensures v.Keys == s.Keys && forall f :: f in s ==> v[f] == s[f].contents
  {
    map f | f in s :: s[f].contents
  }

  // ----- Reduction -----

  /** The equality the store uses for a field. */
  predicate FieldEquals(f: Field, a: Value, b: Value) {
    if IsAllowance(f) then a == b else a.contents == b.contents
  }

  function UpdateIfChanged(f: Field, prev: Value, next: Option<Value>): (r: Value) {
    if next.Some? && !FieldEquals(f, prev, next.value) then next.value else prev
  }

  /** The entries that are not undefined: only these are taken over. */
  function Defined(s: State): (r: State)
    ensures r.Keys <= s.Keys && forall f :: f in s ==> (f in r <==> s[f] != Primitive(Undefined))
    ensures forall f :: f in r ==> r[f] == s[f]
  {
    map f | f in s && s[f] != Primitive(Undefined) :: s[f]
  }

  function Lookup(s: State, f: Field): (r: Option<Value>) {
    if f in Defined(s) then Some(s[f]) else None
  }

  /** The new state keeps every old value that the update does not change. */
  function Reduce(state: State, update: State): (r: State)
    ensures r.Keys == state.Keys
    ensures forall f :: f in state ==> r[f] == UpdateIfChanged(f, state[f], Lookup(update, f))
  {
    map f | f in state :: UpdateIfChanged(f, state[f], Lookup(update, f))
  }

  /** Reduction takes over the contents of the update's defined entries and nothing else. */
  lemma ReduceContents(state: State, update: State)
    ensures forall f :: f in state ==>
              Reduce(state, update)[f].contents
              == if f in Defined(update) then update[f].contents else state[f].contents
  {
  }

  // ----- The store -----

  datatype Extra = Extra(blockTag: Option<nat>, blockTimestamp: nat)
  datatype ExtraUpdate = ExtraUpdate(blockTag: Option<nat>, blockTimestamp: Option<nat>)

  /** A missing block tag or timestamp keeps the old one. */
  function ReduceExtra(prev: Extra, update: ExtraUpdate): (r: Extra) {
    Extra(if update.blockTag.Some? then update.blockTag else prev.blockTag,
          if update.blockTimestamp.Some? then update.blockTimestamp.value else prev.blockTimestamp)
  }

  datatype Store = Store(
    loaded: bool,
    base: Option<State>,
    derived: Option<State>,
    extra: Option<Extra>,
    rounds: nat)

  const UNLOADED: Store := Store(false, None, None, None, 0)

  /** What a store shows before it is loaded. */
  function DefaultContents(f: Field): (r: Contents) {
    match f
    case Frontend | OwnFrontend => FrontendStatus(Some(0))
    case NumberOfTroves => Count(0)
    case HchfTokenAddress | HlqtTokenAddress => Text("")
    case SystemTotal | TotalRedistributed => TroveValue(EMPTY)
    case TroveBeforeRedistribution | RiskiestTroveBeforeRedistribution =>
      PendingValue(PendingTrove("", NonExistent, EMPTY, 0, EMPTY))
    case StabilityDeposit => DepositValue(0, 0, 0, 0, "")
    case FeesInNormalMode | CurrentFees => FeesValue(Fees(0, 0, 0, 0, 0, false))
    case HlqtStake => StakeValue(0, 0, 0)
    case UserHasAssociatedWithHchf | UserHasAssociatedWithHlqt | UserHasAssociatedWithLpToken
       | HaveUndercollateralizedTroves => Flag(false)
    case CurrentTrove => UserTroveValue(UserTrove("", NonExistent, EMPTY))
    case BlockTag | BlockTimestamp => Undefined
    case _ => Amount(0)
  }

  /** Contents that amount to nothing; a frontend is registered without a kickback. */
  predicate Nothing(c: Contents) {
    match c
    case Undefined => false
    case Amount(a) => a == 0
    case Count(n) => n == 0
    case Text(t) => t == ""
    case Flag(b) => !b
    case FrontendStatus(rate) => rate == Some(0)
    case TroveValue(t) => t == EMPTY
    case UserTroveValue(u) => u.trove == EMPTY && u.status == NonExistent
    case PendingValue(p) => p.trove == EMPTY && p.status == NonExistent && p.stake == 0 && p.snapshot == EMPTY
    case FeesValue(f) => f.baseRateWithoutDecay == 0 && f.minuteDecayFactor == 0 && f.beta == 0 && !f.recoveryMode
    case DepositValue(initial, current, gain, reward, _) => initial + current + gain + reward == 0
    case StakeValue(staked, gain, hchf) => staked + gain + hchf == 0
  }

  function DefaultState(): (s: State)
    ensures s.Keys == BASE_FIELDS + DERIVED_FIELDS
    ensures forall f :: f in s ==> s[f].contents == DefaultContents(f)
  {
    map f | f in BASE_FIELDS + DERIVED_FIELDS :: Made(Computed(0, f), DefaultContents(f))
  }

  function ExtraState(e: Extra): (s: State)
    ensures s.Keys == EXTRA_FIELDS
  {
    map[BlockTag := Primitive(if e.blockTag.Some? then Count(e.blockTag.value) else Undefined),
        BlockTimestamp := Primitive(Count(e.blockTimestamp))]
  }

  function OrEmpty(s: Option<State>): (r: State) {
    if s.Some? then s.value else map[]
  }

  /** The state shown to listeners and readers. */
  function StateOf(s: Store): (r: State) {
    DefaultState() + OrEmpty(s.base) + OrEmpty(s.derived)
    + (if s.extra.Some? then ExtraState(s.extra.value) else map[])
  }

  /** How derived contents follow from base contents; the store works the same way for any such rule. */
  type Derivation = View -> Result<View>

  ghost predicate Derives(d: Derivation) {
    forall v: View :: d(v).Ok? ==> d(v).value.Keys == DERIVED_FIELDS
  }

  /** Derived objects are new ones. */
  function WithIdentities(v: View, round: nat): (s: State)
    ensures s.Keys == v.Keys && forall f :: f in v ==> s[f].contents == v[f] && s[f] != Primitive(Undefined)
  {
    map f | f in v :: Made(Computed(round, f), v[f])
  }

  function ReducedBase(base: State, update: Option<State>): (r: State) {
    if update.Some? then Reduce(base, update.value) else base
  }

  /** Base reduced, derived state recomputed and reduced, extra state reduced. */
  function Update(d: Derivation, s: Store, update: Option<State>, extraUpdate: Option<ExtraUpdate>)
    : (r: Result<Store>)
  {
    if s.base.None? || s.derived.None? || (extraUpdate.Some? && s.extra.None?) then Err(AssertionFailed)
    else
      var base := ReducedBase(s.base.value, update);
      var next :- d(ContentsOf(base));
      Ok(Updated(s, base, next, extraUpdate))
  }

  function Updated(s: Store, base: State, next: View, extraUpdate: Option<ExtraUpdate>): (r: Store)
    requires s.derived.Some? && (extraUpdate.Some? ==> s.extra.Some?)
  {
    s.(base := Some(base),
       derived := Some(Reduce(s.derived.value, WithIdentities(next, s.rounds))),
       extra := if extraUpdate.Some? then Some(ReduceExtra(s.extra.value, extraUpdate.value)) else s.extra,
       rounds := s.rounds + 1)
  }

  /** The store an update leaves behind: one that throws has made the assignments before the throw. */
  function LeftByUpdate(d: Derivation, s: Store, update: Option<State>, extraUpdate: Option<ExtraUpdate>)
    : (r: Store)
  {
    if s.base.None? || s.derived.None? then s
    else
      var base := ReducedBase(s.base.value, update);
      match d(ContentsOf(base))
      case Err(_) => s.(base := Some(base))
      case Ok(next) => Updated(s, base, next, if s.extra.Some? then extraUpdate else None)
  }

  /** The store between the assignments of the load and the update that ends it. */
  function Assigned(s: Store, base: State, derived: View, extra: Option<Extra>): (r: Store) {
    Store(true, Some(base), Some(WithIdentities(derived, s.rounds)), extra, s.rounds + 1)
  }

  function Load(d: Derivation, s: Store, base: State, extra: Option<Extra>): (r: Result<Store>) {
    if s.loaded then Err(AssertionFailed)
    else
      var derived :- d(ContentsOf(base));
      Update(d, Assigned(s, base, derived, extra), None, None)
  }

  function LeftByLoad(d: Derivation, s: Store, base: State, extra: Option<Extra>): (r: Store) {
    if s.loaded then s
    else
      match d(ContentsOf(base))
      case Err(_) => s.(base := Some(base))
      case Ok(derived) => LeftByUpdate(d, Assigned(s, base, derived, extra), None, None)
  }

  // ----- What every step keeps -----

  /** What holds of a store at all times: it is loaded as a whole, and its parts have their fields. */
  ghost predicate Whole(s: Store) {
    && (s.loaded <==> s.derived.Some?) && (s.loaded <==> s.extra.Some?) && (s.loaded ==> s.base.Some?)
    && (s.base.Some? ==> s.base.value.Keys == BASE_FIELDS)
    && (s.derived.Some? ==> s.derived.value.Keys == DERIVED_FIELDS)
  }

  /** Loaded exactly when there is a state; then the derived state is that of the base state, by value. */
  ghost predicate Consistent(d: Derivation, s: Store) {
    && Whole(s) && (s.base.Some? ==> s.loaded)
    && (s.loaded ==> d(ContentsOf(s.base.value)) == Ok(ContentsOf(s.derived.value)))
  }

  /** The base contents once an update has been merged in. */
  function Merged(base: State, update: Option<State>): (v: View) {
    if update.Some? then ContentsOf(base) + ContentsOf(Defined(update.value)) else ContentsOf(base)
  }

  lemma ReducedBaseContents(base: State, update: Option<State>)
    requires update.Some? ==> update.value.Keys <= base.Keys
    ensures ContentsOf(ReducedBase(base, update)) == Merged(base, update)
    ensures ReducedBase(base, update).Keys == base.Keys
  {
    if update.Some? {
      ReduceContents(base, update.value);
    }
  }

  lemma ReducedDerivedContents(prev: State, next: View, round: nat)
    requires prev.Keys == next.Keys
    ensures ContentsOf(Reduce(prev, WithIdentities(next, round))) == next
  {
    ReduceContents(prev, WithIdentities(next, round));
  }

  /** The outcome of an update by that of its derivation, before looking at the contents. */
  lemma UpdateParts(d: Derivation, s: Store, update: Option<State>, extraUpdate: Option<ExtraUpdate>)
    requires Whole(s) && s.loaded
    ensures var base := ReducedBase(s.base.value, update);
            var r, next, t := Update(d, s, update, extraUpdate), d(ContentsOf(base)),
                              LeftByUpdate(d, s, update, extraUpdate);
            && (r.Ok? <==> next.Ok?) && (r.Ok? ==> r.value == t) && (r.Err? ==> next == Err(r.failure))
            && t.loaded && t.base == Some(base)
            && t.derived == (if next.Ok? then Some(Reduce(s.derived.value, WithIdentities(next.value, s.rounds)))
                             else s.derived)
            && t.extra == (if next.Ok? && extraUpdate.Some? then Some(ReduceExtra(s.extra.value, extraUpdate.value))
                           else s.extra)
  {
  }

  /**
   * An update of a loaded store trips no assert: it throws only what the derivation throws. It leaves
   * the base contents overridden by the update, and a consistent store exactly when it did not throw.
   */
  lemma UpdateLeaves(d: Derivation, s: Store, update: Option<State>, extraUpdate: Option<ExtraUpdate>)
    requires Derives(d) && Whole(s) && s.loaded
    requires update.Some? ==> update.value.Keys <= BASE_FIELDS
    ensures var r, next := Update(d, s, update, extraUpdate), d(Merged(s.base.value, update));
            var t := LeftByUpdate(d, s, update, extraUpdate);
            var eu := if r.Ok? && extraUpdate.Some? then extraUpdate.value else ExtraUpdate(None, None);
            && (r.Ok? <==> next.Ok?) && (r.Ok? ==> r.value == t) && (r.Err? ==> next == Err(r.failure))
            && Whole(t) && t.loaded && ContentsOf(t.base.value) == Merged(s.base.value, update)
            && (Consistent(d, t) <==> next.Ok?)
            && t.extra.value.blockTag == (if eu.blockTag.Some? then eu.blockTag else s.extra.value.blockTag)
            && t.extra.value.blockTimestamp
               == (if eu.blockTimestamp.Some? then eu.blockTimestamp.value else s.extra.value.blockTimestamp)
            && (r.Err? ==> t.derived == s.derived)
  {
    UpdateParts(d, s, update, extraUpdate);
    ReducedBaseContents(s.base.value, update);
    var next := d(Merged(s.base.value, update));
    if next.Ok? {
      ReducedDerivedContents(s.derived.value, next.value, s.rounds);
    }
  }

  lemma UpdateKeepsWhole(d: Derivation, s: Store, update: Option<State>, extraUpdate: Option<ExtraUpdate>)
    requires Derives(d) && Whole(s) && (update.Some? ==> update.value.Keys <= BASE_FIELDS)
    ensures Whole(LeftByUpdate(d, s, update, extraUpdate))
    ensures Update(d, s, update, extraUpdate).Ok? ==> Consistent(d, LeftByUpdate(d, s, update, extraUpdate))
  {
    if s.loaded { UpdateLeaves(d, s, update, extraUpdate); }
  }

  lemma AssignedConsistent(d: Derivation, s: Store, base: State, extra: Extra)
    requires Derives(d) && base.Keys == BASE_FIELDS && d(ContentsOf(base)).Ok?
    ensures Consistent(d, Assigned(s, base, d(ContentsOf(base)).value, Some(extra)))
  {
    var v := d(ContentsOf(base)).value;
    assert ContentsOf(WithIdentities(v, s.rounds)) == v;
  }

  /**
   * Loading an unloaded store throws only what the derivation throws, which leaves it unloaded but for
   * its base state; otherwise the store shows what was loaded.
   */
  lemma LoadLeaves(d: Derivation, s: Store, base: State, extra: Extra)
    requires Derives(d) && Whole(s) && !s.loaded && base.Keys == BASE_FIELDS
    ensures var r, next := Load(d, s, base, Some(extra)), d(ContentsOf(base));
            var t := LeftByLoad(d, s, base, Some(extra));
            && (r.Ok? <==> next.Ok?) && (r.Ok? ==> r.value == t) && (r.Err? ==> next == Err(r.failure))
            && Whole(t) && t.base == Some(base) && (t.loaded <==> next.Ok?)
            && (Consistent(d, t) <==> next.Ok?)
            && (r.Ok? ==> t.extra == Some(extra))
  {
    if d(ContentsOf(base)).Ok? {
      AssignedConsistent(d, s, base, extra);
      UpdateLeaves(d, Assigned(s, base, d(ContentsOf(base)).value, Some(extra)), None, None);
    }
  }

  // ----- Notifications -----

  /** The fields of a whose value is not the same one in b. */
  function Difference(a: State, b: State): (r: State)
    ensures forall f :: f in r ==> f in a && r[f] == a[f]
    ensures forall f :: f in a && f in b ==> (f in r <==> a[f] != b[f])
  {
    map f | f in a && a[f] != (if f in b then b[f] else Primitive(Undefined)) :: a[f]
  }

  datatype Notification = Notification(newState: State, oldState: State, stateChange: State)

  function NotificationOf(before: Store, after: Store): (n: Notification) {
    Notification(StateOf(after), StateOf(before), Difference(StateOf(after), StateOf(before)))
  }

  /** What a loaded store shows, part by part. */
  lemma LoadedState(s: Store)
    requires Whole(s) && s.loaded
    ensures StateOf(s).Keys == BASE_FIELDS + DERIVED_FIELDS + EXTRA_FIELDS
    ensures forall f :: f in BASE_FIELDS ==> StateOf(s)[f] == s.base.value[f]
    ensures forall f :: f in DERIVED_FIELDS ==> StateOf(s)[f] == s.derived.value[f]
    ensures forall f :: f in EXTRA_FIELDS ==> StateOf(s)[f] == ExtraState(s.extra.value)[f]
    ensures StateOf(s)[BlockTag].contents
         == if s.extra.value.blockTag.Some? then Count(s.extra.value.blockTag.value) else Undefined
    ensures StateOf(s)[BlockTimestamp].contents == Count(s.extra.value.blockTimestamp)
  {
  }

  lemma DifferenceReplays(a: State, b: State)
    requires a.Keys == b.Keys
    ensures b + Difference(a, b) == a
  {
  }

  lemma DifferenceOfSame(a: State)
    ensures Difference(a, a) == map[]
  {
  }

  lemma SameParts(s: Store, t: Store)
    requires s.base == t.base && s.derived == t.derived && s.extra == t.extra
    ensures StateOf(s) == StateOf(t)
  {
  }

  /** One change record turns the old state into the new one. */
  lemma ChangeReplays(before: Store, after: Store)
    requires Whole(before) && Whole(after) && before.loaded && after.loaded
    ensures var n := NotificationOf(before, after);
            n.oldState + n.stateChange == n.newState
  {
    assert StateOf(before).Keys == StateOf(after).Keys by {
      LoadedState(before);
      LoadedState(after);
    }
    DifferenceReplays(StateOf(after), StateOf(before));
  }

  ghost predicate SameOrReal(f: Field, before: Value, after: Value) {
    after == before || IsAllowance(f) || after.contents != before.contents
  }

  /** A reduced field either kept its very value or really changed, unless compared by identity. */
  lemma KeptOrReal(state: State, update: State, f: Field)
    requires f in state
    ensures SameOrReal(f, state[f], Reduce(state, update)[f])
  {
  }

  lemma BaseKeptOrReal(d: Derivation, s: Store, update: Option<State>, extraUpdate: Option<ExtraUpdate>, f: Field)
    requires Update(d, s, update, extraUpdate).Ok? && f in s.base.value
    ensures var t := Update(d, s, update, extraUpdate).value;
            t.base.Some? && f in t.base.value && SameOrReal(f, s.base.value[f], t.base.value[f])
  {
    if update.Some? { KeptOrReal(s.base.value, update.value, f); }
  }

  lemma DerivedKeptOrReal(d: Derivation, s: Store, update: Option<State>, extraUpdate: Option<ExtraUpdate>, f: Field)
    requires Update(d, s, update, extraUpdate).Ok? && f in s.derived.value
    ensures var t := Update(d, s, update, extraUpdate).value;
            t.derived.Some? && f in t.derived.value && SameOrReal(f, s.derived.value[f], t.derived.value[f])
  {
    var next := d(ContentsOf(ReducedBase(s.base.value, update))).value;
    KeptOrReal(s.derived.value, WithIdentities(next, s.rounds), f);
  }

  lemma FieldKeptOrReal(d: Derivation, s: Store, update: Option<State>, extraUpdate: Option<ExtraUpdate>, f: Field)
    requires Derives(d) && Whole(s) && s.loaded
    requires update.Some? ==> update.value.Keys <= BASE_FIELDS
    requires Update(d, s, update, extraUpdate).Ok?
    requires f in BASE_FIELDS || f in DERIVED_FIELDS || f in EXTRA_FIELDS
    ensures var t := Update(d, s, update, extraUpdate).value;
            f in StateOf(s) && f in StateOf(t) && SameOrReal(f, StateOf(s)[f], StateOf(t)[f])
  {
    UpdateLeaves(d, s, update, extraUpdate);
    LoadedState(s);
    LoadedState(Update(d, s, update, extraUpdate).value);
    if f in BASE_FIELDS {
      BaseKeptOrReal(d, s, update, extraUpdate, f);
    } else if f in DERIVED_FIELDS {
      DerivedKeptOrReal(d, s, update, extraUpdate, f);
    } else {
      ExtraKeptOrReal(s.extra.value, Update(d, s, update, extraUpdate).value.extra.value, f);
    }
  }

  lemma ExtraKeptOrReal(before: Extra, after: Extra, f: Field)
    requires f in EXTRA_FIELDS
    ensures SameOrReal(f, ExtraState(before)[f], ExtraState(after)[f])
  {
  }

  /** Every listed field really changed, unless the store compares it by identity. */
  lemma ChangesAreReal(d: Derivation, s: Store, update: Option<State>, extraUpdate: Option<ExtraUpdate>)
    requires Derives(d) && Whole(s) && s.loaded
    requires update.Some? ==> update.value.Keys <= BASE_FIELDS
    requires Update(d, s, update, extraUpdate).Ok?
    ensures var n := NotificationOf(s, Update(d, s, update, extraUpdate).value);
            forall f :: f in n.stateChange && !IsAllowance(f) ==>
              f in n.newState && f in n.oldState && n.newState[f].contents != n.oldState[f].contents
  {
    var n := NotificationOf(s, Update(d, s, update, extraUpdate).value);
    forall f | f in n.stateChange && !IsAllowance(f)
      ensures f in n.newState && f in n.oldState && n.newState[f].contents != n.oldState[f].contents
    {
      assert f in BASE_FIELDS + DERIVED_FIELDS + EXTRA_FIELDS by {
        UpdateLeaves(d, s, update, extraUpdate);
        LoadedState(Update(d, s, update, extraUpdate).value);
      }
      FieldKeptOrReal(d, s, update, extraUpdate, f);
    }
  }

  /**
   * Which base fields an update announces: those it brings with another value; the two allowances, which
   * are compared by identity, already with another object. A field not announced keeps its very value.
   */
  lemma BaseChangesExactly(d: Derivation, s: Store, update: State, extraUpdate: Option<ExtraUpdate>, f: Field)
    requires Derives(d) && Whole(s) && s.loaded && update.Keys <= BASE_FIELDS && f in BASE_FIELDS
    requires Update(d, s, Some(update), extraUpdate).Ok?
    ensures var n, value := NotificationOf(s, Update(d, s, Some(update), extraUpdate).value), s.base.value[f];
            && (f in n.stateChange <==>
                  && f in update && update[f] != Primitive(Undefined)
                  && if f == HchfTokenAllowanceOfHchfContract || f == HlqtTokenAllowanceOfHlqtContract
                     then update[f] != value else update[f].contents != value.contents)
            && f in n.newState && n.newState[f] == if f in n.stateChange then update[f] else value
  {
    UpdateParts(d, s, Some(update), extraUpdate);
    UpdateLeaves(d, s, Some(update), extraUpdate);
    ChangedField(s, LeftByUpdate(d, s, Some(update), extraUpdate), f);
    ReducedField(s.base.value, update, f);
  }

  lemma ChangedField(before: Store, after: Store, f: Field)
    requires Whole(before) && Whole(after) && before.loaded && after.loaded && f in BASE_FIELDS
    ensures var n := NotificationOf(before, after);
            && f in n.newState && n.newState[f] == after.base.value[f]
            && (f in n.stateChange <==> after.base.value[f] != before.base.value[f])
  {
    LoadedState(before);
    LoadedState(after);
  }

  lemma ReducedField(state: State, update: State, f: Field)
    requires f in state
    ensures var changed := && f in update && update[f] != Primitive(Undefined)
                           && if f == HchfTokenAllowanceOfHchfContract || f == HlqtTokenAllowanceOfHlqtContract
                              then update[f] != state[f] else update[f].contents != state[f].contents;
            && Reduce(state, update)[f] == (if changed then update[f] else state[f])
            && (changed <==> Reduce(state, update)[f] != state[f])
  {
  }

  /** Reducing twice by the same update is reducing once. */
  lemma ReduceTwice(state: State, update: State)
    ensures Reduce(Reduce(state, update), update) == Reduce(state, update)
  {
  }

  /** Reducing the derived state by new objects of the same contents changes nothing. */
  lemma ReduceSame(state: State, v: View, round: nat)
    requires ContentsOf(state) == v && state.Keys == DERIVED_FIELDS
    ensures Reduce(state, WithIdentities(v, round)) == state
  {
    forall f | f in state
      ensures Reduce(state, WithIdentities(v, round))[f] == state[f]
    {
      DerivedByValue(f);
    }
  }

  lemma DerivedByValue(f: Field)
    requires f in DERIVED_FIELDS
    ensures !IsAllowance(f)
  {
  }

  /** Repeating an update changes nothing: its second notification has an empty change. */
  lemma RepeatIsQuiet(d: Derivation, s: Store, update: Option<State>, extraUpdate: Option<ExtraUpdate>)
    requires Derives(d) && Whole(s) && s.loaded
    requires update.Some? ==> update.value.Keys <= BASE_FIELDS
    requires Update(d, s, update, extraUpdate).Ok?
    ensures var t := Update(d, s, update, extraUpdate).value;
            var u := Update(d, t, update, extraUpdate);
            u.Ok? && NotificationOf(t, u.value).stateChange == map[]
  {
    UpdateLeaves(d, s, update, extraUpdate);
    var t := Update(d, s, update, extraUpdate).value;
    RepeatedParts(s.base.value, s.extra.value, update, extraUpdate);
    UnchangedByUpdate(d, t, update, extraUpdate);
    SameParts(t.(rounds := t.rounds + 1), t);
    DifferenceOfSame(StateOf(t));
  }

  lemma RepeatedParts(base: State, extra: Extra, update: Option<State>, extraUpdate: Option<ExtraUpdate>)
    ensures ReducedBase(ReducedBase(base, update), update) == ReducedBase(base, update)
    ensures extraUpdate.Some? ==>
              ReduceExtra(ReduceExtra(extra, extraUpdate.value), extraUpdate.value)
              == ReduceExtra(extra, extraUpdate.value)
  {
    if update.Some? { ReduceTwice(base, update.value); }
  }

  lemma UnchangedByUpdate(d: Derivation, t: Store, update: Option<State>, extraUpdate: Option<ExtraUpdate>)
    requires Derives(d) && Consistent(d, t) && t.loaded
    requires ReducedBase(t.base.value, update) == t.base.value
    requires extraUpdate.Some? ==> ReduceExtra(t.extra.value, extraUpdate.value) == t.extra.value
    ensures Update(d, t, update, extraUpdate) == Ok(t.(rounds := t.rounds + 1))
  {
    var base, next := t.base.value, ContentsOf(t.derived.value);
    assert Update(d, t, update, extraUpdate) == Ok(Updated(t, base, next, extraUpdate));
    ReduceSame(t.derived.value, next, t.rounds);
    UpdatedSame(t, next, extraUpdate);
  }

  lemma UpdatedSame(t: Store, next: View, extraUpdate: Option<ExtraUpdate>)
    requires t.base.Some? && t.derived.Some? && t.extra.Some?
    requires Reduce(t.derived.value, WithIdentities(next, t.rounds)) == t.derived.value
    requires extraUpdate.Some? ==> ReduceExtra(t.extra.value, extraUpdate.value) == t.extra.value
    ensures Updated(t, t.base.value, next, extraUpdate) == t.(rounds := t.rounds + 1)
  {
  }

  // ----- Replay over a run of updates -----

  datatype PendingUpdate = PendingUpdate(base: Option<State>, extra: Option<ExtraUpdate>)

  predicate BaseUpdates(us: seq<PendingUpdate>) {
    forall i :: 0 <= i < |us| && us[i].base.Some? ==> us[i].base.value.Keys <= BASE_FIELDS
  }

  function AfterUpdates(d: Derivation, s: Store, us: seq<PendingUpdate>): (r: Store)
    decreases us
  {
    if us == [] then s else AfterUpdates(d, LeftByUpdate(d, s, us[0].base, us[0].extra), us[1..])
  }

  /** The change records announced, in order; an update that throws announces none. */
  function ChangeLog(d: Derivation, s: Store, us: seq<PendingUpdate>): (r: seq<State>)
    decreases us
  {
    if us == [] then []
    else
      var t := LeftByUpdate(d, s, us[0].base, us[0].extra);
      (if Update(d, s, us[0].base, us[0].extra).Ok? then [NotificationOf(s, t).stateChange] else [])
      + ChangeLog(d, t, us[1..])
  }

  predicate NoneThrows(d: Derivation, s: Store, us: seq<PendingUpdate>)
    decreases us
  {
    us == []
    || (Update(d, s, us[0].base, us[0].extra).Ok?
        && NoneThrows(d, LeftByUpdate(d, s, us[0].base, us[0].extra), us[1..]))
  }

  function Replay(state: State, changes: seq<State>): (r: State)
    decreases changes
  {
    if changes == [] then state else Replay(state + changes[0], changes[1..])
  }

  /** Folding the announced changes over the state before them gives the state after every update. */
  lemma {:induction false} ReplayGivesState(d: Derivation, s: Store, us: seq<PendingUpdate>)
    requires Derives(d) && Whole(s) && s.loaded
    requires BaseUpdates(us) && NoneThrows(d, s, us)
    ensures Replay(StateOf(s), ChangeLog(d, s, us)) == StateOf(AfterUpdates(d, s, us))
    decreases us
  {
    if us == [] {
    } else {
      var t := LeftByUpdate(d, s, us[0].base, us[0].extra);
      UpdateLeaves(d, s, us[0].base, us[0].extra);
      ChangeReplays(s, t);
      ReplayGivesState(d, t, us[1..]);
      assert ChangeLog(d, s, us)[1..] == ChangeLog(d, t, us[1..]);
    }
  }

  /**
   * What an update took over before it threw is announced with the next update only where that update
   * changes it again: over the state before the throw, the record then replays exactly if nothing else
   * was taken over.
   */
  lemma ReplayAfterThrow(d: Derivation, s: Store, first: PendingUpdate, second: PendingUpdate)
    requires Derives(d) && Whole(s) && s.loaded
    requires BaseUpdates([first, second])
    requires d(Merged(s.base.value, first.base)).Err?
    ensures var left := LeftByUpdate(d, s, first.base, first.extra);
            var after := LeftByUpdate(d, left, second.base, second.extra);
            && left.base.Some? && left.base.value.Keys == BASE_FIELDS
            && after.base.Some? && after.base.value.Keys == BASE_FIELDS
            && (StateOf(s) + NotificationOf(left, after).stateChange == StateOf(after)
                <==> forall f :: f in BASE_FIELDS && left.base.value[f] != s.base.value[f]
                       ==> after.base.value[f] != left.base.value[f])
  {
    assert [first, second][0] == first && [first, second][1] == second;
    UpdateLeaves(d, s, first.base, first.extra);
    var left := LeftByUpdate(d, s, first.base, first.extra);
    UpdateLeaves(d, left, second.base, second.extra);
    var after := LeftByUpdate(d, left, second.base, second.extra);
    LoadedState(s);
    LoadedState(left);
    LoadedState(after);
    SkippedChanges(StateOf(s), StateOf(left), StateOf(after));
  }

  lemma SkippedChanges(a: State, b: State, c: State)
    requires a.Keys == b.Keys == c.Keys
    ensures a + Difference(c, b) == c <==> forall f :: f in a && b[f] != a[f] ==> c[f] != b[f]
  {
    var replayed := a + Difference(c, b);
    forall f | f in a
      ensures replayed[f] == c[f] <==> (b[f] != a[f] ==> c[f] != b[f])
    {
      assert f in Difference(c, b) <==> c[f] != b[f];
    }
    assert replayed.Keys == c.Keys;
  }

  /** After an update that throws and one that does not, the field has these contents, unannounced. */
  ghost predicate Silent(d: Derivation, s: Store, bad: State, good: State, f: Field, contents: Contents) {
    var left := LeftByUpdate(d, s, Some(bad), None);
    var after := Update(d, left, Some(good), None);
    && Update(d, s, Some(bad), None).Err? && after.Ok?
    && f in StateOf(after.value) && StateOf(after.value)[f].contents == contents
    && f !in NotificationOf(left, after.value).stateChange
  }

  /** A field that only the throwing update brings is kept and announced to nobody. */
  lemma SilentField(d: Derivation, s: Store, bad: State, good: State, f: Field)
    requires Derives(d) && Whole(s) && s.loaded && bad.Keys <= BASE_FIELDS && good.Keys <= BASE_FIELDS
    requires f in Defined(bad) && f !in good
    requires d(Merged(s.base.value, Some(bad))).Err?
    requires d(Merged(s.base.value, Some(bad)) + ContentsOf(Defined(good))).Ok?
    ensures Silent(d, s, bad, good, f, bad[f].contents)
  {
    UpdateLeaves(d, s, Some(bad), None);
    var left := LeftByUpdate(d, s, Some(bad), None);
    UpdateLeaves(d, left, Some(good), None);
    var after := LeftByUpdate(d, left, Some(good), None);
    LoadedState(left);
    LoadedState(after);
    UpdateParts(d, left, Some(good), None);
    assert after.base.value[f] == left.base.value[f];
    assert ContentsOf(left.base.value)[f] == bad[f].contents;
  }

  /** The update that ends a load announces no change. */
  lemma LoadEndsQuietly(d: Derivation, s: Store, base: State, extra: Extra)
    requires Derives(d) && Whole(s) && !s.loaded && base.Keys == BASE_FIELDS && d(ContentsOf(base)).Ok?
    ensures var midway := Assigned(s, base, d(ContentsOf(base)).value, Some(extra));
            var after := Load(d, s, base, Some(extra));
            after.Ok? && NotificationOf(midway, after.value).stateChange == map[]
  {
    var midway := Assigned(s, base, d(ContentsOf(base)).value, Some(extra));
    AssignedConsistent(d, s, base, extra);
    UnchangedByUpdate(d, midway, None, None);
    SameParts(midway.(rounds := midway.rounds + 1), midway);
    DifferenceOfSame(StateOf(midway));
  }

  /**
   * A listener subscribed before the store is loaded cannot replay: the update that ends the load
   * announces no change, although the state it shows differs from the one at subscription.
   */
  lemma EarlySubscriberMissesLoad(d: Derivation, base: State, extra: Extra)
    requires Derives(d) && base.Keys == BASE_FIELDS && d(ContentsOf(base)).Ok?
    ensures var midway := Assigned(UNLOADED, base, d(ContentsOf(base)).value, Some(extra));
            var after := Load(d, UNLOADED, base, Some(extra));
            && after.Ok?
            && var n := NotificationOf(midway, after.value);
               n.stateChange == map[] && StateOf(UNLOADED) + n.stateChange != n.newState
  {
    LoadEndsQuietly(d, UNLOADED, base, extra);
    LoadLeaves(d, UNLOADED, base, extra);
    var after := Load(d, UNLOADED, base, Some(extra)).value;
    assert BlockTag in StateOf(after) by { LoadedState(after); }
    UnloadedState();
  }

  lemma UnloadedState()
    ensures BlockTag !in StateOf(UNLOADED)
  {
    assert StateOf(UNLOADED) == DefaultState();
  }
}
