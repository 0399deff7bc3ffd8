/**
 * Reads from the chain and reads through the store:
 * packages/lib-ethers/src/ReadableEthersLiquity.ts and packages/lib-base/src/_CachedReadableLiquity.ts.
 */
module ReadCache {
  import opened Outcomes
  import opened Numbers
  import opened Decimals
  import opened Troves
  import opened Redistribution
  import opened FeeSchedule
  import opened StoreState
  import opened StoreDerivation
  import opened BlockPolledStores

  type Address = string

  const ZERO_ADDRESS: Address := "0x0000000000000000000000000000000000000000"

  datatype Connection = Connection(userAddress: Option<Address>, frontendTag: Option<Address>)

  datatype Setup = Setup(constants: StoreConstants, minuteDecayFactor: Decimal, beta: Decimal, connection: Connection)

  datatype BackendTrove = BackendTrove(status: Status, trove: Trove, stake: Decimal, snapshot: Trove)

  /** What the contracts answer at one block. */
  datatype Block = Block(
    price: Decimal,
    activePool: Trove,
    defaultPool: Trove,
    totalRedistributed: Trove,
    baseRate: Decimal,
    lastFeeOperationTime: nat,
    timestamp: nat,
    troves: Address -> BackendTrove,
    frontends: Address -> Option<Decimal>,
    sortedTroves: (int, nat) -> seq<PendingTrove>,
    global: Field -> Contents,
    user: (Field, Address) -> Contents)

  type Chain = nat -> Block

  // ----- Direct reads -----

  function PendingAt(block: Block, a: Address): (r: PendingTrove) {
    var t := block.troves(a);
    if t.status == Open then PendingTrove(a, Open, t.trove, t.stake, t.snapshot)
    else PendingTrove(a, t.status, EMPTY, 0, EMPTY)
  }

  /** Reads without an address. */
  function DirectGlobal(block: Block, f: Field): (r: Contents) {
    match f
    case Price => Amount(block.price)
    case SystemTotal => TroveValue(block.activePool.Add(block.defaultPool))
    case TotalRedistributed => TroveValue(block.totalRedistributed)
    case _ => block.global(f)
  }

  function UserValue(block: Block, f: Field, a: Address): (r: Contents) {
    match f
    case TroveBeforeRedistribution => PendingValue(PendingAt(block, a))
    case OwnFrontend => FrontendStatus(block.frontends(a))
    case _ => block.user(f, a)
  }

  function Required(address: Option<Address>, default: Option<Address>): (r: Result<Address>) {
    if address.Some? then Ok(address.value)
    else if default.Some? then Ok(default.value)
    else Err(AddressRequired)
  }

  /** Reads about a user; the two allowances default to the frontend's address instead of the user's. */
  function DirectUser(c: Connection, block: Block, f: Field, address: Option<Address>): (r: Result<Contents>) {
    var a :- Required(address, if IsAllowance(f) then c.frontendTag else c.userAddress);
    Ok(UserValue(block, f, a))
  }

  function DirectFrontend(c: Connection, block: Block, address: Option<Address>): (r: Result<Contents>) {
    var a :- Required(address, c.frontendTag);
    Ok(FrontendStatus(block.frontends(a)))
  }

  /** The fees object of a block, in the given mode. */
  function CreateFees(s: Setup, block: Block, recoveryMode: bool): (r: Fees) {
    Fees(block.baseRate, s.minuteDecayFactor, s.beta,
         block.lastFeeOperationTime * 1000, block.timestamp * 1000, recoveryMode)
  }

  function DirectFees(s: Setup, block: Block): (r: Contents) {
    var total := block.activePool.Add(block.defaultPool);
    FeesValue(CreateFees(s, block, total.RatioIsBelow(s.constants.criticalRatio, block.price)))
  }

  function Redistributed(pending: Contents, total: Contents): (r: Result<Contents>) {
    if pending.PendingValue? && total.TroveValue?
    then Ok(UserTroveValue(pending.pending.ApplyRedistribution(total.trove)))
    else Err(BadParameters)
  }

  function DirectTrove(c: Connection, block: Block, address: Option<Address>): (r: Result<Contents>) {
    var pending :- DirectUser(c, block, TroveBeforeRedistribution, address);
    Redistributed(pending, DirectGlobal(block, TotalRedistributed))
  }

  datatype Sorting = AscendingCollateralRatio | DescendingCollateralRatio | UnknownSorting

  datatype ListingParams = ListingParams(
    first: int,
    startingAt: Option<int>,
    sortedBy: Sorting,
    beforeRedistribution: bool)

  /** The listed troves before redistribution; a negative count or start or an unknown order is rejected. */
  function ListedTroves(block: Block, p: ListingParams): (r: Result<seq<PendingTrove>>) {
    var start := if p.startingAt.Some? then p.startingAt.value else 0;
    if p.first < 0 || start < 0 || p.sortedBy.UnknownSorting? then Err(BadListing)
    else Ok(block.sortedTroves(if p.sortedBy.DescendingCollateralRatio? then start else -(start + 1), p.first))
  }

  function ShowTroves(troves: seq<PendingTrove>, total: Option<Trove>): (r: seq<Contents>) {
    seq(|troves|, i requires 0 <= i < |troves| =>
      if total.Some? then UserTroveValue(troves[i].ApplyRedistribution(total.value)) else PendingValue(troves[i]))
  }

  function DirectTroves(block: Block, p: ListingParams): (r: Result<seq<Contents>>) {
    var troves :- ListedTroves(block, p);
    Ok(ShowTroves(troves, if p.beforeRedistribution then None else Some(block.totalRedistributed)))
  }

  // ----- What the store fetches -----

  /** Read from the mirror node, not from the chain. */
  predicate IsAssociation(f: Field) {
    match f
    case UserHasAssociatedWithHchf | UserHasAssociatedWithHlqt | UserHasAssociatedWithLpToken => true
    case _ => false
  }

  /** Fetched for the connected user. */
  predicate IsUserField(f: Field) {
    match f
    case AccountBalance | HchfBalance | HlqtBalance | UniTokenBalance | UniTokenAllowance
        | LiquidityMiningStake | LiquidityMiningHLQTReward | CollateralSurplusBalance
        | TroveBeforeRedistribution | StabilityDeposit | HlqtStake | OwnFrontend
        | HchfTokenAllowanceOfHchfContract | HlqtTokenAllowanceOfHlqtContract => true
    case _ => false
  }

  predicate IsTokenAddress(f: Field) {
    match f
    case HchfTokenAddress | HlqtTokenAddress => true
    case _ => false
  }

  const RISKIEST: ListingParams := ListingParams(1, None, AscendingCollateralRatio, true)

  /** Stands in for a user's value when there is no user. */
  function Placeholder(f: Field): (r: Contents) {
    match f
    case TroveBeforeRedistribution => PendingValue(PendingTrove(ZERO_ADDRESS, NonExistent, EMPTY, 0, EMPTY))
    case StabilityDeposit => DepositValue(0, 0, 0, 0, ZERO_ADDRESS)
    case HlqtStake => StakeValue(0, 0, 0)
    case OwnFrontend => FrontendStatus(None)
    case _ => Amount(0)
  }

  /** The value a fetch at a block brings for a base field. */
  function FetchedValue(s: Setup, block: Block, f: Field): (r: Contents) {
    var c := s.connection;
    if IsUserField(f) then
      if c.userAddress.Some? then UserValue(block, f, c.userAddress.value) else Placeholder(f)
    else if IsTokenAddress(f) && c.userAddress.None? then Text("0x")
    else if f == Frontend then
      FrontendStatus(if c.frontendTag.Some? then block.frontends(c.frontendTag.value) else None)
    else if f == FeesInNormalMode then FeesValue(CreateFees(s, block, false))
    else if f == RiskiestTroveBeforeRedistribution then
      var riskiest := ListedTroves(block, RISKIEST);
      PendingValue(if riskiest.Ok? && riskiest.value != [] then riskiest.value[0]
                   else PendingTrove(ZERO_ADDRESS, NonExistent, EMPTY, 0, EMPTY))
    else DirectGlobal(block, f)
  }

  /** A fetch result of a block; the token associations come from elsewhere and may be anything. */
  ghost predicate FetchedAt(s: Setup, block: Block, v: View) {
    v.Keys == BASE_FIELDS && forall f :: f in BASE_FIELDS && !IsAssociation(f) ==> v[f] == FetchedValue(s, block, f)
  }

  // ----- Cached reads -----

  // The cache sees the contents of the store's state; it hits when the read's block is the state's.

  predicate BlockHit(v: View, n: nat) {
    BlockTag in v && v[BlockTag] == Count(n)
  }

  /** A read without a block always hits. */
  predicate CacheHit(v: View, tag: Option<nat>) {
    tag.None? || BlockHit(v, tag.value)
  }

  function Shown(v: View, f: Field): (r: Contents) {
    if f in v then v[f] else Undefined
  }

  function CachedGlobal(chain: Chain, v: View, f: Field, n: nat): (r: Contents) {
    if BlockHit(v, n) then Shown(v, f) else DirectGlobal(chain(n), f)
  }

  function CachedUser(c: Connection, chain: Chain, v: View, f: Field, address: Option<Address>, n: nat)
    : (r: Result<Contents>)
  {
    if BlockHit(v, n) && (address.None? || address == c.userAddress) then Ok(Shown(v, f))
    else DirectUser(c, chain(n), f, address)
  }

  function CachedFrontend(c: Connection, chain: Chain, v: View, address: Option<Address>, n: nat)
    : (r: Result<Contents>)
  {
    if BlockHit(v, n) && (address.None? || address == c.frontendTag) then Ok(Shown(v, Frontend))
    else DirectFrontend(c, chain(n), address)
  }

  function CachedFees(s: Setup, chain: Chain, v: View, n: nat): (r: Contents) {
    if BlockHit(v, n) then Shown(v, CurrentFees) else DirectFees(s, chain(n))
  }

  function CachedTrove(c: Connection, chain: Chain, v: View, address: Option<Address>, n: nat): (r: Result<Contents>) {
    var pending :- CachedUser(c, chain, v, TroveBeforeRedistribution, address, n);
    Redistributed(pending, CachedGlobal(chain, v, TotalRedistributed, n))
  }

  /** The cache never has a list; the listed troves are redistributed with the cached total. */
  function CachedTroves(chain: Chain, v: View, p: ListingParams, n: nat): (r: Result<seq<Contents>>) {
    var troves :- ListedTroves(chain(n), p.(beforeRedistribution := true));
    if p.beforeRedistribution then Ok(ShowTroves(troves, None))
    else
      var total := CachedGlobal(chain, v, TotalRedistributed, n);
      if total.TroveValue? then Ok(ShowTroves(troves, Some(total.trove))) else Err(BadParameters)
  }

  // ----- The cache refines direct reads -----

  /** On a hit the state shows what a fetch at that block brings, and that block's fees. */
  ghost predicate Coherent(s: Setup, chain: Chain, v: View) {
    forall n: nat :: BlockHit(v, n) ==> ShowsBlock(s, chain(n), v)
  }

  ghost predicate ShowsBlock(s: Setup, block: Block, v: View) {
    && (forall f :: f in BASE_FIELDS && !IsAssociation(f) ==> Shown(v, f) == FetchedValue(s, block, f))
    && Shown(v, CurrentFees) == DirectFees(s, block)
  }

  /** Cached by block alone. */
  predicate IsGlobalRead(f: Field) {
    match f
    case TotalRedistributed | NumberOfTroves | Price | SystemTotal | RemainingStabilityPoolHLQTReward
        | HchfInStabilityPool | RemainingLiquidityMiningHLQTReward | TotalStakedUniTokens
        | TotalStakedHLQT => true
    case _ => false
  }

  /** Cached by block and user. */
  predicate IsUserRead(f: Field) {
    match f
    case TroveBeforeRedistribution | StabilityDeposit | HchfBalance | HlqtBalance | UniTokenBalance
        | UniTokenAllowance | LiquidityMiningStake | LiquidityMiningHLQTReward | CollateralSurplusBalance
        | HlqtStake => true
    case _ => false
  }

  lemma FetchedGlobal(s: Setup, block: Block, f: Field)
    requires IsGlobalRead(f)
    ensures f in BASE_FIELDS && !IsAssociation(f) && FetchedValue(s, block, f) == DirectGlobal(block, f)
  {
  }

  lemma FetchedUser(s: Setup, block: Block, f: Field)
    requires IsUserRead(f)
    ensures f in BASE_FIELDS && !IsAssociation(f) && !IsAllowance(f) && IsUserField(f)
  {
  }

  /** Reads without an address agree with the chain at every block. */
  lemma GlobalReadsAgree(s: Setup, chain: Chain, v: View, f: Field, n: nat)
    requires Coherent(s, chain, v) && IsGlobalRead(f)
    ensures CachedGlobal(chain, v, f, n) == DirectGlobal(chain(n), f)
  {
    FetchedGlobal(s, chain(n), f);
    if BlockHit(v, n) {
      assert Shown(v, f) == FetchedValue(s, chain(n), f);
    }
  }

  /** The chain with one block replaced. */
  function WithBlock(chain: Chain, n: nat, block: Block): (r: Chain) {
    (k: nat) => if k == n then block else chain(k)
  }

  /** A fetch cannot tell the two blocks apart. */
  ghost predicate FetchesAlike(s: Setup, a: Block, b: Block) {
    && (forall f :: f in BASE_FIELDS && !IsAssociation(f) ==> FetchedValue(s, a, f) == FetchedValue(s, b, f))
    && DirectFees(s, a) == DirectFees(s, b)
  }

  lemma CoherentWithBlock(s: Setup, chain: Chain, v: View, n: nat, block: Block)
    requires Coherent(s, chain, v) && FetchesAlike(s, block, chain(n))
    ensures Coherent(s, WithBlock(chain, n, block), v)
  {
    forall k: nat | BlockHit(v, k)
      ensures ShowsBlock(s, WithBlock(chain, n, block)(k), v)
    {
      assert ShowsBlock(s, chain(k), v);
    }
  }

  function WithTokenAddress(block: Block, f: Field, address: Contents): (r: Block) {
    block.(global := g => if g == f then address else block.global(g))
  }

  lemma TokenAddressNotFetched(s: Setup, block: Block, f: Field, address: Contents)
    requires IsTokenAddress(f) && s.connection.userAddress.None?
    ensures FetchesAlike(s, WithTokenAddress(block, f, address), block)
  {
    forall g | g in BASE_FIELDS && !IsAssociation(g)
      ensures FetchedValue(s, WithTokenAddress(block, f, address), g) == FetchedValue(s, block, g)
    {
      OtherFieldsFetched(s, block, f, address, g);
    }
  }

  lemma OtherFieldsFetched(s: Setup, block: Block, f: Field, address: Contents, g: Field)
    requires IsTokenAddress(f) && s.connection.userAddress.None?
    ensures FetchedValue(s, WithTokenAddress(block, f, address), g) == FetchedValue(s, block, g)
  {
    if !IsTokenAddress(g) {
      assert DirectGlobal(WithTokenAddress(block, f, address), g) == DirectGlobal(block, g);
    }
  }

  /**
   * The token addresses agree on every chain the state may be of, exactly unless they are hit without a
   * user: then the store holds the text 0x.
   */
  lemma TokenAddressReadsAgree(s: Setup, chain: Chain, v: View, f: Field, n: nat)
    requires Coherent(s, chain, v) && IsTokenAddress(f)
    ensures (forall other: Chain :: Coherent(s, other, v) ==>
               CachedGlobal(other, v, f, n) == DirectGlobal(other(n), f))
            <==> !(BlockHit(v, n) && s.connection.userAddress.None?)
  {
    if BlockHit(v, n) && s.connection.userAddress.None? {
      TokenAddressWithoutUser(s, chain, v, f, n);
    } else {
      forall other: Chain | Coherent(s, other, v)
        ensures CachedGlobal(other, v, f, n) == DirectGlobal(other(n), f)
      {
        TokenAddressOfUser(s, other, v, f, n);
      }
    }
  }

  /** Without a user, a chain with another token address. */
  lemma TokenAddressWithoutUser(s: Setup, chain: Chain, v: View, f: Field, n: nat)
    requires Coherent(s, chain, v) && IsTokenAddress(f) && BlockHit(v, n) && s.connection.userAddress.None?
    ensures exists other: Chain :: Coherent(s, other, v) && CachedGlobal(other, v, f, n) != DirectGlobal(other(n), f)
  {
    var odd := if Shown(v, f) == Text("0x0") then Text("0x1") else Text("0x0");
    var block := WithTokenAddress(chain(n), f, odd);
    var other := WithBlock(chain, n, block);
    TokenAddressNotFetched(s, chain(n), f, odd);
    CoherentWithBlock(s, chain, v, n, block);
    assert other(n) == block;
  }

  lemma TokenAddressOfUser(s: Setup, chain: Chain, v: View, f: Field, n: nat)
    requires Coherent(s, chain, v) && IsTokenAddress(f)
    requires BlockHit(v, n) ==> s.connection.userAddress.Some?
    ensures CachedGlobal(chain, v, f, n) == DirectGlobal(chain(n), f)
  {
    if BlockHit(v, n) {
      assert Shown(v, f) == FetchedValue(s, chain(n), f);
    }
  }

  /** Fees agree at every block: the derived fees are those of the block in the block's own mode. */
  lemma FeeReadsAgree(s: Setup, chain: Chain, v: View, n: nat)
    requires Coherent(s, chain, v)
    ensures CachedFees(s, chain, v, n) == DirectFees(s, chain(n))
  {
  }

  /** Without any address the direct read throws; on a hit the cache answers with a placeholder. */
  predicate AddressMissing(v: View, n: nat, address: Option<Address>, default: Option<Address>) {
    BlockHit(v, n) && address.None? && default.None?
  }

  /** Reads about a user agree for every address, exactly unless no address is known at all. */
  lemma UserReadsAgree(s: Setup, chain: Chain, v: View, f: Field, address: Option<Address>, n: nat)
    requires Coherent(s, chain, v) && IsUserRead(f)
    ensures CachedUser(s.connection, chain, v, f, address, n) == DirectUser(s.connection, chain(n), f, address)
            <==> !AddressMissing(v, n, address, s.connection.userAddress)
  {
    FetchedUser(s, chain(n), f);
    if BlockHit(v, n) {
      assert Shown(v, f) == FetchedValue(s, chain(n), f);
    }
  }

  /** The frontend's status agrees for every address, exactly unless no address is known at all. */
  lemma FrontendReadsAgree(s: Setup, chain: Chain, v: View, address: Option<Address>, n: nat)
    requires Coherent(s, chain, v)
    ensures CachedFrontend(s.connection, chain, v, address, n) == DirectFrontend(s.connection, chain(n), address)
            <==> !AddressMissing(v, n, address, s.connection.frontendTag)
  {
    if BlockHit(v, n) {
      assert Shown(v, Frontend) == FetchedValue(s, chain(n), Frontend);
    }
  }

  /** A trove read combines two reads, each cached or direct, into the direct answer. */
  lemma TroveReadsAgree(s: Setup, chain: Chain, v: View, address: Option<Address>, n: nat)
    requires Coherent(s, chain, v)
    ensures CachedTrove(s.connection, chain, v, address, n) == DirectTrove(s.connection, chain(n), address)
            <==> !AddressMissing(v, n, address, s.connection.userAddress)
  {
    UserReadsAgree(s, chain, v, TroveBeforeRedistribution, address, n);
    GlobalReadsAgree(s, chain, v, TotalRedistributed, n);
    if AddressMissing(v, n, address, s.connection.userAddress) {
      assert Shown(v, TroveBeforeRedistribution) == FetchedValue(s, chain(n), TroveBeforeRedistribution);
    }
  }

  /** Trove lists agree at every block, for all parameters, accepted or not. */
  lemma ListReadsAgree(s: Setup, chain: Chain, v: View, p: ListingParams, n: nat)
    requires Coherent(s, chain, v)
    ensures CachedTroves(chain, v, p, n) == DirectTroves(chain(n), p)
  {
    GlobalReadsAgree(s, chain, v, TotalRedistributed, n);
  }

  /** With an address the allowance reads agree; without one, a hit gives what was fetched for the user. */
  lemma AllowanceReads(s: Setup, chain: Chain, v: View, f: Field, address: Option<Address>, n: nat)
    requires Coherent(s, chain, v) && IsAllowance(f)
    ensures address.Some? ==>
              CachedUser(s.connection, chain, v, f, address, n) == DirectUser(s.connection, chain(n), f, address)
    ensures BlockHit(v, n) && address.None? ==>
              CachedUser(s.connection, chain, v, f, address, n) == Ok(FetchedValue(s, chain(n), f))
  {
    if BlockHit(v, n) {
      assert Shown(v, f) == FetchedValue(s, chain(n), f);
    }
  }

  /**
   * On a hit, the allowance reads without an address differ: the cache answers for the user, the direct
   * read for the frontend. They agree on every chain the state may be of exactly when these are one and
   * the same known address.
   */
  lemma AllowanceDefaultsAgree(s: Setup, chain: Chain, v: View, f: Field, n: nat)
    requires Coherent(s, chain, v) && IsAllowance(f)
    ensures (forall other: Chain :: Coherent(s, other, v) ==>
               CachedUser(s.connection, other, v, f, None, n) == DirectUser(s.connection, other(n), f, None))
            <==> (BlockHit(v, n) ==>
                    s.connection.userAddress.Some? && s.connection.frontendTag == s.connection.userAddress)
  {
    var c := s.connection;
    if !BlockHit(v, n) || (c.userAddress.Some? && c.frontendTag == c.userAddress) {
      forall other: Chain | Coherent(s, other, v)
        ensures CachedUser(c, other, v, f, None, n) == DirectUser(c, other(n), f, None)
      {
        AllowanceReads(s, other, v, f, None, n);
      }
    } else if c.frontendTag.Some? {
      AllowanceOfFrontend(s, chain, v, f, n);
    } else {
      assert DirectUser(c, chain(n), f, None).Err?;
    }
  }

  /** A chain on which the frontend's allowance is another one than the user's. */
  lemma AllowanceOfFrontend(s: Setup, chain: Chain, v: View, f: Field, n: nat)
    requires Coherent(s, chain, v) && IsAllowance(f) && BlockHit(v, n)
    requires s.connection.frontendTag.Some? && s.connection.frontendTag != s.connection.userAddress
    ensures exists other: Chain :: Coherent(s, other, v)
              && CachedUser(s.connection, other, v, f, None, n) != DirectUser(s.connection, other(n), f, None)
  {
    var odd := if Shown(v, f) == Amount(0) then Amount(1) else Amount(0);
    var address := s.connection.frontendTag.value;
    var block := WithAnswers(chain(n), address, odd);
    var other := WithBlock(chain, n, block);
    AnswersNotFetched(s, chain(n), address, odd);
    CoherentWithBlock(s, chain, v, n, block);
    assert other(n) == block;
  }

  /** The block with one answer to everything about an address. */
  function WithAnswers(block: Block, address: Address, answer: Contents): (r: Block) {
    block.(user := (g, a) => if a == address then answer else block.user(g, a))
  }

  lemma AnswersNotFetched(s: Setup, block: Block, address: Address, answer: Contents)
    requires s.connection.userAddress != Some(address)
    ensures FetchesAlike(s, WithAnswers(block, address, answer), block)
  {
    forall g | g in BASE_FIELDS && !IsAssociation(g)
      ensures FetchedValue(s, WithAnswers(block, address, answer), g) == FetchedValue(s, block, g)
    {
      if s.connection.userAddress.Some? {
        OtherAnswersKept(block, address, answer, g, s.connection.userAddress.value);
      }
    }
  }

  lemma OtherAnswersKept(block: Block, address: Address, answer: Contents, g: Field, user: Address)
    requires user != address
    ensures UserValue(WithAnswers(block, address, answer), g, user) == UserValue(block, g, user)
  {
  }

  /**
   * On a hit nothing is read from the chain: the answers are the same whatever the chain holds, for the
   * user's own address as well as for none.
   */
  lemma HitsNeedNoChain(s: Setup, chain: Chain, other: Chain, v: View, f: Field, n: nat)
    requires BlockHit(v, n)
    ensures CachedGlobal(chain, v, f, n) == CachedGlobal(other, v, f, n)
    ensures CachedFees(s, chain, v, n) == CachedFees(s, other, v, n)
    ensures var c := s.connection;
            forall address :: address == None || address == c.userAddress ==>
              && CachedUser(c, chain, v, f, address, n) == CachedUser(c, other, v, f, address, n)
              && CachedTrove(c, chain, v, address, n) == CachedTrove(c, other, v, address, n)
    ensures var c := s.connection;
            forall address :: address == None || address == c.frontendTag ==>
              CachedFrontend(c, chain, v, address, n) == CachedFrontend(c, other, v, address, n)
  {
  }

  // ----- What the direct reads mean -----

  /**
   * A trove at a block: an open one holds what the contracts say and its share of the redistributions
   * since its snapshot, rounded down; any other one holds nothing, whatever was redistributed.
   */
  ghost predicate HeldAt(t: UserTrove, block: Block, a: Address) {
    var raw := block.troves(a);
    && t.owner == a && t.status == raw.status
    && (raw.status != Open ==> t.trove == EMPTY)
    && (raw.status == Open ==>
          HoldsShare(t.trove, raw.trove, raw.stake, block.totalRedistributed.Subtract(raw.snapshot)))
  }

  lemma PendingHeld(block: Block, a: Address)
    ensures HeldAt(PendingAt(block, a).ApplyRedistribution(block.totalRedistributed), block, a)
  {
    ShareHeld(PendingAt(block, a), block.totalRedistributed);
    NothingHeld(PendingAt(block, a), block.totalRedistributed);
  }

  /** A direct trove read is about the given address or else the user's, and is rejected without either. */
  lemma DirectTroveMeaning(c: Connection, block: Block, address: Option<Address>, a: Address)
    ensures DirectTrove(c, block, address).Err? <==> address.None? && c.userAddress.None?
    ensures address == Some(a) || (address.None? && c.userAddress == Some(a)) ==>
              IsHeldAt(DirectTrove(c, block, address), block, a)
  {
    if address == Some(a) || (address.None? && c.userAddress == Some(a)) {
      DirectTroveIs(c, block, address, a);
      HeldShown(block, a);
    }
  }

  ghost predicate IsHeldAt(r: Result<Contents>, block: Block, a: Address) {
    r.Ok? && r.value.UserTroveValue? && HeldAt(r.value.userTrove, block, a)
  }

  lemma DirectTroveIs(c: Connection, block: Block, address: Option<Address>, a: Address)
    requires address == Some(a) || (address.None? && c.userAddress == Some(a))
    ensures DirectTrove(c, block, address)
         == Ok(UserTroveValue(PendingAt(block, a).ApplyRedistribution(block.totalRedistributed)))
  {
  }

  lemma HeldShown(block: Block, a: Address)
    ensures IsHeldAt(Ok(UserTroveValue(PendingAt(block, a).ApplyRedistribution(block.totalRedistributed))), block, a)
  {
    PendingHeld(block, a);
  }

  /** The own frontend that a store fetches is the frontend read at the user's address. */
  lemma OwnFrontendFetched(s: Setup, block: Block)
    requires s.connection.userAddress.Some?
    ensures DirectFrontend(s.connection, block, s.connection.userAddress)
         == Ok(FetchedValue(s, block, OwnFrontend))
  {
  }

  /** Without a user, what a store fetches for one amounts to nothing. */
  lemma NobodyHasNothing(s: Setup, block: Block, f: Field)
    requires s.connection.userAddress.None? && IsUserField(f) && f != OwnFrontend
    ensures Nothing(FetchedValue(s, block, f)) && FetchedValue(s, block, OwnFrontend) == FrontendStatus(None)
  {
  }

  /** The fees of a block count the whole minutes of its seconds. */
  lemma BlockMinutes(s: Setup, block: Block, mode: bool, n: nat)
    requires if block.timestamp <= block.lastFeeOperationTime then n == 0
             else n * 60 <= block.timestamp - block.lastFeeOperationTime < (n + 1) * 60
    ensures var fees := CreateFees(s, block, mode);
            MinutesBetween(fees.lastFeeOperation, fees.timeOfLatestBlock, n)
  {
  }

  /** Redeeming a fraction raises the rate of a block's fees by the fraction over beta, up to one. */
  lemma BlockRedemptionRate(s: Setup, block: Block, mode: bool, fraction: Decimal)
    requires 0 < s.beta && s.minuteDecayFactor < ONE
    requires CreateFees(s, block, mode).MinutesSince(block.timestamp * 1000) <= MAX_EXPONENT
    ensures var fees, c := CreateFees(s, block, mode), s.constants.rates;
            var none, some := fees.RedemptionRate(c, 0, block.timestamp * 1000),
                              fees.RedemptionRate(c, fraction, block.timestamp * 1000);
            && none.Ok? && some.Ok? && none.value <= some.value <= ONE
            && (some.value < ONE ==>
                  (some.value - none.value) * s.beta <= fraction * DIGITS < (some.value - none.value + 1) * s.beta)
            && (none.value < ONE ==> (some.value == ONE <==> ONE * s.beta <= none.value * s.beta + fraction * DIGITS))
  {
    var fees := CreateFees(s, block, mode);
    RedemptionRateSlope(fees, s.constants.rates, block.timestamp * 1000, fraction);
    RedemptionRateSlope(fees, s.constants.rates, block.timestamp * 1000, 0);
  }

  /**
   * The rates a store derives from what it fetched at a block: the block's base rate, decayed by the
   * minutes between the block and the last fee operation, on top of the minimum and capped.
   */
  lemma BlockRates(s: Setup, block: Block, v: View, n: nat) returns (base: Decimal)
    requires FetchedAt(s, block, v) && Derivable(v)
    requires if block.timestamp <= block.lastFeeOperationTime then n == 0
             else n * 60 <= block.timestamp - block.lastFeeOperationTime < (n + 1) * 60
    ensures IsDecayed(base, block.baseRate, s.minuteDecayFactor, n)
    ensures var r, c := Derive(s.constants, v), s.constants.rates;
            && r.Ok? && r.value.Keys == DERIVED_FIELDS
            && r.value[StoreState.RedemptionRate] == Amount(Min(c.minimumRedemptionRate + base, ONE))
            && r.value[StoreState.BorrowingRate]
               == Amount(if Below(block.activePool.Add(block.defaultPool), s.constants.criticalRatio, block.price)
                         then 0 else Min(c.minimumBorrowingRate + base, c.maximumBorrowingRate))
  {
    FetchedFeesParts(s, block, v);
    BlockMinutes(s, block, false, n);
    base := DerivedRates(s.constants, v, n);
  }

  // ----- Trove listings -----

  function Reversed(ts: seq<PendingTrove>): (r: seq<PendingTrove>)
    ensures |r| == |ts| && forall i :: 0 <= i < |ts| ==> r[i] == ts[|ts| - 1 - i]
  {
    seq(|ts|, i requires 0 <= i < |ts| => ts[|ts| - 1 - i])
  }

  /** At most n of them, from the given one on. */
  function Page(ts: seq<PendingTrove>, start: nat, n: nat): (r: seq<PendingTrove>) {
    if |ts| <= start then [] else if |ts| <= start + n then ts[start..] else ts[start..start + n]
  }

  /** The contract lists from the head for indices from zero on, and from the tail for negative ones. */
  ghost predicate Lists(block: Block, all: seq<PendingTrove>) {
    forall k: int, n: nat ::
      block.sortedTroves(k, n) == if 0 <= k then Page(all, k, n) else Page(Reversed(all), -(k + 1), n)
  }

  /**
   * What is listed of all troves in descending order: a page of them or of their reverse, each with its
   * share unless asked for before redistribution; a negative count or start or an unknown order is rejected.
   */
  lemma ListingMeaning(block: Block, all: seq<PendingTrove>, p: ListingParams)
    requires Lists(block, all)
    ensures var start, r := if p.startingAt.Some? then p.startingAt.value else 0, DirectTroves(block, p);
            && (r.Err? <==> p.first < 0 || start < 0 || p.sortedBy.UnknownSorting?)
            && (r.Ok? ==>
                  var page := Page(if p.sortedBy.AscendingCollateralRatio? then Reversed(all) else all, start, p.first);
                  && |r.value| == |page|
                  && forall i :: 0 <= i < |page| ==>
                       r.value[i] == if p.beforeRedistribution then PendingValue(page[i])
                                     else UserTroveValue(page[i].ApplyRedistribution(block.totalRedistributed)))
  {
  }

  /** The store fetches the last of all troves as the riskiest one, or a placeholder that holds nothing. */
  lemma RiskiestFetched(s: Setup, block: Block, all: seq<PendingTrove>)
    requires Lists(block, all)
    ensures var r := FetchedValue(s, block, RiskiestTroveBeforeRedistribution);
            && r.PendingValue?
            && (all == [] ==> r.pending.trove == EMPTY && r.pending.stake == 0)
            && (all != [] ==> r.pending == all[|all| - 1])
  {
    RiskiestListed(block, all);
  }

  lemma RiskiestListed(block: Block, all: seq<PendingTrove>)
    requires Lists(block, all)
    ensures ListedTroves(block, RISKIEST).Ok?
    ensures ListedTroves(block, RISKIEST).value == if all == [] then [] else [all[|all| - 1]]
  {
    assert ListedTroves(block, RISKIEST) == Ok(block.sortedTroves(-1, 1));
    LastPage(all);
  }

  lemma LastPage(all: seq<PendingTrove>)
    ensures Page(Reversed(all), 0, 1) == if all == [] then [] else [all[|all| - 1]]
  {
  }

  /** In descending order of their collateral ratios once redistributions are applied; all of them owe something. */
  ghost predicate Sorted(all: seq<PendingTrove>, total: Trove) {
    && (forall i :: 0 <= i < |all| ==> 0 < all[i].ApplyRedistribution(total).trove.debt)
    && (forall i, j :: 0 <= i < j < |all| ==>
          NoSafer(all[j].ApplyRedistribution(total).trove, all[i].ApplyRedistribution(total).trove))
  }

  predicate NoSafer(t: Trove, u: Trove) {
    t.collateral * u.debt <= u.collateral * t.debt
  }

  /**
   * The flag that the store derives from what it fetched at a block tells whether any trove at all is
   * below the minimum ratio.
   */
  lemma FlagTellsOfAnyTrove(s: Setup, block: Block, all: seq<PendingTrove>, v: View)
    requires Lists(block, all) && Sorted(all, block.totalRedistributed)
    requires FetchedAt(s, block, v) && Derivable(v) && s.constants.minimumRatio <= INFINITY
    ensures var r := Derive(s.constants, v);
            && r.Ok? && HaveUndercollateralizedTroves in r.value && r.value[HaveUndercollateralizedTroves].Flag?
            && (r.value[HaveUndercollateralizedTroves].flag <==>
                  exists t :: t in all && Below(t.ApplyRedistribution(block.totalRedistributed).trove,
                                                s.constants.minimumRatio, block.price))
  {
    var total, limit := block.totalRedistributed, s.constants.minimumRatio;
    FetchedFeesParts(s, block, v);
    RiskiestInView(s, block, all, v);
    DerivedMeaning(s.constants, v);
    NothingIsSafe(v[RiskiestTroveBeforeRedistribution].pending, total, limit, block.price);
    LastIsRiskiest(all, total, limit, block.price);
  }

  lemma RiskiestInView(s: Setup, block: Block, all: seq<PendingTrove>, v: View)
    requires Lists(block, all) && FetchedAt(s, block, v)
    ensures v[TotalRedistributed] == TroveValue(block.totalRedistributed)
    ensures v[RiskiestTroveBeforeRedistribution].PendingValue?
    ensures var p := v[RiskiestTroveBeforeRedistribution].pending;
            if all == [] then p.trove == EMPTY && p.stake == 0 else p == all[|all| - 1]
  {
    var f := RiskiestTroveBeforeRedistribution;
    InView(s, block, v, f);
    RiskiestFetched(s, block, all);
    TotalInView(s, block, v);
  }

  lemma TotalInView(s: Setup, block: Block, v: View)
    requires FetchedAt(s, block, v)
    ensures TotalRedistributed in v && v[TotalRedistributed] == TroveValue(block.totalRedistributed)
  {
    InView(s, block, v, TotalRedistributed);
  }

  /** What holds nothing is below no limit up to infinity. */
  lemma NothingIsSafe(p: PendingTrove, total: Trove, limit: Decimal, price: Decimal)
    requires limit <= INFINITY
    ensures p.trove == EMPTY && p.stake == 0 ==> !Below(p.ApplyRedistribution(total).trove, limit, price)
  {
    NothingHeld(p, total);
  }

  lemma InView(s: Setup, block: Block, v: View, f: Field)
    requires FetchedAt(s, block, v) && f in BASE_FIELDS && !IsAssociation(f)
    ensures f in v && v[f] == FetchedValue(s, block, f)
  {
  }

  lemma LastIsRiskiest(all: seq<PendingTrove>, total: Trove, limit: Decimal, price: Decimal)
    requires Sorted(all, total)
    ensures (exists t :: t in all && Below(t.ApplyRedistribution(total).trove, limit, price))
            <==> all != [] && Below(all[|all| - 1].ApplyRedistribution(total).trove, limit, price)
  {
    if all != [] {
      var last := all[|all| - 1].ApplyRedistribution(total).trove;
      forall i | 0 <= i < |all| && Below(all[i].ApplyRedistribution(total).trove, limit, price)
        ensures Below(last, limit, price)
      {
        var t := all[i].ApplyRedistribution(total).trove;
        if i < |all| - 1 {
          RatioOrder(last, t, price);
        }
        RatioBelowByProduct(t, limit, price);
        RatioBelowByProduct(last, limit, price);
      }
    }
  }

  // ----- Which runs are coherent -----

  function ViewOf(store: Store): (v: View) {
    ContentsOf(StateOf(store))
  }

  lemma HitIsLastTag(d: Derivation, m: Machine, n: nat)
    requires Sound(d, m)
    ensures BlockHit(ViewOf(m.store), n) <==> LastTag(m.applied) == Some(n)
    ensures BlockHit(ViewOf(m.store), n) ==> m.store.loaded && m.applied != []
  {
    if m.store.loaded {
      LoadedState(m.store);
    } else {
      NothingTagged(m.store);
    }
  }

  lemma NothingTagged(s: Store)
    requires Whole(s) && !s.loaded
    ensures BlockTag !in ViewOf(s)
  {
    assert StateOf(s).Keys <= BASE_FIELDS + DERIVED_FIELDS;
    assert BlockTag in EXTRA_FIELDS;
  }

  lemma LoadedView(store: Store)
    requires Whole(store) && store.loaded
    ensures forall f :: f in BASE_FIELDS ==>
              f in store.base.value && Shown(ViewOf(store), f) == store.base.value[f].contents
    ensures forall f :: f in DERIVED_FIELDS ==>
              f in store.derived.value && Shown(ViewOf(store), f) == store.derived.value[f].contents
  {
    LoadedState(store);
  }

  /** The fees derived from what a fetch brings are the fees of the block. */
  lemma DerivedFees(s: Setup, block: Block, v: View)
    requires FetchedAt(s, block, v) && Derive(s.constants, v).Ok?
    ensures CurrentFees in Derive(s.constants, v).value
    ensures Derive(s.constants, v).value[CurrentFees] == DirectFees(s, block)
  {
    FetchedFeesParts(s, block, v);
    DeriveDefined(s.constants, v);
  }

  lemma FetchedFeesParts(s: Setup, block: Block, v: View)
    requires FetchedAt(s, block, v)
    ensures v[FeesInNormalMode] == FeesValue(CreateFees(s, block, false))
    ensures v[SystemTotal] == TroveValue(block.activePool.Add(block.defaultPool)) && v[Price] == Amount(block.price)
  {
    assert v[FeesInNormalMode] == FetchedValue(s, block, FeesInNormalMode);
    assert v[SystemTotal] == FetchedValue(s, block, SystemTotal);
    assert v[Price] == FetchedValue(s, block, Price);
  }

  /** The store's base state is what a fetch at the current tag's block brings. */
  ghost predicate UpToDate(s: Setup, chain: Chain, m: Machine) {
    m.store.base.Some? && LastTag(m.applied).Some? ==>
      FetchedAt(s, chain(LastTag(m.applied).value), ContentsOf(m.store.base.value))
  }

  /** No untagged result came after a tagged one without a tagged one after it. */
  predicate EndsTagged(applied: seq<Applied>) {
    applied != [] && LastTag(applied).Some? ==> applied[|applied| - 1].tag.Some?
  }

  ghost predicate OfTheirBlocks(s: Setup, chain: Chain, applied: seq<Applied>) {
    forall i :: 0 <= i < |applied| && applied[i].tag.Some? ==>
      FetchedAt(s, chain(applied[i].tag.value), applied[i].contents)
  }

  lemma {:induction false} LastTagApplied(applied: seq<Applied>) returns (i: nat)
    requires LastTag(applied).Some?
    ensures i < |applied| && applied[i].tag == LastTag(applied)
  {
    i := |applied| - 1;
    if applied[i].tag.None? {
      i := LastTagApplied(applied[..i]);
    }
  }

  /** Two results of one block differ in the token associations only, which nothing is derived from. */
  lemma OfOneBlock(s: Setup, block: Block, v: View, w: View)
    requires FetchedAt(s, block, v) && FetchedAt(s, block, w)
    ensures Derivable(v) <==> Derivable(w)
  {
    SameAtBlock(s, block, v, w, Price);
    SameAtBlock(s, block, v, w, SystemTotal);
    SameAtBlock(s, block, v, w, TotalRedistributed);
    SameAtBlock(s, block, v, w, TroveBeforeRedistribution);
    SameAtBlock(s, block, v, w, RiskiestTroveBeforeRedistribution);
    SameAtBlock(s, block, v, w, FeesInNormalMode);
  }

  lemma SameAtBlock(s: Setup, block: Block, v: View, w: View, f: Field)
    requires FetchedAt(s, block, v) && FetchedAt(s, block, w) && f in BASE_FIELDS && !IsAssociation(f)
    ensures f in v && f in w && v[f] == w[f]
  {
  }

  /**
   * Once a tag is applied, a store that is up to date with it is consistent: what is applied under the
   * tag could be derived from, so what is fetched at its block can.
   */
  lemma UpToDateConsistent(s: Setup, chain: Chain, m: Machine)
    requires Sound(DerivationOf(s.constants), m) && OfTheirBlocks(s, chain, m.applied)
    requires LastTag(m.applied).Some? && UpToDate(s, chain, m)
    ensures m.store.loaded && Consistent(DerivationOf(s.constants), m.store)
  {
    var i := LastTagApplied(m.applied);
    var v := ContentsOf(m.store.base.value);
    OfOneBlock(s, chain(LastTag(m.applied).value), v, m.applied[i].contents);
    DeriveDefined(s.constants, m.applied[i].contents);
    DeriveDefined(s.constants, v);
  }

  /** A sound store is coherent with the chain exactly when it is up to date with its tag. */
  lemma CoherentExactly(s: Setup, chain: Chain, m: Machine)
    requires Sound(DerivationOf(s.constants), m) && OfTheirBlocks(s, chain, m.applied)
    ensures Coherent(s, chain, ViewOf(m.store)) <==> UpToDate(s, chain, m)
  {
    var d, v := DerivationOf(s.constants), ViewOf(m.store);
    if LastTag(m.applied).Some? {
      var n := LastTag(m.applied).value;
      HitIsLastTag(d, m, n);
      HitShowsBlock(s, chain, m);
      forall k: nat | BlockHit(v, k)
        ensures k == n
      {
        HitIsLastTag(d, m, k);
      }
    } else {
      UntaggedCoherent(s, chain, m);
    }
  }

  /** Without a tag there are no hits, so nothing is claimed of any block. */
  lemma UntaggedCoherent(s: Setup, chain: Chain, m: Machine)
    requires Sound(DerivationOf(s.constants), m) && LastTag(m.applied).None?
    ensures Coherent(s, chain, ViewOf(m.store))
  {
    forall k: nat
      ensures !BlockHit(ViewOf(m.store), k)
    {
      HitIsLastTag(DerivationOf(s.constants), m, k);
    }
  }

  lemma HitShowsBlock(s: Setup, chain: Chain, m: Machine)
    requires Sound(DerivationOf(s.constants), m) && OfTheirBlocks(s, chain, m.applied)
    requires m.store.loaded && LastTag(m.applied).Some?
    ensures ShowsBlock(s, chain(LastTag(m.applied).value), ViewOf(m.store)) <==> UpToDate(s, chain, m)
  {
    var base, block := m.store.base.value, chain(LastTag(m.applied).value);
    LoadedView(m.store);
    assert forall f :: f in BASE_FIELDS ==> Shown(ViewOf(m.store), f) == ContentsOf(base)[f];
    if UpToDate(s, chain, m) {
      UpToDateConsistent(s, chain, m);
      assert Derive(s.constants, ContentsOf(base)) == Ok(ContentsOf(m.store.derived.value));
      DerivedFees(s, block, ContentsOf(base));
    }
  }

  /** The last applied result is of its block: a safe store that ends tagged is up to date. */
  lemma TaggedUpToDate(s: Setup, chain: Chain, m: Machine)
    requires Safe(DerivationOf(s.constants), m) && OfTheirBlocks(s, chain, m.applied) && EndsTagged(m.applied)
    ensures UpToDate(s, chain, m)
  {
  }

  /** A completing block fetch brings the values of its block. */
  ghost predicate AtItsBlock(s: Setup, chain: Chain, m: Machine, e: Event) {
    e.Complete? && e.index < |m.pending| && m.pending[e.index].BlockFetch?
    ==> FetchedAt(s, chain(m.pending[e.index].tag), ContentsOf(e.base))
  }

  ghost predicate Faithful(s: Setup, chain: Chain, m: Machine, events: seq<Event>)
    decreases events
  {
    events != [] ==>
      AtItsBlock(s, chain, m, events[0])
      && Faithful(s, chain, Step(DerivationOf(s.constants), m, events[0]), events[1..])
  }

  /** Over every run, refreshes included, applied tagged results stay those of their blocks. */
  lemma {:induction false} RunOfTheirBlocks(s: Setup, chain: Chain, m: Machine, events: seq<Event>)
    requires Sound(DerivationOf(s.constants), m)
    requires forall e :: e in events && e.Complete? ==> Full(e.base)
    requires OfTheirBlocks(s, chain, m.applied) && Faithful(s, chain, m, events)
    ensures OfTheirBlocks(s, chain, Run(DerivationOf(s.constants), m, events).applied)
    decreases events
  {
    if events == [] {
    } else {
      var d := DerivationOf(s.constants);
      DerivationDerives(s.constants);
      StepSound(d, m, events[0]);
      StepApplies(d, m, events[0]);
      RunOfTheirBlocks(s, chain, Step(d, m, events[0]), events[1..]);
    }
  }

  /**
   * Every run from the start, with refreshes anywhere, completions in any order and derivations that
   * throw, ends coherent with the chain exactly when it is up to date with its tag. So it is if the last
   * result that reached the store could be derived from, and the last applied one is tagged or none is.
   */
  lemma RunsAreCoherent(s: Setup, chain: Chain, events: seq<Event>)
    requires forall e :: e in events && e.Complete? ==> Full(e.base)
    requires Faithful(s, chain, IDLE, events)
    ensures var m := Run(DerivationOf(s.constants), IDLE, events);
            && (Coherent(s, chain, ViewOf(m.store)) <==> UpToDate(s, chain, m))
            && (Settled(DerivationOf(s.constants), IDLE, events, true) && EndsTagged(m.applied)
                ==> UpToDate(s, chain, m))
  {
    DerivationDerives(s.constants);
    RunSafe(DerivationOf(s.constants), IDLE, events);
    RunOfTheirBlocks(s, chain, IDLE, events);
    var m := Run(DerivationOf(s.constants), IDLE, events);
    CoherentExactly(s, chain, m);
    if Settled(DerivationOf(s.constants), IDLE, events, true) && EndsTagged(m.applied) {
      TaggedUpToDate(s, chain, m);
    }
  }

  // ----- Which runs end tagged -----

  /** Every update after the load carries its block tag. */
  predicate UpdatesTagged(applied: seq<Applied>) {
    forall i :: 0 < i < |applied| ==> applied[i].tag.Some?
  }

  lemma UpdatesTaggedEndTagged(applied: seq<Applied>)
    requires UpdatesTagged(applied)
    ensures EndsTagged(applied)
  {
    if |applied| == 1 {
      assert LastTag(applied) == applied[0].tag by { assert applied[..0] == []; }
    } else if applied != [] {
      assert applied[|applied| - 1].tag.Some?;
    }
  }

  lemma UpdatesTaggedAppend(applied: seq<Applied>, e: Applied)
    ensures UpdatesTagged(applied + [e]) <==> UpdatesTagged(applied) && (applied != [] ==> e.tag.Some?)
  {
    var more := applied + [e];
    assert forall i :: 0 <= i < |applied| ==> more[i] == applied[i];
    assert more[|applied|] == e;
  }

  /** No refresh updates a loaded store; refreshes may load it, fail, throw or still be under way. */
  predicate NoLateRefresh(d: Derivation, m: Machine, events: seq<Event>)
    decreases events
  {
    events != [] ==> !Refreshes(d, m, events[0]) && NoLateRefresh(d, Step(d, m, events[0]), events[1..])
  }

  predicate Refreshes(d: Derivation, m: Machine, e: Event) {
    && m.store.loaded && e.Complete? && e.index < |m.pending| && m.pending[e.index].RefreshFetch?
    && d(ContentsOf(e.base)).Ok?
  }

  /** The updates of a run are all tagged exactly when no refresh updates the loaded store. */
  lemma {:induction false} TaggedExactly(d: Derivation, m: Machine, events: seq<Event>)
    requires Derives(d) && Sound(d, m)
    requires forall e :: e in events && e.Complete? ==> Full(e.base)
    ensures UpdatesTagged(Run(d, m, events).applied) <==> UpdatesTagged(m.applied) && NoLateRefresh(d, m, events)
    decreases events
  {
    if events == [] {
    } else {
      StepSound(d, m, events[0]);
      StepTagged(d, m, events[0]);
      TaggedExactly(d, Step(d, m, events[0]), events[1..]);
    }
  }

  lemma StepTagged(d: Derivation, m: Machine, e: Event)
    requires Derives(d) && Sound(d, m) && (e.Complete? ==> Full(e.base))
    ensures UpdatesTagged(Step(d, m, e).applied) <==> UpdatesTagged(m.applied) && !Refreshes(d, m, e)
  {
    StepApplies(d, m, e);
    if Reaches(m, e) {
      UpdatesTaggedAppend(m.applied, EntryOf(m, m.pending[e.index], e.base, e.timestamp));
    }
  }

  // ----- The cache refines the chain -----

  /** Every read through the cache at a block gives the direct answer, where an address is known. */
  ghost predicate ReadsAgree(s: Setup, chain: Chain, v: View, n: nat) {
    var c := s.connection;
    && (forall f :: IsGlobalRead(f) ==> CachedGlobal(chain, v, f, n) == DirectGlobal(chain(n), f))
    && CachedFees(s, chain, v, n) == DirectFees(s, chain(n))
    && (forall p :: CachedTroves(chain, v, p, n) == DirectTroves(chain(n), p))
    && UserPartsAgree(s, chain, v, n)
    && (forall a: Option<Address> :: a.Some? || c.frontendTag.Some? ==>
          CachedFrontend(c, chain, v, a, n) == DirectFrontend(c, chain(n), a))
  }

  ghost predicate UserPartsAgree(s: Setup, chain: Chain, v: View, n: nat) {
    var c := s.connection;
    && (forall f, a: Option<Address> :: IsUserRead(f) && (a.Some? || c.userAddress.Some?) ==>
          CachedUser(c, chain, v, f, a, n) == DirectUser(c, chain(n), f, a))
    && (forall f, a: Address :: IsAllowance(f) ==>
          CachedUser(c, chain, v, f, Some(a), n) == DirectUser(c, chain(n), f, Some(a)))
    && (forall a: Option<Address> :: a.Some? || c.userAddress.Some? ==>
          CachedTrove(c, chain, v, a, n) == DirectTrove(c, chain(n), a))
    && (forall f :: IsTokenAddress(f) && c.userAddress.Some? ==>
          CachedGlobal(chain, v, f, n) == DirectGlobal(chain(n), f))
  }

  lemma CoherentReadsAgree(s: Setup, chain: Chain, v: View, n: nat)
    requires Coherent(s, chain, v)
    ensures ReadsAgree(s, chain, v, n)
  {
    FeeReadsAgree(s, chain, v, n);
    UserPartsCoherent(s, chain, v, n);
    forall f | IsGlobalRead(f)
      ensures CachedGlobal(chain, v, f, n) == DirectGlobal(chain(n), f)
    {
      GlobalReadsAgree(s, chain, v, f, n);
    }
    forall p
      ensures CachedTroves(chain, v, p, n) == DirectTroves(chain(n), p)
    {
      ListReadsAgree(s, chain, v, p, n);
    }
    forall a: Option<Address> | a.Some? || s.connection.frontendTag.Some?
      ensures CachedFrontend(s.connection, chain, v, a, n) == DirectFrontend(s.connection, chain(n), a)
    {
      FrontendReadsAgree(s, chain, v, a, n);
    }
  }

  lemma UserPartsCoherent(s: Setup, chain: Chain, v: View, n: nat)
    requires Coherent(s, chain, v)
    ensures UserPartsAgree(s, chain, v, n)
  {
    var c := s.connection;
    forall f, a: Option<Address> | IsUserRead(f) && (a.Some? || c.userAddress.Some?)
      ensures CachedUser(c, chain, v, f, a, n) == DirectUser(c, chain(n), f, a)
    {
      UserReadsAgree(s, chain, v, f, a, n);
    }
    forall f, a: Address | IsAllowance(f)
      ensures CachedUser(c, chain, v, f, Some(a), n) == DirectUser(c, chain(n), f, Some(a))
    {
      AllowanceReads(s, chain, v, f, Some(a), n);
    }
    forall a: Option<Address> | a.Some? || c.userAddress.Some?
      ensures CachedTrove(c, chain, v, a, n) == DirectTrove(c, chain(n), a)
    {
      TroveReadsAgree(s, chain, v, a, n);
    }
    forall f | IsTokenAddress(f) && c.userAddress.Some?
      ensures CachedGlobal(chain, v, f, n) == DirectGlobal(chain(n), f)
    {
      TokenAddressOfUser(s, chain, v, f, n);
    }
  }

  /**
   * The cache refines the chain: after any run from the start, cached reads at any block give the direct
   * answers if the last result that reached the store could be derived from, and the last applied one is
   * tagged or none is. The latter holds in every run in which no refresh updates the loaded store.
   */
  lemma CacheRefinesChain(s: Setup, chain: Chain, events: seq<Event>, n: nat)
    requires forall e :: e in events && e.Complete? ==> Full(e.base)
    requires Faithful(s, chain, IDLE, events)
    ensures var d := DerivationOf(s.constants);
            var m := Run(d, IDLE, events);
            && (Settled(d, IDLE, events, true) && EndsTagged(m.applied) ==> ReadsAgree(s, chain, ViewOf(m.store), n))
            && (NoLateRefresh(d, IDLE, events) ==> EndsTagged(m.applied))
  {
    RunsAreCoherent(s, chain, events);
    DerivationDerives(s.constants);
    EndsTaggedWithoutRefresh(DerivationOf(s.constants), events);
    var m := Run(DerivationOf(s.constants), IDLE, events);
    if Coherent(s, chain, ViewOf(m.store)) {
      CoherentReadsAgree(s, chain, ViewOf(m.store), n);
    }
  }

  lemma EndsTaggedWithoutRefresh(d: Derivation, events: seq<Event>)
    requires Derives(d) && forall e :: e in events && e.Complete? ==> Full(e.base)
    ensures NoLateRefresh(d, IDLE, events) ==> EndsTagged(Run(d, IDLE, events).applied)
  {
    TaggedExactly(d, IDLE, events);
    if NoLateRefresh(d, IDLE, events) {
      UpdatesTaggedEndTagged(Run(d, IDLE, events).applied);
    }
  }

  // ----- Reads without a block -----

  /**
   * A read without a block tag always hits. On a safe store it shows the last applied result, whatever
   * block that was of, and before the load the defaults: a price of zero, no troves, an empty address.
   */
  lemma UntaggedReads(d: Derivation, m: Machine, f: Field)
    requires Safe(d, m) && f in BASE_FIELDS
    ensures var v := ViewOf(m.store);
            && CacheHit(v, None)
            && (m.store.loaded ==>
                  var last := m.applied[|m.applied| - 1].contents;
                  f in last && Shown(v, f) == last[f])
            && (!m.store.loaded ==> Nothing(Shown(v, f)))
  {
    if m.store.loaded {
      ShowsLastApplied(d, m, f);
    } else {
      UnloadedShows(m.store, f);
      DefaultIsNothing(f);
    }
  }

  lemma UnloadedShows(s: Store, f: Field)
    requires s.base.None? && s.derived.None? && s.extra.None? && f in BASE_FIELDS
    ensures Shown(ViewOf(s), f) == DefaultContents(f)
  {
    SameParts(s, UNLOADED);
    assert StateOf(UNLOADED) == DefaultState();
  }

  lemma DefaultIsNothing(f: Field)
    requires f in BASE_FIELDS
    ensures Nothing(DefaultContents(f))
  {
  }

  lemma ShowsLastApplied(d: Derivation, m: Machine, f: Field)
    requires Safe(d, m) && m.store.loaded && f in BASE_FIELDS
    ensures var last := m.applied[|m.applied| - 1].contents;
            f in last && Shown(ViewOf(m.store), f) == last[f]
  {
    LoadedView(m.store);
  }

  // ----- What a refresh does to the cache -----

  /**
   * A refresh keeps the old block tag under new contents, even if the derivation throws: a read at that
   * tag shows the refreshed values.
   */
  lemma RefreshKeepsTag(d: Derivation, m: Machine, base: State, timestamp: nat, n: nat, f: Field)
    requires Derives(d) && Sound(d, m) && Full(base) && BlockHit(ViewOf(m.store), n) && f in BASE_FIELDS
    ensures var v := ViewOf(Deliver(d, m, RefreshFetch, base, timestamp).store);
            BlockHit(v, n) && Shown(v, f) == base[f].contents
  {
    HitIsLastTag(d, m, n);
    RefreshDelivered(d, m, base, timestamp);
    var after := Deliver(d, m, RefreshFetch, base, timestamp);
    HitIsLastTag(d, after, n);
    LoadedView(after.store);
    assert ContentsOf(after.store.base.value)[f] == base[f].contents;
  }

  lemma RefreshDelivered(d: Derivation, m: Machine, base: State, timestamp: nat)
    requires Derives(d) && Sound(d, m) && m.store.loaded && Full(base)
    ensures var n := Deliver(d, m, RefreshFetch, base, timestamp);
            && Sound(d, n) && n.store.loaded && ContentsOf(n.store.base.value) == ContentsOf(base)
            && LastTag(n.applied) == LastTag(m.applied)
  {
    DeliverSound(d, m, RefreshFetch, base, timestamp);
    AttemptLeaves(d, m.store, RefreshFetch, base, timestamp);
    LastTagAppend(m.applied, EntryOf(m, RefreshFetch, base, timestamp));
  }

  /**
   * After a refresh under the tag n, a read at n agrees with the chain exactly when the refresh brought
   * the very value of block n: a price that has moved on since then is read as the price of block n.
   */
  lemma RefreshedReads(s: Setup, chain: Chain, m: Machine, base: State, timestamp: nat, n: nat, f: Field)
    requires Sound(DerivationOf(s.constants), m) && BlockHit(ViewOf(m.store), n)
    requires Full(base) && IsGlobalRead(f)
    ensures f in base
    ensures var v := ViewOf(Deliver(DerivationOf(s.constants), m, RefreshFetch, base, timestamp).store);
            CachedGlobal(chain, v, f, n) == DirectGlobal(chain(n), f)
            <==> base[f].contents == DirectGlobal(chain(n), f)
  {
    DerivationDerives(s.constants);
    FetchedGlobal(s, chain(n), f);
    RefreshKeepsTag(DerivationOf(s.constants), m, base, timestamp, n, f);
  }

  /** A result with these contents, but for another price. */
  function Repriced(v: View, price: Decimal): (r: State) {
    WithIdentities(v[Price := Amount(price)], 0)
  }

  lemma RepricedDerivable(v: View, price: Decimal)
    requires Derivable(v)
    ensures Full(Repriced(v, price)) && Derivable(ContentsOf(Repriced(v, price)))
    ensures Price in Repriced(v, price) && Repriced(v, price)[Price].contents == Amount(price)
  {
    PriceOnly(v, price);
    MadeFull(v[Price := Amount(price)]);
  }

  lemma MadeFull(v: View)
    requires v.Keys == BASE_FIELDS
    ensures Full(WithIdentities(v, 0)) && ContentsOf(WithIdentities(v, 0)) == v
  {
  }

  lemma RefreshBeforeTags(s: Setup, chain: Chain, m: Machine, base: State, timestamp: nat)
    requires Sound(DerivationOf(s.constants), m) && m.store.loaded && LastTag(m.applied).None? && Full(base)
    ensures Coherent(s, chain, ViewOf(Deliver(DerivationOf(s.constants), m, RefreshFetch, base, timestamp).store))
  {
    DerivationDerives(s.constants);
    RefreshDelivered(DerivationOf(s.constants), m, base, timestamp);
    UntaggedCoherent(s, chain, Deliver(DerivationOf(s.constants), m, RefreshFetch, base, timestamp));
  }

  lemma RefreshMisleads(s: Setup, chain: Chain, m: Machine, base: State, timestamp: nat, n: nat, f: Field)
    requires Sound(DerivationOf(s.constants), m) && LastTag(m.applied) == Some(n) && IsGlobalRead(f)
    requires Full(base) && f in base && base[f].contents != DirectGlobal(chain(n), f)
    ensures !Coherent(s, chain, ViewOf(Deliver(DerivationOf(s.constants), m, RefreshFetch, base, timestamp).store))
  {
    HitIsLastTag(DerivationOf(s.constants), m, n);
    RefreshedReads(s, chain, m, base, timestamp, n, f);
    var after := ViewOf(Deliver(DerivationOf(s.constants), m, RefreshFetch, base, timestamp).store);
    DisagreementIncoherent(s, chain, after, f, n);
  }

  lemma DisagreementIncoherent(s: Setup, chain: Chain, v: View, f: Field, n: nat)
    requires IsGlobalRead(f) && CachedGlobal(chain, v, f, n) != DirectGlobal(chain(n), f)
    ensures !Coherent(s, chain, v)
  {
    if Coherent(s, chain, v) { GlobalReadsAgree(s, chain, v, f, n); }
  }

  lemma RefreshAfterTag(s: Setup, chain: Chain, m: Machine, timestamp: nat) returns (base: State)
    requires Sound(DerivationOf(s.constants), m) && m.store.loaded && LastTag(m.applied).Some?
    ensures Full(base) && Derivable(ContentsOf(base))
    ensures !Coherent(s, chain, ViewOf(Deliver(DerivationOf(s.constants), m, RefreshFetch, base, timestamp).store))
  {
    var n := LastTag(m.applied).value;
    assert Derivable(m.applied[0].contents) by { DeriveDefined(s.constants, m.applied[0].contents); }
    base := Repriced(m.applied[0].contents, chain(n).price + 1);
    RepricedDerivable(m.applied[0].contents, chain(n).price + 1);
    RefreshMisleads(s, chain, m, base, timestamp, n, Price);
  }

  /**
   * Whatever a refresh of a loaded store may bring, the store is coherent afterwards: this holds
   * exactly when no tag has been applied yet, even if only results are considered that can be derived from.
   */
  lemma RefreshCoherentExactly(s: Setup, chain: Chain, m: Machine, timestamp: nat)
    requires Sound(DerivationOf(s.constants), m) && m.store.loaded
    ensures (forall base: State :: Full(base) && Derivable(ContentsOf(base)) ==>
               Coherent(s, chain, ViewOf(Deliver(DerivationOf(s.constants), m, RefreshFetch, base, timestamp).store)))
            <==> LastTag(m.applied).None?
  {
    if LastTag(m.applied).Some? {
      var base := RefreshAfterTag(s, chain, m, timestamp);
    } else {
      forall base: State | Full(base) && Derivable(ContentsOf(base))
        ensures Coherent(
                  s, chain, ViewOf(Deliver(DerivationOf(s.constants), m, RefreshFetch, base, timestamp).store))
      {
        RefreshBeforeTags(s, chain, m, base, timestamp);
      }
    }
  }
}
