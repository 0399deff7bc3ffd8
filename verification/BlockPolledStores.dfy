/** The store fed by fetches from the chain: packages/lib-ethers/src/BlockPolledLiquityStore.ts. */
module BlockPolledStores {
  import opened Outcomes
  import opened StoreState
  import opened StoreDerivation
  import opened Listeners
  import opened LiquityStores

  // ----- The protocol -----

  /** A fetch that was started and has not completed yet. */
  datatype Fetch = InitialFetch | BlockFetch(tag: nat) | RefreshFetch

  /** One call of start: its block listener and the flag its interval timer raises. */
  datatype Session = Session(active: bool, doUpdate: bool)

  /** A fetch result that reached the store. */
  datatype Applied = Applied(isLoad: bool, tag: Option<nat>, timestamp: nat, contents: View)

  /** The store, what is under way, and the history of fetches started and results applied. */
  datatype Machine = Machine(
    store: Store,
    sessions: seq<Session>,
    pending: seq<Fetch>,
    issued: seq<Fetch>,
    applied: seq<Applied>)

  const IDLE: Machine := Machine(UNLOADED, [], [], [], [])

  datatype Event =
    | Start
    | Tick(session: nat)
    | NewBlock(session: nat, tag: nat)
    | Stop(session: nat)
    | Refresh
    | Complete(index: nat, base: State, timestamp: nat)
    | Fail(index: nat)

  function TagOf(f: Fetch): (t: Option<nat>) {
    if f.BlockFetch? then Some(f.tag) else None
  }

  function Issue(m: Machine, f: Fetch): (r: Machine) {
    m.(pending := m.pending + [f], issued := m.issued + [f])
  }

  function WithoutPending(m: Machine, k: nat): (r: Machine)
    requires k < |m.pending|
  {
    m.(pending := m.pending[..k] + m.pending[k + 1..])
  }

  /** A late initial fetch is dropped; every other completion reaches the store. */
  predicate Dropped(m: Machine, f: Fetch) {
    m.store.loaded && f.InitialFetch?
  }

  /** What the completion calls: it loads an unloaded store and updates a loaded one. */
  function Attempt(d: Derivation, s: Store, f: Fetch, base: State, timestamp: nat): (r: Result<Store>) {
    if s.loaded then Update(d, s, Some(base), Some(ExtraUpdate(TagOf(f), Some(timestamp))))
    else Load(d, s, base, Some(Extra(TagOf(f), timestamp)))
  }

  function LeftByAttempt(d: Derivation, s: Store, f: Fetch, base: State, timestamp: nat): (r: Store) {
    if s.loaded then LeftByUpdate(d, s, Some(base), Some(ExtraUpdate(TagOf(f), Some(timestamp))))
    else LeftByLoad(d, s, base, Some(Extra(TagOf(f), timestamp)))
  }

  function EntryOf(m: Machine, f: Fetch, base: State, timestamp: nat): (e: Applied) {
    Applied(!m.store.loaded, TagOf(f), timestamp, ContentsOf(base))
  }

  /** A result counts as applied unless the call throws; what the call assigned before that stays. */
  function Deliver(d: Derivation, m: Machine, f: Fetch, base: State, timestamp: nat): (r: Machine) {
    if Dropped(m, f) then m
    else
      m.(store := LeftByAttempt(d, m.store, f, base, timestamp),
         applied := if Attempt(d, m.store, f, base, timestamp).Ok?
                    then m.applied + [EntryOf(m, f, base, timestamp)] else m.applied)
  }

  /** Events about a session or fetch that does not exist do not happen. */
  function Step(d: Derivation, m: Machine, e: Event): (r: Machine) {
    match e
    case Start => Issue(m.(sessions := m.sessions + [Session(true, false)]), InitialFetch)
    case Tick(i) =>
      if i < |m.sessions| && m.sessions[i].active
      then m.(sessions := m.sessions[i := Session(true, true)])
      else m
    case NewBlock(i, tag) =>
      if i < |m.sessions| && m.sessions[i].active && m.sessions[i].doUpdate
      then Issue(m.(sessions := m.sessions[i := Session(true, false)]), BlockFetch(tag))
      else m
    case Stop(i) =>
      if i < |m.sessions| then m.(sessions := m.sessions[i := Session(false, m.sessions[i].doUpdate)]) else m
    case Refresh => Issue(m, RefreshFetch)
    case Complete(k, base, timestamp) =>
      if k < |m.pending| then Deliver(d, WithoutPending(m, k), m.pending[k], base, timestamp) else m
    case Fail(k) => if k < |m.pending| then WithoutPending(m, k) else m
  }

  function Run(d: Derivation, m: Machine, events: seq<Event>): (r: Machine)
    decreases events
  {
    if events == [] then m else Run(d, Step(d, m, events[0]), events[1..])
  }

  // ----- Safety of every interleaving -----

  /** The last tag among the applied results. */
  function LastTag(applied: seq<Applied>): (t: Option<nat>) {
    if applied == [] then None
    else if applied[|applied| - 1].tag.Some? then applied[|applied| - 1].tag
    else LastTag(applied[..|applied| - 1])
  }

  /** Exactly one load, before any update, and every applied result could be derived from. */
  ghost predicate LoadsOnce(d: Derivation, applied: seq<Applied>) {
    forall i :: 0 <= i < |applied| ==> (applied[i].isLoad <==> i == 0) && d(applied[i].contents).Ok?
  }

  /**
   * What holds at all times: a store loaded by the first applied result, whose tag and timestamp are
   * those applied last; its base state is that of the last applied result, with the derived state that
   * goes with it, unless it cannot be derived from.
   */
  ghost predicate Sound(d: Derivation, m: Machine) {
    && Whole(m.store) && LoadsOnce(d, m.applied)
    && (m.store.loaded <==> m.applied != [])
    && (m.store.loaded ==>
          var last := m.applied[|m.applied| - 1];
          && m.store.extra.value == Extra(LastTag(m.applied), last.timestamp)
          && (d(ContentsOf(m.store.base.value)).Ok? ==>
                Consistent(d, m.store) && ContentsOf(m.store.base.value) == last.contents))
  }

  /** In addition, the derived state goes with the base state, which is that of the last applied result. */
  ghost predicate Safe(d: Derivation, m: Machine) {
    Sound(d, m) && Consistent(d, m.store)
  }

  /** A fetch brings all base fields. */
  predicate Full(base: State) {
    base.Keys == BASE_FIELDS && Defined(base) == base
  }

  lemma LastTagAppend(applied: seq<Applied>, e: Applied)
    ensures LastTag(applied + [e]) == if e.tag.Some? then e.tag else LastTag(applied)
  {
    assert (applied + [e])[..|applied|] == applied;
  }

  lemma FullUpdate(base: State, update: State)
    requires base.Keys == BASE_FIELDS && Full(update)
    ensures Merged(base, Some(update)) == ContentsOf(update)
  {
  }

  /**
   * What a completion that reaches the store does to it: no assert fires, for it throws only what the
   * derivation throws; the result's contents are taken over, consistently exactly if nothing is thrown,
   * and the tag and timestamp then too.
   */
  lemma AttemptLeaves(d: Derivation, s: Store, f: Fetch, base: State, timestamp: nat)
    requires Derives(d) && Whole(s) && Full(base)
    ensures var r, next := Attempt(d, s, f, base, timestamp), d(ContentsOf(base));
            var t := LeftByAttempt(d, s, f, base, timestamp);
            && (r.Ok? <==> next.Ok?) && (r.Ok? ==> r.value == t) && (r.Err? ==> next == Err(r.failure))
            && Whole(t) && (t.loaded <==> s.loaded || next.Ok?)
            && t.base.Some? && ContentsOf(t.base.value) == ContentsOf(base)
            && (Consistent(d, t) <==> next.Ok?)
            && (next.Err? ==> t.extra == s.extra)
            && (next.Ok? ==>
                  t.extra == Some(Extra(if f.BlockFetch? then Some(f.tag)
                                        else if s.loaded then s.extra.value.blockTag else None, timestamp)))
  {
    if s.loaded {
      FullUpdate(s.base.value, base);
      UpdateLeaves(d, s, Some(base), Some(ExtraUpdate(TagOf(f), Some(timestamp))));
    } else {
      LoadLeaves(d, s, base, Extra(TagOf(f), timestamp));
    }
  }

  /** A store that took over a result, with that result added to the history. */
  lemma EntrySafe(d: Derivation, m: Machine, s: Store, e: Applied)
    requires Sound(d, m) && Consistent(d, s) && s.loaded
    requires e.isLoad <==> !m.store.loaded
    requires ContentsOf(s.base.value) == e.contents
    requires s.extra.value == Extra(if e.tag.Some? then e.tag else LastTag(m.applied), e.timestamp)
    ensures Safe(d, m.(store := s, applied := m.applied + [e]))
  {
    LastTagAppend(m.applied, e);
  }

  /** A store whose update or load threw, with the same history. */
  lemma ThrownSound(d: Derivation, m: Machine, s: Store)
    requires Sound(d, m) && Whole(s) && s.loaded == m.store.loaded && s.extra == m.store.extra
    requires s.base.Some? && d(ContentsOf(s.base.value)).Err?
    ensures Sound(d, m.(store := s)) && !Safe(d, m.(store := s))
  {
  }

  lemma DeliverSound(d: Derivation, m: Machine, f: Fetch, base: State, timestamp: nat)
    requires Derives(d) && Sound(d, m) && Full(base)
    ensures var n := Deliver(d, m, f, base, timestamp);
            && Sound(d, n)
            && (!Dropped(m, f) ==> (Safe(d, n) <==> d(ContentsOf(base)).Ok?))
  {
    if !Dropped(m, f) {
      AttemptLeaves(d, m.store, f, base, timestamp);
      var s := LeftByAttempt(d, m.store, f, base, timestamp);
      if d(ContentsOf(base)).Ok? {
        EntrySafe(d, m, s, EntryOf(m, f, base, timestamp));
      } else {
        ThrownSound(d, m, s);
      }
    }
  }

  /** The event is the completion of a fetch whose result reaches the store. */
  predicate Reaches(m: Machine, e: Event) {
    e.Complete? && e.index < |m.pending| && !Dropped(m, m.pending[e.index])
  }

  /** A step keeps soundness; safety is decided by the result that reaches the store, if any does. */
  lemma StepSound(d: Derivation, m: Machine, e: Event)
    requires Derives(d) && Sound(d, m) && (e.Complete? ==> Full(e.base))
    ensures Sound(d, Step(d, m, e))
    ensures Safe(d, Step(d, m, e)) <==> if Reaches(m, e) then d(ContentsOf(e.base)).Ok? else Safe(d, m)
  {
    if e.Complete? && e.index < |m.pending| {
      SameStore(d, m, WithoutPending(m, e.index));
      DeliverSound(d, WithoutPending(m, e.index), m.pending[e.index], e.base, e.timestamp);
    } else {
      StoreUntouched(d, m, e);
      SameStore(d, m, Step(d, m, e));
    }
  }

  lemma StoreUntouched(d: Derivation, m: Machine, e: Event)
    requires !e.Complete? || |m.pending| <= e.index
    ensures Step(d, m, e).store == m.store && Step(d, m, e).applied == m.applied
  {
  }

  lemma SameStore(d: Derivation, m: Machine, n: Machine)
    requires Sound(d, m) && n.store == m.store && n.applied == m.applied
    ensures Sound(d, n) && (Safe(d, n) <==> Safe(d, m))
  {
  }

  /** Whether the last result that reaches the store can be derived from; start answers if none does. */
  predicate Settled(d: Derivation, m: Machine, events: seq<Event>, start: bool)
    decreases events
  {
    if events == [] then start
    else Settled(d, Step(d, m, events[0]), events[1..],
                 if Reaches(m, events[0]) then d(ContentsOf(events[0].base)).Ok? else start)
  }

  /**
   * In every interleaving of fetches, whatever they bring, every reached state is sound; it is safe
   * exactly when the last result that reached the store could be derived from.
   */
  lemma {:induction false} RunSafe(d: Derivation, m: Machine, events: seq<Event>)
    requires Derives(d) && Sound(d, m)
    requires forall e :: e in events && e.Complete? ==> Full(e.base)
    ensures Sound(d, Run(d, m, events))
    ensures Safe(d, Run(d, m, events)) <==> Settled(d, m, events, Safe(d, m))
    decreases events
  {
    if events == [] {
    } else {
      StepSound(d, m, events[0]);
      RunSafe(d, Step(d, m, events[0]), events[1..]);
    }
  }

  /** In particular when every result can be derived from. */
  lemma {:induction false} DerivableRunsSettle(d: Derivation, m: Machine, events: seq<Event>)
    requires forall e :: e in events && e.Complete? ==> d(ContentsOf(e.base)).Ok?
    ensures Settled(d, m, events, true)
    decreases events
  {
    if events == [] {
    } else {
      DerivableRunsSettle(d, Step(d, m, events[0]), events[1..]);
    }
  }

  /**
   * For the store's own derivation, from the start: after any run no assert fires in the next
   * completion either, and the derived state equals by value what the kept base state derives to, exactly
   * when the last result that reached the store had the right shape and a recent enough fee time.
   */
  lemma EveryInterleavingIsSafe(c: StoreConstants, events: seq<Event>, f: Fetch, base: State, timestamp: nat)
    requires forall e :: e in events && e.Complete? ==> Full(e.base)
    requires Full(base)
    ensures var d := DerivationOf(c);
            var m := Run(d, IDLE, events);
            var next := Attempt(d, m.store, f, base, timestamp);
            && Sound(d, m)
            && (next.Ok? <==> Derivable(ContentsOf(base)))
            && (next.Err? ==> Derive(c, ContentsOf(base)) == Err(next.failure))
            && (Safe(d, m) <==> Settled(d, IDLE, events, true))
            && (m.store.loaded ==>
                  (Derive(c, ContentsOf(m.store.base.value)) == Ok(ContentsOf(m.store.derived.value))
                   <==> Settled(d, IDLE, events, true)))
  {
    var d := DerivationOf(c);
    DerivationDerives(c);
    RunSafe(d, IDLE, events);
    AttemptLeaves(d, Run(d, IDLE, events).store, f, base, timestamp);
    DeriveDefined(c, ContentsOf(base));
  }

  /**
   * What a completion does: the first one loads its result, whichever fetch it is; an initial fetch
   * overtaken by it is dropped; any other result replaces the contents, keeping the old tag if untagged.
   * A result that cannot be derived from replaces the base contents all the same, and nothing else.
   */
  lemma CompletionOutcome(d: Derivation, m: Machine, k: nat, base: State, timestamp: nat)
    requires Derives(d) && Sound(d, m) && Full(base) && k < |m.pending|
    ensures var n, f := Step(d, m, Complete(k, base, timestamp)), m.pending[k];
            && n.pending == m.pending[..k] + m.pending[k + 1..]
            && (m.store.loaded && f.InitialFetch? ==> n.store == m.store && n.applied == m.applied)
            && (!m.store.loaded || !f.InitialFetch? ==>
                  && n.store.base.Some? && ContentsOf(n.store.base.value) == ContentsOf(base)
                  && (d(ContentsOf(base)).Err? ==>
                        && n.store.loaded == m.store.loaded && n.store.extra == m.store.extra
                        && n.applied == m.applied)
                  && (d(ContentsOf(base)).Ok? ==>
                        && n.store.loaded && n.applied == m.applied + [EntryOf(m, f, base, timestamp)]
                        && n.store.extra
                           == Some(Extra(if f.BlockFetch? then Some(f.tag) else LastTag(m.applied), timestamp))))
  {
    DeliverOutcome(d, WithoutPending(m, k), m.pending[k], base, timestamp);
  }

  lemma DeliverOutcome(d: Derivation, m: Machine, f: Fetch, base: State, timestamp: nat)
    requires Derives(d) && Sound(d, m) && Full(base)
    ensures var n := Deliver(d, m, f, base, timestamp);
            && n.pending == m.pending
            && (Dropped(m, f) ==> n.store == m.store && n.applied == m.applied)
            && (!Dropped(m, f) ==>
                  && n.store.base.Some? && ContentsOf(n.store.base.value) == ContentsOf(base)
                  && (d(ContentsOf(base)).Err? ==>
                        && n.store.loaded == m.store.loaded && n.store.extra == m.store.extra
                        && n.applied == m.applied)
                  && (d(ContentsOf(base)).Ok? ==>
                        && n.store.loaded && n.applied == m.applied + [EntryOf(m, f, base, timestamp)]
                        && n.store.extra
                           == Some(Extra(if f.BlockFetch? then Some(f.tag) else LastTag(m.applied), timestamp))))
  {
    AttemptLeaves(d, m.store, f, base, timestamp);
  }

  /** What a step adds to the history: a result that reaches the store and can be derived from. */
  lemma StepApplies(d: Derivation, m: Machine, e: Event)
    requires Derives(d) && Sound(d, m) && (e.Complete? ==> Full(e.base))
    ensures Step(d, m, e).applied ==
            if Reaches(m, e) && d(ContentsOf(e.base)).Ok?
            then m.applied + [EntryOf(m, m.pending[e.index], e.base, e.timestamp)]
            else m.applied
  {
    if Reaches(m, e) {
      AttemptLeaves(d, m.store, m.pending[e.index], e.base, e.timestamp);
    }
  }

  /**
   * Progress: after a tick, the next block of an active session is fetched, and once its result is there
   * the store is safe and shows it under its tag; a refresh started and completed shows its result.
   */
  lemma FetchesReachStore(d: Derivation, m: Machine, i: nat, tag: nat, base: State, timestamp: nat)
    requires Derives(d) && Sound(d, m) && Full(base) && d(ContentsOf(base)).Ok?
    ensures i < |m.sessions| && m.sessions[i].active ==>
              var n := Step(d, Step(d, Step(d, m, Tick(i)), NewBlock(i, tag)), Complete(|m.pending|, base, timestamp));
              Shows(d, n, base, Extra(Some(tag), timestamp)) && n.pending == m.pending
    ensures var n := Step(d, Step(d, m, Refresh), Complete(|m.pending|, base, timestamp));
            Shows(d, n, base, Extra(LastTag(m.applied), timestamp)) && n.pending == m.pending
    ensures !m.store.loaded ==>
              var n := Step(d, Step(d, m, Start), Complete(|m.pending|, base, timestamp));
              Shows(d, n, base, Extra(None, timestamp)) && n.pending == m.pending
  {
    if i < |m.sessions| && m.sessions[i].active {
      var ticked := Step(d, m, Tick(i));
      assert ticked.sessions[i] == Session(true, true);
      IssuedReaches(d, m, Step(d, ticked, NewBlock(i, tag)), BlockFetch(tag), base, timestamp);
    }
    IssuedReaches(d, m, Step(d, m, Refresh), RefreshFetch, base, timestamp);
    if !m.store.loaded {
      IssuedReaches(d, m, Step(d, m, Start), InitialFetch, base, timestamp);
    }
  }

  /** The store is loaded and safe, with these base contents, tag and timestamp. */
  ghost predicate Shows(d: Derivation, m: Machine, base: State, extra: Extra) {
    && Safe(d, m) && m.store.loaded && m.store.extra == Some(extra)
    && ContentsOf(m.store.base.value) == ContentsOf(base)
  }

  lemma IssuedReaches(d: Derivation, m: Machine, n: Machine, f: Fetch, base: State, timestamp: nat)
    requires Derives(d) && Sound(d, m) && Full(base) && d(ContentsOf(base)).Ok?
    requires n.store == m.store && n.applied == m.applied && n.pending == m.pending + [f] && !Dropped(m, f)
    ensures var after := Step(d, n, Complete(|m.pending|, base, timestamp));
            && after.pending == m.pending
            && Shows(d, after, base, Extra(if f.BlockFetch? then Some(f.tag) else LastTag(m.applied), timestamp))
  {
    var taken := n.(pending := m.pending);
    CompletesLast(d, m.pending, n, f, base, timestamp);
    SameStore(d, m, taken);
    DeliverSound(d, taken, f, base, timestamp);
    DeliverOutcome(d, taken, f, base, timestamp);
  }

  lemma CompletesLast(d: Derivation, pending: seq<Fetch>, n: Machine, f: Fetch, base: State, timestamp: nat)
    requires n.pending == pending + [f]
    ensures Step(d, n, Complete(|pending|, base, timestamp))
         == Deliver(d, n.(pending := pending), f, base, timestamp)
  {
    assert (pending + [f])[..|pending|] + (pending + [f])[|pending| + 1..] == pending;
    assert (pending + [f])[|pending|] == f;
  }

  // ----- Throttling -----

  function Armed(sessions: seq<Session>): (n: nat) {
    if sessions == [] then 0
    else Armed(sessions[..|sessions| - 1]) + (if sessions[|sessions| - 1].doUpdate then 1 else 0)
  }

  function BlockFetches(fetches: seq<Fetch>): (n: nat) {
    if fetches == [] then 0
    else BlockFetches(fetches[..|fetches| - 1]) + (if fetches[|fetches| - 1].BlockFetch? then 1 else 0)
  }

  function Ticks(events: seq<Event>): (n: nat) {
    if events == [] then 0 else (if events[0].Tick? then 1 else 0) + Ticks(events[1..])
  }

  lemma {:induction false} ArmedUpdate(sessions: seq<Session>, i: nat, s: Session)
    requires i < |sessions|
    ensures Armed(sessions[i := s]) ==
            Armed(sessions) - (if sessions[i].doUpdate then 1 else 0) + (if s.doUpdate then 1 else 0)
  {
    var n, t := |sessions| - 1, sessions[i := s];
    if i < n {
      ArmedUpdate(sessions[..n], i, s);
      assert t[..n] == sessions[..n][i := s];
    } else {
      assert t[..n] == sessions[..n];
    }
  }

  lemma ArmedAppend(sessions: seq<Session>, s: Session)
    ensures Armed(sessions + [s]) == Armed(sessions) + if s.doUpdate then 1 else 0
  {
    assert (sessions + [s])[..|sessions|] == sessions;
  }

  lemma BlockFetchesAppend(fetches: seq<Fetch>, f: Fetch)
    ensures BlockFetches(fetches + [f]) == BlockFetches(fetches) + if f.BlockFetch? then 1 else 0
  {
    assert (fetches + [f])[..|fetches|] == fetches;
  }

  lemma StepThrottled(d: Derivation, m: Machine, e: Event)
    ensures var n := Step(d, m, e);
            BlockFetches(n.issued) + Armed(n.sessions)
            <= BlockFetches(m.issued) + Armed(m.sessions) + if e.Tick? then 1 else 0
  {
    match e {
      case Start =>
        ArmedAppend(m.sessions, Session(true, false));
        BlockFetchesAppend(m.issued, InitialFetch);
      case Tick(i) =>
        if i < |m.sessions| { ArmedUpdate(m.sessions, i, Session(true, true)); }
      case NewBlock(i, tag) =>
        if i < |m.sessions| {
          ArmedUpdate(m.sessions, i, Session(true, false));
          BlockFetchesAppend(m.issued, BlockFetch(tag));
        }
      case Stop(i) =>
        if i < |m.sessions| { ArmedUpdate(m.sessions, i, Session(false, m.sessions[i].doUpdate)); }
      case Refresh =>
        BlockFetchesAppend(m.issued, RefreshFetch);
      case Complete(_, _, _) =>
      case Fail(_) =>
    }
  }

  /** Over any run there are at most as many block fetches as timer ticks. */
  lemma {:induction false} RunThrottled(d: Derivation, m: Machine, events: seq<Event>)
    ensures var n := Run(d, m, events);
            BlockFetches(n.issued) + Armed(n.sessions) <= BlockFetches(m.issued) + Armed(m.sessions) + Ticks(events)
    decreases events
  {
    if events == [] {
    } else {
      StepThrottled(d, m, events[0]);
      RunThrottled(d, Step(d, m, events[0]), events[1..]);
    }
  }

  /** A stopped session stays stopped and starts no block fetch, though fetches under way still arrive. */
  lemma {:induction false} StoppedStaysStopped(d: Derivation, m: Machine, events: seq<Event>, i: nat, tag: nat)
    requires i < |m.sessions| && !m.sessions[i].active
    ensures var n := Run(d, m, events);
            i < |n.sessions| && !n.sessions[i].active && Step(d, n, NewBlock(i, tag)) == n
    decreases events
  {
    if events == [] {
    } else {
      StoppedStaysStopped(d, Step(d, m, events[0]), events[1..], i, tag);
    }
  }

  /** Stopping a session changes nothing else, and whatever happens then, its block listener is silent. */
  lemma StopStops(d: Derivation, m: Machine, i: nat, events: seq<Event>, tag: nat)
    requires i < |m.sessions|
    ensures var s := Step(d, m, Stop(i));
            && s.store == m.store && s.applied == m.applied && s.pending == m.pending && s.issued == m.issued
            && |s.sessions| == |m.sessions|
            && (forall j :: 0 <= j < |m.sessions| && j != i ==> s.sessions[j] == m.sessions[j])
            && Step(d, Run(d, s, events), NewBlock(i, tag)) == Run(d, s, events)
  {
    StoppedStaysStopped(d, Step(d, m, Stop(i)), events, i, tag);
  }

  /**
   * Starting fetches at once and opens a session of its own: blocks before its first tick are ignored,
   * the first one after it is fetched, and those after that wait for the next tick.
   */
  lemma StartStarts(d: Derivation, m: Machine, early: nat, tag: nat, late: nat)
    ensures var k, started := |m.sessions|, Step(d, m, Start);
            var fetched := Step(d, Step(d, started, Tick(k)), NewBlock(k, tag));
            && started.pending == m.pending + [InitialFetch] && started.issued == m.issued + [InitialFetch]
            && started.sessions[..k] == m.sessions && Step(d, started, NewBlock(k, early)) == started
            && fetched.pending == started.pending + [BlockFetch(tag)]
            && fetched.issued == started.issued + [BlockFetch(tag)]
            && fetched.sessions[..k] == m.sessions && Step(d, fetched, NewBlock(k, late)) == fetched
            && fetched.store == m.store
  {
  }

  // ----- Conservation of fetches -----

  /** The fetches that the events complete or fail. */
  function Taken(d: Derivation, m: Machine, events: seq<Event>): (r: multiset<Fetch>)
    decreases events
  {
    if events == [] then multiset{} else TakenBy(m, events[0]) + Taken(d, Step(d, m, events[0]), events[1..])
  }

  function TakenBy(m: Machine, e: Event): (r: multiset<Fetch>) {
    if (e.Complete? || e.Fail?) && e.index < |m.pending| then multiset{m.pending[e.index]} else multiset{}
  }

  lemma PendingSplit(pending: seq<Fetch>, k: nat)
    requires k < |pending|
    ensures multiset(pending) == multiset(pending[..k] + pending[k + 1..]) + multiset{pending[k]}
  {
    assert pending == pending[..k] + [pending[k]] + pending[k + 1..];
  }

  lemma StepConserves(d: Derivation, m: Machine, e: Event, f: Fetch)
    ensures var n := Step(d, m, e);
            multiset(n.pending)[f] + TakenBy(m, e)[f] + multiset(m.issued)[f]
            == multiset(m.pending)[f] + multiset(n.issued)[f]
  {
    if (e.Complete? || e.Fail?) && e.index < |m.pending| {
      PendingSplit(m.pending, e.index);
      FetchTaken(d, m, e);
    } else {
      var n := Step(d, m, e);
      FetchIssued(d, m, e);
      if n.pending != m.pending {
        CountedTwice(m.pending, m.issued, n.pending[|m.pending|], f);
      }
    }
  }

  lemma FetchTaken(d: Derivation, m: Machine, e: Event)
    requires (e.Complete? || e.Fail?) && e.index < |m.pending|
    ensures var n := Step(d, m, e);
            n.pending == m.pending[..e.index] + m.pending[e.index + 1..] && n.issued == m.issued
  {
  }

  lemma FetchIssued(d: Derivation, m: Machine, e: Event)
    requires !(e.Complete? || e.Fail?) || |m.pending| <= e.index
    ensures var n := Step(d, m, e);
            || (n.pending == m.pending && n.issued == m.issued)
            || (|m.pending| < |n.pending|
                && n.pending == m.pending + [n.pending[|m.pending|]]
                && n.issued == m.issued + [n.pending[|m.pending|]])
  {
  }

  lemma CountedTwice(pending: seq<Fetch>, issued: seq<Fetch>, g: Fetch, f: Fetch)
    ensures multiset(pending + [g])[f] + multiset(issued)[f] == multiset(pending)[f] + multiset(issued + [g])[f]
  {
  }

  /** Every fetch that was started is under way, or was completed or failed exactly once. */
  lemma {:induction false} FetchesConserved(d: Derivation, m: Machine, events: seq<Event>, f: Fetch)
    ensures var n := Run(d, m, events);
            multiset(n.pending)[f] + Taken(d, m, events)[f] + multiset(m.issued)[f]
            == multiset(m.pending)[f] + multiset(n.issued)[f]
    decreases events
  {
    if events == [] {
    } else {
      StepConserves(d, m, events[0], f);
      FetchesConserved(d, Step(d, m, events[0]), events[1..], f);
    }
  }

  // ----- The object -----

  class BlockPolledStore {
    const store: LiquityStore
    var sessions: seq<Session>
    var pending: seq<Fetch>
    ghost var issued: seq<Fetch>
    ghost var applied: seq<Applied>

    ghost function Abs(): (m: Machine)
      reads this, store
    {
      Machine(store.Snapshot(), sessions, pending, issued, applied)
    }

    ghost predicate Valid()
      reads this, store
    {
      store.Valid() && Sound(store.derive, Abs())
    }

    constructor (d: Derivation)
      requires Derives(d)
      ensures Valid() && store.derive == d && Abs() == IDLE && fresh(store)
    {
      store := new LiquityStore(d);
      sessions, pending, issued, applied := [], [], [], [];
    }

    /** Starting fetches at once and begins a session whose flag is down. */
    method DoStart()
      requires Valid()
      modifies this
      ensures Valid() && Abs() == Step(store.derive, old(Abs()), Start)
    {
      StepSound(store.derive, Abs(), Start);
      sessions := sessions + [Session(true, false)];
      pending := pending + [InitialFetch];
      issued := issued + [InitialFetch];
    }

    method OnTick(i: nat)
      requires Valid()
      modifies this
      ensures Valid() && Abs() == Step(store.derive, old(Abs()), Tick(i))
    {
      StepSound(store.derive, Abs(), Tick(i));
      if i < |sessions| && sessions[i].active {
        sessions := sessions[i := Session(true, true)];
      }
    }

    method OnBlock(i: nat, tag: nat)
      requires Valid()
      modifies this
      ensures Valid() && Abs() == Step(store.derive, old(Abs()), NewBlock(i, tag))
    {
      StepSound(store.derive, Abs(), NewBlock(i, tag));
      if !(i < |sessions| && sessions[i].active && sessions[i].doUpdate) { return; }
      sessions := sessions[i := Session(true, false)];
      pending := pending + [BlockFetch(tag)];
      issued := issued + [BlockFetch(tag)];
    }

    method DoStop(i: nat)
      requires Valid()
      modifies this
      ensures Valid() && Abs() == Step(store.derive, old(Abs()), Stop(i))
    {
      StepSound(store.derive, Abs(), Stop(i));
      if i < |sessions| {
        sessions := sessions[i := Session(false, sessions[i].doUpdate)];
      }
    }

    method DoRefresh()
      requires Valid()
      modifies this
      ensures Valid() && Abs() == Step(store.derive, old(Abs()), Refresh)
    {
      StepSound(store.derive, Abs(), Refresh);
      pending := pending + [RefreshFetch];
      issued := issued + [RefreshFetch];
    }

    /** A completion: which branch it takes depends on the store as it is by now. */
    method OnFetched(k: nat, base: State, timestamp: nat, onLoaded: seq<ListenerOp>, script: Script)
      requires Valid() && Full(base)
      modifies this, store
      ensures Valid() && Abs() == Step(store.derive, old(Abs()), Complete(k, base, timestamp))
    {
      if |pending| <= k { return; }
      ghost var before := Abs();
      var fetch := pending[k];
      pending := pending[..k] + pending[k + 1..];
      assert Abs() == WithoutPending(before, k);
      SameStore(store.derive, before, Abs());
      TakeOver(fetch, base, timestamp, onLoaded, script);
    }

    /** A result that throws is not applied, and stays half assigned. */
    method TakeOver(fetch: Fetch, base: State, timestamp: nat, onLoaded: seq<ListenerOp>, script: Script)
      requires Valid() && Full(base)
      modifies this`applied, store
      ensures Valid() && Abs() == Deliver(store.derive, old(Abs()), fetch, base, timestamp)
    {
      ghost var before := Abs();
      DeliverSound(store.derive, before, fetch, base, timestamp);
      if store.loaded && fetch.InitialFetch? { return; }
      var ok := Try(fetch, base, timestamp, onLoaded, script);
      if ok {
        applied := applied + [EntryOf(before, fetch, base, timestamp)];
      }
      assert Abs() == before.(store := store.Snapshot(), applied := applied);
    }

    method Try(fetch: Fetch, base: State, timestamp: nat, onLoaded: seq<ListenerOp>, script: Script)
      returns (ok: bool)
      requires store.Valid() && Full(base)
      modifies store
      ensures store.Valid()
      ensures store.Snapshot() == LeftByAttempt(store.derive, old(store.Snapshot()), fetch, base, timestamp)
      ensures ok == Attempt(store.derive, old(store.Snapshot()), fetch, base, timestamp).Ok?
    {
      if store.loaded {
        var r := store.DoUpdate(Some(base), Some(ExtraUpdate(TagOf(fetch), Some(timestamp))), script);
        ok := r.Ok?;
      } else {
        var r := store.DoLoad(base, Extra(TagOf(fetch), timestamp), onLoaded, script);
        ok := r.Ok?;
      }
    }
  }
}
