/** The store object: packages/lib-base/src/HLiquityStore.ts, class HLiquityStore. */
module LiquityStores {
  import opened Outcomes
  import opened StoreState
  import opened Listeners

  // ----- What one listener receives -----

  /** An update, and what the listeners called in its round do to the registry. */
  datatype Turn = Turn(update: PendingUpdate, script: Script)

  function UpdatesOf(turns: seq<Turn>): (us: seq<PendingUpdate>)
    ensures |us| == |turns| && forall i :: 0 <= i < |us| ==> us[i] == turns[i].update
  {
    seq(|turns|, i requires 0 <= i < |turns| => turns[i].update)
  }

  /** The round of a turn; an update that throws notifies nobody. */
  function RoundOf(d: Derivation, s: Store, r: Registry, turn: Turn): (res: RoundResult) {
    if Update(d, s, turn.update.base, turn.update.extra).Ok? then Round(r.listeners, r, turn.script)
    else RoundResult([], r)
  }

  function RegistryAfter(d: Derivation, s: Store, r: Registry, turns: seq<Turn>): (res: Registry)
    decreases turns
  {
    if turns == [] then r
    else
      var t := LeftByUpdate(d, s, turns[0].update.base, turns[0].update.extra);
      RegistryAfter(d, t, RoundOf(d, s, r, turns[0]).registry, turns[1..])
  }

  /** The change records that the listener x is called with. */
  function Received(d: Derivation, s: Store, r: Registry, turns: seq<Turn>, x: ListenerId): (res: seq<State>)
    decreases turns
  {
    if turns == [] then []
    else
      var t := LeftByUpdate(d, s, turns[0].update.base, turns[0].update.extra);
      var round := RoundOf(d, s, r, turns[0]);
      (if x in round.called then [NotificationOf(s, t).stateChange] else [])
      + Received(d, t, round.registry, turns[1..], x)
  }

  lemma RoundOfKeeps(d: Derivation, s: Store, r: Registry, turn: Turn, x: ListenerId)
    requires r.Valid() && x < r.next
    ensures var round := RoundOf(d, s, r, turn);
            && round.registry.Valid() && r.next <= round.registry.next
            && (x in round.registry.listeners <==> x in r.listeners && RemovedByNone(x, round.called, turn.script))
            && (x in round.registry.listeners ==>
                  (x in round.called <==> Update(d, s, turn.update.base, turn.update.extra).Ok?))
  {
    RoundFrom(r.listeners, r, turn.script);
    if x in r.listeners {
      var i :| 0 <= i < |r.listeners| && r.listeners[i] == x;
    }
  }

  /**
   * A listener that is still registered after any number of updates, whatever all listeners did to the
   * registry meanwhile, was registered all along and has received every announced change, in order.
   */
  lemma {:induction false} RegisteredReceivesAll(d: Derivation, s: Store, r: Registry, turns: seq<Turn>, x: ListenerId)
    requires r.Valid() && x < r.next && x in RegistryAfter(d, s, r, turns).listeners
    ensures x in r.listeners && Received(d, s, r, turns, x) == ChangeLog(d, s, UpdatesOf(turns))
    decreases turns
  {
    if turns == [] {
    } else {
      var t := LeftByUpdate(d, s, turns[0].update.base, turns[0].update.extra);
      var round := RoundOf(d, s, r, turns[0]);
      RoundOfKeeps(d, s, r, turns[0], x);
      RegisteredReceivesAll(d, t, round.registry, turns[1..], x);
      assert UpdatesOf(turns)[1..] == UpdatesOf(turns[1..]);
    }
  }

  /** A listener that nobody removes stays registered. */
  lemma {:induction false} UnremovedStays(d: Derivation, s: Store, r: Registry, turns: seq<Turn>, x: ListenerId)
    requires r.Valid() && x in r.listeners
    requires forall turn, l: ListenerId :: turn in turns ==> Remove(x) !in turn.script(l)
    ensures x in RegistryAfter(d, s, r, turns).listeners
    decreases turns
  {
    if turns == [] {
    } else {
      var t := LeftByUpdate(d, s, turns[0].update.base, turns[0].update.extra);
      RoundOfKeeps(d, s, r, turns[0], x);
      UnremovedStays(d, t, RoundOf(d, s, r, turns[0]).registry, turns[1..], x);
    }
  }

  /**
   * So it rebuilds the state: folding what it received over the state it was welcomed with gives the
   * state after the last update, when none of them throws.
   */
  lemma ListenerReplays(d: Derivation, s: Store, r: Registry, turns: seq<Turn>, x: ListenerId)
    requires Derives(d) && Whole(s) && s.loaded
    requires BaseUpdates(UpdatesOf(turns)) && NoneThrows(d, s, UpdatesOf(turns))
    requires r.Valid() && x < r.next && x in RegistryAfter(d, s, r, turns).listeners
    ensures Replay(StateOf(s), Received(d, s, r, turns, x)) == StateOf(AfterUpdates(d, s, UpdatesOf(turns)))
  {
    RegisteredReceivesAll(d, s, r, turns, x);
    ReplayGivesState(d, s, UpdatesOf(turns));
  }

  // ----- The object -----

  class LiquityStore {
    const derive: Derivation
    var loaded: bool
    var base: Option<State>
    var derived: Option<State>
    var extra: Option<Extra>
    var rounds: nat
    var registry: Registry

    function Snapshot(): (s: Store)
      reads this
    {
      Store(loaded, base, derived, extra, rounds)
    }

    ghost predicate Valid()
      reads this
    {
      Derives(derive) && Whole(Snapshot()) && registry.Valid()
    }

    constructor (d: Derivation)
      requires Derives(d)
      ensures Valid() && derive == d && Snapshot() == UNLOADED && registry == NOBODY
    {
      derive := d;
      loaded, base, derived, extra, rounds := false, None, None, None, 0;
      registry := NOBODY;
    }

    method CurrentState() returns (s: State)
      ensures s == StateOf(Snapshot())
    {
      s := StateOf(Snapshot());
    }

    /** A new listener is registered last, under an identity of its own. */
    method Register() returns (id: ListenerId)
      requires Valid()
      modifies this`registry
      ensures Valid() && registry == old(registry).Subscribe() && id == old(registry).next
      ensures id !in old(registry.listeners) && registry.listeners == old(registry.listeners) + [id]
    {
      id := registry.next;
      AppendKeepsDistinct(registry.listeners, id);
      registry := registry.Subscribe();
    }

    /** The registered listener is told the current state, with no change, and acts on it as ops says. */
    method Subscribe(ops: seq<ListenerOp>) returns (id: ListenerId, welcome: Notification)
      requires Valid()
      modifies this`registry
      ensures Valid() && registry == Perform(old(registry).Subscribe(), ops)
      ensures id !in old(registry.listeners) && (id in registry.listeners <==> Remove(id) !in ops)
      ensures forall x :: x in old(registry.listeners) ==> (x in registry.listeners <==> Remove(x) !in ops)
      ensures welcome == Notification(StateOf(Snapshot()), StateOf(Snapshot()), map[])
    {
      SubscribeResult(registry, ops);
      id := Register();
      var state := CurrentState();
      welcome := Notification(state, state, map[]);
      Call(ops);
    }

    method Unsubscribe(id: ListenerId)
      requires Valid()
      modifies this`registry
      ensures Valid() && registry == old(registry).Unsubscribe(id)
      ensures forall x :: x in registry.listeners <==> x in old(registry.listeners) && x != id
    {
      WithoutKeepsDistinct(registry.listeners, id);
      registry := registry.Unsubscribe(id);
    }

    /** A listener is called: it does to the registry what its script says. */
    method Call(ops: seq<ListenerOp>)
      requires Valid()
      modifies this`registry
      ensures Valid() && registry == Perform(old(registry), ops)
    {
      var i := 0;
      assert ops[0..] == ops;
      while i < |ops|
        invariant 0 <= i <= |ops|
        invariant Valid() && Perform(registry, ops[i..]) == Perform(old(registry), ops)
      {
        assert ops[i..][0] == ops[i] && ops[i..][1..] == ops[i + 1..];
        match ops[i] {
          case Add =>
            var _ := Register();
          case Remove(id) =>
            Unsubscribe(id);
        }
        i := i + 1;
      }
    }

    /** The listeners are called from a copy, each only if it is still registered. */
    method Notify(script: Script) returns (called: seq<ListenerId>)
      requires Valid()
      modifies this`registry
      ensures Valid() && RoundResult(called, registry) == Round(old(registry.listeners), old(registry), script)
    {
      var copy := registry.listeners;
      called := [];
      var i := 0;
      ghost var whole := Round(copy, registry, script);
      assert copy[0..] == copy && [] + whole.called == whole.called;
      while i < |copy|
        invariant 0 <= i <= |copy| && Valid()
        invariant var rest := Round(copy[i..], registry, script);
                  whole == RoundResult(called + rest.called, rest.registry)
      {
        ghost var before := registry;
        assert copy[i..][0] == copy[i] && copy[i..][1..] == copy[i + 1..];
        if copy[i] in registry.listeners {
          Call(script(copy[i]));
          ghost var rest := Round(copy[i + 1..], registry, script);
          assert called + ([copy[i]] + rest.called) == (called + [copy[i]]) + rest.called;
          called := called + [copy[i]];
        }
        i := i + 1;
      }
      assert called + [] == called;
    }

    /** The assignments of an update: the state is reduced, derived and extended. */
    method Reassign(update: Option<State>, extraUpdate: Option<ExtraUpdate>) returns (r: Result<()>)
      requires base.Some? && derived.Some?
      modifies this`base, this`derived, this`extra, this`rounds
      ensures Snapshot() == LeftByUpdate(derive, old(Snapshot()), update, extraUpdate)
      ensures r.Ok? <==> Update(derive, old(Snapshot()), update, extraUpdate).Ok?
    {
      if update.Some? {
        base := Some(Reduce(base.value, update.value));
      }
      var next := derive(ContentsOf(base.value));
      if next.Err? { return Err(next.failure); }
      derived := Some(Reduce(derived.value, WithIdentities(next.value, rounds)));
      rounds := rounds + 1;
      if extraUpdate.Some? {
        if extra.None? { return Err(AssertionFailed); }
        extra := Some(ReduceExtra(extra.value, extraUpdate.value));
      }
      r := Ok(());
    }

    /**
     * After the assignments every listener is notified of the old state, the new one and the change.
     * A derivation that throws leaves the reduced base state behind, with the old derived state and
     * nobody notified.
     */
    method DoUpdate(update: Option<State>, extraUpdate: Option<ExtraUpdate>, script: Script)
      returns (r: Result<(Notification, seq<ListenerId>)>)
      requires Valid()
      requires update.Some? ==> update.value.Keys <= BASE_FIELDS
      modifies this
      ensures Valid() && Snapshot() == LeftByUpdate(derive, old(Snapshot()), update, extraUpdate)
      ensures r.Ok? <==> Update(derive, old(Snapshot()), update, extraUpdate).Ok?
      ensures r.Ok? ==>
                && Consistent(derive, Snapshot())
                && r.value.0 == NotificationOf(old(Snapshot()), Snapshot())
                && RoundResult(r.value.1, registry) == Round(old(registry.listeners), old(registry), script)
      ensures r.Err? ==> registry == old(registry)
      ensures !old(loaded) ==> r == Err(AssertionFailed) && Snapshot() == old(Snapshot())
    {
      if base.None? || derived.None? { return Err(AssertionFailed); }
      UpdateKeepsWhole(derive, Snapshot(), update, extraUpdate);
      var oldState := CurrentState();
      var done := Reassign(update, extraUpdate);
      if done.Err? { return Err(done.failure); }
      var note, called := Announce(oldState, script);
      r := Ok((note, called));
    }

    /** Every listener is notified of the current state and of what changed since the old one. */
    method Announce(oldState: State, script: Script) returns (note: Notification, called: seq<ListenerId>)
      requires Valid()
      modifies this`registry
      ensures Valid()
      ensures note == Notification(StateOf(Snapshot()), oldState, Difference(StateOf(Snapshot()), oldState))
      ensures RoundResult(called, registry) == Round(old(registry.listeners), old(registry), script)
    {
      var state := CurrentState();
      note := Notification(state, oldState, Difference(state, oldState));
      called := Notify(script);
    }

    /** The assignments of a load. */
    method Assign(newBase: State, newExtra: Extra) returns (r: Result<()>)
      modifies this`loaded, this`base, this`derived, this`extra, this`rounds
      ensures r.Ok? <==> derive(ContentsOf(newBase)).Ok?
      ensures r.Ok? ==>
                Snapshot() == Assigned(old(Snapshot()), newBase, derive(ContentsOf(newBase)).value, Some(newExtra))
      ensures r.Err? ==> Snapshot() == old(Snapshot()).(base := Some(newBase))
    {
      base := Some(newBase);
      var first := derive(ContentsOf(newBase));
      if first.Err? { return Err(first.failure); }
      derived := Some(WithIdentities(first.value, rounds));
      extra := Some(newExtra);
      loaded := true;
      rounds := rounds + 1;
      r := Ok(());
    }

    /**
     * A first state is taken over and derived from; then the load callback does to the registry what
     * onLoaded says, and the update that ends the load announces no change to those registered by then.
     */
    method DoLoad(newBase: State, newExtra: Extra, onLoaded: seq<ListenerOp>, script: Script)
      returns (r: Result<(Notification, seq<ListenerId>)>)
      requires Valid() && newBase.Keys == BASE_FIELDS
      modifies this
      ensures Valid() && Snapshot() == LeftByLoad(derive, old(Snapshot()), newBase, Some(newExtra))
      ensures r.Ok? <==> Load(derive, old(Snapshot()), newBase, Some(newExtra)).Ok?
      ensures r.Ok? ==>
                && Consistent(derive, Snapshot())
                && r.value.0.stateChange == map[] && r.value.0.newState == StateOf(Snapshot())
                && var greeted := Perform(old(registry), onLoaded);
                   RoundResult(r.value.1, registry) == Round(greeted.listeners, greeted, script)
      ensures r.Err? ==> registry == old(registry)
      ensures old(loaded) ==> r == Err(AssertionFailed) && Snapshot() == old(Snapshot())
    {
      if loaded { return Err(AssertionFailed); }
      ghost var before := Snapshot();
      LoadLeaves(derive, before, newBase, newExtra);
      var done := Assign(newBase, newExtra);
      if done.Err? { return Err(done.failure); }
      assert Valid() by { AssignedConsistent(derive, before, newBase, newExtra); }
      Call(onLoaded);
      r := DoUpdate(None, None, script);
      LoadEndsQuietly(derive, before, newBase, newExtra);
    }
  }
}
