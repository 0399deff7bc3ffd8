/** Registered listeners and one notification round: packages/lib-base/src/HLiquityStore.ts, _notify and subscribe. */
module Listeners {

  type ListenerId = nat

  /** Listeners in registration order; every subscription gets an identity of its own. */
  datatype Registry = Registry(listeners: seq<ListenerId>, next: nat) {

    ghost predicate Valid() {
      Distinct(listeners) && forall x :: x in listeners ==> x < next
    }

    function Subscribe(): (r: Registry) {
      Registry(listeners + [next], next + 1)
    }

    function Unsubscribe(id: ListenerId): (r: Registry) {
      Registry(Without(listeners, id), next)
    }
  }

  predicate Distinct(s: seq<ListenerId>) {
    s == [] || (s[0] !in s[1..] && Distinct(s[1..]))
  }

  const NOBODY: Registry := Registry([], 0)

  /** What a listener does to the registry when it is called. */
  datatype ListenerOp = Add | Remove(id: ListenerId)

  /** For one round, what each listener does if it is called: any behaviour, as each is called at most once. */
  type Script = ListenerId -> seq<ListenerOp>

  function Without(s: seq<ListenerId>, id: ListenerId): (r: seq<ListenerId>)
    ensures forall x :: x in r <==> x in s && x != id
  {
    if s == [] then []
    else if s[0] == id then Without(s[1..], id)
    else [s[0]] + Without(s[1..], id)
  }

  function Perform(r: Registry, ops: seq<ListenerOp>): (s: Registry)
    decreases ops
  {
    if ops == [] then r
    else
      match ops[0]
      case Add => Perform(r.Subscribe(), ops[1..])
      case Remove(id) => Perform(r.Unsubscribe(id), ops[1..])
  }

  datatype RoundResult = RoundResult(called: seq<ListenerId>, registry: Registry)

  /** A round over a copy of the listeners that skips those no longer registered. */
  function Round(copy: seq<ListenerId>, r: Registry, script: Script): (res: RoundResult)
    decreases copy
  {
    if copy == [] then RoundResult([], r)
    else if copy[0] in r.listeners then
      var rest := Round(copy[1..], Perform(r, script(copy[0])), script);
      RoundResult([copy[0]] + rest.called, rest.registry)
    else Round(copy[1..], r, script)
  }

  lemma {:induction false} WithoutKeepsDistinct(s: seq<ListenerId>, id: ListenerId)
    requires Distinct(s)
    ensures Distinct(Without(s, id))
  {
    if s == [] {
    } else {
      WithoutKeepsDistinct(s[1..], id);
      assert s[0] != id ==> Without(s, id)[1..] == Without(s[1..], id);
    }
  }

  lemma {:induction false} AppendKeepsDistinct(s: seq<ListenerId>, x: ListenerId)
    requires Distinct(s) && x !in s
    ensures Distinct(s + [x])
  {
    if s == [] {
    } else {
      AppendKeepsDistinct(s[1..], x);
      assert (s + [x])[1..] == s[1..] + [x];
    }
  }

  function Adds(ops: seq<ListenerOp>): (n: nat) {
    if ops == [] then 0 else (if ops[0].Add? then 1 else 0) + Adds(ops[1..])
  }

  /**
   * The operations keep the registry valid; every Add is a registration of its own, and a listener, old or
   * added, is left unless it was removed.
   */
  lemma {:induction false} PerformResult(r: Registry, ops: seq<ListenerOp>)
    requires r.Valid()
    ensures var s := Perform(r, ops);
            && s.Valid() && s.next == r.next + Adds(ops)
            && (forall x: ListenerId :: x < r.next ==> (x in s.listeners <==> x in r.listeners && Remove(x) !in ops))
            && (forall x: ListenerId :: r.next <= x < s.next && Remove(x) !in ops ==> x in s.listeners)
    decreases ops
  {
    if ops == [] {
    } else {
      var r1 := if ops[0].Add? then r.Subscribe() else r.Unsubscribe(ops[0].id);
      if ops[0].Remove? {
        WithoutKeepsDistinct(r.listeners, ops[0].id);
      } else {
        AppendKeepsDistinct(r.listeners, r.next);
      }
      PerformResult(r1, ops[1..]);
      assert ops == [ops[0]] + ops[1..];
    }
  }

  /** A new listener is registered after its own operations unless they remove it, like every old one. */
  lemma SubscribeResult(r: Registry, ops: seq<ListenerOp>)
    requires r.Valid()
    ensures var s := Perform(r.Subscribe(), ops);
            && s.Valid() && r.next !in r.listeners
            && (r.next in s.listeners <==> Remove(r.next) !in ops)
            && (forall x :: x in r.listeners ==> (x in s.listeners <==> Remove(x) !in ops))
  {
    AppendKeepsDistinct(r.listeners, r.next);
    PerformResult(r.Subscribe(), ops);
  }

  /** The listeners of s that are in chosen, in the order of s. */
  function Keep(s: seq<ListenerId>, chosen: seq<ListenerId>): (r: seq<ListenerId>) {
    if s == [] then []
    else if s[0] in chosen then [s[0]] + Keep(s[1..], chosen)
    else Keep(s[1..], chosen)
  }

  lemma {:induction false} KeepIgnores(s: seq<ListenerId>, h: ListenerId, chosen: seq<ListenerId>)
    requires h !in s
    ensures Keep(s, [h] + chosen) == Keep(s, chosen)
  {
    if s == [] {
    } else {
      KeepIgnores(s[1..], h, chosen);
    }
  }

  ghost predicate NotRemovedBefore(copy: seq<ListenerId>, called: seq<ListenerId>, script: Script, i: nat)
    requires i < |copy|
  {
    forall j :: 0 <= j < i && copy[j] in called ==> Remove(copy[i]) !in script(copy[j])
  }

  /** What a round over a copy does, from any registry. */
  ghost predicate Fair(copy: seq<ListenerId>, r: Registry, script: Script, res: RoundResult) {
    && res.called == Keep(copy, res.called)
    && (forall x :: x in res.called ==> x in copy)
    && CallsTheRight(copy, r, script, res.called)
    && res.registry.Valid() && r.next <= res.registry.next
    && (forall x: ListenerId :: x < r.next ==>
          (x in res.registry.listeners <==> x in r.listeners && RemovedByNone(x, res.called, script)))
  }

  ghost predicate CallsTheRight(copy: seq<ListenerId>, r: Registry, script: Script, called: seq<ListenerId>) {
    forall i :: 0 <= i < |copy| ==>
      (copy[i] in called <==> copy[i] in r.listeners && NotRemovedBefore(copy, called, script, i))
  }

  ghost predicate RemovedByNone(x: ListenerId, called: seq<ListenerId>, script: Script) {
    forall l :: l in called ==> Remove(x) !in script(l)
  }

  lemma {:induction false} RoundFrom(copy: seq<ListenerId>, r: Registry, script: Script)
    requires r.Valid() && Distinct(copy) && forall x :: x in copy ==> x < r.next
    ensures Fair(copy, r, script, Round(copy, r, script))
    decreases copy
  {
    if copy == [] {
    } else {
      var h, rest := copy[0], copy[1..];
      assert forall x :: x in rest ==> x in copy;
      if h in r.listeners {
        PerformResult(r, script(h));
        RoundFrom(rest, Perform(r, script(h)), script);
        RoundCalls(copy, r, script, Round(rest, Perform(r, script(h)), script));
      } else {
        RoundFrom(rest, r, script);
        RoundSkips(copy, r, script, Round(rest, r, script).called);
      }
    }
  }

  lemma RoundSkips(copy: seq<ListenerId>, r: Registry, script: Script, called: seq<ListenerId>)
    requires copy != [] && copy[0] !in r.listeners && copy[0] !in called
    requires CallsTheRight(copy[1..], r, script, called)
    ensures CallsTheRight(copy, r, script, called)
  {
    var rest := copy[1..];
    forall i | 0 <= i < |copy|
      ensures copy[i] in called <==> copy[i] in r.listeners && NotRemovedBefore(copy, called, script, i)
    {
      if i != 0 {
        assert copy[i] == rest[i - 1];
        ShiftedRemoval(copy, called, script, i);
      }
    }
  }

  /** Removal before a turn, with the first listener taken apart. */
  lemma ShiftedRemoval(copy: seq<ListenerId>, called: seq<ListenerId>, script: Script, i: nat)
    requires 1 <= i < |copy|
    ensures NotRemovedBefore(copy, called, script, i)
       <==> (copy[0] in called ==> Remove(copy[i]) !in script(copy[0]))
            && NotRemovedBefore(copy[1..], called, script, i - 1)
  {
    var rest := copy[1..];
    assert rest[i - 1] == copy[i];
    if (copy[0] in called ==> Remove(copy[i]) !in script(copy[0])) && NotRemovedBefore(rest, called, script, i - 1) {
      forall j | 0 <= j < i && copy[j] in called
        ensures Remove(copy[i]) !in script(copy[j])
      {
        if j != 0 { assert rest[j - 1] == copy[j]; }
      }
    }
    if NotRemovedBefore(copy, called, script, i) {
      forall j | 0 <= j < i - 1 && rest[j] in called
        ensures Remove(rest[i - 1]) !in script(rest[j])
      {
        assert rest[j] == copy[j + 1];
      }
    }
  }

  lemma SameRemoval(copy: seq<ListenerId>, called: seq<ListenerId>, h: ListenerId, script: Script, i: nat)
    requires i < |copy| && h !in copy
    ensures NotRemovedBefore(copy, [h] + called, script, i) <==> NotRemovedBefore(copy, called, script, i)
  {
    assert forall j :: 0 <= j < |copy| ==> (copy[j] in [h] + called <==> copy[j] in called);
  }

  lemma CallsWithFirst(copy: seq<ListenerId>, r: Registry, r1: Registry, script: Script, tail: seq<ListenerId>)
    requires copy != [] && copy[0] in r.listeners && copy[0] !in copy[1..]
    requires forall x :: x in copy ==> (x in r1.listeners <==> x in r.listeners && Remove(x) !in script(copy[0]))
    requires CallsTheRight(copy[1..], r1, script, tail)
    ensures CallsTheRight(copy, r, script, [copy[0]] + tail)
  {
    var h, rest, called := copy[0], copy[1..], [copy[0]] + tail;
    forall i | 0 <= i < |copy|
      ensures copy[i] in called <==> copy[i] in r.listeners && NotRemovedBefore(copy, called, script, i)
    {
      if i != 0 {
        assert copy[i] == rest[i - 1] && rest[i - 1] in rest;
        ShiftedRemoval(copy, called, script, i);
        SameRemoval(rest, tail, h, script, i - 1);
      }
    }
  }

  lemma RemovalWithFirst(x: ListenerId, h: ListenerId, tail: seq<ListenerId>, script: Script)
    ensures RemovedByNone(x, [h] + tail, script) <==> Remove(x) !in script(h) && RemovedByNone(x, tail, script)
  {
    assert forall l :: l in [h] + tail <==> l == h || l in tail;
  }

  /** The first listener of the copy is called, then those of the rest that it left registered. */
  lemma RoundCalls(copy: seq<ListenerId>, r: Registry, script: Script, tail: RoundResult)
    requires r.Valid() && copy != [] && copy[0] in r.listeners && Distinct(copy)
    requires forall x :: x in copy ==> x < r.next
    requires Fair(copy[1..], Perform(r, script(copy[0])), script, tail)
    ensures Fair(copy, r, script, RoundResult([copy[0]] + tail.called, tail.registry))
  {
    var h, rest, called := copy[0], copy[1..], [copy[0]] + tail.called;
    var r1 := Perform(r, script(h));
    PerformResult(r, script(h));
    CallsWithFirst(copy, r, r1, script, tail.called);
    KeepIgnores(rest, h, tail.called);
    assert forall x :: x in rest ==> x in copy;
    forall x: ListenerId | x < r.next
      ensures x in tail.registry.listeners <==> x in r.listeners && RemovedByNone(x, called, script)
    {
      RemovalWithFirst(x, h, tail.called, script);
    }
  }

  /**
   * A round is finite and fair: it calls exactly the listeners registered at its start that no
   * earlier-called one removed, once each and in registration order, and none added meanwhile; after
   * it, a listener registered before is still there exactly when no called one removed it.
   */
  lemma RoundIsFair(r: Registry, script: Script)
    requires r.Valid()
    ensures var res := Round(r.listeners, r, script);
            && res.called == Keep(r.listeners, res.called)
            && (forall x :: x in res.called ==> x < r.next)
            && (forall i :: 0 <= i < |r.listeners| ==>
                  (r.listeners[i] in res.called <==> NotRemovedBefore(r.listeners, res.called, script, i)))
            && res.registry.Valid()
            && (forall x: ListenerId :: x < r.next ==>
                  (x in res.registry.listeners <==> x in r.listeners && RemovedByNone(x, res.called, script)))
  {
    RoundFrom(r.listeners, r, script);
  }
}
