/** Signals: connections, one-shot callbacks and timed waiters, mutated re-entrantly by the callbacks
    that Fire spawns. A run is a sequence of actions; each Fire carries, for every callback it may
    spawn, the actions that callback performs. */
module Signal {
  import opened Wrappers

  /** The argument of Wait: absent, rejected by the millisecond conversion, or accepted. */
  datatype Timeout = NoTimeout | InvalidTimeout | ValidTimeout

  datatype Waiter = Waiter(timerId: Option<nat>, resumed: bool)

  datatype Connection = Connection(once: bool, connected: bool, waiter: Option<Waiter>)

  /** What reaches the scheduler: a spawned callback, or the deferred continuation of a Wait. */
  datatype Event = Spawned(id: nat) | Deferred(id: nat)

  datatype Script = Script(actions: seq<Action>)

  datatype Action =
    | Connect
    | Once
    | Wait(timeout: Timeout)
    | Disconnect(id: nat)
    | DisconnectAll
    | Shutdown
    | Fire(reactions: seq<Script>)
    | TimerElapsed(timerId: nat)

  /** objects holds every connection ever made; registered is the key set of the connection map.
      timers maps each live timeout timer to the connection its closure disconnects. */
  datatype State = State(
    destroyed: bool,
    nextId: nat,
    registered: set<nat>,
    objects: map<nat, Connection>,
    timers: map<nat, nat>,
    nextTimer: nat,
    log: seq<Event>)

  const INITIAL := State(false, 1, {}, map[], map[], 1, [])

  // ----- the effect of each operation -----

  predicate Timed(c: Connection) {
    c.waiter.Some? && c.waiter.value.timerId.Some?
  }

  function ClearTimeoutOf(timers: map<nat, nat>, c: Connection): (r: map<nat, nat>) {
    if Timed(c) then timers - {c.waiter.value.timerId.value} else timers
  }

  function AddConnection(s: State, once: bool): (t: State) {
    if s.destroyed then s else
      s.(nextId := s.nextId + 1,
         registered := s.registered + {s.nextId},
         objects := s.objects[s.nextId := Connection(once, true, None)])
  }

  /** A rejected timeout consumes an id and leaves an object that is never registered again. */
  function AddWaiter(s: State, timeout: Timeout): (t: State) {
    if s.destroyed then s else
      match timeout
      case NoTimeout =>
        s.(nextId := s.nextId + 1,
           registered := s.registered + {s.nextId},
           objects := s.objects[s.nextId := Connection(true, true, Some(Waiter(None, false)))])
      case InvalidTimeout =>
        s.(nextId := s.nextId + 1,
           objects := s.objects[s.nextId := Connection(true, true, Some(Waiter(None, false)))])
      case ValidTimeout =>
        s.(nextId := s.nextId + 1,
           registered := s.registered + {s.nextId},
           objects := s.objects[s.nextId := Connection(true, true, Some(Waiter(Some(s.nextTimer), false)))],
           timers := s.timers[s.nextTimer := s.nextId],
           nextTimer := s.nextTimer + 1)
  }

  predicate Live(s: State, id: nat) {
    id in s.registered && id in s.objects && s.objects[id].connected
  }

  function Drop(s: State, id: nat): (t: State) {
    if !Live(s, id) then s else
      s.(registered := s.registered - {id},
         objects := s.objects[id := s.objects[id].(connected := false)],
         timers := ClearTimeoutOf(s.timers, s.objects[id]))
  }

  function TimersBelow(s: State, bound: nat): (r: set<nat>) {
    set id | 0 <= id < bound && id in s.registered && id in s.objects && Timed(s.objects[id]) ::
      s.objects[id].waiter.value.timerId.value
  }

  function ForgetAll(s: State): (t: State) {
    s.(registered := {}, timers := s.timers - TimersBelow(s, s.nextId))
  }

  /** The live connections with id at least from, in connection order. */
  function SnapshotFrom(s: State, from: nat): (ids: seq<nat>)
    decreases s.nextId - from
  {
    if from >= s.nextId then [] else
      (if Live(s, from) then [from] else []) + SnapshotFrom(s, from + 1)
  }

  /** Fire meets one connection of its snapshot: it hands over to a waiter, or is about to spawn. */
  function Meet(s: State, id: nat): (t: State)
    requires id in s.objects
  {
    var c := s.objects[id];
    if !c.connected then s
    else if c.waiter.Some? then
      s.(registered := s.registered - {id},
         objects := s.objects[id := c.(connected := false, waiter := Some(c.waiter.value.(resumed := true)))],
         timers := ClearTimeoutOf(s.timers, c),
         log := if c.waiter.value.resumed then s.log else s.log + [Deferred(id)])
    else if c.once then
      s.(registered := s.registered - {id},
         objects := s.objects[id := c.(connected := false)],
         log := s.log + [Spawned(id)])
    else
      s.(log := s.log + [Spawned(id)])
  }

  predicate Spawns(s: State, id: nat)
    requires id in s.objects
  {
    s.objects[id].connected && s.objects[id].waiter.None?
  }

  function Elapse(s: State, timerId: nat): (t: State) {
    if timerId !in s.timers || s.timers[timerId] !in s.objects || s.objects[s.timers[timerId]].waiter.None? then s else
      var id := s.timers[timerId];
      var c := s.objects[id];
      var w := c.waiter.value;
      if w.resumed then s.(timers := s.timers - {timerId}) else
        var woken := s.(objects := s.objects[id := c.(waiter := Some(w.(resumed := true)))]);
        var dropped := Drop(woken, id);
        dropped.(log := dropped.log + [Deferred(id)], timers := dropped.timers - {timerId})
  }

  // ----- runs -----

  function Exec(s: State, a: Action): (t: State)
    decreases a
  {
    match a
    case Connect => AddConnection(s, false)
    case Once => AddConnection(s, true)
    case Wait(timeout) => AddWaiter(s, timeout)
    case Disconnect(id) => Drop(s, id)
    case DisconnectAll => if s.destroyed then s else ForgetAll(s)
    case Shutdown => if s.destroyed then s else ForgetAll(s).(destroyed := true)
    case Fire(reactions) => if s.destroyed then s else ExecSnapshot(s, SnapshotFrom(s, 0), reactions)
    case TimerElapsed(timerId) => Elapse(s, timerId)
  }

  function ExecAll(s: State, actions: seq<Action>): (t: State)
    decreases actions
  {
    if actions == [] then s else ExecAll(Exec(s, actions[0]), actions[1..])
  }

  /** The loop of Fire: each spawned callback runs to completion before the next connection is met. */
  function ExecSnapshot(s: State, ids: seq<nat>, reactions: seq<Script>): (t: State)
    decreases reactions, |ids|
  {
    if ids == [] then s
    else if ids[0] !in s.objects then ExecSnapshot(s, ids[1..], reactions)
    else if Spawns(s, ids[0]) && reactions != [] then
      ExecSnapshot(ExecAll(Meet(s, ids[0]), reactions[0].actions), ids[1..], reactions[1..])
    else ExecSnapshot(Meet(s, ids[0]), ids[1..], reactions)
  }

  // ----- invariants of every run -----

  /** Registration, connection flags and timers agree. */
  ghost predicate Consistent(s: State) {
    && s.nextId > 0
    && (forall id :: id in s.objects <==> 0 < id < s.nextId)
    && (forall id :: id in s.registered ==> id in s.objects && s.objects[id].connected)
    && (forall id :: id in s.objects && s.objects[id].waiter.Some? && s.objects[id].waiter.value.resumed ==>
          !s.objects[id].connected)
    && (s.destroyed ==> s.registered == {})
  }

  /** A timer is live exactly while the waiter that owns it is registered. */
  ghost predicate TimersOwned(s: State) {
    && (forall t :: t in s.timers ==>
          && s.timers[t] in s.registered && s.timers[t] in s.objects
          && s.objects[s.timers[t]].waiter.Some? && s.objects[s.timers[t]].waiter.value.timerId == Some(t))
    && (forall id :: id in s.registered && id in s.objects && Timed(s.objects[id]) ==>
          && s.objects[id].waiter.value.timerId.value in s.timers
          && s.timers[s.objects[id].waiter.value.timerId.value] == id)
  }

  ghost predicate TimersDistinct(s: State) {
    && (forall id :: id in s.objects && Timed(s.objects[id]) ==> s.objects[id].waiter.value.timerId.value < s.nextTimer)
    && (forall id, other :: id in s.objects && other in s.objects && Timed(s.objects[id]) && Timed(s.objects[other]) ==>
          s.objects[id].waiter.value.timerId == s.objects[other].waiter.value.timerId ==> id == other)
  }

  ghost predicate TimersMatch(s: State) {
    TimersOwned(s) && TimersDistinct(s)
  }

  ghost predicate Witnessed(s: State, e: Event) {
    && e.id in s.objects
    && (e.Deferred? ==> s.objects[e.id].waiter.Some? && s.objects[e.id].waiter.value.resumed)
    && (e.Spawned? ==> s.objects[e.id].waiter.None? && (s.objects[e.id].once ==> !s.objects[e.id].connected))
  }

  /** No continuation is deferred twice and no one-shot callback is spawned twice. */
  ghost predicate AtMostOnce(s: State) {
    && (forall i :: 0 <= i < |s.log| ==> Witnessed(s, s.log[i]))
    && (forall i, j :: 0 <= i < j < |s.log| && s.log[i] == s.log[j] ==>
          s.log[i].Spawned? && !s.objects[s.log[i].id].once)
  }

  ghost predicate Inv(s: State) {
    Consistent(s) && TimersMatch(s) && AtMostOnce(s)
  }

  /** Connections keep their kind, dead ones stay dead and resumed waiters stay resumed. */
  ghost predicate Evolves(s: State, t: State) {
    forall id :: id in s.objects ==>
      && id in t.objects && t.objects[id].once == s.objects[id].once
      && (t.objects[id].connected ==> s.objects[id].connected)
      && (t.objects[id].waiter.Some? <==> s.objects[id].waiter.Some?)
      && (s.objects[id].waiter.Some? && s.objects[id].waiter.value.resumed ==> t.objects[id].waiter.value.resumed)
  }

  /** What can only move forward: ids are never reused, dead connections stay dead, nothing that left
      the map comes back, and nothing dead runs. */
  ghost predicate Later(s: State, t: State) {
    && s.nextId <= t.nextId && s.log <= t.log && (s.destroyed ==> t.destroyed)
    && Evolves(s, t)
    && (forall id :: id in s.objects && id in t.registered ==> id in s.registered)
    && (forall k :: |s.log| <= k < |t.log| ==> t.log[k].id in s.objects ==> s.objects[t.log[k].id].connected)
  }

  /** Every event between s and t belongs to a connection registered in s, made since, or in also. */
  ghost predicate Confined(s: State, t: State, also: set<nat>) {
    forall k :: |s.log| <= k < |t.log| ==>
      t.log[k].id !in s.objects || t.log[k].id in s.registered || t.log[k].id in also
  }

  lemma LaterTransitive(s: State, t: State, u: State, x: set<nat>, y: set<nat>)
    requires Later(s, t) && Later(t, u) && Confined(s, t, x) && Confined(t, u, y)
    ensures Later(s, u) && Confined(s, u, x + y)
  {
    forall k | |s.log| <= k < |u.log|
      ensures u.log[k].id in s.objects ==> s.objects[u.log[k].id].connected
      ensures u.log[k].id !in s.objects || u.log[k].id in s.registered || u.log[k].id in x + y
    {
      if k < |t.log| {
        assert u.log[k] == t.log[k];
      }
    }
  }

  lemma LogKept(s: State, t: State)
    requires AtMostOnce(s) && Evolves(s, t) && t.log == s.log
    ensures AtMostOnce(t)
  {
  }

  lemma LogExtended(s: State, t: State, e: Event)
    requires AtMostOnce(s) && Evolves(s, t) && t.log == s.log + [e] && Witnessed(t, e) && e.id in s.objects
    requires e.Deferred? ==> s.objects[e.id].waiter.Some? && !s.objects[e.id].waiter.value.resumed
    requires e.Spawned? && s.objects[e.id].once ==> s.objects[e.id].connected
    ensures AtMostOnce(t)
  {
    var before := t.(log := s.log);
    LogKept(s, before);
    forall i | 0 <= i < |s.log| && s.log[i] == e
      ensures e.Spawned? && !t.objects[e.id].once
    {
      assert Witnessed(s, s.log[i]);
    }
  }

  /** A new object without a timer, registered or not. */
  lemma UntimedKeepsTimers(s: State, t: State, c: Connection)
    requires Consistent(s) && TimersMatch(s) && !Timed(c)
    requires t.objects == s.objects[s.nextId := c] && t.timers == s.timers && t.nextTimer == s.nextTimer
    requires t.registered == s.registered || t.registered == s.registered + {s.nextId}
    ensures TimersMatch(t)
  {
    assert forall id :: id in s.objects ==> t.objects[id] == s.objects[id];
  }

  lemma AddConnectionKeepsTimers(s: State, once: bool)
    requires Consistent(s) && TimersMatch(s)
    ensures TimersMatch(AddConnection(s, once))
  {
    if !s.destroyed {
      hide TimersMatch;
      UntimedKeepsTimers(s, AddConnection(s, once), Connection(once, true, None));
    }
  }

  lemma AddConnectionKeeps(s: State, once: bool)
    requires Inv(s)
    ensures Inv(AddConnection(s, once)) && Later(s, AddConnection(s, once)) && Confined(s, AddConnection(s, once), {})
  {
    hide AtMostOnce, TimersMatch;
    AddConnectionKeepsTimers(s, once);
    LogKept(s, AddConnection(s, once));
  }

  lemma TimerRange(s: State)
    requires TimersMatch(s)
    ensures forall k :: k in s.timers ==> k < s.nextTimer
  {
    forall k | k in s.timers
      ensures k < s.nextTimer
    {
      assert Timed(s.objects[s.timers[k]]);
    }
  }

  lemma TimedIsOwned(s: State, t: State)
    requires TimersOwned(s) && s.nextId !in s.objects && s.nextId !in s.registered && s.nextTimer !in s.timers
    requires t.registered == s.registered + {s.nextId} && t.timers == s.timers[s.nextTimer := s.nextId]
    requires t.objects == s.objects[s.nextId := Connection(true, true, Some(Waiter(Some(s.nextTimer), false)))]
    ensures TimersOwned(t)
  {
    assert forall id :: id in s.objects ==> t.objects[id] == s.objects[id];
    assert forall k :: k in s.timers ==> t.timers[k] == s.timers[k];
  }

  lemma TimedIsDistinct(s: State)
    requires Consistent(s) && TimersDistinct(s) && !s.destroyed
    ensures TimersDistinct(AddWaiter(s, ValidTimeout))
  {
    var t := AddWaiter(s, ValidTimeout);
    assert forall id :: id in s.objects ==> t.objects[id] == s.objects[id];
  }

  lemma TimedKeepsTimers(s: State)
    requires Consistent(s) && TimersMatch(s) && !s.destroyed
    ensures TimersMatch(AddWaiter(s, ValidTimeout))
  {
    TimerRange(s);
    TimedIsOwned(s, AddWaiter(s, ValidTimeout));
    TimedIsDistinct(s);
    hide TimersOwned, TimersDistinct;
  }

  lemma AddWaiterKeepsTimers(s: State, timeout: Timeout)
    requires Consistent(s) && TimersMatch(s)
    ensures TimersMatch(AddWaiter(s, timeout))
  {
    hide TimersMatch, Consistent;
    if !s.destroyed {
      if timeout.ValidTimeout? {
        TimedKeepsTimers(s);
      } else {
        UntimedKeepsTimers(s, AddWaiter(s, timeout), Connection(true, true, Some(Waiter(None, false))));
      }
    }
  }

  lemma AddWaiterKeeps(s: State, timeout: Timeout)
    requires Inv(s)
    ensures Inv(AddWaiter(s, timeout)) && Later(s, AddWaiter(s, timeout)) && Confined(s, AddWaiter(s, timeout), {})
  {
    hide AtMostOnce, TimersMatch;
    AddWaiterKeepsTimers(s, timeout);
    LogKept(s, AddWaiter(s, timeout));
  }

  /** Removing connection id and clearing its timer, whatever happens to the rest of its object. */
  lemma RemovalKeepsTimers(s: State, t: State, id: nat)
    requires TimersMatch(s) && id in s.objects && t.objects.Keys == s.objects.Keys && t.nextTimer == s.nextTimer
    requires forall other :: other in s.objects && other != id ==> t.objects[other] == s.objects[other]
    requires t.objects[id].waiter.Some? <==> s.objects[id].waiter.Some?
    requires s.objects[id].waiter.Some? ==> t.objects[id].waiter.value.timerId == s.objects[id].waiter.value.timerId
    requires t.registered == s.registered - {id} && t.timers == ClearTimeoutOf(s.timers, s.objects[id])
    ensures TimersMatch(t)
  {
    assert Timed(t.objects[id]) <==> Timed(s.objects[id]);
    forall k | k in t.timers
      ensures t.timers[k] in t.registered && t.timers[k] in t.objects
      ensures t.objects[t.timers[k]] == s.objects[s.timers[k]]
    {
      assert k in s.timers && t.timers[k] == s.timers[k];
      assert s.timers[k] != id;
    }
    forall other | other in t.registered && other in t.objects && Timed(t.objects[other])
      ensures t.objects[other].waiter.value.timerId.value in t.timers
    {
      assert s.objects[other].waiter.value.timerId.value in s.timers;
    }
  }

  lemma DropKeepsTimers(s: State, id: nat)
    requires Consistent(s) && TimersMatch(s)
    ensures TimersMatch(Drop(s, id))
  {
    if Live(s, id) {
      RemovalKeepsTimers(s, Drop(s, id), id);
    }
  }

  lemma DropKeeps(s: State, id: nat)
    requires Inv(s)
    ensures Inv(Drop(s, id)) && Later(s, Drop(s, id)) && Confined(s, Drop(s, id), {})
  {
    hide AtMostOnce, TimersMatch;
    DropKeepsTimers(s, id);
    LogKept(s, Drop(s, id));
  }

  lemma ForgetAllKeeps(s: State)
    requires Inv(s)
    ensures Inv(ForgetAll(s)) && Later(s, ForgetAll(s)) && Confined(s, ForgetAll(s), {}) && ForgetAll(s).timers == map[]
  {
    forall t | t in s.timers
      ensures t in TimersBelow(s, s.nextId)
    {
      var id := s.timers[t];
      assert id in s.registered && Timed(s.objects[id]);
    }
    hide AtMostOnce;
    LogKept(s, ForgetAll(s));
  }

  lemma MeetKeepsTimers(s: State, id: nat)
    requires Consistent(s) && TimersMatch(s) && id in s.objects
    ensures TimersMatch(Meet(s, id))
  {
    var c, t := s.objects[id], Meet(s, id);
    if c.connected && (c.waiter.Some? || c.once) {
      hide TimersMatch;
      RemovalKeepsTimers(s, t, id);
    }
  }

  lemma MeetKeeps(s: State, id: nat)
    requires Inv(s) && id in s.objects
    ensures Inv(Meet(s, id)) && Later(s, Meet(s, id)) && Confined(s, Meet(s, id), {id})
  {
    hide AtMostOnce, TimersMatch;
    MeetKeepsTimers(s, id);
    var c, t := s.objects[id], Meet(s, id);
    if t.log == s.log {
      LogKept(s, t);
    } else {
      LogExtended(s, t, if c.waiter.Some? then Deferred(id) else Spawned(id));
    }
  }

  lemma ElapseKeepsTimers(s: State, timerId: nat)
    requires Consistent(s) && TimersMatch(s)
    ensures TimersMatch(Elapse(s, timerId))
    ensures timerId in s.timers ==>
      && s.timers[timerId] in s.registered && s.timers[timerId] in s.objects &&
           s.objects[s.timers[timerId]].waiter.Some?
  {
  }

  lemma ElapseKeeps(s: State, timerId: nat)
    requires Inv(s)
    ensures Inv(Elapse(s, timerId)) && Later(s, Elapse(s, timerId)) && Confined(s, Elapse(s, timerId), {})
  {
    hide AtMostOnce, TimersMatch;
    ElapseKeepsTimers(s, timerId);
    var t := Elapse(s, timerId);
    if t.log == s.log {
      LogKept(s, t);
    } else {
      LogExtended(s, t, Deferred(s.timers[timerId]));
    }
  }

  /** The snapshot is exactly the live connections, in increasing id order. */
  lemma {:induction false} SnapshotIsExact(s: State, from: nat)
    requires Consistent(s)
    ensures forall id :: id in SnapshotFrom(s, from) <==> Live(s, id) && from <= id
    ensures forall i, j :: 0 <= i < j < |SnapshotFrom(s, from)| ==> SnapshotFrom(s, from)[i] < SnapshotFrom(s, from)[j]
    decreases s.nextId - from
  {
    if from < s.nextId {
      SnapshotIsExact(s, from + 1);
      var rest := SnapshotFrom(s, from + 1);
      assert forall j :: 0 <= j < |rest| ==> rest[j] in rest;
    }
  }

  lemma {:induction false} ExecKeeps(s: State, a: Action)
    requires Inv(s)
    ensures Inv(Exec(s, a)) && Later(s, Exec(s, a)) && Confined(s, Exec(s, a), {})
    decreases a
  {
    match a
    case Connect => AddConnectionKeeps(s, false);
    case Once => AddConnectionKeeps(s, true);
    case Wait(timeout) => AddWaiterKeeps(s, timeout);
    case Disconnect(id) => DropKeeps(s, id);
    case DisconnectAll => ForgetAllKeeps(s);
    case Shutdown => ForgetAllKeeps(s); ShutdownKeeps(s);
    case Fire(reactions) =>
      if !s.destroyed {
        ExecSnapshotKeeps(s, SnapshotFrom(s, 0), reactions);
        SnapshotIsExact(s, 0);
      }
    case TimerElapsed(timerId) => ElapseKeeps(s, timerId);
  }

  lemma ShutdownKeeps(s: State)
    requires Inv(s)
    ensures Inv(ForgetAll(s).(destroyed := true)) && Later(s, ForgetAll(s).(destroyed := true))
  {
    ForgetAllKeeps(s);
    hide AtMostOnce;
    LogKept(ForgetAll(s), ForgetAll(s).(destroyed := true));
  }

  lemma {:induction false} ExecAllKeeps(s: State, actions: seq<Action>)
    requires Inv(s)
    ensures Inv(ExecAll(s, actions)) && Later(s, ExecAll(s, actions)) && Confined(s, ExecAll(s, actions), {})
    decreases actions
  {
    if actions != [] {
      ExecKeeps(s, actions[0]);
      ExecAllKeeps(Exec(s, actions[0]), actions[1..]);
      hide Inv, Later, Confined;
      LaterTransitive(s, Exec(s, actions[0]), ExecAll(s, actions), {}, {});
      var none: set<nat> := {};
      assert none + none == none;
    }
  }

  ghost function Elements(ids: seq<nat>): (r: set<nat>) {
    set id | id in ids
  }

  lemma {:induction false} ExecSnapshotKeeps(s: State, ids: seq<nat>, reactions: seq<Script>)
    requires Inv(s)
    ensures Inv(ExecSnapshot(s, ids, reactions)) && Later(s, ExecSnapshot(s, ids, reactions))
    ensures Confined(s, ExecSnapshot(s, ids, reactions), Elements(ids))
    decreases reactions, |ids|
  {
    hide Inv, Later, Confined;
    var t := ExecSnapshot(s, ids, reactions);
    if ids == [] {
      Unmoved(s);
    } else if ids[0] !in s.objects {
      ExecSnapshotKeeps(s, ids[1..], reactions);
      Unmoved(s);
      LaterTransitive(s, s, t, {ids[0]}, Elements(ids[1..]));
    } else {
      MeetKeeps(s, ids[0]);
      var met := Meet(s, ids[0]);
      if Spawns(s, ids[0]) && reactions != [] {
        ExecAllKeeps(met, reactions[0].actions);
        var ran := ExecAll(met, reactions[0].actions);
        ExecSnapshotKeeps(ran, ids[1..], reactions[1..]);
        LaterTransitive(met, ran, t, {}, Elements(ids[1..]));
        assert {} + Elements(ids[1..]) == Elements(ids[1..]);
      } else {
        ExecSnapshotKeeps(met, ids[1..], reactions);
      }
      LaterTransitive(s, met, t, {ids[0]}, Elements(ids[1..]));
    }
    assert ids != [] ==> {ids[0]} + Elements(ids[1..]) == Elements(ids);
  }

  lemma Unmoved(s: State)
    ensures Later(s, s) && forall x :: Confined(s, s, x)
  {
  }

  /** Safety of every run from a fresh signal. */
  lemma RunIsSafe(actions: seq<Action>)
    ensures var t := ExecAll(INITIAL, actions);
      && (forall i, j :: 0 <= i < j < |t.log| ==> t.log[i].Deferred? ==> t.log[i] != t.log[j])
      && (forall i, j :: 0 <= i < j < |t.log| && t.log[i].id in t.objects && t.objects[t.log[i].id].once ==>
            t.log[i] != t.log[j])
      && (forall i :: 0 <= i < |t.log| ==> 0 < t.log[i].id < t.nextId)
      && (forall timer :: timer in t.timers ==> Live(t, t.timers[timer]))
      && (t.destroyed ==> t.registered == {} && t.timers == map[])
  {
    ExecAllKeeps(INITIAL, actions);
    var t := ExecAll(INITIAL, actions);
    if t.timers != map[] {
      var timer :| timer in t.timers;
      assert t.timers[timer] in t.registered;
    }
  }

  /** At any point of a run the connections made so far keep their id, their kind and their once flag
      for good, and everything made later gets a new id: ids are never reused. */
  lemma IdsAreNeverReused(before: seq<Action>, after: seq<Action>)
    ensures var s := ExecAll(INITIAL, before);
            var t := ExecAll(s, after);
      && s.nextId <= t.nextId
      && (forall id :: id in s.objects ==>
            && id in t.objects && t.objects[id].once == s.objects[id].once
            && (t.objects[id].waiter.Some? <==> s.objects[id].waiter.Some?))
      && (forall id :: id in t.objects && id !in s.objects ==> s.nextId <= id < t.nextId)
  {
    ExecAllKeeps(INITIAL, before);
    ExecAllKeeps(ExecAll(INITIAL, before), after);
  }

  /** At any point of a run, what has left the connection map or was disconnected is never run by
      anything that starts later, however deeply it re-enters. */
  lemma GoneNeverRuns(before: seq<Action>, after: seq<Action>, id: nat)
    ensures var s := ExecAll(INITIAL, before);
            var t := ExecAll(s, after);
            id in s.objects && (id !in s.registered || !s.objects[id].connected) ==>
              |s.log| <= |t.log| && forall k :: |s.log| <= k < |t.log| ==> t.log[k].id != id
  {
    ExecAllKeeps(INITIAL, before);
    ExecAllKeeps(ExecAll(INITIAL, before), after);
  }

  ghost function EventFor(s: State, id: nat): (e: Event)
    requires id in s.objects
  {
    if s.objects[id].waiter.Some? then Deferred(id) else Spawned(id)
  }

  lemma MeetTouchesOne(s: State, id: nat)
    requires Inv(s) && Live(s, id)
    ensures var t := Meet(s, id);
      && t.log == s.log + [EventFor(s, id)]
      && t.objects.Keys == s.objects.Keys
      && (forall other :: other in s.objects && other != id ==> t.objects[other] == s.objects[other])
      && t.registered == if OneShot(s.objects[id]) then s.registered - {id} else s.registered
  {
  }

  ghost function EventsFor(s: State, ids: seq<nat>): (r: seq<Event>)
    requires forall k :: 0 <= k < |ids| ==> ids[k] in s.objects
  {
    seq(|ids|, k requires 0 <= k < |ids| => EventFor(s, ids[k]))
  }

  predicate OneShot(c: Connection) {
    c.once || c.waiter.Some?
  }

  ghost function OneShots(s: State, ids: seq<nat>): (r: set<nat>) {
    set id | id in ids && id in s.objects && OneShot(s.objects[id])
  }

  ghost predicate Firable(s: State, ids: seq<nat>) {
    && (forall k :: 0 <= k < |ids| ==> ids[k] in s.objects && Live(s, ids[k]))
    && forall i, j :: 0 <= i < j < |ids| ==> ids[i] < ids[j]
  }

  lemma QuietStep(s: State, ids: seq<nat>)
    requires Inv(s) && ids != [] && Firable(s, ids)
    ensures Firable(Meet(s, ids[0]), ids[1..])
    ensures EventsFor(s, ids) == [EventFor(s, ids[0])] + EventsFor(Meet(s, ids[0]), ids[1..])
  {
    MeetTouchesOne(s, ids[0]);
    hide Meet, Inv;
    var rest, met := ids[1..], Meet(s, ids[0]);
    assert forall k :: 0 <= k < |rest| ==>
      rest[k] == ids[k + 1] && rest[k] != ids[0] && met.objects[rest[k]] == s.objects[rest[k]];
  }

  lemma QuietStepRegistered(s: State, ids: seq<nat>)
    requires Inv(s) && ids != [] && Firable(s, ids)
    ensures Meet(s, ids[0]).registered - OneShots(Meet(s, ids[0]), ids[1..]) == s.registered - OneShots(s, ids)
  {
    MeetTouchesOne(s, ids[0]);
    hide Meet, Inv;
    var rest, met := ids[1..], Meet(s, ids[0]);
    assert forall x :: x in ids <==> x == ids[0] || x in rest;
    forall x | x in rest
      ensures x != ids[0] && x in s.objects && met.objects[x] == s.objects[x]
    {
      var k :| 0 <= k < |rest| && rest[k] == x;
      assert ids[k + 1] == x;
    }
  }

  /** A Fire whose callbacks do not touch the signal reaches every live connection exactly once, in
      connection order, and leaves registered exactly the connections that are not one-shot. */
  lemma {:induction false} QuietFire(s: State, ids: seq<nat>)
    requires Inv(s) && Firable(s, ids)
    ensures ExecSnapshot(s, ids, []).log == s.log + EventsFor(s, ids)
    ensures ExecSnapshot(s, ids, []).registered == s.registered - OneShots(s, ids)
    decreases |ids|
  {
    if ids != [] {
      var met := Meet(s, ids[0]);
      assert ids[0] in s.objects && Live(s, ids[0]) && ExecSnapshot(s, ids, []) == ExecSnapshot(met, ids[1..], []);
      hide Meet, Inv, Later, Confined, ExecSnapshot, EventsFor, OneShots;
      MeetKeeps(s, ids[0]);
      MeetTouchesOne(s, ids[0]);
      QuietStep(s, ids);
      QuietStepRegistered(s, ids);
      QuietFire(met, ids[1..]);
    } else {
      assert OneShots(s, ids) == {};
    }
  }

  // ----- what a fire runs, whatever its callbacks do -----

  /** The action disconnects connection id: by its id while it is registered, through the timeout of
      its waiter, or by meeting it as a one-shot connection in a fire; alone or in a callback of it. */
  predicate Severs(s: State, a: Action, id: nat)
    decreases a
  {
    match a
    case Disconnect(other) => other == id && Live(s, id)
    case TimerElapsed(timerId) => timerId in s.timers && s.timers[timerId] == id
    case Fire(reactions) => !s.destroyed && SeversSnapshot(s, SnapshotFrom(s, 0), reactions, id)
    case _ => false
  }

  predicate SeversAll(s: State, actions: seq<Action>, id: nat)
    decreases actions
  {
    actions != [] && (Severs(s, actions[0], id) || SeversAll(Exec(s, actions[0]), actions[1..], id))
  }

  predicate Consumes(s: State, met: nat, id: nat) {
    met == id && id in s.objects && s.objects[id].connected && OneShot(s.objects[id])
  }

  predicate SeversSnapshot(s: State, ids: seq<nat>, reactions: seq<Script>, id: nat)
    decreases reactions, |ids|
  {
    if ids == [] then false
    else if ids[0] !in s.objects then SeversSnapshot(s, ids[1..], reactions, id)
    else if Consumes(s, ids[0], id) then true
    else if Spawns(s, ids[0]) && reactions != [] then
      var met := Meet(s, ids[0]);
      || SeversAll(met, reactions[0].actions, id)
      || SeversSnapshot(ExecAll(met, reactions[0].actions), ids[1..], reactions[1..], id)
    else SeversSnapshot(Meet(s, ids[0]), ids[1..], reactions, id)
  }

  predicate Connected(s: State, id: nat) {
    id in s.objects && s.objects[id].connected
  }

  /** A connected connection is connected afterwards exactly when it was not severed. */
  lemma {:induction false} SeversIff(s: State, a: Action, id: nat)
    requires Inv(s) && Connected(s, id)
    ensures Connected(Exec(s, a), id) <==> !Severs(s, a, id)
    decreases a
  {
    hide AtMostOnce, TimersMatch;
    match a
    case Connect =>
    case Once =>
    case Wait(timeout) =>
    case Disconnect(other) =>
    case DisconnectAll =>
    case Shutdown =>
    case Fire(reactions) =>
      if !s.destroyed {
        SeversSnapshotIff(s, SnapshotFrom(s, 0), reactions, id);
      }
    case TimerElapsed(timerId) => ElapseKeepsTimers(s, timerId);
  }

  lemma {:induction false} SeversAllIff(s: State, actions: seq<Action>, id: nat)
    requires Inv(s) && Connected(s, id)
    ensures Connected(ExecAll(s, actions), id) <==> !SeversAll(s, actions, id)
    decreases actions
  {
    if actions != [] {
      var next := Exec(s, actions[0]);
      SeversIff(s, actions[0], id);
      ExecKeeps(s, actions[0]);
      ExecAllKeeps(next, actions[1..]);
      hide Inv, Severs, Exec;
      StaysSevered(s, next, ExecAll(next, actions[1..]), id);
      if Connected(next, id) {
        SeversAllIff(next, actions[1..], id);
      }
    }
  }

  lemma StaysSevered(s: State, t: State, u: State, id: nat)
    requires Later(s, t) && Later(t, u) && id in s.objects
    ensures Connected(u, id) ==> Connected(t, id)
  {
  }

  lemma MeetSevers(s: State, met: nat, id: nat)
    requires met in s.objects && Connected(s, id)
    ensures Connected(Meet(s, met), id) <==> !Consumes(s, met, id)
  {
  }

  lemma {:induction false} SeversSnapshotIff(s: State, ids: seq<nat>, reactions: seq<Script>, id: nat)
    requires Inv(s) && Connected(s, id)
    ensures Connected(ExecSnapshot(s, ids, reactions), id) <==> !SeversSnapshot(s, ids, reactions, id)
    decreases reactions, |ids|
  {
    if ids == [] {
    } else if ids[0] !in s.objects {
      SeversSnapshotIff(s, ids[1..], reactions, id);
    } else {
      var met := Meet(s, ids[0]);
      MeetSevers(s, ids[0], id);
      MeetKeeps(s, ids[0]);
      var t := ExecSnapshot(s, ids, reactions);
      if Spawns(s, ids[0]) && reactions != [] {
        var ran := ExecAll(met, reactions[0].actions);
        assert t == ExecSnapshot(ran, ids[1..], reactions[1..]);
        ExecAllKeeps(met, reactions[0].actions);
        ExecSnapshotKeeps(ran, ids[1..], reactions[1..]);
        hide Inv, Meet, Consumes, ExecAll, ExecSnapshot;
        StaysSevered(s, met, ran, id);
        StaysSevered(met, ran, t, id);
        if Connected(met, id) {
          SeversAllIff(met, reactions[0].actions, id);
        }
        if Connected(ran, id) {
          SeversSnapshotIff(ran, ids[1..], reactions[1..], id);
        }
      } else {
        assert t == ExecSnapshot(met, ids[1..], reactions);
        ExecSnapshotKeeps(met, ids[1..], reactions);
        hide Inv, Meet, Consumes, ExecAll, ExecSnapshot;
        StaysSevered(s, met, t, id);
        if Connected(met, id) {
          SeversSnapshotIff(met, ids[1..], reactions, id);
        }
      }
    }
  }

  /** The scripts left when the fire has met these connections. */
  function Unused(s: State, ids: seq<nat>, reactions: seq<Script>): (r: seq<Script>)
    decreases reactions, |ids|
  {
    if ids == [] then reactions
    else if ids[0] !in s.objects then Unused(s, ids[1..], reactions)
    else if Spawns(s, ids[0]) && reactions != [] then
      Unused(ExecAll(Meet(s, ids[0]), reactions[0].actions), ids[1..], reactions[1..])
    else Unused(Meet(s, ids[0]), ids[1..], reactions)
  }

  lemma {:induction false} SnapshotSplits(s: State, ids: seq<nat>, k: nat, reactions: seq<Script>)
    requires k <= |ids|
    ensures ExecSnapshot(s, ids, reactions) ==
      ExecSnapshot(ExecSnapshot(s, ids[..k], reactions), ids[k..], Unused(s, ids[..k], reactions))
    decreases reactions, |ids|
  {
    if k == 0 {
      assert ids[..0] == [] && ids[0..] == ids;
    } else {
      assert ids[..k][0] == ids[0] && ids[..k][1..] == ids[1..][..k - 1] && ids[1..][k - 1..] == ids[k..];
      if ids[0] !in s.objects {
        SnapshotSplits(s, ids[1..], k - 1, reactions);
      } else if Spawns(s, ids[0]) && reactions != [] {
        SnapshotSplits(ExecAll(Meet(s, ids[0]), reactions[0].actions), ids[1..], k - 1, reactions[1..]);
      } else {
        SnapshotSplits(Meet(s, ids[0]), ids[1..], k - 1, reactions);
      }
    }
  }

  /** What a fire does to connection k of its snapshot, whatever its callbacks do: the connection runs
      exactly when no earlier callback of the fire has severed it, and its event is then the next one. */
  lemma FireOutcome(s: State, reactions: seq<Script>, k: nat)
    requires Inv(s) && !s.destroyed && k < |SnapshotFrom(s, 0)|
    ensures var ids, t := SnapshotFrom(s, 0), Exec(s, Fire(reactions));
      var id, before := ids[k], ExecSnapshot(s, ids[..k], reactions);
      && id in s.objects && id in before.objects
      && (Connected(before, id) <==> !SeversSnapshot(s, ids[..k], reactions, id))
      && Meet(before, id).log == before.log + (if Connected(before, id) then [EventFor(s, id)] else [])
      && Meet(before, id).log <= t.log
      && t == ExecSnapshot(before, ids[k..], Unused(s, ids[..k], reactions))
  {
    var ids := SnapshotFrom(s, 0);
    var id, before := ids[k], ExecSnapshot(s, ids[..k], reactions);
    SnapshotIsExact(s, 0);
    assert id in ids;
    assert Live(s, id);
    hide Inv, Later, Confined, ExecSnapshot, SeversSnapshot, Unused, Meet, SnapshotFrom;
    SeversSnapshotIff(s, ids[..k], reactions, id);
    SnapshotSplits(s, ids, k, reactions);
    ExecSnapshotKeeps(s, ids[..k], reactions);
    SameEvent(s, before, id);
    MeetLogs(before, id);
    MetIsLogged(before, ids[k..], Unused(s, ids[..k], reactions));
  }

  lemma SameEvent(s: State, t: State, id: nat)
    requires Later(s, t) && id in s.objects
    ensures id in t.objects && EventFor(t, id) == EventFor(s, id)
  {
  }

  lemma MeetLogs(s: State, id: nat)
    requires Inv(s) && id in s.objects
    ensures Meet(s, id).log == s.log + if Connected(s, id) then [EventFor(s, id)] else []
  {
  }

  lemma MetIsLogged(s: State, ids: seq<nat>, reactions: seq<Script>)
    requires Inv(s) && ids != [] && ids[0] in s.objects
    ensures Meet(s, ids[0]).log <= ExecSnapshot(s, ids, reactions).log
  {
    MeetKeeps(s, ids[0]);
    var met := Meet(s, ids[0]);
    if Spawns(s, ids[0]) && reactions != [] {
      ExecAllKeeps(met, reactions[0].actions);
      ExecSnapshotKeeps(ExecAll(met, reactions[0].actions), ids[1..], reactions[1..]);
    } else {
      ExecSnapshotKeeps(met, ids[1..], reactions);
    }
  }

  // ----- what becomes of a connection -----

  /** A waiter was resumed exactly when its continuation was deferred. */
  ghost predicate ResumedIsDeferred(s: State) {
    forall id :: id in s.objects && s.objects[id].waiter.Some? ==>
      (s.objects[id].waiter.value.resumed <==> Deferred(id) in s.log)
  }

  /** The action removes connection id from the map without running it: by its id, or with all others;
      alone or in a callback of it. */
  predicate Removes(s: State, a: Action, id: nat)
    decreases a
  {
    match a
    case Disconnect(other) => other == id
    case DisconnectAll => true
    case Shutdown => true
    case Fire(reactions) => !s.destroyed && RemovesSnapshot(s, SnapshotFrom(s, 0), reactions, id)
    case _ => false
  }

  predicate RemovesAll(s: State, actions: seq<Action>, id: nat)
    decreases actions
  {
    actions != [] &&
    ((id in s.registered && Removes(s, actions[0], id)) || RemovesAll(Exec(s, actions[0]), actions[1..], id))
  }

  predicate RemovesSnapshot(s: State, ids: seq<nat>, reactions: seq<Script>, id: nat)
    decreases reactions, |ids|
  {
    if ids == [] then false
    else if ids[0] !in s.objects then RemovesSnapshot(s, ids[1..], reactions, id)
    else if Spawns(s, ids[0]) && reactions != [] then
      var met := Meet(s, ids[0]);
      || RemovesAll(met, reactions[0].actions, id)
      || RemovesSnapshot(ExecAll(met, reactions[0].actions), ids[1..], reactions[1..], id)
    else RemovesSnapshot(Meet(s, ids[0]), ids[1..], reactions, id)
  }

  /** What is left of connection id, registered in s: it is registered still, it was a one-shot
      connection and has run since, or it was removed. */
  ghost predicate Accounted(s: State, t: State, id: nat, removed: bool)
    requires id in s.objects
  {
    if id in t.registered then !removed
    else removed || (OneShot(s.objects[id]) && exists k :: |s.log| <= k < |t.log| && t.log[k] == EventFor(s, id))
  }

  lemma AccountedLater(s: State, t: State, u: State, id: nat, first: bool, second: bool)
    requires id in s.registered && id in s.objects && Later(s, t) && Later(t, u) && Accounted(s, t, id, first)
    requires if id in t.registered then id in t.objects && Accounted(t, u, id, second) else !second
    ensures Accounted(s, u, id, first || second)
  {
    if id !in t.registered && !first {
      var k :| |s.log| <= k < |t.log| && t.log[k] == EventFor(s, id);
      assert u.log[k] == t.log[k];
    }
  }

  /** What has left the map cannot be removed any more. */
  lemma {:induction false} GoneIsNotRemoved(s: State, actions: seq<Action>, id: nat)
    requires Inv(s) && id in s.objects && id !in s.registered
    ensures !RemovesAll(s, actions, id)
    decreases actions
  {
    if actions != [] {
      ExecKeeps(s, actions[0]);
      hide Inv, Exec, Removes;
      GoneIsNotRemoved(Exec(s, actions[0]), actions[1..], id);
    }
  }

  lemma {:induction false} GoneIsNotRemovedIn(s: State, ids: seq<nat>, reactions: seq<Script>, id: nat)
    requires Inv(s) && id in s.objects && id !in s.registered
    ensures !RemovesSnapshot(s, ids, reactions, id)
    decreases reactions, |ids|
  {
    if ids == [] {
    } else if ids[0] !in s.objects {
      GoneIsNotRemovedIn(s, ids[1..], reactions, id);
    } else {
      var met := Meet(s, ids[0]);
      MeetKeeps(s, ids[0]);
      if Spawns(s, ids[0]) && reactions != [] {
        GoneIsNotRemoved(met, reactions[0].actions, id);
        ExecAllKeeps(met, reactions[0].actions);
        hide Inv, Meet, ExecAll;
        GoneIsNotRemovedIn(ExecAll(met, reactions[0].actions), ids[1..], reactions[1..], id);
      } else {
        hide Inv, Meet, ExecAll;
        GoneIsNotRemovedIn(met, ids[1..], reactions, id);
      }
    }
  }

  /** Every registered connection is accounted for after any action. */
  lemma {:induction false} ExecAccounts(s: State, a: Action, id: nat)
    requires Inv(s) && id in s.registered && id in s.objects
    ensures Accounted(s, Exec(s, a), id, Removes(s, a, id))
    decreases a
  {
    hide AtMostOnce;
    match a
    case Connect =>
    case Once =>
    case Wait(timeout) =>
    case Disconnect(other) =>
    case DisconnectAll =>
    case Shutdown =>
    case Fire(reactions) =>
      if !s.destroyed {
        SnapshotAccounts(s, SnapshotFrom(s, 0), reactions, id);
      }
    case TimerElapsed(timerId) => ElapseAccounts(s, timerId, id);
  }

  lemma ElapseAccounts(s: State, timerId: nat, id: nat)
    requires Inv(s) && id in s.registered && id in s.objects
    ensures Accounted(s, Elapse(s, timerId), id, false)
  {
    hide AtMostOnce;
    ElapseKeepsTimers(s, timerId);
    var t := Elapse(s, timerId);
    if id !in t.registered {
      assert t.log[|s.log|] == Deferred(id);
    }
  }

  lemma MeetAccounts(s: State, met: nat, id: nat)
    requires Inv(s) && id in s.registered && id in s.objects && met in s.objects
    ensures Accounted(s, Meet(s, met), id, false)
  {
    hide AtMostOnce, TimersMatch;
    var t := Meet(s, met);
    if id !in t.registered {
      assert t.log[|s.log|] == EventFor(s, id);
    }
  }

  lemma {:induction false} AllAccounts(s: State, actions: seq<Action>, id: nat)
    requires Inv(s) && id in s.registered && id in s.objects
    ensures Accounted(s, ExecAll(s, actions), id, RemovesAll(s, actions, id))
    decreases actions
  {
    if actions != [] {
      var next := Exec(s, actions[0]);
      ExecAccounts(s, actions[0], id);
      ExecKeeps(s, actions[0]);
      ExecAllKeeps(next, actions[1..]);
      KeysPersist(s, next);
      hide Inv, Exec, Later, Confined, Accounted, Removes;
      if id in next.registered {
        AllAccounts(next, actions[1..], id);
      } else {
        GoneIsNotRemoved(next, actions[1..], id);
      }
      AccountedLater(s, next, ExecAll(next, actions[1..]), id, Removes(s, actions[0], id),
        RemovesAll(next, actions[1..], id));
    }
  }

  lemma {:induction false} SnapshotAccounts(s: State, ids: seq<nat>, reactions: seq<Script>, id: nat)
    requires Inv(s) && id in s.registered && id in s.objects
    ensures Accounted(s, ExecSnapshot(s, ids, reactions), id, RemovesSnapshot(s, ids, reactions, id))
    decreases reactions, |ids|
  {
    if ids == [] {
    } else if ids[0] !in s.objects {
      SnapshotAccounts(s, ids[1..], reactions, id);
    } else {
      var met := Meet(s, ids[0]);
      MeetAccounts(s, ids[0], id);
      MeetKeeps(s, ids[0]);
      KeysPersist(s, met);
      if Spawns(s, ids[0]) && reactions != [] {
        SpawnAccounts(s, ids, reactions, id);
      } else {
        ExecSnapshotKeeps(met, ids[1..], reactions);
        hide Inv, Meet, Later, Confined, Accounted;
        if id in met.registered {
          SnapshotAccounts(met, ids[1..], reactions, id);
        } else {
          GoneIsNotRemovedIn(met, ids[1..], reactions, id);
        }
        AccountedLater(s, met, ExecSnapshot(met, ids[1..], reactions), id, false,
          RemovesSnapshot(met, ids[1..], reactions, id));
      }
    }
  }

  /** The same when the connection that is met spawns a callback with a script. */
  lemma {:induction false} SpawnAccounts(s: State, ids: seq<nat>, reactions: seq<Script>, id: nat)
    requires Inv(s) && id in s.registered && id in s.objects && ids != [] && reactions != []
    requires ids[0] in s.objects && Spawns(s, ids[0])
    ensures Accounted(s, ExecSnapshot(s, ids, reactions), id, RemovesSnapshot(s, ids, reactions, id))
    decreases reactions, |ids|, 0
  {
    var met := Meet(s, ids[0]);
    var actions := reactions[0].actions;
    var ran := ExecAll(met, actions);
    var t := ExecSnapshot(ran, ids[1..], reactions[1..]);
    MeetAccounts(s, ids[0], id);
    MeetKeeps(s, ids[0]);
    ExecAllKeeps(met, actions);
    ExecSnapshotKeeps(ran, ids[1..], reactions[1..]);
    KeysPersist(s, met);
    KeysPersist(met, ran);
    hide Inv, Meet, Later, Confined, Accounted, ExecAll;
    if id in met.registered {
      AllAccounts(met, actions, id);
    } else {
      GoneIsNotRemoved(met, actions, id);
      StaysGone(met, ran, id);
    }
    AccountedLater(s, met, ran, id, false, RemovesAll(met, actions, id));
    if id in ran.registered {
      SnapshotAccounts(ran, ids[1..], reactions[1..], id);
    } else {
      GoneIsNotRemovedIn(ran, ids[1..], reactions[1..], id);
    }
    LaterTransitive(s, met, ran, {ids[0]}, {});
    AccountedLater(s, ran, t, id, RemovesAll(met, actions, id), RemovesSnapshot(ran, ids[1..], reactions[1..], id));
  }

  lemma StaysGone(s: State, t: State, id: nat)
    requires Later(s, t) && id in s.objects && id !in s.registered
    ensures id !in t.registered
  {
  }

  // ----- a continuation is deferred for every waiter that is resumed -----

  lemma MeetDefers(s: State, id: nat)
    requires Inv(s) && id in s.objects && ResumedIsDeferred(s)
    ensures ResumedIsDeferred(Meet(s, id))
  {
    hide AtMostOnce, TimersMatch;
  }

  lemma ElapseDefers(s: State, timerId: nat)
    requires Inv(s) && ResumedIsDeferred(s)
    ensures ResumedIsDeferred(Elapse(s, timerId))
  {
    hide AtMostOnce;
    ElapseKeepsTimers(s, timerId);
  }

  lemma NewIsNotDeferred(s: State)
    requires Inv(s)
    ensures Deferred(s.nextId) !in s.log
  {
    forall k | 0 <= k < |s.log| ensures s.log[k] != Deferred(s.nextId) {
      assert Witnessed(s, s.log[k]);
    }
  }

  lemma {:induction false} ExecDefers(s: State, a: Action)
    requires Inv(s) && ResumedIsDeferred(s)
    ensures ResumedIsDeferred(Exec(s, a))
    decreases a
  {
    NewIsNotDeferred(s);
    hide Inv;
    match a
    case Connect =>
    case Once =>
    case Wait(timeout) =>
    case Disconnect(other) =>
    case DisconnectAll =>
    case Shutdown =>
    case Fire(reactions) =>
      if !s.destroyed {
        SnapshotDefers(s, SnapshotFrom(s, 0), reactions);
      }
    case TimerElapsed(timerId) => ElapseDefers(s, timerId);
  }

  lemma {:induction false} AllDefers(s: State, actions: seq<Action>)
    requires Inv(s) && ResumedIsDeferred(s)
    ensures ResumedIsDeferred(ExecAll(s, actions))
    decreases actions
  {
    if actions != [] {
      ExecDefers(s, actions[0]);
      ExecKeeps(s, actions[0]);
      hide Inv, Exec, ResumedIsDeferred;
      AllDefers(Exec(s, actions[0]), actions[1..]);
    }
  }

  lemma {:induction false} SnapshotDefers(s: State, ids: seq<nat>, reactions: seq<Script>)
    requires Inv(s) && ResumedIsDeferred(s)
    ensures ResumedIsDeferred(ExecSnapshot(s, ids, reactions))
    decreases reactions, |ids|
  {
    hide ResumedIsDeferred;
    if ids == [] {
    } else if ids[0] !in s.objects {
      SnapshotDefers(s, ids[1..], reactions);
    } else {
      var met := Meet(s, ids[0]);
      MeetDefers(s, ids[0]);
      MeetKeeps(s, ids[0]);
      if Spawns(s, ids[0]) && reactions != [] {
        AllDefers(met, reactions[0].actions);
        ExecAllKeeps(met, reactions[0].actions);
        hide Inv, Meet, ExecAll;
        SnapshotDefers(ExecAll(met, reactions[0].actions), ids[1..], reactions[1..]);
      } else {
        hide Inv, Meet, ExecAll;
        SnapshotDefers(met, ids[1..], reactions);
      }
    }
  }

  /** A live timer that elapses resumes its waiter: the continuation is deferred next, and nothing else is
      run. */
  lemma TimeoutResumes(s: State, timerId: nat)
    requires Inv(s) && timerId in s.timers
    ensures var id, t := s.timers[timerId], Exec(s, TimerElapsed(timerId));
      && id in t.objects && t.log == s.log + [Deferred(id)] && timerId !in t.timers && id !in t.registered
      && t.objects[id].waiter.Some? && t.objects[id].waiter.value.resumed
  {
    hide AtMostOnce;
    ElapseKeepsTimers(s, timerId);
  }

  /** In every run a waiter is resumed exactly when its continuation is deferred. */
  lemma ResumedIffDeferred(actions: seq<Action>)
    ensures ResumedIsDeferred(ExecAll(INITIAL, actions))
  {
    AllDefers(INITIAL, actions);
  }

  /** The connection that an action asks for. */
  function Requested(a: Action): (r: Option<Connection>) {
    match a
    case Connect => Some(Connection(false, true, None))
    case Once => Some(Connection(true, true, None))
    case Wait(timeout) =>
      if timeout.InvalidTimeout? then None else Some(Connection(true, true, Some(Waiter(None, false))))
    case _ => None
  }

  /** After Shutdown nothing ever happens again: nothing is connected, nothing runs. */
  lemma ShutdownIsFinal(before: seq<Action>, after: seq<Action>)
    ensures var s := ExecAll(INITIAL, before);
      var t := ExecAll(Exec(s, Shutdown), after);
      t.destroyed && t.registered == {} && t.log == s.log && t.objects == s.objects
  {
    var s := ExecAll(INITIAL, before);
    ExecAllKeeps(INITIAL, before);
    ExecKeeps(s, Shutdown);
    hide AtMostOnce;
    NothingAfterShutdown(Exec(s, Shutdown), after);
  }

  lemma {:induction false} NothingAfterShutdown(s: State, actions: seq<Action>)
    requires s.destroyed && s.registered == {} && s.timers == map[]
    ensures ExecAll(s, actions) == s
    decreases actions
  {
    if actions != [] {
      assert Exec(s, actions[0]) == s;
      NothingAfterShutdown(s, actions[1..]);
    }
  }

  /** How often an event occurs in the log. */
  ghost function Occurrences(log: seq<Event>, e: Event): (n: nat) {
    multiset(log)[e]
  }

  lemma {:induction false} OccursOnce(log: seq<Event>, e: Event)
    requires forall i, j :: 0 <= i < j < |log| && log[i] == e ==> log[i] != log[j]
    ensures Occurrences(log, e) == if e in log then 1 else 0
    decreases |log|
  {
    if log != [] {
      var init, last := log[..|log| - 1], log[|log| - 1];
      assert log == init + [last];
      OccursOnce(init, e);
      if e in init {
        var i :| 0 <= i < |init| && init[i] == e;
        assert log[i] != log[|log| - 1];
      }
    }
  }

  /** Whatever a run did before and does after, a connection made by Connect, Once or a Wait whose timeout
      is not rejected is either still registered, and then has not been consumed; or removed by its id, by
      DisconnectAll or by Shutdown; or, when it is a one-shot connection, has run exactly once. In
      particular a waiter that was not removed does not wait for ever, and a connection made by Connect
      stays until it is removed. */
  lemma ConnectionsAreAccounted(before: seq<Action>, a: Action, after: seq<Action>)
    requires !ExecAll(INITIAL, before).destroyed && Requested(a).Some?
    ensures var s := ExecAll(INITIAL, before);
      var id, made := s.nextId, Exec(s, a);
      var t, removed := ExecAll(made, after), RemovesAll(made, after, id);
      && id in made.objects && id in made.registered
      && made.objects[id].once == Requested(a).value.once
      && (made.objects[id].waiter.Some? <==> Requested(a).value.waiter.Some?)
      && (id in t.registered ==> !removed)
      && (id !in t.registered ==> removed || OneShot(made.objects[id]))
      && (OneShot(made.objects[id]) ==>
           && Occurrences(t.log, EventFor(made, id)) <= 1
           && (id in t.registered ==> Occurrences(t.log, EventFor(made, id)) == 0)
           && (id !in t.registered && !removed ==> Occurrences(t.log, EventFor(made, id)) == 1))
  {
    InitialIsValid();
    hide Inv, Later, ExecAll, Exec, RemovesAll, Confined;
    var s := ExecAll(INITIAL, before);
    var id, made := s.nextId, Exec(s, a);
    var t := ExecAll(made, after);
    ExecAllKeeps(INITIAL, before);
    ExecKeeps(s, a);
    ExecAllKeeps(made, after);
    MadeAsRequested(s, a);
    AllAccounts(made, after, id);
    if OneShot(made.objects[id]) {
      OneShotOnce(made, t, id);
    }
  }

  lemma InitialIsValid()
    ensures Inv(INITIAL)
  {
  }

  /** The connection is new, of the kind asked for, and has a timer exactly when a timeout was given. */
  lemma MadeAsRequested(s: State, a: Action)
    requires Inv(s) && !s.destroyed && Requested(a).Some?
    ensures var id, made := s.nextId, Exec(s, a);
      && id in made.objects && id in made.registered && id !in s.objects
      && made.objects[id].once == Requested(a).value.once
      && (made.objects[id].waiter.Some? <==> Requested(a).value.waiter.Some?)
      && ((exists k :: k in made.timers && made.timers[k] == id) <==> a == Wait(ValidTimeout))
  {
    var id, made := s.nextId, Exec(s, a);
    assert forall k :: k in s.timers ==> s.timers[k] in s.objects;
    assert a == Wait(ValidTimeout) ==> s.nextTimer in made.timers && made.timers[s.nextTimer] == id;
  }

  /** A rejected timeout uses up an id and leaves nothing registered. */
  lemma RejectedWaitLeavesNothing(s: State)
    requires Inv(s) && !s.destroyed
    ensures var t := Exec(s, Wait(InvalidTimeout));
      t.nextId == s.nextId + 1 && t.registered == s.registered && t.timers == s.timers && t.log == s.log
  {
  }

  lemma OneShotOnce(s: State, t: State, id: nat)
    requires Inv(t) && Later(s, t) && id in s.objects && OneShot(s.objects[id])
    requires id in s.objects && s.objects[id].waiter.Some? ==> s.objects[id].once
    ensures Occurrences(t.log, EventFor(s, id)) == if EventFor(s, id) in t.log then 1 else 0
    ensures id in t.registered ==> EventFor(s, id) !in t.log
  {
    var e := EventFor(s, id);
    assert id in t.objects && t.objects[id].once == s.objects[id].once;
    OccursOnce(t.log, e);
    forall k | 0 <= k < |t.log| ensures id in t.registered ==> t.log[k] != e {
      assert Witnessed(t, t.log[k]);
    }
  }

  /** A connection of the snapshot that was disconnected by id is skipped when it is met, one removed
      by DisconnectAll or Shutdown still runs. */
  lemma MetAfterRemoval(s: State, id: nat)
    requires Inv(s) && Live(s, id)
    ensures Meet(Drop(s, id), id).log == s.log
    ensures Meet(ForgetAll(s), id).log == s.log + [if s.objects[id].waiter.Some? then Deferred(id) else Spawned(id)]
  {
    assert s.objects[id].waiter.Some? ==> !s.objects[id].waiter.value.resumed;
  }

  /** Two connections, fired once, the first callback performing one action. */
  function TwoAndFire(a: Action): (actions: seq<Action>) {
    [Connect, Connect, Fire([Script([a])])]
  }

  /** Inside a running Fire the two ways of disconnecting differ: after DisconnectAll the second
      connection still runs, after Disconnect it does not. */
  lemma DisconnectDiffersFromDisconnectAll()
    ensures ExecAll(INITIAL, TwoAndFire(DisconnectAll)).log == [Spawned(1), Spawned(2)]
    ensures ExecAll(INITIAL, TwoAndFire(Disconnect(2))).log == [Spawned(1)]
  {
    hide ExecAll, TwoAndFire;
    TwoAndFireRuns(DisconnectAll);
    TwoAndFireRuns(Disconnect(2));
    SecondIsMet();
  }

  lemma SecondIsMet()
    ensures var met := Meet(TwoConnected(), 1); 2 in met.objects
    ensures Meet(Exec(Meet(TwoConnected(), 1), DisconnectAll), 2).log == [Spawned(1), Spawned(2)]
    ensures Meet(Exec(Meet(TwoConnected(), 1), Disconnect(2)), 2).log == [Spawned(1)]
  {
    var s := TwoConnected();
    assert s.objects == map[1 := Connection(false, true, None), 2 := Connection(false, true, None)];
    assert s.registered == {1, 2} && s.log == [] && !s.destroyed;
    var met := Meet(s, 1);
    assert met == s.(log := [Spawned(1)]);
    assert Exec(met, DisconnectAll).objects == s.objects && Exec(met, DisconnectAll).log == [Spawned(1)];
    assert Live(met, 2);
  }

  function TwoConnected(): (s: State) {
    AddConnection(AddConnection(INITIAL, false), false)
  }

  /** The run step by step: the first connection is met, the callback acts, the second is met. */
  lemma TwoAndFireRuns(a: Action)
    requires a == DisconnectAll || a == Disconnect(2)
    ensures var s := TwoConnected(); 1 in s.objects && 2 in Exec(Meet(s, 1), a).objects
    ensures ExecAll(INITIAL, TwoAndFire(a)) == Meet(Exec(Meet(TwoConnected(), 1), a), 2)
  {
    var s := TwoConnected();
    var fire := Fire([Script([a])]);
    var run := TwoAndFire(a);
    assert run[1..] == [Connect, fire] && run[1..][1..] == [fire] && run[1..][1..][1..] == [];
    assert ExecAll(INITIAL, run) == ExecAll(AddConnection(INITIAL, false), run[1..]);
    assert ExecAll(INITIAL, run) == ExecAll(s, run[1..][1..]);
    assert ExecAll(INITIAL, run) == Exec(s, fire);
    assert SnapshotFrom(s, 3) == [] && SnapshotFrom(s, 2) == [2] && SnapshotFrom(s, 1) == [1, 2];
    assert SnapshotFrom(s, 0) == [1, 2];
    var after := Exec(Meet(s, 1), a);
    OneAction(Meet(s, 1), a);
    assert [1, 2][1..] == [2] && [2][1..] == [] && [Script([a])][1..] == [];
    assert ExecSnapshot(s, [1, 2], [Script([a])]) == ExecSnapshot(after, [2], []);
    assert ExecSnapshot(after, [2], []) == ExecSnapshot(Meet(after, 2), [], []);
  }

  lemma OneAction(s: State, a: Action)
    ensures ExecAll(s, [a]) == Exec(s, a)
  {
    assert [a][1..] == [];
  }

  /** One unfolding of the Fire loop, at position i of the snapshot with the first next reactions used. */
  lemma {:induction false} SnapshotStep(s: State, ids: seq<nat>, i: nat, reactions: seq<Script>, next: nat)
    requires i < |ids| && ids[i] in s.objects && next <= |reactions|
    ensures !s.objects[ids[i]].connected ==> Meet(s, ids[i]) == s
    ensures ExecSnapshot(s, ids[i..], reactions[next..]) ==
      if s.objects[ids[i]].connected && s.objects[ids[i]].waiter.None? && next < |reactions| then
        ExecSnapshot(ExecAll(Meet(s, ids[i]), reactions[next].actions), ids[i + 1..], reactions[next + 1..])
      else
        ExecSnapshot(Meet(s, ids[i]), ids[i + 1..], reactions[next..])
  {
    assert ids[i..][1..] == ids[i + 1..];
    if next < |reactions| {
      assert reactions[next..][1..] == reactions[next + 1..];
    }
  }

  lemma {:induction false} FireUnfolds(s: State, reactions: seq<Script>)
    requires Inv(s)
    ensures Exec(s, Fire(reactions)) == if s.destroyed then s else ExecSnapshot(s, SnapshotFrom(s, 0), reactions)
    ensures forall k :: 0 <= k < |SnapshotFrom(s, 0)| ==> SnapshotFrom(s, 0)[k] in s.objects
  {
    hide ExecSnapshot, AtMostOnce, TimersMatch;
    SnapshotIsExact(s, 0);
    var ids := SnapshotFrom(s, 0);
    assert forall k :: 0 <= k < |ids| ==> ids[k] in ids;
  }

  lemma NothingLeft(s: State, ids: seq<nat>, reactions: seq<Script>)
    requires ids == []
    ensures ExecSnapshot(s, ids, reactions) == s
  {
  }

  lemma KeysPersist(s: State, t: State)
    requires Later(s, t)
    ensures s.objects.Keys <= t.objects.Keys
  {
  }

  /** The signal object itself. Every method moves the fields exactly as the operation above says. */
  class SignalObject {
    var destroyed: bool
    var nextId: nat
    var registered: set<nat>
    var objects: map<nat, Connection>
    var timers: map<nat, nat>
    var nextTimer: nat
    var log: seq<Event>

    ghost function View(): (s: State)
      reads this
    {
      State(destroyed, nextId, registered, objects, timers, nextTimer, log)
    }

    constructor ()
      ensures View() == INITIAL && Inv(View())
    {
      destroyed, nextId, registered, objects, timers, nextTimer, log := false, 1, {}, map[], map[], 1, [];
    }

    method ClearTimeout(timerId: nat)
      modifies this`timers
      ensures timers == old(timers) - {timerId}
    {
      timers := timers - {timerId};
    }

    method Connect(once: bool)
      modifies this
      ensures View() == AddConnection(old(View()), once)
    {
      if destroyed {
        return;
      }
      var id := nextId;
      nextId := nextId + 1;
      objects := objects[id := Connection(once, true, None)];
      registered := registered + {id};
    }

    method Wait(timeout: Timeout)
      requires Inv(View())
      modifies this
      ensures View() == AddWaiter(old(View()), timeout)
    {
      if destroyed {
        return;
      }
      var id := nextId;
      nextId := nextId + 1;
      objects := objects[id := Connection(true, true, Some(Waiter(None, false)))];
      registered := registered + {id};
      if timeout.InvalidTimeout? {
        registered := registered - {id};
        assert registered == old(registered);
        return;
      }
      if timeout.ValidTimeout? {
        timers := timers[nextTimer := id];
        objects := objects[id := Connection(true, true, Some(Waiter(Some(nextTimer), false)))];
        nextTimer := nextTimer + 1;
      }
    }

    method Disconnect(id: nat)
      requires registered <= objects.Keys
      modifies this
      ensures View() == Drop(old(View()), id)
    {
      if id !in registered || !objects[id].connected {
        return;
      }
      var c := objects[id];
      objects := objects[id := c.(connected := false)];
      if Timed(c) {
        ClearTimeout(c.waiter.value.timerId.value);
      }
      registered := registered - {id};
    }

    /** The loop shared by DisconnectAll and Shutdown. */
    method ClearConnections()
      requires Inv(View())
      modifies this`timers, this`registered
      ensures View() == ForgetAll(old(View()))
    {
      for id := 0 to nextId
        invariant registered == old(registered) && timers == old(timers) - TimersBelow(old(View()), id)
      {
        if id in registered && Timed(objects[id]) {
          ClearTimeout(objects[id].waiter.value.timerId.value);
        }
      }
      registered := {};
    }

    method DisconnectAll()
      requires Inv(View())
      modifies this
      ensures View() == Exec(old(View()), Action.DisconnectAll)
    {
      if destroyed {
        return;
      }
      ClearConnections();
    }

    method Shutdown()
      requires Inv(View())
      modifies this
      ensures View() == Exec(old(View()), Action.Shutdown)
    {
      if destroyed {
        return;
      }
      ClearConnections();
      destroyed := true;
    }

    method TimerElapsed(timerId: nat)
      requires Inv(View())
      modifies this
      ensures View() == Elapse(old(View()), timerId)
    {
      if timerId !in timers {
        return;
      }
      var id := timers[timerId];
      var c := objects[id];
      if !c.waiter.value.resumed {
        objects := objects[id := c.(waiter := Some(c.waiter.value.(resumed := true)))];
        Disconnect(id);
        log := log + [Deferred(id)];
      }
      timers := timers - {timerId};
    }

    method Snapshot() returns (ids: seq<nat>)
      requires Inv(View())
      ensures ids == SnapshotFrom(View(), 0)
    {
      ids := [];
      for id := 0 to nextId
        invariant ids + SnapshotFrom(View(), id) == SnapshotFrom(View(), 0)
      {
        if id in registered && objects[id].connected {
          ids := ids + [id];
        }
      }
    }

    /** Fire with the actions its callbacks perform. Nothing but the invariant is known of the state
        a callback leaves behind; the loop rereads every connection of the snapshot. */
    method Fire(reactions: seq<Script>)
      requires Inv(View())
      modifies this
      ensures View() == Exec(old(View()), Action.Fire(reactions)) && Inv(View())
      decreases reactions, 1
    {
      hide Inv, Exec, ExecSnapshot, SnapshotFrom, Later, Confined;
      ExecKeeps(View(), Action.Fire(reactions));
      FireUnfolds(View(), reactions);
      if destroyed {
        return;
      }
      var snapshot := Snapshot();
      VisitSnapshot(snapshot, reactions);
    }

    method VisitSnapshot(snapshot: seq<nat>, reactions: seq<Script>)
      requires Inv(View()) && forall k :: 0 <= k < |snapshot| ==> snapshot[k] in objects
      modifies this
      ensures View() == ExecSnapshot(old(View()), snapshot, reactions)
      decreases reactions, 0
    {
      hide Inv, Meet, Later, Confined, ExecAll, ExecSnapshot, Spawns;
      var next := 0;
      for i := 0 to |snapshot|
        invariant Inv(View()) && old(objects).Keys <= objects.Keys && next <= |reactions|
        invariant ExecSnapshot(View(), snapshot[i..], reactions[next..]) ==
          ExecSnapshot(old(View()), snapshot, reactions)
      {
        var id := snapshot[i];
        ghost var s := View();
        MeetKeeps(s, id);
        KeysPersist(s, Meet(s, id));
        SnapshotStep(s, snapshot, i, reactions, next);
        if objects[id].connected {
          var spawns := objects[id].waiter.None?;
          MeetLive(id);
          if spawns && next < |reactions| {
            ghost var met := View();
            RunAll(reactions[next].actions);
            ExecAllKeeps(met, reactions[next].actions);
            KeysPersist(met, View());
            next := next + 1;
          }
        }
      }
      NothingLeft(View(), snapshot[|snapshot|..], reactions[next..]);
    }

    /** The body of the Fire loop for a connection that is still connected, up to the spawn. */
    method MeetLive(id: nat)
      requires Inv(View()) && id in objects && objects[id].connected
      modifies this
      ensures View() == Meet(old(View()), id)
    {
      var c := objects[id];
      if c.waiter.Some? {
        objects := objects[id := c.(connected := false)];
        if Timed(c) {
          ClearTimeout(c.waiter.value.timerId.value);
        }
        registered := registered - {id};
        if !c.waiter.value.resumed {
          objects := objects[id := c.(connected := false, waiter := Some(c.waiter.value.(resumed := true)))];
          log := log + [Deferred(id)];
        }
        return;
      }
      if c.once {
        objects := objects[id := c.(connected := false)];
        registered := registered - {id};
      }
      log := log + [Spawned(id)];
    }

    method Run(a: Action)
      requires Inv(View())
      modifies this
      ensures View() == Exec(old(View()), a) && Inv(View())
      decreases a, 2
    {
      ExecKeeps(View(), a);
      match a
      case Connect => Connect(false);
      case Once => Connect(true);
      case Wait(timeout) => Wait(timeout);
      case Disconnect(id) => Disconnect(id);
      case DisconnectAll => DisconnectAll();
      case Shutdown => Shutdown();
      case Fire(reactions) => Fire(reactions);
      case TimerElapsed(timerId) => TimerElapsed(timerId);
    }

    method RunAll(actions: seq<Action>)
      requires Inv(View())
      modifies this
      ensures View() == ExecAll(old(View()), actions) && Inv(View())
      decreases actions, 0
    {
      if actions != [] {
        Run(actions[0]);
        RunAll(actions[1..]);
      }
    }
  }
}
