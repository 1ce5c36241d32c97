/** The timer table of the task scheduler, mutated re-entrantly by the callbacks that timers run.
    A run is a sequence of actions; each firing carries the actions its callback performs, which may
    include further firings when the callback runs the event loop itself. */
module TaskTimers {
  import opened Wrappers

  /** What a timer resumes: a coroutine it holds, or a callback, which may itself be a thread. */
  datatype Target = Coroutine(thread: nat) | Callback(callee: Option<nat>)

  datatype Timer = Timer(target: Target, recurring: bool)

  datatype Event = Started(id: nat) | Closed(id: nat)

  datatype Action =
    | Schedule(timer: Timer, accepted: bool)
    | ClearTimeout(id: nat)
    | Cancel(thread: nat)
    | CloseCallback(id: nat)
    | Fire(id: nat, reaction: seq<Action>)

  /** heap holds every timer ever set up, timers the ids in the table, armed the handles the event
      loop may fire, closed the handles given to uv_close, freed those whose close callback has run and
      deleted the timer, stale those that were read after that. */
  datatype State = State(
    nextTimerId: nat,
    timers: set<nat>,
    heap: map<nat, Timer>,
    armed: set<nat>,
    closed: set<nat>,
    freed: set<nat>,
    stale: set<nat>,
    log: seq<Event>)

  const INITIAL := State(1, {}, map[], {}, {}, {}, {}, [])

  // ----- the effect of each operation -----

  /** A handle is closed unless it is closing already. */
  function Destroy(s: State, id: nat): (t: State) {
    if id in s.closed then s
    else s.(armed := s.armed - {id}, closed := s.closed + {id}, log := s.log + [Closed(id)])
  }

  /** A rejected duration, or a failing start, takes the timer out of the table again. */
  function StartTimer(s: State, timer: Timer, accepted: bool): (t: State) {
    var id := s.nextTimerId;
    var set_up := s.(nextTimerId := id + 1, heap := s.heap[id := timer], timers := s.timers + {id});
    if accepted then set_up.(armed := s.armed + {id})
    else Destroy(set_up.(timers := set_up.timers - {id}), id)
  }

  function Clear(s: State, id: nat): (t: State) {
    if id !in s.timers then s
    else Destroy(s.(armed := s.armed - {id}, timers := s.timers - {id}), id)
  }

  function ClearEach(s: State, ids: seq<nat>): (t: State)
    decreases |ids|
  {
    if ids == [] then s else ClearEach(Clear(s, ids[0]), ids[1..])
  }

  /** The table entries whose coroutine is this thread, by ascending id. */
  function TimersOf(s: State, thread: nat, from: nat): (ids: seq<nat>)
    decreases s.nextTimerId - from
  {
    if from >= s.nextTimerId then []
    else (if Holds(s, thread, from) then [from] else []) + TimersOf(s, thread, from + 1)
  }

  predicate Holds(s: State, thread: nat, id: nat) {
    id in s.timers && id in s.heap && s.heap[id].target == Coroutine(thread)
  }

  function CancelThread(s: State, thread: nat): (t: State) {
    ClearEach(s, TimersOf(s, thread, 0))
  }

  /** The event loop stops a one-shot timer before it calls back. */
  function Begin(s: State, id: nat): (t: State)
    requires id in s.heap
  {
    s.(armed := if s.heap[id].recurring then s.armed else s.armed - {id}, log := s.log + [Started(id)])
  }

  /** The close callback of a handle deletes its timer. */
  function Reap(s: State, id: nat): (t: State) {
    if id in s.closed then s.(freed := s.freed + {id}) else s
  }

  /** Reading a timer that may be gone. */
  function Touch(s: State, id: nat): (t: State) {
    if id in s.freed then s.(stale := s.stale + {id}) else s
  }

  /** After its callback the timer is read, and a one-shot timer leaves the table and is closed. */
  function Finish(s: State, id: nat): (t: State)
    requires id in s.heap
  {
    var read := Touch(s, id);
    if s.heap[id].recurring then read
    else Destroy(read.(armed := read.armed - {id}, timers := read.timers - {id}), id)
  }

  // ----- runs -----

  function Exec(s: State, a: Action): (t: State)
    decreases a
  {
    match a
    case Schedule(timer, accepted) => StartTimer(s, timer, accepted)
    case ClearTimeout(id) => Clear(s, id)
    case Cancel(thread) => CancelThread(s, thread)
    case CloseCallback(id) => Reap(s, id)
    case Fire(id, reaction) =>
      if id !in s.armed || id !in s.heap then s
      else
        var after := ExecAll(Begin(s, id), reaction);
        if id in after.heap then Finish(after, id) else after
  }

  function ExecAll(s: State, actions: seq<Action>): (t: State)
    decreases actions
  {
    if actions == [] then s else ExecAll(Exec(s, actions[0]), actions[1..])
  }

  // ----- invariants of every run -----

  /** A timer is in the table exactly while its handle is open. */
  ghost predicate Consistent(s: State) {
    && s.nextTimerId > 0
    && (forall id :: id in s.heap <==> 0 < id < s.nextTimerId)
    && (forall id :: id in s.timers ==> id in s.heap)
    && (forall id :: id in s.closed ==> id in s.heap)
    && (forall id :: id in s.heap ==> (id in s.timers <==> id !in s.closed))
    && (forall id :: id in s.armed ==> id in s.timers)
    && s.stale <= s.freed <= s.closed
  }

  /** Everything in the table is waiting to fire, except one-shot timers whose callback is running. */
  ghost predicate Pending(s: State, running: set<nat>) {
    forall id :: id in s.timers ==> id in s.armed || id in running
  }

  ghost predicate Witnessed(s: State, e: Event) {
    && e.id in s.heap
    && (e.Closed? ==> e.id in s.closed)
    && (e.Started? && !s.heap[e.id].recurring ==> e.id !in s.armed)
  }

  /** Allowed to come after: nothing is closed twice, nothing starts once closed, and only recurring
      timers start twice. */
  ghost predicate MayFollow(s: State, first: Event, then_: Event) {
    first.id == then_.id && first.id in s.heap ==>
      first.Started? && (then_.Started? ==> s.heap[first.id].recurring)
  }

  ghost predicate Orderly(s: State) {
    && (forall i :: 0 <= i < |s.log| ==> Witnessed(s, s.log[i]))
    && (forall i, j :: 0 <= i < j < |s.log| ==> MayFollow(s, s.log[i], s.log[j]))
    && (forall id :: id in s.closed ==> Closed(id) in s.log)
  }

  ghost predicate Inv(s: State) {
    Consistent(s) && Orderly(s)
  }

  /** What can only move forward. In particular nothing is armed again, and nothing starts that was
      not armed. */
  ghost predicate Later(s: State, t: State) {
    && s.nextTimerId <= t.nextTimerId && s.log <= t.log && s.closed <= t.closed
    && s.freed <= t.freed && s.stale <= t.stale
    && (forall id :: id in s.heap ==> id in t.heap && t.heap[id] == s.heap[id])
    && (forall id :: id in s.heap && id in t.armed ==> id in s.armed)
    && (forall id :: id in s.heap && id in t.timers ==> id in s.timers)
    && (forall k :: |s.log| <= k < |t.log| && t.log[k].Started? ==> t.log[k].id !in s.heap || t.log[k].id in s.armed)
  }

  lemma LaterTransitive(s: State, t: State, u: State)
    requires Later(s, t) && Later(t, u)
    ensures Later(s, u)
  {
    forall k | |s.log| <= k < |u.log| && u.log[k].Started?
      ensures u.log[k].id !in s.heap || u.log[k].id in s.armed
    {
      if k < |t.log| {
        assert u.log[k] == t.log[k];
      }
    }
  }

  lemma Unmoved(s: State)
    ensures Later(s, s)
  {
  }

  // ----- every operation keeps the invariant -----

  /** Logging one more event of a timer that may still have one. */
  lemma Logged(s: State, t: State, e: Event)
    requires Orderly(s) && t.log == s.log + [e] && Witnessed(t, e)
    requires forall id :: id in s.heap ==> id in t.heap && t.heap[id] == s.heap[id]
    requires forall id :: id in s.heap && id in t.armed ==> id in s.armed
    requires s.closed <= t.closed && forall id :: id in t.closed ==> id in s.closed || e == Closed(id)
    requires e.id in s.heap ==> e.id !in s.closed
    requires e.Started? ==> e.id in s.heap && (s.heap[e.id].recurring || e.id in s.armed)
    ensures Orderly(t)
  {
    forall i | 0 <= i < |t.log| ensures Witnessed(t, t.log[i]) {
      if i < |s.log| {
        assert t.log[i] == s.log[i] && Witnessed(s, s.log[i]);
      }
    }
    forall i, j | 0 <= i < j < |t.log| ensures MayFollow(t, t.log[i], t.log[j]) {
      assert t.log[i] == s.log[i] && Witnessed(s, s.log[i]);
      if j < |s.log| {
        assert t.log[j] == s.log[j] && MayFollow(s, s.log[i], s.log[j]);
      }
    }
    forall id | id in t.closed ensures Closed(id) in t.log {
      if id in s.closed {
        assert Closed(id) in s.log;
      } else {
        assert t.log[|s.log|] == Closed(id);
      }
    }
  }

  lemma NotLogged(s: State, t: State)
    requires Orderly(s) && t.log == s.log && t.closed == s.closed
    requires forall id :: id in s.heap ==> id in t.heap && t.heap[id] == s.heap[id]
    requires forall id :: id in s.heap && id in t.armed ==> id in s.armed
    ensures Orderly(t)
  {
    forall i | 0 <= i < |t.log| ensures Witnessed(t, t.log[i]) {
      assert Witnessed(s, s.log[i]);
    }
    forall i, j | 0 <= i < j < |t.log| ensures MayFollow(t, t.log[i], t.log[j]) {
      assert Witnessed(s, s.log[i]) && MayFollow(s, s.log[i], s.log[j]);
    }
  }

  lemma StartKeeps(s: State, timer: Timer, accepted: bool, running: set<nat>)
    requires Inv(s) && Pending(s, running)
    ensures var t := StartTimer(s, timer, accepted); Inv(t) && Pending(t, running) && Later(s, t)
  {
    var t := StartTimer(s, timer, accepted);
    if accepted {
      NotLogged(s, t);
    } else {
      assert s.nextTimerId !in s.closed;
      Logged(s, t, Closed(s.nextTimerId));
    }
  }

  lemma ClearKeeps(s: State, id: nat, running: set<nat>)
    requires Inv(s) && Pending(s, running)
    ensures var t := Clear(s, id); Inv(t) && Pending(t, running) && Later(s, t)
  {
    if id in s.timers {
      Logged(s, Clear(s, id), Closed(id));
    }
  }

  lemma ReapKeeps(s: State, id: nat, running: set<nat>)
    requires Inv(s) && Pending(s, running)
    ensures var t := Reap(s, id); Inv(t) && Pending(t, running) && Later(s, t)
  {
    NotLogged(s, Reap(s, id));
  }

  lemma {:induction false} ClearEachKeeps(s: State, ids: seq<nat>, running: set<nat>)
    requires Inv(s) && Pending(s, running)
    ensures var t := ClearEach(s, ids); Inv(t) && Pending(t, running) && Later(s, t)
    decreases |ids|
  {
    Unmoved(s);
    if ids != [] {
      var next := Clear(s, ids[0]);
      ClearKeeps(s, ids[0], running);
      ClearEachKeeps(next, ids[1..], running);
      LaterTransitive(s, next, ClearEach(next, ids[1..]));
    }
  }

  lemma BeginKeeps(s: State, id: nat, running: set<nat>)
    requires Inv(s) && Pending(s, running) && id in s.armed
    ensures id in s.heap
    ensures var t := Begin(s, id);
      Inv(t) && Pending(t, if s.heap[id].recurring then running else running + {id}) && Later(s, t)
  {
    Logged(s, Begin(s, id), Started(id));
  }

  lemma FinishKeeps(s: State, id: nat, running: set<nat>)
    requires Inv(s) && id in s.heap && Pending(s, if s.heap[id].recurring then running else running + {id})
    ensures var t := Finish(s, id); Inv(t) && Pending(t, running) && Later(s, t)
  {
    if !s.heap[id].recurring && id !in s.closed {
      Logged(s, Finish(s, id), Closed(id));
    } else {
      NotLogged(s, Finish(s, id));
    }
  }

  /** Every action keeps the invariant, in whatever callbacks it happens. */
  lemma {:induction false} ExecKeeps(s: State, a: Action, running: set<nat>)
    requires Inv(s) && Pending(s, running)
    ensures var t := Exec(s, a); Inv(t) && Pending(t, running) && Later(s, t)
    decreases a
  {
    hide Inv, Pending, Later, Consistent, Orderly;
    Unmoved(s);
    match a
    case Schedule(timer, accepted) => StartKeeps(s, timer, accepted, running);
    case ClearTimeout(id) => ClearKeeps(s, id, running);
    case Cancel(thread) => ClearEachKeeps(s, TimersOf(s, thread, 0), running);
    case CloseCallback(id) => ReapKeeps(s, id, running);
    case Fire(id, reaction) =>
      if id in s.armed && id in s.heap {
        FireKeeps(s, id, reaction, running);
      }
  }

  lemma {:induction false} FireKeeps(s: State, id: nat, reaction: seq<Action>, running: set<nat>)
    requires Inv(s) && Pending(s, running) && id in s.armed && id in s.heap
    ensures var t := Exec(s, Fire(id, reaction)); Inv(t) && Pending(t, running) && Later(s, t)
    decreases reaction, 1
  {
    hide Inv, Pending, Consistent, Orderly;
    var started := Begin(s, id);
    var during := if s.heap[id].recurring then running else running + {id};
    BeginKeeps(s, id, running);
    ExecAllKeeps(started, reaction, during);
    var after := ExecAll(started, reaction);
    assert id in after.heap && after.heap[id] == s.heap[id];
    FinishKeeps(after, id, running);
    LaterTransitive(s, started, after);
    LaterTransitive(s, after, Finish(after, id));
  }

  lemma {:induction false} ExecAllKeeps(s: State, actions: seq<Action>, running: set<nat>)
    requires Inv(s) && Pending(s, running)
    ensures var t := ExecAll(s, actions); Inv(t) && Pending(t, running) && Later(s, t)
    decreases actions, 0
  {
    hide Inv, Pending, Later;
    Unmoved(s);
    if actions != [] {
      var next := Exec(s, actions[0]);
      ExecKeeps(s, actions[0], running);
      ExecAllKeeps(next, actions[1..], running);
      LaterTransitive(s, next, ExecAll(next, actions[1..]));
    }
  }

  /** Safety of every run from a fresh context: outside callbacks the table holds exactly the armed
      timers, which are exactly those with an open handle; no handle is closed twice, nothing starts
      after it was closed, and a one-shot timer starts at most once. */
  lemma RunIsSafe(actions: seq<Action>)
    ensures var t := ExecAll(INITIAL, actions);
      && t.timers == t.armed && t.heap.Keys == t.timers + t.closed && t.timers !! t.closed
      && (forall id :: id in t.closed <==> Closed(id) in t.log)
      && forall i, j :: 0 <= i < j < |t.log| && t.log[i].id == t.log[j].id ==>
           && t.log[i].Started? && t.log[i].id in t.heap
           && (t.log[j].Started? ==> t.heap[t.log[i].id].recurring)
  {
    ExecAllKeeps(INITIAL, actions, {});
    var t := ExecAll(INITIAL, actions);
    assert Inv(t) && Pending(t, {});
    forall i, j | 0 <= i < j < |t.log| && t.log[i].id == t.log[j].id
      ensures t.log[i].Started? && t.log[i].id in t.heap && (t.log[j].Started? ==> t.heap[t.log[i].id].recurring)
    {
      assert Witnessed(t, t.log[i]) && MayFollow(t, t.log[i], t.log[j]);
    }
  }

  /** Once out of the table, a timer never starts a callback again, however deep the run re-enters. */
  lemma GoneNeverStarts(before: seq<Action>, after: seq<Action>, id: nat)
    ensures var s := ExecAll(INITIAL, before);
            var t := ExecAll(s, after);
            id in s.heap && id !in s.timers ==>
              |s.log| <= |t.log| && id !in t.timers && forall k :: |s.log| <= k < |t.log| ==> t.log[k] != Started(id)
  {
    ExecAllKeeps(INITIAL, before, {});
    ExecAllKeeps(ExecAll(INITIAL, before), after, {});
  }

  // ----- what stays -----

  /** The action takes timer id out of the table: it clears it, cancels the thread it holds, or fires it
      as a one-shot timer; alone or in a callback of it. */
  predicate Retires(s: State, a: Action, id: nat)
    decreases a
  {
    match a
    case Schedule(_, _) => false
    case ClearTimeout(other) => other == id
    case Cancel(thread) => id in s.heap && s.heap[id].target == Coroutine(thread)
    case CloseCallback(_) => false
    case Fire(other, reaction) =>
      && other in s.armed && other in s.heap
      && ((other == id && !s.heap[id].recurring) || RetiresAll(Begin(s, other), reaction, id))
  }

  predicate RetiresAll(s: State, actions: seq<Action>, id: nat)
    decreases actions
  {
    actions != [] && (Retires(s, actions[0], id) || RetiresAll(Exec(s, actions[0]), actions[1..], id))
  }

  /** A timer of the table stays there exactly unless the action retires it. */
  lemma {:induction false} RetiresIff(s: State, a: Action, id: nat)
    requires Inv(s) && id in s.timers
    ensures id in Exec(s, a).timers <==> !Retires(s, a, id)
    decreases a, 0
  {
    match a
    case Schedule(timer, accepted) =>
    case ClearTimeout(other) =>
    case Cancel(thread) => CancelIsExact(s, thread);
    case CloseCallback(other) =>
    case Fire(other, reaction) =>
      if other in s.armed && other in s.heap {
        FireRetiresIff(s, other, reaction, id);
      }
  }

  lemma {:induction false} FireRetiresIff(s: State, other: nat, reaction: seq<Action>, id: nat)
    requires Inv(s) && id in s.timers && other in s.armed && other in s.heap
    ensures id in Exec(s, Fire(other, reaction)).timers <==> !Retires(s, Fire(other, reaction), id)
    decreases reaction, 1
  {
    var started := Begin(s, other);
    PendingSomehow(s);
    BeginKeeps(s, other, s.timers);
    PendingSomehow(started);
    ExecAllKeeps(started, reaction, started.timers);
    RetiresAllIff(started, reaction, id);
    var after := ExecAll(started, reaction);
    assert other in after.heap && after.heap[other] == s.heap[other];
    hide Inv, Pending, Later, ExecAll, RetiresAll, Begin;
    assert Finish(after, other).timers == if s.heap[other].recurring then after.timers else after.timers - {other};
  }

  lemma {:induction false} RetiresAllIff(s: State, actions: seq<Action>, id: nat)
    requires Inv(s) && id in s.timers
    ensures id in ExecAll(s, actions).timers <==> !RetiresAll(s, actions, id)
    decreases actions, 0
  {
    if actions != [] {
      var next := Exec(s, actions[0]);
      PendingSomehow(s);
      RetiresIff(s, actions[0], id);
      ExecKeeps(s, actions[0], s.timers);
      PendingSomehow(next);
      ExecAllKeeps(next, actions[1..], next.timers);
      assert id in next.heap;
      hide Inv, Pending, Retires, Exec;
      if id in next.timers {
        RetiresAllIff(next, actions[1..], id);
      }
    }
  }

  /** A recurring timer waits to fire again exactly unless it is retired, in every run after any other. */
  lemma RecurringStaysArmed(before: seq<Action>, after: seq<Action>, id: nat)
    ensures var s := ExecAll(INITIAL, before);
      id in s.armed && id in s.heap && s.heap[id].recurring ==>
        (id in ExecAll(s, after).armed <==> !RetiresAll(s, after, id))
  {
    ExecAllKeeps(INITIAL, before, {});
    var s := ExecAll(INITIAL, before);
    ExecAllKeeps(s, after, {});
    if id in s.timers {
      RetiresAllIff(s, after, id);
    }
  }

  /** Firing an armed timer starts its callback first. */
  lemma FireStarts(s: State, id: nat, reaction: seq<Action>)
    requires Inv(s) && id in s.armed
    ensures s.log + [Started(id)] <= Exec(s, Fire(id, reaction)).log
  {
    var started := Begin(s, id);
    PendingSomehow(s);
    BeginKeeps(s, id, s.timers);
    PendingSomehow(started);
    ExecAllKeeps(started, reaction, started.timers);
    hide ExecAll, Orderly;
  }

  /** A new timer has the next id, and is in the table, armed with what was asked for, exactly when its
      start was accepted. */
  lemma ScheduleRegisters(s: State, timer: Timer, accepted: bool)
    requires Inv(s)
    ensures var t, id := Exec(s, Schedule(timer, accepted)), s.nextTimerId;
      && id !in s.heap && id in t.heap && t.heap[id] == timer
      && (id in t.timers <==> accepted) && (id in t.armed <==> accepted) && (id in t.closed <==> !accepted)
  {
  }

  // ----- cancelling a thread -----

  lemma {:induction false} TimersOfIsExact(s: State, thread: nat, from: nat)
    requires Consistent(s)
    ensures forall id :: id in TimersOf(s, thread, from) <==> from <= id && Holds(s, thread, id)
    ensures Ascending(TimersOf(s, thread, from))
    decreases s.nextTimerId - from
  {
    if from < s.nextTimerId {
      TimersOfIsExact(s, thread, from + 1);
      var rest := TimersOf(s, thread, from + 1);
      forall j | 0 <= j < |rest| ensures from < rest[j] {
        assert rest[j] in rest;
      }
    }
  }

  ghost function AllClosed(ids: seq<nat>): (r: seq<Event>) {
    if ids == [] then [] else [Closed(ids[0])] + AllClosed(ids[1..])
  }

  ghost function Ids(ids: seq<nat>): (r: set<nat>) {
    set id | id in ids
  }

  ghost predicate Ascending(ids: seq<nat>) {
    forall i, j :: 0 <= i < j < |ids| ==> ids[i] < ids[j]
  }

  lemma TailAscends(ids: seq<nat>)
    requires Ascending(ids) && ids != []
    ensures Ascending(ids[1..]) && ids[0] !in ids[1..]
    ensures Ids(ids) == {ids[0]} + Ids(ids[1..]) && AllClosed(ids) == [Closed(ids[0])] + AllClosed(ids[1..])
  {
    assert ids == [ids[0]] + ids[1..];
  }

  lemma ClearIsExact(s: State, id: nat)
    requires Consistent(s) && id in s.timers
    ensures Consistent(Clear(s, id))
    ensures Clear(s, id) == s.(
      timers := s.timers - {id}, armed := s.armed - {id}, closed := s.closed + {id}, log := s.log + [Closed(id)])
  {
  }

  lemma {:induction false} ClearEachIsExact(s: State, ids: seq<nat>)
    requires Consistent(s) && Ascending(ids) && (forall id :: id in ids ==> id in s.timers)
    ensures ClearEach(s, ids) == s.(
      timers := s.timers - Ids(ids), armed := s.armed - Ids(ids), closed := s.closed + Ids(ids),
      log := s.log + AllClosed(ids))
    decreases |ids|
  {
    hide Consistent, Clear, Ascending, Ids, AllClosed;
    NoneToClose(s);
    if ids != [] {
      var next := Clear(s, ids[0]);
      var rest := ids[1..];
      ClearIsExact(s, ids[0]);
      TailAscends(ids);
      forall id | id in rest ensures id in next.timers {
        assert id in ids;
      }
      ClearEachIsExact(next, rest);
      assert s.timers - Ids(ids) == next.timers - Ids(rest) && s.armed - Ids(ids) == next.armed - Ids(rest);
      assert s.closed + Ids(ids) == next.closed + Ids(rest);
      assert s.log + AllClosed(ids) == next.log + AllClosed(rest);
    }
  }

  lemma NoneToClose(s: State)
    ensures Ids([]) == {} && AllClosed([]) == []
    ensures s == s.(timers := s.timers - Ids([]), armed := s.armed - Ids([]), closed := s.closed + Ids([]),
      log := s.log + AllClosed([]))
  {
  }

  /** Cancelling removes exactly the timers that hold the thread as their coroutine. */
  lemma CancelIsExact(s: State, thread: nat)
    requires Inv(s)
    ensures var t := CancelThread(s, thread);
      && t.heap == s.heap
      && (forall id :: id in t.timers <==> id in s.timers && !Holds(s, thread, id))
      && (forall id :: id in t.closed <==> id in s.closed || Holds(s, thread, id))
      && (forall id :: id in t.armed <==> id in s.armed && !Holds(s, thread, id))
  {
    var ids := TimersOf(s, thread, 0);
    TimersOfIsExact(s, thread, 0);
    ClearEachIsExact(s, ids);
  }

  predicate WouldResume(timer: Timer, thread: nat) {
    timer.target == Coroutine(thread) || timer.target == Callback(Some(thread))
  }

  /** Cancelling leaves no timer that would resume the thread exactly when the thread was never
      scheduled as a plain callback: such timers are not looked at. */
  lemma CancelStopsThreadIff(s: State, thread: nat)
    requires Inv(s)
    ensures (forall id :: id in CancelThread(s, thread).timers && id in s.heap ==>
      !WouldResume(s.heap[id], thread)) <==>
      (forall id :: id in s.timers && id in s.heap ==> s.heap[id].target != Callback(Some(thread)))
  {
    CancelIsExact(s, thread);
  }

  lemma CancelMissesCallback()
    ensures var s := ExecAll(INITIAL, [Schedule(Timer(Callback(Some(7)), false), true)]);
      CancelThread(s, 7) == s && 1 in s.timers && 1 in s.heap && WouldResume(s.heap[1], 7)
  {
    var schedule := Schedule(Timer(Callback(Some(7)), false), true);
    var s := Exec(INITIAL, schedule);
    assert [schedule][1..] == [];
    assert ExecAll(INITIAL, [schedule]) == ExecAll(s, []);
    assert TimersOf(s, 7, 2) == [] && TimersOf(s, 7, 1) == [] && TimersOf(s, 7, 0) == [];
  }

  // ----- freed timers -----

  /** The action runs no close callback of a timer whose own callback is still running. */
  predicate Careful(s: State, a: Action, running: set<nat>)
    decreases a
  {
    match a
    case CloseCallback(id) => id in s.closed ==> id !in running
    case Fire(id, reaction) =>
      id in s.armed && id in s.heap ==> CarefulAll(Begin(s, id), reaction, running + {id})
    case _ => true
  }

  predicate CarefulAll(s: State, actions: seq<Action>, running: set<nat>)
    decreases actions
  {
    actions == [] || (Careful(s, actions[0], running) && CarefulAll(Exec(s, actions[0]), actions[1..], running))
  }

  /** From s to t no freed timer was read, and no running one was freed. */
  ghost predicate Unharmed(s: State, t: State, running: set<nat>) {
    t.stale == s.stale && t.freed !! running
  }

  lemma {:induction false} UnharmedIff(s: State, a: Action, running: set<nat>, pending: set<nat>)
    requires Inv(s) && Pending(s, pending) && s.freed !! running
    ensures Unharmed(s, Exec(s, a), running) <==> Careful(s, a, running)
    decreases a
  {
    match a
    case Schedule(timer, accepted) =>
    case ClearTimeout(id) =>
    case Cancel(thread) => ClearEachFrees(s, TimersOf(s, thread, 0));
    case CloseCallback(id) => assert id in s.closed && id in running ==> id in Exec(s, a).freed;
    case Fire(id, reaction) =>
      if id in s.armed && id in s.heap {
        FireUnharmedIff(s, id, reaction, running, pending);
      }
  }

  lemma {:induction false} ClearEachFrees(s: State, ids: seq<nat>)
    ensures ClearEach(s, ids).freed == s.freed && ClearEach(s, ids).stale == s.stale
    decreases |ids|
  {
    if ids != [] {
      ClearEachFrees(Clear(s, ids[0]), ids[1..]);
    }
  }

  lemma {:induction false} FireUnharmedIff(s: State, id: nat, reaction: seq<Action>, running: set<nat>,
                                           pending: set<nat>)
    requires Inv(s) && Pending(s, pending) && s.freed !! running && id in s.armed && id in s.heap
    ensures Unharmed(s, Exec(s, Fire(id, reaction)), running) <==> Careful(s, Fire(id, reaction), running)
    decreases reaction, 1
  {
    var started := Begin(s, id);
    var during := if s.heap[id].recurring then pending else pending + {id};
    assert id !in s.freed;
    BeginKeeps(s, id, pending);
    UnharmedAllIff(started, reaction, running + {id}, during);
    ExecAllKeeps(started, reaction, during);
    var after := ExecAll(started, reaction);
    assert id in after.heap && after.stale <= after.freed && s.stale <= after.stale;
    hide Inv, Pending, Later, ExecAll, CarefulAll, Begin;
    var t := Finish(after, id);
    assert t.freed == after.freed && t.stale == if id in after.freed then after.stale + {id} else after.stale;
  }

  lemma {:induction false} UnharmedAllIff(s: State, actions: seq<Action>, running: set<nat>, pending: set<nat>)
    requires Inv(s) && Pending(s, pending) && s.freed !! running
    ensures Unharmed(s, ExecAll(s, actions), running) <==> CarefulAll(s, actions, running)
    decreases actions, 0
  {
    hide Inv, Pending, Careful;
    if actions != [] {
      var next := Exec(s, actions[0]);
      UnharmedIff(s, actions[0], running, pending);
      ExecKeeps(s, actions[0], pending);
      ExecAllKeeps(next, actions[1..], pending);
      hide Exec;
      if next.freed !! running {
        UnharmedAllIff(next, actions[1..], running, pending);
      }
    }
  }

  /** No timer is read after it was freed exactly when no close callback runs for a timer whose own
      callback is still running. */
  lemma FreedReadIff(actions: seq<Action>)
    ensures ExecAll(INITIAL, actions).stale == {} <==> CarefulAll(INITIAL, actions, {})
  {
    UnharmedAllIff(INITIAL, actions, {}, {});
  }

  /** The action runs no close callback, however deep. */
  predicate LoopFree(a: Action) {
    match a
    case CloseCallback(_) => false
    case Fire(_, reaction) => forall i :: 0 <= i < |reaction| ==> LoopFree(reaction[i])
    case _ => true
  }

  predicate LoopFreeCallback(a: Action) {
    a.Fire? ==> LoopFree(a)
  }

  lemma {:induction false} LoopFreeIsCareful(s: State, a: Action, running: set<nat>)
    requires LoopFree(a) || (running == {} && LoopFreeCallback(a))
    ensures Careful(s, a, running)
    decreases a
  {
    if a.Fire? && a.id in s.armed && a.id in s.heap {
      LoopFreeAllCareful(Begin(s, a.id), a.reaction, running + {a.id});
    }
  }

  lemma {:induction false} LoopFreeAllCareful(s: State, actions: seq<Action>, running: set<nat>)
    requires (forall i :: 0 <= i < |actions| ==> LoopFree(actions[i])) ||
      (running == {} && forall i :: 0 <= i < |actions| ==> LoopFreeCallback(actions[i]))
    ensures CarefulAll(s, actions, running)
    decreases actions
  {
    if actions != [] {
      LoopFreeIsCareful(s, actions[0], running);
      LoopFreeAllCareful(Exec(s, actions[0]), actions[1..], running);
    }
  }

  /** As long as callbacks do not run the loop themselves, no freed timer is ever read. */
  lemma LoopFreeCallbacksAreSafe(actions: seq<Action>)
    requires forall i :: 0 <= i < |actions| ==> LoopFreeCallback(actions[i])
    ensures ExecAll(INITIAL, actions).stale == {}
  {
    LoopFreeAllCareful(INITIAL, actions, {});
    FreedReadIff(actions);
  }

  /** A callback that clears its own timer and then lets the loop run close callbacks. */
  lemma ClearedAndReaped()
    ensures var run := [Schedule(Timer(Callback(None), false), true), Fire(1, [ClearTimeout(1), CloseCallback(1)])];
      ExecAll(INITIAL, run).stale == {1}
  {
  }

  // ----- shutdown -----

  /** The table by ascending id. */
  function Table(s: State, from: nat): (ids: seq<nat>)
    decreases s.nextTimerId - from
  {
    if from >= s.nextTimerId then [] else (if from in s.timers then [from] else []) + Table(s, from + 1)
  }

  function CloseAll(s: State): (t: State) {
    ClearEach(s, Table(s, 0))
  }

  lemma {:induction false} TableIsExact(s: State, from: nat)
    requires Consistent(s)
    ensures forall id :: id in Table(s, from) <==> from <= id && id in s.timers
    ensures Ascending(Table(s, from))
    decreases s.nextTimerId - from
  {
    if from < s.nextTimerId {
      TableIsExact(s, from + 1);
      var rest := Table(s, from + 1);
      forall j | 0 <= j < |rest| ensures from < rest[j] {
        assert rest[j] in rest;
      }
    }
  }

  ghost function Closings(log: seq<Event>, id: nat): (r: nat) {
    multiset(log)[Closed(id)]
  }

  lemma {:induction false} CountOnce(s: State, log: seq<Event>, id: nat)
    requires forall i, j :: 0 <= i < j < |log| ==> MayFollow(s, log[i], log[j])
    requires id in s.heap
    ensures Closings(log, id) == if Closed(id) in log then 1 else 0
    decreases |log|
  {
    if log != [] {
      var init, last := log[..|log| - 1], log[|log| - 1];
      assert log == init + [last];
      CountOnce(s, init, id);
      if Closed(id) in init {
        var i :| 0 <= i < |init| && init[i] == Closed(id);
        assert MayFollow(s, log[i], log[|log| - 1]);
      }
    }
  }

  /** Every pending close callback runs. */
  function ReapAll(s: State): (t: State) {
    s.(freed := s.closed)
  }

  /** The timers are closed, the shutdown hooks run, and the loop runs once more: what it fires, and
      then all close callbacks. */
  function ShutDown(s: State, hooks: seq<Action>, last: seq<Action>): (t: State) {
    ReapAll(ExecAll(ExecAll(CloseAll(s), hooks), last))
  }

  lemma CloseAllKeeps(s: State)
    requires Inv(s) && Pending(s, {})
    ensures var c := CloseAll(s); Inv(c) && Pending(c, {}) && Later(s, c) && c.timers == {}
  {
    TableIsExact(s, 0);
    ClearEachKeeps(s, Table(s, 0), {});
    ClearEachIsExact(s, Table(s, 0));
  }

  lemma ReapAllKeeps(s: State)
    requires Inv(s) && Pending(s, {})
    ensures var t := ReapAll(s); Inv(t) && Pending(t, {}) && Later(s, t)
  {
    NotLogged(s, ReapAll(s));
  }

  lemma ShutDownKeeps(s: State, hooks: seq<Action>, last: seq<Action>)
    requires Inv(s) && Pending(s, {})
    ensures var t := ShutDown(s, hooks, last); Inv(t) && Pending(t, {}) && Later(CloseAll(s), t)
  {
    hide Inv, Pending, Later, ExecAll, CloseAll, ReapAll;
    var c := CloseAll(s);
    var h := ExecAll(c, hooks);
    var l := ExecAll(h, last);
    CloseAllKeeps(s);
    ExecAllKeeps(c, hooks, {});
    ExecAllKeeps(h, last, {});
    ReapAllKeeps(l);
    LaterTransitive(c, h, l);
    LaterTransitive(c, l, ReapAll(l));
  }

  /** Shutting down after any run, whatever the hooks and the last run of the loop do: every timer set
      up before is out of the table, disarmed, closed exactly once and freed, and none of them starts
      again. What is left in the table are the open timers that were set up meanwhile; without these,
      nothing is left and every timer ever set up is freed. */
  lemma ShutdownClosesAll(actions: seq<Action>, hooks: seq<Action>, last: seq<Action>)
    ensures var s := ExecAll(INITIAL, actions);
      var t := ShutDown(s, hooks, last);
      && s.heap.Keys <= t.freed && s.heap.Keys !! t.timers && s.heap.Keys !! t.armed
      && (forall id :: id in s.heap ==> Closings(t.log, id) == 1)
      && |s.log| <= |t.log|
      && (forall id, k :: id in s.heap && |s.log| <= k < |t.log| ==> t.log[k] != Started(id))
      && t.timers == t.armed && t.heap.Keys == t.timers + t.freed && t.timers !! t.freed
      && (t.heap.Keys == s.heap.Keys ==> t.timers == {} && t.freed == t.heap.Keys)
  {
    hide Inv, Pending, Later, ExecAll, CloseAll;
    InitialIsValid();
    ExecAllKeeps(INITIAL, actions, {});
    var s := ExecAll(INITIAL, actions);
    CloseAllKeeps(s);
    CloseAllStartsNothing(s);
    ShutDownKeeps(s, hooks, last);
    ClosedBefore(s, CloseAll(s), ShutDown(s, hooks, last));
  }

  lemma InitialIsValid()
    ensures Inv(INITIAL) && Pending(INITIAL, {})
  {
  }

  /** What became of the timers of s, when they are closed in c and everything closed is freed in t. */
  lemma ClosedBefore(s: State, c: State, t: State)
    requires Later(s, c) && c.timers == {} && Inv(c) && Later(c, t) && Inv(t) && Pending(t, {}) && t.freed == t.closed
    requires forall k :: |s.log| <= k < |c.log| ==> c.log[k].Closed?
    ensures s.heap.Keys <= t.freed && s.heap.Keys !! t.timers && s.heap.Keys !! t.armed
    ensures forall id :: id in s.heap ==> Closings(t.log, id) == 1
    ensures |s.log| <= |t.log|
    ensures forall id, k :: id in s.heap && |s.log| <= k < |t.log| ==> t.log[k] != Started(id)
    ensures t.timers == t.armed && t.heap.Keys == t.timers + t.freed && t.timers !! t.freed
    ensures t.heap.Keys == s.heap.Keys ==> t.timers == {} && t.freed == t.heap.Keys
  {
    hide Orderly;
    forall id | id in s.heap ensures id in t.closed && id !in t.timers && id !in t.armed {
      assert id in c.heap && id !in c.timers && id in c.closed;
    }
    forall id | id in s.heap ensures Closings(t.log, id) == 1 {
      ClosedOnce(t, id);
    }
    forall id, k | id in s.heap && |s.log| <= k < |t.log| ensures t.log[k] != Started(id) {
      assert id in c.heap && id !in c.armed;
      assert k < |c.log| ==> t.log[k] == c.log[k];
    }
  }

  lemma ClosedOnce(t: State, id: nat)
    requires Orderly(t) && id in t.closed && id in t.heap
    ensures Closings(t.log, id) == 1
  {
    CountOnce(t, t.log, id);
  }

  lemma CloseAllStartsNothing(s: State)
    ensures var c := CloseAll(s);
      s.log <= c.log && forall k :: |s.log| <= k < |c.log| ==> c.log[k].Closed?
  {
    hide Table;
    ClearEachStartsNothing(s, Table(s, 0));
  }

  lemma {:induction false} ClearEachStartsNothing(s: State, ids: seq<nat>)
    ensures var c := ClearEach(s, ids);
      s.log <= c.log && forall k :: |s.log| <= k < |c.log| ==> c.log[k].Closed?
    decreases |ids|
  {
    if ids != [] {
      var next := Clear(s, ids[0]);
      ClearEachStartsNothing(next, ids[1..]);
      var c := ClearEach(next, ids[1..]);
      forall k | |s.log| <= k < |c.log| ensures c.log[k].Closed? {
        if k < |next.log| {
          assert c.log[k] == next.log[k];
        }
      }
    }
  }

  // ----- the context as it runs -----

  /** Every method moves the fields exactly as the operation above says. */
  class TaskContext {
    var nextTimerId: nat
    var timers: set<nat>
    var heap: map<nat, Timer>
    var armed: set<nat>
    var closed: set<nat>
    var freed: set<nat>
    var stale: set<nat>
    var log: seq<Event>

    ghost function View(): (s: State)
      reads this
    {
      State(nextTimerId, timers, heap, armed, closed, freed, stale, log)
    }

    constructor ()
      ensures View() == INITIAL && Inv(View()) && Pending(View(), {})
    {
      nextTimerId, timers, heap, armed, closed, freed, stale, log := 1, {}, map[], {}, {}, {}, {}, [];
    }

    method SafeDestroyTimer(id: nat)
      modifies this
      ensures View() == Destroy(old(View()), id)
    {
      if id !in closed {
        armed := armed - {id};
        closed := closed + {id};
        log := log + [Closed(id)];
      }
    }

    method RunCloseCallback(id: nat)
      modifies this`freed
      ensures View() == Reap(old(View()), id)
    {
      if id in closed {
        freed := freed + {id};
      }
    }

    method Schedule(timer: Timer, accepted: bool) returns (id: nat)
      modifies this
      ensures View() == StartTimer(old(View()), timer, accepted) && id == old(nextTimerId)
    {
      id := nextTimerId;
      nextTimerId := nextTimerId + 1;
      heap := heap[id := timer];
      timers := timers + {id};
      if !accepted {
        timers := timers - {id};
        SafeDestroyTimer(id);
        return;
      }
      armed := armed + {id};
    }

    method ClearTimeout(id: nat)
      modifies this
      ensures View() == Clear(old(View()), id)
    {
      if id in timers {
        armed := armed - {id};
        timers := timers - {id};
        SafeDestroyTimer(id);
      }
    }

    method ClearAll(ids: seq<nat>)
      modifies this
      ensures View() == ClearEach(old(View()), ids)
    {
      ghost var start := View();
      for i := 0 to |ids|
        invariant ClearEach(View(), ids[i..]) == ClearEach(start, ids)
      {
        assert ids[i..][1..] == ids[i + 1..];
        ClearTimeout(ids[i]);
      }
    }

    /** The ids to clear are collected first: clearing changes the table that is walked. */
    method CollectTimers(thread: nat) returns (timerIds: seq<nat>)
      ensures timerIds == TimersOf(View(), thread, 0)
    {
      timerIds := [];
      for id := 0 to nextTimerId
        invariant timerIds + TimersOf(View(), thread, id) == TimersOf(View(), thread, 0)
      {
        if id in timers && id in heap && heap[id].target == Coroutine(thread) {
          timerIds := timerIds + [id];
        }
      }
    }

    method Cancel(thread: nat)
      requires Inv(View())
      modifies this
      ensures View() == CancelThread(old(View()), thread) && Inv(View())
    {
      hide Inv, Pending, Later, TimersOf, ClearEach;
      ghost var s := View();
      var timerIds := CollectTimers(thread);
      PendingSomehow(s);
      ClearEachKeeps(s, timerIds, s.timers);
      ClearAll(timerIds);
    }

    /** The callback of a timer, with the actions it performs. */
    method OnTimerFired(id: nat, reaction: seq<Action>)
      requires Inv(View()) && id in armed && id in heap
      modifies this
      ensures View() == Exec(old(View()), Fire(id, reaction)) && Inv(View())
      decreases reaction, 1
    {
      hide Inv;
      ghost var s := View();
      PendingSomehow(s);
      FireKeeps(s, id, reaction, s.timers);
      BeginKeeps(s, id, s.timers);
      if !heap[id].recurring {
        armed := armed - {id};
      }
      log := log + [Started(id)];
      assert View() == Begin(s, id);
      StaysKnown(Begin(s, id), reaction, id);
      RunAll(reaction);
      if id in freed {
        stale := stale + {id};
      }
      if !heap[id].recurring {
        armed := armed - {id};
        timers := timers - {id};
        SafeDestroyTimer(id);
      }
    }

    method Run(a: Action)
      requires Inv(View())
      modifies this
      ensures View() == Exec(old(View()), a) && Inv(View())
      decreases a, 2
    {
      hide Inv;
      ghost var s := View();
      PendingSomehow(s);
      ExecKeeps(s, a, s.timers);
      match a
      case Schedule(timer, accepted) => var _ := Schedule(timer, accepted);
      case ClearTimeout(id) => ClearTimeout(id);
      case Cancel(thread) => Cancel(thread);
      case CloseCallback(id) => RunCloseCallback(id);
      case Fire(id, reaction) =>
        if id in armed && id in heap {
          OnTimerFired(id, reaction);
        }
    }

    method RunAll(actions: seq<Action>)
      requires Inv(View())
      modifies this
      ensures View() == ExecAll(old(View()), actions) && Inv(View())
      decreases actions, 0
    {
      hide Inv;
      if actions != [] {
        Run(actions[0]);
        RunAll(actions[1..]);
      }
    }

    method CloseTimers()
      requires Inv(View())
      modifies this
      ensures View() == CloseAll(old(View()))
    {
      ghost var s := View();
      var ids: seq<nat> := [];
      for id := 0 to nextTimerId
        invariant View() == s && ids + Table(s, id) == Table(s, 0)
      {
        if id in timers {
          ids := ids + [id];
        }
      }
      assert ids == Table(s, 0);
      ClearAll(ids);
    }

    method Shutdown(hooks: seq<Action>, last: seq<Action>)
      requires Inv(View()) && Pending(View(), {})
      modifies this
      ensures View() == ShutDown(old(View()), hooks, last) && Inv(View()) && Pending(View(), {})
    {
      hide Inv, Pending, Later, CloseAll;
      ghost var s := View();
      ShutDownKeeps(s, hooks, last);
      CloseAllKeeps(s);
      CloseTimers();
      RunAll(hooks);
      RunAll(last);
      freed := closed;
    }
  }

  lemma PendingSomehow(s: State)
    ensures Pending(s, s.timers)
  {
  }

  lemma StaysKnown(s: State, actions: seq<Action>, id: nat)
    requires Inv(s) && id in s.heap
    ensures var t := ExecAll(s, actions); id in t.heap && t.heap[id] == s.heap[id]
  {
    ExecAllKeeps(s, actions, s.timers);
  }
}
