/** The post queue and the close hooks of the event loop, as a machine whose steps are the sections
    that the threads execute atomically. Producers may post between any two steps; posted work and
    hooks may run the loop again, so drains nest. */
module EventLoop {

  /** Work and hooks are numbered in the order in which they are handed over. */
  type Item = nat

  datatype Phase = Running | Closing | Closed

  /** drains holds, innermost last, the work each active drain has taken and not started yet.
      hooksLeft is what Close has taken from the hook list and not run yet. */
  datatype State = State(
    phase: Phase,
    accepted: nat,
    posted: seq<Item>,
    drains: seq<seq<Item>>,
    executed: seq<Item>,
    discarded: seq<Item>,
    added: nat,
    hooks: seq<Item>,
    hooksLeft: seq<Item>,
    hooksRun: seq<Item>)

  const INITIAL := State(Running, 0, [], [], [], [], 0, [], [], [])

  datatype Step =
    | Post
    | StartDrain
    | RunWork
    | EndDrain
    | AddCloseHook
    | PublishClosing
    | RunHook
    | TearDown

  predicate Draining(s: State) {
    s.drains != []
  }

  function Inner(s: State): (work: seq<Item>)
    requires Draining(s)
  {
    s.drains[|s.drains| - 1]
  }

  /** One atomic step; a step that is not possible changes nothing. */
  function Next(s: State, step: Step): (t: State) {
    match step
    case Post =>
      if !s.phase.Running? then s
      else s.(accepted := s.accepted + 1, posted := s.posted + [s.accepted])
    case StartDrain =>
      if s.phase.Closed? then s
      else s.(drains := s.drains + [s.posted], posted := [])
    case RunWork =>
      if !Draining(s) || Inner(s) == [] then s
      else
        s.(drains := s.drains[|s.drains| - 1 := Inner(s)[1..]], executed := s.executed + [Inner(s)[0]])
    case EndDrain =>
      if !Draining(s) || Inner(s) != [] then s
      else s.(drains := s.drains[..|s.drains| - 1])
    case AddCloseHook =>
      if s.phase.Running? then s.(added := s.added + 1, hooks := s.hooks + [s.added])
      else s.(added := s.added + 1, hooksRun := s.hooksRun + [s.added])
    case PublishClosing =>
      if !s.phase.Running? then s
      else s.(phase := Closing, discarded := s.discarded + s.posted, posted := [], hooksLeft := s.hooks, hooks := [])
    case RunHook =>
      if !s.phase.Closing? || s.hooksLeft == [] then s
      else s.(hooksLeft := s.hooksLeft[1..], hooksRun := s.hooksRun + [s.hooksLeft[0]])
    case TearDown =>
      if !s.phase.Closing? || s.hooksLeft != [] then s
      else s.(phase := Closed)
  }

  function Run(s: State, steps: seq<Step>): (t: State)
    decreases |steps|
  {
    if steps == [] then s else Run(Next(s, steps[0]), steps[1..])
  }

  // ----- conservation -----

  function UpTo(n: nat): (r: seq<Item>)
    ensures |r| == n && forall i :: 0 <= i < n ==> r[i] == i
  {
    if n == 0 then [] else UpTo(n - 1) + [n - 1]
  }

  function InFlight(drains: seq<seq<Item>>): (r: seq<Item>) {
    if drains == [] then [] else InFlight(drains[..|drains| - 1]) + drains[|drains| - 1]
  }

  /** Everything in these places, with multiplicity. */
  ghost function Tally(a: seq<Item>, b: seq<Item>, c: seq<Item>, d: seq<Item>): (r: multiset<Item>) {
    multiset(a) + multiset(b) + multiset(c) + multiset(d)
  }

  /** Every accepted item is in exactly one place, once. */
  ghost predicate Conserved(s: State) {
    multiset(UpTo(s.accepted)) == Tally(s.executed, InFlight(s.drains), s.posted, s.discarded)
  }

  ghost predicate HooksConserved(s: State) {
    multiset(UpTo(s.added)) == Tally(s.hooksRun, s.hooks, s.hooksLeft, [])
  }

  ghost predicate Quiet(s: State) {
    && (!s.phase.Running? ==> s.posted == [] && s.hooks == [])
    && (!s.phase.Closing? ==> s.hooksLeft == [])
    && (s.phase.Running? ==> s.discarded == [])
  }

  ghost predicate Inv(s: State) {
    Conserved(s) && HooksConserved(s) && Quiet(s)
  }

  lemma InnerReplaced(drains: seq<seq<Item>>, work: seq<Item>)
    requires drains != []
    ensures var outer := InFlight(drains[..|drains| - 1]);
      && InFlight(drains) == outer + drains[|drains| - 1]
      && InFlight(drains[|drains| - 1 := work]) == outer + work
  {
    assert drains[|drains| - 1 := work][..|drains| - 1] == drains[..|drains| - 1];
  }

  lemma OneMore(drains: seq<seq<Item>>, work: seq<Item>)
    ensures InFlight(drains + [work]) == InFlight(drains) + work
  {
    assert (drains + [work])[..|drains|] == drains;
  }

  lemma TallyAdds(a: seq<Item>, b: seq<Item>, c: seq<Item>, d: seq<Item>, x: Item)
    ensures Tally(a, b, c + [x], d) == Tally(a, b, c, d) + multiset{x}
    ensures Tally(a, b + [x], c, d) == Tally(a, b, c, d) + multiset{x}
    ensures Tally(a + [x], b, c, d) == Tally(a, b, c, d) + multiset{x}
  {
  }

  lemma TallyMoves(a: seq<Item>, b: seq<Item>, c: seq<Item>, d: seq<Item>)
    ensures Tally(a, b + c, [], d) == Tally(a, b, c, d)
    ensures Tally(a, b, [], d + c) == Tally(a, b, c, d)
    ensures Tally(a, [], b, d) == Tally(a, b, [], d)
  {
    assert multiset(b + c) == multiset(b) + multiset(c);
    assert multiset(d + c) == multiset(d) + multiset(c);
  }

  lemma TallyStarts(a: seq<Item>, b: seq<Item>, x: Item, w: seq<Item>, c: seq<Item>, d: seq<Item>)
    ensures Tally(a + [x], b + w, c, d) == Tally(a, b + ([x] + w), c, d)
    ensures Tally(a + [x], c, w, d) == Tally(a, c, [x] + w, d)
  {
    assert multiset(b + w) == multiset(b) + multiset(w);
    assert multiset(b + ([x] + w)) == multiset(b) + multiset(w) + multiset{x};
  }

  lemma UpToGrows(n: nat)
    ensures multiset(UpTo(n + 1)) == multiset(UpTo(n)) + multiset{n}
  {
    assert UpTo(n + 1) == UpTo(n) + [n];
  }

  lemma PostKeeps(s: State)
    requires Inv(s)
    ensures Inv(Next(s, Post))
  {
    hide Tally, UpTo, InFlight;
    UpToGrows(s.accepted);
    TallyAdds(s.executed, InFlight(s.drains), s.posted, s.discarded, s.accepted);
  }

  lemma StartDrainKeeps(s: State)
    requires Inv(s)
    ensures Inv(Next(s, StartDrain))
  {
    hide Tally, UpTo, InFlight;
    OneMore(s.drains, s.posted);
    TallyMoves(s.executed, InFlight(s.drains), s.posted, s.discarded);
  }

  lemma RunWorkKeeps(s: State)
    requires Inv(s)
    ensures Inv(Next(s, RunWork)) && Inv(Next(s, EndDrain))
  {
    hide Tally, UpTo, InFlight;
    if Draining(s) {
      var inner, outer := Inner(s), InFlight(s.drains[..|s.drains| - 1]);
      if inner != [] {
        InnerReplaced(s.drains, inner[1..]);
        assert inner == [inner[0]] + inner[1..];
        TallyStarts(s.executed, outer, inner[0], inner[1..], s.posted, s.discarded);
      } else {
        InnerReplaced(s.drains, []);
        assert outer + [] == outer;
      }
    }
  }

  lemma AddCloseHookKeeps(s: State)
    requires Inv(s)
    ensures Inv(Next(s, AddCloseHook))
  {
    hide Tally, UpTo, InFlight;
    UpToGrows(s.added);
    TallyAdds(s.hooksRun, s.hooks, s.hooksLeft, [], s.added);
  }

  lemma PublishClosingKeeps(s: State)
    requires Inv(s)
    ensures Inv(Next(s, PublishClosing))
  {
    hide Tally, UpTo, InFlight;
    TallyMoves(s.executed, InFlight(s.drains), s.posted, s.discarded);
    TallyMoves(s.hooksRun, s.hooks, [], []);
    assert s.phase.Running? ==> s.hooksLeft == [];
  }

  lemma RunHookKeeps(s: State)
    requires Inv(s)
    ensures Inv(Next(s, RunHook)) && Inv(Next(s, TearDown))
  {
    hide Tally, UpTo, InFlight;
    if s.hooksLeft != [] {
      assert s.hooksLeft == [s.hooksLeft[0]] + s.hooksLeft[1..];
      TallyStarts(s.hooksRun, [], s.hooksLeft[0], s.hooksLeft[1..], s.hooks, []);
    }
  }

  /** Every step keeps the invariant. */
  lemma StepKeeps(s: State, step: Step)
    requires Inv(s)
    ensures Inv(Next(s, step))
  {
    hide Inv, Next;
    match step
    case Post => PostKeeps(s);
    case StartDrain => StartDrainKeeps(s);
    case RunWork => RunWorkKeeps(s);
    case EndDrain => RunWorkKeeps(s);
    case AddCloseHook => AddCloseHookKeeps(s);
    case PublishClosing => PublishClosingKeeps(s);
    case RunHook => RunHookKeeps(s);
    case TearDown => RunHookKeeps(s);
  }

  lemma {:induction false} RunKeeps(s: State, steps: seq<Step>)
    requires Inv(s)
    ensures Inv(Run(s, steps))
    decreases |steps|
  {
    hide Inv, Next;
    if steps != [] {
      StepKeeps(s, steps[0]);
      RunKeeps(Next(s, steps[0]), steps[1..]);
    }
  }

  lemma {:induction false} CountUpTo(n: nat, item: Item)
    ensures multiset(UpTo(n))[item] == if item < n then 1 else 0
  {
    UpToStarts();
    hide UpTo;
    if n > 0 {
      CountUpTo(n - 1, item);
      UpToGrows(n - 1);
    }
  }

  lemma UpToStarts()
    ensures UpTo(0) == []
  {
  }

  lemma TallyAt(a: seq<Item>, b: seq<Item>, c: seq<Item>, d: seq<Item>, item: Item)
    ensures Tally(a, b, c, d)[item] == multiset(a)[item] + multiset(b)[item] + multiset(c)[item] + multiset(d)[item]
  {
  }

  /** In every interleaving each accepted item is executed, in flight, queued or discarded, and in
      one of these ways only; nothing else ever runs. */
  lemma WorkIsConserved(steps: seq<Step>, item: Item)
    ensures var t := Run(INITIAL, steps);
      multiset(t.executed)[item] + multiset(InFlight(t.drains))[item] + multiset(t.posted)[item] +
        multiset(t.discarded)[item]
        == if item < t.accepted then 1 else 0
  {
    hide Run, UpTo, InFlight, Tally;
    var t := Run(INITIAL, steps);
    StartIsFine();
    RunKeeps(INITIAL, steps);
    CountUpTo(t.accepted, item);
    TallyAt(t.executed, InFlight(t.drains), t.posted, t.discarded, item);
  }

  lemma StartIsFine()
    ensures Inv(INITIAL)
  {
  }

  /** After closing has been published nothing is accepted and nothing is discarded any more. */
  lemma {:induction false} NothingAfterClosing(s: State, steps: seq<Step>)
    requires !s.phase.Running? && s.posted == []
    ensures var t := Run(s, steps);
      !t.phase.Running? && t.accepted == s.accepted && t.posted == [] && t.discarded == s.discarded
    decreases |steps|
  {
    if steps != [] {
      ClosingStep(s, steps[0]);
      hide Next;
      NothingAfterClosing(Next(s, steps[0]), steps[1..]);
    }
  }

  lemma ClosingStep(s: State, step: Step)
    requires !s.phase.Running? && s.posted == []
    ensures var t := Next(s, step);
      !t.phase.Running? && t.accepted == s.accepted && t.posted == [] && t.discarded == s.discarded
  {
  }

  /** When the loop is closed every hook ever added, before or during closing, has run exactly once. */
  lemma HooksRunOnce(steps: seq<Step>, hook: Item)
    ensures var t := Run(INITIAL, steps);
      && multiset(t.hooksRun)[hook] <= 1
      && (t.phase.Closed? ==> multiset(t.hooksRun)[hook] == if hook < t.added then 1 else 0)
  {
    hide Run, UpTo, InFlight, Tally;
    var t := Run(INITIAL, steps);
    StartIsFine();
    RunKeeps(INITIAL, steps);
    CountUpTo(t.added, hook);
    TallyAt(t.hooksRun, t.hooks, t.hooksLeft, [], hook);
  }

  // ----- order -----

  /** The items executed so far are those accepted first, in the order of acceptance. */
  predicate Fifo(s: State) {
    forall i :: 0 <= i < |s.executed| ==> s.executed[i] == i
  }

  /** The places lie in the order of acceptance, from the executed work to the discarded. */
  ghost predicate InOrder(s: State) {
    s.executed + InFlight(s.drains) + s.posted + s.discarded == UpTo(s.accepted)
  }

  /** The step starts no work while an outer drain has older work left. */
  predicate OlderFirst(s: State, step: Step) {
    step.RunWork? && Draining(s) && Inner(s) != [] ==> InFlight(s.drains[..|s.drains| - 1]) == []
  }

  /** No step of the run overtakes older work. */
  predicate NeverOvertakes(s: State, steps: seq<Step>)
    decreases |steps|
  {
    steps == [] || (OlderFirst(s, steps[0]) && NeverOvertakes(Next(s, steps[0]), steps[1..]))
  }

  lemma OrderPosts(s: State)
    requires InOrder(s) && Quiet(s)
    ensures InOrder(Next(s, Post)) && InOrder(Next(s, PublishClosing))
  {
    hide InFlight;
    if s.phase.Running? {
      assert UpTo(s.accepted + 1) == UpTo(s.accepted) + [s.accepted];
      hide UpTo;
      assert s.executed + InFlight(s.drains) + (s.posted + [s.accepted]) + []
        == s.executed + InFlight(s.drains) + s.posted + [] + [s.accepted];
      assert s.executed + InFlight(s.drains) + [] + ([] + s.posted)
        == s.executed + InFlight(s.drains) + s.posted + [];
    }
  }

  /** Taking the queue keeps the order however deep drains nest. */
  lemma OrderStarts(s: State)
    requires InOrder(s)
    ensures InOrder(Next(s, StartDrain))
  {
    OneMore(s.drains, s.posted);
    hide InFlight, UpTo;
    assert s.executed + (InFlight(s.drains) + s.posted) + [] + s.discarded
      == s.executed + InFlight(s.drains) + s.posted + s.discarded;
  }

  lemma OrderEnds(s: State)
    requires InOrder(s)
    ensures InOrder(Next(s, EndDrain))
  {
    hide UpTo;
    if Draining(s) && Inner(s) == [] {
      InnerReplaced(s.drains, []);
      hide InFlight;
    }
  }

  lemma OrderRuns(s: State)
    requires InOrder(s) && OlderFirst(s, RunWork)
    ensures InOrder(Next(s, RunWork))
  {
    hide UpTo;
    if Draining(s) && Inner(s) != [] {
      var inner := Inner(s);
      InnerReplaced(s.drains, inner[1..]);
      hide InFlight;
      assert [] + inner == [inner[0]] + ([] + inner[1..]);
      assert s.executed + ([] + inner) == s.executed + [inner[0]] + ([] + inner[1..]);
    }
  }

  lemma OrderStep(s: State, step: Step)
    requires InOrder(s) && Quiet(s) && OlderFirst(s, step)
    ensures InOrder(Next(s, step))
  {
    hide InFlight, UpTo;
    match step
    case Post => OrderPosts(s);
    case StartDrain => OrderStarts(s);
    case RunWork => OrderRuns(s);
    case EndDrain => OrderEnds(s);
    case AddCloseHook =>
    case PublishClosing => OrderPosts(s);
    case RunHook =>
    case TearDown =>
  }

  /** Overtaking executes an item in the place of an older one. */
  lemma OvertakingBreaks(s: State, step: Step)
    requires InOrder(s) && !OlderFirst(s, step)
    ensures !Fifo(Next(s, step))
  {
    var inner, outer := Inner(s), InFlight(s.drains[..|s.drains| - 1]);
    InnerReplaced(s.drains, inner[1..]);
    var n := |s.executed|;
    var all := s.executed + (outer + inner) + s.posted + s.discarded;
    assert all == UpTo(s.accepted);
    assert all[n + |outer|] == inner[0];
    var t := Next(s, step);
    assert t.executed[n] == inner[0] == n + |outer|;
  }

  /** What was executed stays, and so does a break in its order. */
  lemma BrokenStays(s: State, step: Step)
    requires !Fifo(s)
    ensures !Fifo(Next(s, step))
  {
    var i :| 0 <= i < |s.executed| && s.executed[i] != i;
    assert Next(s, step).executed[i] == s.executed[i];
  }

  lemma {:induction false} BrokenForGood(s: State, steps: seq<Step>)
    requires !Fifo(s)
    ensures !Fifo(Run(s, steps))
    decreases |steps|
  {
    hide Next, Fifo;
    if steps != [] {
      BrokenStays(s, steps[0]);
      BrokenForGood(Next(s, steps[0]), steps[1..]);
    }
  }

  lemma OrderIsFifo(s: State)
    requires InOrder(s)
    ensures Fifo(s)
  {
    hide InFlight;
    forall i | 0 <= i < |s.executed| ensures s.executed[i] == i {
      assert (s.executed + InFlight(s.drains) + s.posted + s.discarded)[i] == s.executed[i];
    }
  }

  lemma {:induction false} FifoFromOrder(s: State, steps: seq<Step>)
    requires Inv(s) && InOrder(s)
    ensures Fifo(Run(s, steps)) <==> NeverOvertakes(s, steps)
    decreases |steps|
  {
    hide Next, InFlight, InOrder, Fifo, OlderFirst, Conserved, HooksConserved, Quiet;
    OrderIsFifo(s);
    if steps != [] {
      var t := Next(s, steps[0]);
      if OlderFirst(s, steps[0]) {
        OrderStep(s, steps[0]);
        StepKeeps(s, steps[0]);
        FifoFromOrder(t, steps[1..]);
      } else {
        OvertakingBreaks(s, steps[0]);
        BrokenForGood(t, steps[1..]);
      }
    }
  }

  /** Work is executed in the order in which it was accepted exactly when no work is ever started
      while an outer drain has older work left. */
  lemma FifoIff(steps: seq<Step>)
    ensures Fifo(Run(INITIAL, steps)) <==> NeverOvertakes(INITIAL, steps)
  {
    StartIsFine();
    FifoFromOrder(INITIAL, steps);
  }

  /** A nested drain lets newer work overtake. */
  lemma NestedOvertakes()
    ensures var t := Run(INITIAL, [Post, Post, StartDrain, RunWork, Post, StartDrain, RunWork]);
      t.executed == [0, 2] && !Fifo(t)
  {
    var a := INITIAL.(accepted := 2, posted := [0, 1]);
    var b := a.(posted := [], drains := [[0, 1]]);
    var c := b.(drains := [[1]], executed := [0]);
    var d := c.(accepted := 3, posted := [2]);
    var e := d.(posted := [], drains := [[1], [2]]);
    var f := e.(drains := [[1], []], executed := [0, 2]);
    assert Next(Next(INITIAL, Post), Post) == a && Next(a, StartDrain) == b;
    assert [0, 1][1..] == [1] && [2][1..] == [];
    assert Next(b, RunWork) == c && Next(c, Post) == d && Next(d, StartDrain) == e && Next(e, RunWork) == f;
    assert f.executed[1] == 2;
    hide Next;
    RunOne(f, RunWork, []);
    RunOne(e, RunWork, []);
    RunOne(d, StartDrain, [RunWork]);
    RunOne(c, Post, [StartDrain, RunWork]);
    RunOne(b, RunWork, [Post, StartDrain, RunWork]);
    RunOne(a, StartDrain, [RunWork, Post, StartDrain, RunWork]);
    RunOne(Next(INITIAL, Post), Post, [StartDrain, RunWork, Post, StartDrain, RunWork]);
    RunOne(INITIAL, Post, [Post, StartDrain, RunWork, Post, StartDrain, RunWork]);
    hide Run;
    assert [Post] + [Post, StartDrain, RunWork, Post, StartDrain, RunWork] ==
      [Post, Post, StartDrain, RunWork, Post, StartDrain, RunWork];
    assert [Post] + [StartDrain, RunWork, Post, StartDrain, RunWork] ==
      [Post, StartDrain, RunWork, Post, StartDrain, RunWork];
    assert [StartDrain] + [RunWork, Post, StartDrain, RunWork] == [StartDrain, RunWork, Post, StartDrain, RunWork];
    assert [RunWork] + [Post, StartDrain, RunWork] == [RunWork, Post, StartDrain, RunWork];
    assert [Post] + [StartDrain, RunWork] == [Post, StartDrain, RunWork];
    assert [StartDrain] + [RunWork] == [StartDrain, RunWork] && [RunWork] + [] == [RunWork];
  }

  lemma RunOne(s: State, step: Step, rest: seq<Step>)
    ensures Run(s, [step] + rest) == Run(Next(s, step), rest) && Run(s, []) == s
  {
    assert ([step] + rest)[1..] == rest;
  }

  // ----- what is done -----

  /** While the loop runs, whatever is posted is accepted and waits in the queue, and a hook is kept; once it
      is closing, nothing is accepted and a hook runs at once. */
  lemma HandedOver(s: State)
    ensures var t := Next(s, Post);
      if s.phase.Running? then t.accepted == s.accepted + 1 && s.accepted in t.posted
      else t == s
    ensures var t := Next(s, AddCloseHook);
      t.added == s.added + 1 && if s.phase.Running? then s.added in t.hooks else s.added in t.hooksRun
  {
  }

  function Repeated(step: Step, n: nat): (r: seq<Step>) {
    seq(n, _ => step)
  }

  lemma RepeatedHead(step: Step, n: nat, rest: seq<Step>)
    ensures Repeated(step, n + 1) + rest == [step] + (Repeated(step, n) + rest) && Repeated(step, 0) + rest == rest
  {
  }

  /** The innermost drain runs all its work, in order, and ends. */
  lemma {:induction false} WorkIsRun(s: State)
    requires Draining(s)
    ensures Run(s, Repeated(RunWork, |Inner(s)|) + [EndDrain]) ==
      s.(drains := s.drains[..|s.drains| - 1], executed := s.executed + Inner(s))
    decreases |Inner(s)|
  {
    var work := Inner(s);
    if work == [] {
      RepeatedHead(RunWork, 0, [EndDrain]);
      RunOne(s, EndDrain, []);
      assert [EndDrain] + [] == [EndDrain] && s.executed + [] == s.executed;
    } else {
      var next := Next(s, RunWork);
      RepeatedHead(RunWork, |work| - 1, [EndDrain]);
      RunOne(s, RunWork, Repeated(RunWork, |work| - 1) + [EndDrain]);
      hide Run;
      WorkIsRun(next);
      assert s.executed + [work[0]] + work[1..] == s.executed + work;
      assert next.drains[..|next.drains| - 1] == s.drains[..|s.drains| - 1];
    }
  }

  /** A drain that nothing interrupts executes exactly what was queued, in the order of acceptance, and
      leaves the queue empty. */
  lemma DrainRunsAll(s: State)
    requires !s.phase.Closed?
    ensures Run(s, [StartDrain] + (Repeated(RunWork, |s.posted|) + [EndDrain])) ==
      s.(posted := [], executed := s.executed + s.posted)
  {
    var t := Next(s, StartDrain);
    assert Inner(t) == s.posted && t.drains[..|t.drains| - 1] == s.drains;
    RunOne(s, StartDrain, Repeated(RunWork, |s.posted|) + [EndDrain]);
    WorkIsRun(t);
    hide Run;
  }

  lemma {:induction false} HooksAreRun(s: State)
    requires s.phase.Closing?
    ensures Run(s, Repeated(RunHook, |s.hooksLeft|) + [TearDown]) ==
      s.(phase := Closed, hooksLeft := [], hooksRun := s.hooksRun + s.hooksLeft)
    decreases |s.hooksLeft|
  {
    if s.hooksLeft == [] {
      RepeatedHead(RunHook, 0, [TearDown]);
      RunOne(s, TearDown, []);
      assert [TearDown] + [] == [TearDown] && s.hooksRun + [] == s.hooksRun;
    } else {
      RepeatedHead(RunHook, |s.hooksLeft| - 1, [TearDown]);
      RunOne(s, RunHook, Repeated(RunHook, |s.hooksLeft| - 1) + [TearDown]);
      hide Run;
      HooksAreRun(Next(s, RunHook));
      assert s.hooksRun + [s.hooksLeft[0]] + s.hooksLeft[1..] == s.hooksRun + s.hooksLeft;
    }
  }

  /** Closing a running loop, when nothing interrupts it, runs every hook once, in the order in which they
      were added, and discards exactly the work still queued. */
  lemma CloseRunsAll(s: State)
    requires s.phase.Running?
    ensures Run(s, [PublishClosing] + (Repeated(RunHook, |s.hooks|) + [TearDown])) ==
      s.(phase := Closed, posted := [], discarded := s.discarded + s.posted, hooks := [], hooksLeft := [],
         hooksRun := s.hooksRun + s.hooks)
  {
    RunOne(s, PublishClosing, Repeated(RunHook, |s.hooks|) + [TearDown]);
    HooksAreRun(Next(s, PublishClosing));
    hide Run;
  }

  // ----- the loop as it runs -----

  /** Every method is one atomic step. */
  class Loop {
    var phase: Phase
    var accepted: nat
    var posted: seq<Item>
    var drains: seq<seq<Item>>
    var executed: seq<Item>
    var discarded: seq<Item>
    var added: nat
    var hooks: seq<Item>
    var hooksLeft: seq<Item>
    var hooksRun: seq<Item>

    ghost function View(): (s: State)
      reads this
    {
      State(phase, accepted, posted, drains, executed, discarded, added, hooks, hooksLeft, hooksRun)
    }

    constructor ()
      ensures View() == INITIAL && Inv(View())
    {
      phase, accepted, posted, drains, executed, discarded := Running, 0, [], [], [], [];
      added, hooks, hooksLeft, hooksRun := 0, [], [], [];
    }

    /** Under the mutex. The result also tells whether the loop could be woken; the work stays queued
        when it could not. */
    method Post(wakes: bool) returns (ok: bool)
      requires Inv(View())
      modifies this
      ensures View() == Next(old(View()), Step.Post) && Inv(View())
      ensures ok <==> old(phase).Running? && wakes
    {
      hide Inv;
      PostKeeps(View());
      if !phase.Running? {
        return false;
      }
      posted := posted + [accepted];
      accepted := accepted + 1;
      return wakes;
    }

    /** Under the mutex: takes the whole queue. */
    method StartDrain()
      requires Inv(View())
      modifies this
      ensures View() == Next(old(View()), Step.StartDrain) && Inv(View())
    {
      hide Inv;
      StartDrainKeeps(View());
      if !phase.Closed? {
        drains, posted := drains + [posted], [];
      }
    }

    method RunWork()
      requires Inv(View())
      modifies this
      ensures View() == Next(old(View()), Step.RunWork) && Inv(View())
    {
      hide Inv;
      RunWorkKeeps(View());
      if drains != [] && drains[|drains| - 1] != [] {
        var work := drains[|drains| - 1];
        executed := executed + [work[0]];
        drains := drains[|drains| - 1 := work[1..]];
      }
    }

    method EndDrain()
      requires Inv(View())
      modifies this
      ensures View() == Next(old(View()), Step.EndDrain) && Inv(View())
    {
      hide Inv;
      RunWorkKeeps(View());
      if drains != [] && drains[|drains| - 1] == [] {
        drains := drains[..|drains| - 1];
      }
    }

    /** A hook that comes too late is run at once. */
    method AddCloseHook()
      requires Inv(View())
      modifies this
      ensures View() == Next(old(View()), Step.AddCloseHook) && Inv(View())
    {
      hide Inv;
      AddCloseHookKeeps(View());
      if !phase.Running? {
        hooksRun := hooksRun + [added];
      } else {
        hooks := hooks + [added];
      }
      added := added + 1;
    }

    /** Under the mutex: the first section of Close. */
    method PublishClosing()
      requires Inv(View())
      modifies this
      ensures View() == Next(old(View()), Step.PublishClosing) && Inv(View())
    {
      hide Inv;
      PublishClosingKeeps(View());
      if phase.Running? {
        phase := Closing;
        discarded, posted := discarded + posted, [];
        hooksLeft, hooks := hooks, [];
      }
    }

    /** Close without interference from other threads: every hook runs, then the loop is torn down. */
    method Close()
      requires Inv(View()) && phase.Running?
      modifies this
      ensures Inv(View()) && phase.Closed? && posted == []
      ensures discarded == old(posted) && hooksRun == old(hooksRun + hooks)
      ensures executed == old(executed) && drains == old(drains) && accepted == old(accepted)
    {
      hide Inv;
      RunningDiscardsNothing(View());
      PublishClosing();
      while hooksLeft != []
        invariant Inv(View()) && phase.Closing? && posted == []
        invariant discarded == old(posted) && hooksRun + hooksLeft == old(hooksRun + hooks)
        invariant executed == old(executed) && drains == old(drains) && accepted == old(accepted)
        decreases |hooksLeft|
      {
        RunHookKeeps(View());
        hooksRun, hooksLeft := hooksRun + [hooksLeft[0]], hooksLeft[1..];
      }
      RunHookKeeps(View());
      phase := Closed;
    }
  }

  lemma RunningDiscardsNothing(s: State)
    requires Inv(s) && s.phase.Running?
    ensures s.discarded == []
  {
  }
}
