/** Which packages of a resolved graph are installed, and under which alias each one appears. */
module InstallPlan {
  import opened Wrappers
  import opened PackageGraph

  // ----- which edges count -----

  /** Development edges count only on the root, and only when asked for. */
  predicate Counts(graph: DependencyGraph, development: bool, i: nat, e: DependencyEdge) {
    e.scope.Runtime? || (development && i == graph.root)
  }

  ghost predicate Leads(graph: DependencyGraph, development: bool, i: nat, k: nat) {
    && i < |graph.packages| && k < |graph.packages|
    && exists j :: 0 <= j < |graph.packages[i].dependencies| &&
         Counts(graph, development, i, graph.packages[i].dependencies[j]) &&
         graph.packages[i].dependencies[j].target == Some(k)
  }

  /** A walk from the root along edges that count. */
  ghost predicate Walk(graph: DependencyGraph, development: bool, path: seq<nat>) {
    && |path| > 0 && path[0] == graph.root && graph.root < |graph.packages|
    && forall i :: 0 < i < |path| ==> Leads(graph, development, path[i - 1], path[i])
  }

  ghost predicate Reached(graph: DependencyGraph, development: bool, k: nat) {
    exists path :: Walk(graph, development, path) && path[|path| - 1] == k
  }

  lemma RootReached(graph: DependencyGraph, development: bool)
    requires graph.root < |graph.packages|
    ensures Reached(graph, development, graph.root)
  {
    assert Walk(graph, development, [graph.root]);
  }

  lemma StepReached(graph: DependencyGraph, development: bool, i: nat, k: nat)
    requires Reached(graph, development, i) && Leads(graph, development, i, k)
    ensures Reached(graph, development, k)
  {
    var path :| Walk(graph, development, path) && path[|path| - 1] == i;
    assert Walk(graph, development, path + [k]);
  }

  // ----- the fixpoint -----

  /** Marks only grow, and every mark is on a reached package. */
  ghost predicate Marked(graph: DependencyGraph, development: bool, marks: seq<bool>) {
    && |marks| == |graph.packages|
    && (graph.root < |marks| ==> marks[graph.root])
    && forall i :: 0 <= i < |marks| && marks[i] ==> Reached(graph, development, i)
  }

  /** The first upTo edges of package i lead nowhere unmarked. */
  ghost predicate EdgesSettled(graph: DependencyGraph, development: bool, marks: seq<bool>, i: nat, upTo: nat)
    requires i < |graph.packages| == |marks|
  {
    marks[i] ==> forall j :: 0 <= j < upTo && j < |graph.packages[i].dependencies| ==>
      var e := graph.packages[i].dependencies[j];
      Counts(graph, development, i, e) && e.target.Some? && e.target.value < |marks| ==> marks[e.target.value]
  }

  ghost predicate Settled(graph: DependencyGraph, development: bool, marks: seq<bool>, upTo: nat)
    requires |graph.packages| == |marks|
  {
    forall i :: 0 <= i < upTo && i < |marks| ==>
      EdgesSettled(graph, development, marks, i, |graph.packages[i].dependencies|)
  }

  function Unmarked(marks: seq<bool>): (r: nat)
    ensures r <= |marks|
  {
    if marks == [] then 0 else Unmarked(marks[1..]) + if marks[0] then 0 else 1
  }

  lemma {:induction false} MarkingCounts(marks: seq<bool>, k: nat)
    requires k < |marks| && !marks[k]
    ensures Unmarked(marks[k := true]) == Unmarked(marks) - 1
  {
    if k > 0 {
      MarkingCounts(marks[1..], k - 1);
      assert marks[k := true][1..] == marks[1..][k - 1 := true];
    } else {
      assert marks[0 := true][1..] == marks[1..];
    }
  }

  /** Marks that nothing leads out of cover every walk. */
  lemma {:induction false} SettledCovers(graph: DependencyGraph, development: bool, marks: seq<bool>, path: seq<nat>)
    requires Marked(graph, development, marks) && Settled(graph, development, marks, |marks|)
    requires Walk(graph, development, path)
    ensures path[|path| - 1] < |marks| && marks[path[|path| - 1]]
  {
    if |path| > 1 {
      SettledCovers(graph, development, marks, path[..|path| - 1]);
      var i, k := path[|path| - 2], path[|path| - 1];
      assert Leads(graph, development, i, k);
      assert EdgesSettled(graph, development, marks, i, |graph.packages[i].dependencies|);
    }
  }

  lemma MarkReached(graph: DependencyGraph, development: bool, marks: seq<bool>, i: nat, j: nat)
    requires Marked(graph, development, marks) && i < |marks| && marks[i] && j < |graph.packages[i].dependencies|
    requires var e := graph.packages[i].dependencies[j];
      Counts(graph, development, i, e) && e.target.Some? && e.target.value < |marks| && !marks[e.target.value]
    ensures var k := graph.packages[i].dependencies[j].target.value;
      Marked(graph, development, marks[k := true]) && Unmarked(marks[k := true]) < Unmarked(marks)
  {
    var k := graph.packages[i].dependencies[j].target.value;
    assert Leads(graph, development, i, k);
    StepReached(graph, development, i, k);
    MarkingCounts(marks, k);
  }

  /** One visit to the edges of package i. */
  method MarkTargets(graph: DependencyGraph, development: bool, before: seq<bool>, i: nat)
    returns (marks: seq<bool>, changed: bool)
    requires Marked(graph, development, before) && i < |before| && before[i]
    ensures Marked(graph, development, marks) && Unmarked(marks) <= Unmarked(before)
    ensures changed ==> Unmarked(marks) < Unmarked(before)
    ensures !changed ==> marks == before && EdgesSettled(graph, development, marks, i, |graph.packages[i].dependencies|)
  {
    hide Marked, Unmarked;
    marks, changed := before, false;
    MarksFit(graph, development, before);
    for j := 0 to |graph.packages[i].dependencies|
      invariant Marked(graph, development, marks) && |marks| == |before| && marks[i]
      invariant Unmarked(marks) <= Unmarked(before) && (changed ==> Unmarked(marks) < Unmarked(before))
      invariant !changed ==> marks == before && EdgesSettled(graph, development, marks, i, j)
    {
      var edge := graph.packages[i].dependencies[j];
      if edge.scope.Development? && (!development || i != graph.root) {
        continue;
      }
      if edge.target.Some? && edge.target.value < |graph.packages| && !marks[edge.target.value] {
        MarkReached(graph, development, marks, i, j);
        marks := marks[edge.target.value := true];
        changed := true;
      }
    }
  }

  lemma MarksFit(graph: DependencyGraph, development: bool, marks: seq<bool>)
    requires Marked(graph, development, marks)
    ensures |marks| == |graph.packages|
  {
  }

  /** The installable packages are exactly those reached from the root. */
  method CollectInstallablePackages(graph: DependencyGraph, development: bool) returns (installable: seq<bool>)
    ensures |installable| == |graph.packages|
    ensures forall i :: 0 <= i < |installable| ==> (installable[i] <==> Reached(graph, development, i))
  {
    hide Unmarked, EdgesSettled;
    installable := seq(|graph.packages|, _ => false);
    if graph.root >= |graph.packages| {
      return;
    }
    installable := installable[graph.root := true];
    RootReached(graph, development);
    var changed := true;
    while changed
      invariant Marked(graph, development, installable)
      invariant !changed ==> Settled(graph, development, installable, |installable|)
      decreases Unmarked(installable), changed
    {
      changed := false;
      ghost var before := installable;
      for i := 0 to |graph.packages|
        invariant Marked(graph, development, installable) && Unmarked(installable) <= Unmarked(before)
        invariant changed ==> Unmarked(installable) < Unmarked(before)
        invariant !changed ==> installable == before && Settled(graph, development, installable, i)
      {
        if !installable[i] {
          UnmarkedIsSettled(graph, development, installable, i);
          continue;
        }
        var grown;
        installable, grown := MarkTargets(graph, development, installable, i);
        changed := changed || grown;
      }
    }
    forall i: nat | i < |installable| && Reached(graph, development, i) ensures installable[i] {
      var path :| Walk(graph, development, path) && path[|path| - 1] == i;
      SettledCovers(graph, development, installable, path);
    }
  }

  lemma UnmarkedIsSettled(graph: DependencyGraph, development: bool, marks: seq<bool>, i: nat)
    requires i < |graph.packages| == |marks| && !marks[i]
    ensures EdgesSettled(graph, development, marks, i, |graph.packages[i].dependencies|)
  {
  }

  // ----- the plan -----

  /** The cache identity of a package; only its document tells identities apart. */
  datatype Identity = Identity(document: string, directory: string)

  datatype PlanError = Incomplete(alias: string) | NoIdentity(target: nat) | Ambiguous(alias: string)

  predicate IsInstallEdge(graph: DependencyGraph, i: nat, e: DependencyEdge, installable: seq<bool>,
                          development: bool) {
    if i >= |installable| || !installable[i] then false
    else if e.scope.Development? then development && i == graph.root
    else true
  }

  /** The first upTo edges of package i that are to be installed. */
  function EdgesOf(graph: DependencyGraph, installable: seq<bool>, development: bool, i: nat, upTo: nat)
    : (r: seq<DependencyEdge>)
    requires i < |graph.packages| && upTo <= |graph.packages[i].dependencies|
  {
    if upTo == 0 then [] else
      var e := graph.packages[i].dependencies[upTo - 1];
      EdgesOf(graph, installable, development, i, upTo - 1) +
        if IsInstallEdge(graph, i, e, installable, development) then [e] else []
  }

  function EdgesBefore(graph: DependencyGraph, installable: seq<bool>, development: bool, upTo: nat)
    : (r: seq<DependencyEdge>)
    requires upTo <= |graph.packages|
  {
    if upTo == 0 then [] else
      EdgesBefore(graph, installable, development, upTo - 1) +
      EdgesOf(graph, installable, development, upTo - 1, |graph.packages[upTo - 1].dependencies|)
  }

  /** Edge e of package i is to be installed: i is reached, and e counts. */
  ghost predicate Installs(graph: DependencyGraph, development: bool, e: DependencyEdge) {
    exists i: nat :: i < |graph.packages| && InstallsFrom(graph, development, i, e)
  }

  ghost predicate InstallsFrom(graph: DependencyGraph, development: bool, i: nat, e: DependencyEdge)
    requires i < |graph.packages|
  {
    Reached(graph, development, i) && Counts(graph, development, i, e) && e in graph.packages[i].dependencies
  }

  /** All edges to be installed. */
  ghost function InstallEdges(graph: DependencyGraph, development: bool): (r: set<DependencyEdge>)
    ensures forall e :: e in r <==> Installs(graph, development, e)
  {
    set i: nat, e | i < |graph.packages| && e in graph.packages[i].dependencies &&
      InstallsFrom(graph, development, i, e) :: e
  }

  lemma {:induction false} EdgesOfMembers(graph: DependencyGraph, installable: seq<bool>, development: bool, i: nat,
                                          upTo: nat, e: DependencyEdge)
    requires i < |graph.packages| && upTo <= |graph.packages[i].dependencies|
    ensures e in EdgesOf(graph, installable, development, i, upTo) <==>
      e in graph.packages[i].dependencies[..upTo] && IsInstallEdge(graph, i, e, installable, development)
  {
    if upTo > 0 {
      EdgesOfMembers(graph, installable, development, i, upTo - 1, e);
      var d := graph.packages[i].dependencies;
      assert d[..upTo] == d[..upTo - 1] + [d[upTo - 1]];
    }
  }

  lemma {:induction false} EdgesBeforeMembers(graph: DependencyGraph, installable: seq<bool>, development: bool,
                                              upTo: nat, e: DependencyEdge)
    requires upTo <= |graph.packages|
    ensures e in EdgesBefore(graph, installable, development, upTo) <==>
      exists i: nat :: i < upTo && e in graph.packages[i].dependencies &&
        IsInstallEdge(graph, i, e, installable, development)
  {
    if upTo > 0 {
      EdgesBeforeMembers(graph, installable, development, upTo - 1, e);
      var d := graph.packages[upTo - 1].dependencies;
      EdgesOfMembers(graph, installable, development, upTo - 1, |d|, e);
      assert d[..|d|] == d;
    }
  }

  /** The edges the planner visits are exactly those to be installed. */
  lemma VisitedAreInstalled(graph: DependencyGraph, installable: seq<bool>, development: bool)
    requires |installable| == |graph.packages|
    requires forall i :: 0 <= i < |installable| ==> (installable[i] <==> Reached(graph, development, i))
    ensures forall e :: e in EdgesBefore(graph, installable, development, |graph.packages|) <==>
      Installs(graph, development, e)
  {
    forall e
      ensures e in EdgesBefore(graph, installable, development, |graph.packages|) <==> Installs(graph, development, e)
    {
      EdgesBeforeMembers(graph, installable, development, |graph.packages|, e);
      hide EdgesBefore, Reached;
      forall i: nat | i < |graph.packages|
        ensures InstallsFrom(graph, development, i, e) <==>
          e in graph.packages[i].dependencies && IsInstallEdge(graph, i, e, installable, development)
      {
      }
    }
  }

  // ----- when a set of edges can be planned -----

  type Identify = nat -> Option<Identity>

  predicate Identified(identify: Identify, e: DependencyEdge) {
    e.target.Some? && identify(e.target.value).Some?
  }

  function DocumentOf(identify: Identify, e: DependencyEdge): (r: string)
    requires Identified(identify, e)
  {
    identify(e.target.value).value.document
  }

  predicate Agree(identify: Identify, d: DependencyEdge, e: DependencyEdge)
    requires Identified(identify, d) && Identified(identify, e)
  {
    d.alias == e.alias ==> DocumentOf(identify, d) == DocumentOf(identify, e)
  }

  /** Every edge leads to a package with an identity, and edges with one alias agree on it. */
  ghost predicate Plannable(identify: Identify, edges: set<DependencyEdge>) {
    && (forall e :: e in edges ==> Identified(identify, e))
    && forall d, e :: d in edges && e in edges ==> Agree(identify, d, e)
  }

  /** The target of e has its identity, and the alias of e stands for that identity. */
  ghost predicate Bound(identify: Identify, e: DependencyEdge, aliases: map<string, Identity>,
                        packages: map<nat, Identity>) {
    && Identified(identify, e) && e.target.value in packages
    && e.alias in aliases && aliases[e.alias].document == DocumentOf(identify, e)
  }

  ghost predicate AliasFrom(identify: Identify, edges: set<DependencyEdge>, alias: string, identity: Identity) {
    exists e :: e in edges && e.alias == alias && Identified(identify, e) && identify(e.target.value).value == identity
  }

  ghost predicate PackageFrom(identify: Identify, edges: set<DependencyEdge>, target: nat, identity: Identity) {
    identify(target) == Some(identity) && exists e :: e in edges && e.target == Some(target)
  }

  /** The tables that a plan consists of: what the edges say, and nothing else. */
  ghost predicate Plans(identify: Identify, edges: set<DependencyEdge>, aliases: map<string, Identity>,
                        packages: map<nat, Identity>) {
    && (forall e :: e in edges ==> Bound(identify, e, aliases, packages))
    && (forall a :: a in aliases ==> AliasFrom(identify, edges, a, aliases[a]))
    && forall t :: t in packages ==> PackageFrom(identify, edges, t, packages[t])
  }

  ghost predicate PlanInv(identify: Identify, edges: set<DependencyEdge>, aliases: map<string, Identity>,
                          packages: map<nat, Identity>, errors: seq<PlanError>)
  {
    if errors == [] then Plans(identify, edges, aliases, packages)
    else !Plannable(identify, edges) && forall t :: t in packages ==> identify(t) == Some(packages[t])
  }

  lemma PlansArePlannable(identify: Identify, edges: set<DependencyEdge>, aliases: map<string, Identity>,
                          packages: map<nat, Identity>)
    requires Plans(identify, edges, aliases, packages)
    ensures Plannable(identify, edges)
  {
    hide Identified, DocumentOf, AliasFrom, PackageFrom;
    forall d, e | d in edges && e in edges
      ensures Identified(identify, d) && Identified(identify, e) && Agree(identify, d, e)
    {
      assert Bound(identify, d, aliases, packages) && Bound(identify, e, aliases, packages);
    }
  }

  lemma UnplannableStays(identify: Identify, edges: set<DependencyEdge>, e: DependencyEdge)
    requires !Plannable(identify, edges)
    ensures !Plannable(identify, edges + {e})
  {
    hide Identified, Agree;
  }

  /** An edge whose alias already has another identity spoils the plan. */
  lemma ConflictSpoils(identify: Identify, edges: set<DependencyEdge>, aliases: map<string, Identity>,
                       packages: map<nat, Identity>, e: DependencyEdge)
    requires Plans(identify, edges, aliases, packages) && Identified(identify, e)
    requires e.alias in aliases && aliases[e.alias].document != DocumentOf(identify, e)
    ensures !Plannable(identify, edges + {e})
  {
    hide Bound, PackageFrom;
    assert AliasFrom(identify, edges, e.alias, aliases[e.alias]);
    var d :| d in edges && d.alias == e.alias && Identified(identify, d) &&
      identify(d.target.value).value == aliases[e.alias];
    assert !Agree(identify, d, e);
    hide Agree, AliasFrom, Identified, DocumentOf;
    assert d in edges + {e} && e in edges + {e};
  }

  lemma EdgePlanned(identify: Identify, edges: set<DependencyEdge>, aliases: map<string, Identity>,
                    packages: map<nat, Identity>, e: DependencyEdge, target: nat, identity: Identity)
    requires Plans(identify, edges, aliases, packages) && e.target == Some(target) && identify(target) == Some(identity)
    requires e.alias in aliases ==> aliases[e.alias].document == identity.document
    ensures Plans(identify, edges + {e}, if e.alias in aliases then aliases
      else aliases[e.alias := identity], packages[target := identity])
  {
    hide Bound, AliasFrom, PackageFrom;
    var bound := if e.alias in aliases then aliases else aliases[e.alias := identity];
    var located := packages[target := identity];
    forall d | d in edges + {e} ensures Bound(identify, d, bound, located) {
      BoundStays(identify, aliases, packages, bound, located, d, e, identity);
    }
    forall a | a in bound ensures AliasFrom(identify, edges + {e}, a, bound[a]) {
      AliasStays(identify, edges, aliases, e, a);
    }
    forall t | t in located ensures PackageFrom(identify, edges + {e}, t, located[t]) {
      PackageStays(identify, edges, packages, e, t);
    }
  }

  lemma BoundStays(identify: Identify, aliases: map<string, Identity>, packages: map<nat, Identity>,
                   bound: map<string, Identity>, located: map<nat, Identity>, d: DependencyEdge, e: DependencyEdge,
                   identity: Identity)
    requires e.target.Some? && identify(e.target.value) == Some(identity)
    requires (d == e || Bound(identify, d, aliases, packages))
    requires e.alias in bound && bound[e.alias].document == identity.document && e.target.value in located
    requires forall a :: a in aliases ==> a in bound && bound[a] == aliases[a]
    requires forall t :: t in packages ==> t in located
    ensures Bound(identify, d, bound, located)
  {
  }

  lemma AliasStays(identify: Identify, edges: set<DependencyEdge>, aliases: map<string, Identity>, e: DependencyEdge,
                   a: string)
    requires Identified(identify, e) && (a in aliases || a == e.alias)
    requires a in aliases ==> AliasFrom(identify, edges, a, aliases[a])
    ensures AliasFrom(identify, edges + {e}, a, if a in aliases then aliases[a] else identify(e.target.value).value)
  {
    if a in aliases {
      var d :| d in edges && d.alias == a && Identified(identify, d) && identify(d.target.value).value == aliases[a];
      assert d in edges + {e};
    } else {
      assert e in edges + {e};
    }
  }

  lemma PackageStays(identify: Identify, edges: set<DependencyEdge>, packages: map<nat, Identity>, e: DependencyEdge,
                     t: nat)
    requires Identified(identify, e) && (t in packages || t == e.target.value)
    requires t in packages ==> PackageFrom(identify, edges, t, packages[t])
    ensures PackageFrom(identify, edges + {e}, t, if t == e.target.value then identify(t).value else packages[t])
  {
    if t == e.target.value {
      assert e in edges + {e};
    } else {
      var d :| d in edges && d.target == Some(t);
      assert d in edges + {e};
    }
  }

  /** One edge of the plan. */
  method PlanEdge(identify: Identify, ghost edges: set<DependencyEdge>, e: DependencyEdge,
                  aliases0: map<string, Identity>, packages0: map<nat, Identity>, errors0: seq<PlanError>)
    returns (aliases: map<string, Identity>, packages: map<nat, Identity>, errors: seq<PlanError>)
    requires PlanInv(identify, edges, aliases0, packages0, errors0)
    ensures PlanInv(identify, edges + {e}, aliases, packages, errors)
  {
    hide Plans, Plannable, PackageFrom, AliasFrom, Bound;
    aliases, packages, errors := aliases0, packages0, errors0;
    if errors0 != [] {
      UnplannableStays(identify, edges, e);
    }
    PackagesIdentified(identify, edges, aliases0, packages0, errors0);
    if e.target.None? {
      errors := errors + [Incomplete(e.alias)];
      Unidentified(identify, edges + {e}, e);
      return;
    }
    var target := e.target.value;
    if target !in packages {
      var identity := identify(target);
      if identity.None? {
        errors := errors + [NoIdentity(target)];
        Unidentified(identify, edges + {e}, e);
        return;
      }
      packages := packages[target := identity.value];
    }
    assert packages == packages0[target := identify(target).value];
    if e.alias in aliases && aliases[e.alias].document != packages[target].document {
      if errors0 == [] {
        ConflictSpoils(identify, edges, aliases0, packages0, e);
      }
      errors := errors + [Ambiguous(e.alias)];
      return;
    }
    if errors0 == [] {
      EdgePlanned(identify, edges, aliases0, packages0, e, target, packages[target]);
    }
    if e.alias !in aliases {
      aliases := aliases[e.alias := packages[target]];
    }
  }

  lemma PackagesIdentified(identify: Identify, edges: set<DependencyEdge>, aliases: map<string, Identity>,
                           packages: map<nat, Identity>, errors: seq<PlanError>)
    requires PlanInv(identify, edges, aliases, packages, errors)
    ensures forall t :: t in packages ==> identify(t) == Some(packages[t])
  {
  }

  lemma Unidentified(identify: Identify, edges: set<DependencyEdge>, e: DependencyEdge)
    requires e in edges && !Identified(identify, e)
    ensures !Plannable(identify, edges)
  {
  }

  /** The plan of an installation. It succeeds exactly when every edge to be installed leads to a
      package with an identity and no alias stands for two identities. */
  method Plan(graph: DependencyGraph, development: bool, identify: Identify)
    returns (aliases: map<string, Identity>, packages: map<nat, Identity>, errors: seq<PlanError>)
    ensures errors == [] <==> Plannable(identify, InstallEdges(graph, development))
    ensures errors == [] ==> Plans(identify, InstallEdges(graph, development), aliases, packages)
  {
    hide PlanInv, Installs, InstallEdges, Plannable, Plans;
    var installable := CollectInstallablePackages(graph, development);
    VisitedAreInstalled(graph, installable, development);
    hide Reached;
    aliases, packages, errors := map[], map[], [];
    ghost var edges: set<DependencyEdge> := {};
    NothingPlanned(identify);
    for i := 0 to |graph.packages|
      invariant PlanInv(identify, edges, aliases, packages, errors)
      invariant edges == set e | e in EdgesBefore(graph, installable, development, i)
    {
      ghost var before := edges;
      var deps := graph.packages[i].dependencies;
      for j := 0 to |deps|
        invariant PlanInv(identify, edges, aliases, packages, errors)
        invariant edges == before + (set e | e in EdgesOf(graph, installable, development, i, j))
      {
        if !IsInstallEdge(graph, i, deps[j], installable, development) {
          continue;
        }
        aliases, packages, errors := PlanEdge(identify, edges, deps[j], aliases, packages, errors);
        edges := edges + {deps[j]};
      }
    }
    assert edges == InstallEdges(graph, development);
    PlanOutcome(identify, edges, aliases, packages, errors);
  }

  lemma NothingPlanned(identify: Identify)
    ensures PlanInv(identify, {}, map[], map[], [])
  {
  }

  lemma PlanOutcome(identify: Identify, edges: set<DependencyEdge>, aliases: map<string, Identity>,
                    packages: map<nat, Identity>, errors: seq<PlanError>)
    requires PlanInv(identify, edges, aliases, packages, errors)
    ensures errors == [] <==> Plannable(identify, edges)
    ensures errors == [] ==> Plans(identify, edges, aliases, packages)
  {
    if errors == [] {
      PlansArePlannable(identify, edges, aliases, packages);
    }
  }
}
