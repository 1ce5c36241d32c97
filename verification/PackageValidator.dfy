/** The dependency resolver: a depth-first walk over possibly cyclic manifests that builds the
    dependency graph in place, guarded by an index map and a set of active packages. */
module PackageValidator {
  import opened Wrappers
  import opened PackageGraph

  datatype Declaration =
    | PathDeclaration(path: string, version: string)
    | GitDeclaration(url: string, version: string)
    | StandardDeclaration(version: string)
    | Malformed

  datatype Entry = Entry(alias: string, declaration: Declaration)

  /** A dependency field that is absent or not an object is None. */
  datatype Manifest = Manifest(
    name: string,
    version: string,
    dependencies: Option<seq<Entry>>,
    devDependencies: Option<seq<Entry>>)

  datatype ResolutionError =
    | NotADirectory(alias: string)
    | UnreadableManifest(alias: string)
    | VersionMismatch(alias: string)
    | NoCatalog(alias: string)
    | NotInCatalog(alias: string)

  /** What the resolver can observe of the disk and of the validation mode. */
  datatype World = World(
    directories: set<CanonicalPath>,
    manifests: map<CanonicalPath, Manifest>,
    locate: map<(CanonicalPath, string), CanonicalPath>,
    catalogs: set<CanonicalPath>,
    standard: map<(CanonicalPath, string), CanonicalPath>,
    satisfies: (string, string) -> bool,
    allowsUnresolvedStdlib: bool)
  {
    /** The catalog lookup returns only packages whose manifest it has parsed. */
    ghost predicate WellFormed() {
      forall k :: k in standard ==> standard[k] in manifests
    }
  }

  /** How one declaration of package p resolves. */
  datatype Lookup =
    | Found(root: CanonicalPath)
    | Mismatched(root: CanonicalPath, error: ResolutionError)
    | Missing(error: ResolutionError)
    | Unresolved

  function LookUp(w: World, p: CanonicalPath, e: Entry): (r: Lookup)
    requires w.WellFormed()
    ensures r.Found? || r.Mismatched? ==> r.root in w.manifests && !e.declaration.Malformed?
  {
    match e.declaration
    case PathDeclaration(path, version) =>
      if (p, path) !in w.locate || w.locate[(p, path)] !in w.directories then
        Missing(NotADirectory(e.alias))
      else
        var q := w.locate[(p, path)];
        if q !in w.manifests then Missing(UnreadableManifest(e.alias))
        else if !w.satisfies(w.manifests[q].version, version) then Mismatched(q, VersionMismatch(e.alias))
        else Found(q)
    case StandardDeclaration(version) =>
      if p !in w.catalogs then
        if w.allowsUnresolvedStdlib then Unresolved else Missing(NoCatalog(e.alias))
      else if (p, e.alias) !in w.standard then
        if w.allowsUnresolvedStdlib then Unresolved else Missing(NotInCatalog(e.alias))
      else
        var q := w.standard[(p, e.alias)];
        if w.satisfies(w.manifests[q].version, version) then Found(q)
        else if w.allowsUnresolvedStdlib then Unresolved
        else Missing(VersionMismatch(e.alias))
    case _ => Unresolved
  }

  predicate Faulty(w: World, p: CanonicalPath, e: Entry)
    requires w.WellFormed()
  {
    var r := LookUp(w, p, e);
    r.Missing? || r.Mismatched?
  }

  // ----- what the graph should say, with packages named by path instead of by index -----

  datatype LogicalEdge = LogicalEdge(
    alias: string,
    source: DependencySource,
    requestedVersion: string,
    sourceReference: string,
    target: Option<CanonicalPath>,
    scope: DependencyScope)

  ghost function TargetOf(r: Lookup): (t: Option<CanonicalPath>) {
    if r.Found? || r.Mismatched? then Some(r.root) else None
  }

  /** A malformed declaration has no edge, every other declaration exactly one. */
  ghost function EdgesOfEntry(w: World, p: CanonicalPath, e: Entry, scope: DependencyScope): (r: seq<LogicalEdge>)
    requires w.WellFormed()
  {
    var target := TargetOf(LookUp(w, p, e));
    match e.declaration
    case PathDeclaration(path, version) => [LogicalEdge(e.alias, DependencySource.Path, version, path, target, scope)]
    case GitDeclaration(url, version) => [LogicalEdge(e.alias, Git, version, url, None, scope)]
    case StandardDeclaration(version) => [LogicalEdge(e.alias, StandardLibrary, version, "", target, scope)]
    case Malformed => []
  }

  ghost function EdgesOfTable(w: World, p: CanonicalPath, entries: seq<Entry>, scope: DependencyScope)
    : (r: seq<LogicalEdge>)
    requires w.WellFormed()
  {
    if entries == [] then [] else
      var n := |entries| - 1;
      EdgesOfTable(w, p, entries[..n], scope) + EdgesOfEntry(w, p, entries[n], scope)
  }

  function Entries(table: Option<seq<Entry>>): (r: seq<Entry>) {
    if table.Some? then table.value else []
  }

  /** All edges of package p: runtime declarations, and for the root its development ones too. */
  ghost function Declared(w: World, origin: CanonicalPath, p: CanonicalPath): (r: seq<LogicalEdge>)
    requires w.WellFormed() && p in w.manifests
  {
    EdgesOfTable(w, p, Entries(w.manifests[p].dependencies), Runtime) +
    if p == origin then EdgesOfTable(w, p, Entries(w.manifests[p].devDependencies), Development) else []
  }

  ghost predicate FaultFreeTable(w: World, p: CanonicalPath, entries: seq<Entry>)
    requires w.WellFormed()
  {
    forall k :: 0 <= k < |entries| ==> !Faulty(w, p, entries[k])
  }

  ghost predicate FaultFree(w: World, origin: CanonicalPath, p: CanonicalPath)
    requires w.WellFormed() && p in w.manifests
  {
    && FaultFreeTable(w, p, Entries(w.manifests[p].dependencies))
    && (p == origin ==> FaultFreeTable(w, p, Entries(w.manifests[p].devDependencies)))
  }

  /** The one edge of a declaration that is well formed. */
  ghost predicate OneEdge(w: World, p: CanonicalPath, e: Entry, scope: DependencyScope, source: DependencySource,
                          version: string, reference: string, target: Option<CanonicalPath>)
    requires w.WellFormed()
  {
    var edges := EdgesOfEntry(w, p, e, scope);
    && |edges| == 1 && edges[0].alias == e.alias && edges[0].scope == scope && edges[0].source == source
    && edges[0].requestedVersion == version && edges[0].sourceReference == reference && edges[0].target == target
  }

  /** The place a path declaration names has a manifest. */
  ghost predicate NamesPackage(w: World, p: CanonicalPath, path: string, q: CanonicalPath) {
    (p, path) in w.locate && w.locate[(p, path)] == q && q in w.directories && q in w.manifests
  }

  /** What a path declaration means. It is linked to the package at its place whatever the version, and its
      error says what is missing there. */
  lemma PathMeans(w: World, p: CanonicalPath, e: Entry, scope: DependencyScope, path: string, version: string)
    requires w.WellFormed() && e.declaration == PathDeclaration(path, version)
    ensures forall q :: NamesPackage(w, p, path, q) ==>
      && OneEdge(w, p, e, scope, DependencySource.Path, version, path, Some(q))
      && (LookUp(w, p, e) == Found(q) <==> w.satisfies(w.manifests[q].version, version))
      && (LookUp(w, p, e) == Mismatched(q, VersionMismatch(e.alias)) <==>
            !w.satisfies(w.manifests[q].version, version))
    ensures (forall q :: !NamesPackage(w, p, path, q)) ==>
      && OneEdge(w, p, e, scope, DependencySource.Path, version, path, None)
      && LookUp(w, p, e) == Missing(
           if (p, path) in w.locate && w.locate[(p, path)] in w.directories then UnreadableManifest(e.alias)
           else NotADirectory(e.alias))
  {
    if (p, path) in w.locate && w.locate[(p, path)] in w.directories && w.locate[(p, path)] in w.manifests {
      assert NamesPackage(w, p, path, w.locate[(p, path)]);
    }
  }

  /** A Git declaration is an edge to its repository that is never linked here; a malformed one is nothing. */
  lemma GitMeans(w: World, p: CanonicalPath, e: Entry, scope: DependencyScope)
    requires w.WellFormed()
    ensures e.declaration.GitDeclaration? ==>
      LookUp(w, p, e) == Unresolved && OneEdge(w, p, e, scope, Git, e.declaration.version, e.declaration.url, None)
    ensures e.declaration.Malformed? ==> LookUp(w, p, e) == Unresolved && EdgesOfEntry(w, p, e, scope) == []
  {
  }

  /** The catalog of package p names q for this alias. */
  ghost predicate InCatalog(w: World, p: CanonicalPath, e: Entry, q: CanonicalPath) {
    p in w.catalogs && (p, e.alias) in w.standard && w.standard[(p, e.alias)] == q
  }

  /** A standard declaration is linked exactly when the catalog has a package for it whose version satisfies
      the request; otherwise it has no target, which is an error unless such declarations may stay open. */
  lemma StandardMeans(w: World, p: CanonicalPath, e: Entry, scope: DependencyScope, version: string)
    requires w.WellFormed() && e.declaration == StandardDeclaration(version)
    ensures forall q :: LookUp(w, p, e) == Found(q) <==>
      InCatalog(w, p, e, q) && w.satisfies(w.manifests[q].version, version)
    ensures forall q :: LookUp(w, p, e) == Found(q) ==>
      OneEdge(w, p, e, scope, StandardLibrary, version, "", Some(q))
    ensures !LookUp(w, p, e).Found? ==>
      && OneEdge(w, p, e, scope, StandardLibrary, version, "", None)
      && LookUp(w, p, e) ==
         if w.allowsUnresolvedStdlib then Unresolved
         else Missing(
           if p !in w.catalogs then NoCatalog(e.alias)
           else if (p, e.alias) !in w.standard then NotInCatalog(e.alias)
           else VersionMismatch(e.alias))
  {
  }

  // ----- reachability -----

  ghost predicate DependsOn(w: World, origin: CanonicalPath, p: CanonicalPath, q: CanonicalPath)
    requires w.WellFormed()
  {
    p in w.manifests && exists e :: e in Declared(w, origin, p) && e.target == Some(q)
  }

  ghost predicate Chain(w: World, origin: CanonicalPath, path: seq<CanonicalPath>)
    requires w.WellFormed()
  {
    && |path| > 0 && path[0] == origin
    && forall i :: 0 < i < |path| ==> DependsOn(w, origin, path[i - 1], path[i])
  }

  ghost predicate Reachable(w: World, origin: CanonicalPath, p: CanonicalPath)
    requires w.WellFormed()
  {
    exists path :: Chain(w, origin, path) && path[|path| - 1] == p
  }

  /** No reachable package has a declaration that fails to resolve. */
  ghost predicate Sound(w: World, origin: CanonicalPath)
    requires w.WellFormed()
  {
    forall p :: Reachable(w, origin, p) && p in w.manifests ==> FaultFree(w, origin, p)
  }

  lemma OriginIsReachable(w: World, origin: CanonicalPath)
    requires w.WellFormed()
    ensures Reachable(w, origin, origin)
  {
    assert Chain(w, origin, [origin]);
  }

  lemma StepIsReachable(w: World, origin: CanonicalPath, p: CanonicalPath, q: CanonicalPath)
    requires w.WellFormed() && Reachable(w, origin, p) && DependsOn(w, origin, p, q)
    ensures Reachable(w, origin, q)
  {
    var path :| Chain(w, origin, path) && path[|path| - 1] == p;
    assert Chain(w, origin, path + [q]);
  }

  /** A set that holds the origin and is closed under DependsOn holds every reachable package. */
  lemma {:induction false} ClosedSetCoversChain(w: World, origin: CanonicalPath, known: set<CanonicalPath>,
                                                path: seq<CanonicalPath>)
    requires w.WellFormed() && Chain(w, origin, path) && origin in known
    requires forall p, q :: p in known && DependsOn(w, origin, p, q) ==> q in known
    ensures path[|path| - 1] in known
  {
    if |path| > 1 {
      ClosedSetCoversChain(w, origin, known, path[..|path| - 1]);
      assert DependsOn(w, origin, path[|path| - 2], path[|path| - 1]);
    }
  }

  // ----- the graph as built -----

  /** The edge list deps says exactly what expected says, with targets as indexes into packages. */
  ghost predicate Describes(packages: seq<PackageNode>, deps: seq<DependencyEdge>, expected: seq<LogicalEdge>) {
    && |deps| == |expected|
    && forall k :: 0 <= k < |deps| ==> DescribesEdge(packages, deps[k], expected[k])
  }

  ghost predicate DescribesEdge(packages: seq<PackageNode>, d: DependencyEdge, x: LogicalEdge) {
    && d.alias == x.alias && d.source == x.source && d.requestedVersion == x.requestedVersion
    && d.sourceReference == x.sourceReference && d.scope == x.scope
    && (d.target.None? <==> x.target.None?)
    && (d.target.Some? ==> d.target.value < |packages| && packages[d.target.value].root == x.target.value)
  }

  /** Nodes are only appended, and keep everything but their edge lists. */
  ghost predicate Extends(before: seq<PackageNode>, after: seq<PackageNode>) {
    && |before| <= |after|
    && forall i :: 0 <= i < |before| ==> after[i].(dependencies := before[i].dependencies) == before[i]
  }

  /** Exactly one node per reachable package, each carrying exactly its declared edges. */
  ghost predicate ExactGraph(w: World, origin: CanonicalPath, graph: DependencyGraph)
    requires w.WellFormed()
  {
    && graph.root < |graph.packages| && graph.packages[graph.root].root == origin
    && (forall i, j :: 0 <= i < j < |graph.packages| ==> graph.packages[i].root != graph.packages[j].root)
    && (forall p :: Reachable(w, origin, p) <==> exists i :: 0 <= i < |graph.packages| && graph.packages[i].root == p)
    && forall i :: 0 <= i < |graph.packages| ==> ExactNode(w, origin, graph.packages, graph.packages[i])
  }

  ghost predicate ExactNode(w: World, origin: CanonicalPath, packages: seq<PackageNode>, n: PackageNode)
    requires w.WellFormed()
  {
    && n.root in w.manifests
    && n.name == w.manifests[n.root].name && n.version == w.manifests[n.root].version
    && Describes(packages, n.dependencies, Declared(w, origin, n.root))
    && Sourced(w, origin, n)
  }

  /** Entry e is one of the declarations of p that the resolver looks at under scope. */
  ghost predicate Applicable(w: World, origin: CanonicalPath, p: CanonicalPath, e: Entry, scope: DependencyScope) {
    && p in w.manifests
    && (scope.Runtime? ==> e in Entries(w.manifests[p].dependencies))
    && (scope.Development? ==> p == origin && e in Entries(w.manifests[p].devDependencies))
  }

  lemma {:induction false} EntryEdgesInTable(w: World, p: CanonicalPath, entries: seq<Entry>, e: Entry,
                                             scope: DependencyScope, x: LogicalEdge)
    requires w.WellFormed() && e in entries && x in EdgesOfEntry(w, p, e, scope)
    ensures x in EdgesOfTable(w, p, entries, scope)
  {
    var n := |entries| - 1;
    assert entries == entries[..n] + [entries[n]];
    if e in entries[..n] {
      EntryEdgesInTable(w, p, entries[..n], e, scope, x);
    }
  }

  lemma TargetIsReachable(w: World, origin: CanonicalPath, p: CanonicalPath, e: Entry, scope: DependencyScope)
    requires w.WellFormed() && Reachable(w, origin, p) && Applicable(w, origin, p, e, scope)
    ensures LookUp(w, p, e).Found? || LookUp(w, p, e).Mismatched? ==> Reachable(w, origin, LookUp(w, p, e).root)
  {
    var r := LookUp(w, p, e);
    if r.Found? || r.Mismatched? {
      var x := EdgesOfEntry(w, p, e, scope)[0];
      EntryEdgesInTable(w, p,
                        if scope.Runtime? then Entries(w.manifests[p].dependencies)
                          else Entries(w.manifests[p].devDependencies), e, scope, x);
      assert x in Declared(w, origin, p);
      StepIsReachable(w, origin, p, r.root);
    }
  }

  lemma FaultBreaksSoundness(w: World, origin: CanonicalPath, p: CanonicalPath, e: Entry, scope: DependencyScope)
    requires w.WellFormed() && Reachable(w, origin, p) && Applicable(w, origin, p, e, scope) && Faulty(w, p, e)
    ensures !Sound(w, origin)
  {
    assert !FaultFree(w, origin, p);
  }

  /** The answer the resolver has to reproduce: which packages exist, the edges each must carry,
      which have no faulty declaration, and whether an error-free run is possible. */
  datatype Answer = Answer(
    reachable: iset<CanonicalPath>,
    edges: CanonicalPath -> seq<LogicalEdge>,
    clean: iset<CanonicalPath>,
    sound: bool)

  ghost function AnswerFor(w: World, origin: CanonicalPath): (a: Answer)
    requires w.WellFormed()
  {
    Answer(
      (iset p | Reachable(w, origin, p)),
      p => if p in w.manifests then Declared(w, origin, p) else [],
      (iset p | p in w.manifests && FaultFree(w, origin, p)),
      Sound(w, origin))
  }

  /** What the walk uses of the answer, as two closure rules. */
  ghost predicate Lawful(w: World, origin: CanonicalPath, a: Answer) {
    && w.WellFormed()
    && (forall p {:trigger Declared(w, origin, p)} :: p in w.manifests ==>
          && a.edges(p) == Declared(w, origin, p)
          && (p in a.clean <==> FaultFree(w, origin, p)))
    && (forall p, e, scope {:trigger Applicable(w, origin, p, e, scope)} ::
          p in a.reachable && Applicable(w, origin, p, e, scope) ==>
            && (TargetOf(LookUp(w, p, e)).Some? ==> TargetOf(LookUp(w, p, e)).value in a.reachable)
            && (Faulty(w, p, e) ==> !a.sound))
  }

  lemma AnswerIsLawful(w: World, origin: CanonicalPath)
    requires w.WellFormed()
    ensures Lawful(w, origin, AnswerFor(w, origin))
  {
    var a := AnswerFor(w, origin);
    forall p, e, scope | p in a.reachable && Applicable(w, origin, p, e, scope)
      ensures TargetOf(LookUp(w, p, e)).Some? ==> TargetOf(LookUp(w, p, e)).value in a.reachable
      ensures Faulty(w, p, e) ==> !a.sound
    {
      TargetIsReachable(w, origin, p, e, scope);
      if Faulty(w, p, e) {
        FaultBreaksSoundness(w, origin, p, e, scope);
      }
    }
  }

  /** Some edges were appended to an edge list, and they describe expected. */
  ghost predicate Appended(packages: seq<PackageNode>, before: seq<DependencyEdge>, after: seq<DependencyEdge>,
                           expected: seq<LogicalEdge>) {
    before <= after && Describes(packages, after[|before|..], expected)
  }

  ghost predicate Grew(before: seq<PackageNode>, after: seq<PackageNode>, frozen: set<CanonicalPath>) {
    && Extends(before, after)
    && forall i :: 0 <= i < |before| && before[i].root in frozen ==> after[i].dependencies == before[i].dependencies
  }

  lemma NothingAppended(packages: seq<PackageNode>, deps: seq<DependencyEdge>)
    ensures Appended(packages, deps, deps, [])
  {
  }

  lemma AppendedTwice(p0: seq<PackageNode>, p1: seq<PackageNode>, a: seq<DependencyEdge>, b: seq<DependencyEdge>,
                      c: seq<DependencyEdge>, x: seq<LogicalEdge>, y: seq<LogicalEdge>)
    requires Extends(p0, p1) && Appended(p0, a, b, x) && Appended(p1, b, c, y)
    ensures Appended(p1, a, c, x + y)
  {
    assert c[|a|..] == b[|a|..] + c[|b|..];
  }

  /** Node n carries all its edges and none of its declarations is faulty. */
  ghost predicate Completed(a: Answer, packages: seq<PackageNode>, n: PackageNode) {
    Describes(packages, n.dependencies, a.edges(n.root)) && n.root in a.clean
  }

  /** Every node outside pending is finished. */
  ghost predicate CompletedExcept(a: Answer, packages: seq<PackageNode>, pending: set<CanonicalPath>) {
    forall i :: 0 <= i < |packages| && packages[i].root !in pending ==> Completed(a, packages, packages[i])
  }

  lemma CompletedGrows(a: Answer, before: seq<PackageNode>, after: seq<PackageNode>, pending: set<CanonicalPath>)
    requires CompletedExcept(a, before, pending) && Extends(before, after)
    requires forall i :: 0 <= i < |before| && before[i].root !in pending ==>
      after[i].dependencies == before[i].dependencies
    requires forall i :: |before| <= i < |after| ==> after[i].root in pending
    ensures CompletedExcept(a, after, pending)
  {
    forall i | 0 <= i < |after| && after[i].root !in pending
      ensures Completed(a, after, after[i])
    {
      assert Completed(a, before, before[i]);
    }
  }

  // ----- the resolver's state as a value, and what one piece of work does to it -----

  datatype State = State(
    packages: seq<PackageNode>,
    packageIndexes: map<CanonicalPath, nat>,
    activePackages: set<CanonicalPath>,
    errors: seq<ResolutionError>,
    entered: set<CanonicalPath>)

  function WithNode(w: World, s: State, p: CanonicalPath, source: DependencySource): (r: State)
    requires p in w.manifests
    ensures p in r.packageIndexes
  {
    if p in s.packageIndexes then s else
      s.(packageIndexes := s.packageIndexes[p := |s.packages|],
         packages := s.packages + [PackageNode(w.manifests[p].name, w.manifests[p].version, p, source, "", "", [], [])])
  }

  function WithEdge(s: State, index: nat, edge: DependencyEdge): (r: State)
    requires index < |s.packages|
    ensures |r.packages| == |s.packages|
  {
    s.(packages := s.packages[index := s.packages[index].(dependencies := s.packages[index].dependencies + [edge])])
  }

  /** The index map and the node list are inverse to each other. */
  ghost predicate Indexed(s: State) {
    && (forall p :: p in s.packageIndexes ==>
          s.packageIndexes[p] < |s.packages| && s.packages[s.packageIndexes[p]].root == p)
    && (forall i :: 0 <= i < |s.packages| ==>
          s.packages[i].root in s.packageIndexes && s.packageIndexes[s.packages[i].root] == i)
  }

  ghost predicate Named(w: World, n: PackageNode) {
    && n.root in w.manifests && n.name == w.manifests[n.root].name && n.version == w.manifests[n.root].version
    && n.sourceReference == "" && n.resolvedCommit == "" && n.artifacts == []
  }

  ghost predicate Valid(w: World, a: Answer, s: State) {
    && Indexed(s)
    && s.activePackages <= s.packageIndexes.Keys <= w.manifests.Keys
    && (forall p :: p in s.packageIndexes ==> p in a.reachable)
    && (forall i :: 0 <= i < |s.packages| ==> Named(w, s.packages[i]))
    && (a.sound ==> s.errors == [])
  }

  /** As long as no error is reported, every known package outside pending is finished. */
  ghost predicate Finished(a: Answer, s: State, pending: set<CanonicalPath>) {
    s.errors == [] ==> CompletedExcept(a, s.packages, pending)
  }

  ghost predicate Ready(w: World, a: Answer, s: State) {
    Valid(w, a, s) && Finished(a, s, s.activePackages)
  }

  /** From s0 to s1 the active package p gained exactly the edges xs; an error-free run saw no fault. */
  ghost predicate Gained(p: CanonicalPath, xs: seq<LogicalEdge>, fault: bool, s0: State, s1: State) {
    && p in s0.packageIndexes && p in s1.packageIndexes && s1.packageIndexes[p] == s0.packageIndexes[p]
    && s0.packageIndexes[p] < |s0.packages| && s1.packageIndexes[p] < |s1.packages|
    && s1.activePackages == s0.activePackages
    && Grew(s0.packages, s1.packages, s0.activePackages - {p})
    && Appended(s1.packages, s0.packages[s0.packageIndexes[p]].dependencies,
         s1.packages[s0.packageIndexes[p]].dependencies, xs)
    && s0.errors <= s1.errors
    && (s1.errors == [] ==> !fault)
  }

  /** From s0 to s1 a whole package was resolved; no active package was touched. */
  ghost predicate Resolved(p: CanonicalPath, s0: State, s1: State) {
    && p in s1.packageIndexes
    && s1.activePackages == s0.activePackages
    && Grew(s0.packages, s1.packages, s0.activePackages)
    && s0.errors <= s1.errors
  }

  lemma GainedNothing(w: World, a: Answer, s: State, p: CanonicalPath)
    requires Valid(w, a, s) && p in s.packageIndexes
    ensures Gained(p, [], false, s, s)
  {
  }

  lemma GainedTwice(p: CanonicalPath, x: seq<LogicalEdge>, f: bool, y: seq<LogicalEdge>, g: bool, s0: State,
                    s1: State, s2: State)
    requires Gained(p, x, f, s0, s1) && Gained(p, y, g, s1, s2)
    ensures Gained(p, x + y, f || g, s0, s2)
  {
    var i := s0.packageIndexes[p];
    AppendedTwice(s1.packages, s2.packages, s0.packages[i].dependencies, s1.packages[i].dependencies,
                  s2.packages[i].dependencies, x, y);
  }

  lemma NodeKeepsValid(w: World, a: Answer, s: State, p: CanonicalPath, source: DependencySource,
                       pending: set<CanonicalPath>)
    requires Valid(w, a, s) && Finished(a, s, pending) && p in w.manifests && p in a.reachable
    ensures var t := WithNode(w, s, p, source);
            && Valid(w, a, t) && Extends(s.packages, t.packages) && t.packageIndexes[p] < |t.packages|
            && (p in s.packageIndexes ==> t == s)
            && (p !in s.packageIndexes ==> t.packages[t.packageIndexes[p]].dependencies == [])
            && Finished(a, t, pending + {p})
  {
    var t := WithNode(w, s, p, source);
    if s.errors == [] {
      assert CompletedExcept(a, s.packages, pending + {p});
      CompletedGrows(a, s.packages, t.packages, pending + {p});
    }
  }

  lemma EdgeKeepsValid(w: World, a: Answer, s: State, p: CanonicalPath, edge: DependencyEdge, x: LogicalEdge,
                       pending: set<CanonicalPath>)
    requires Valid(w, a, s) && Finished(a, s, pending) && p in s.activePackages && p in pending
    requires DescribesEdge(s.packages, edge, x)
    ensures var t := WithEdge(s, s.packageIndexes[p], edge);
            Valid(w, a, t) && Finished(a, t, pending) && Gained(p, [x], false, s, t)
  {
    var t := WithEdge(s, s.packageIndexes[p], edge);
    assert Indexed(t);
    if s.errors == [] {
      CompletedGrows(a, s.packages, t.packages, pending);
    }
  }

  /** Naming package q in an edge of p, with q's node added first when it is new. */
  lemma ResolvedEdge(w: World, a: Answer, s: State, p: CanonicalPath, q: CanonicalPath, edge: DependencyEdge,
                     x: LogicalEdge)
    requires Ready(w, a, s) && p in s.activePackages && q in w.manifests && q in a.reachable
    requires DescribesEdge(s.packages, edge, x.(target := None)) && x.target == Some(q)
    ensures var s1 := WithNode(w, s, q, edge.source);
            && p in s1.packageIndexes && s1.packageIndexes[p] < |s1.packages|
            && var s2 := WithEdge(s1, s1.packageIndexes[p], edge.(target := Some(s1.packageIndexes[q])));
            && Valid(w, a, s2) && Finished(a, s2, s.activePackages + {q}) && Gained(p, [x], false, s, s2)
            && q in s2.packageIndexes && s2.packageIndexes[q] < |s2.packages|
            && (s2.packages[s2.packageIndexes[q]].dependencies != [] || q in s.activePackages ==> Ready(w, a, s2))
  {
    var s1 := WithNode(w, s, q, edge.source);
    NodeKeepsValid(w, a, s, q, edge.source, s.activePackages);
    var linked := edge.(target := Some(s1.packageIndexes[q]));
    EdgeKeepsValid(w, a, s1, p, linked, x, s.activePackages + {q});
    if q in s.packageIndexes {
      EdgeKeepsValid(w, a, s1, p, linked, x, s.activePackages);
    }
    var s2 := WithEdge(s1, s1.packageIndexes[p], linked);
    GrownFirst(p, [x], s, s1, s2);
  }

  lemma GrownFirst(p: CanonicalPath, x: seq<LogicalEdge>, s: State, s1: State, s2: State)
    requires Gained(p, x, false, s1, s2) && Extends(s.packages, s1.packages)
    requires p in s.packageIndexes && s.packageIndexes[p] == s1.packageIndexes[p] && s.packageIndexes[p] < |s.packages|
    requires s.activePackages == s1.activePackages && s.errors == s1.errors
    requires forall i :: 0 <= i < |s.packages| ==> s1.packages[i].dependencies == s.packages[i].dependencies
    ensures Gained(p, x, false, s, s2)
  {
  }

  /** Resolving another package leaves the edges of the active package p alone. */
  lemma ResolvedInside(w: World, a: Answer, p: CanonicalPath, q: CanonicalPath, s0: State, s1: State)
    requires Valid(w, a, s0) && Valid(w, a, s1) && p in s0.activePackages && Resolved(q, s0, s1)
    ensures Gained(p, [], false, s0, s1)
  {
    var i := s0.packageIndexes[p];
    assert s1.packages[i].root == p;
    NothingAppended(s1.packages, s0.packages[i].dependencies);
  }

  lemma ErrorKeepsReady(w: World, a: Answer, s: State, p: CanonicalPath, error: ResolutionError)
    requires Valid(w, a, s) && !a.sound && p in s.packageIndexes
    ensures Ready(w, a, s.(errors := s.errors + [error])) && Gained(p, [], true, s, s.(errors := s.errors + [error]))
  {
    NothingAppended(s.packages, s.packages[s.packageIndexes[p]].dependencies);
  }

  /** From s0 to s1 package p was made active, its node has no edges, and nothing else changed. */
  ghost predicate Activated(p: CanonicalPath, s0: State, s1: State) {
    && p !in s0.activePackages && s1.activePackages == s0.activePackages + {p}
    && p in s1.packageIndexes && s1.packageIndexes[p] < |s1.packages| &&
         s1.packages[s1.packageIndexes[p]].dependencies == []
    && Extends(s0.packages, s1.packages) && s0.errors == s1.errors
    && forall i :: 0 <= i < |s0.packages| ==> s1.packages[i].dependencies == s0.packages[i].dependencies
  }

  lemma Activate(w: World, a: Answer, p: CanonicalPath, source: DependencySource, s0: State)
    requires Valid(w, a, s0) && Finished(a, s0, s0.activePackages + {p}) && p in w.manifests && p in a.reachable
    requires p !in s0.activePackages
    requires p in s0.packageIndexes ==> s0.packages[s0.packageIndexes[p]].dependencies == []
    ensures var s1 := WithNode(w, s0, p, source).(activePackages := s0.activePackages + {p},
                                                  entered := s0.entered + {p});
            Ready(w, a, s1) && Activated(p, s0, s1) && p in s1.packageIndexes && s1.packageIndexes[p] < |s1.packages|
            && (s0.packages == [] ==> s1.packages[0].root == p)
  {
    NodeKeepsValid(w, a, s0, p, source, s0.activePackages + {p});
    assert s0.activePackages + {p} + {p} == s0.activePackages + {p};
  }

  /** An activated package that has gained all it declares can be retired. */
  lemma Retire(w: World, origin: CanonicalPath, a: Answer, p: CanonicalPath, s0: State, s1: State, s2: State)
    requires Lawful(w, origin, a) && p in w.manifests && Activated(p, s0, s1)
    requires Ready(w, a, s2) && Gained(p, Declared(w, origin, p), !FaultFree(w, origin, p), s1, s2)
    ensures Ready(w, a, s2.(activePackages := s2.activePackages - {p}))
    ensures Resolved(p, s0, s2.(activePackages := s2.activePackages - {p}))
    ensures |s1.packages| <= |s2.packages| && (|s1.packages| > 0 ==> s2.packages[0].root == s1.packages[0].root)
  {
    var s3 := s2.(activePackages := s2.activePackages - {p});
    assert s3.activePackages == s0.activePackages;
    if s2.errors == [] {
      var deps := s2.packages[s2.packageIndexes[p]].dependencies;
      assert deps[0..] == deps;
      assert Completed(a, s2.packages, s2.packages[s2.packageIndexes[p]]);
      assert CompletedExcept(a, s2.packages, s3.activePackages);
    }
  }

  lemma NoTables(w: World, origin: CanonicalPath, p: CanonicalPath)
    requires w.WellFormed() && p in w.manifests && w.manifests[p].dependencies.None?
    requires p == origin ==> w.manifests[p].devDependencies.None?
    ensures Declared(w, origin, p) == [] && FaultFree(w, origin, p)
  {
  }

  /** The edge pushed for a well-formed declaration, before its target is known. */
  function EdgeWithoutTarget(e: Entry, scope: DependencyScope): (d: DependencyEdge)
    requires !e.declaration.Malformed?
    ensures d.source == SourceOf(e.declaration) && d.target.None?
  {
    match e.declaration
    case PathDeclaration(path, version) => DependencyEdge(e.alias, DependencySource.Path, version, path, None, scope)
    case GitDeclaration(url, version) => DependencyEdge(e.alias, Git, version, url, None, scope)
    case StandardDeclaration(version) => DependencyEdge(e.alias, StandardLibrary, version, "", None, scope)
  }

  lemma DeclarationShape(w: World, origin: CanonicalPath, a: Answer, p: CanonicalPath, e: Entry,
                         scope: DependencyScope, packages: seq<PackageNode>) returns (x: LogicalEdge)
    requires Lawful(w, origin, a) && p in a.reachable && Applicable(w, origin, p, e, scope) && !e.declaration.Malformed?
    ensures EdgesOfEntry(w, p, e, scope) == [x]
    ensures var r := LookUp(w, p, e);
            && DescribesEdge(packages, EdgeWithoutTarget(e, scope), x.(target := None))
            && x.target == TargetOf(r)
            && (r.Found? || r.Mismatched? ==> r.root in w.manifests && r.root in a.reachable)
            && (r.Missing? || r.Mismatched? ==> !a.sound)
            && (Faulty(w, p, e) <==> r.Missing? || r.Mismatched?)
  {
    x := EdgesOfEntry(w, p, e, scope)[0];
    var r := LookUp(w, p, e);
    assert Faulty(w, p, e) <==> r.Missing? || r.Mismatched?;
    assert Applicable(w, origin, p, e, scope);
  }

  // ----- what is reported -----

  ghost predicate Leads(w: World, origin: CanonicalPath, p: CanonicalPath, q: CanonicalPath)
    requires w.WellFormed()
  {
    exists e, scope :: Applicable(w, origin, p, e, scope) && LookUp(w, p, e) == Found(q)
  }

  ghost predicate Trail(w: World, origin: CanonicalPath, path: seq<CanonicalPath>)
    requires w.WellFormed()
  {
    && |path| > 0 && path[0] == origin
    && forall i :: 0 < i < |path| ==> Leads(w, origin, path[i - 1], path[i])
  }

  /** The walk enters package p: declarations that resolve without an error lead there. A package of
      the wrong version is linked and not entered. */
  ghost predicate Entered(w: World, origin: CanonicalPath, p: CanonicalPath)
    requires w.WellFormed()
  {
    exists path :: Trail(w, origin, path) && path[|path| - 1] == p
  }

  function ErrorOf(r: Lookup): (x: Option<ResolutionError>) {
    if r.Missing? || r.Mismatched? then Some(r.error) else None
  }

  /** x is the error of a declaration of a package that is entered. */
  ghost predicate Reported(w: World, origin: CanonicalPath, x: ResolutionError)
    requires w.WellFormed()
  {
    exists p, e, scope :: Blames(w, origin, p, e, scope, x)
  }

  ghost predicate Blames(w: World, origin: CanonicalPath, p: CanonicalPath, e: Entry, scope: DependencyScope,
                         x: ResolutionError)
    requires w.WellFormed()
  {
    Entered(w, origin, p) && Applicable(w, origin, p, e, scope) && ErrorOf(LookUp(w, p, e)) == Some(x)
  }

  lemma OriginIsEntered(w: World, origin: CanonicalPath)
    requires w.WellFormed()
    ensures Entered(w, origin, origin)
  {
    assert Trail(w, origin, [origin]);
  }

  lemma FoundIsEntered(w: World, origin: CanonicalPath, p: CanonicalPath, e: Entry, scope: DependencyScope)
    requires w.WellFormed() && Entered(w, origin, p) && Applicable(w, origin, p, e, scope) && LookUp(w, p, e).Found?
    ensures Entered(w, origin, LookUp(w, p, e).root)
  {
    hide LookUp, Applicable;
    var q := LookUp(w, p, e).root;
    var path :| Trail(w, origin, path) && path[|path| - 1] == p;
    assert Leads(w, origin, p, q);
    assert Trail(w, origin, path + [q]);
  }

  /** What declaration e of p leads to has been entered, or its error has been reported. */
  ghost predicate Handled(w: World, s: State, p: CanonicalPath, e: Entry)
    requires w.WellFormed()
  {
    match LookUp(w, p, e)
    case Found(q) => q in s.entered
    case Mismatched(_, x) => x in s.errors
    case Missing(x) => x in s.errors
    case Unresolved => true
  }

  ghost predicate TableHandled(w: World, s: State, p: CanonicalPath, entries: seq<Entry>)
    requires w.WellFormed()
  {
    forall k :: 0 <= k < |entries| ==> Handled(w, s, p, entries[k])
  }

  ghost predicate HasEdges(s: State, p: CanonicalPath) {
    p in s.packageIndexes && s.packageIndexes[p] < |s.packages| && s.packages[s.packageIndexes[p]].dependencies != []
  }

  /** All declarations of p are handled, and p has edges unless it declares none. */
  ghost predicate PackageHandled(w: World, origin: CanonicalPath, s: State, p: CanonicalPath)
    requires w.WellFormed()
  {
    && p in w.manifests && (HasEdges(s, p) || Declared(w, origin, p) == [])
    && TableHandled(w, s, p, Entries(w.manifests[p].dependencies))
    && (p == origin ==> TableHandled(w, s, p, Entries(w.manifests[p].devDependencies)))
  }

  /** Only entered packages have edges or are active, all others that were entered are handled, and
      every error belongs to a declaration of an entered package. */
  ghost predicate Reporting(w: World, origin: CanonicalPath, s: State)
    requires w.WellFormed()
  {
    && s.activePackages <= s.entered
    && (forall i :: 0 <= i < |s.packages| && s.packages[i].dependencies != [] ==> s.packages[i].root in s.entered)
    && (forall p :: p in s.entered ==> Entered(w, origin, p))
    && (forall x :: x in s.errors ==> Reported(w, origin, x))
    && (forall p :: p in s.entered && p !in s.activePackages ==> PackageHandled(w, origin, s, p))
  }

  /** Nothing entered, linked or reported is ever taken back. */
  ghost predicate Onward(s: State, t: State) {
    && s.entered <= t.entered && (forall x :: x in s.errors ==> x in t.errors)
    && forall p :: HasEdges(s, p) ==> HasEdges(t, p)
  }

  lemma HandledStays(w: World, s: State, t: State, p: CanonicalPath, e: Entry)
    requires w.WellFormed() && Handled(w, s, p, e) && Onward(s, t)
    ensures Handled(w, t, p, e)
  {
    hide LookUp;
  }

  lemma TableStays(w: World, s: State, t: State, p: CanonicalPath, entries: seq<Entry>)
    requires w.WellFormed() && TableHandled(w, s, p, entries) && Onward(s, t)
    ensures TableHandled(w, t, p, entries)
  {
    hide Handled;
    forall k | 0 <= k < |entries| ensures Handled(w, t, p, entries[k]) {
      HandledStays(w, s, t, p, entries[k]);
    }
  }

  lemma PackageStays(w: World, origin: CanonicalPath, s: State, t: State, p: CanonicalPath)
    requires w.WellFormed() && PackageHandled(w, origin, s, p) && Onward(s, t)
    ensures PackageHandled(w, origin, t, p)
  {
    assert HasEdges(s, p) ==> HasEdges(t, p);
    hide TableHandled, Onward, HasEdges, Declared;
    TableStays(w, s, t, p, Entries(w.manifests[p].dependencies));
    if p == origin {
      TableStays(w, s, t, p, Entries(w.manifests[p].devDependencies));
    }
  }

  /** What the step from s to t has to show for the reports to stay right. */
  lemma ReportingStays(w: World, origin: CanonicalPath, s: State, t: State)
    requires w.WellFormed() && Reporting(w, origin, s) && Onward(s, t) && t.activePackages <= t.entered
    requires forall i :: 0 <= i < |t.packages| && t.packages[i].dependencies != [] ==> t.packages[i].root in t.entered
    requires forall p :: p in t.entered ==> p in s.entered || Entered(w, origin, p)
    requires forall x :: x in t.errors ==> x in s.errors || Reported(w, origin, x)
    requires forall p :: p in t.entered && p !in t.activePackages ==>
      (p in s.entered && p !in s.activePackages) || PackageHandled(w, origin, t, p)
    ensures Reporting(w, origin, t)
  {
    hide PackageHandled, Entered, Reported, Onward;
    forall p | p in t.entered && p !in t.activePackages ensures PackageHandled(w, origin, t, p) {
      if p in s.entered && p !in s.activePackages {
        PackageStays(w, origin, s, t, p);
      }
    }
  }

  lemma ReportNode(w: World, origin: CanonicalPath, s: State, p: CanonicalPath, source: DependencySource)
    requires w.WellFormed() && Reporting(w, origin, s) && p in w.manifests
    ensures Reporting(w, origin, WithNode(w, s, p, source)) && Onward(s, WithNode(w, s, p, source))
  {
    hide PackageHandled, Entered, Reported;
    ReportingStays(w, origin, s, WithNode(w, s, p, source));
  }

  lemma ReportEdge(w: World, origin: CanonicalPath, s: State, index: nat, edge: DependencyEdge)
    requires w.WellFormed() && Reporting(w, origin, s) && index < |s.packages|
    requires s.packages[index].root in s.activePackages
    ensures Reporting(w, origin, WithEdge(s, index, edge)) && Onward(s, WithEdge(s, index, edge))
  {
    hide PackageHandled, Entered, Reported;
    ReportingStays(w, origin, s, WithEdge(s, index, edge));
  }

  lemma ReportError(w: World, origin: CanonicalPath, s: State, x: ResolutionError)
    requires w.WellFormed() && Reporting(w, origin, s) && Reported(w, origin, x)
    ensures var t := s.(errors := s.errors + [x]); Reporting(w, origin, t) && Onward(s, t) && x in t.errors
  {
    hide PackageHandled, Entered, Reported;
    ReportingStays(w, origin, s, s.(errors := s.errors + [x]));
  }

  /** The state with package p entered and active. */
  ghost function Opened(s: State, p: CanonicalPath): (t: State) {
    s.(activePackages := s.activePackages + {p}, entered := s.entered + {p})
  }

  lemma ReportEnter(w: World, origin: CanonicalPath, s: State, p: CanonicalPath)
    requires w.WellFormed() && Reporting(w, origin, s) && Entered(w, origin, p)
    ensures Reporting(w, origin, Opened(s, p)) && Onward(s, Opened(s, p))
  {
    hide PackageHandled, Entered, Reported;
    ReportingStays(w, origin, s, Opened(s, p));
  }

  lemma ReportLeave(w: World, origin: CanonicalPath, s: State, p: CanonicalPath)
    requires w.WellFormed() && Reporting(w, origin, s) && PackageHandled(w, origin, s, p)
    ensures var t := s.(activePackages := s.activePackages - {p}); Reporting(w, origin, t) && Onward(s, t)
  {
    hide Entered, Reported, TableHandled;
    var t := s.(activePackages := s.activePackages - {p});
    PackageStays(w, origin, s, t, p);
    ReportingStays(w, origin, s, t);
  }

  lemma {:induction false} EnteredIsClosed(w: World, origin: CanonicalPath, s: State, path: seq<CanonicalPath>)
    requires w.WellFormed() && Reporting(w, origin, s) && s.activePackages == {} && origin in s.entered
    requires Trail(w, origin, path)
    ensures path[|path| - 1] in s.entered
    decreases |path|
  {
    if |path| > 1 {
      EnteredIsClosed(w, origin, s, path[..|path| - 1]);
      var p, q := path[|path| - 2], path[|path| - 1];
      assert Leads(w, origin, p, q);
      var e: Entry, scope: DependencyScope :| Applicable(w, origin, p, e, scope) && LookUp(w, p, e) == Found(q);
      IsHandled(w, origin, s, p, e, scope);
    }
  }

  lemma IsHandled(w: World, origin: CanonicalPath, s: State, p: CanonicalPath, e: Entry, scope: DependencyScope)
    requires w.WellFormed() && PackageHandled(w, origin, s, p) && Applicable(w, origin, p, e, scope)
    ensures Handled(w, s, p, e)
  {
    hide Handled;
    var entries := Entries(if scope.Runtime? then w.manifests[p].dependencies else w.manifests[p].devDependencies);
    var k :| 0 <= k < |entries| && entries[k] == e;
  }

  /** At the end of the walk the errors are exactly those of the declarations of the entered packages. */
  lemma ErrorsAreReported(w: World, origin: CanonicalPath, s: State)
    requires w.WellFormed() && Reporting(w, origin, s) && s.activePackages == {} && origin in s.entered
    ensures forall x :: x in s.errors <==> Reported(w, origin, x)
  {
    forall x | Reported(w, origin, x) ensures x in s.errors {
      var p, e, scope :| Blames(w, origin, p, e, scope, x);
      var path :| Trail(w, origin, path) && path[|path| - 1] == p;
      EnteredIsClosed(w, origin, s, path);
      IsHandled(w, origin, s, p, e, scope);
      hide LookUp, PackageHandled, Entered, Trail, Applicable;
    }
  }

  lemma SeenIsEntered(w: World, origin: CanonicalPath, s: State)
    requires w.WellFormed() && Reporting(w, origin, s) && s.activePackages == {} && origin in s.entered
    ensures forall p :: p in s.entered <==> Entered(w, origin, p)
  {
    forall p | Entered(w, origin, p) ensures p in s.entered {
      var path :| Trail(w, origin, path) && path[|path| - 1] == p;
      EnteredIsClosed(w, origin, s, path);
    }
  }

  // ----- the walk as a function -----

  /** A package that a declaration resolves to, and the kind of that declaration. */
  datatype Link = Link(root: CanonicalPath, source: DependencySource)

  function SourceOf(d: Declaration): (r: DependencySource)
    requires !d.Malformed?
  {
    match d
    case PathDeclaration(_, _) => DependencySource.Path
    case GitDeclaration(_, _) => Git
    case StandardDeclaration(_) => StandardLibrary
  }

  /** What a depth-first walk reports, in order, which packages it has seen at the end, and what the
      declarations it met resolve to, in order. */
  datatype Walk = Walk(errors: seq<ResolutionError>, seen: set<CanonicalPath>, links: seq<Link>)

  ghost function Linking(link: Link, walk: Walk): (r: Walk)
    ensures r.seen == walk.seen
  {
    walk.(links := [link] + walk.links)
  }

  /** A package is walked unless it was seen before. */
  ghost function WalkFound(w: World, origin: CanonicalPath, q: CanonicalPath, seen: set<CanonicalPath>): (r: Walk)
    requires w.WellFormed() && q in w.manifests
    ensures seen <= r.seen
    decreases |w.manifests.Keys - seen|, 0, 0
  {
    if q in seen then Walk([], seen, [])
    else
      FewerLeft(w.manifests.Keys, seen, q);
      WalkPackage(w, origin, q, seen + {q})
  }

  /** A declaration reports its error, or leads to the walk of its package. */
  ghost function WalkEntry(w: World, origin: CanonicalPath, p: CanonicalPath, e: Entry, seen: set<CanonicalPath>)
    : (r: Walk)
    requires w.WellFormed()
    ensures seen <= r.seen
    decreases |w.manifests.Keys - seen|, 1, 0
  {
    match LookUp(w, p, e)
    case Found(q) => Linking(Link(q, SourceOf(e.declaration)), WalkFound(w, origin, q, seen))
    case Mismatched(q, x) => Walk([x], seen, [Link(q, SourceOf(e.declaration))])
    case Missing(x) => Walk([x], seen, [])
    case Unresolved => Walk([], seen, [])
  }

  ghost function WalkTable(w: World, origin: CanonicalPath, p: CanonicalPath, entries: seq<Entry>,
                           seen: set<CanonicalPath>): (r: Walk)
    requires w.WellFormed()
    ensures seen <= r.seen
    decreases |w.manifests.Keys - seen|, 2, |entries|
  {
    if entries == [] then Walk([], seen, [])
    else
      var n := |entries| - 1;
      var first := WalkTable(w, origin, p, entries[..n], seen);
      NoMoreLeft(w.manifests.Keys, seen, first.seen);
      Then(first, WalkEntry(w, origin, p, entries[n], first.seen))
  }

  ghost function Then(first: Walk, last: Walk): (r: Walk)
    ensures r.seen == last.seen
  {
    Walk(first.errors + last.errors, last.seen, first.links + last.links)
  }

  /** Runtime declarations first, and for the root its development ones after them. */
  ghost function WalkPackage(w: World, origin: CanonicalPath, p: CanonicalPath, seen: set<CanonicalPath>): (r: Walk)
    requires w.WellFormed() && p in w.manifests
    ensures seen <= r.seen
    decreases |w.manifests.Keys - seen|, 3, 0
  {
    var runtime := WalkTable(w, origin, p, Entries(w.manifests[p].dependencies), seen);
    NoMoreLeft(w.manifests.Keys, seen, runtime.seen);
    if p != origin then runtime
    else Then(runtime, WalkTable(w, origin, p, Entries(w.manifests[p].devDependencies), runtime.seen))
  }

  lemma FewerLeft(all: set<CanonicalPath>, seen: set<CanonicalPath>, q: CanonicalPath)
    requires q in all && q !in seen
    ensures |all - (seen + {q})| < |all - seen|
  {
    assert all - (seen + {q}) == (all - seen) - {q};
  }

  lemma NoMoreLeft(all: set<CanonicalPath>, seen: set<CanonicalPath>, more: set<CanonicalPath>)
    requires seen <= more
    ensures |all - more| <= |all - seen|
  {
    SubsetSize(all - more, all - seen);
  }

  lemma {:induction false} SubsetSize(a: set<CanonicalPath>, b: set<CanonicalPath>)
    requires a <= b
    ensures |a| <= |b|
    decreases a
  {
    if a != {} {
      var x :| x in a;
      SubsetSize(a - {x}, b - {x});
    }
  }

  // ----- where the packages come from -----

  ghost function Sources(packages: seq<PackageNode>): (r: seq<Link>) {
    seq(|packages|, i requires 0 <= i < |packages| => Link(packages[i].root, packages[i].source))
  }

  ghost predicate Names(links: seq<Link>, p: CanonicalPath) {
    exists i :: 0 <= i < |links| && links[i].root == p
  }

  /** Each link whose package is not there yet is put at the end. */
  ghost function Placed(base: seq<Link>, links: seq<Link>): (r: seq<Link>)
    decreases |links|
  {
    if links == [] then base
    else
      var n := |links| - 1;
      var before := Placed(base, links[..n]);
      if Names(before, links[n].root) then before else before + [links[n]]
  }

  lemma {:induction false} PlacedTwice(base: seq<Link>, a: seq<Link>, b: seq<Link>)
    ensures Placed(base, a + b) == Placed(Placed(base, a), b)
    decreases |b|
  {
    hide Names;
    if b == [] {
      assert a + b == a;
    } else {
      assert (a + b)[..|a + b| - 1] == a + b[..|b| - 1];
      PlacedTwice(base, a, b[..|b| - 1]);
    }
  }

  lemma PlacedOne(base: seq<Link>, link: Link)
    ensures Placed(base, [link]) == if Names(base, link.root) then base else base + [link]
    ensures Names(Placed(base, [link]), link.root)
  {
    assert [link][..0] == [];
    assert Placed(base, [link][..0]) == base;
    assert (base + [link])[|base|].root == link.root;
  }

  /** Placing a link a second time changes nothing. */
  lemma PlacedAgain(base: seq<Link>, link: Link, links: seq<Link>)
    ensures Placed(Placed(base, [link]), [link] + links) == Placed(base, [link] + links)
  {
    hide Names;
    PlacedOne(base, link);
    PlacedOne(Placed(base, [link]), link);
    PlacedTwice(base, [link], links);
    PlacedTwice(Placed(base, [link]), [link], links);
  }

  /** The link is in the list, and no link before it has the same package. */
  ghost predicate IsFirst(links: seq<Link>, link: Link) {
    exists k :: 0 <= k < |links| && links[k] == link && forall j :: 0 <= j < k ==> links[j].root != link.root
  }

  lemma FirstStays(links: seq<Link>, more: seq<Link>, link: Link)
    requires IsFirst(links, link)
    ensures IsFirst(links + more, link)
  {
    var k :| 0 <= k < |links| && links[k] == link && forall j :: 0 <= j < k ==> links[j].root != link.root;
    assert (links + more)[k] == link && forall j :: 0 <= j < k ==> (links + more)[j] == links[j];
  }

  lemma NewIsFirst(links: seq<Link>, placed: seq<Link>, link: Link)
    requires (forall k :: 0 <= k < |links| ==> Names(placed, links[k].root)) && !Names(placed, link.root)
    ensures IsFirst(links + [link], link)
  {
    assert (links + [link])[|links|] == link;
    forall j | 0 <= j < |links| ensures (links + [link])[j].root != link.root {
      assert Names(placed, links[j].root);
    }
  }

  lemma NamesMore(links: seq<Link>, link: Link, p: CanonicalPath)
    ensures Names(links, p) ==> Names(links + [link], p)
    ensures Names(links + [link], link.root)
  {
    if Names(links, p) {
      var i :| 0 <= i < |links| && links[i].root == p;
      assert (links + [link])[i] == links[i];
    }
    assert (links + [link])[|links|] == link;
  }

  /** What is placed into nothing are the first links to each package. */
  lemma {:induction false} PlacedAreFirst(links: seq<Link>)
    ensures forall i :: 0 <= i < |Placed([], links)| ==> IsFirst(links, Placed([], links)[i])
    ensures forall k :: 0 <= k < |links| ==> Names(Placed([], links), links[k].root)
    decreases |links|
  {
    hide IsFirst, Names;
    if links != [] {
      var n := |links| - 1;
      var init, last := links[..n], links[n];
      assert links == init + [last];
      PlacedAreFirst(init);
      var before := Placed([], init);
      forall i | 0 <= i < |before| ensures IsFirst(links, before[i]) {
        FirstStays(init, [last], before[i]);
      }
      if Names(before, last.root) {
        assert forall k :: 0 <= k < n ==> links[k] == init[k];
      } else {
        NewIsFirst(init, before, last);
        forall k | 0 <= k < |links| ensures Names(before + [last], links[k].root) {
          NamesMore(before, last, links[k].root);
          assert k < n ==> links[k] == init[k];
        }
      }
    }
  }

  /** The links of a whole resolution: the root, and then what the declarations of the walk resolve to. */
  ghost function AllLinks(w: World, origin: CanonicalPath): (r: seq<Link>)
    requires w.WellFormed() && origin in w.manifests
  {
    [Link(origin, Root)] + WalkPackage(w, origin, origin, {origin}).links
  }

  /** Some declaration of a reachable package is of this kind and resolves to q. */
  ghost predicate SourcedBy(w: World, origin: CanonicalPath, q: CanonicalPath, source: DependencySource)
    requires w.WellFormed()
  {
    exists p, e, scope :: Reachable(w, origin, p) && DeclaresAs(w, origin, p, e, scope, q, source)
  }

  ghost predicate DeclaresAs(w: World, origin: CanonicalPath, p: CanonicalPath, e: Entry, scope: DependencyScope,
                             q: CanonicalPath, source: DependencySource)
    requires w.WellFormed()
  {
    && Applicable(w, origin, p, e, scope) && TargetOf(LookUp(w, p, e)) == Some(q)
    && !e.declaration.Malformed? && source == SourceOf(e.declaration)
  }

  /** The source of a package: Root for the root and for no other; for every other package the kind of the
      first declaration, in the order of the walk, that resolves to it, which is one of a reachable package.
      Nothing is known yet of repositories and artifacts. */
  ghost predicate Sourced(w: World, origin: CanonicalPath, n: PackageNode)
    requires w.WellFormed()
  {
    && origin in w.manifests
    && IsFirst(AllLinks(w, origin), Link(n.root, n.source))
    && (if n.root == origin then n.source == Root else n.source != Root && SourcedBy(w, origin, n.root, n.source))
    && n.sourceReference == "" && n.resolvedCommit == "" && n.artifacts == []
  }

  /** Every link comes from a declaration of a reachable package. */
  ghost predicate AllSourced(w: World, origin: CanonicalPath, links: seq<Link>)
    requires w.WellFormed()
  {
    forall k :: 0 <= k < |links| ==> links[k].source != Root && SourcedBy(w, origin, links[k].root, links[k].source)
  }

  lemma AllSourcedBoth(w: World, origin: CanonicalPath, a: seq<Link>, b: seq<Link>)
    requires w.WellFormed() && AllSourced(w, origin, a) && AllSourced(w, origin, b)
    ensures AllSourced(w, origin, a + b)
  {
    hide SourcedBy;
  }

  lemma {:induction false} EntryLinks(w: World, origin: CanonicalPath, p: CanonicalPath, e: Entry,
                                      scope: DependencyScope, seen: set<CanonicalPath>)
    requires w.WellFormed() && Reachable(w, origin, p) && Applicable(w, origin, p, e, scope)
    ensures AllSourced(w, origin, WalkEntry(w, origin, p, e, seen).links)
    decreases |w.manifests.Keys - seen|, 1, 0
  {
    var r := LookUp(w, p, e);
    TargetIsReachable(w, origin, p, e, scope);
    if r.Found? || r.Mismatched? {
      var link := Link(r.root, SourceOf(e.declaration));
      assert DeclaresAs(w, origin, p, e, scope, link.root, link.source);
      hide Reachable, WalkPackage, LookUp, Applicable, DeclaresAs;
      assert AllSourced(w, origin, [link]);
      if r.Found? && r.root !in seen {
        FewerLeft(w.manifests.Keys, seen, r.root);
        PackageLinks(w, origin, r.root, seen + {r.root});
        AllSourcedBoth(w, origin, [link], WalkPackage(w, origin, r.root, seen + {r.root}).links);
      } else {
        assert [link] + [] == [link];
      }
    }
  }

  lemma {:induction false} TableLinks(w: World, origin: CanonicalPath, p: CanonicalPath, entries: seq<Entry>,
                                      scope: DependencyScope, seen: set<CanonicalPath>)
    requires w.WellFormed() && Reachable(w, origin, p)
    requires forall k :: 0 <= k < |entries| ==> Applicable(w, origin, p, entries[k], scope)
    ensures AllSourced(w, origin, WalkTable(w, origin, p, entries, seen).links)
    decreases |w.manifests.Keys - seen|, 2, |entries|
  {
    hide Reachable, WalkEntry, Applicable, SourcedBy;
    if entries != [] {
      var n := |entries| - 1;
      var first := WalkTable(w, origin, p, entries[..n], seen);
      NoMoreLeft(w.manifests.Keys, seen, first.seen);
      TableLinks(w, origin, p, entries[..n], scope, seen);
      EntryLinks(w, origin, p, entries[n], scope, first.seen);
      AllSourcedBoth(w, origin, first.links, WalkEntry(w, origin, p, entries[n], first.seen).links);
    }
  }

  lemma {:induction false} PackageLinks(w: World, origin: CanonicalPath, p: CanonicalPath, seen: set<CanonicalPath>)
    requires w.WellFormed() && p in w.manifests && Reachable(w, origin, p)
    ensures AllSourced(w, origin, WalkPackage(w, origin, p, seen).links)
    decreases |w.manifests.Keys - seen|, 3, 0
  {
    hide Reachable, WalkTable, SourcedBy;
    var runtime := WalkTable(w, origin, p, Entries(w.manifests[p].dependencies), seen);
    NoMoreLeft(w.manifests.Keys, seen, runtime.seen);
    TableLinks(w, origin, p, Entries(w.manifests[p].dependencies), Runtime, seen);
    if p == origin {
      TableLinks(w, origin, p, Entries(w.manifests[p].devDependencies), Development, runtime.seen);
      AllSourcedBoth(w, origin, runtime.links,
        WalkTable(w, origin, p, Entries(w.manifests[p].devDependencies), runtime.seen).links);
    }
  }

  /** Packages placed along the links of the resolution are sourced. */
  lemma PlacedAreSourced(w: World, origin: CanonicalPath, packages: seq<PackageNode>, i: nat)
    requires w.WellFormed() && origin in w.manifests && Sources(packages) == Placed([], AllLinks(w, origin))
    requires i < |packages| && Named(w, packages[i])
    ensures Sourced(w, origin, packages[i])
  {
    var links, n := AllLinks(w, origin), packages[i];
    OriginIsReachable(w, origin);
    PackageLinks(w, origin, origin, {origin});
    PlacedAreFirst(links);
    hide Reachable, WalkPackage, SourcedBy, Placed;
    assert Sources(packages)[i] == Link(n.root, n.source);
    var k :| 0 <= k < |links| && links[k] == Link(n.root, n.source) &&
      forall j :: 0 <= j < k ==> links[j].root != n.root;
    if k > 0 {
      assert links[0].root == origin;
      assert links[k] == WalkPackage(w, origin, origin, {origin}).links[k - 1];
    }
  }

  lemma NodePlaces(w: World, s: State, p: CanonicalPath, source: DependencySource)
    requires Indexed(s) && p in w.manifests
    ensures Sources(WithNode(w, s, p, source).packages) == Placed(Sources(s.packages), [Link(p, source)])
  {
    PlacedOne(Sources(s.packages), Link(p, source));
    if p in s.packageIndexes {
      assert Sources(s.packages)[s.packageIndexes[p]].root == p;
    }
  }

  lemma EdgePlaces(s: State, index: nat, edge: DependencyEdge)
    requires index < |s.packages|
    ensures Sources(WithEdge(s, index, edge).packages) == Sources(s.packages)
  {
  }

  /** Adding the node of q, unless it is there, and an edge. */
  lemma LinkPlaces(w: World, s: State, q: CanonicalPath, source: DependencySource, index: nat, edge: DependencyEdge)
    requires Indexed(s) && q in w.manifests && index < |WithNode(w, s, q, source).packages|
    ensures Sources(WithEdge(WithNode(w, s, q, source), index, edge).packages) ==
      Placed(Sources(s.packages), [Link(q, source)])
  {
    NodePlaces(w, s, q, source);
    EdgePlaces(WithNode(w, s, q, source), index, edge);
  }

  // ----- the resolver and the walk -----

  /** From s0 to s1 the resolver reported, entered and placed what the walk does. */
  ghost predicate Follows(s0: State, s1: State, walk: Walk) {
    && s1.errors == s0.errors + walk.errors && s1.entered == walk.seen
    && Sources(s1.packages) == Placed(Sources(s0.packages), walk.links)
  }

  lemma WalkEntryIs(w: World, origin: CanonicalPath, p: CanonicalPath, e: Entry, seen: set<CanonicalPath>)
    requires w.WellFormed()
    ensures var r, walk := LookUp(w, p, e), WalkEntry(w, origin, p, e, seen);
      && (r.Found? ==> walk == Linking(Link(r.root, SourceOf(e.declaration)), WalkFound(w, origin, r.root, seen)))
      && (r.Mismatched? ==> walk == Walk([r.error], seen, [Link(r.root, SourceOf(e.declaration))]))
      && (r.Missing? ==> walk == Walk([r.error], seen, []))
      && (r.Unresolved? || e.declaration.Malformed? ==> walk == Walk([], seen, []))
  {
  }

  /** Entering p and walking it, where p may have been entered before to no effect. */
  lemma FollowsFound(w: World, origin: CanonicalPath, p: CanonicalPath, source: DependencySource, s0: State,
                     s1: State, s2: State)
    requires w.WellFormed() && p in w.manifests && s1.errors == s0.errors && s1.entered == s0.entered + {p}
    requires p in s0.entered ==> WalkPackage(w, origin, p, s0.entered) == Walk([], s0.entered, [])
    requires Sources(s1.packages) == Placed(Sources(s0.packages), [Link(p, source)])
    requires Follows(s1, s2, WalkPackage(w, origin, p, s1.entered))
    ensures Follows(s0, s2, Linking(Link(p, source), WalkFound(w, origin, p, s0.entered)))
  {
    hide WalkPackage, Sources, Placed;
    assert p in s0.entered ==> s1.entered == s0.entered;
    PlacedTwice(Sources(s0.packages), [Link(p, source)], WalkPackage(w, origin, p, s1.entered).links);
  }

  /** Following a link to a package that was just placed. */
  lemma FollowsLink(link: Link, walk: Walk, s0: State, s1: State, s2: State)
    requires s1.errors == s0.errors && s1.entered == s0.entered
    requires Sources(s1.packages) == Placed(Sources(s0.packages), [link])
    requires Follows(s1, s2, Linking(link, walk))
    ensures Follows(s0, s2, Linking(link, walk))
  {
    hide Sources, Placed;
    PlacedAgain(Sources(s0.packages), link, walk.links);
  }

  /** A link to a package that was entered before is not followed. */
  lemma FollowsSeen(w: World, origin: CanonicalPath, link: Link, s0: State, s1: State)
    requires w.WellFormed() && link.root in w.manifests && link.root in s1.entered
    requires s1.errors == s0.errors && s1.entered == s0.entered
    requires Sources(s1.packages) == Placed(Sources(s0.packages), [link])
    ensures Follows(s0, s1, Linking(link, WalkFound(w, origin, link.root, s0.entered)))
  {
    hide Sources, Placed, WalkPackage;
    assert [link] + [] == [link];
  }

  /** A link that is not followed, with an error or none. */
  lemma FollowsPlaced(s0: State, s1: State, links: seq<Link>, x: seq<ResolutionError>)
    requires s1.errors == s0.errors + x && s1.entered == s0.entered
    requires Sources(s1.packages) == Placed(Sources(s0.packages), links)
    ensures Follows(s0, s1, Walk(x, s0.entered, links))
  {
  }

  lemma FollowsStill(s: State)
    ensures Follows(s, s, Walk([], s.entered, []))
  {
  }

  lemma FollowsFromStart(w: World, origin: CanonicalPath, s: State)
    requires w.WellFormed() && origin in w.manifests
    requires Follows(State([], map[], {}, [], {}), s, Linking(Link(origin, Root), WalkFound(w, origin, origin, {})))
    ensures s.errors == WalkPackage(w, origin, origin, {origin}).errors
    ensures s.entered == WalkPackage(w, origin, origin, {origin}).seen
    ensures Sources(s.packages) == Placed([], AllLinks(w, origin))
  {
    hide WalkPackage, Placed;
    var none: set<CanonicalPath> := {};
    assert none + {origin} == {origin};
    assert Sources([]) == [];
  }

  lemma FollowsNothing(w: World, origin: CanonicalPath, s: State, p: CanonicalPath)
    requires w.WellFormed()
    ensures Follows(s, s, WalkTable(w, origin, p, [], s.entered))
  {
  }

  lemma FollowsEntry(w: World, origin: CanonicalPath, p: CanonicalPath, entries: seq<Entry>, i: nat, s0: State,
                     s1: State, s2: State)
    requires w.WellFormed() && i < |entries|
    requires Follows(s0, s1, WalkTable(w, origin, p, entries[..i], s0.entered))
    requires Follows(s1, s2, WalkEntry(w, origin, p, entries[i], s1.entered))
    ensures Follows(s0, s2, WalkTable(w, origin, p, entries[..i + 1], s0.entered))
  {
    assert entries[..i + 1][..i] == entries[..i];
    FollowsBoth(s0, s1, s2, WalkTable(w, origin, p, entries[..i], s0.entered),
      WalkEntry(w, origin, p, entries[i], s1.entered));
    hide WalkEntry, Follows;
  }

  lemma FollowsBoth(s0: State, s1: State, s2: State, first: Walk, last: Walk)
    requires Follows(s0, s1, first) && Follows(s1, s2, last)
    ensures Follows(s0, s2, Then(first, last))
  {
    hide Placed, Sources;
    PlacedTwice(Sources(s0.packages), first.links, last.links);
  }

  /** A package without edges reports nothing and leads nowhere. */
  lemma {:induction false} EdgelessTable(w: World, origin: CanonicalPath, p: CanonicalPath, entries: seq<Entry>,
                                         scope: DependencyScope, seen: set<CanonicalPath>)
    requires w.WellFormed() && EdgesOfTable(w, p, entries, scope) == []
    ensures WalkTable(w, origin, p, entries, seen) == Walk([], seen, [])
    decreases |entries|
  {
    if entries != [] {
      var n := |entries| - 1;
      EdgelessTable(w, origin, p, entries[..n], scope, seen);
      assert entries[n].declaration.Malformed?;
    }
  }

  lemma EdgelessPackage(w: World, origin: CanonicalPath, p: CanonicalPath, seen: set<CanonicalPath>)
    requires w.WellFormed() && p in w.manifests && Declared(w, origin, p) == []
    ensures WalkPackage(w, origin, p, seen) == Walk([], seen, [])
  {
    hide WalkTable, EdgesOfTable;
    EdgelessTable(w, origin, p, Entries(w.manifests[p].dependencies), Runtime, seen);
    if p == origin {
      EdgelessTable(w, origin, p, Entries(w.manifests[p].devDependencies), Development, seen);
    }
  }

  // ----- how often each error is reported -----

  /** The errors of a table, one for each faulty declaration. */
  ghost function TableErrors(w: World, p: CanonicalPath, entries: seq<Entry>): (r: multiset<ResolutionError>)
    requires w.WellFormed()
  {
    if entries == [] then multiset{}
    else
      var n := |entries| - 1;
      var error := ErrorOf(LookUp(w, p, entries[n]));
      TableErrors(w, p, entries[..n]) + if error.Some? then multiset{error.value} else multiset{}
  }

  ghost function OwnErrors(w: World, origin: CanonicalPath, p: CanonicalPath): (r: multiset<ResolutionError>)
    requires w.WellFormed()
  {
    if p !in w.manifests then multiset{}
    else
      TableErrors(w, p, Entries(w.manifests[p].dependencies)) +
      if p == origin then TableErrors(w, p, Entries(w.manifests[p].devDependencies)) else multiset{}
  }

  ghost function ErrorsOf(w: World, origin: CanonicalPath, order: seq<CanonicalPath>): (r: multiset<ResolutionError>)
    requires w.WellFormed()
  {
    if order == [] then multiset{} else OwnErrors(w, origin, order[0]) + ErrorsOf(w, origin, order[1..])
  }

  lemma {:induction false} ErrorsOfBoth(w: World, origin: CanonicalPath, a: seq<CanonicalPath>, b: seq<CanonicalPath>)
    requires w.WellFormed()
    ensures ErrorsOf(w, origin, a + b) == ErrorsOf(w, origin, a) + ErrorsOf(w, origin, b)
    decreases |a|
  {
    hide OwnErrors;
    if a == [] {
      assert a + b == b;
    } else {
      assert (a + b)[1..] == a[1..] + b;
      ErrorsOfBoth(w, origin, a[1..], b);
    }
  }

  /** The order lists every package seen since exactly once. */
  ghost predicate Lists(order: seq<CanonicalPath>, seen: set<CanonicalPath>, more: set<CanonicalPath>) {
    && (forall i, j :: 0 <= i < j < |order| ==> order[i] != order[j])
    && forall q :: q in order <==> q in more && q !in seen
  }

  lemma ListsBoth(a: seq<CanonicalPath>, b: seq<CanonicalPath>, s: set<CanonicalPath>, t: set<CanonicalPath>,
                  u: set<CanonicalPath>)
    requires s <= t <= u && Lists(a, s, t) && Lists(b, t, u)
    ensures Lists(a + b, s, u)
  {
    forall i, j | 0 <= i < j < |a + b| ensures (a + b)[i] != (a + b)[j] {
      if i < |a| <= j {
        assert a[i] in a && b[j - |a|] in b;
      }
    }
  }

  lemma ListsNothing(seen: set<CanonicalPath>)
    ensures Lists([], seen, seen)
  {
  }

  lemma {:induction false} EntryCounts(w: World, origin: CanonicalPath, p: CanonicalPath, e: Entry,
                                       seen: set<CanonicalPath>) returns (order: seq<CanonicalPath>)
    requires w.WellFormed()
    ensures var r := WalkEntry(w, origin, p, e, seen);
      var error := ErrorOf(LookUp(w, p, e));
      && Lists(order, seen, r.seen)
      && multiset(r.errors) ==
         (if error.Some? then multiset{error.value} else multiset{}) + ErrorsOf(w, origin, order)
    decreases |w.manifests.Keys - seen|, 1, 0
  {
    order := [];
    var r := LookUp(w, p, e);
    hide LookUp, Lists, WalkPackage;
    ListsNothing(seen);
    if r.Found? && r.root !in seen {
      FewerLeft(w.manifests.Keys, seen, r.root);
      var rest := PackageCounts(w, origin, r.root, seen + {r.root});
      order := [r.root] + rest;
      assert order[1..] == rest;
      ListsOne(seen, r.root);
      ListsBoth([r.root], rest, seen, seen + {r.root}, WalkPackage(w, origin, r.root, seen + {r.root}).seen);
    }
  }

  lemma ListsOne(seen: set<CanonicalPath>, q: CanonicalPath)
    requires q !in seen
    ensures Lists([q], seen, seen + {q})
  {
  }

  lemma {:induction false} TableCounts(w: World, origin: CanonicalPath, p: CanonicalPath, entries: seq<Entry>,
                                       seen: set<CanonicalPath>) returns (order: seq<CanonicalPath>)
    requires w.WellFormed()
    ensures var r := WalkTable(w, origin, p, entries, seen);
      Lists(order, seen, r.seen) && multiset(r.errors) == TableErrors(w, p, entries) + ErrorsOf(w, origin, order)
    decreases |w.manifests.Keys - seen|, 2, |entries|
  {
    hide LookUp, Lists, WalkEntry, OwnErrors;
    if entries == [] {
      order := [];
      ListsNothing(seen);
    } else {
      var n := |entries| - 1;
      var first := WalkTable(w, origin, p, entries[..n], seen);
      NoMoreLeft(w.manifests.Keys, seen, first.seen);
      var before := TableCounts(w, origin, p, entries[..n], seen);
      var behind := EntryCounts(w, origin, p, entries[n], first.seen);
      order := before + behind;
      ErrorsOfBoth(w, origin, before, behind);
      ListsBoth(before, behind, seen, first.seen, WalkEntry(w, origin, p, entries[n], first.seen).seen);
    }
  }

  /** A walk reports the errors of the package and of every package it sees, each declaration's once. */
  lemma {:induction false} PackageCounts(w: World, origin: CanonicalPath, p: CanonicalPath, seen: set<CanonicalPath>)
    returns (order: seq<CanonicalPath>)
    requires w.WellFormed() && p in w.manifests
    ensures var r := WalkPackage(w, origin, p, seen);
      Lists(order, seen, r.seen) && multiset(r.errors) == OwnErrors(w, origin, p) + ErrorsOf(w, origin, order)
    decreases |w.manifests.Keys - seen|, 3, 0
  {
    hide Lists, WalkTable, TableErrors, ErrorsOf;
    var runtime := WalkTable(w, origin, p, Entries(w.manifests[p].dependencies), seen);
    NoMoreLeft(w.manifests.Keys, seen, runtime.seen);
    order := TableCounts(w, origin, p, Entries(w.manifests[p].dependencies), seen);
    if p == origin {
      var development := WalkTable(w, origin, p, Entries(w.manifests[p].devDependencies), runtime.seen);
      var more := TableCounts(w, origin, p, Entries(w.manifests[p].devDependencies), runtime.seen);
      ErrorsOfBoth(w, origin, order, more);
      ListsBoth(order, more, seen, runtime.seen, development.seen);
      order := order + more;
    }
  }

  /** The errors are those of all declarations of the entered packages, each reported once. */
  ghost predicate ReportsEachOnce(w: World, origin: CanonicalPath, errors: seq<ResolutionError>)
    requires w.WellFormed()
  {
    exists order: seq<CanonicalPath> ::
      && (forall i, j :: 0 <= i < j < |order| ==> order[i] != order[j])
      && (forall p :: p in order <==> Entered(w, origin, p))
      && multiset(errors) == ErrorsOf(w, origin, order)
  }

  lemma WalkReportsEachOnce(w: World, origin: CanonicalPath)
    requires w.WellFormed() && origin in w.manifests
    requires forall p :: p in WalkPackage(w, origin, origin, {origin}).seen <==> Entered(w, origin, p)
    ensures ReportsEachOnce(w, origin, WalkPackage(w, origin, origin, {origin}).errors)
  {
    hide WalkPackage, OwnErrors, Entered;
    var rest := PackageCounts(w, origin, origin, {origin});
    var order := [origin] + rest;
    assert order[1..] == rest;
    ListsOne({}, origin);
    var none: set<CanonicalPath> := {};
    assert none + {origin} == {origin};
    ListsBoth([origin], rest, none, {origin}, WalkPackage(w, origin, origin, {origin}).seen);
  }

  class Resolver {
    const world: World
    ghost const origin: CanonicalPath
    ghost const answer: Answer
    var packages: seq<PackageNode>
    var packageIndexes: map<CanonicalPath, nat>
    var activePackages: set<CanonicalPath>
    var errors: seq<ResolutionError>
    ghost var entered: set<CanonicalPath>

    ghost function View(): (s: State)
      reads this
    {
      State(packages, packageIndexes, activePackages, errors, entered)
    }

    ghost predicate Lawfully() {
      world.WellFormed() && Lawful(world, origin, answer)
    }

    constructor (world: World, ghost origin: CanonicalPath)
      requires world.WellFormed()
      ensures Lawfully() && View() == State([], map[], {}, [], {})
      ensures this.world == world && this.origin == origin && answer == AnswerFor(world, origin)
    {
      this.world, this.origin, answer := world, origin, AnswerFor(world, origin);
      packages, packageIndexes, activePackages, errors, entered := [], map[], {}, [], {};
      new;
      AnswerIsLawful(world, origin);
    }

    method AddGraphNode(p: CanonicalPath, source: DependencySource) returns (index: nat)
      requires p in world.manifests
      modifies this`packages, this`packageIndexes
      ensures View() == WithNode(world, old(View()), p, source) && index == packageIndexes[p]
    {
      if p in packageIndexes {
        return packageIndexes[p];
      }
      index := |packages|;
      packageIndexes := packageIndexes[p := index];
      packages := packages + [PackageNode(world.manifests[p].name, world.manifests[p].version, p, source, "", "", [],
        [])];
    }

    method PushEdge(index: nat, edge: DependencyEdge)
      requires index < |packages|
      modifies this`packages
      ensures View() == WithEdge(old(View()), index, edge)
    {
      packages := packages[index := packages[index].(dependencies := packages[index].dependencies + [edge])];
    }

    /** One iteration of the declaration loop of package p, whose node is at index. */
    method ResolveDeclaration(p: CanonicalPath, index: nat, e: Entry, scope: DependencyScope)
      requires Lawfully() && Ready(world, answer, View()) && p in activePackages && index == packageIndexes[p]
      requires Applicable(world, origin, p, e, scope) && origin in activePackages && index < |packages|
      requires Reporting(world, origin, View())
      modifies this
      ensures Ready(world, answer, View()) && Reporting(world, origin, View()) && Onward(old(View()), View())
      ensures Gained(p, EdgesOfEntry(world, p, e, scope), Faulty(world, p, e), old(View()), View())
      ensures Handled(world, View(), p, e)
      ensures Follows(old(View()), View(), WalkEntry(world, origin, p, e, old(entered)))
      decreases |world.manifests.Keys - activePackages|, 2
    {
      WalkEntryIs(world, origin, p, e, entered);
      hide WalkEntry, WalkFound, Follows, Linking, Sources, Placed;
      if e.declaration.Malformed? {
        GainedNothing(world, answer, View(), p);
        FollowsStill(View());
        return;
      }
      var edge := EdgeWithoutTarget(e, scope);
      var r := LookUp(world, p, e);
      ghost var x := DeclarationShape(world, origin, answer, p, e, scope, packages);
      DeclarationReports(world, origin, View(), p, e, scope);
      hide LookUp, Lawful, Valid, Finished, Gained, Resolved, EdgesOfEntry, Faulty, Applicable;
      hide DescribesEdge, EdgeWithoutTarget, Reporting, Onward, Reported, Entered;
      if r.Found? || r.Mismatched? {
        LinkPackage(p, index, edge, r, x);
      } else {
        LeaveUnlinked(p, index, edge, r, x);
      }
    }

    /** The declaration names no package: report it when that is an error, and keep the bare edge. */
    method LeaveUnlinked(p: CanonicalPath, index: nat, edge: DependencyEdge, r: Lookup, ghost x: LogicalEdge)
      requires Lawfully() && Ready(world, answer, View()) && p in activePackages && index == packageIndexes[p]
      requires DescribesEdge(packages, edge, x) && edge.target.None? && (r.Missing? ==> !answer.sound)
      requires index < |packages| && Reporting(world, origin, View())
      requires (r.Missing? ==> Reported(world, origin, r.error))
      modifies this`packages, this`errors
      ensures Ready(world, answer, View()) && Reporting(world, origin, View()) && Onward(old(View()), View())
      ensures Gained(p, [x], r.Missing?, old(View()), View())
      ensures Follows(old(View()), View(), Walk(if r.Missing? then [r.error] else [], old(entered), []))
    {
      hide Lawful, Gained, DescribesEdge, Reporting, Onward, Reported, Finished;
      ghost var s0 := View();
      OnwardSame(s0);
      NodeIsActive(world, answer, s0, p);
      if r.Missing? {
        ErrorKeepsReady(world, answer, s0, p, r.error);
        ReportError(world, origin, s0, r.error);
        errors := errors + [r.error];
      } else {
        GainedNothing(world, answer, s0, p);
      }
      ghost var s1 := View();
      hide Valid;
      EdgeKeepsValid(world, answer, s1, p, edge, x, s1.activePackages);
      ReportEdge(world, origin, s1, index, edge);
      EdgePlaces(s1, index, edge);
      PushEdge(index, edge);
      FollowsPlaced(s0, View(), [], if r.Missing? then [r.error] else []);
      OnwardTwice(s0, s1, View());
      GainedTwice(p, [], r.Missing?, [x], false, s0, s1, View());
      assert [] + [x] == [x];
    }

    /** The declaration names a package: add its node, link it, and descend unless it is active or done.
        A package of the wrong version is linked and reported, and not entered. */
    method LinkPackage(p: CanonicalPath, index: nat, edge: DependencyEdge, r: Lookup, ghost x: LogicalEdge)
      requires Lawfully() && Ready(world, answer, View()) && p in activePackages && index == packageIndexes[p]
      requires index < |packages|
      requires (r.Found? || r.Mismatched?) && r.root in world.manifests && r.root in answer.reachable
      requires (r.Mismatched? ==> !answer.sound)
      requires DescribesEdge(packages, edge, x.(target := None)) && x.target == Some(r.root) && edge.source != Root
      requires origin in activePackages && Reporting(world, origin, View())
      requires (r.Found? ==> Entered(world, origin, r.root)) && (r.Mismatched? ==> Reported(world, origin, r.error))
      modifies this
      ensures Ready(world, answer, View()) && Reporting(world, origin, View()) && Onward(old(View()), View())
      ensures Gained(p, [x], r.Mismatched?, old(View()), View())
      ensures r.Found? ==> r.root in entered
      ensures r.Mismatched? ==>
        Follows(old(View()), View(), Walk([r.error], old(entered), [Link(r.root, edge.source)]))
      ensures r.Found? ==> Follows(old(View()), View(),
        Linking(Link(r.root, edge.source), WalkFound(world, origin, r.root, old(entered))))
      ensures r.Found? && Begun(old(View()), r.root) ==> errors == old(errors) && entered == old(entered)
      decreases |world.manifests.Keys - activePackages|, 1
    {
      hide Lawful, Valid, Finished, Gained, Resolved, DescribesEdge, Reporting, Onward, Reported, Entered, WalkPackage;
      ghost var s0 := View();
      ResolvedEdge(world, answer, s0, p, r.root, edge, x);
      ReportLink(world, answer, origin, s0, p, r.root, edge);
      BegunStays(world, s0, r.root, edge.source, index,
                 edge.(target := Some(WithNode(world, s0, r.root, edge.source).packageIndexes[r.root])));
      LinkIsPlaced(world, answer, s0, r.root, edge.source, index,
                   edge.(target := Some(WithNode(world, s0, r.root, edge.source).packageIndexes[r.root])));
      var target := AddGraphNode(r.root, edge.source);
      PushEdge(index, edge.(target := Some(target)));
      ghost var s1 := View();
      hide Follows, WalkFound, Sources, Placed;
      ghost var link := Link(r.root, edge.source);
      if r.Mismatched? {
        ErrorKeepsReady(world, answer, s1, p, r.error);
        ReportError(world, origin, s1, r.error);
        errors := errors + [r.error];
        FollowsPlaced(s0, View(), [link], [r.error]);
        OnwardTwice(s0, s1, View());
        GainedTwice(p, [x], false, [], true, s0, s1, View());
      } else if r.root !in activePackages && packages[target].dependencies == [] {
        ResolveDependencyGraph(r.root, edge.source);
        ResolvedInside(world, answer, p, r.root, s1, View());
        FollowsLink(link, WalkFound(world, origin, r.root, s1.entered), s0, s1, View());
        OnwardTwice(s0, s1, View());
        GainedTwice(p, [x], false, [], false, s0, s1, View());
      } else {
        KnownIsEntered(world, answer, origin, s1, r.root);
        FollowsSeen(world, origin, link, s0, s1);
      }
      assert [x] + [] == [x];
    }

    method ResolveDependencyTable(p: CanonicalPath, source: DependencySource, table: Option<seq<Entry>>,
                                  scope: DependencyScope)
      requires Lawfully() && Ready(world, answer, View()) && p in activePackages && origin in activePackages
      requires p in packageIndexes && packageIndexes[p] < |packages| && p in world.manifests
      requires forall k :: 0 <= k < |Entries(table)| ==> Applicable(world, origin, p, Entries(table)[k], scope)
      requires Reporting(world, origin, View())
      modifies this
      ensures Ready(world, answer, View()) && Reporting(world, origin, View()) && Onward(old(View()), View())
      ensures Gained(p, EdgesOfTable(world, p, Entries(table), scope), !FaultFreeTable(world, p, Entries(table)),
        old(View()), View())
      ensures TableHandled(world, View(), p, Entries(table))
      ensures Follows(old(View()), View(), WalkTable(world, origin, p, Entries(table), old(entered)))
      decreases |world.manifests.Keys - activePackages|, 3
    {
      hide Lawful, Valid, Finished, Grew, Appended, EdgesOfEntry, Faulty, Applicable;
      hide Reporting, Onward, Handled, LookUp, WalkEntry, WalkTable, Follows;
      var index := AddGraphNode(p, source);
      ghost var s0 := View();
      OnwardSame(s0);
      GainedNothing(world, answer, s0, p);
      FollowsNothing(world, origin, s0, p);
      if table.None? {
        return;
      }
      var entries := table.value;
      for i := 0 to |entries|
        invariant Ready(world, answer, View()) && Reporting(world, origin, View()) && Onward(s0, View())
        invariant Gained(p, EdgesOfTable(world, p, entries[..i], scope), !FaultFreeTable(world, p, entries[..i]), s0,
          View())
        invariant TableHandled(world, View(), p, entries[..i])
        invariant Follows(s0, View(), WalkTable(world, origin, p, entries[..i], s0.entered))
      {
        ghost var s1 := View();
        assert entries[i] == Entries(table)[i];
        ResolveDeclaration(p, index, entries[i], scope);
        assert entries[..i + 1][..i] == entries[..i];
        TableStays(world, s1, View(), p, entries[..i]);
        FollowsEntry(world, origin, p, entries, i, s0, s1, View());
        OnwardTwice(s0, s1, View());
        GainedTwice(p, EdgesOfTable(world, p, entries[..i], scope), !FaultFreeTable(world, p, entries[..i]),
                    EdgesOfEntry(world, p, entries[i], scope), Faulty(world, p, entries[i]), s0, s1, View());
      }
      assert entries[..|entries|] == entries;
    }

    method ResolveDependencyGraph(p: CanonicalPath, source: DependencySource)
      requires Lawfully() && Valid(world, answer, View()) && Finished(answer, View(), activePackages + {p})
      requires p in world.manifests && p in answer.reachable && p !in activePackages
      requires source == Root <==> p == origin
      requires p == origin || origin in activePackages
      requires !HasEdges(View(), p) && Reporting(world, origin, View()) && Entered(world, origin, p)
      modifies this
      ensures Ready(world, answer, View()) && Resolved(p, old(View()), View())
      ensures Reporting(world, origin, View()) && Onward(old(View()), View()) && p in entered
      ensures Follows(old(View()), View(), Linking(Link(p, source), WalkFound(world, origin, p, old(entered))))
      ensures old(packages) == [] ==> |packages| > 0 && packages[0].root == p
      decreases |world.manifests.Keys - activePackages|, 0
    {
      hide Valid, Finished, Grew, Appended, EdgesOfTable, Lawful, FaultFreeTable, Activated, Resolved, WithNode;
      hide Reporting, Onward, Entered, TableHandled, PackageHandled, WalkPackage, WalkFound, HasEdges, Declared;
      hide Gained, Follows, Opens;
      var manifest := world.manifests[p];
      ghost var s0 := View();
      Enter(world, answer, origin, p, source, s0);
      var index := AddGraphNode(p, source);
      entered := entered + {p};
      ghost var s1 := View().(activePackages := activePackages + {p});
      assert s1 == WithNode(world, s0, p, source).(activePackages := s0.activePackages + {p},
                                                   entered := s0.entered + {p});
      if manifest.dependencies.None? && (source != Root || manifest.devDependencies.None?) {
        LeaveAtOnce(world, answer, origin, p, source, s0, s1);
        assert s1.(activePackages := s1.activePackages - {p}) == View();
        return;
      }
      assert world.manifests.Keys - (activePackages + {p}) == (world.manifests.Keys - activePackages) - {p};
      activePackages := activePackages + {p};
      ResolveTables(p, source, s1);
      Leave(world, answer, origin, p, source, s0, s1, View());
      activePackages := activePackages - {p};
    }

    /** Both tables of an active package. */
    method ResolveTables(p: CanonicalPath, source: DependencySource, ghost s1: State)
      requires Lawfully() && Ready(world, answer, View()) && p in activePackages && origin in activePackages
      requires p in packageIndexes && packageIndexes[p] < |packages| && p in world.manifests
      requires (source == Root <==> p == origin) && s1 == View() && Reporting(world, origin, View())
      modifies this
      ensures Ready(world, answer, View()) && Reporting(world, origin, View()) && Onward(s1, View())
      ensures Gained(p, Declared(world, origin, p), !FaultFree(world, origin, p), s1, View())
      ensures PackageHandled(world, origin, View(), p)
      ensures Follows(s1, View(), WalkPackage(world, origin, p, s1.entered))
      decreases |world.manifests.Keys - activePackages|, 4
    {
      hide Valid, Finished, Grew, Appended, EdgesOfTable, Lawful, FaultFreeTable, Reporting, Onward, TableHandled;
      hide WalkTable, HasEdges, Sources, Placed;
      var manifest := world.manifests[p];
      ResolveDependencyTable(p, source, manifest.dependencies, Runtime);
      if source == Root {
        ghost var s2 := View();
        ResolveDependencyTable(p, source, manifest.devDependencies, Development);
        TableStays(world, s2, View(), p, Entries(manifest.dependencies));
        FollowsBoth(s1, s2, View(), WalkTable(world, origin, p, Entries(manifest.dependencies), s1.entered),
          WalkTable(world, origin, p, Entries(manifest.devDependencies), s2.entered));
        OnwardTwice(s1, s2, View());
        GainedTwice(p, EdgesOfTable(world, p, Entries(manifest.dependencies), Runtime),
          !FaultFreeTable(world, p, Entries(manifest.dependencies)),
                    EdgesOfTable(world, p, Entries(manifest.devDependencies), Development),
                      !FaultFreeTable(world, p, Entries(manifest.devDependencies)),
                    s1, s2, View());
      } else {
        assert EdgesOfTable(world, p, Entries(manifest.dependencies), Runtime) + [] ==
          EdgesOfTable(world, p, Entries(manifest.dependencies), Runtime);
      }
      GainedEdges(p, Declared(world, origin, p), !FaultFree(world, origin, p), s1, View());
    }
  }

  lemma GainedEdges(p: CanonicalPath, xs: seq<LogicalEdge>, fault: bool, s0: State, s1: State)
    requires Gained(p, xs, fault, s0, s1)
    ensures HasEdges(s1, p) || xs == []
  {
  }

  /** From s0 to s1 package p was entered: it is active, has no edges, and nothing else changed. */
  ghost predicate Opens(w: World, origin: CanonicalPath, p: CanonicalPath, source: DependencySource, s0: State,
                        s1: State)
    requires w.WellFormed() && p in w.manifests
  {
    && Activated(p, s0, s1) && Onward(s0, s1)
    && s1.entered == s0.entered + {p}
    && Sources(s1.packages) == Placed(Sources(s0.packages), [Link(p, source)])
    && (p in s0.entered ==> WalkPackage(w, origin, p, s0.entered) == Walk([], s0.entered, []))
  }

  lemma Enter(w: World, a: Answer, origin: CanonicalPath, p: CanonicalPath, source: DependencySource, s0: State)
    requires w.WellFormed() && Valid(w, a, s0) && Finished(a, s0, s0.activePackages + {p}) && p in w.manifests
    requires p in a.reachable && p !in s0.activePackages && !HasEdges(s0, p)
    requires Reporting(w, origin, s0) && Entered(w, origin, p)
    ensures var s1 := WithNode(w, s0, p, source).(activePackages := s0.activePackages + {p},
                                                  entered := s0.entered + {p});
      && Ready(w, a, s1) && Reporting(w, origin, s1) && Opens(w, origin, p, source, s0, s1)
      && p in s1.packageIndexes && s1.packageIndexes[p] < |s1.packages|
      && (s0.packages == [] ==> s1.packages[0].root == p)
  {
    assert p in s0.packageIndexes ==> s0.packages[s0.packageIndexes[p]].dependencies == [];
    NodePlaces(w, s0, p, source);
    hide Valid, Finished, Reporting, Entered, Onward, Activated, WithNode, WalkPackage, HasEdges, Sources, Placed;
    Activate(w, a, p, source, s0);
    ReportActivate(w, origin, s0, p, source);
    AgainIsNothing(w, a, origin, s0, p);
  }

  lemma Leave(w: World, a: Answer, origin: CanonicalPath, p: CanonicalPath, source: DependencySource, s0: State,
              s1: State, s2: State)
    requires w.WellFormed() && Lawful(w, origin, a) && p in w.manifests && Opens(w, origin, p, source, s0, s1)
    requires Ready(w, a, s2) && Gained(p, Declared(w, origin, p), !FaultFree(w, origin, p), s1, s2)
    requires Reporting(w, origin, s2) && Onward(s1, s2) && PackageHandled(w, origin, s2, p)
    requires Follows(s1, s2, WalkPackage(w, origin, p, s1.entered))
    ensures var s3 := s2.(activePackages := s2.activePackages - {p});
      && Ready(w, a, s3) && Resolved(p, s0, s3)
      && Reporting(w, origin, s3) && Onward(s0, s3) && p in s3.entered
      && Follows(s0, s3, Linking(Link(p, source), WalkFound(w, origin, p, s0.entered)))
    ensures |s1.packages| <= |s2.packages| && (|s1.packages| > 0 ==> s2.packages[0].root == s1.packages[0].root)
  {
    hide Lawful, Ready, Gained, Resolved, Reporting, PackageHandled, WalkPackage, WalkFound, Declared, FaultFree;
    assert s1.errors == s0.errors;
    hide Activated, Onward;
    Retire(w, origin, a, p, s0, s1, s2);
    ReportRetire(w, origin, s0, s1, s2, p);
    FollowsFound(w, origin, p, source, s0, s1, s2);
  }

  /** A package without tables. */
  lemma LeaveAtOnce(w: World, a: Answer, origin: CanonicalPath, p: CanonicalPath, source: DependencySource, s0: State,
                    s1: State)
    requires w.WellFormed() && Lawful(w, origin, a) && p in w.manifests && Opens(w, origin, p, source, s0, s1)
    requires Ready(w, a, s1) && Reporting(w, origin, s1) && p in s1.packageIndexes
    requires w.manifests[p].dependencies.None? && (p == origin ==> w.manifests[p].devDependencies.None?)
    ensures var s3 := s1.(activePackages := s1.activePackages - {p});
      && Ready(w, a, s3) && Resolved(p, s0, s3)
      && Reporting(w, origin, s3) && Onward(s0, s3) && p in s3.entered
      && Follows(s0, s3, Linking(Link(p, source), WalkFound(w, origin, p, s0.entered)))
  {
    hide Lawful, Gained, Resolved, Reporting, PackageHandled, WalkPackage, WalkFound, Declared, FaultFree;
    hide Opens, Valid, Finished, Onward;
    NoTables(w, origin, p);
    EdgelessPackage(w, origin, p, s1.entered);
    GainedNothing(w, a, s1, p);
    NothingToHandle(w, origin, s1, p);
    assert s1.errors + [] == s1.errors;
    Leave(w, a, origin, p, source, s0, s1, s1);
  }

  /** A package that is entered a second time has no edges, so that nothing comes of it. */
  lemma AgainIsNothing(w: World, a: Answer, origin: CanonicalPath, s: State, p: CanonicalPath)
    requires w.WellFormed() && Valid(w, a, s) && Reporting(w, origin, s) && p in w.manifests
    requires p !in s.activePackages && !HasEdges(s, p)
    ensures p in s.entered ==> WalkPackage(w, origin, p, s.entered) == Walk([], s.entered, [])
  {
    hide WalkPackage, Entered, Reported, TableHandled, HasEdges, Declared;
    if p in s.entered {
      assert PackageHandled(w, origin, s, p);
      EdgelessPackage(w, origin, p, s.entered);
    }
  }

  lemma OnwardSame(s: State)
    ensures Onward(s, s)
  {
  }

  lemma OnwardTwice(s: State, t: State, u: State)
    requires Onward(s, t) && Onward(t, u)
    ensures Onward(s, u)
  {
  }

  lemma NodeIsActive(w: World, a: Answer, s: State, p: CanonicalPath)
    requires Valid(w, a, s) && p in s.activePackages
    ensures s.packageIndexes[p] < |s.packages| && s.packages[s.packageIndexes[p]].root in s.activePackages
  {
  }

  /** The guard before descending: package q is active or has edges already. */
  ghost predicate Begun(s: State, q: CanonicalPath) {
    q in s.activePackages || HasEdges(s, q)
  }

  lemma LinkIsPlaced(w: World, a: Answer, s: State, q: CanonicalPath, source: DependencySource, index: nat,
                     edge: DependencyEdge)
    requires Valid(w, a, s) && q in w.manifests && index < |WithNode(w, s, q, source).packages|
    ensures Sources(WithEdge(WithNode(w, s, q, source), index, edge).packages) ==
      Placed(Sources(s.packages), [Link(q, source)])
  {
    LinkPlaces(w, s, q, source, index, edge);
  }

  lemma BegunStays(w: World, s: State, q: CanonicalPath, source: DependencySource, index: nat, edge: DependencyEdge)
    requires q in w.manifests && index < |WithNode(w, s, q, source).packages|
    ensures Begun(s, q) ==> Begun(WithEdge(WithNode(w, s, q, source), index, edge), q)
  {
  }

  /** A package that is active or has edges has been entered. */
  lemma KnownIsEntered(w: World, a: Answer, origin: CanonicalPath, s: State, q: CanonicalPath)
    requires w.WellFormed() && Valid(w, a, s) && Reporting(w, origin, s) && q in s.packageIndexes
    requires q in s.activePackages || s.packages[s.packageIndexes[q]].dependencies != []
    ensures q in s.entered
  {
    hide PackageHandled, Entered, Reported;
    assert s.packages[s.packageIndexes[q]].root == q;
  }

  lemma DeclarationReports(w: World, origin: CanonicalPath, s: State, p: CanonicalPath, e: Entry,
                           scope: DependencyScope)
    requires w.WellFormed() && Reporting(w, origin, s) && p in s.activePackages && Applicable(w, origin, p, e, scope)
    ensures LookUp(w, p, e).Found? ==> Entered(w, origin, LookUp(w, p, e).root)
    ensures ErrorOf(LookUp(w, p, e)).Some? ==> Reported(w, origin, ErrorOf(LookUp(w, p, e)).value)
  {
    hide LookUp, Applicable, Entered;
    if LookUp(w, p, e).Found? {
      FoundIsEntered(w, origin, p, e, scope);
    }
    if ErrorOf(LookUp(w, p, e)).Some? {
      assert Blames(w, origin, p, e, scope, ErrorOf(LookUp(w, p, e)).value);
    }
  }

  lemma ReportLink(w: World, a: Answer, origin: CanonicalPath, s: State, p: CanonicalPath, q: CanonicalPath,
                   edge: DependencyEdge)
    requires w.WellFormed() && Valid(w, a, s) && Reporting(w, origin, s) && p in s.activePackages && q in w.manifests
    ensures var s1 := WithNode(w, s, q, edge.source);
      && p in s1.packageIndexes && s1.packageIndexes[p] < |s1.packages|
      && var s2 := WithEdge(s1, s1.packageIndexes[p], edge.(target := Some(s1.packageIndexes[q])));
      Reporting(w, origin, s2) && Onward(s, s2) && s2.entered == s.entered && s2.errors == s.errors
  {
    var s1 := WithNode(w, s, q, edge.source);
    assert s1.packages[s1.packageIndexes[p]].root == p;
    hide Reporting;
    ReportNode(w, origin, s, q, edge.source);
    ReportEdge(w, origin, s1, s1.packageIndexes[p], edge.(target := Some(s1.packageIndexes[q])));
  }

  lemma ReportActivate(w: World, origin: CanonicalPath, s0: State, p: CanonicalPath, source: DependencySource)
    requires w.WellFormed() && Reporting(w, origin, s0) && Entered(w, origin, p) && p in w.manifests
    ensures var s1 := WithNode(w, s0, p, source).(activePackages := s0.activePackages + {p},
                                                  entered := s0.entered + {p});
      Reporting(w, origin, s1) && Onward(s0, s1)
  {
    hide Reporting, Entered;
    ReportNode(w, origin, s0, p, source);
    ReportEnter(w, origin, WithNode(w, s0, p, source), p);
  }

  lemma ReportRetire(w: World, origin: CanonicalPath, s0: State, s1: State, s2: State, p: CanonicalPath)
    requires w.WellFormed() && Onward(s0, s1) && Onward(s1, s2) && p in s1.entered
    requires Reporting(w, origin, s2) && PackageHandled(w, origin, s2, p)
    ensures var s3 := s2.(activePackages := s2.activePackages - {p});
      Reporting(w, origin, s3) && Onward(s0, s3) && p in s3.entered
  {
    hide Reporting, PackageHandled;
    ReportLeave(w, origin, s2, p);
  }

  lemma NothingToHandle(w: World, origin: CanonicalPath, s: State, p: CanonicalPath)
    requires w.WellFormed() && p in w.manifests && w.manifests[p].dependencies.None?
    requires p == origin ==> w.manifests[p].devDependencies.None?
    ensures PackageHandled(w, origin, s, p) && Onward(s, s)
  {
  }

  /** A finished state with no active package is the exact graph of everything reachable. */
  lemma FinishedIsExact(w: World, origin: CanonicalPath, s: State)
    requires w.WellFormed() && Ready(w, AnswerFor(w, origin), s) && s.activePackages == {} && s.errors == []
    requires |s.packages| > 0 && s.packages[0].root == origin
    requires forall i :: 0 <= i < |s.packages| ==> Sourced(w, origin, s.packages[i])
    ensures ExactGraph(w, origin, DependencyGraph(0, s.packages)) && Sound(w, origin)
  {
    hide Valid, Finished, Completed, Sourced, ExactNode, FaultFree, Reachable, Named, AnswerFor;
    AllAreExact(w, origin, s);
    KnownAreReachable(w, origin, s);
    AllAreSound(w, origin, s);
    RootsDiffer(w, AnswerFor(w, origin), s);
  }

  lemma AllAreExact(w: World, origin: CanonicalPath, s: State)
    requires w.WellFormed() && Ready(w, AnswerFor(w, origin), s) && s.activePackages == {} && s.errors == []
    requires forall i :: 0 <= i < |s.packages| ==> Sourced(w, origin, s.packages[i])
    ensures forall i :: 0 <= i < |s.packages| ==>
      && s.packages[i].root in w.manifests && ExactNode(w, origin, s.packages, s.packages[i])
      && FaultFree(w, origin, s.packages[i].root)
  {
    hide Valid, Finished, Completed, Sourced, ExactNode, FaultFree, Reachable, Named, AnswerFor;
    forall i | 0 <= i < |s.packages|
      ensures s.packages[i].root in w.manifests && ExactNode(w, origin, s.packages, s.packages[i])
      ensures FaultFree(w, origin, s.packages[i].root)
    {
      FinishedNode(w, origin, s, i);
    }
  }

  lemma RootsDiffer(w: World, a: Answer, s: State)
    requires Valid(w, a, s)
    ensures forall i, j :: 0 <= i < j < |s.packages| ==> s.packages[i].root != s.packages[j].root
  {
    hide Named;
  }

  lemma AllAreSound(w: World, origin: CanonicalPath, s: State)
    requires w.WellFormed()
    requires forall i :: 0 <= i < |s.packages| ==>
      s.packages[i].root in w.manifests && FaultFree(w, origin, s.packages[i].root)
    requires forall p :: Reachable(w, origin, p) <==> exists i :: 0 <= i < |s.packages| && s.packages[i].root == p
    ensures Sound(w, origin)
  {
    hide FaultFree, Reachable;
  }

  lemma FinishedNode(w: World, origin: CanonicalPath, s: State, i: nat)
    requires w.WellFormed() && Ready(w, AnswerFor(w, origin), s) && s.activePackages == {} && s.errors == []
    requires i < |s.packages| && Sourced(w, origin, s.packages[i])
    ensures s.packages[i].root in w.manifests && ExactNode(w, origin, s.packages, s.packages[i])
    ensures FaultFree(w, origin, s.packages[i].root)
  {
    hide Sourced;
    assert Completed(AnswerFor(w, origin), s.packages, s.packages[i]);
  }

  lemma KnownAreReachable(w: World, origin: CanonicalPath, s: State)
    requires w.WellFormed() && Valid(w, AnswerFor(w, origin), s) && |s.packages| > 0 && s.packages[0].root == origin
    requires forall i :: 0 <= i < |s.packages| ==> ExactNode(w, origin, s.packages, s.packages[i])
    ensures forall p :: Reachable(w, origin, p) <==> exists i :: 0 <= i < |s.packages| && s.packages[i].root == p
  {
    hide ExactNode;
    forall p | Reachable(w, origin, p)
      ensures p in s.packageIndexes
    {
      var path :| Chain(w, origin, path) && path[|path| - 1] == p;
      KnownIsClosed(w, origin, s);
      ClosedSetCoversChain(w, origin, s.packageIndexes.Keys, path);
    }
    forall p
      ensures Reachable(w, origin, p) <==> exists i :: 0 <= i < |s.packages| && s.packages[i].root == p
    {
      if Reachable(w, origin, p) {
        assert s.packages[s.packageIndexes[p]].root == p;
      }
    }
  }

  lemma KnownIsClosed(w: World, origin: CanonicalPath, s: State)
    requires w.WellFormed() && Indexed(s)
    requires forall i :: 0 <= i < |s.packages| ==> ExactNode(w, origin, s.packages, s.packages[i])
    ensures forall p, q :: p in s.packageIndexes && DependsOn(w, origin, p, q) ==> q in s.packageIndexes
  {
    forall p, q | p in s.packageIndexes && DependsOn(w, origin, p, q)
      ensures q in s.packageIndexes
    {
      var n := s.packages[s.packageIndexes[p]];
      assert ExactNode(w, origin, s.packages, n);
      var e :| e in Declared(w, origin, p) && e.target == Some(q);
      var k :| 0 <= k < |Declared(w, origin, p)| && Declared(w, origin, p)[k] == e;
      assert DescribesEdge(s.packages, n.dependencies[k], e);
    }
  }

  lemma StartIsReady(w: World, origin: CanonicalPath)
    requires w.WellFormed()
    ensures var a, s := AnswerFor(w, origin), State([], map[], {}, [], {});
      Valid(w, a, s) && Finished(a, s, {} + {origin}) && Reporting(w, origin, s) && origin in a.reachable
    ensures Entered(w, origin, origin)
  {
    OriginIsReachable(w, origin);
    OriginIsEntered(w, origin);
  }

  lemma ErrorsFollow(w: World, origin: CanonicalPath, s: State)
    requires w.WellFormed() && origin in w.manifests
    requires Reporting(w, origin, s) && s.activePackages == {} && origin in s.entered
    requires Follows(State([], map[], {}, [], {}), s, Linking(Link(origin, Root), WalkFound(w, origin, origin, {})))
    ensures s.errors == WalkPackage(w, origin, origin, {origin}).errors && ReportsEachOnce(w, origin, s.errors)
    ensures Sources(s.packages) == Placed([], AllLinks(w, origin))
  {
    hide WalkPackage, WalkFound, Follows, ReportsEachOnce, Entered, Reporting;
    FollowsFromStart(w, origin, s);
    SeenIsEntered(w, origin, s);
    WalkReportsEachOnce(w, origin);
  }

  lemma GraphConcludes(w: World, origin: CanonicalPath, s: State)
    requires w.WellFormed() && Ready(w, AnswerFor(w, origin), s) && s.activePackages == {}
    requires |s.packages| > 0 && s.packages[0].root == origin
    requires origin in w.manifests && Sources(s.packages) == Placed([], AllLinks(w, origin))
    ensures forall i :: 0 <= i < |s.packages| ==> Sourced(w, origin, s.packages[i])
    ensures s.errors == [] <==> Sound(w, origin)
    ensures s.errors == [] ==> ExactGraph(w, origin, DependencyGraph(0, s.packages))
    ensures forall i, j :: 0 <= i < j < |s.packages| ==> s.packages[i].root != s.packages[j].root
    ensures forall i :: 0 <= i < |s.packages| ==> Reachable(w, origin, s.packages[i].root)
  {
    hide Sourced, Sources, Placed, AllLinks, ExactGraph, Reachable;
    forall i | 0 <= i < |s.packages| ensures Sourced(w, origin, s.packages[i]) {
      PlacedAreSourced(w, origin, s.packages, i);
    }
    if s.errors == [] {
      FinishedIsExact(w, origin, s);
    }
  }

  /** Resolution of the root package, as Validate runs it on a fresh context. */
  method Resolve(w: World, root: CanonicalPath) returns (graph: DependencyGraph, errors: seq<ResolutionError>)
    requires w.WellFormed() && root in w.manifests
    ensures errors == [] <==> Sound(w, root)
    ensures errors == [] ==> ExactGraph(w, root, graph)
    ensures forall x :: x in errors <==> Reported(w, root, x)
    ensures errors == WalkPackage(w, root, root, {root}).errors && ReportsEachOnce(w, root, errors)
    ensures graph.root < |graph.packages| && graph.packages[graph.root].root == root
    ensures forall i, j :: 0 <= i < j < |graph.packages| ==> graph.packages[i].root != graph.packages[j].root
    ensures forall i :: 0 <= i < |graph.packages| ==> Reachable(w, root, graph.packages[i].root)
    ensures forall i :: 0 <= i < |graph.packages| ==> Sourced(w, root, graph.packages[i])
  {
    hide WalkPackage, WalkFound, Follows, ReportsEachOnce, Entered, Reported, Reporting, Valid, Reachable, Sound;
    hide ExactGraph, Lawful, AnswerFor, Finished, Sourced, Sources, Placed, AllLinks;
    var context := new Resolver(w, root);
    StartIsReady(w, root);
    context.ResolveDependencyGraph(root, Root);
    graph, errors := DependencyGraph(0, context.packages), context.errors;
    assert context.View().activePackages == {};
    ErrorsAreReported(w, root, context.View());
    ErrorsFollow(w, root, context.View());
    GraphConcludes(w, root, context.View());
  }
}
