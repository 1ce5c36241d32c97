/** Reading the Git resolutions of a lockfile, and what a lockfile that was built for a graph reads as. */
module LockedEdges {
  import opened Wrappers
  import opened Sorting
  import opened PackageGraph
  import opened PackageLockfile
  import GitResolution

  datatype LockedGitRecord = LockedGitRecord(
    name: string,
    version: string,
    repository: string,
    commit: string,
    artifacts: seq<PackageArtifact>)

  type Records = map<string, LockedGitRecord>

  /** A member of a JSON object that may be absent. */
  function TextOf(text: Option<string>): (r: string) {
    if text.Some? then text.value else ""
  }

  function RecordOf(target: PackageDocument): (r: LockedGitRecord) {
    LockedGitRecord(target.name, target.version, TextOf(target.reference), TextOf(target.commit),
      if target.artifacts.Some? then target.artifacts.value else [])
  }

  function LockedEdgeKey(p: PackageDocument, d: DependencyDocument): (r: string) {
    p.name + "\n" + p.version + "\n" + d.alias + "\n" + d.requirement
  }

  predicate Complete(r: LockedGitRecord) {
    r.name != "" && r.version != "" && r.repository != "" && r.commit != ""
  }

  predicate SameResolution(a: LockedGitRecord, b: LockedGitRecord) {
    a.repository == b.repository && a.commit == b.commit
  }

  // ----- what a lockfile says about Git dependencies -----

  ghost predicate Declares(p: PackageDocument, d: DependencyDocument) {
    d in p.dependencies || (p.devDependencies.Some? && d in p.devDependencies.value)
  }

  /** Package i declares the dependency d, whose target is a Git package. */
  ghost predicate GitEdge(packages: seq<PackageDocument>, i: nat, d: DependencyDocument) {
    && i < |packages| && Declares(packages[i], d)
    && d.target < |packages| && packages[d.target].source == Git
  }

  /** Two Git edges with one key have targets of one repository and commit. */
  ghost predicate Agree(packages: seq<PackageDocument>, i: nat, d: DependencyDocument, j: nat, e: DependencyDocument) {
    GitEdge(packages, i, d) && GitEdge(packages, j, e)
      && LockedEdgeKey(packages[i], d) == LockedEdgeKey(packages[j], e) ==>
    SameResolution(RecordOf(packages[d.target]), RecordOf(packages[e.target]))
  }

  /** Every Git edge has a complete target, and edges with one key agree on repository and commit. */
  ghost predicate Readable(packages: seq<PackageDocument>) {
    && (forall i: nat, d :: GitEdge(packages, i, d) ==> Complete(RecordOf(packages[d.target])))
    && forall i: nat, d, j: nat, e :: Agree(packages, i, d, j, e)
  }

  /** The records hold the resolution of edge d of package i. */
  ghost predicate Holds(packages: seq<PackageDocument>, records: Records, i: nat, d: DependencyDocument) {
    GitEdge(packages, i, d) ==>
      var key, record := LockedEdgeKey(packages[i], d), RecordOf(packages[d.target]);
      Complete(record) && key in records && SameResolution(records[key], record)
  }

  /** Some edge has this key, and the record is that of its target. */
  ghost predicate ReadFor(packages: seq<PackageDocument>, key: string, record: LockedGitRecord) {
    exists i: nat, d :: GitEdge(packages, i, d) && LockedEdgeKey(packages[i], d) == key &&
      record == RecordOf(packages[d.target])
  }

  ghost predicate Read(packages: seq<PackageDocument>, records: Records) {
    && (forall i: nat, d :: Holds(packages, records, i, d))
    && forall key :: key in records ==> ReadFor(packages, key, records[key])
  }

  /** The edges of packages below i, and of package i those in done, have been read. */
  ghost predicate ReadSoFar(packages: seq<PackageDocument>, records: Records, i: nat, done: set<DependencyDocument>) {
    && (forall j: nat, d :: j < i && GitEdge(packages, j, d) ==> Holds(packages, records, j, d))
    && (forall d :: d in done ==> Holds(packages, records, i, d))
    && forall key :: key in records ==> ReadFor(packages, key, records[key])
  }

  // ----- reading -----

  /** What the records become when the edge is read, unless it is refused. */
  function WithRecord(records: Records, key: string, record: LockedGitRecord): (r: Records) {
    if key in records then records else records[key := record]
  }

  lemma EdgeIsRead(packages: seq<PackageDocument>, records: Records, i: nat, done: set<DependencyDocument>,
                   d: DependencyDocument)
    requires ReadSoFar(packages, records, i, done) && GitEdge(packages, i, d)
    requires Complete(RecordOf(packages[d.target]))
    requires var key := LockedEdgeKey(packages[i], d);
      key in records ==> SameResolution(records[key], RecordOf(packages[d.target]))
    ensures ReadSoFar(packages, WithRecord(records, LockedEdgeKey(packages[i], d), RecordOf(packages[d.target])), i,
      done + {d})
  {
    hide Complete, RecordOf, LockedEdgeKey;
    var key, record := LockedEdgeKey(packages[i], d), RecordOf(packages[d.target]);
    var now := WithRecord(records, key, record);
    assert ReadFor(packages, key, record);
    forall k | k in now ensures ReadFor(packages, k, now[k]) {
      if k in records {
        assert ReadFor(packages, k, records[k]);
      }
    }
  }

  lemma OtherIsRead(packages: seq<PackageDocument>, records: Records, i: nat, done: set<DependencyDocument>,
                    d: DependencyDocument)
    requires ReadSoFar(packages, records, i, done) && !GitEdge(packages, i, d)
    ensures ReadSoFar(packages, records, i, done + {d})
  {
    hide Complete, RecordOf, LockedEdgeKey;
  }

  lemma IncompleteIsRefused(packages: seq<PackageDocument>, i: nat, d: DependencyDocument)
    requires GitEdge(packages, i, d) && !Complete(RecordOf(packages[d.target]))
    ensures !Readable(packages)
  {
  }

  lemma AmbiguousIsRefused(packages: seq<PackageDocument>, records: Records, i: nat, done: set<DependencyDocument>,
                           d: DependencyDocument)
    requires ReadSoFar(packages, records, i, done) && GitEdge(packages, i, d)
    requires var key := LockedEdgeKey(packages[i], d);
      key in records && !SameResolution(records[key], RecordOf(packages[d.target]))
    ensures !Readable(packages)
  {
    var key := LockedEdgeKey(packages[i], d);
    assert ReadFor(packages, key, records[key]);
    var j: nat, e :| GitEdge(packages, j, e) && LockedEdgeKey(packages[j], e) == key &&
      records[key] == RecordOf(packages[e.target]);
    assert !Agree(packages, i, d, j, e);
    hide Complete, RecordOf, LockedEdgeKey;
  }

  /** One dependency of package i; nothing when it is refused. */
  method ReadEdge(packages: seq<PackageDocument>, i: nat, d: DependencyDocument, records: Records,
                  ghost done: set<DependencyDocument>) returns (r: Option<Records>)
    requires i < |packages| && Declares(packages[i], d) && ReadSoFar(packages, records, i, done)
    ensures r.None? ==> !Readable(packages)
    ensures r.Some? ==> ReadSoFar(packages, r.value, i, done + {d})
  {
    hide Complete, RecordOf, LockedEdgeKey, Readable, ReadSoFar, Declares;
    if d.target >= |packages| || packages[d.target].source != Git {
      OtherIsRead(packages, records, i, done, d);
      return Some(records);
    }
    var record := RecordOf(packages[d.target]);
    if !Complete(record) {
      IncompleteIsRefused(packages, i, d);
      return None;
    }
    var key := LockedEdgeKey(packages[i], d);
    if key in records && !SameResolution(records[key], record) {
      AmbiguousIsRefused(packages, records, i, done, d);
      return None;
    }
    EdgeIsRead(packages, records, i, done, d);
    return Some(WithRecord(records, key, record));
  }

  /** One list of dependencies of package i. */
  method ReadField(packages: seq<PackageDocument>, i: nat, dependencies: seq<DependencyDocument>, before: Records,
                   ghost done: set<DependencyDocument>) returns (r: Option<Records>)
    requires i < |packages| && forall d :: d in dependencies ==> Declares(packages[i], d)
    requires ReadSoFar(packages, before, i, done)
    ensures r.None? ==> !Readable(packages)
    ensures r.Some? ==> ReadSoFar(packages, r.value, i, done + set d | d in dependencies)
  {
    hide Readable, ReadSoFar, Declares;
    var records := before;
    ghost var read := done;
    for k := 0 to |dependencies|
      invariant read == done + set d | d in dependencies[..k]
      invariant ReadSoFar(packages, records, i, read)
    {
      var d := dependencies[k];
      assert d in dependencies && dependencies[..k + 1] == dependencies[..k] + [d];
      var next := ReadEdge(packages, i, d, records, read);
      if next.None? {
        return None;
      }
      records, read := next.value, read + {d};
    }
    assert dependencies[..|dependencies|] == dependencies;
    return Some(records);
  }

  method ParseLockedGitEdges(packages: seq<PackageDocument>) returns (r: Option<Records>)
    ensures r.Some? <==> Readable(packages)
    ensures r.Some? ==> Read(packages, r.value)
  {
    hide Readable, ReadSoFar, Read;
    var records: Records := map[];
    NothingIsRead(packages);
    for i := 0 to |packages|
      invariant ReadSoFar(packages, records, i, {})
    {
      var runtime := ReadField(packages, i, packages[i].dependencies, records, {});
      if runtime.None? {
        return None;
      }
      records := runtime.value;
      ghost var done := {} + set d | d in packages[i].dependencies;
      if packages[i].devDependencies.Some? {
        var development := ReadField(packages, i, packages[i].devDependencies.value, records, done);
        if development.None? {
          return None;
        }
        records := development.value;
        done := done + set d | d in packages[i].devDependencies.value;
      }
      PackageIsRead(packages, records, i, done);
    }
    AllIsRead(packages, records);
    return Some(records);
  }

  lemma NothingIsRead(packages: seq<PackageDocument>)
    ensures ReadSoFar(packages, map[], 0, {})
  {
  }

  lemma PackageIsRead(packages: seq<PackageDocument>, records: Records, i: nat, done: set<DependencyDocument>)
    requires i < |packages| && ReadSoFar(packages, records, i, done)
    requires forall d :: Declares(packages[i], d) ==> d in done
    ensures ReadSoFar(packages, records, i + 1, {})
  {
    hide Complete, RecordOf, LockedEdgeKey, SameResolution;
  }

  lemma AllIsRead(packages: seq<PackageDocument>, records: Records)
    requires ReadSoFar(packages, records, |packages|, {})
    ensures Readable(packages) && Read(packages, records)
  {
    hide Complete, RecordOf, LockedEdgeKey, SameResolution;
    forall i: nat, d ensures Holds(packages, records, i, d) {
    }
    hide ReadSoFar;
    forall i: nat, d, j: nat, e ensures Agree(packages, i, d, j, e) {
      BothHold(packages, records, i, d, j, e);
    }
    forall i: nat, d | GitEdge(packages, i, d) ensures Complete(RecordOf(packages[d.target])) {
      assert Holds(packages, records, i, d);
    }
  }

  lemma BothHold(packages: seq<PackageDocument>, records: Records, i: nat, d: DependencyDocument, j: nat,
                 e: DependencyDocument)
    requires Holds(packages, records, i, d) && Holds(packages, records, j, e)
    ensures Agree(packages, i, d, j, e)
  {
    hide Complete, RecordOf, LockedEdgeKey;
  }

  // ----- the lockfile of a graph -----

  /** Edge e of package i has a Git package as its target. */
  ghost predicate GitTarget(g: DependencyGraph, i: nat, e: DependencyEdge) {
    && i < |g.packages| && e in g.packages[i].dependencies
    && e.target.Some? && e.target.value < |g.packages| && g.packages[e.target.value].source == Git
  }

  /** The document of package i stands at its position. */
  ghost function DocumentAt(relative: Relative, g: DependencyGraph, l: Layout, i: nat): (d: PackageDocument)
    requires g.root < |g.packages| && |l.edges| == |l.artifacts| == |g.packages| && i < |g.packages|
  {
    DocumentOf(relative, g, l.ordered, g.packages[i], l.edges[i], l.artifacts[i])
  }

  lemma {:induction false} FilterHolds<T>(p: T -> bool, xs: seq<T>, x: T)
    ensures x in Filter(p, xs) <==> x in xs && p(x)
  {
    FilterCounts(p, xs, x);
  }

  /** The dependencies written for package i are its edges, written. */
  lemma WrittenEdges(relative: Relative, g: DependencyGraph, l: Layout, i: nat, d: DependencyDocument)
    requires Lockable(relative, g) && IsLayout(relative, g, l) && i < |g.packages|
    ensures Declares(DocumentAt(relative, g, l, i), d) <==>
      exists e :: e in g.packages[i].dependencies && d == Written(l.ordered)(e)
  {
    var edges, deps := l.edges[i], g.packages[i].dependencies;
    DeclaresEmitted(relative, g, l, i, d);
    EmittedIn(l.ordered, edges, Runtime, d);
    EmittedIn(l.ordered, edges, Development, d);
    assert IsSort(AliasKey(), 1, deps, edges);
    SameMembers(edges, deps);
    hide SortedBy, IsOrder, LockablePackage, Written, IsSort, Emit, DocumentOf, Declares;
  }

  lemma SameMembers<T>(xs: seq<T>, ys: seq<T>)
    requires multiset(xs) == multiset(ys)
    ensures forall x :: x in xs <==> x in ys
  {
    forall x ensures x in xs <==> x in ys {
      assert x in xs <==> x in multiset(xs);
      assert x in ys <==> x in multiset(ys);
    }
  }

  lemma DeclaresEmitted(relative: Relative, g: DependencyGraph, l: Layout, i: nat, d: DependencyDocument)
    requires g.root < |g.packages| && |l.edges| == |l.artifacts| == |g.packages| && i < |g.packages|
    ensures Declares(DocumentAt(relative, g, l, i), d) <==>
      d in Emit(l.ordered, l.edges[i], Runtime) || d in Emit(l.ordered, l.edges[i], Development)
  {
    hide Emit, PackageReference;
  }

  lemma EmittedIn(ordered: seq<nat>, edges: seq<DependencyEdge>, scope: DependencyScope, d: DependencyDocument)
    ensures d in Emit(ordered, edges, scope) <==>
      exists e :: e in edges && e.scope == scope && d == Written(ordered)(e)
  {
    var fs := Filter(InScope(scope), edges);
    hide Filter, Written;
    if d in Emit(ordered, edges, scope) {
      var k :| 0 <= k < |fs| && Emit(ordered, edges, scope)[k] == d;
      FilterHolds(InScope(scope), edges, fs[k]);
      assert fs[k] in fs;
    }
    if e: DependencyEdge :| e in edges && e.scope == scope && d == Written(ordered)(e) {
      FilterHolds(InScope(scope), edges, e);
      var k :| 0 <= k < |fs| && fs[k] == e;
      assert Emit(ordered, edges, scope)[k] == d;
    }
  }

  lemma DocumentStands(relative: Relative, g: DependencyGraph, l: Layout, i: nat)
    requires Lockable(relative, g) && IsLayout(relative, g, l) && i < |g.packages|
    ensures forall k :: 0 <= k < |l.ordered| ==> l.ordered[k] < |g.packages|
    ensures var k := PositionOf(l.ordered, i);
      && k < |l.ordered| && l.ordered[k] == i && k < |Render(relative, g, l)|
      && Render(relative, g, l)[k] == DocumentAt(relative, g, l, i)
  {
    hide IsOrder, IsSort, DocumentOf;
    OrderIsComplete(relative, g, l.ordered);
    assert i in l.ordered;
  }

  /** The record of a package: its name, version, repository, commit and artifacts. */
  ghost predicate IsRecordOf(n: PackageNode, r: LockedGitRecord) {
    && r.name == n.name && r.version == n.version
    && r.repository == n.sourceReference && r.commit == n.resolvedCommit
    && multiset(r.artifacts) == multiset(n.artifacts)
  }

  lemma RecordIsOf(relative: Relative, g: DependencyGraph, l: Layout, i: nat)
    requires Lockable(relative, g) && IsLayout(relative, g, l) && i < |g.packages| && g.packages[i].source == Git
    ensures IsRecordOf(g.packages[i], RecordOf(DocumentAt(relative, g, l, i)))
  {
    OriginIsRecorded(relative, g, l, i);
    hide IsLayout, Lockable, Emit;
  }

  /** Edge e of package i, written, is read under the key the installer looks it up with. */
  lemma EdgeIsWritten(relative: Relative, g: DependencyGraph, l: Layout, i: nat, e: DependencyEdge)
    requires Lockable(relative, g) && IsLayout(relative, g, l) && GitTarget(g, i, e)
    ensures forall k :: 0 <= k < |l.ordered| ==> l.ordered[k] < |g.packages|
    ensures var packages, k, d := Render(relative, g, l), PositionOf(l.ordered, i), Written(l.ordered)(e);
      && GitEdge(packages, k, d)
      && LockedEdgeKey(packages[k], d) == GitResolution.LockedEdgeKey(g.packages[i], e)
      && IsRecordOf(g.packages[e.target.value], RecordOf(packages[d.target]))
  {
    var t := e.target.value;
    DocumentStands(relative, g, l, i);
    DocumentStands(relative, g, l, t);
    RecordIsOf(relative, g, l, t);
    WrittenEdges(relative, g, l, i, Written(l.ordered)(e));
    hide Lockable, IsLayout, Emit, PositionOf, Declares, RecordOf, IsRecordOf, Render;
  }

  /** Every Git edge of the lockfile is one of the graph. */
  lemma WrittenIsEdge(relative: Relative, g: DependencyGraph, l: Layout, k: nat, d: DependencyDocument)
    returns (e: DependencyEdge)
    requires Lockable(relative, g) && IsLayout(relative, g, l)
    requires forall k :: 0 <= k < |l.ordered| ==> l.ordered[k] < |g.packages|
    requires GitEdge(Render(relative, g, l), k, d)
    ensures k < |l.ordered| && GitTarget(g, l.ordered[k], e) && d == Written(l.ordered)(e)
    ensures PositionOf(l.ordered, l.ordered[k]) == k
  {
    var i := l.ordered[k];
    WrittenEdges(relative, g, l, i, d);
    e :| e in g.packages[i].dependencies && d == Written(l.ordered)(e);
    OrderIsComplete(relative, g, l.ordered);
    PositionOfEach(l.ordered, k);
    assert LockablePackage(relative, g, i);
    var j :| 0 <= j < |g.packages[i].dependencies| && g.packages[i].dependencies[j] == e;
    assert LockableEdge(g, i, e);
    DocumentStands(relative, g, l, e.target.value);
    hide LockablePackage, IsLayout, Emit, PositionOf, Declares, IsOrder;
  }

  /** Some Git edge of the graph has this key and a target with this record. */
  ghost predicate Locks(g: DependencyGraph, key: string, record: LockedGitRecord) {
    exists i: nat, e :: GitTarget(g, i, e) && GitResolution.LockedEdgeKey(g.packages[i], e) == key &&
      IsRecordOf(g.packages[e.target.value], record)
  }

  /** Reading the lockfile of a graph gives, under the key of every edge with a Git package as its target,
      the repository and commit of that package, and no other records; each record is that of the target
      of an edge with its key, artifacts included. */
  lemma LockfileReadsBack(relative: Relative, g: DependencyGraph, l: Layout, records: Records)
    requires Lockable(relative, g) && IsLayout(relative, g, l)
    requires forall k :: 0 <= k < |l.ordered| ==> l.ordered[k] < |g.packages|
    requires Read(Render(relative, g, l), records)
    ensures forall i: nat, e :: GitTarget(g, i, e) ==>
      var key, n := GitResolution.LockedEdgeKey(g.packages[i], e), g.packages[e.target.value];
      key in records && records[key].repository == n.sourceReference && records[key].commit == n.resolvedCommit
    ensures forall key :: key in records ==> Locks(g, key, records[key])
  {
    var packages := Render(relative, g, l);
    hide Lockable, IsLayout, Render, GitTarget, GitResolution.LockedEdgeKey;
    forall i: nat, e | GitTarget(g, i, e)
      ensures var key, n := GitResolution.LockedEdgeKey(g.packages[i], e), g.packages[e.target.value];
        key in records && records[key].repository == n.sourceReference && records[key].commit == n.resolvedCommit
    {
      EdgeIsWritten(relative, g, l, i, e);
      assert Holds(packages, records, PositionOf(l.ordered, i), Written(l.ordered)(e));
    }
    forall key | key in records ensures Locks(g, key, records[key]) {
      assert ReadFor(packages, key, records[key]);
      var k: nat, d :| GitEdge(packages, k, d) && LockedEdgeKey(packages[k], d) == key &&
        records[key] == RecordOf(packages[d.target]);
      var e := WrittenIsEdge(relative, g, l, k, d);
      EdgeIsWritten(relative, g, l, l.ordered[k], e);
      hide LockedEdgeKey, RecordOf, IsRecordOf, Written, PositionOf;
    }
  }

  /** Edges with one key have targets of one repository and commit. */
  ghost predicate Unambiguous(g: DependencyGraph, i: nat, e: DependencyEdge, j: nat, f: DependencyEdge) {
    GitTarget(g, i, e) && GitTarget(g, j, f) &&
    GitResolution.LockedEdgeKey(g.packages[i], e) == GitResolution.LockedEdgeKey(g.packages[j], f) ==>
      var m, n := g.packages[e.target.value], g.packages[f.target.value];
      m.sourceReference == n.sourceReference && m.resolvedCommit == n.resolvedCommit
  }

  ghost predicate NamedTarget(g: DependencyGraph, i: nat, e: DependencyEdge) {
    GitTarget(g, i, e) ==> g.packages[e.target.value].name != "" && g.packages[e.target.value].version != ""
  }

  /** The lockfile of a graph can be read exactly when the Git packages that are targets have names and
      versions, and edges with one key do not lead to different repositories or commits. */
  lemma LockfileIsReadableIff(relative: Relative, g: DependencyGraph, l: Layout)
    requires Lockable(relative, g) && IsLayout(relative, g, l)
    requires forall k :: 0 <= k < |l.ordered| ==> l.ordered[k] < |g.packages|
    ensures Readable(Render(relative, g, l)) <==>
      (forall i: nat, e :: NamedTarget(g, i, e)) && forall i: nat, e, j: nat, f :: Unambiguous(g, i, e, j, f)
  {
    var packages := Render(relative, g, l);
    hide Lockable, IsLayout, Render, GitTarget, GitResolution.LockedEdgeKey, LockedEdgeKey;
    hide RecordOf, Written, PositionOf;
    if Readable(packages) {
      forall i: nat, e ensures NamedTarget(g, i, e) {
        if GitTarget(g, i, e) {
          EdgeIsWritten(relative, g, l, i, e);
        }
      }
      forall i: nat, e, j: nat, f ensures Unambiguous(g, i, e, j, f) {
        if GitTarget(g, i, e) && GitTarget(g, j, f) {
          EdgeIsWritten(relative, g, l, i, e);
          EdgeIsWritten(relative, g, l, j, f);
          assert Agree(packages, PositionOf(l.ordered, i), Written(l.ordered)(e), PositionOf(l.ordered, j),
            Written(l.ordered)(f));
        }
      }
    }
    if (forall i: nat, e :: NamedTarget(g, i, e)) && forall i: nat, e, j: nat, f :: Unambiguous(g, i, e, j, f) {
      forall k: nat, d | GitEdge(packages, k, d) ensures Complete(RecordOf(packages[d.target])) {
        var e := WrittenIsEdge(relative, g, l, k, d);
        CompleteIs(relative, g, l, l.ordered[k], e);
      }
      forall k: nat, d, m: nat, c ensures Agree(packages, k, d, m, c) {
        if GitEdge(packages, k, d) && GitEdge(packages, m, c) {
          var e := WrittenIsEdge(relative, g, l, k, d);
          var f := WrittenIsEdge(relative, g, l, m, c);
          EdgeIsWritten(relative, g, l, l.ordered[k], e);
          EdgeIsWritten(relative, g, l, l.ordered[m], f);
          assert Unambiguous(g, l.ordered[k], e, l.ordered[m], f);
        }
      }
    }
  }

  lemma CompleteIs(relative: Relative, g: DependencyGraph, l: Layout, i: nat, e: DependencyEdge)
    requires Lockable(relative, g) && IsLayout(relative, g, l) && GitTarget(g, i, e) && NamedTarget(g, i, e)
    requires forall k :: 0 <= k < |l.ordered| ==> l.ordered[k] < |g.packages|
    ensures GitEdge(Render(relative, g, l), PositionOf(l.ordered, i), Written(l.ordered)(e))
    ensures Complete(RecordOf(Render(relative, g, l)[Written(l.ordered)(e).target]))
  {
    EdgeIsWritten(relative, g, l, i, e);
    assert LockablePackage(relative, g, e.target.value);
    hide IsLayout, Render, PositionOf, Written, RecordOf;
  }

  // ----- what the installation makes of the records -----

  function Resolutions(records: Records): (r: map<string, GitResolution.LockedGitRecord>) {
    map key | key in records :: GitResolution.LockedGitRecord(records[key].repository, records[key].commit)
  }

  /** Installing with the lockfile looks for every Git dependency exactly where the lockfile was built
      from: at the repository and commit of its target. */
  lemma LockedEdgesAreLocated(relative: Relative, g: DependencyGraph, l: Layout, records: Records,
                              src: GitResolution.Sources, i: nat, e: DependencyEdge)
    requires Lockable(relative, g) && IsLayout(relative, g, l)
    requires forall k :: 0 <= k < |l.ordered| ==> l.ordered[k] < |g.packages|
    requires Read(Render(relative, g, l), records) && src.locked == Some(Resolutions(records)) && GitTarget(g, i, e)
    ensures var n := g.packages[e.target.value];
      GitResolution.Locate(src, g.packages[i], e) ==
        Some(GitResolution.Location(n.sourceReference, n.sourceReference + "\n" + n.resolvedCommit))
  {
    hide Lockable, IsLayout, Render, Read;
    LockfileReadsBack(relative, g, l, records);
  }
}
