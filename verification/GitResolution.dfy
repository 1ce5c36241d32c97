/** The whole pass over the Git dependencies of a graph that grows while it is walked. */
module GitResolution {
  import opened Wrappers
  import opened PackageGraph
  import opened GitMerge

  datatype LockedGitRecord = LockedGitRecord(repository: string, commit: string)

  /** What the pass may consult: the lockfile's records, when there is a lockfile; the validated
      checkout for each repository and version (or locked commit) that can be fetched; and the
      version rule. */
  datatype Sources = Sources(
    locked: Option<map<string, LockedGitRecord>>,
    checkouts: map<string, Checkout>,
    satisfies: (string, string) -> bool)
  {
    ghost predicate Valid() {
      forall k :: k in checkouts ==> WellFormed(checkouts[k])
    }
  }

  datatype Location = Location(repository: string, key: string)

  function LockedEdgeKey(n: PackageNode, e: DependencyEdge): (r: string) {
    n.name + "\n" + n.version + "\n" + e.alias + "\n" + e.requestedVersion
  }

  /** Where the package behind a Git edge is to be found. */
  function Locate(src: Sources, n: PackageNode, e: DependencyEdge): (r: Option<Location>) {
    match src.locked
    case None => Some(Location(e.sourceReference, e.sourceReference + "\n" + e.requestedVersion))
    case Some(records) =>
      var key := LockedEdgeKey(n, e);
      if key !in records then None
      else Some(Location(records[key].repository, records[key].repository + "\n" + records[key].commit))
  }

  /** The tests made when a repository is fetched for edge e. */
  predicate Acceptable(src: Sources, n: PackageNode, e: DependencyEdge, c: Checkout)
    requires c.graph.root < |c.graph.packages|
  {
    && (src.locked.Some? && LockedEdgeKey(n, e) in src.locked.value ==>
         var record := src.locked.value[LockedEdgeKey(n, e)];
         record.repository == e.sourceReference && record.commit != "")
    && src.satisfies(c.graph.packages[c.graph.root].version, e.requestedVersion)
  }

  /** Edge e cannot be resolved. */
  ghost predicate Blocked(src: Sources, n: PackageNode, e: DependencyEdge)
    requires src.Valid()
  {
    var where := Locate(src, n, e);
    where.None? || where.value.key !in src.checkouts || !Acceptable(src, n, e, src.checkouts[where.value.key])
  }

  predicate Open(e: DependencyEdge) {
    e.source.Git? && e.target.None?
  }

  /** The graph, the index of its paths, and the repositories resolved so far. */
  datatype Run = Run(packages: seq<PackageNode>, indexes: Indexes, resolved: map<string, nat>)

  // ----- the invariant -----

  /** Edge e is b, or b linked to the package its repository was resolved to. */
  ghost predicate FilledEdge(src: Sources, s: Run, n: PackageNode, b: DependencyEdge, e: DependencyEdge) {
    e == b ||
    (&& Open(b) && Locate(src, n, b).Some? && Locate(src, n, b).value.key in s.resolved
     && e == b.(target := Some(s.resolved[Locate(src, n, b).value.key])))
  }

  ghost predicate Filled(src: Sources, s: Run, n: PackageNode, base: seq<DependencyEdge>) {
    |n.dependencies| == |base| && forall j :: 0 <= j < |base| ==> FilledEdge(src, s, n, base[j], n.dependencies[j])
  }

  /** Package r of checkout k is the one that gave package i its edges. */
  ghost predicate Gave(src: Sources, s: Run, base: seq<DependencyEdge>, i: nat, k: string, r: nat)
    requires src.Valid()
  {
    && k in s.resolved && k in src.checkouts && Covers(s.indexes, src.checkouts[k]) &&
         r < |src.checkouts[k].graph.packages|
    && s.indexes[PathOf(src.checkouts[k], r)] == i
    && base == EdgesOf(src.checkouts[k], r, s.indexes)
  }

  ghost predicate Donated(src: Sources, s: Run, base: seq<DependencyEdge>, i: nat)
    requires src.Valid()
  {
    exists k, r :: Gave(src, s, base, i, k, r)
  }

  /** Edges of a package, before linking: those it started with, or those of a checkout's package. */
  ghost predicate Rooted(src: Sources, origin: seq<PackageNode>, s: Run, base: seq<DependencyEdge>, i: nat)
    requires src.Valid()
  {
    if i < |origin| && origin[i].dependencies != [] then base == origin[i].dependencies
    else if i < |origin| then base == [] || Donated(src, s, base, i)
    else Donated(src, s, base, i)
  }

  ghost predicate ResolvedWell(src: Sources, s: Run) {
    forall k :: k in s.resolved ==>
      && k in src.checkouts && Covers(s.indexes, src.checkouts[k])
      && src.checkouts[k].canonicalRoot in s.indexes && s.resolved[k] == s.indexes[src.checkouts[k].canonicalRoot]
  }

  /** Some edge is to be found there. */
  ghost predicate Located(src: Sources, where: Location) {
    exists n, e :: Locate(src, n, e) == Some(where)
  }

  /** The package is recorded as coming from this repository and checkout. */
  ghost predicate Recorded(n: PackageNode, repository: string, c: Checkout) {
    && n.source == Git && n.root == c.packageRoot
    && n.sourceReference == repository && n.resolvedCommit == c.commit && n.artifacts == c.artifacts
  }

  /** The package that a resolution leads to is recorded as coming from a checkout of its directory. */
  ghost predicate Attributed(src: Sources, s: Run, k: string)
    requires k in src.checkouts && k in s.resolved && s.resolved[k] < |s.packages|
  {
    exists where ::
      && Located(src, where) && where.key in src.checkouts
      && src.checkouts[where.key].canonicalRoot == src.checkouts[k].canonicalRoot
      && Recorded(s.packages[s.resolved[k]], where.repository, src.checkouts[where.key])
  }

  ghost predicate AllAttributed(src: Sources, s: Run) {
    forall k :: k in s.resolved ==> k in src.checkouts && s.resolved[k] < |s.packages| && Attributed(src, s, k)
  }

  ghost predicate OriginKept(origin: seq<PackageNode>, s: Run) {
    && |origin| <= |s.packages|
    && (forall i :: 0 <= i < |origin| ==>
          s.packages[i].name == origin[i].name && s.packages[i].version == origin[i].version)
    && forall p :: p in s.indexes && s.indexes[p] < |origin| ==> origin[s.indexes[p]].root == p
  }

  ghost predicate Inv(src: Sources, origin: seq<PackageNode>, s: Run, base: seq<seq<DependencyEdge>>)
    requires src.Valid()
  {
    && Indexed(s.indexes, |s.packages|) && TargetsInRange(s.packages)
    && ResolvedWell(src, s) && AllAttributed(src, s) && OriginKept(origin, s)
    && |base| == |s.packages|
    && (forall i :: 0 <= i < |base| ==> Filled(src, s, s.packages[i], base[i]))
    && forall i :: 0 <= i < |base| ==> Rooted(src, origin, s, base[i], i)
  }

  // ----- linking one edge -----

  function Linked(packages: seq<PackageNode>, i: nat, j: nat, target: nat): (r: seq<PackageNode>)
    requires i < |packages| && j < |packages[i].dependencies|
  {
    var edges := packages[i].dependencies;
    packages[i := packages[i].(dependencies := edges[j := edges[j].(target := Some(target))])]
  }

  lemma LinkKeeps(src: Sources, origin: seq<PackageNode>, s: Run, base: seq<seq<DependencyEdge>>, i: nat, j: nat)
    requires src.Valid() && Inv(src, origin, s, base)
    requires i < |s.packages| && j < |s.packages[i].dependencies| && Open(s.packages[i].dependencies[j])
    requires var where := Locate(src, s.packages[i], s.packages[i].dependencies[j]);
      where.Some? && where.value.key in s.resolved
    ensures var key := Locate(src, s.packages[i], s.packages[i].dependencies[j]).value.key;
      Inv(src, origin, s.(packages := Linked(s.packages, i, j, s.resolved[key])), base)
  {
    var n := s.packages[i];
    var key := Locate(src, n, n.dependencies[j]).value.key;
    var target := s.resolved[key];
    var later := s.(packages := Linked(s.packages, i, j, target));
    assert target < |s.packages|;
    LinkKeepsRest(src, origin, s, i, j, target);
    hide AllAttributed, ResolvedWell, OriginKept, TargetsInRange, Indexed;
    assert Filled(src, later, later.packages[i], base[i]) by {
      assert Filled(src, s, n, base[i]);
      assert FilledEdge(src, s, n, base[i][j], n.dependencies[j]);
      LinkFills(src, s, later, n, later.packages[i], base[i], j);
    }
    forall t | 0 <= t < |base|
      ensures Filled(src, later, later.packages[t], base[t]) && Rooted(src, origin, later, base[t], t)
    {
      SameIndexesRooted(src, origin, s, later, base[t], t);
      if t != i {
        FilledStays(src, s, later, s.packages[t], base[t]);
      }
    }
  }

  /** Giving edges their targets changes nothing about where packages come from. */
  lemma SamePackagesAttributed(src: Sources, s: Run, later: Run)
    requires AllAttributed(src, s) && later.resolved == s.resolved && |later.packages| == |s.packages|
    requires forall i :: 0 <= i < |s.packages| ==>
      later.packages[i].(dependencies := s.packages[i].dependencies) == s.packages[i]
    ensures AllAttributed(src, later)
  {
    hide Located;
    forall k | k in later.resolved ensures Attributed(src, later, k) {
      assert Attributed(src, s, k);
    }
  }

  lemma LinkKeepsRest(src: Sources, origin: seq<PackageNode>, s: Run, i: nat, j: nat, target: nat)
    requires src.Valid() && TargetsInRange(s.packages) && ResolvedWell(src, s) && OriginKept(origin, s)
    requires AllAttributed(src, s) && target < |s.packages|
    requires i < |s.packages| && j < |s.packages[i].dependencies|
    ensures var later := s.(packages := Linked(s.packages, i, j, target));
      && TargetsInRange(later.packages) && ResolvedWell(src, later) && OriginKept(origin, later)
      && AllAttributed(src, later)
  {
    var later := s.(packages := Linked(s.packages, i, j, target));
    assert InRange(s.packages[i].dependencies, |s.packages|);
    SamePackagesAttributed(src, s, later);
    hide AllAttributed;
  }

  lemma LinkFills(src: Sources, s: Run, later: Run, n: PackageNode, m: PackageNode, base: seq<DependencyEdge>, j: nat)
    requires Filled(src, s, n, base) && j < |base| && Open(n.dependencies[j]) && later.resolved == s.resolved
    requires Locate(src, n, n.dependencies[j]).Some? && Locate(src, n, n.dependencies[j]).value.key in s.resolved
    requires m == n.(dependencies := n.dependencies[j := n.dependencies[j].(
      target := Some(s.resolved[Locate(src, n, n.dependencies[j]).value.key]))])
    ensures Filled(src, later, m, base)
  {
    forall t | 0 <= t < |base| ensures FilledEdge(src, later, m, base[t], m.dependencies[t]) {
      assert FilledEdge(src, s, n, base[t], n.dependencies[t]);
    }
  }

  lemma FilledStays(src: Sources, s: Run, later: Run, n: PackageNode, base: seq<DependencyEdge>)
    requires Filled(src, s, n, base)
    requires forall k :: k in s.resolved ==> k in later.resolved && later.resolved[k] == s.resolved[k]
    ensures Filled(src, later, n, base)
  {
    forall t | 0 <= t < |base| ensures FilledEdge(src, later, n, base[t], n.dependencies[t]) {
      assert FilledEdge(src, s, n, base[t], n.dependencies[t]);
    }
  }

  lemma SameIndexesRooted(src: Sources, origin: seq<PackageNode>, s: Run, later: Run, base: seq<DependencyEdge>, i: nat)
    requires src.Valid() && Rooted(src, origin, s, base, i)
    requires later.indexes == s.indexes && later.resolved == s.resolved
    ensures Rooted(src, origin, later, base, i)
  {
    if Donated(src, s, base, i) {
      var k: string, r: nat :| Gave(src, s, base, i, k, r);
      assert Gave(src, later, base, i, k, r);
    }
  }

  // ----- merging one checkout -----

  /** The edges before linking, after a merge: packages without edges take what they now have. */
  ghost function Rebased(base: seq<seq<DependencyEdge>>, now: seq<PackageNode>): (r: seq<seq<DependencyEdge>>)
    requires |base| <= |now|
    ensures |r| == |now|
  {
    seq(|now|, i requires 0 <= i < |now| => if i < |base| && base[i] != [] then base[i] else now[i].dependencies)
  }

  lemma MergeKeeps(src: Sources, origin: seq<PackageNode>, s: Run, base: seq<seq<DependencyEdge>>, key: string,
                   repository: string, later: Run)
    requires src.Valid() && Inv(src, origin, s, base) && key in src.checkouts && key !in s.resolved
    requires Merged(s.packages, s.indexes, src.checkouts[key], repository, later.packages, later.indexes)
    requires src.checkouts[key].canonicalRoot in later.indexes
    requires later.resolved == s.resolved[key := later.indexes[src.checkouts[key].canonicalRoot]]
    requires Located(src, Location(repository, key))
    ensures Inv(src, origin, later, Rebased(base, later.packages))
  {
    hide Located;
    var c := src.checkouts[key];
    MergeAttributes(src, s, key, repository, later);
    var rebased := Rebased(base, later.packages);
    MergeKeepsRange(s.packages, s.indexes, c, repository, later.packages, later.indexes);
    MergeKeepsResolved(src, s, key, repository, later);
    MergeKeepsOrigin(src, origin, s, key, repository, later);
    forall i | 0 <= i < |rebased|
      ensures Filled(src, later, later.packages[i], rebased[i]) && Rooted(src, origin, later, rebased[i], i)
    {
      hide Indexed, TargetsInRange, ResolvedWell, OriginKept;
      if i < |base| {
        assert Filled(src, s, s.packages[i], base[i]) && Rooted(src, origin, s, base[i], i);
        MergeKeepsOne(src, origin, s, base[i], key, repository, later, i);
      } else {
        var r := DonorOf(s.packages, s.indexes, c, repository, later.packages, later.indexes, i);
        assert Gave(src, later, rebased[i], i, key, r);
      }
    }
  }

  lemma MergeKeepsResolved(src: Sources, s: Run, key: string, repository: string, later: Run)
    requires src.Valid() && ResolvedWell(src, s) && key in src.checkouts
    requires Merged(s.packages, s.indexes, src.checkouts[key], repository, later.packages, later.indexes)
    requires src.checkouts[key].canonicalRoot in later.indexes
    requires later.resolved == s.resolved[key := later.indexes[src.checkouts[key].canonicalRoot]]
    ensures ResolvedWell(src, later)
  {
  }

  /** The checkout's package is recorded as coming from it, and all others as before. */
  lemma MergeAttributes(src: Sources, s: Run, key: string, repository: string, later: Run)
    requires src.Valid() && ResolvedWell(src, s) && AllAttributed(src, s) && Indexed(s.indexes, |s.packages|)
    requires key in src.checkouts
    requires Merged(s.packages, s.indexes, src.checkouts[key], repository, later.packages, later.indexes)
    requires src.checkouts[key].canonicalRoot in later.indexes && Located(src, Location(repository, key))
    requires later.resolved == s.resolved[key := later.indexes[src.checkouts[key].canonicalRoot]]
    ensures AllAttributed(src, later)
  {
    hide Located;
    var c := src.checkouts[key];
    var at := later.indexes[c.canonicalRoot];
    RootIsRecorded(s.packages, s.indexes, c, repository, later.packages, later.indexes);
    forall k | k in later.resolved
      ensures k in src.checkouts && later.resolved[k] < |later.packages| && Attributed(src, later, k)
    {
      if k == key || src.checkouts[k].canonicalRoot == c.canonicalRoot {
        var where := Location(repository, key);
        assert later.resolved[k] == at;
        assert Recorded(later.packages[at], where.repository, src.checkouts[where.key]);
      } else {
        hide Gains, FromCheckout, PathFrom, Receives, WellFormed, Recorded;
        assert Attributed(src, s, k);
        OtherIsKept(s, c, repository, later, src.checkouts[k].canonicalRoot);
        SameRecord(s.packages[s.resolved[k]], later.packages[s.resolved[k]]);
      }
    }
  }

  lemma SameRecord(n: PackageNode, m: PackageNode)
    requires m.(dependencies := n.dependencies) == n
    ensures forall repository, c :: Recorded(m, repository, c) <==> Recorded(n, repository, c)
  {
  }

  lemma OtherIsKept(s: Run, c: Checkout, repository: string, later: Run, p: CanonicalPath)
    requires WellFormed(c) && Merged(s.packages, s.indexes, c, repository, later.packages, later.indexes)
    requires p in s.indexes && s.indexes[p] < |s.packages| && p != c.canonicalRoot && c.canonicalRoot in later.indexes
    ensures var i := s.indexes[p];
      later.packages[i].(dependencies := s.packages[i].dependencies) == s.packages[i]
  {
    hide Gains, FromCheckout, PathFrom, Receives, WellFormed, Covers;
    var i := s.indexes[p];
    assert KeepsPackage(s.packages, s.indexes, c, repository, later.packages, later.indexes, i);
    assert later.indexes[p] == i;
  }

  lemma RootIsRecorded(was: seq<PackageNode>, known: Indexes, c: Checkout, repository: string, now: seq<PackageNode>,
                       indexes: Indexes)
    requires WellFormed(c) && Merged(was, known, c, repository, now, indexes) && c.canonicalRoot in indexes
    requires Indexed(known, |was|)
    ensures Recorded(now[indexes[c.canonicalRoot]], repository, c)
  {
    hide FromCheckout, PathFrom, Receives, EdgesOf;
    var i := indexes[c.canonicalRoot];
    assert PathOf(c, c.graph.root) == c.canonicalRoot;
    assert Gains(was, known, c, repository, now, indexes, c.graph.root);
    if c.canonicalRoot in known {
      assert KeepsPackage(was, known, c, repository, now, indexes, i);
    }
  }

  lemma MergeKeepsOrigin(src: Sources, origin: seq<PackageNode>, s: Run, key: string, repository: string, later: Run)
    requires src.Valid() && OriginKept(origin, s) && key in src.checkouts
    requires Merged(s.packages, s.indexes, src.checkouts[key], repository, later.packages, later.indexes)
    ensures OriginKept(origin, later)
  {
    var c := src.checkouts[key];
    forall i | 0 <= i < |origin|
      ensures later.packages[i].name == origin[i].name && later.packages[i].version == origin[i].version
    {
      assert KeepsPackage(s.packages, s.indexes, c, repository, later.packages, later.indexes, i);
    }
    forall p | p in later.indexes && later.indexes[p] < |origin|
      ensures origin[later.indexes[p]].root == p
    {
      NewPathIsNew(s.packages, s.indexes, c, repository, later.packages, later.indexes, p);
    }
  }

  lemma NewPathIsNew(was: seq<PackageNode>, known: Indexes, c: Checkout, repository: string, now: seq<PackageNode>,
                     indexes: Indexes, p: CanonicalPath)
    requires WellFormed(c) && Merged(was, known, c, repository, now, indexes) && p in indexes
    ensures p in known || indexes[p] >= |was|
  {
    if p !in known {
      assert PathFrom(known, c, |c.graph.packages|, p);
      var r :| 0 <= r < |c.graph.packages| && Done(c, |c.graph.packages|, r) && PathOf(c, r) == p;
      assert Gains(was, known, c, repository, now, indexes, r);
    }
  }

  lemma MergeKeepsOne(src: Sources, origin: seq<PackageNode>, s: Run, base: seq<DependencyEdge>, key: string,
                      repository: string, later: Run, i: nat)
    requires src.Valid() && key in src.checkouts && key !in s.resolved && i < |s.packages|
    requires ResolvedWell(src, s) && Filled(src, s, s.packages[i], base) && Rooted(src, origin, s, base, i)
    requires Merged(s.packages, s.indexes, src.checkouts[key], repository, later.packages, later.indexes)
    requires src.checkouts[key].canonicalRoot in later.indexes
    requires later.resolved == s.resolved[key := later.indexes[src.checkouts[key].canonicalRoot]]
    ensures var rebased := if base != [] then base else later.packages[i].dependencies;
      Filled(src, later, later.packages[i], rebased) && Rooted(src, origin, later, rebased, i)
  {
    var c := src.checkouts[key];
    var was, now := s.packages[i], later.packages[i];
    assert KeepsPackage(s.packages, s.indexes, c, repository, later.packages, later.indexes, i);
    if base != [] {
      FilledStays(src, s, later, was, base);
      SameNameFilled(src, later, was, now, base);
    }
    if Donated(src, s, base, i) {
      DonationStays(src, s, base, key, repository, later, i);
    }
    if base == [] && now.dependencies != [] {
      var r := DonorOf(s.packages, s.indexes, c, repository, later.packages, later.indexes, i);
      assert Gave(src, later, now.dependencies, i, key, r);
    }
  }

  lemma DonationStays(src: Sources, s: Run, base: seq<DependencyEdge>, key: string, repository: string, later: Run,
                      i: nat)
    requires src.Valid() && key in src.checkouts && key !in s.resolved && Donated(src, s, base, i)
    requires ResolvedWell(src, s)
    requires Merged(s.packages, s.indexes, src.checkouts[key], repository, later.packages, later.indexes)
    requires src.checkouts[key].canonicalRoot in later.indexes
    requires later.resolved == s.resolved[key := later.indexes[src.checkouts[key].canonicalRoot]]
    ensures Donated(src, later, base, i)
  {
    hide KeepsPackage, Gains, FromCheckout, PathFrom, Indexed;
    var k: string, r: nat :| Gave(src, s, base, i, k, r);
    var c := src.checkouts[k];
    assert Covers(later.indexes, c);
    SplicedStays(c.graph.packages[r].dependencies, c, s.indexes, later.indexes);
    assert Gave(src, later, base, i, k, r);
  }

  lemma SameNameFilled(src: Sources, s: Run, n: PackageNode, m: PackageNode, base: seq<DependencyEdge>)
    requires Filled(src, s, n, base) && m.name == n.name && m.version == n.version && m.dependencies == n.dependencies
    ensures Filled(src, s, m, base)
  {
    forall t | 0 <= t < |base| ensures FilledEdge(src, s, m, base[t], m.dependencies[t]) {
      assert FilledEdge(src, s, n, base[t], n.dependencies[t]);
    }
  }

  // ----- where the linked packages come from -----

  /** Different checkouts have different directories, and a key belongs to one repository. */
  ghost predicate Distinguished(src: Sources) {
    && (forall k, l | k in src.checkouts && l in src.checkouts ::
          src.checkouts[k].canonicalRoot == src.checkouts[l].canonicalRoot ==> k == l)
    && forall a, b :: Located(src, a) && Located(src, b) && a.key == b.key ==> a == b
  }

  /** An edge that was given its target leads to a package that records the repository and commit of a
      checkout of the same directory, its artifacts and its root; when checkouts have directories of their
      own, those of the checkout that the edge was resolved to. */
  lemma LinkedIsRecorded(src: Sources, origin: seq<PackageNode>, s: Run, base: seq<seq<DependencyEdge>>, i: nat,
                         j: nat)
    requires src.Valid() && Inv(src, origin, s, base) && i < |base|
    requires j < |base[i]| && j < |s.packages[i].dependencies| && s.packages[i].dependencies[j] != base[i][j]
    ensures Open(base[i][j]) && Locate(src, s.packages[i], base[i][j]).Some?
    ensures var where, e := Locate(src, s.packages[i], base[i][j]).value, s.packages[i].dependencies[j];
      && where.key in s.resolved && where.key in src.checkouts && e.target == Some(s.resolved[where.key])
      && e.target.value < |s.packages| && Attributed(src, s, where.key)
      && (Distinguished(src) ==>
            Recorded(s.packages[e.target.value], where.repository, src.checkouts[where.key]))
  {
    hide Rooted, TargetsInRange, ResolvedWell, OriginKept, Recorded;
    assert Filled(src, s, s.packages[i], base[i]);
    assert FilledEdge(src, s, s.packages[i], base[i][j], s.packages[i].dependencies[j]);
    var where := Locate(src, s.packages[i], base[i][j]).value;
    assert Located(src, where);
    assert Attributed(src, s, where.key);
  }

  // ----- nothing is missed -----

  predicate NoRuntime(edges: seq<DependencyEdge>) {
    forall j :: 0 <= j < |edges| ==> edges[j].scope.Development?
  }

  /** The same directory declares the same: packages known by one path either all have runtime
      declarations or none has. */
  ghost predicate SameManifests(src: Sources, origin: seq<PackageNode>) {
    && (forall i, k, r: nat | 0 <= i < |origin| && origin[i].dependencies == [] ::
          Contains(src, k, r, origin[i].root) ==> NoRuntime(src.checkouts[k].graph.packages[r].dependencies))
    && (forall p, k, r: nat, l, t: nat :: Contains(src, k, r, p) && Contains(src, l, t, p) ==>
          (NoRuntime(src.checkouts[k].graph.packages[r].dependencies) <==>
           NoRuntime(src.checkouts[l].graph.packages[t].dependencies)))
  }

  /** Package r of checkout k is the one at path p. */
  ghost predicate Contains(src: Sources, k: string, r: nat, p: CanonicalPath) {
    k in src.checkouts && r < |src.checkouts[k].graph.packages| && PathOf(src.checkouts[k], r) == p
  }

  lemma {:induction false} NothingSpliced(edges: seq<DependencyEdge>, c: Checkout, indexes: Indexes)
    requires Covers(indexes, c) && InRange(edges, |c.graph.packages|)
    ensures Spliced(edges, c, indexes) == [] <==> NoRuntime(edges)
  {
    if edges != [] {
      var init := edges[..|edges| - 1];
      NothingSpliced(init, c, indexes);
      assert NoRuntime(edges) <==> NoRuntime(init) && edges[|edges| - 1].scope.Development?;
    }
  }

  /** A merge gives no edges to a package that was there before. */
  lemma MergeLeavesEdges(src: Sources, origin: seq<PackageNode>, s: Run, base: seq<seq<DependencyEdge>>, key: string,
                         repository: string, now: seq<PackageNode>, indexes: Indexes, i: nat)
    requires src.Valid() && SameManifests(src, origin) && Inv(src, origin, s, base) && key in src.checkouts
    requires Merged(s.packages, s.indexes, src.checkouts[key], repository, now, indexes) && i < |s.packages|
    ensures now[i].dependencies == s.packages[i].dependencies
  {
    var c := src.checkouts[key];
    if now[i].dependencies != s.packages[i].dependencies {
      var r := DonorOf(s.packages, s.indexes, c, repository, now, indexes, i);
      NothingSpliced(c.graph.packages[r].dependencies, c, indexes);
      NewPathIsNew(s.packages, s.indexes, c, repository, now, indexes, PathOf(c, r));
      KnownHasNoRuntime(src, origin, s, base, key, r, i);
      assert false;
    }
  }

  lemma KnownHasNoRuntime(src: Sources, origin: seq<PackageNode>, s: Run, base: seq<seq<DependencyEdge>>, key: string,
                          r: nat, i: nat)
    requires src.Valid() && SameManifests(src, origin) && Inv(src, origin, s, base) && key in src.checkouts
    requires i < |s.packages| && s.packages[i].dependencies == []
    requires r < |src.checkouts[key].graph.packages| && PathOf(src.checkouts[key], r) in s.indexes
    requires s.indexes[PathOf(src.checkouts[key], r)] == i
    ensures NoRuntime(src.checkouts[key].graph.packages[r].dependencies)
  {
    hide NoRuntime, TargetsInRange, ResolvedWell, EdgesOf;
    assert Filled(src, s, s.packages[i], base[i]) && Rooted(src, origin, s, base[i], i);
    var p := PathOf(src.checkouts[key], r);
    assert Contains(src, key, r, p);
    if i >= |origin| {
      var k: string, t: nat :| Gave(src, s, base[i], i, k, t);
      var c := src.checkouts[k];
      assert PathOf(c, t) == p && Contains(src, k, t, p);
      NothingGiven(src, s, k, t);
    }
  }

  lemma NothingGiven(src: Sources, s: Run, k: string, t: nat)
    requires src.Valid() && k in src.checkouts && t < |src.checkouts[k].graph.packages|
    requires Covers(s.indexes, src.checkouts[k])
    requires EdgesOf(src.checkouts[k], t, s.indexes) == []
    ensures NoRuntime(src.checkouts[k].graph.packages[t].dependencies)
  {
    NothingSpliced(src.checkouts[k].graph.packages[t].dependencies, src.checkouts[k], s.indexes);
  }

  // ----- the pass -----

  /** The first upTo edges of a package have no open Git edge among them. */
  predicate ClosedTo(n: PackageNode, upTo: nat) {
    forall j :: 0 <= j < |n.dependencies| && j < upTo ==> !Open(n.dependencies[j])
  }

  predicate AllClosed(packages: seq<PackageNode>, upTo: nat) {
    forall i :: 0 <= i < |packages| && i < upTo ==> ClosedTo(packages[i], |packages[i].dependencies|)
  }

  /** The index of the packages the pass starts with: the first package of each path. */
  method IndexPackages(origin: seq<PackageNode>) returns (indexes: Indexes)
    ensures Indexed(indexes, |origin|)
    ensures forall p :: p in indexes ==> origin[indexes[p]].root == p
    ensures forall i :: 0 <= i < |origin| ==> origin[i].root in indexes && indexes[origin[i].root] <= i
  {
    indexes := map[];
    for i := 0 to |origin|
      invariant forall p :: p in indexes ==> indexes[p] < i && origin[indexes[p]].root == p
      invariant forall j :: 0 <= j < i ==> origin[j].root in indexes && indexes[origin[j].root] <= j
    {
      if origin[i].root !in indexes {
        indexes := indexes[origin[i].root := i];
      }
    }
  }

  /** The repository behind edge e has been resolved. */
  predicate Settled(src: Sources, s: Run, n: PackageNode, e: DependencyEdge) {
    Locate(src, n, e).Some? && Locate(src, n, e).value.key in s.resolved
  }

  /** What a merge on behalf of edge j of package i leaves behind. */
  lemma MergeFacts(src: Sources, origin: seq<PackageNode>, s: Run, base: seq<seq<DependencyEdge>>, i: nat,
                   key: string, repository: string, now: seq<PackageNode>, indexes: Indexes)
    requires src.Valid() && Inv(src, origin, s, base) && key in src.checkouts && key !in s.resolved
    requires i < |s.packages| && s.packages[i].dependencies != []
    requires Merged(s.packages, s.indexes, src.checkouts[key], repository, now, indexes)
    requires Located(src, Location(repository, key))
    ensures src.checkouts[key].canonicalRoot in indexes && |s.packages| <= |now| && |base| <= |now|
    ensures now[i].name == s.packages[i].name && now[i].version == s.packages[i].version
    ensures now[i].dependencies == s.packages[i].dependencies
    ensures var at := indexes[src.checkouts[key].canonicalRoot];
      Inv(src, origin, Run(now, indexes, s.resolved[key := at]), Rebased(base, now))
    ensures s.resolved.Keys <= src.checkouts.Keys
    ensures SameManifests(src, origin) ==> EdgesKept(s.packages, now)
  {
    var c := src.checkouts[key];
    assert PathOf(c, c.graph.root) == c.canonicalRoot;
    assert KeepsPackage(s.packages, s.indexes, c, repository, now, indexes, i);
    MergeKeeps(src, origin, s, base, key, repository, Run(now, indexes, s.resolved[key := indexes[c.canonicalRoot]]));
    if SameManifests(src, origin) {
      forall t | 0 <= t < |s.packages| ensures now[t].dependencies == s.packages[t].dependencies {
        MergeLeavesEdges(src, origin, s, base, key, repository, now, indexes, t);
      }
    }
  }

  predicate EdgesKept(was: seq<PackageNode>, now: seq<PackageNode>) {
    |was| <= |now| && forall t :: 0 <= t < |was| ==> now[t].dependencies == was[t].dependencies
  }

  lemma InvFacts(src: Sources, origin: seq<PackageNode>, s: Run, base: seq<seq<DependencyEdge>>)
    requires src.Valid() && Inv(src, origin, s, base)
    ensures Indexed(s.indexes, |s.packages|) && |base| == |s.packages| && s.resolved.Keys <= src.checkouts.Keys
  {
  }

  /** The target of one open Git edge: what its repository was resolved to, or a new merge. Nothing
      is returned, and nothing changed, when the edge is blocked. */
  method TargetOf(src: Sources, ghost origin: seq<PackageNode>, before: Run, ghost base: seq<seq<DependencyEdge>>,
                  i: nat, j: nat)
    returns (target: Option<nat>, s: Run, ghost rebased: seq<seq<DependencyEdge>>)
    requires src.Valid() && Inv(src, origin, before, base)
    requires i < |before.packages| && j < |before.packages[i].dependencies|
    ensures Inv(src, origin, s, rebased) && |before.packages| <= |s.packages|
    ensures var n := before.packages[i]; var e := n.dependencies[j];
      target.None? <==> (Blocked(src, n, e) && !Settled(src, before, n, e))
    ensures target.None? ==> s == before
    ensures s.packages[i].dependencies == before.packages[i].dependencies
    ensures target.Some? ==>
      var where := Locate(src, s.packages[i], s.packages[i].dependencies[j]);
      where.Some? && where.value.key in s.resolved && s.resolved[where.value.key] == target.value
    ensures s.resolved.Keys <= src.checkouts.Keys
    ensures s == before || before.resolved.Keys < s.resolved.Keys
    ensures SameManifests(src, origin) ==> EdgesKept(before.packages, s.packages)
  {
    hide Inv, Merged, SameManifests, Acceptable, WellFormed;
    s, rebased := before, base;
    InvFacts(src, origin, s, base);
    var n := s.packages[i];
    var edge := n.dependencies[j];
    var where := Locate(src, n, edge);
    if where.None? {
      return None, s, rebased;
    }
    var key := where.value.key;
    if key in s.resolved {
      return Some(s.resolved[key]), s, rebased;
    }
    if key !in src.checkouts {
      return None, s, rebased;
    }
    var c := src.checkouts[key];
    RootExists(c);
    if !Acceptable(src, n, edge, c) {
      return None, s, rebased;
    }
    var packages, indexes := Merge(s.packages, s.indexes, c, where.value.repository);
    assert Located(src, Location(where.value.repository, key));
    MergeFacts(src, origin, s, base, i, key, where.value.repository, packages, indexes);
    var at := indexes[c.canonicalRoot];
    s, rebased := Run(packages, indexes, s.resolved[key := at]), Rebased(base, packages);
    return Some(at), s, rebased;
  }

  lemma RootExists(c: Checkout)
    requires WellFormed(c)
    ensures c.graph.root < |c.graph.packages|
  {
  }

  /** Gives the open edge j of package i its target. */
  method ResolveEdge(src: Sources, ghost origin: seq<PackageNode>, before: Run, ghost base: seq<seq<DependencyEdge>>,
                     i: nat, j: nat)
    returns (ok: bool, s: Run, ghost rebased: seq<seq<DependencyEdge>>)
    requires src.Valid() && Inv(src, origin, before, base)
    requires i < |before.packages| && j < |before.packages[i].dependencies| && Open(before.packages[i].dependencies[j])
    ensures Inv(src, origin, s, rebased) && |before.packages| <= |s.packages|
    ensures |s.packages[i].dependencies| == |before.packages[i].dependencies|
    ensures !ok ==> s == before && Blocked(src, s.packages[i], s.packages[i].dependencies[j])
    ensures Progress(src, before, s)
    ensures ok && SameManifests(src, origin) && AllClosed(before.packages, i) && ClosedTo(before.packages[i], j) ==>
      AllClosed(s.packages, i) && ClosedTo(s.packages[i], j + 1)
  {
    hide Inv, SameManifests, Blocked, Settled, Locate, EdgesKept, AllClosed, ClosedTo;
    var target;
    target, s, rebased := TargetOf(src, origin, before, base, i, j);
    ProgressOf(src, before, s);
    if target.None? {
      return false, s, rebased;
    }
    LinkKeeps(src, origin, s, rebased, i, j);
    LinkCloses(before.packages, s.packages, i, j, target.value);
    s := s.(packages := Linked(s.packages, i, j, target.value));
    ok := true;
  }

  /** Repositories only get resolved, and the graph only grows when one does. */
  ghost predicate Progress(src: Sources, before: Run, s: Run) {
    && s.resolved.Keys <= src.checkouts.Keys
    && |src.checkouts.Keys - s.resolved.Keys| <= |src.checkouts.Keys - before.resolved.Keys|
    && (|src.checkouts.Keys - s.resolved.Keys| == |src.checkouts.Keys - before.resolved.Keys| ==>
          |s.packages| == |before.packages|)
  }

  lemma ProgressOf(src: Sources, before: Run, s: Run)
    requires s.resolved.Keys <= src.checkouts.Keys
    requires s == before || before.resolved.Keys < s.resolved.Keys
    ensures Progress(src, before, s)
  {
    FewerLeft(src.checkouts.Keys, before.resolved.Keys, s.resolved.Keys);
  }

  /** Gives every open edge of package i its target. */
  method ResolvePackage(src: Sources, ghost origin: seq<PackageNode>, before: Run,
                        ghost was: seq<seq<DependencyEdge>>, i: nat)
    returns (ok: bool, s: Run, ghost base: seq<seq<DependencyEdge>>)
    requires src.Valid() && Inv(src, origin, before, was) && i < |before.packages|
    ensures Inv(src, origin, s, base) && i < |s.packages|
    ensures !ok ==> exists j :: 0 <= j < |s.packages[i].dependencies| && Stuck(src, s.packages[i], j)
    ensures ok ==> Progress(src, before, s)
    ensures ok && SameManifests(src, origin) && AllClosed(before.packages, i) ==> AllClosed(s.packages, i + 1)
  {
    hide Inv, SameManifests, Blocked;
    s, base := before, was;
    InvFacts(src, origin, s, base);
    var j: nat := 0;
    while j < |s.packages[i].dependencies|
      invariant i < |s.packages|
      invariant Inv(src, origin, s, base) && Progress(src, before, s)
      invariant SameManifests(src, origin) && AllClosed(before.packages, i) ==>
        AllClosed(s.packages, i) && ClosedTo(s.packages[i], j)
      decreases |s.packages[i].dependencies| - j
    {
      if Open(s.packages[i].dependencies[j]) {
        ok, s, base := ResolveEdge(src, origin, s, base, i, j);
        if !ok {
          assert Stuck(src, s.packages[i], j);
          return;
        }
      }
      j := j + 1;
    }
    ok := true;
  }

  ghost predicate Stuck(src: Sources, n: PackageNode, j: nat)
    requires src.Valid() && j < |n.dependencies|
  {
    Open(n.dependencies[j]) && Blocked(src, n, n.dependencies[j])
  }

  /** The whole pass. It ends however the manifests refer to each other, because there are only
      finitely many checkouts; on success no Git edge is left without a target. */
  method ResolveGitDependencies(src: Sources, origin: seq<PackageNode>)
    returns (ok: bool, s: Run, ghost base: seq<seq<DependencyEdge>>)
    requires src.Valid() && TargetsInRange(origin)
    ensures Inv(src, origin, s, base)
    ensures ok && SameManifests(src, origin) ==> AllClosed(s.packages, |s.packages|)
    ensures !ok ==>
      (exists i, j :: 0 <= i < |s.packages| && 0 <= j < |s.packages[i].dependencies| && Stuck(src, s.packages[i], j))
  {
    hide Inv, SameManifests, Stuck, ClosedTo;
    var indexes := IndexPackages(origin);
    s := Run(origin, indexes, map[]);
    base := seq(|origin|, i requires 0 <= i < |origin| => origin[i].dependencies);
    StartHolds(src, origin, s, base);
    var i: nat := 0;
    while i < |s.packages|
      invariant Inv(src, origin, s, base)
      invariant SameManifests(src, origin) ==> AllClosed(s.packages, i)
      decreases |src.checkouts.Keys - s.resolved.Keys|, |s.packages| - i
    {
      ok, s, base := ResolvePackage(src, origin, s, base, i);
      if !ok {
        return;
      }
      i := i + 1;
    }
    ok := true;
  }

  lemma FewerLeft(all: set<string>, was: set<string>, now: set<string>)
    requires was <= now <= all
    ensures all - now <= all - was
    ensures was < now ==> |all - now| < |all - was|
  {
    if was < now {
      var k :| k in now && k !in was;
      assert k in all - was && k !in all - now;
      SmallerSet(all - now, all - was - {k});
    }
  }

  lemma SmallerSet(a: set<string>, b: set<string>)
    requires a <= b
    ensures |a| <= |b| && (|a| == |b| ==> a == b)
  {
    assert b == a + (b - a);
    if |a| == |b| {
      assert |b - a| == 0;
    }
  }

  lemma StartHolds(src: Sources, origin: seq<PackageNode>, s: Run, base: seq<seq<DependencyEdge>>)
    requires src.Valid() && TargetsInRange(origin) && s.packages == origin && s.resolved == map[]
    requires Indexed(s.indexes, |origin|) && forall p :: p in s.indexes ==> origin[s.indexes[p]].root == p
    requires |base| == |origin| && forall i :: 0 <= i < |origin| ==> base[i] == origin[i].dependencies
    ensures Inv(src, origin, s, base)
  {
    forall i | 0 <= i < |base|
      ensures Filled(src, s, s.packages[i], base[i]) && Rooted(src, origin, s, base[i], i)
    {
    }
  }

  lemma LinkCloses(before: seq<PackageNode>, now: seq<PackageNode>, i: nat, j: nat, target: nat)
    requires i < |before| && i < |now| && j < |now[i].dependencies|
    ensures EdgesKept(before, now) && AllClosed(before, i) && ClosedTo(before[i], j) ==>
      AllClosed(Linked(now, i, j, target), i) && ClosedTo(Linked(now, i, j, target)[i], j + 1)
  {
    if EdgesKept(before, now) && AllClosed(before, i) && ClosedTo(before[i], j) {
      var later := Linked(now, i, j, target);
      forall t | 0 <= t < |later| && t < i ensures ClosedTo(later[t], |later[t].dependencies|) {
        assert later[t] == now[t] && ClosedTo(before[t], |before[t].dependencies|);
      }
    }
  }
}
