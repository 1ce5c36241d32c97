/** Git dependencies of a resolved graph: each repository is checked out once, its own resolved graph
    is spliced in by path, and every Git edge gets its target. */
module GitMerge {
  import opened Wrappers
  import opened PackageGraph

  /** A validated checkout: the directory it was validated at, the directory its package is taken
      from (that of a downloaded artifact, when there is one), and its resolved graph. */
  datatype Checkout = Checkout(
    canonicalRoot: CanonicalPath,
    packageRoot: CanonicalPath,
    commit: string,
    artifacts: seq<PackageArtifact>,
    graph: DependencyGraph)

  type Indexes = map<CanonicalPath, nat>

  predicate InRange(edges: seq<DependencyEdge>, size: nat) {
    forall j :: 0 <= j < |edges| && edges[j].target.Some? ==> edges[j].target.value < size
  }

  predicate TargetsInRange(packages: seq<PackageNode>) {
    forall i :: 0 <= i < |packages| ==> InRange(packages[i].dependencies, |packages|)
  }

  /** Every indexed path names a package, and different paths name different packages. */
  predicate Indexed(indexes: Indexes, size: nat) {
    && (forall p :: p in indexes ==> indexes[p] < size)
    && forall p, q :: p in indexes && q in indexes && indexes[p] == indexes[q] ==> p == q
  }

  predicate Extends(was: Indexes, now: Indexes) {
    forall p :: p in was ==> p in now && now[p] == was[p]
  }

  /** The path by which package r of a checkout is known. */
  function PathOf(c: Checkout, r: nat): (p: CanonicalPath)
    requires r < |c.graph.packages|
  {
    if r == c.graph.root then c.canonicalRoot else c.graph.packages[r].root
  }

  /** What validation guarantees of the graph of a checkout. */
  predicate WellFormed(c: Checkout) {
    && c.graph.root < |c.graph.packages|
    && TargetsInRange(c.graph.packages)
    && forall r, t :: 0 <= r < t < |c.graph.packages| ==> PathOf(c, r) != PathOf(c, t)
  }

  predicate Covers(indexes: Indexes, c: Checkout) {
    forall r :: 0 <= r < |c.graph.packages| ==> PathOf(c, r) in indexes
  }

  // ----- the nodes -----

  function RootNode(c: Checkout, repository: string): (n: PackageNode)
    requires c.graph.root < |c.graph.packages|
  {
    var resolved := c.graph.packages[c.graph.root];
    PackageNode(resolved.name, resolved.version, c.packageRoot, Git, repository, c.commit, c.artifacts, [])
  }

  /** A package appended for package r of the checkout, still without edges. */
  function NewNode(c: Checkout, repository: string, r: nat): (n: PackageNode)
    requires r < |c.graph.packages| && c.graph.root < |c.graph.packages|
  {
    if r == c.graph.root then RootNode(c, repository)
    else c.graph.packages[r].(artifacts := [], dependencies := [])
  }

  /** What becomes of a package that is already known by the checkout's path. */
  function Overwritten(n: PackageNode, c: Checkout, repository: string): (r: PackageNode) {
    n.(root := c.packageRoot, source := Git, sourceReference := repository, resolvedCommit := c.commit,
       artifacts := c.artifacts)
  }

  function Kept(n: PackageNode, c: Checkout, repository: string, isTarget: bool): (r: PackageNode) {
    if isTarget then Overwritten(n, c, repository) else n
  }

  /** Earlier packages keep their index; only the one known by the checkout's path changes. */
  ghost predicate KeepsNodes(was: seq<PackageNode>, known: Indexes, c: Checkout, repository: string,
                             now: seq<PackageNode>) {
    && |was| <= |now|
    && forall i :: 0 <= i < |was| ==>
         now[i] == Kept(was[i], c, repository, c.canonicalRoot in known && known[c.canonicalRoot] == i)
  }

  /** Packages of the checkout handled so far are indexed; those not known before have a new node. */
  ghost predicate Given(size: nat, known: Indexes, c: Checkout, repository: string, now: seq<PackageNode>,
                        indexes: Indexes, upTo: nat)
    requires c.graph.root < |c.graph.packages|
  {
    forall r :: 0 <= r < |c.graph.packages| && Done(c, upTo, r) ==>
      && PathOf(c, r) in indexes
      && (PathOf(c, r) !in known ==>
           size <= indexes[PathOf(c, r)] < |now| && now[indexes[PathOf(c, r)]] == NewNode(c, repository, r))
  }

  /** Index i was given to a package of the checkout whose path was not known before. */
  ghost predicate FromCheckout(c: Checkout, known: Indexes, indexes: Indexes, i: nat) {
    exists r :: 0 <= r < |c.graph.packages| && PathOf(c, r) !in known && PathOf(c, r) in indexes &&
      indexes[PathOf(c, r)] == i
  }

  ghost predicate PathFrom(known: Indexes, c: Checkout, upTo: nat, p: CanonicalPath) {
    p in known || exists r :: 0 <= r < |c.graph.packages| && Done(c, upTo, r) && PathOf(c, r) == p
  }

  /** Nothing is appended or indexed that does not come from the checkout. */
  ghost predicate Traced(size: nat, known: Indexes, c: Checkout, now: seq<PackageNode>, indexes: Indexes, upTo: nat) {
    && (forall i :: size <= i < |now| ==> FromCheckout(c, known, indexes, i))
    && forall p :: p in indexes ==> PathFrom(known, c, upTo, p)
  }

  /** Placing as far as package upTo of the checkout (its root is placed first). */
  ghost predicate PlacedTo(was: seq<PackageNode>, known: Indexes, c: Checkout, repository: string,
                           now: seq<PackageNode>, indexes: Indexes, upTo: nat)
    requires WellFormed(c)
  {
    && KeepsNodes(was, known, c, repository, now)
    && Indexed(indexes, |now|) && Extends(known, indexes)
    && Given(|was|, known, c, repository, now, indexes, upTo)
    && Traced(|was|, known, c, now, indexes, upTo)
  }

  predicate Done(c: Checkout, upTo: nat, r: nat) {
    r < upTo || r == c.graph.root
  }

  lemma RootPlaced(was: seq<PackageNode>, known: Indexes, c: Checkout, repository: string)
    requires WellFormed(c) && Indexed(known, |was|)
    ensures var p := c.canonicalRoot;
      if p in known then
        PlacedTo(was, known, c, repository, was[known[p] := Overwritten(was[known[p]], c, repository)], known, 0)
      else PlacedTo(was, known, c, repository, was + [RootNode(c, repository)], known[p := |was|], 0)
  {
    var p := c.canonicalRoot;
    assert PathOf(c, c.graph.root) == p && Done(c, 0, c.graph.root);
    if p !in known {
      assert FromCheckout(c, known, known[p := |was|], |was|);
      assert PathFrom(known, c, 0, p);
    }
  }

  lemma KnownStep(was: seq<PackageNode>, known: Indexes, c: Checkout, repository: string, now: seq<PackageNode>,
                  indexes: Indexes, r: nat)
    requires WellFormed(c) && r < |c.graph.packages|
    requires PlacedTo(was, known, c, repository, now, indexes, r)
    requires PathOf(c, r) in indexes
    ensures PlacedTo(was, known, c, repository, now, indexes, r + 1)
  {
    hide KeepsNodes, Indexed, Extends;
    var p := PathOf(c, r);
    assert PathFrom(known, c, r, p);
    assert p in known || Done(c, r, r);
    forall q | q in indexes ensures PathFrom(known, c, r + 1, q) {
      PathFromGrows(known, c, r, q);
    }
  }

  lemma PathFromGrows(known: Indexes, c: Checkout, r: nat, q: CanonicalPath)
    requires PathFrom(known, c, r, q)
    ensures PathFrom(known, c, r + 1, q)
  {
    if q !in known {
      var t :| 0 <= t < |c.graph.packages| && Done(c, r, t) && PathOf(c, t) == q;
      assert Done(c, r + 1, t);
    }
  }

  lemma NewStep(was: seq<PackageNode>, known: Indexes, c: Checkout, repository: string, now: seq<PackageNode>,
                indexes: Indexes, r: nat)
    requires WellFormed(c) && r < |c.graph.packages|
    requires PlacedTo(was, known, c, repository, now, indexes, r)
    requires r != c.graph.root && PathOf(c, r) !in indexes
    ensures var later, grown := now + [NewNode(c, repository, r)], indexes[PathOf(c, r) := |now|];
      PlacedTo(was, known, c, repository, later, grown, r + 1)
  {
    NewIsGiven(was, known, c, repository, now, indexes, r);
    NewIsTraced(was, known, c, repository, now, indexes, r);
    hide Given, Traced, NewNode, WellFormed;
  }

  lemma NewIsGiven(was: seq<PackageNode>, known: Indexes, c: Checkout, repository: string, now: seq<PackageNode>,
                   indexes: Indexes, r: nat)
    requires WellFormed(c) && r < |c.graph.packages|
    requires PlacedTo(was, known, c, repository, now, indexes, r)
    requires PathOf(c, r) !in indexes
    ensures Given(|was|, known, c, repository, now + [NewNode(c, repository, r)], indexes[PathOf(c, r) := |now|], r + 1)
  {
    hide NewNode, Traced, Kept, Indexed, TargetsInRange;
    forall t | 0 <= t < |c.graph.packages| && Done(c, r + 1, t) && t != r
      ensures Done(c, r, t) && PathOf(c, t) in indexes && PathOf(c, t) != PathOf(c, r)
    {
    }
  }

  lemma NewIsTraced(was: seq<PackageNode>, known: Indexes, c: Checkout, repository: string, now: seq<PackageNode>,
                    indexes: Indexes, r: nat)
    requires WellFormed(c) && r < |c.graph.packages|
    requires PlacedTo(was, known, c, repository, now, indexes, r)
    requires PathOf(c, r) !in indexes
    ensures Traced(|was|, known, c, now + [NewNode(c, repository, r)], indexes[PathOf(c, r) := |now|], r + 1)
  {
    hide NewNode, Given, KeepsNodes, Indexed, TargetsInRange, WellFormed;
    var p := PathOf(c, r);
    var grown := indexes[p := |now|];
    forall i | |was| <= i <= |now|
      ensures FromCheckout(c, known, grown, i)
    {
      if i < |now| {
        assert FromCheckout(c, known, indexes, i);
      } else {
        assert grown[p] == i && p !in known;
      }
    }
    forall q | q in grown
      ensures PathFrom(known, c, r + 1, q)
    {
      if q == p {
        assert Done(c, r + 1, r);
      } else {
        PathFromGrows(known, c, r, q);
      }
    }
  }

  predicate Remaps(remapped: seq<nat>, indexes: Indexes, c: Checkout)
  {
    && |remapped| == |c.graph.packages|
    && forall r :: 0 <= r < |remapped| ==> PathOf(c, r) in indexes && remapped[r] == indexes[PathOf(c, r)]
  }

  ghost predicate RemapsTo(remapped: seq<nat>, indexes: Indexes, c: Checkout, upTo: nat) {
    && |remapped| == |c.graph.packages|
    && forall r :: 0 <= r < |remapped| && Done(c, upTo, r) ==>
         PathOf(c, r) in indexes && remapped[r] == indexes[PathOf(c, r)]
  }

  lemma RemapStep(remapped: seq<nat>, indexes: Indexes, grown: Indexes, c: Checkout, r: nat)
    requires r < |c.graph.packages| && RemapsTo(remapped, indexes, c, r) && Extends(indexes, grown)
    requires PathOf(c, r) in grown
    ensures RemapsTo(remapped[r := grown[PathOf(c, r)]], grown, c, r + 1)
  {
  }

  /** Places the checkout's packages and records where each one is. */
  method PlacePackages(was: seq<PackageNode>, known: Indexes, c: Checkout, repository: string)
    returns (packages: seq<PackageNode>, indexes: Indexes, remapped: seq<nat>)
    requires WellFormed(c) && Indexed(known, |was|)
    ensures PlacedTo(was, known, c, repository, packages, indexes, |c.graph.packages|)
    ensures Remaps(remapped, indexes, c)
  {
    hide PlacedTo, Extends, Indexed, RemapsTo;
    packages, indexes := was, known;
    var targetIndex: nat;
    RootPlaced(was, known, c, repository);
    KnownInRange(known, |was|);
    if c.canonicalRoot in indexes {
      targetIndex := indexes[c.canonicalRoot];
      packages := packages[targetIndex := Overwritten(packages[targetIndex], c, repository)];
    } else {
      targetIndex := |packages|;
      packages := packages + [RootNode(c, repository)];
      indexes := indexes[c.canonicalRoot := targetIndex];
    }
    remapped := seq(|c.graph.packages|, _ => 0);
    remapped := remapped[c.graph.root := targetIndex];
    FirstRemap(remapped, indexes, c);
    for r := 0 to |c.graph.packages|
      invariant |remapped| == |c.graph.packages|
      invariant PlacedTo(was, known, c, repository, packages, indexes, r)
      invariant RemapsTo(remapped, indexes, c, r)
    {
      if r == c.graph.root {
        RootIsKnown(was, known, c, repository, packages, indexes, r);
        KnownStep(was, known, c, repository, packages, indexes, r);
        RootRemap(remapped, indexes, c);
        continue;
      }
      if c.graph.packages[r].root in indexes {
        KnownStep(was, known, c, repository, packages, indexes, r);
        ExtendsSelf(indexes);
        RemapStep(remapped, indexes, indexes, c, r);
        remapped := remapped[r := indexes[c.graph.packages[r].root]];
        continue;
      }
      NewStep(was, known, c, repository, packages, indexes, r);
      ExtendsNew(indexes, c.graph.packages[r].root, |packages|);
      RemapStep(remapped, indexes, indexes[c.graph.packages[r].root := |packages|], c, r);
      remapped := remapped[r := |packages|];
      packages := packages + [NewNode(c, repository, r)];
      indexes := indexes[c.graph.packages[r].root := remapped[r]];
    }
    AllRemapped(remapped, indexes, c);
  }

  lemma RootIsKnown(was: seq<PackageNode>, known: Indexes, c: Checkout, repository: string, now: seq<PackageNode>,
                    indexes: Indexes, upTo: nat)
    requires WellFormed(c) && PlacedTo(was, known, c, repository, now, indexes, upTo)
    ensures c.canonicalRoot in indexes
  {
    assert PathOf(c, c.graph.root) == c.canonicalRoot && Done(c, upTo, c.graph.root);
  }

  lemma KnownInRange(known: Indexes, size: nat)
    requires Indexed(known, size)
    ensures forall p :: p in known ==> known[p] < size
  {
  }

  lemma ExtendsSelf(indexes: Indexes)
    ensures Extends(indexes, indexes)
  {
  }

  lemma ExtendsNew(indexes: Indexes, p: CanonicalPath, i: nat)
    requires p !in indexes
    ensures Extends(indexes, indexes[p := i])
  {
  }

  lemma FirstRemap(remapped: seq<nat>, indexes: Indexes, c: Checkout)
    requires |remapped| == |c.graph.packages| && c.graph.root < |remapped|
    requires c.canonicalRoot in indexes && remapped[c.graph.root] == indexes[c.canonicalRoot]
    ensures RemapsTo(remapped, indexes, c, 0)
  {
  }

  lemma RootRemap(remapped: seq<nat>, indexes: Indexes, c: Checkout)
    requires c.graph.root < |c.graph.packages| && RemapsTo(remapped, indexes, c, c.graph.root)
    ensures RemapsTo(remapped, indexes, c, c.graph.root + 1)
  {
  }

  lemma AllRemapped(remapped: seq<nat>, indexes: Indexes, c: Checkout)
    requires RemapsTo(remapped, indexes, c, |c.graph.packages|)
    ensures Remaps(remapped, indexes, c)
  {
    forall r | 0 <= r < |c.graph.packages| ensures Done(c, |c.graph.packages|, r) {
    }
  }

  // ----- the edges -----

  /** The edge with its target taken over by path. */
  function Redirected(e: DependencyEdge, c: Checkout, indexes: Indexes): (r: DependencyEdge)
    requires Covers(indexes, c) && InRange([e], |c.graph.packages|)
  {
    if e.target.None? then e
    else
      assert [e][0] == e;
      e.(target := Some(indexes[PathOf(c, e.target.value)]))
  }

  /** The runtime edges among these, in order, each redirected. */
  function Spliced(edges: seq<DependencyEdge>, c: Checkout, indexes: Indexes): (r: seq<DependencyEdge>)
    requires Covers(indexes, c) && InRange(edges, |c.graph.packages|)
  {
    if edges == [] then []
    else
      var last := edges[|edges| - 1];
      var init := Spliced(edges[..|edges| - 1], c, indexes);
      if last.scope.Development? then init
      else
        assert InRange([last], |c.graph.packages|);
        init + [Redirected(last, c, indexes)]
  }

  /** The edges package r of the checkout gets when it has none yet. */
  function EdgesOf(c: Checkout, r: nat, indexes: Indexes): (edges: seq<DependencyEdge>)
    requires WellFormed(c) && Covers(indexes, c) && r < |c.graph.packages|
  {
    Spliced(c.graph.packages[r].dependencies, c, indexes)
  }

  lemma {:induction false} SplicedInRange(edges: seq<DependencyEdge>, c: Checkout, indexes: Indexes, size: nat)
    requires Covers(indexes, c) && InRange(edges, |c.graph.packages|) && Indexed(indexes, size)
    ensures InRange(Spliced(edges, c, indexes), size)
  {
    if edges != [] {
      SplicedInRange(edges[..|edges| - 1], c, indexes, size);
    }
  }

  lemma {:induction false} SplicedStays(edges: seq<DependencyEdge>, c: Checkout, indexes: Indexes, grown: Indexes)
    requires Covers(indexes, c) && Covers(grown, c) && InRange(edges, |c.graph.packages|) && Extends(indexes, grown)
    ensures Spliced(edges, c, grown) == Spliced(edges, c, indexes)
  {
    if edges != [] {
      SplicedStays(edges[..|edges| - 1], c, indexes, grown);
    }
  }

  ghost predicate SplicedTo(was: seq<PackageNode>, c: Checkout, indexes: Indexes, now: seq<PackageNode>, upTo: nat)
    requires WellFormed(c) && Covers(indexes, c) && Indexed(indexes, |was|) && upTo <= |c.graph.packages|
  {
    && |now| == |was|
    && (forall i :: 0 <= i < |was| ==> now[i] == was[i].(dependencies := now[i].dependencies))
    && (forall i :: 0 <= i < |was| && now[i].dependencies != was[i].dependencies ==>
         was[i].dependencies == [] && Receives(c, indexes, i))
    && (forall r :: 0 <= r < upTo ==> Endowed(was, c, indexes, now, r))
    && forall r :: upTo <= r < |c.graph.packages| ==> now[indexes[PathOf(c, r)]] == was[indexes[PathOf(c, r)]]
  }

  ghost predicate Receives(c: Checkout, indexes: Indexes, i: nat)
    requires Covers(indexes, c)
  {
    exists r :: 0 <= r < |c.graph.packages| && indexes[PathOf(c, r)] == i
  }

  ghost predicate Endowed(was: seq<PackageNode>, c: Checkout, indexes: Indexes, now: seq<PackageNode>, r: nat)
    requires WellFormed(c) && Covers(indexes, c) && Indexed(indexes, |was|) && |now| == |was| && r < |c.graph.packages|
  {
    var i := indexes[PathOf(c, r)];
    now[i].dependencies == if was[i].dependencies != [] then was[i].dependencies else EdgesOf(c, r, indexes)
  }

  lemma SpliceStep(was: seq<PackageNode>, c: Checkout, indexes: Indexes, now: seq<PackageNode>, r: nat)
    requires WellFormed(c) && Covers(indexes, c) && Indexed(indexes, |was|) && r < |c.graph.packages|
    requires SplicedTo(was, c, indexes, now, r)
    ensures var i := indexes[PathOf(c, r)];
      if now[i].dependencies != [] then SplicedTo(was, c, indexes, now, r + 1)
      else SplicedTo(was, c, indexes, now[i := now[i].(dependencies := EdgesOf(c, r, indexes))], r + 1)
  {
    hide EdgesOf;
    var i := indexes[PathOf(c, r)];
    assert Receives(c, indexes, i);
    forall t | 0 <= t < |c.graph.packages| && t != r ensures indexes[PathOf(c, t)] != i {
    }
    if now[i].dependencies == [] {
      var later := now[i := now[i].(dependencies := EdgesOf(c, r, indexes))];
      assert now[i] == was[i];
      forall t | 0 <= t < r + 1 ensures Endowed(was, c, indexes, later, t) {
        if t < r {
          assert Endowed(was, c, indexes, now, t);
        }
      }
    } else {
      assert now[i] == was[i];
    }
  }

  lemma SpliceStarts(was: seq<PackageNode>, c: Checkout, indexes: Indexes)
    requires WellFormed(c) && Covers(indexes, c) && Indexed(indexes, |was|)
    ensures SplicedTo(was, c, indexes, was, 0)
  {
  }

  /** Appends the runtime edges of package r one by one. */
  method AppendEdges(c: Checkout, r: nat, ghost indexes: Indexes, remapped: seq<nat>)
    returns (edges: seq<DependencyEdge>)
    requires WellFormed(c) && Covers(indexes, c) && Remaps(remapped, indexes, c) && r < |c.graph.packages|
    ensures edges == EdgesOf(c, r, indexes)
  {
    hide Redirected;
    edges := [];
    var resolved := c.graph.packages[r].dependencies;
    for j := 0 to |resolved|
      invariant edges == Spliced(resolved[..j], c, indexes)
    {
      assert resolved[..j + 1][..j] == resolved[..j];
      var edge := resolved[j];
      if edge.scope.Development? {
        continue;
      }
      RedirectedTarget(edge, c, indexes);
      if edge.target.Some? {
        edge := edge.(target := Some(remapped[edge.target.value]));
      }
      edges := edges + [edge];
    }
    assert resolved[..|resolved|] == resolved;
  }

  lemma RedirectedTarget(e: DependencyEdge, c: Checkout, indexes: Indexes)
    requires Covers(indexes, c) && (e.target.Some? ==> e.target.value < |c.graph.packages|)
    ensures InRange([e], |c.graph.packages|)
    ensures Redirected(e, c, indexes) ==
      if e.target.None? then e else e.(target := Some(indexes[PathOf(c, e.target.value)]))
  {
  }

  method SpliceEdges(was: seq<PackageNode>, c: Checkout, ghost indexes: Indexes, remapped: seq<nat>)
    returns (packages: seq<PackageNode>)
    requires WellFormed(c) && Covers(indexes, c) && Indexed(indexes, |was|) && Remaps(remapped, indexes, c)
    ensures SplicedTo(was, c, indexes, packages, |c.graph.packages|)
  {
    hide SplicedTo, EdgesOf;
    packages := was;
    SpliceStarts(was, c, indexes);
    for r := 0 to |c.graph.packages|
      invariant |packages| == |was|
      invariant SplicedTo(was, c, indexes, packages, r)
    {
      SpliceStep(was, c, indexes, packages, r);
      var d := remapped[r];
      if packages[d].dependencies != [] {
        continue;
      }
      var edges := AppendEdges(c, r, indexes, remapped);
      packages := packages[d := packages[d].(dependencies := edges)];
    }
  }

  // ----- one merge -----

  /** What one merge of checkout c does. */
  ghost predicate Merged(was: seq<PackageNode>, known: Indexes, c: Checkout, repository: string,
                         now: seq<PackageNode>, indexes: Indexes)
    requires WellFormed(c)
  {
    && |was| <= |now|
    && Indexed(indexes, |now|) && Extends(known, indexes) && Covers(indexes, c)
    && (forall i :: 0 <= i < |was| ==> KeepsPackage(was, known, c, repository, now, indexes, i))
    && (forall i :: |was| <= i < |now| ==> FromCheckout(c, known, indexes, i))
    && (forall r :: 0 <= r < |c.graph.packages| ==> Gains(was, known, c, repository, now, indexes, r))
    && forall p :: p in indexes ==> PathFrom(known, c, |c.graph.packages|, p)
  }

  /** An earlier package keeps its place, its identity and every edge it had; edges are only given to
      a package that had none and that the checkout also contains. */
  ghost predicate KeepsPackage(was: seq<PackageNode>, known: Indexes, c: Checkout, repository: string,
                               now: seq<PackageNode>, indexes: Indexes, i: nat)
    requires i < |was| <= |now| && Covers(indexes, c)
  {
    && now[i] == Kept(was[i], c, repository, c.canonicalRoot in known && known[c.canonicalRoot] == i)
                 .(dependencies := now[i].dependencies)
    && (now[i].dependencies != was[i].dependencies ==> was[i].dependencies == [] && Receives(c, indexes, i))
  }

  /** The package known by the path of package r carries r's runtime edges, each target being the
      package known by the target's path, unless it had edges already. */
  ghost predicate Gains(was: seq<PackageNode>, known: Indexes, c: Checkout, repository: string, now: seq<PackageNode>,
                        indexes: Indexes, r: nat)
    requires WellFormed(c) && Covers(indexes, c) && Indexed(indexes, |now|) && r < |c.graph.packages|
  {
    var p := PathOf(c, r);
    var i := indexes[p];
    && (p !in known ==> |was| <= i && now[i] == NewNode(c, repository, r).(dependencies := EdgesOf(c, r, indexes)))
    && (i < |was| && was[i].dependencies == [] ==> now[i].dependencies == EdgesOf(c, r, indexes))
  }

  lemma MergeComposes(was: seq<PackageNode>, known: Indexes, c: Checkout, repository: string,
                      placed: seq<PackageNode>, indexes: Indexes, now: seq<PackageNode>)
    requires WellFormed(c) && Indexed(known, |was|)
    requires PlacedTo(was, known, c, repository, placed, indexes, |c.graph.packages|) && Covers(indexes, c)
    requires SplicedTo(placed, c, indexes, now, |c.graph.packages|)
    ensures Merged(was, known, c, repository, now, indexes)
  {
    hide EdgesOf, NewNode, Receives, FromCheckout, PathFrom;
    forall i | 0 <= i < |was| ensures KeepsPackage(was, known, c, repository, now, indexes, i) {
      hide Indexed, Given, Traced, Endowed, Covers;
      assert placed[i] == Kept(was[i], c, repository, c.canonicalRoot in known && known[c.canonicalRoot] == i);
    }
    forall r | 0 <= r < |c.graph.packages| ensures Gains(was, known, c, repository, now, indexes, r) {
      hide Traced, Covers;
      GainsEdges(was, known, c, repository, placed, indexes, now, r);
    }
  }

  lemma GainsEdges(was: seq<PackageNode>, known: Indexes, c: Checkout, repository: string, placed: seq<PackageNode>,
                   indexes: Indexes, now: seq<PackageNode>, r: nat)
    requires WellFormed(c) && Indexed(known, |was|) && r < |c.graph.packages|
    requires PlacedTo(was, known, c, repository, placed, indexes, |c.graph.packages|) && Covers(indexes, c)
    requires SplicedTo(placed, c, indexes, now, |c.graph.packages|)
    ensures Gains(was, known, c, repository, now, indexes, r)
  {
    hide EdgesOf, Receives, FromCheckout, PathFrom, Traced, Covers, TargetsInRange;
    var p := PathOf(c, r);
    var i := indexes[p];
    assert Endowed(placed, c, indexes, now, r);
    assert Done(c, |c.graph.packages|, r);
    if p !in known {
      assert placed[i] == NewNode(c, repository, r);
    }
  }

  lemma PlacedCovers(was: seq<PackageNode>, known: Indexes, c: Checkout, repository: string, now: seq<PackageNode>,
                     indexes: Indexes)
    requires WellFormed(c) && PlacedTo(was, known, c, repository, now, indexes, |c.graph.packages|)
    ensures Covers(indexes, c) && Indexed(indexes, |now|)
  {
    forall r | 0 <= r < |c.graph.packages| ensures PathOf(c, r) in indexes {
      assert Done(c, |c.graph.packages|, r);
    }
  }

  /** Splices a checkout into the graph. */
  method Merge(was: seq<PackageNode>, known: Indexes, c: Checkout, repository: string)
    returns (packages: seq<PackageNode>, indexes: Indexes)
    requires WellFormed(c) && Indexed(known, |was|)
    ensures Merged(was, known, c, repository, packages, indexes)
  {
    hide PlacedTo, SplicedTo, Covers, Indexed, Remaps, Merged;
    var remapped;
    packages, indexes, remapped := PlacePackages(was, known, c, repository);
    ghost var placed := packages;
    PlacedCovers(was, known, c, repository, placed, indexes);
    packages := SpliceEdges(packages, c, indexes, remapped);
    MergeComposes(was, known, c, repository, placed, indexes, packages);
  }

  lemma MergeKeepsRange(was: seq<PackageNode>, known: Indexes, c: Checkout, repository: string, now: seq<PackageNode>,
                        indexes: Indexes)
    requires WellFormed(c) && TargetsInRange(was) && Merged(was, known, c, repository, now, indexes)
    ensures TargetsInRange(now)
  {
    forall i | 0 <= i < |now| ensures InRange(now[i].dependencies, |now|) {
      hide NewNode, PathFrom;
      if i < |was| && now[i].dependencies == was[i].dependencies {
        assert InRange(was[i].dependencies, |was|);
      } else {
        var r := DonorOf(was, known, c, repository, now, indexes, i);
        SplicedInRange(c.graph.packages[r].dependencies, c, indexes, |now|);
      }
    }
  }

  /** The package of the checkout whose edges package i received. */
  lemma DonorOf(was: seq<PackageNode>, known: Indexes, c: Checkout, repository: string, now: seq<PackageNode>,
                indexes: Indexes, i: nat) returns (r: nat)
    requires WellFormed(c) && Merged(was, known, c, repository, now, indexes) && i < |now|
    requires i >= |was| || now[i].dependencies != was[i].dependencies
    ensures r < |c.graph.packages| && indexes[PathOf(c, r)] == i && now[i].dependencies == EdgesOf(c, r, indexes)
    ensures i >= |was| ==>
      PathOf(c, r) !in known && now[i] == NewNode(c, repository, r).(dependencies := EdgesOf(c, r, indexes))
    ensures i < |was| ==> was[i].dependencies == []
  {
    hide EdgesOf, PathFrom, TargetsInRange, Indexed, NewNode;
    if i < |was| {
      assert KeepsPackage(was, known, c, repository, now, indexes, i);
      r :| 0 <= r < |c.graph.packages| && indexes[PathOf(c, r)] == i;
    } else {
      assert FromCheckout(c, known, indexes, i);
      r :| 0 <= r < |c.graph.packages| && PathOf(c, r) !in known && PathOf(c, r) in indexes &&
        indexes[PathOf(c, r)] == i;
    }
    assert Gains(was, known, c, repository, now, indexes, r);
  }

  // ----- what a merge adds, edge by edge and package by package -----

  /** An edge with its target named by path instead of by index. */
  datatype PathEdge = PathEdge(
    alias: string,
    source: DependencySource,
    requestedVersion: string,
    sourceReference: string,
    target: Option<CanonicalPath>)

  /** The runtime edges of a checkout's package. */
  function RuntimeEdges(c: Checkout, edges: seq<DependencyEdge>): (r: seq<PathEdge>)
    requires InRange(edges, |c.graph.packages|)
  {
    if edges == [] then []
    else
      var e := edges[0];
      (if e.scope.Development? then []
       else [PathEdge(e.alias, e.source, e.requestedVersion, e.sourceReference,
               if e.target.None? then None else Some(PathOf(c, e.target.value)))]) +
      RuntimeEdges(c, edges[1..])
  }

  /** Edge d says what x says, its target being the package known by the path. */
  ghost predicate SaysEdge(indexes: Indexes, d: DependencyEdge, x: PathEdge) {
    && d.alias == x.alias && d.source == x.source && d.requestedVersion == x.requestedVersion
    && d.sourceReference == x.sourceReference && d.scope.Runtime?
    && (match x.target
        case None => d.target.None?
        case Some(p) => p in indexes && d.target == Some(indexes[p]))
  }

  lemma {:induction false} RuntimeEdgesLast(c: Checkout, edges: seq<DependencyEdge>)
    requires edges != [] && InRange(edges, |c.graph.packages|)
    ensures var n := |edges| - 1;
      && InRange(edges[..n], |c.graph.packages|) && InRange([edges[n]], |c.graph.packages|)
      && RuntimeEdges(c, edges) == RuntimeEdges(c, edges[..n]) + RuntimeEdges(c, [edges[n]])
    decreases |edges|
  {
    var n := |edges| - 1;
    assert [edges[n]][0] == edges[n];
    if n == 0 {
      assert edges == [edges[0]] && edges[..0] == [];
    } else {
      RuntimeEdgesLast(c, edges[1..]);
      assert edges[1..][..n - 1] == edges[..n][1..] && edges[1..][n - 1] == edges[n];
      assert edges[..n][0] == edges[0];
    }
  }

  /** What a package without edges is given are the runtime edges of the checkout's package, in order. */
  lemma {:induction false} SplicedSays(edges: seq<DependencyEdge>, c: Checkout, indexes: Indexes)
    requires Covers(indexes, c) && InRange(edges, |c.graph.packages|)
    ensures var given, expected := Spliced(edges, c, indexes), RuntimeEdges(c, edges);
      |given| == |expected| && forall j :: 0 <= j < |given| ==> SaysEdge(indexes, given[j], expected[j])
    decreases |edges|
  {
    if edges != [] {
      var n := |edges| - 1;
      SplicedSays(edges[..n], c, indexes);
      RuntimeEdgesLast(c, edges);
      assert [edges[n]][0] == edges[n] && [edges[n]][1..] == [];
    }
  }

  /** Every package of the checkout that was not known by its path is there afterwards: as it was in the
      checkout, without artifacts, and for the checkout's own package as a Git package of this repository
      at this commit, with the artifacts that were downloaded. */
  lemma AppendedIs(was: seq<PackageNode>, known: Indexes, c: Checkout, repository: string, now: seq<PackageNode>,
                   indexes: Indexes, r: nat)
    requires WellFormed(c) && Merged(was, known, c, repository, now, indexes)
    requires r < |c.graph.packages| && PathOf(c, r) !in known
    ensures var n, m := now[indexes[PathOf(c, r)]], c.graph.packages[r];
      && n.name == m.name && n.version == m.version
      && if r == c.graph.root then
           && n.root == c.packageRoot && n.source == Git && n.sourceReference == repository
           && n.resolvedCommit == c.commit && n.artifacts == c.artifacts
         else
           && n.root == PathOf(c, r) && n.source == m.source && n.sourceReference == m.sourceReference
           && n.resolvedCommit == m.resolvedCommit && n.artifacts == []
  {
    assert Gains(was, known, c, repository, now, indexes, r);
  }
}
