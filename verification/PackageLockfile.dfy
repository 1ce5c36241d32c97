/** The lockfile: packages in canonical order, edges with targets renumbered to that order. */
module PackageLockfile {
  import opened Wrappers
  import opened StringOrder
  import opened Sorting
  import opened PackageGraph

  /** The project-relative path of a package root, or "" when there is none. */
  type Relative = (CanonicalPath, CanonicalPath) -> string

  function SourceRank(source: DependencySource): (r: nat) {
    match source
    case Root => 0
    case StandardLibrary => 1
    case Path => 2
    case Git => 3
  }

  function RelativePackageReference(relative: Relative, g: DependencyGraph, n: PackageNode): (r: string)
    requires g.root < |g.packages|
  {
    if n.source != DependencySource.Path then "" else relative(n.root, g.packages[g.root].root)
  }

  function PackageReference(relative: Relative, g: DependencyGraph, n: PackageNode): (r: string)
    requires g.root < |g.packages|
  {
    if n.source == Git then n.sourceReference else RelativePackageReference(relative, g, n)
  }

  predicate PackageLess(relative: Relative, g: DependencyGraph, left: nat, right: nat)
    requires g.root < |g.packages| && left < |g.packages| && right < |g.packages|
  {
    var a, b := g.packages[left], g.packages[right];
    if SourceRank(a.source) != SourceRank(b.source) then SourceRank(a.source) < SourceRank(b.source)
    else if a.name != b.name then Less(a.name, b.name)
    else if a.version != b.version then Less(a.version, b.version)
    else if PackageReference(relative, g, a) != PackageReference(relative, g, b) then
      Less(PackageReference(relative, g, a), PackageReference(relative, g, b))
    else if a.resolvedCommit != b.resolvedCommit then Less(a.resolvedCommit, b.resolvedCommit)
    else false
  }

  /** The comparison as a tuple of strings; the rank is written as one digit. */
  function PackageKey(relative: Relative, g: DependencyGraph): (key: nat -> seq<string>)
    requires g.root < |g.packages|
  {
    (i: nat) =>
      if i >= |g.packages| then ["", "", "", "", ""] else
        var n := g.packages[i];
        [["0123"[SourceRank(n.source)]], n.name, n.version, PackageReference(relative, g, n), n.resolvedCommit]
  }

  function AliasKey(): (key: DependencyEdge -> seq<string>) {
    (e: DependencyEdge) => [e.alias]
  }

  function ArtifactKey(): (key: PackageArtifact -> seq<string>) {
    (a: PackageArtifact) => [a.platform, a.architecture, a.configuration, a.abi, a.release, a.asset, a.sha256]
  }

  lemma {:induction false} LessOne(a: char, b: char)
    ensures Less([a], [b]) <==> a < b
  {
  }

  lemma {:induction false} TupleHead(a: seq<string>, b: seq<string>)
    requires |a| == |b| && a != [] && a[0] != b[0]
    ensures TupleLess(a, b) <==> Less(a[0], b[0])
  {
  }

  lemma {:induction false} TupleSkip(a: seq<string>, b: seq<string>)
    requires |a| == |b| && a != [] && a[0] == b[0]
    ensures TupleLess(a, b) <==> TupleLess(a[1..], b[1..])
  {
    if Less(a[0], b[0]) {
      LessIsStrict(a[0], b[0]);
    }
  }

  /** The chain of comparisons is the lexicographic order of the key tuples. */
  lemma {:induction false} PackageLessIsTupleLess(relative: Relative, g: DependencyGraph, i: nat, j: nat)
    requires g.root < |g.packages| && i < |g.packages| && j < |g.packages|
    ensures PackageLess(relative, g, i, j) <==> TupleLess(PackageKey(relative, g)(i), PackageKey(relative, g)(j))
  {
    var a, b := g.packages[i], g.packages[j];
    var x, y := PackageKey(relative, g)(i), PackageKey(relative, g)(j);
    LessOne("0123"[SourceRank(a.source)], "0123"[SourceRank(b.source)]);
    hide Less, PackageReference;
    if SourceRank(a.source) != SourceRank(b.source) {
      TupleHead(x, y);
    } else {
      TupleSkip(x, y);
      TupleChain(x[1..], y[1..]);
    }
  }

  lemma {:induction false} TupleChain(x: seq<string>, y: seq<string>)
    requires |x| == |y| == 4
    ensures TupleLess(x, y) <==>
      if x[0] != y[0] then Less(x[0], y[0])
      else if x[1] != y[1] then Less(x[1], y[1])
      else if x[2] != y[2] then Less(x[2], y[2])
      else x[3] != y[3] && Less(x[3], y[3])
  {
    hide Less, TupleLess;
    if x[0] != y[0] {
      TupleHead(x, y);
    } else {
      TupleSkip(x, y);
      var x1, y1 := x[1..], y[1..];
      if x1[0] != y1[0] {
        TupleHead(x1, y1);
      } else {
        TupleSkip(x1, y1);
        var x2, y2 := x1[1..], y1[1..];
        if x2[0] != y2[0] {
          TupleHead(x2, y2);
        } else {
          TupleSkip(x2, y2);
          LastOfTuple(x2[1..], y2[1..]);
        }
      }
    }
  }

  lemma {:induction false} LastOfTuple(x: seq<string>, y: seq<string>)
    requires |x| == |y| == 1
    ensures TupleLess(x, y) <==> x[0] != y[0] && Less(x[0], y[0])
  {
    if x[0] == y[0] {
      TupleSkip(x, y);
    } else {
      TupleHead(x, y);
    }
  }

  // ----- the document -----

  datatype DependencyDocument = DependencyDocument(alias: string, requirement: string, target: nat)

  /** Optional members are the JSON fields that are present only sometimes; an artifact writes all its
      fields, its configuration only when not empty. */
  datatype PackageDocument = PackageDocument(
    name: string,
    version: string,
    source: DependencySource,
    reference: Option<string>,
    commit: Option<string>,
    artifacts: Option<seq<PackageArtifact>>,
    dependencies: seq<DependencyDocument>,
    devDependencies: Option<seq<DependencyDocument>>)

  datatype LockError =
    | EmptyGraph
    | InvalidRoot
    | NoRepository(name: string)
    | NoCommit(name: string)
    | NoReference(name: string)
    | UnresolvedTarget(alias: string)
    | InvalidTarget(alias: string)
    | MisplacedDevelopment(alias: string)

  /** The choices the three sorts make: an order of the packages, and for each package, by its index in
      the graph, an order of its edges and of its artifacts. */
  datatype Layout = Layout(ordered: seq<nat>, edges: seq<seq<DependencyEdge>>, artifacts: seq<seq<PackageArtifact>>)

  function NonRootBelow(n: nat, root: nat): (r: seq<nat>) {
    if n == 0 then [] else NonRootBelow(n - 1, root) + if n - 1 == root then [] else [n - 1]
  }

  ghost predicate IsOrder(relative: Relative, g: DependencyGraph, ordered: seq<nat>)
    requires g.root < |g.packages|
  {
    && ordered != [] && ordered[0] == g.root
    && IsSort(PackageKey(relative, g), 5, NonRootBelow(|g.packages|, g.root), ordered[1..])
  }

  ghost predicate IsLayout(relative: Relative, g: DependencyGraph, l: Layout)
    requires g.root < |g.packages|
  {
    && IsOrder(relative, g, l.ordered)
    && |l.edges| == |l.artifacts| == |g.packages|
    && forall i :: 0 <= i < |g.packages| ==>
         && IsSort(AliasKey(), 1, g.packages[i].dependencies, l.edges[i])
         && IsSort(ArtifactKey(), 7, g.packages[i].artifacts, l.artifacts[i])
  }

  function PositionOf(ordered: seq<nat>, t: nat): (k: nat)
    ensures k <= |ordered|
    ensures k < |ordered| ==> ordered[k] == t
    ensures k == |ordered| <==> t !in ordered
  {
    if ordered == [] then 0 else if ordered[0] == t then 0 else 1 + PositionOf(ordered[1..], t)
  }

  function InScope(scope: DependencyScope): (p: DependencyEdge -> bool) {
    (e: DependencyEdge) => e.scope == scope
  }

  function Written(ordered: seq<nat>): (f: DependencyEdge -> DependencyDocument) {
    (e: DependencyEdge) =>
      DependencyDocument(e.alias, e.requestedVersion, if e.target.Some? then PositionOf(ordered, e.target.value)
        else |ordered|)
  }

  function Emit(ordered: seq<nat>, edges: seq<DependencyEdge>, scope: DependencyScope): (r: seq<DependencyDocument>) {
    Map(Written(ordered), Filter(InScope(scope), edges))
  }

  function NonEmpty(s: string): (r: Option<string>) {
    if s == "" then None else Some(s)
  }

  function DocumentOf(relative: Relative, g: DependencyGraph, ordered: seq<nat>, n: PackageNode,
                      edges: seq<DependencyEdge>, artifacts: seq<PackageArtifact>): (d: PackageDocument)
    requires g.root < |g.packages|
  {
    PackageDocument(
      n.name, n.version, n.source,
      NonEmpty(PackageReference(relative, g, n)),
      if n.source == Git then NonEmpty(n.resolvedCommit) else None,
      if artifacts == [] then None else Some(artifacts),
      Emit(ordered, edges, Runtime),
      if Emit(ordered, edges, Development) == [] then None else Some(Emit(ordered, edges, Development)))
  }

  ghost function Render(relative: Relative, g: DependencyGraph, l: Layout): (doc: seq<PackageDocument>)
    requires g.root < |g.packages| && |l.edges| == |l.artifacts| == |g.packages|
    requires forall k :: 0 <= k < |l.ordered| ==> l.ordered[k] < |g.packages|
  {
    seq(|l.ordered|, k requires 0 <= k < |l.ordered| =>
      var i := l.ordered[k];
      DocumentOf(relative, g, l.ordered, g.packages[i], l.edges[i], l.artifacts[i]))
  }

  /** The packages and edges the lockfile can express. */
  ghost predicate Lockable(relative: Relative, g: DependencyGraph) {
    && g.root < |g.packages|
    && forall i :: 0 <= i < |g.packages| ==> LockablePackage(relative, g, i)
  }

  ghost predicate LockablePackage(relative: Relative, g: DependencyGraph, i: nat)
    requires g.root < |g.packages| && i < |g.packages|
  {
    var n := g.packages[i];
    && (n.source == Git ==> n.sourceReference != "" && n.resolvedCommit != "")
    && (n.source == DependencySource.Path ==> RelativePackageReference(relative, g, n) != "")
    && forall k :: 0 <= k < |n.dependencies| ==> LockableEdge(g, i, n.dependencies[k])
  }

  ghost predicate LockableEdge(g: DependencyGraph, i: nat, e: DependencyEdge) {
    && e.target.Some? && e.target.value < |g.packages|
    && (e.scope.Development? ==> i == g.root)
  }

  lemma {:induction false} NonRootIsAllButRoot(n: nat, root: nat)
    ensures Distinct(NonRootBelow(n, root))
    ensures forall i: nat :: i in NonRootBelow(n, root) <==> i < n && i != root
  {
    if n > 0 {
      NonRootIsAllButRoot(n - 1, root);
      var rest := NonRootBelow(n - 1, root);
      assert forall i :: 0 <= i < |rest| ==> rest[i] in rest;
    }
  }

  /** An order lists every package once, the root first. */
  lemma {:induction false} OrderIsComplete(relative: Relative, g: DependencyGraph, ordered: seq<nat>)
    requires g.root < |g.packages| && IsOrder(relative, g, ordered)
    ensures Distinct(ordered)
    ensures forall i: nat :: i in ordered <==> i < |g.packages|
    ensures forall k :: 0 <= k < |ordered| ==> ordered[k] < |g.packages|
  {
    var others := NonRootBelow(|g.packages|, g.root);
    NonRootIsAllButRoot(|g.packages|, g.root);
    PermutationFacts(ordered[1..], others);
    PermutationFacts(others, ordered[1..]);
    DistinctPermutation(others, ordered[1..]);
    hide NonRootBelow, IsSort;
    assert ordered == [ordered[0]] + ordered[1..];
    var rest := ordered[1..];
    assert forall k :: 0 <= k < |rest| ==> rest[k] in others;
    assert forall i :: 0 <= i < |others| ==> others[i] in rest;
    forall k | 0 <= k < |ordered|
      ensures ordered[k] < |g.packages| && (k > 0 ==> ordered[k] != g.root)
    {
      if k > 0 {
        assert ordered[k] == rest[k - 1];
      }
    }
    forall i, j | 0 <= i < j < |ordered|
      ensures ordered[i] != ordered[j]
    {
      if i > 0 {
        assert ordered[i] == rest[i - 1] && ordered[j] == rest[j - 1];
      }
    }
    forall i: nat | i < |g.packages|
      ensures i in ordered
    {
      if i != g.root {
        assert i in others;
        assert i in rest;
      }
    }
  }

  // ----- the lockfile does not depend on numbering or arrangement -----

  function Relabel(pi: seq<nat>): (f: DependencyEdge -> DependencyEdge) {
    (e: DependencyEdge) => if e.target.Some? && e.target.value < |pi| then e.(target := Some(pi[e.target.value])) else e
  }

  /** n2 is n1 with its edges and artifacts rearranged and its targets renumbered by pi. */
  ghost predicate SameNode(n1: PackageNode, n2: PackageNode, pi: seq<nat>) {
    && n2.(dependencies := n1.dependencies, artifacts := n1.artifacts) == n1
    && multiset(n2.artifacts) == multiset(n1.artifacts)
    && multiset(n2.dependencies) == multiset(Map(Relabel(pi), n1.dependencies))
  }

  /** g2 is g1 with node i moved to index pi[i]. */
  ghost predicate Renumbered(g1: DependencyGraph, g2: DependencyGraph, pi: seq<nat>) {
    && |pi| == |g1.packages| == |g2.packages|
    && g1.root < |pi| && g2.root == pi[g1.root]
    && Distinct(pi)
    && (forall j: nat :: j in pi <==> j < |pi|)
    && forall i :: 0 <= i < |pi| ==> pi[i] < |pi| && SameNode(g1.packages[i], g2.packages[pi[i]], pi)
  }

  /** No two packages other than the root tie in the canonical order. */
  ghost predicate NoTies(relative: Relative, g: DependencyGraph)
    requires g.root < |g.packages|
  {
    forall i: nat, j: nat | i < |g.packages| && j < |g.packages| && i != g.root && j != g.root ::
      PackageKey(relative, g)(i) == PackageKey(relative, g)(j) ==> i == j
  }

  ghost predicate AliasesDistinct(deps: seq<DependencyEdge>) {
    forall a, b :: a in deps && b in deps && a.scope == b.scope && a.alias == b.alias ==> a == b
  }

  lemma {:induction false} KeysCarryOver(relative: Relative, g1: DependencyGraph, g2: DependencyGraph, pi: seq<nat>,
                                         i: nat)
    requires Renumbered(g1, g2, pi) && i < |pi|
    ensures PackageKey(relative, g2)(pi[i]) == PackageKey(relative, g1)(i)
  {
    assert SameNode(g1.packages[i], g2.packages[pi[i]], pi);
    assert SameNode(g1.packages[g1.root], g2.packages[pi[g1.root]], pi);
  }

  function At(pi: seq<nat>): (f: nat -> nat) {
    (i: nat) => if i < |pi| then pi[i] else 0
  }

  lemma {:induction false} RenumberedRestIsDistinct(pi: seq<nat>, xs: seq<nat>)
    requires Distinct(pi) && Distinct(xs) && forall k :: 0 <= k < |xs| ==> xs[k] < |pi|
    ensures Distinct(Map(At(pi), xs))
  {
  }

  lemma {:induction false} RenumberedRestIsSorted(relative: Relative, g1: DependencyGraph, g2: DependencyGraph,
                                                  pi: seq<nat>, xs: seq<nat>)
    requires Renumbered(g1, g2, pi) && SortedBy(PackageKey(relative, g1), 5, xs) && forall k :: 0 <= k < |xs| ==>
      xs[k] < |pi|
    ensures SortedBy(PackageKey(relative, g2), 5, Map(At(pi), xs))
  {
    var ys := Map(At(pi), xs);
    assert pi[g1.root] < |pi| && forall k :: 0 <= k < |ys| ==> ys[k] == pi[xs[k]];
    hide TupleLess, Renumbered, SameNode;
    forall i, j | 0 <= i < j < |ys|
      ensures !TupleLess(PackageKey(relative, g2)(ys[j]), PackageKey(relative, g2)(ys[i]))
    {
      KeysCarryOver(relative, g1, g2, pi, xs[i]);
      KeysCarryOver(relative, g1, g2, pi, xs[j]);
    }
  }

  /** The canonical order follows the packages, not their numbers. */
  lemma {:induction false} OrdersAgree(relative: Relative, g1: DependencyGraph, g2: DependencyGraph, pi: seq<nat>,
                                       o1: seq<nat>, o2: seq<nat>)
    requires Renumbered(g1, g2, pi) && NoTies(relative, g1) && IsOrder(relative, g1, o1) && IsOrder(relative, g2, o2)
    ensures o2 == Map(At(pi), o1)
  {
    OrderIsComplete(relative, g1, o1);
    assert Distinct(pi) && o1 != [] && o2 != [] && o2[0] == pi[o1[0]] && o1[0] < |pi| && pi[o1[0]] < |pi|;
    assert SortedBy(PackageKey(relative, g1), 5, o1[1..]) && SortedBy(PackageKey(relative, g2), 5, o2[1..]);
    hide SameNode, NoTies, SortedBy, PackageKey, Map, At, Distinct, Apart;
    RestIsAllButFirst(o1);
    RestInRange(o1, |pi|);
    var xs, ys := Map(At(pi), o1[1..]), o2[1..];
    RenumberedRestIsSorted(relative, g1, g2, pi, o1[1..]);
    RenumberedRestIsDistinct(pi, o1[1..]);
    RestsHoldTheSame(relative, g1, g2, pi, o1, o2);
    SameElements(xs, ys);
    NoTiesCarryOver(relative, g1, g2, pi, xs, o1);
    SortIsUnique(PackageKey(relative, g2), 5, xs, ys);
    MapFirst(pi, o1);
    assert o2 == [o2[0]] + ys;
  }

  lemma {:induction false} RestInRange(xs: seq<nat>, n: nat)
    requires xs != [] && forall k :: 0 <= k < |xs| ==> xs[k] < n
    ensures forall k :: 0 <= k < |xs[1..]| ==> xs[1..][k] < n
  {
  }

  lemma {:induction false} MapFirst(pi: seq<nat>, xs: seq<nat>)
    requires xs != [] && xs[0] < |pi|
    ensures Map(At(pi), xs) == [pi[xs[0]]] + Map(At(pi), xs[1..])
  {
  }

  lemma {:induction false} RestsHoldTheSame(relative: Relative, g1: DependencyGraph, g2: DependencyGraph,
                                            pi: seq<nat>, o1: seq<nat>, o2: seq<nat>)
    requires Renumbered(g1, g2, pi) && IsOrder(relative, g1, o1) && IsOrder(relative, g2, o2)
    ensures Distinct(o2[1..])
    ensures forall x: nat :: x in Map(At(pi), o1[1..]) <==> x in o2[1..]
  {
    OrderIsComplete(relative, g1, o1);
    OrderIsComplete(relative, g2, o2);
    assert o1 != [] && o2 != [] && o2[0] == pi[o1[0]];
    hide IsOrder, SameNode;
    RestIsAllButFirst(o1);
    RestIsAllButFirst(o2);
    forall x: nat
      ensures x in Map(At(pi), o1[1..]) <==> x in o2[1..]
    {
      if x in Map(At(pi), o1[1..]) {
        var i := Preimage(pi, o1[1..], x);
        assert x in pi && x != o2[0];
      }
      if x in o2[1..] {
        assert x in pi;
        var i :| 0 <= i < |pi| && pi[i] == x;
        ImageIsIn(pi, o1[1..], i);
      }
    }
  }

  lemma {:induction false} Preimage(pi: seq<nat>, xs: seq<nat>, x: nat) returns (i: nat)
    requires x in Map(At(pi), xs) && forall k :: 0 <= k < |xs| ==> xs[k] < |pi|
    ensures i in xs && i < |pi| && pi[i] == x
  {
    var ys := Map(At(pi), xs);
    var k :| 0 <= k < |ys| && ys[k] == x;
    i := xs[k];
  }

  lemma {:induction false} ImageIsIn(pi: seq<nat>, xs: seq<nat>, i: nat)
    requires i in xs && i < |pi|
    ensures pi[i] in Map(At(pi), xs)
  {
    var k :| 0 <= k < |xs| && xs[k] == i;
    assert Map(At(pi), xs)[k] == pi[i];
  }

  lemma {:induction false} RestIsAllButFirst(xs: seq<nat>)
    requires xs != [] && Distinct(xs)
    ensures Distinct(xs[1..]) && forall x :: x in xs[1..] <==> x in xs && x != xs[0]
  {
    assert xs == [xs[0]] + xs[1..];
  }

  lemma {:induction false} NoTiesCarryOver(relative: Relative, g1: DependencyGraph, g2: DependencyGraph, pi: seq<nat>,
                                           xs: seq<nat>, o1: seq<nat>)
    requires Renumbered(g1, g2, pi) && NoTies(relative, g1) && IsOrder(relative, g1, o1) && xs == Map(At(pi), o1[1..])
    ensures Apart(PackageKey(relative, g2), xs)
  {
    OrderIsComplete(relative, g1, o1);
    RestIsAllButFirst(o1);
    forall a, b | a in xs && b in xs && PackageKey(relative, g2)(a) == PackageKey(relative, g2)(b)
      ensures a == b
    {
      var i :| 0 <= i < |xs| && xs[i] == a;
      var j :| 0 <= j < |xs| && xs[j] == b;
      var p, q := o1[1..][i], o1[1..][j];
      assert p in o1[1..] && q in o1[1..];
      KeysCarryOver(relative, g1, g2, pi, p);
      KeysCarryOver(relative, g1, g2, pi, q);
    }
  }

  lemma {:induction false} PositionCarriesOver(pi: seq<nat>, o1: seq<nat>, t: nat)
    requires Distinct(pi) && t < |pi| && forall k :: 0 <= k < |o1| ==> o1[k] < |pi|
    ensures PositionOf(Map(At(pi), o1), pi[t]) == PositionOf(o1, t)
  {
    if o1 != [] && o1[0] != t {
      assert Map(At(pi), o1)[1..] == Map(At(pi), o1[1..]);
      PositionCarriesOver(pi, o1[1..], t);
    }
  }

  lemma {:induction false} AliasSortedAfterRelabel(pi: seq<nat>, es: seq<DependencyEdge>)
    requires SortedBy(AliasKey(), 1, es)
    ensures SortedBy(AliasKey(), 1, Map(Relabel(pi), es))
  {
    hide TupleLess;
    var ys := Map(Relabel(pi), es);
    assert forall k :: 0 <= k < |es| ==> AliasKey()(ys[k]) == AliasKey()(es[k]);
  }

  /** The edges of one scope come out in the same order on both sides. */
  lemma {:induction false} EdgesAgree(n1: PackageNode, n2: PackageNode, pi: seq<nat>, e1: seq<DependencyEdge>,
                                      e2: seq<DependencyEdge>, scope: DependencyScope)
    requires SameNode(n1, n2, pi) && AliasesDistinct(n1.dependencies)
    requires IsSort(AliasKey(), 1, n1.dependencies, e1) && IsSort(AliasKey(), 1, n2.dependencies, e2)
    ensures Filter(InScope(scope), e2) == Map(Relabel(pi), Filter(InScope(scope), e1))
  {
    var m1 := Map(Relabel(pi), e1);
    MapKeepsPermutation(Relabel(pi), e1, n1.dependencies);
    FilterKeepsPermutation(InScope(scope), m1, e2);
    AliasSortedAfterRelabel(pi, e1);
    FilterKeepsSorted(AliasKey(), 1, InScope(scope), m1);
    FilterKeepsSorted(AliasKey(), 1, InScope(scope), e2);
    ScopeIsApart(n1.dependencies, pi, e1, scope);
    SortIsUnique(AliasKey(), 1, Filter(InScope(scope), m1), Filter(InScope(scope), e2));
    FilterOfMap(Relabel(pi), InScope(scope), e1);
  }

  lemma {:induction false} ScopeIsApart(deps: seq<DependencyEdge>, pi: seq<nat>, es: seq<DependencyEdge>,
                                        scope: DependencyScope)
    requires AliasesDistinct(deps) && IsSort(AliasKey(), 1, deps, es)
    ensures Apart(AliasKey(), Filter(InScope(scope), Map(Relabel(pi), es)))
  {
    var m := Map(Relabel(pi), es);
    AliasSortedAfterRelabel(pi, es);
    FilterKeepsSorted(AliasKey(), 1, InScope(scope), m);
    PermutationFacts(es, deps);
    var ys := Filter(InScope(scope), m);
    hide Filter, SortedBy;
    forall a, b | a in ys && b in ys && AliasKey()(a) == AliasKey()(b)
      ensures a == b
    {
      var i :| 0 <= i < |m| && m[i] == a;
      var j :| 0 <= j < |m| && m[j] == b;
      assert es[i] in deps && es[j] in deps;
      assert [a.alias][0] == [b.alias][0];
    }
  }

  lemma {:induction false} EmittedAgrees(n1: PackageNode, n2: PackageNode, pi: seq<nat>, e1: seq<DependencyEdge>,
                                         e2: seq<DependencyEdge>, scope: DependencyScope, o1: seq<nat>)
    requires SameNode(n1, n2, pi) && AliasesDistinct(n1.dependencies) && Distinct(pi)
    requires IsSort(AliasKey(), 1, n1.dependencies, e1) && IsSort(AliasKey(), 1, n2.dependencies, e2)
    requires forall i: nat :: i in o1 <==> i < |pi|
    requires forall i: nat :: i in pi <==> i < |pi|
    requires forall k :: 0 <= k < |o1| ==> o1[k] < |pi|
    requires forall k :: 0 <= k < |pi| ==> pi[k] < |pi|
    ensures Emit(o1, e1, scope) == Emit(Map(At(pi), o1), e2, scope)
  {
    EdgesAgree(n1, n2, pi, e1, e2, scope);
    var fs, o2 := Filter(InScope(scope), e1), Map(At(pi), o1);
    forall k | 0 <= k < |fs|
      ensures Written(o1)(fs[k]) == Written(o2)(Relabel(pi)(fs[k]))
    {
      if fs[k].target.Some? {
        var t := fs[k].target.value;
        if t < |pi| {
          PositionCarriesOver(pi, o1, t);
        } else {
          assert t !in o1;
          assert t !in o2;
        }
      }
    }
  }

  lemma {:induction false} ArtifactsAgree(n1: PackageNode, n2: PackageNode, pi: seq<nat>, a1: seq<PackageArtifact>,
                                          a2: seq<PackageArtifact>)
    requires SameNode(n1, n2, pi)
    requires IsSort(ArtifactKey(), 7, n1.artifacts, a1) && IsSort(ArtifactKey(), 7, n2.artifacts, a2)
    ensures a1 == a2
  {
    hide SortedBy;
    assert Apart(ArtifactKey(), a1) by {
      forall a, b | a in a1 && b in a1 && ArtifactKey()(a) == ArtifactKey()(b)
        ensures a == b
      {
        var x, y := ArtifactKey()(a), ArtifactKey()(b);
        assert x[0] == y[0] && x[1] == y[1] && x[2] == y[2] && x[3] == y[3] && x[4] == y[4] && x[5] == y[5];
        assert x[6] == y[6];
      }
    }
    SortIsUnique(ArtifactKey(), 7, a1, a2);
  }

  /** The lockfile is unchanged by any renumbering of nodes and any rearrangement of edges and artifacts. */
  lemma {:induction false} LockfileIsCanonical(relative: Relative, g1: DependencyGraph, g2: DependencyGraph,
                                               pi: seq<nat>, l1: Layout, l2: Layout)
    requires Renumbered(g1, g2, pi) && NoTies(relative, g1)
    requires forall i :: 0 <= i < |g1.packages| ==> AliasesDistinct(g1.packages[i].dependencies)
    requires IsLayout(relative, g1, l1) && IsLayout(relative, g2, l2)
    ensures (forall k :: 0 <= k < |l1.ordered| ==> l1.ordered[k] < |g1.packages|)
    ensures (forall k :: 0 <= k < |l2.ordered| ==> l2.ordered[k] < |g2.packages|)
    ensures Render(relative, g1, l1) == Render(relative, g2, l2)
  {
    OrdersAgree(relative, g1, g2, pi, l1.ordered, l2.ordered);
    OrderIsComplete(relative, g1, l1.ordered);
    OrderIsComplete(relative, g2, l2.ordered);
    hide IsOrder, SortedBy, NoTies, Emit, AliasesDistinct, SameNode, DocumentOf;
    forall k | 0 <= k < |l1.ordered|
      ensures Render(relative, g1, l1)[k] == Render(relative, g2, l2)[k]
    {
      DocumentAgrees(relative, g1, g2, pi, l1, l2, k);
    }
  }

  lemma {:induction false} DocumentAgrees(relative: Relative, g1: DependencyGraph, g2: DependencyGraph, pi: seq<nat>,
                                          l1: Layout, l2: Layout, k: nat)
    requires Renumbered(g1, g2, pi) && IsLayout(relative, g1, l1) && IsLayout(relative, g2, l2)
    requires forall i :: 0 <= i < |g1.packages| ==> AliasesDistinct(g1.packages[i].dependencies)
    requires l2.ordered == Map(At(pi), l1.ordered) && k < |l1.ordered| && l1.ordered[k] < |pi|
    ensures var i, j := l1.ordered[k], pi[l1.ordered[k]];
      j < |g2.packages| &&
      DocumentOf(relative, g1, l1.ordered, g1.packages[i], l1.edges[i], l1.artifacts[i]) ==
      DocumentOf(relative, g2, l2.ordered, g2.packages[j], l2.edges[j], l2.artifacts[j])
  {
    var i := l1.ordered[k];
    var j := pi[i];
    OrderIsComplete(relative, g1, l1.ordered);
    hide SortedBy, Emit, AliasesDistinct, IsOrder;
    assert SameNode(g1.packages[i], g2.packages[j], pi) && SameNode(g1.packages[g1.root], g2.packages[pi[g1.root]], pi);
    EmittedAgrees(g1.packages[i], g2.packages[j], pi, l1.edges[i], l2.edges[j], Runtime, l1.ordered);
    EmittedAgrees(g1.packages[i], g2.packages[j], pi, l1.edges[i], l2.edges[j], Development, l1.ordered);
    ArtifactsAgree(g1.packages[i], g2.packages[j], pi, l1.artifacts[i], l2.artifacts[j]);
  }

  // ----- the lockfile is the graph -----

  /** An edge as a fact about the graph, and a written edge read back through the order. */
  ghost function EdgeFact(): (f: DependencyEdge -> (string, string, Option<nat>)) {
    (e: DependencyEdge) => (e.alias, e.requestedVersion, e.target)
  }

  ghost function ReadBack(ordered: seq<nat>): (f: DependencyDocument -> (string, string, Option<nat>)) {
    (d: DependencyDocument) => (d.alias, d.requirement, if d.target < |ordered| then Some(ordered[d.target]) else None)
  }

  lemma {:induction false} NonRootLength(n: nat, root: nat)
    ensures |NonRootBelow(n, root)| == if root < n then n - 1 else n
  {
    if n > 0 {
      NonRootLength(n - 1, root);
    }
  }

  lemma {:induction false} EmittedIsFaithful(g: DependencyGraph, i: nat, ordered: seq<nat>, es: seq<DependencyEdge>,
                                             scope: DependencyScope)
    requires i < |g.packages| && IsSort(AliasKey(), 1, g.packages[i].dependencies, es)
    requires forall t: nat :: t in ordered <==> t < |g.packages|
    requires forall k :: 0 <= k < |g.packages[i].dependencies| ==> LockableEdge(g, i, g.packages[i].dependencies[k])
    ensures multiset(Map(ReadBack(ordered), Emit(ordered, es, scope))) ==
            multiset(Map(EdgeFact(), Filter(InScope(scope), g.packages[i].dependencies)))
  {
    var deps, fs := g.packages[i].dependencies, Filter(InScope(scope), es);
    FilterKeepsPermutation(InScope(scope), es, deps);
    MapKeepsPermutation(EdgeFact(), fs, Filter(InScope(scope), deps));
    FilterKeepsSorted(AliasKey(), 1, InScope(scope), es);
    PermutationFacts(es, deps);
    hide SortedBy, Filter;
    forall k | 0 <= k < |fs|
      ensures ReadBack(ordered)(Written(ordered)(fs[k])) == EdgeFact()(fs[k])
    {
      assert fs[k] in es;
      assert fs[k] in deps;
    }
    assert Map(ReadBack(ordered), Emit(ordered, es, scope)) == Map(EdgeFact(), fs);
  }

  /** Where a package comes from, as the lockfile records it: a Git package its repository and commit, a
      path package its project-relative path, any other neither; and every artifact of the package. */
  ghost predicate OriginRecorded(relative: Relative, g: DependencyGraph, n: PackageNode, d: PackageDocument)
    requires g.root < |g.packages|
  {
    && (match n.source
        case Git => d.reference == Some(n.sourceReference) && d.commit == Some(n.resolvedCommit)
        case Path => d.reference == Some(relative(n.root, g.packages[g.root].root)) && d.commit == None
        case _ => d.reference == None && d.commit == None)
    && multiset(if d.artifacts.Some? then d.artifacts.value else []) == multiset(n.artifacts)
  }

  lemma OriginIsRecorded(relative: Relative, g: DependencyGraph, l: Layout, i: nat)
    requires Lockable(relative, g) && IsLayout(relative, g, l) && i < |g.packages|
    ensures OriginRecorded(relative, g, g.packages[i],
      DocumentOf(relative, g, l.ordered, g.packages[i], l.edges[i], l.artifacts[i]))
  {
    assert LockablePackage(relative, g, i);
    hide Emit, SortedBy, IsOrder, LockableEdge;
  }

  /** Reading the targets back through the order gives the input graph, with the root at 0, and every
      package with where it comes from. */
  lemma {:induction false} LockfileIsIsomorphic(relative: Relative, g: DependencyGraph, l: Layout)
    requires Lockable(relative, g) && IsLayout(relative, g, l)
    ensures |l.ordered| == |g.packages| && l.ordered[0] == g.root && Distinct(l.ordered)
    ensures forall k :: 0 <= k < |l.ordered| ==> l.ordered[k] < |g.packages|
    ensures forall k :: 0 <= k < |l.ordered| ==>
      var n, d := g.packages[l.ordered[k]], Render(relative, g, l)[k];
      && d.name == n.name && d.version == n.version && d.source == n.source
      && OriginRecorded(relative, g, n, d)
      && multiset(Map(ReadBack(l.ordered), d.dependencies)) ==
           multiset(Map(EdgeFact(), Filter(InScope(Runtime), n.dependencies)))
      && multiset(Map(ReadBack(l.ordered), if d.devDependencies.Some? then d.devDependencies.value else [])) ==
         multiset(Map(EdgeFact(), Filter(InScope(Development), n.dependencies)))
  {
    OrderIsComplete(relative, g, l.ordered);
    PermutationFacts(l.ordered[1..], NonRootBelow(|g.packages|, g.root));
    NonRootLength(|g.packages|, g.root);
    forall k | 0 <= k < |l.ordered|
      ensures var n, d := g.packages[l.ordered[k]], Render(relative, g, l)[k];
        && OriginRecorded(relative, g, n, d)
        && multiset(Map(ReadBack(l.ordered), d.dependencies)) ==
             multiset(Map(EdgeFact(), Filter(InScope(Runtime), n.dependencies)))
        && multiset(Map(ReadBack(l.ordered), if d.devDependencies.Some? then d.devDependencies.value else [])) ==
           multiset(Map(EdgeFact(), Filter(InScope(Development), n.dependencies)))
    {
      var i := l.ordered[k];
      assert LockablePackage(relative, g, i);
      OriginIsRecorded(relative, g, l, i);
      hide SortedBy, Emit, IsOrder, OriginRecorded;
      EmittedIsFaithful(g, i, l.ordered, l.edges[i], Runtime);
      EmittedIsFaithful(g, i, l.ordered, l.edges[i], Development);
    }
  }

  // ----- building it -----

  lemma {:induction false} KeysAreUniform(relative: Relative, g: DependencyGraph)
    requires g.root < |g.packages|
    ensures Uniform(PackageKey(relative, g), 5) && Uniform(AliasKey(), 1) && Uniform(ArtifactKey(), 7)
  {
  }

  lemma {:induction false} PositionOfEach(ordered: seq<nat>, k: nat)
    requires Distinct(ordered) && k < |ordered|
    ensures PositionOf(ordered, ordered[k]) == k
  {
  }

  lemma {:induction false} EmitOne(ordered: seq<nat>, edges: seq<DependencyEdge>, i: nat, scope: DependencyScope)
    requires i < |edges|
    ensures Emit(ordered, edges[..i + 1], scope) ==
      Emit(ordered, edges[..i], scope) + if edges[i].scope == scope then [Written(ordered)(edges[i])] else []
  {
    assert edges[..i + 1][..i] == edges[..i];
  }

  method BuildPackage(relative: Relative, g: DependencyGraph, ordered: seq<nat>, remapped: map<nat, nat>, i: nat)
    returns (errors: seq<LockError>, document: PackageDocument)
    requires g.root < |g.packages| && i < |g.packages|
    requires forall t: nat :: t in remapped <==> t < |g.packages|
    requires forall t: nat :: t in remapped ==> remapped[t] == PositionOf(ordered, t)
    ensures errors == [] <==> LockablePackage(relative, g, i)
    ensures errors == [] ==> document == DocumentOf(relative, g, ordered, g.packages[i],
      Sort(AliasKey(), 1, g.packages[i].dependencies), Sort(ArtifactKey(), 7, g.packages[i].artifacts))
  {
    KeysAreUniform(relative, g);
    var n := g.packages[i];
    errors := [];
    var reference, commit := None, None;
    if n.source == Git {
      if n.sourceReference == "" {
        errors := errors + [NoRepository(n.name)];
      } else {
        reference := Some(n.sourceReference);
      }
      if n.resolvedCommit == "" {
        errors := errors + [NoCommit(n.name)];
      } else {
        commit := Some(n.resolvedCommit);
      }
    } else if n.source == DependencySource.Path {
      var path := RelativePackageReference(relative, g, n);
      if path == "" {
        errors := errors + [NoReference(n.name)];
      } else {
        reference := Some(path);
      }
    }
    var artifacts := Sort(ArtifactKey(), 7, n.artifacts);
    var edges := Sort(AliasKey(), 1, n.dependencies);
    PermutationFacts(edges, n.dependencies);
    PermutationFacts(n.dependencies, edges);
    var edgeErrors, dependencies, devDependencies := BuildEdges(g, ordered, remapped, i, edges);
    errors := errors + edgeErrors;
    document := PackageDocument(n.name, n.version, n.source, reference, commit,
      if artifacts == [] then None else Some(artifacts), dependencies, if devDependencies == [] then None
        else Some(devDependencies));
    hide Emit, Sort, LockableEdge;
    assert (forall k :: 0 <= k < |edges| ==> LockableEdge(g, i, edges[k])) <==>
           forall k :: 0 <= k < |n.dependencies| ==> LockableEdge(g, i, n.dependencies[k]) by {
      SameLockable(g, i, edges, n.dependencies);
    }
  }

  lemma {:induction false} SameLockable(g: DependencyGraph, i: nat, xs: seq<DependencyEdge>, ys: seq<DependencyEdge>)
    requires forall k :: 0 <= k < |xs| ==> xs[k] in ys
    requires forall k :: 0 <= k < |ys| ==> ys[k] in xs
    ensures (forall k :: 0 <= k < |xs| ==> LockableEdge(g, i, xs[k])) <==>
      forall k :: 0 <= k < |ys| ==> LockableEdge(g, i, ys[k])
  {
  }

  method BuildEdges(g: DependencyGraph, ordered: seq<nat>, remapped: map<nat, nat>, i: nat, edges: seq<DependencyEdge>)
    returns (errors: seq<LockError>, dependencies: seq<DependencyDocument>, devDependencies: seq<DependencyDocument>)
    requires forall t: nat :: t in remapped <==> t < |g.packages|
    requires forall t: nat :: t in remapped ==> remapped[t] == PositionOf(ordered, t)
    ensures errors == [] <==> forall k :: 0 <= k < |edges| ==> LockableEdge(g, i, edges[k])
    ensures errors == [] ==>
      dependencies == Emit(ordered, edges, Runtime) && devDependencies == Emit(ordered, edges, Development)
  {
    errors, dependencies, devDependencies := [], [], [];
    for k := 0 to |edges|
      invariant errors == [] <==> forall j :: 0 <= j < k ==> LockableEdge(g, i, edges[j])
      invariant errors == [] ==>
        dependencies == Emit(ordered, edges[..k], Runtime) && devDependencies == Emit(ordered, edges[..k], Development)
    {
      var e := edges[k];
      EmitOne(ordered, edges, k, Runtime);
      EmitOne(ordered, edges, k, Development);
      hide Emit;
      if e.target.None? {
        errors := errors + [UnresolvedTarget(e.alias)];
        continue;
      }
      if e.target.value !in remapped {
        errors := errors + [InvalidTarget(e.alias)];
        continue;
      }
      if e.scope == Development && i != g.root {
        errors := errors + [MisplacedDevelopment(e.alias)];
        continue;
      }
      var written := DependencyDocument(e.alias, e.requestedVersion, remapped[e.target.value]);
      if e.scope == Development {
        devDependencies := devDependencies + [written];
      } else {
        dependencies := dependencies + [written];
      }
    }
    assert edges[..|edges|] == edges;
  }

  ghost function SortedLayout(relative: Relative, g: DependencyGraph, ordered: seq<nat>): (l: Layout) {
    Layout(ordered,
      seq(|g.packages|, i requires 0 <= i < |g.packages| => Sort(AliasKey(), 1, g.packages[i].dependencies)),
      seq(|g.packages|, i requires 0 <= i < |g.packages| => Sort(ArtifactKey(), 7, g.packages[i].artifacts)))
  }

  method OrderPackages(relative: Relative, g: DependencyGraph) returns (ordered: seq<nat>)
    requires g.root < |g.packages|
    ensures IsOrder(relative, g, ordered)
  {
    KeysAreUniform(relative, g);
    ordered := [];
    for index := 0 to |g.packages|
      invariant ordered == NonRootBelow(index, g.root)
    {
      if index != g.root {
        ordered := ordered + [index];
      }
    }
    SortIsSort(PackageKey(relative, g), 5, ordered);
    ordered := [g.root] + Sort(PackageKey(relative, g), 5, ordered);
  }

  method RemapIndexes(ordered: seq<nat>) returns (remapped: map<nat, nat>)
    requires Distinct(ordered)
    ensures forall t: nat :: t in remapped <==> t in ordered
    ensures forall t: nat :: t in remapped ==> remapped[t] == PositionOf(ordered, t)
  {
    remapped := map[];
    for newIndex := 0 to |ordered|
      invariant forall t: nat :: t in remapped <==> t in ordered[..newIndex]
      invariant forall t: nat :: t in remapped ==> remapped[t] == PositionOf(ordered, t)
    {
      PositionOfEach(ordered, newIndex);
      assert ordered[..newIndex + 1] == ordered[..newIndex] + [ordered[newIndex]];
      if ordered[newIndex] !in remapped {
        remapped := remapped[ordered[newIndex] := newIndex];
      }
    }
    assert ordered[..|ordered|] == ordered;
  }

  method BuildLockfile(relative: Relative, g: DependencyGraph)
    returns (errors: seq<LockError>, packages: seq<PackageDocument>, ghost layout: Layout)
    ensures errors == [] <==> Lockable(relative, g)
    ensures errors == [] ==>
      && IsLayout(relative, g, layout)
      && (forall k :: 0 <= k < |layout.ordered| ==> layout.ordered[k] < |g.packages|)
      && packages == Render(relative, g, layout)
    ensures errors != [] ==> packages == []
  {
    errors, packages := [], [];
    layout := Layout([], [], []);
    if g.packages == [] {
      errors := [EmptyGraph];
      return;
    }
    if g.root >= |g.packages| {
      errors := [InvalidRoot];
      return;
    }
    hide IsOrder, Sort, LockablePackage, DocumentOf, Render, PositionOf, IsSort;
    var ordered := OrderPackages(relative, g);
    OrderIsComplete(relative, g, ordered);
    var remapped := RemapIndexes(ordered);
    layout := SortedLayout(relative, g, ordered);
    LayoutIsLayout(relative, g, ordered);
    errors, packages := BuildPackages(relative, g, ordered, remapped);
    AllLockable(relative, g, ordered);
    if errors != [] {
      packages := [];
    }
  }

  method BuildPackages(relative: Relative, g: DependencyGraph, ordered: seq<nat>, remapped: map<nat, nat>)
    returns (errors: seq<LockError>, packages: seq<PackageDocument>)
    requires g.root < |g.packages| && forall k :: 0 <= k < |ordered| ==> ordered[k] < |g.packages|
    requires forall t: nat :: t in remapped <==> t < |g.packages|
    requires forall t: nat :: t in remapped ==> remapped[t] == PositionOf(ordered, t)
    ensures errors == [] <==> forall j :: 0 <= j < |ordered| ==> LockablePackage(relative, g, ordered[j])
    ensures errors == [] ==> packages == Render(relative, g, SortedLayout(relative, g, ordered))
  {
    hide Sort, LockablePackage, DocumentOf, PositionOf;
    errors, packages := [], [];
    ghost var goal := Render(relative, g, SortedLayout(relative, g, ordered));
    for k := 0 to |ordered|
      invariant errors == [] <==> forall j :: 0 <= j < k ==> LockablePackage(relative, g, ordered[j])
      invariant |packages| == k && (errors == [] ==> forall j :: 0 <= j < k ==> packages[j] == goal[j])
    {
      var packageErrors, document := BuildPackage(relative, g, ordered, remapped, ordered[k]);
      errors, packages := errors + packageErrors, packages + [document];
    }
  }

  lemma {:induction false} AllLockable(relative: Relative, g: DependencyGraph, ordered: seq<nat>)
    requires g.root < |g.packages| && (forall i: nat :: i in ordered <==> i < |g.packages|)
    requires forall k :: 0 <= k < |ordered| ==> ordered[k] < |g.packages|
    ensures (forall j :: 0 <= j < |ordered| ==> LockablePackage(relative, g, ordered[j])) <==> Lockable(relative, g)
  {
    if forall j :: 0 <= j < |ordered| ==> LockablePackage(relative, g, ordered[j]) {
      forall i | 0 <= i < |g.packages|
        ensures LockablePackage(relative, g, i)
      {
        assert i in ordered;
        var j :| 0 <= j < |ordered| && ordered[j] == i;
      }
    }
  }

  lemma {:induction false} LayoutIsLayout(relative: Relative, g: DependencyGraph, ordered: seq<nat>)
    requires g.root < |g.packages| && IsOrder(relative, g, ordered)
    ensures IsLayout(relative, g, SortedLayout(relative, g, ordered))
  {
    forall i | 0 <= i < |g.packages|
      ensures IsSort(AliasKey(), 1, g.packages[i].dependencies, Sort(AliasKey(), 1, g.packages[i].dependencies))
      ensures IsSort(ArtifactKey(), 7, g.packages[i].artifacts, Sort(ArtifactKey(), 7, g.packages[i].artifacts))
    {
      SortIsSort(AliasKey(), 1, g.packages[i].dependencies);
      SortIsSort(ArtifactKey(), 7, g.packages[i].artifacts);
    }
  }
}
