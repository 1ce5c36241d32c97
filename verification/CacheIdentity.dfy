/** The identity under which a package is kept in the cache: everything that decides its content and
    nothing that does not, such as the alias or the order in which artifacts were found. */
module CacheIdentity {
  import opened Wrappers
  import opened Characters
  import opened PackageGraph
  import opened Sorting
  import Lockfile = PackageLockfile
  import Plan = InstallPlan
  import Tree = PackageTree
  import Transaction = InstallTransaction

  /** The canonical document, field by field; artifacts are None when the package has none. */
  datatype Document = Document(
    name: string,
    version: string,
    source: DependencySource,
    reference: Option<string>,
    commit: Option<string>,
    artifacts: Option<seq<PackageArtifact>>)

  /** A package that can be cached: neither the root nor an unresolved Git package, named safely, and
      with a reference where its source needs one. The relative path is "" when there is none. */
  predicate Cacheable(relative: Lockfile.Relative, graph: DependencyGraph, i: nat) {
    && graph.root < |graph.packages| && i < |graph.packages|
    && var n := graph.packages[i];
    && !n.source.Root? && (n.source.Git? ==> n.resolvedCommit != "" && n.sourceReference != "")
    && IsSafeName(n.name) && IsSafeName(n.version)
    && (n.source.Path? ==> relative(n.root, graph.packages[graph.root].root) != "")
  }

  /** Two packages are the same thing to the cache. */
  ghost predicate SamePackage(relative: Lockfile.Relative, g: DependencyGraph, i: nat, h: DependencyGraph, j: nat)
    requires Cacheable(relative, g, i) && Cacheable(relative, h, j)
  {
    var n, m := g.packages[i], h.packages[j];
    && n.name == m.name && n.version == m.version && n.source == m.source
    && (n.source.Path? ==> relative(n.root, g.packages[g.root].root) == relative(m.root, h.packages[h.root].root))
    && (n.source.Git? ==> n.sourceReference == m.sourceReference && n.resolvedCommit == m.resolvedCommit)
    && multiset(n.artifacts) == multiset(m.artifacts)
  }

  function Identify(relative: Lockfile.Relative, graph: DependencyGraph, i: nat): (r: Option<Document>) {
    if !Cacheable(relative, graph, i) then None
    else
      var n := graph.packages[i];
      UniformArtifacts();
      Some(Document(n.name, n.version, n.source,
        if n.source.Path? then Some(relative(n.root, graph.packages[graph.root].root))
        else if n.source.Git? then Some(n.sourceReference) else None,
        if n.source.Git? then Some(n.resolvedCommit) else None,
        if n.artifacts == [] then None else Some(Sort(Lockfile.ArtifactKey(), 7, n.artifacts))))
  }

  lemma UniformArtifacts()
    ensures Uniform(Lockfile.ArtifactKey(), 7)
  {
  }

  lemma SortedArtifacts(a: seq<PackageArtifact>, b: seq<PackageArtifact>)
    ensures Uniform(Lockfile.ArtifactKey(), 7)
    ensures Sort(Lockfile.ArtifactKey(), 7, a) == Sort(Lockfile.ArtifactKey(), 7, b) <==> multiset(a) == multiset(b)
  {
    UniformArtifacts();
    var x, y := Sort(Lockfile.ArtifactKey(), 7, a), Sort(Lockfile.ArtifactKey(), 7, b);
    SortIsSort(Lockfile.ArtifactKey(), 7, a);
    SortIsSort(Lockfile.ArtifactKey(), 7, b);
    hide Sort, SortedBy;
    if multiset(a) == multiset(b) {
      ArtifactsApart(x);
      SortIsUnique(Lockfile.ArtifactKey(), 7, x, y);
    }
  }

  lemma ArtifactsApart(xs: seq<PackageArtifact>)
    ensures Apart(Lockfile.ArtifactKey(), xs)
  {
    forall a, b | a in xs && b in xs && Lockfile.ArtifactKey()(a) == Lockfile.ArtifactKey()(b)
      ensures a == b
    {
      var x, y := Lockfile.ArtifactKey()(a), Lockfile.ArtifactKey()(b);
      assert x[0] == y[0] && x[1] == y[1] && x[2] == y[2] && x[3] == y[3] && x[4] == y[4] && x[5] == y[5];
      assert x[6] == y[6];
    }
  }

  /** Equal documents mean equal packages, and the other way round: neither the numbering of the graph,
      the aliases leading to a package, nor the order of its artifacts matters. */
  lemma IdentityIsExact(relative: Lockfile.Relative, g: DependencyGraph, i: nat, h: DependencyGraph, j: nat)
    requires Cacheable(relative, g, i) && Cacheable(relative, h, j)
    ensures Identify(relative, g, i) == Identify(relative, h, j) <==> SamePackage(relative, g, i, h, j)
  {
    var n, m := g.packages[i], h.packages[j];
    SortedArtifacts(n.artifacts, m.artifacts);
    hide Sort;
    assert n.artifacts == [] ==> (multiset(n.artifacts) == multiset(m.artifacts) <==> m.artifacts == []) by {
      NoElements(m.artifacts);
    }
    assert m.artifacts == [] ==> (multiset(n.artifacts) == multiset(m.artifacts) <==> n.artifacts == []) by {
      NoElements(n.artifacts);
    }
  }

  lemma NoElements(xs: seq<PackageArtifact>)
    ensures multiset(xs) == multiset{} <==> xs == []
  {
    if xs != [] {
      assert xs[0] in multiset(xs);
    }
  }

  // ----- what the installation assumes of identities -----

  ghost predicate Injective(f: Document -> string) {
    forall d, e :: f(d) == f(e) ==> d == e
  }

  /** Identities as the planner sees them: the text of the document, and the directory named after
      the package, its version and the digest of the text. */
  function IdentifyWith(relative: Lockfile.Relative, graph: DependencyGraph, dump: Document -> string,
                        place: Document -> string)
    : (identify: Plan.Identify)
  {
    (i: nat) =>
      match Identify(relative, graph, i)
      case None => None
      case Some(d) => Some(Plan.Identity(dump(d), place(d)))
  }

  /** With an injective digest, and the same tree for the same package, identities are what the
      installation needs: equal documents, equal places and equal trees go together. */
  lemma IdentitiesAreFaithful(relative: Lockfile.Relative, graph: DependencyGraph, dump: Document -> string,
                              place: Document -> string, sources: nat -> Option<Tree.Tree>)
    requires Injective(dump) && Injective(place)
    requires SameSources(relative, graph, sources)
    ensures Transaction.Faithful(IdentifyWith(relative, graph, dump, place), sources)
  {
    var identify := IdentifyWith(relative, graph, dump, place);
    forall t: nat, u: nat | identify(t).Some? && identify(u).Some?
      ensures identify(t).value.document == identify(u).value.document <==>
        identify(t).value.directory == identify(u).value.directory
      ensures identify(t).value.document == identify(u).value.document ==> sources(t) == sources(u)
    {
      IdentifiedIs(relative, graph, dump, place, t);
      IdentifiedIs(relative, graph, dump, place, u);
      hide IdentifyWith;
      IdentityIsExact(relative, graph, t, graph, u);
      hide SamePackage, Identify, Cacheable;
      var d, e := Identify(relative, graph, t).value, Identify(relative, graph, u).value;
      assert dump(d) == dump(e) <==> d == e;
      assert place(d) == place(e) <==> d == e;
    }
  }

  /** The same package has the same source tree. */
  ghost predicate SameSources(relative: Lockfile.Relative, graph: DependencyGraph, sources: nat -> Option<Tree.Tree>) {
    forall i: nat, j: nat | Cacheable(relative, graph, i) && Cacheable(relative, graph, j) ::
      SamePackage(relative, graph, i, graph, j) ==> sources(i) == sources(j)
  }

  lemma IdentifiedIs(relative: Lockfile.Relative, graph: DependencyGraph, dump: Document -> string,
                     place: Document -> string, i: nat)
    requires IdentifyWith(relative, graph, dump, place)(i).Some?
    ensures Cacheable(relative, graph, i) && Identify(relative, graph, i).Some?
    ensures var d := Identify(relative, graph, i).value;
      IdentifyWith(relative, graph, dump, place)(i) == Some(Plan.Identity(dump(d), place(d)))
  {
    hide Sort;
    assert Identify(relative, graph, i).Some?;
  }
}
