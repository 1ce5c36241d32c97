/** What the resolver proves of a validated package is what the Git pass asks of it. */
module GitValidated {
  import opened PackageGraph
  import opened GitMerge
  import opened GitResolution
  import Validator = PackageValidator

  lemma ExactIsWellFormed(w: Validator.World, c: Checkout)
    requires w.WellFormed() && Validator.ExactGraph(w, c.canonicalRoot, c.graph)
    ensures WellFormed(c)
  {
    forall i | 0 <= i < |c.graph.packages| ensures InRange(c.graph.packages[i].dependencies, |c.graph.packages|) {
      assert Validator.ExactNode(w, c.canonicalRoot, c.graph.packages, c.graph.packages[i]);
    }
  }

  predicate AllMalformed(entries: seq<Validator.Entry>) {
    forall k :: 0 <= k < |entries| ==> entries[k].declaration.Malformed?
  }

  lemma {:induction false} TableScope(w: Validator.World, p: CanonicalPath, entries: seq<Validator.Entry>,
                                      scope: DependencyScope)
    requires w.WellFormed()
    ensures var edges := Validator.EdgesOfTable(w, p, entries, scope);
      (forall k :: 0 <= k < |edges| ==> edges[k].scope == scope) && (edges == [] <==> AllMalformed(entries))
  {
    if entries != [] {
      var n := |entries| - 1;
      EntryScope(w, p, entries[n], scope);
      hide Validator.EdgesOfEntry;
      TableScope(w, p, entries[..n], scope);
      assert AllMalformed(entries) <==> AllMalformed(entries[..n]) && entries[n].declaration.Malformed?;
    }
  }

  lemma EntryScope(w: Validator.World, p: CanonicalPath, e: Validator.Entry, scope: DependencyScope)
    requires w.WellFormed()
    ensures var edges := Validator.EdgesOfEntry(w, p, e, scope);
      (forall k :: 0 <= k < |edges| ==> edges[k].scope == scope) && (edges == [] <==> e.declaration.Malformed?)
  {
    hide Validator.LookUp;
  }

  /** Whether a package has runtime edges is a matter of its manifest alone. */
  lemma RuntimeIsDeclared(w: Validator.World, origin: CanonicalPath, graph: DependencyGraph, i: nat)
    requires w.WellFormed() && Validator.ExactGraph(w, origin, graph) && i < |graph.packages|
    ensures var n := graph.packages[i];
      && n.root in w.manifests
      && (NoRuntime(n.dependencies) <==> AllMalformed(Validator.Entries(w.manifests[n.root].dependencies)))
  {
    var n := graph.packages[i];
    assert Validator.ExactNode(w, origin, graph.packages, n);
    hide Validator.ExactGraph;
    var runtime := Validator.EdgesOfTable(w, n.root, Validator.Entries(w.manifests[n.root].dependencies), Runtime);
    TableScope(w, n.root, Validator.Entries(w.manifests[n.root].dependencies), Runtime);
    TableScope(w, n.root, Validator.Entries(w.manifests[n.root].devDependencies), Development);
    hide Validator.EdgesOfTable;
    var declared := Validator.Declared(w, origin, n.root);
    assert forall k :: 0 <= k < |declared| ==> n.dependencies[k].scope == declared[k].scope;
    if runtime != [] {
      assert declared[0] == runtime[0];
    }
  }

  /** Validated against the same manifests, a project and the checkouts agree about every directory. */
  lemma OneDiskOneManifest(w: Validator.World, v: Validator.World, origin: DependencyGraph, root: CanonicalPath,
                           src: Sources)
    requires w.WellFormed() && v.WellFormed() && w.manifests == v.manifests
    requires Validator.ExactGraph(w, root, origin)
    requires forall k :: k in src.checkouts ==>
      Validator.ExactGraph(v, src.checkouts[k].canonicalRoot, src.checkouts[k].graph)
    ensures src.Valid() && TargetsInRange(origin.packages) && SameManifests(src, origin.packages)
  {
    forall k | k in src.checkouts ensures WellFormed(src.checkouts[k]) {
      ExactIsWellFormed(v, src.checkouts[k]);
    }
    ExactIsWellFormed(w, Checkout(root, root, "", [], origin));
    forall i | 0 <= i < |origin.packages|
      ensures origin.packages[i].root in w.manifests
      ensures origin.packages[i].dependencies == [] ==>
        AllMalformed(Validator.Entries(w.manifests[origin.packages[i].root].dependencies))
    {
      RuntimeIsDeclared(w, root, origin, i);
    }
    forall p, k, r: nat | Contains(src, k, r, p)
      ensures p in v.manifests
      ensures NoRuntime(src.checkouts[k].graph.packages[r].dependencies) <==>
        AllMalformed(Validator.Entries(v.manifests[p].dependencies))
    {
      var c := src.checkouts[k];
      assert Validator.ExactGraph(v, c.canonicalRoot, c.graph);
      RuntimeIsDeclared(v, c.canonicalRoot, c.graph, r);
    }
    hide Validator.ExactGraph, NoRuntime, AllMalformed, Validator.Entries;
  }
}
