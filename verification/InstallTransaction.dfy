/** Installing a planned set of packages: fill the cache, copy into lode_modules, bind the aliases in
    the project's configuration, and take everything back when a step fails. */
module InstallTransaction {
  import opened Wrappers
  import opened Characters
  import opened PackageGraph
  import opened PackageTree
  import opened InstallPlan

  function TemporaryName(alias: string, stamp: string): (r: string)
    ensures r != alias
  {
    "." + alias + ".tmp-" + stamp
  }

  predicate Package(tree: Option<Tree>) {
    tree.Some? && tree.value.Directory? && !ContainsSymlink(tree.value)
  }

  /** What stands at the package's place in the cache does not keep it from being filled. */
  predicate CanPopulate(cache: map<string, Tree>, directory: string, source: Option<Tree>) {
    Package(source) && !Obstructed(cache, directory)
  }

  predicate Obstructed(cache: map<string, Tree>, directory: string) {
    directory in cache && !cache[directory].Directory?
  }

  predicate CanMaterialize(modules: map<string, Tree>, alias: string, tree: Tree) {
    IsSafeName(alias) && (alias in modules ==> modules[alias] == tree)
  }

  function AliasPath(alias: string): (r: string) {
    "lode_modules/" + alias
  }

  predicate CanBind(config: map<string, string>, alias: string) {
    alias in config ==> config[alias] == AliasPath(alias)
  }

  /** The installer's share of the file system. Every system call may fail: whether the n-th one does,
      what a failed copy leaves behind and what the clock reads are fixed in advance but unknown. */
  class Disk {
    const faults: nat -> bool
    const stamps: nat -> string
    const leftovers: nat -> Tree
    var step: nat
    var cache: map<string, Tree>
    var modules: map<string, Tree>
    var config: map<string, string>

    constructor (faults: nat -> bool, stamps: nat -> string, leftovers: nat -> Tree, cache: map<string, Tree>,
                 modules: map<string, Tree>, config: map<string, string>)
      ensures this.faults == faults && this.stamps == stamps && this.leftovers == leftovers
      ensures this.cache == cache && this.modules == modules && this.config == config && step == 0
    {
      this.faults, this.stamps, this.leftovers := faults, stamps, leftovers;
      this.cache, this.modules, this.config := cache, modules, config;
      step := 0;
    }

    /** No system call fails from here on. */
    ghost predicate Faultless()
      reads this
    {
      forall n :: n >= step ==> !faults(n)
    }

    method SystemCall() returns (failed: bool)
      modifies this`step
      ensures step > old(step)
      ensures old(Faultless()) ==> !failed && Faultless()
    {
      failed := faults(step);
      step := step + 1;
    }

    /** Whether two link-free trees are equal; an unreadable one counts as different. */
    method Same(left: Tree, right: Tree) returns (same: bool)
      requires left.Directory? && right.Directory? && !ContainsSymlink(left) && !ContainsSymlink(right)
      modifies this`step
      ensures step > old(step)
      ensures same ==> left == right
      ensures old(Faultless()) ==> Faultless() && (same <==> left == right)
    {
      var failed := SystemCall();
      if failed {
        return false;
      }
      same := DirectoriesEqual(left, right);
    }

    /** Fills one place in the cache. A stale copy there is replaced. */
    method PopulatePackageCache(directory: string, source: Option<Tree>) returns (ok: bool)
      modifies this`step, this`cache
      ensures step > old(step)
      ensures ok ==> CanPopulate(old(cache), directory, source) && cache == old(cache)[directory := source.value]
      ensures !ok ==> cache == old(cache) || cache == old(cache) - {directory}
      ensures old(Faultless()) ==> Faultless() && (ok <==> CanPopulate(old(cache), directory, source))
    {
      hide ContainsSymlink;
      var failed := SystemCall();
      if failed || source.None? || !source.value.Directory? || ContainsSymlink(source.value) {
        return false;
      }
      if directory in cache && cache[directory].Link? {
        return false;
      }
      if directory in cache && cache[directory].Directory? {
        var same := false;
        if !ContainsSymlink(cache[directory]) {
          same := Same(source.value, cache[directory]);
        }
        if same {
          return true;
        }
        cache := cache - {directory};
      }
      if directory in cache {
        return false;
      }
      var copied := CopyIntoCache();
      if !copied {
        return false;
      }
      cache := cache[directory := source.value];
      return true;
    }

    /** Create the parent and the temporary directory, copy, rename; the temporary directory is
        removed when one of them fails. */
    method CopyIntoCache() returns (ok: bool)
      modifies this`step
      ensures step > old(step)
      ensures old(Faultless()) ==> Faultless() && ok
    {
      ok := true;
      for stage := 0 to 4
        invariant step >= old(step) && (stage > 0 ==> step > old(step))
        invariant old(Faultless()) ==> Faultless()
      {
        var failed := SystemCall();
        if failed {
          return false;
        }
      }
    }

    /** Copies a cached package to lode_modules under an alias: through a temporary directory, so that
        no failure leaves anything there. */
    method MaterializePackage(directory: string, alias: string) returns (ok: bool, reused: bool)
      requires FreshFor(stamps, modules, alias)
      modifies this`step, this`modules
      ensures step >= old(step)
      ensures ok ==> directory in cache && modules == old(modules)[alias := cache[directory]]
      ensures ok ==> (reused <==> alias in old(modules)) && (reused ==> modules == old(modules))
      ensures !ok ==> modules == old(modules)
      ensures old(Faultless()) && directory in cache && Package(Some(cache[directory])) ==>
        Faultless() && (ok <==> CanMaterialize(old(modules), alias, cache[directory]))
    {
      hide ContainsSymlink;
      if !IsSafeName(alias) || directory !in cache || !cache[directory].Directory? ||
        ContainsSymlink(cache[directory]) {
        return false, false;
      }
      if alias in modules {
        if modules[alias].Directory? && !ContainsSymlink(modules[alias]) {
          reused := Same(cache[directory], modules[alias]);
          return reused, reused;
        }
        return false, false;
      }
      ok := CopyIntoModules(cache[directory], alias);
      return ok, false;
    }

    /** The copy: create lode_modules and the temporary directory, copy, rename. */
    method CopyIntoModules(tree: Tree, alias: string) returns (ok: bool)
      requires FreshFor(stamps, modules, alias) && alias !in modules
      modifies this`step, this`modules
      ensures step >= old(step)
      ensures modules == if ok then old(modules)[alias := tree] else old(modules)
      ensures old(Faultless()) ==> Faultless() && ok
    {
      var failed := SystemCall();
      if failed {
        return false;
      }
      var temporary := TemporaryName(alias, stamps(step));
      failed := SystemCall();
      if failed {
        return false;
      }
      modules := modules[temporary := Directory(map[])];
      failed := SystemCall();
      if failed {
        modules := modules[temporary := leftovers(step)];
        modules := modules - {temporary};
        return false;
      }
      modules := modules[temporary := tree];
      failed := SystemCall();
      if failed {
        modules := modules - {temporary};
        return false;
      }
      modules := (modules - {temporary})[alias := modules[temporary]];
      return true;
    }

    /** Removes what this installation created. */
    method RollbackMaterializedPackages(created: seq<string>)
      modifies this`modules
      ensures modules == old(modules) - Members(created)
    {
      for i := 0 to |created|
        invariant modules == old(modules) - Members(created[..i])
      {
        modules := modules - {created[i]};
        assert created[..i + 1] == created[..i] + [created[i]];
      }
      assert created[..|created|] == created;
    }

    /** Binds the aliases in the configuration, or changes nothing. */
    method BindAliases(aliases: set<string>) returns (ok: bool)
      modifies this`step, this`config
      ensures step >= old(step)
      ensures !ok ==> config == old(config)
      ensures ok ==> config == old(config) + (map a | a in aliases :: AliasPath(a))
      ensures old(Faultless()) ==> Faultless() && (ok <==> forall a :: a in aliases ==> CanBind(old(config), a))
    {
      var failed := SystemCall();
      if failed || exists a :: a in aliases && !CanBind(config, a) {
        return false;
      }
      config := config + (map a | a in aliases :: AliasPath(a));
      return true;
    }

    // ----- the transaction -----

    method PopulateAll(packages: map<nat, Identity>, sources: nat -> Option<Tree>) returns (ok: bool)
      requires OneTreePerDirectory(packages, sources)
      modifies this`step, this`cache
      ensures step >= old(step)
      ensures ok ==> forall t :: t in packages ==> InCache(cache, packages[t], sources(t))
      ensures old(Faultless()) ==> Faultless()
      ensures old(Faultless()) ==>
        (ok <==> forall t :: t in packages ==> CanPopulate(old(cache), packages[t].directory, sources(t)))
    {
      hide ContainsSymlink;
      var rest := packages.Keys;
      while rest != {}
        invariant rest <= packages.Keys && step >= old(step)
        invariant forall t :: t in packages && t !in rest ==> InCache(cache, packages[t], sources(t))
        invariant forall d :: Obstructed(cache, d) <==> Obstructed(old(cache), d)
        invariant old(Faultless()) ==> Faultless()
        invariant forall t :: t in packages && t !in rest ==> CanPopulate(old(cache), packages[t].directory, sources(t))
      {
        var t :| t in rest;
        ok := PopulatePackageCache(packages[t].directory, sources(t));
        if !ok {
          return;
        }
        rest := rest - {t};
      }
      ok := true;
    }

    /** Copies every alias into lode_modules. On success created lists the entries that were not
        there before; on failure everything created has been removed again. */
    method MaterializeAll(aliases: map<string, Identity>) returns (ok: bool, created: seq<string>)
      requires FreshNames(stamps, modules, aliases.Keys)
      modifies this`step, this`modules
      ensures step >= old(step)
      ensures ok ==> Holds(old(modules), modules, cache, aliases, aliases.Keys)
      ensures ok ==> modules - Members(created) == old(modules)
      ensures !ok ==> modules == old(modules)
      ensures old(Faultless()) && AllCached(cache, aliases) ==>
        Faultless() && (ok <==> Fit(old(modules), cache, aliases, aliases.Keys))
    {
      hide CanMaterialize, Holds, AllCached, Fit, Members, FreshNames, FreshFor, Package;
      NothingDone(modules, cache, aliases);
      created := [];
      var rest := aliases.Keys;
      while rest != {}
        invariant rest <= aliases.Keys && step >= old(step)
        invariant Holds(old(modules), modules, cache, aliases, aliases.Keys - rest)
        invariant modules - Members(created) == old(modules)
        invariant old(Faultless()) && AllCached(cache, aliases) ==>
          Faultless() && Fit(old(modules), cache, aliases, aliases.Keys - rest)
      {
        var alias :| alias in rest;
        FreshStays(stamps, old(modules), modules, cache, aliases, aliases.Keys - rest, alias);
        SameChance(old(modules), modules, cache, aliases, aliases.Keys - rest, alias);
        assert aliases.Keys - (rest - {alias}) == aliases.Keys - rest + {alias};
        ghost var before := modules;
        var reused;
        ok, reused := MaterializePackage(aliases[alias].directory, alias);
        if !ok {
          RollbackMaterializedPackages(created);
          return;
        }
        HoldsMore(old(modules), before, modules, cache, aliases, aliases.Keys - rest, alias);
        if !reused {
          CreatedMore(old(modules), before, created, alias, cache[aliases[alias].directory]);
          created := created + [alias];
        }
        rest := rest - {alias};
      }
      assert aliases.Keys - {} == aliases.Keys;
      ok := true;
    }

    /** The whole installation. On any error the project is as it was; on success each edge to be
        installed finds, under its alias, the tree of the package it leads to, and nothing else in
        lode_modules has changed. Without faults it succeeds exactly when nothing is in its way. */
    method InstallResolvedGraph(graph: DependencyGraph, development: bool, identify: Identify,
                                sources: nat -> Option<Tree>)
      returns (ok: bool)
      requires Faithful(identify, sources)
      requires FreshNames(stamps, modules, DeclaredAliases(graph))
      modifies this
      ensures !ok ==> modules == old(modules) && config == old(config)
      ensures ok ==> forall e :: e in InstallEdges(graph, development) ==> Delivered(sources, e, modules, config)
      ensures ok ==> forall n :: (forall e :: e in InstallEdges(graph, development) ==> e.alias != n) ==>
        SameAt(old(modules), modules, n) && SameAt(old(config), config, n)
      ensures old(Faultless()) ==>
        (ok <==>
          (&& Plannable(identify, InstallEdges(graph, development)) &&
            AllPopulate(identify, sources, InstallEdges(graph, development), old(cache))
           && AllMaterialize(identify, sources, InstallEdges(graph, development), old(modules)) &&
                AllBind(InstallEdges(graph, development), old(config))))
    {
      hide InstallEdges, Plans, Plannable, Installs, Holds, Faithful, Delivered, AllPopulate, AllMaterialize, AllBind,
        AllCached, Fit, TreesCached, FreshNames, Identified, OneTreePerDirectory,
        CanPopulate, CanMaterialize, CanBind, InCache, Cached, SameAt, Members, ContainsSymlink;
      ghost var edges := InstallEdges(graph, development);
      var aliases, packages, errors := Plan(graph, development, identify);
      if errors != [] {
        return false;
      }
      ghost var cache0, modules0, config0 := cache, modules, config;
      OneTree(identify, sources, edges, aliases, packages);
      PopulateOutcome(identify, sources, edges, aliases, packages, cache0);
      ok := PopulateAll(packages, sources);
      if !ok {
        return;
      }
      TreesAreCached(identify, sources, edges, aliases, packages, cache);
      MaterializeOutcome(identify, sources, edges, aliases, packages, cache, modules0);
      AliasesAreDeclared(graph, development, identify, edges, aliases, packages);
      FewerFresh(stamps, modules, aliases.Keys, DeclaredAliases(graph));
      var created;
      ok, created := MaterializeAll(aliases);
      if !ok {
        return;
      }
      BindOutcome(identify, edges, aliases, packages, config0);
      if aliases != map[] {
        ok := BindAliases(aliases.Keys);
        if !ok {
          RollbackMaterializedPackages(created);
          return;
        }
      }
      InstalledOutcome(identify, sources, edges, aliases, packages, cache, modules0, modules, config0, config);
    }
  }

  /** No entry has the name of a temporary directory for this alias. */
  ghost predicate FreshFor(stamps: nat -> string, modules: map<string, Tree>, alias: string) {
    forall n :: TemporaryName(alias, stamps(n)) !in modules
  }

  ghost predicate FreshNames(stamps: nat -> string, modules: map<string, Tree>, aliases: set<string>) {
    forall a, n :: a in aliases ==> TemporaryName(a, stamps(n)) !in modules && TemporaryName(a, stamps(n)) !in aliases
  }

  lemma FewerFresh(stamps: nat -> string, modules: map<string, Tree>, few: set<string>, many: set<string>)
    requires FreshNames(stamps, modules, many) && few <= many
    ensures FreshNames(stamps, modules, few)
  {
    hide TemporaryName;
  }

  lemma FreshStays(stamps: nat -> string, was: map<string, Tree>, now: map<string, Tree>, cache: map<string, Tree>,
                   aliases: map<string, Identity>, done: set<string>, alias: string)
    requires FreshNames(stamps, was, aliases.Keys) && alias in aliases && done <= aliases.Keys
    requires Holds(was, now, cache, aliases, done)
    ensures FreshFor(stamps, now, alias)
  {
    hide TemporaryName;
  }

  lemma CreatedMore(was: map<string, Tree>, before: map<string, Tree>, created: seq<string>, alias: string, tree: Tree)
    requires before - Members(created) == was && alias !in before
    ensures before[alias := tree] - Members(created + [alias]) == was
  {
    assert Members(created + [alias]) == Members(created) + {alias};
    assert before[alias := tree] - (Members(created) + {alias}) == before - Members(created);
  }

  ghost function Members(created: seq<string>): (r: set<string>) {
    set a | a in created
  }

  predicate Cached(cache: map<string, Tree>, identity: Identity) {
    identity.directory in cache && Package(Some(cache[identity.directory]))
  }

  ghost predicate AllCached(cache: map<string, Tree>, aliases: map<string, Identity>) {
    forall a :: a in aliases ==> Cached(cache, aliases[a])
  }

  /** These aliases can be materialized. */
  ghost predicate Fit(modules: map<string, Tree>, cache: map<string, Tree>, aliases: map<string, Identity>,
                      some: set<string>) {
    forall a :: a in some ==>
      a in aliases && aliases[a].directory in cache && CanMaterialize(modules, a, cache[aliases[a].directory])
  }

  lemma NothingDone(modules: map<string, Tree>, cache: map<string, Tree>, aliases: map<string, Identity>)
    ensures aliases.Keys - aliases.Keys == {}
    ensures Holds(modules, modules, cache, aliases, {}) && Fit(modules, cache, aliases, {})
    ensures modules - Members([]) == modules
  {
  }

  /** Whether an alias can be materialized is not changed by the aliases before it. */
  lemma SameChance(was: map<string, Tree>, now: map<string, Tree>, cache: map<string, Tree>,
                   aliases: map<string, Identity>, done: set<string>, alias: string)
    requires Holds(was, now, cache, aliases, done) && alias in aliases && alias !in done
    ensures AllCached(cache, aliases) ==>
      aliases[alias].directory in cache && Package(Some(cache[aliases[alias].directory]))
    ensures aliases[alias].directory in cache && Fit(was, cache, aliases, done) ==>
      (CanMaterialize(now, alias, cache[aliases[alias].directory]) <==> Fit(was, cache, aliases, done + {alias}))
    ensures done <= aliases.Keys && !Fit(was, cache, aliases, done + {alias}) ==>
      !Fit(was, cache, aliases, aliases.Keys)
  {
    hide IsSafeName, Package;
  }

  /** Each alias that is done holds its package; every other entry is as it was. */
  ghost predicate Holds(was: map<string, Tree>, now: map<string, Tree>, cache: map<string, Tree>,
                        aliases: map<string, Identity>, done: set<string>) {
    && (forall a :: a in done ==>
          a in aliases && a in now && aliases[a].directory in cache && now[a] == cache[aliases[a].directory])
    && forall n :: n !in done ==> (n in now <==> n in was) && (n in now ==> now[n] == was[n])
  }

  lemma HoldsMore(was: map<string, Tree>, before: map<string, Tree>, now: map<string, Tree>, cache: map<string, Tree>,
                  aliases: map<string, Identity>, done: set<string>, alias: string)
    requires Holds(was, before, cache, aliases, done) && alias in aliases && alias !in done
    requires aliases[alias].directory in cache
    requires now == before[alias := cache[aliases[alias].directory]]
    ensures Holds(was, now, cache, aliases, done + {alias})
  {
  }

  /** The place of the package in the cache holds the package's tree. */
  predicate InCache(cache: map<string, Tree>, identity: Identity, source: Option<Tree>) {
    Package(source) && identity.directory in cache && cache[identity.directory] == source.value
  }

  ghost predicate OneTreePerDirectory(packages: map<nat, Identity>, sources: nat -> Option<Tree>) {
    forall t, u :: t in packages && u in packages && packages[t].directory == packages[u].directory ==>
      sources(t) == sources(u)
  }

  /** Identities tell packages apart: equal documents, equal place in the cache, equal trees. */
  ghost predicate Faithful(identify: Identify, sources: nat -> Option<Tree>) {
    forall t, u :: identify(t).Some? && identify(u).Some? ==>
      && (identify(t).value.document == identify(u).value.document <==>
            identify(t).value.directory == identify(u).value.directory)
      && (identify(t).value.document == identify(u).value.document ==> sources(t) == sources(u))
  }

  ghost predicate Delivered(sources: nat -> Option<Tree>, e: DependencyEdge, modules: map<string, Tree>,
                            config: map<string, string>) {
    && e.target.Some? && sources(e.target.value).Some?
    && e.alias in modules && modules[e.alias] == sources(e.target.value).value
    && e.alias in config && config[e.alias] == AliasPath(e.alias)
  }

  ghost predicate SameAt<T>(was: map<string, T>, now: map<string, T>, n: string) {
    (n in now <==> n in was) && (n in now ==> now[n] == was[n])
  }

  // ----- when nothing is in the way -----

  ghost predicate AllPopulate(identify: Identify, sources: nat -> Option<Tree>, edges: set<DependencyEdge>,
                              cache: map<string, Tree>) {
    forall e :: e in edges ==>
      Identified(identify, e) && CanPopulate(cache, identify(e.target.value).value.directory, sources(e.target.value))
  }

  ghost predicate AllMaterialize(identify: Identify, sources: nat -> Option<Tree>, edges: set<DependencyEdge>,
                                 modules: map<string, Tree>) {
    forall e :: e in edges ==>
      Identified(identify, e) && sources(e.target.value).Some? &&
        CanMaterialize(modules, e.alias, sources(e.target.value).value)
  }

  ghost predicate AllBind(edges: set<DependencyEdge>, config: map<string, string>) {
    forall e :: e in edges ==> CanBind(config, e.alias)
  }

  lemma OneTree(identify: Identify, sources: nat -> Option<Tree>, edges: set<DependencyEdge>,
                aliases: map<string, Identity>, packages: map<nat, Identity>)
    requires Plans(identify, edges, aliases, packages) && Faithful(identify, sources)
    ensures OneTreePerDirectory(packages, sources)
  {
    hide Bound, AliasFrom;
    forall t | t in packages ensures identify(t) == Some(packages[t]) {
      assert PackageFrom(identify, edges, t, packages[t]);
    }
  }

  lemma PopulateOutcome(identify: Identify, sources: nat -> Option<Tree>, edges: set<DependencyEdge>,
                        aliases: map<string, Identity>, packages: map<nat, Identity>, cache: map<string, Tree>)
    requires Plans(identify, edges, aliases, packages)
    ensures AllPopulate(identify, sources, edges, cache) <==>
      forall t :: t in packages ==> CanPopulate(cache, packages[t].directory, sources(t))
  {
    hide CanPopulate, AliasFrom;
    forall e | e in edges
      ensures Identified(identify, e) && e.target.value in packages
      ensures identify(e.target.value) == Some(packages[e.target.value])
    {
      assert Bound(identify, e, aliases, packages);
      assert PackageFrom(identify, edges, e.target.value, packages[e.target.value]);
    }
    forall t | t in packages ensures exists e :: e in edges && e.target == Some(t) {
      assert PackageFrom(identify, edges, t, packages[t]);
    }
  }

  /** The place that an edge's alias stands for holds the tree of the package the edge leads to. */
  ghost predicate TreeCached(sources: nat -> Option<Tree>, aliases: map<string, Identity>, cache: map<string, Tree>,
                             e: DependencyEdge) {
    && e.target.Some? && e.alias in aliases
    && InCache(cache, aliases[e.alias], sources(e.target.value))
  }

  ghost predicate TreesCached(sources: nat -> Option<Tree>, edges: set<DependencyEdge>,
                              aliases: map<string, Identity>, cache: map<string, Tree>) {
    && (forall e :: e in edges ==> TreeCached(sources, aliases, cache, e))
    && forall a :: a in aliases ==> exists e :: e in edges && e.alias == a
  }

  lemma TreesAreCached(identify: Identify, sources: nat -> Option<Tree>, edges: set<DependencyEdge>,
                       aliases: map<string, Identity>, packages: map<nat, Identity>, cache: map<string, Tree>)
    requires Plans(identify, edges, aliases, packages) && Faithful(identify, sources)
    requires forall t :: t in packages ==> InCache(cache, packages[t], sources(t))
    ensures TreesCached(sources, edges, aliases, cache)
  {
    hide Package, Faithful, InCache, PackageFrom, Bound, TreeCached;
    forall a | a in aliases ensures exists e :: e in edges && e.alias == a {
      assert AliasFrom(identify, edges, a, aliases[a]);
    }
    forall e | e in edges ensures TreeCached(sources, aliases, cache, e) {
      OneTreeCached(identify, sources, edges, aliases, packages, cache, e);
    }
  }

  lemma OneTreeCached(identify: Identify, sources: nat -> Option<Tree>, edges: set<DependencyEdge>,
                      aliases: map<string, Identity>, packages: map<nat, Identity>, cache: map<string, Tree>,
                      e: DependencyEdge)
    requires Plans(identify, edges, aliases, packages) && Faithful(identify, sources) && e in edges
    requires forall t :: t in packages ==> InCache(cache, packages[t], sources(t))
    ensures TreeCached(sources, aliases, cache, e)
  {
    hide Package;
    assert Bound(identify, e, aliases, packages);
    var target := e.target.value;
    assert PackageFrom(identify, edges, target, packages[target]);
    assert AliasFrom(identify, edges, e.alias, aliases[e.alias]);
    var d :| d in edges && d.alias == e.alias && Identified(identify, d) &&
      identify(d.target.value).value == aliases[e.alias];
    hide Plans, AliasFrom, PackageFrom, Bound;
    assert InCache(cache, packages[target], sources(target));
    assert identify(target).value.document == identify(d.target.value).value.document;
    assert aliases[e.alias].directory == packages[target].directory;
  }

  lemma MaterializeOutcome(identify: Identify, sources: nat -> Option<Tree>, edges: set<DependencyEdge>,
                           aliases: map<string, Identity>, packages: map<nat, Identity>, cache: map<string, Tree>,
                           modules: map<string, Tree>)
    requires Plans(identify, edges, aliases, packages) && TreesCached(sources, edges, aliases, cache)
    ensures AllCached(cache, aliases)
    ensures AllMaterialize(identify, sources, edges, modules) <==> Fit(modules, cache, aliases, aliases.Keys)
  {
    hide CanMaterialize, AliasFrom, PackageFrom, ContainsSymlink;
    forall a | a in aliases ensures Cached(cache, aliases[a]) {
      var e :| e in edges && e.alias == a;
      assert TreeCached(sources, aliases, cache, e);
    }
    forall e | e in edges
      ensures Identified(identify, e) && e.alias in aliases && aliases[e.alias].directory in cache
      ensures sources(e.target.value) == Some(cache[aliases[e.alias].directory])
    {
      assert Bound(identify, e, aliases, packages);
      assert TreeCached(sources, aliases, cache, e);
    }
    hide Plans, Bound, TreeCached, InCache;
    if AllMaterialize(identify, sources, edges, modules) {
      forall a | a in aliases ensures aliases[a].directory in cache &&
        CanMaterialize(modules, a, cache[aliases[a].directory]) {
        assert Cached(cache, aliases[a]);
        var e :| e in edges && e.alias == a;
      }
    }
  }

  lemma BindOutcome(identify: Identify, edges: set<DependencyEdge>, aliases: map<string, Identity>,
                    packages: map<nat, Identity>, config: map<string, string>)
    requires Plans(identify, edges, aliases, packages)
    ensures AllBind(edges, config) <==> forall a :: a in aliases.Keys ==> CanBind(config, a)
  {
    hide CanBind, PackageFrom;
    forall e | e in edges ensures e.alias in aliases {
      assert Bound(identify, e, aliases, packages);
    }
    forall a | a in aliases ensures exists e :: e in edges && e.alias == a {
      assert AliasFrom(identify, edges, a, aliases[a]);
    }
  }

  ghost function DeclaredAliases(graph: DependencyGraph): (r: set<string>) {
    set i, e | 0 <= i < |graph.packages| && e in graph.packages[i].dependencies :: e.alias
  }

  lemma AliasesAreDeclared(graph: DependencyGraph, development: bool, identify: Identify, edges: set<DependencyEdge>,
                           aliases: map<string, Identity>, packages: map<nat, Identity>)
    requires Plans(identify, edges, aliases, packages)
    requires edges == InstallEdges(graph, development)
    ensures aliases.Keys <= DeclaredAliases(graph)
  {
    hide Bound, PackageFrom;
    forall a | a in aliases ensures a in DeclaredAliases(graph) {
      assert AliasFrom(identify, edges, a, aliases[a]);
      var e :| e in edges && e.alias == a;
      assert Installs(graph, development, e);
      var i: nat :| i < |graph.packages| && InstallsFrom(graph, development, i, e);
    }
  }

  lemma InstalledOutcome(identify: Identify, sources: nat -> Option<Tree>, edges: set<DependencyEdge>,
                         aliases: map<string, Identity>, packages: map<nat, Identity>, cache: map<string, Tree>,
                         was: map<string, Tree>, now: map<string, Tree>, bindings: map<string, string>,
                         config: map<string, string>)
    requires Plans(identify, edges, aliases, packages) && TreesCached(sources, edges, aliases, cache)
    requires Holds(was, now, cache, aliases, aliases.Keys)
    requires config == bindings + (map a | a in aliases.Keys :: AliasPath(a))
    ensures forall e :: e in edges ==> Delivered(sources, e, now, config)
    ensures forall n :: (forall e :: e in edges ==> e.alias != n) ==> SameAt(was, now, n) && SameAt(bindings, config, n)
  {
    hide AliasFrom, PackageFrom, Bound, ContainsSymlink, AliasPath;
    forall e | e in edges ensures Delivered(sources, e, now, config) {
      assert TreeCached(sources, aliases, cache, e);
    }
  }
}
