# LodeRuntime, modelled in Dafny

LodeRuntime runs Luau programs and brings its own package manager and standard modules. This project models
the logic at its core that can be stated without the virtual machine, the disk or the network, and proves what
that logic is for.

- **Packages.** The resolver walks possibly cyclic manifests into a dependency graph (`PackageValidator`); the
  Git pass splices checkouts into that graph while it walks it (`GitMerge`, `GitResolution`, `GitValidated`);
  the planner selects what is installed and under which alias (`InstallPlan`); the installation is all or
  nothing (`CacheIdentity`, `PackageTree`, `InstallTransaction`); the lockfile is canonical and faithful
  (`StringOrder`, `Sorting`, `PackageLockfile`), and read back as what it was built from (`LockedEdges`).
- **Text.** The manifest parser, its grammar and the printer agree (`ManifestText`, `ManifestForms`,
  `ManifestRoundTrip`, `ManifestParser`), and so
  do the scanner, the inserter and the generator of `.config.luau` (`ConfigText`, `ConfigRoundTrip`,
  `ConfigScanner`, `ConfigReads`), also on text written by hand (`ConfigForms`), whose text holds what installations bind (`ConfigBindings`), both over the character classes of `Characters`.
- **Protocols.** Signals, timers and the post queue are state machines whose callbacks re-enter them (`Signal`,
  `TaskTimers`, `EventLoop`). A run is any sequence of actions, and a callback is the list of actions it performs.
- **Data.** SHA-256 streaming (`Sha256`), DER and keys (`Der`, `DerStreams`, `CryptoKeys`,
  `CryptoKeysExact`), ECDSA signatures (`Ecdsa`), Base64, hexadecimal and PEM (`Base64`, `Pem`), HKDF and PBKDF2 (`KeyDerivation`), and the JSON event
  handler and writer (`Json`, `JsonHandler`, `JsonWriter`).

Each operation that works by changing things step by step is a method or a class, proved equal to a function on
values; what the repository promises is then proved about that function, over all inputs or all runs.
Lists and dictionaries are `seq` and `map`; canonical paths, digests and scalars are opaque; files are trees.
System calls, clocks, HMAC, version matching and path safety are parameters. A system call may fail at any time.

`dafny verify dfyconfig.toml` checks everything.

Where code and documentation differ, the model follows the code. Where a natural expectation does not hold, a
concrete case shows it and a theorem says exactly when it does:

- a manifest document survives printing exactly without empty arrays (`EmptyArrayIsLost`, `DocumentSurvivesIff`);
- cancelling a thread stops it exactly when no timer holds it as a plain callback (`CancelMissesCallback`,
  `CancelStopsThreadIff`), although the declaration of `Task::Cancel` speaks of any scheduled coroutine;
- a deleted timer is read exactly when its close callback runs inside its own callback (`ClearedAndReaped`,
  `FreedReadIff`);
- posted work keeps its order exactly when no nested drain overtakes an outer one (`NestedOvertakes`, `FifoIff`);
- an ECDSA signature with a zero half is accepted exactly in padded form (`PaddedZeroIsAccepted`, `AcceptedIff`,
  `ZeroHalfIff`), and is written back unchanged exactly when canonical (`ReencodesIffCanonical`);
- a P-256 private key is written back unchanged exactly when its optional elements are the written ones
  (`CurveMayBeOmitted`, `EccPrivateIsWrittenIff`);
- the search for an alias reads past the end of the text exactly when its scan overruns, never on generated text
  (`StringTableOverruns`, `FindExistingAlias`, `GeneratedStaysInRange`);
- a written JSON value comes back unchanged exactly when it is a list or a record all the way down
  (`MixedIsChanged`, `WrittenReadsBack`).

## Model

| member | source | states |
|---|---|---|
| PackageValidator.Resolve | src/PackageValidator.cpp:456-487 | terminates on every finite, possibly cyclic set of manifests; reports no error exactly when no declaration of a reachable package fails to resolve; then the graph has exactly one node per reachable package and each node carries exactly one edge per well-formed declaration, with the right target; in every case an error is reported exactly when it is the error of a declaration of a package that is entered, every such declaration is reported exactly once, and the errors come in the order of a depth-first walk that skips what it has seen; the root has source Root and no other node has, every other node has the source of the first declaration, in the order of that walk, that resolves to it, and none has a repository, commit or artifact |
| PackageValidator.WalkReportsEachOnce | src/PackageValidator.cpp:321-487 | the depth-first walk visits every entered package once and reports, with its multiplicity, one error for each of its faulty declarations |
| PackageValidator.PackageCounts | src/PackageValidator.cpp:456-487 | walking one package reports its own errors and those of the packages seen meanwhile, each of them listed once |
| PackageValidator.AgainIsNothing | src/PackageValidator.cpp:456-487 | the guard lets a finished package without edges in again; nothing is reported or entered by it |
| PackageValidator.PlacedAreSourced | src/PackageValidator.cpp:291-313 | packages that stand in the order of the first links to them, the root first, have the source of these links, which are declarations of reachable packages |
| PackageValidator.PathMeans | src/PackageValidator.cpp:321-454 | what a path declaration means: its edge, linked to the package at its place whatever the version, and its error when there is no directory, no manifest or another version |
| PackageValidator.GitMeans | src/PackageValidator.cpp:321-454 | a Git declaration is an edge to its repository without target or error; a malformed one is nothing |
| PackageValidator.StandardMeans | src/PackageValidator.cpp:321-454 | a standard declaration is linked exactly when the catalog has a package of a satisfying version for its alias; otherwise it is open, which is an error unless such declarations may stay open |
| PackageValidator.Resolver.AddGraphNode | src/PackageValidator.cpp:291-313 | a known path keeps its index; a new one gets the next index and a node without edges, with the source it was found by |
| PackageValidator.Resolver.ResolveDependencyTable | src/PackageValidator.cpp:321-454 | one pass over a table appends exactly the edges the table declares, in order, completes every package it enters, and reports what the walk over the table reports, in its order |
| PackageValidator.Resolver.ResolveDependencyGraph | src/PackageValidator.cpp:456-487 | a call completes its package unless it is active already, and completes no package twice, so neither diamonds nor cycles duplicate edges or errors; it reports what the walk from its package reports, in its order |
| PackageValidator.Resolver.ResolveDeclaration | src/PackageValidator.cpp:321-454 | one declaration of each kind: the edge it leaves; what is reported and entered is what the walk of this declaration reports and sees: a failing one appends exactly its own error; what it leads to has been entered or its error reported |
| PackageValidator.Resolver.LinkPackage | src/PackageValidator.cpp:366-454 | links the edge to the node of the package found; a wrong version appends exactly its error and enters nothing; nothing is entered again when the package is active or has edges; afterwards a package of the right version has been entered |
| PackageValidator.Resolver.LeaveUnlinked | src/PackageValidator.cpp:321-454 | appends the edge without target, and the error of a missing package or nothing |
| PackageValidator.FinishedIsExact | src/PackageValidator.cpp:456-487 | a finished walk without errors is the exact graph, and every reachable package is free of faults |
| PackageValidator.KnownIsClosed | src/PackageValidator.cpp:321-454 | when nothing is active the indexed paths are closed under resolved declarations |
| PackageValidator.ClosedSetCoversChain | src/PackageValidator.cpp:456-487 | a set of packages that holds the root and is closed under resolved declarations holds every reachable package |
| PackageValidator.TargetIsReachable | src/PackageValidator.cpp:321-454 | the package a declaration of a reachable package resolves to is reachable, development declarations counting for the root only |
| PackageValidator.FaultBreaksSoundness | src/PackageValidator.cpp:321-454 | a failing declaration of a reachable package rules an error-free run out |
| PackageValidator.ErrorsAreReported | src/PackageValidator.cpp:321-487 | at the end of the walk the errors are exactly those of the declarations of the packages entered, each with its kind |
| PackageValidator.EnteredIsClosed | src/PackageValidator.cpp:321-454 | every package that resolving declarations lead to has been entered |
| PackageValidator.Resolver.ResolveTables | src/PackageValidator.cpp:478-484 | both tables of an active package: all its declared edges, and every declaration handled |
| GitMerge.PlacePackages | src/PackageInstaller.cpp:441-500 | existing nodes keep their index, the one known by the checkout's path is overwritten, every path of the checkout is indexed, and the index stays injective and in range |
| GitMerge.SpliceEdges | src/PackageInstaller.cpp:502-521 | a node that has edges keeps them; a node without edges gets exactly the runtime edges of its resolved node |
| GitMerge.AppendEdges | src/PackageInstaller.cpp:511-520 | the runtime edges in order, each target replaced by the node known by the target's path |
| GitMerge.Merge | src/PackageInstaller.cpp:441-521 | one whole merge: what is kept, what is appended, which edges each node has, and that nothing comes from anywhere else |
| GitMerge.MergeKeepsRange | src/PackageInstaller.cpp:441-521 | after a merge every edge target is still in range |
| GitMerge.DonorOf | src/PackageInstaller.cpp:441-521 | every appended node, and every node that gained edges, has them from one package of the checkout with the same path |
| GitMerge.SplicedSays | src/PackageInstaller.cpp:511-520 | the edges a package is given say, one by one and in order, what the runtime edges of the checkout's package say, with targets by path |
| GitMerge.AppendedIs | src/PackageInstaller.cpp:441-500 | an appended package has the name, version, root and source it has in the checkout; the checkout's own package is a Git package with this repository, commit and artifacts |
| GitResolution.IndexPackages | src/PackageInstaller.cpp:265-267 | the index of the starting graph: the first package of each path |
| GitResolution.TargetOf | src/PackageInstaller.cpp:276-524 | the target of an open Git edge is what its repository was resolved to before, or a new merge; it is refused exactly when the edge is blocked and its repository was not resolved before |
| GitResolution.ResolveEdge | src/PackageInstaller.cpp:276-526 | linking one edge keeps the invariant of the pass and only changes the graph when a repository is resolved |
| GitResolution.ResolvePackage | src/PackageInstaller.cpp:270-528 | all open Git edges of one package |
| GitResolution.ResolveGitDependencies | src/PackageInstaller.cpp:254-531 | the pass over the growing graph terminates; every package has its original edges or those of a checkout, up to filled-in Git targets; on failure some edge is blocked; on success no Git edge is left open, provided that packages known by one path agree on having runtime declarations |
| GitResolution.MergeKeeps | src/PackageInstaller.cpp:441-523 | a merge keeps the invariant of the pass |
| GitResolution.LinkKeeps | src/PackageInstaller.cpp:526-526 | filling in a target keeps the invariant of the pass |
| GitResolution.LinkedIsRecorded | src/PackageInstaller.cpp:254-531 | every edge that was given its target leads to a package that records the repository, commit, artifacts and root of a checkout of the same directory; of the checkout it was resolved to, when checkouts have directories of their own |
| GitResolution.MergeAttributes | src/PackageInstaller.cpp:441-500 | a merge records where the checkout's package comes from and leaves what is recorded of all others |
| GitResolution.MergeLeavesEdges | src/PackageInstaller.cpp:502-521 | when one directory always declares the same, a merge never gives edges to a package the pass has already left behind |
| GitValidated.ExactIsWellFormed | src/PackageValidator.cpp:456-487 | a graph the resolver accepted has what the merge needs: root and targets in range, distinct paths |
| GitValidated.OneDiskOneManifest | src/PackageValidator.cpp:456-487 | graphs resolved against the same manifests agree, directory by directory, on whether there are runtime declarations |
| InstallPlan.CollectInstallablePackages | src/PackageInstaller.cpp:40-73 | terminates and marks exactly the packages reached from the root, development edges counting only on the root and only when requested |
| InstallPlan.MarkTargets | src/PackageInstaller.cpp:57-69 | one visit marks only reached packages, reports a change exactly when it made one, and otherwise the package's edges are settled |
| InstallPlan.SettledCovers | src/PackageInstaller.cpp:40-73 | marks that no counting edge leads out of cover every walk from the root |
| InstallPlan.VisitedAreInstalled | src/PackageInstaller.cpp:75-86 | the edges the planner visits are exactly the counting edges of reached packages |
| InstallPlan.PlanEdge | src/PackageInstaller.cpp:1008-1043 | one edge keeps the plan exact, or makes it an error exactly when the edges so far cannot be planned |
| InstallPlan.Plan | src/PackageInstaller.cpp:997-1047 | succeeds exactly when every edge to be installed leads to a package with an identity and no alias stands for two; then the tables say exactly that |
| InstallPlan.ConflictSpoils | src/PackageInstaller.cpp:1034-1041 | an alias bound to another identity makes the plan impossible |
| PackageTree.DirectoriesEqual | src/PackageCache.cpp:202-237 | the recursive comparison over sorted names answers whether two link-free trees are equal |
| PackageTree.SortedNamesAgree | src/PackageCache.cpp:204-218 | sorted listings are equal exactly when the directories have the same names, whatever order they were enumerated in |
| CacheIdentity.IdentityIsExact | src/PackageCache.cpp:273-383 | two cacheable packages have the same document exactly when name, version, source, reference, commit and the artifacts as a collection agree |
| CacheIdentity.IdentitiesAreFaithful | src/PackageCache.cpp:273-383 | with an injective digest and one tree per package, identities meet what the installation assumes: equal documents, equal places and equal trees go together |
| InstallTransaction.Disk.PopulatePackageCache | src/PackageCache.cpp:385-501 | the place holds the source tree on success, nothing else in the cache changes; without faults it succeeds exactly when the source is a link-free directory and no file stands in the way |
| InstallTransaction.Disk.MaterializePackage | src/PackageCache.cpp:503-606 | on failure lode_modules is as it was; on success only the alias changed and it holds the cached tree; an equal directory is reused |
| InstallTransaction.Disk.CopyIntoModules | src/PackageCache.cpp:560-605 | whichever step fails, the temporary directory is gone again |
| InstallTransaction.Disk.PopulateAll | src/PackageInstaller.cpp:1049-1059 | every planned package is in the cache, or an error is reported |
| InstallTransaction.Disk.MaterializeAll | src/PackageInstaller.cpp:1061-1078 | all aliases or none: on failure everything created has been removed again |
| InstallTransaction.Disk.RollbackMaterializedPackages | src/PackageInstaller.cpp:235-252 | removes exactly the listed entries |
| InstallTransaction.Disk.BindAliases | src/PackageInstaller.cpp:1080-1118 | binds all aliases, or changes nothing |
| InstallTransaction.Disk.InstallResolvedGraph | src/PackageInstaller.cpp:991-1121 | all or nothing for the project: on any error lode_modules and the bindings are as before; on success each installed edge finds its target's tree under its alias and nothing else changed; without faults it succeeds exactly when nothing is in the way |
| InstallTransaction.TreesAreCached | src/PackageInstaller.cpp:1034-1059 | the cache place an alias stands for holds the tree of the target of every edge using the alias |
| InstallTransaction.InstalledOutcome | src/PackageInstaller.cpp:1061-1118 | what success means for every edge and for every other entry |
| PackageLockfile.PackageLessIsTupleLess | src/PackageLockfile.cpp:79-100 | the comparison is the lexicographic order of rank, name, version, reference and commit |
| PackageLockfile.OrderIsComplete | src/PackageLockfile.cpp:150-160 | the canonical order lists every package once, the root first |
| PackageLockfile.LockfileIsCanonical | src/PackageLockfile.cpp:134-293 | the document is the same for every renumbering of nodes and every rearrangement of edges and artifacts, when no two packages tie and aliases are distinct |
| PackageLockfile.LockfileIsIsomorphic | src/PackageLockfile.cpp:134-293 | read back through the order, the emitted targets are exactly the edges of the graph, scope by scope, with the root at 0; a Git package has its repository and commit, a path package its relative path, every package its artifacts |
| PackageLockfile.OriginIsRecorded | src/PackageLockfile.cpp:183-232 | a Git package is written with its repository as reference and its commit, a path package with its relative path and no commit, any other with neither, and all of its artifacts |
| LockedEdges.ParseLockedGitEdges | src/PackageInstaller.cpp:121-202 | reading succeeds exactly when every Git edge has a complete target and edges with one key agree on repository and commit; then there is a record for every key of a Git edge and for no other |
| LockedEdges.ReadField | src/PackageInstaller.cpp:137-199 | one list of dependencies, edge by edge, with the refusals |
| LockedEdges.ReadEdge | src/PackageInstaller.cpp:139-198 | one dependency: skipped unless its target is a Git package, refused when incomplete or ambiguous, otherwise recorded unless its key is |
| LockedEdges.LockfileReadsBack | src/PackageInstaller.cpp:121-213 | reading the lockfile of a graph gives, under the key the installer looks up, the repository and commit of the target of every edge to a Git package, and artifacts of such a target |
| LockedEdges.LockfileIsReadableIff | src/PackageInstaller.cpp:121-202 | the lockfile of a graph is readable exactly when Git targets have names and versions and edges with one key do not lead to different repositories or commits |
| LockedEdges.LockedEdgesAreLocated | src/PackageInstaller.cpp:281-293 | an installation with the lockfile looks for every Git dependency at the repository and commit the lockfile was built from |
| PackageLockfile.BuildLockfile | src/PackageLockfile.cpp:134-293 | no error exactly when the graph is lockable; then the document is the rendering of a canonical layout |
| PackageLockfile.BuildPackages | src/PackageLockfile.cpp:172-288 | one document per package in order, or an error for a package that cannot be locked |
| PackageLockfile.BuildPackage | src/PackageLockfile.cpp:174-287 | the fields, sorted artifacts and sorted edges of one package |
| PackageLockfile.BuildEdges | src/PackageLockfile.cpp:239-285 | runtime and development edges separately, with targets renumbered; an error exactly for an edge that cannot be locked |
| PackageLockfile.OrderPackages | src/PackageLockfile.cpp:150-160 | the root first, then a sorted permutation of all others |
| PackageLockfile.RemapIndexes | src/PackageLockfile.cpp:162-164 | each package is mapped to its position in the order |
| ManifestRoundTrip.ManifestRoundTrip | src/PackageManifest.cpp:29-344 | parsing what the printer wrote gives the checked document, empty arrays having become empty tables |
| ManifestForms.ParseIsGrammar | src/PackageManifest.cpp:29-344 | the parser and the grammar agree: a text is accepted with a result exactly when it is the text of some form (plain or bracketed keys, either quote, escapes, either separator or none at the end, white space and comments between tokens) that stands for this result |
| ManifestForms.FormIsParsed | src/PackageManifest.cpp:29-344 | whatever the form, parsing checks the document it means, or refuses it for a table that mixes keyed and positional entries |
| ManifestForms.AcceptedForm | src/PackageManifest.cpp:29-344 | every accepted text is the text of a form |
| ManifestForms.PlainKeyReads | src/PackageManifest.cpp:178-187 | every identifier is read as a key, up to the first character that cannot go on with it |
| ManifestForms.ValueReads | src/PackageManifest.cpp:231-344 | a value is read in any of its forms and stops where the form ends |
| ManifestForms.LastEntryCounts | src/PackageManifest.cpp:270-344 | a key is bound to what its last entry means |
| ManifestForms.CheckedIff | src/PackageManifest.cpp:60-110 | a document is accepted with a manifest exactly when it says what the manifest says: name and version not empty, and the implementation's artifact, layout and required flag or their defaults |
| ManifestRoundTrip.ReprintIsStable | src/PackageManifest.cpp:496-577 | for every accepted text, printing the document and parsing again gives the same result |
| ManifestRoundTrip.DocumentSurvivesIff | src/PackageManifest.cpp:496-577 | a valid document survives printing and parsing exactly when it holds no empty array |
| ManifestRoundTrip.EmptyArrayIsLost | src/PackageManifest.cpp:535-547 | a document with an empty array is accepted before and after printing and parsing, and comes back with an empty table instead |
| ManifestRoundTrip.ValueRoundTrip | src/PackageManifest.cpp:290-344 | a printed value followed by a delimiter is read back and leaves what follows |
| ManifestRoundTrip.FieldsRoundTrip | src/PackageManifest.cpp:232-288 | printed fields are read back in order, inside whatever table they stand in |
| ManifestRoundTrip.ItemsRoundTrip | src/PackageManifest.cpp:232-288 | printed items are read back in order |
| ManifestRoundTrip.StringRoundTrip | src/PackageManifest.cpp:198-230 | every string survives escaping and reading |
| ManifestRoundTrip.KeyRoundTrip | src/PackageManifest.cpp:178-196 | every printed key is read back |
| ManifestRoundTrip.IntRoundTrip | src/PackageManifest.cpp:300-344 | every 64-bit integer is read back from its decimal text |
| ManifestRoundTrip.PositionalStays | src/PackageManifest.cpp:232-288 | once a table has a positional entry it is an array |
| ManifestRoundTrip.DocumentIsTable | src/PackageManifest.cpp:29-110 | the document reader and the table reader agree on keyed tables |
| ManifestRoundTrip.AcceptedIsCanonical | src/PackageManifest.cpp:29-110 | an accepted document has sorted unique keys and no empty array |
| ManifestRoundTrip.NormalizeFixes | src/PackageManifest.cpp:535-547 | printing changes a value's shape exactly when it holds an empty array |
| ManifestParser.StaticManifestParser.SkipTrivia | src/PackageManifest.cpp:146-176 | skips white space and comments and never goes beyond the end, equal to the definition on the rest of the text |
| ManifestParser.StaticManifestParser.ReadString | src/PackageManifest.cpp:198-230 | the quoted string and the position behind it, equal to the definition on the rest of the text |
| ManifestParser.StaticManifestParser.ReadKey | src/PackageManifest.cpp:178-196 | a bracketed or plain key and the position behind it, equal to the definition on the rest of the text |
| ManifestParser.StaticManifestParser.ReadScalar | src/PackageManifest.cpp:300-344 | keywords and 64-bit integers, anything else refused, equal to the definition on the rest of the text |
| ManifestParser.StaticManifestParser.ReadValue | src/PackageManifest.cpp:290-344 | one value of any kind, equal to the definition on the rest of the text |
| ManifestParser.StaticManifestParser.ReadAssignment | src/PackageManifest.cpp:247-263 | a key with its equals sign, or the position unchanged, equal to the definition on the rest of the text |
| ManifestParser.StaticManifestParser.ReadTable | src/PackageManifest.cpp:232-288 | a table, keyed, positional or mixed, equal to the definition on the rest of the text |
| ManifestParser.StaticManifestParser.ReadDocument | src/PackageManifest.cpp:29-110 | the fields of the document, equal to the definition on the rest of the text |
| ManifestParser.StaticManifestParser.Parse | src/PackageManifest.cpp:29-110 | the result of parsing a whole manifest; terminates on every text, equal to the definition on the rest of the text |
| ManifestParser.SerializeValue | src/PackageManifest.cpp:517-564 | appends exactly the printed form of the value |
| ManifestParser.SerializeObject | src/PackageManifest.cpp:520-534 | appends the fields of an object with separators |
| ManifestParser.SerializeArray | src/PackageManifest.cpp:535-547 | appends the items of an array with separators |
| ConfigRoundTrip.TableIsFound | src/PackageConfig.cpp:136-201 | scanning a generated configuration finds its alias table, with the exact braces |
| ConfigRoundTrip.AliasIsFound | src/PackageConfig.cpp:209-286 | scanning a generated configuration finds every alias with its exact path and no other alias |
| ConfigRoundTrip.UpdateIsRegenerate | src/PackageConfig.cpp:404-517 | updating a generated configuration is refused exactly when an alias is unsafe or bound to another path, and is otherwise generating the old aliases followed by the new ones |
| ConfigRoundTrip.ReapplyChangesNothing | src/PackageConfig.cpp:404-517 | applying the same aliases again changes nothing |
| ConfigRoundTrip.DisjointUpdateAppends | src/PackageConfig.cpp:404-517 | updating with other aliases is, byte for byte, generating both lists |
| ConfigRoundTrip.EscapedReads | src/PackageConfig.cpp:105-134 | every escaped string reads back, whatever follows |
| ConfigRoundTrip.FindAliasEntry | src/PackageConfig.cpp:209-286 | the search finds the alias in an entry or goes on behind it |
| ConfigRoundTrip.FindCloseEntry | src/PackageConfig.cpp:168-198 | an entry never closes the table |
| ConfigRoundTrip.InsertAppends | src/PackageConfig.cpp:489-516 | insertion goes behind the last entry, with the indentation and line ends of the table |
| ConfigScanner.SkipWhitespaceAndComments | src/PackageConfig.cpp:54-84 | moves behind white space and comments |
| ConfigScanner.SkipQuotedString | src/PackageConfig.cpp:86-103 | moves behind a quoted string and tells whether it ends |
| ConfigScanner.ReadQuotedString | src/PackageConfig.cpp:105-134 | the value of a quoted string and the position behind it |
| ConfigScanner.FindAliasesTable | src/PackageConfig.cpp:136-201 | finds the table exactly when the definition does, at the same braces |
| ConfigScanner.FindExistingAlias | src/PackageConfig.cpp:209-286 | the first entry for an alias, as defined; the unguarded read of a value is past the end of the text exactly when the scan overruns, which takes a comment inside the table that runs to the end of the text |
| ConfigForms.WrittenIsRead | src/PackageConfig.cpp:136-286 | in a configuration written by hand, with plain or bracketed keys, either quote, escapes, either separator, white space and comments, scanning finds every alias with its path and no other, and stays inside the text |
| ConfigForms.AliasesAreFound | src/PackageConfig.cpp:209-286 | the search in a table of aliases in any form |
| ConfigForms.CloseIsFound | src/PackageConfig.cpp:168-198 | the closing brace is found, whatever stands in strings and comments |
| ConfigForms.WrittenUpdateIsRefusedIff | src/PackageConfig.cpp:404-457 | an update of such a configuration is refused exactly when an alias is unsafe or bound to another path, and changes nothing when all are bound |
| ConfigForms.TidyUpdate | src/PackageConfig.cpp:404-517 | when the last entry ends in a comma and the closing brace stands alone on the next line, the update keeps everything written by hand and puts the new aliases behind the old ones, in a configuration that is again of this kind |
| ConfigReads.GeneratedStaysInRange | src/PackageConfig.cpp:209-286 | in a generated configuration no search for an alias reads past the end of the text |
| ConfigReads.StringTableOverruns | src/PackageConfig.cpp:269-273 | a table that holds one string and nothing else, on which every search for an alias reads past the end of the text |
| ConfigBindings.BindingIsUpdate | src/PackageInstaller.cpp:1080-1115 | binding aliases in a generated configuration is refused exactly when an alias or its path is not permitted or the alias is bound elsewhere; otherwise the text is again generated, stands for the old bindings with the aliases bound to their modules, and changes exactly when one of them is new |
| ConfigBindings.InstallationsAreRead | src/PackageInstaller.cpp:1080-1115 | after any sequence of installations that began without a configuration, scanning its text for any alias finds what the installations have bound, and nothing else |
| ConfigBindings.GeneratedReads | src/PackageConfig.cpp:209-286 | scanning a generated configuration reads exactly the map of its entries |
| ConfigBindings.BindKeeps | src/PackageInstaller.cpp:1080-1115 | one installation keeps text and bindings in agreement, whether it generates, updates or is refused |
| ConfigScanner.UpdateConfigAliases | src/PackageConfig.cpp:404-517 | the update as defined, refusals included |
| ConfigScanner.InsertAdditions | src/PackageConfig.cpp:459-516 | the text with the additions, in the one-line and the multi-line form |
| ConfigScanner.GenerateConfig | src/PackageConfig.cpp:543-575 | the generated text, exactly when all aliases and paths are safe |
| Signal.RunIsSafe | src/Signal.cpp:95-296 | over every run: no continuation is deferred twice, no one-shot callback is spawned twice, whatever runs is a connection made in this run, a live timer has a live connection, and after shutdown nothing is left |
| Signal.ConnectionsAreAccounted | src/Signal.cpp:95-296 | over every run: a connection made by Connect, Once or a Wait whose timeout is not rejected is still registered and not consumed, or was removed by its id, DisconnectAll or Shutdown, or is one-shot and has run exactly once |
| Signal.ResumedIffDeferred | src/Signal.cpp:190-292 | over every run a waiter is resumed exactly when its continuation was deferred |
| Signal.TimeoutResumes | src/Signal.cpp:285-292 | a live timer that elapses defers the continuation of its waiter next, and nothing else runs |
| Signal.MadeAsRequested | src/Signal.cpp:95-296 | a new connection is of the kind asked for, and has a timer exactly when a timeout was given |
| Signal.RejectedWaitLeavesNothing | src/Signal.cpp:237-296 | a rejected timeout uses up an id and leaves nothing registered |
| Signal.ShutdownIsFinal | src/Signal.cpp:383-396 | after Shutdown nothing is connected and nothing runs, whatever is done |
| Signal.IdsAreNeverReused | src/Signal.cpp:95-116 | at any point of a run the connections made so far keep id, kind and once flag for good, and everything made later has a new id |
| Signal.GoneNeverRuns | src/Signal.cpp:118-220 | what has left the map or was disconnected is never run by anything that starts later, however deeply it re-enters |
| Signal.ExecKeeps | src/Signal.cpp:95-296 | every operation keeps the invariant and only moves forward |
| Signal.ExecSnapshotKeeps | src/Signal.cpp:190-219 | the loop of Fire keeps the invariant whatever its callbacks do |
| Signal.SnapshotIsExact | src/Signal.cpp:181-189 | the snapshot holds exactly the live connections, by ascending id |
| Signal.FireOutcome | src/Signal.cpp:171-220 | whatever the callbacks do: each connection of the snapshot runs exactly when no earlier callback of the fire has severed it, by its id, by its timeout or as a one-shot connection of a nested fire; its event is then the next one, and otherwise nothing happens |
| Signal.SeversIff | src/Signal.cpp:118-220 | a connected connection is still connected after an action, however deeply it re-enters, exactly when the action did not sever it |
| Signal.SnapshotSplits | src/Signal.cpp:190-219 | a fire can be cut at any connection of its snapshot: the rest runs from the state and with the callbacks left there |
| Signal.QuietFire | src/Signal.cpp:171-220 | when callbacks do nothing, a fire runs each live connection once, in order, and removes exactly the one-shot ones |
| Signal.DisconnectDiffersFromDisconnectAll | src/Signal.cpp:118-159 | two runs: when the first callback of a fire calls DisconnectAll the second connection still runs, when it calls Disconnect it does not |
| Signal.MetAfterRemoval | src/Signal.cpp:118-220 | a connection met in a running fire is skipped after Disconnect and still runs after DisconnectAll or Shutdown |
| Signal.SignalObject.Connect | src/Signal.cpp:95-116 | registers a connection under a new id, unless destroyed |
| Signal.SignalObject.Wait | src/Signal.cpp:237-296 | registers a waiter and its timer; a rejected timeout leaves nothing registered |
| Signal.SignalObject.Disconnect | src/Signal.cpp:118-134 | marks the connection dead, removes it and clears its timer |
| Signal.SignalObject.DisconnectAll | src/Signal.cpp:147-159 | empties the map and clears the timers, leaving the connections alive |
| Signal.SignalObject.Fire | src/Signal.cpp:171-220 | the snapshot is met connection by connection, each callback running to completion |
| Signal.SignalObject.TimerElapsed | src/Signal.cpp:285-292 | the timeout resumes the waiter unless it was resumed |
| Signal.SignalObject.Shutdown | src/Signal.cpp:383-396 | empties the map, clears the timers and marks the signal destroyed |
| TaskTimers.RunIsSafe | src/Task.cpp:95-221 | over every run: outside callbacks the table holds exactly the armed timers, which are exactly those with an open handle; no handle is closed twice, nothing starts after closing, one-shot timers start at most once |
| TaskTimers.RetiresIff | src/Task.cpp:95-331 | a timer leaves the table exactly when it is cleared by its id, its thread is cancelled, or it fires as a one-shot timer, at whatever depth of callbacks |
| TaskTimers.RecurringStaysArmed | src/Task.cpp:111-180 | over every run a recurring timer stays armed exactly unless it is cleared or its thread cancelled |
| TaskTimers.FireStarts | src/Task.cpp:111-180 | firing an armed timer starts its callback next |
| TaskTimers.ScheduleRegisters | src/Task.cpp:185-221 | a new timer has a new id and is in the table, armed, exactly when it could be started; otherwise its handle is closed |
| TaskTimers.GoneNeverStarts | src/Task.cpp:319-331 | a timer that has left the table never starts a callback again |
| TaskTimers.ExecKeeps | src/Task.cpp:95-221 | every action keeps the invariant, inside any callbacks |
| TaskTimers.FireKeeps | src/Task.cpp:111-180 | a firing keeps the invariant whatever its callback does, including clearing its own timer or running the loop |
| TaskTimers.CancelIsExact | src/Task.cpp:432-447 | cancelling a thread removes and closes exactly the timers that hold it as their coroutine |
| TaskTimers.CancelStopsThreadIff | src/Task.cpp:432-447 | cancelling leaves no timer that would resume the thread exactly when the thread is not scheduled as a plain callback |
| TaskTimers.CancelMissesCallback | src/Task.cpp:302-317 | a thread given to setTimeout as its callback is not found by cancel |
| TaskTimers.ShutdownClosesAll | src/Task.cpp:235-266 | whatever the hooks and the last run of the loop do: every timer set up before is out of the table, closed exactly once and freed, and none starts again; without new timers the table is empty and every timer ever set up is freed |
| TaskTimers.FreedReadIff | src/Task.cpp:95-180 | over every run: no timer is read after its close callback has deleted it exactly when no close callback runs for a timer whose own callback is still running |
| TaskTimers.LoopFreeCallbacksAreSafe | src/Task.cpp:95-180 | as long as callbacks do not run the loop themselves, no deleted timer is read |
| TaskTimers.ClearedAndReaped | src/Task.cpp:173-173 | a callback that clears its own timer and then runs the loop leads to such a read |
| TaskTimers.TaskContext.SafeDestroyTimer | src/Task.cpp:95-107 | closes a handle unless it is closing already |
| TaskTimers.TaskContext.Schedule | src/Task.cpp:185-221 | registers and arms a timer, or takes it back when it cannot start |
| TaskTimers.TaskContext.ClearTimeout | src/Task.cpp:319-331 | stops, removes and closes a timer of the table |
| TaskTimers.TaskContext.RunCloseCallback | src/Task.cpp:101-105 | deletes the timer of a closed handle |
| TaskTimers.TaskContext.Cancel | src/Task.cpp:432-447 | clears the timers collected for the thread |
| TaskTimers.TaskContext.OnTimerFired | src/Task.cpp:111-180 | runs the callback and then retires a one-shot timer |
| TaskTimers.TaskContext.Shutdown | src/Task.cpp:235-266 | stops and closes every timer of the table, runs the hooks, and then the loop once with all pending close callbacks |
| EventLoop.WorkIsConserved | src/EventLoop.cpp:93-106 | in every interleaving each accepted item is executed, in flight, queued or discarded, once and in one of these ways only |
| EventLoop.NothingAfterClosing | src/EventLoop.cpp:205-228 | once closing is published nothing is accepted, queued or discarded any more |
| EventLoop.HooksRunOnce | src/EventLoop.cpp:193-243 | no hook runs twice, and when the loop is closed every hook ever added has run |
| EventLoop.HandedOver | src/EventLoop.cpp:193-228 | while the loop runs every post is accepted and every hook kept; afterwards no post is, and a hook runs at once |
| EventLoop.DrainRunsAll | src/EventLoop.cpp:93-106 | a drain that nothing interrupts executes exactly what was queued, in order |
| EventLoop.CloseRunsAll | src/EventLoop.cpp:205-243 | closing runs every hook once, in the order in which they were added, and discards exactly the queued work |
| EventLoop.FifoIff | src/EventLoop.cpp:93-106 | over every run: work is executed in the order of acceptance exactly when none is started while an outer drain has older work left |
| EventLoop.NestedOvertakes | src/EventLoop.cpp:93-106 | a nested drain executes the third item before the second |
| EventLoop.StepKeeps | src/EventLoop.cpp:93-243 | every atomic step keeps the conservation of work and hooks |
| EventLoop.Loop.Post | src/EventLoop.cpp:205-212 | queues work while running; the result also depends on waking the loop |
| EventLoop.Loop.StartDrain | src/EventLoop.cpp:97-99 | takes the whole queue |
| EventLoop.Loop.RunWork | src/EventLoop.cpp:100-105 | starts the next item of the innermost drain |
| EventLoop.Loop.AddCloseHook | src/EventLoop.cpp:193-203 | keeps the hook, or runs it at once when closing |
| EventLoop.Loop.PublishClosing | src/EventLoop.cpp:214-229 | publishes closing, discards the queue and takes the hooks |
| EventLoop.Loop.Close | src/EventLoop.cpp:214-243 | runs every hook once, in order, and closes |
| Json.HandlerBuildsTree | src/Json.cpp:49-174 | feeding the events of any tree fails exactly when nesting or the count of containers, scalars and keys exceeds the limits; otherwise the result is the tree's value and all stacks are empty |
| Json.FeedTree | src/Json.cpp:49-174 | the same from inside any containers and with any events following |
| Json.FeedItems | src/Json.cpp:96-141 | array items, with the index stack |
| Json.FeedMembers | src/Json.cpp:143-169 | object members, with the pending key restored after nested containers |
| JsonHandler.ValueHandler.CountNode | src/Json.cpp:67-76 | counts and fails above the limit |
| JsonHandler.ValueHandler.Attach | src/Json.cpp:78-94 | adds to the innermost container or sets the root |
| JsonHandler.ValueHandler.StartContainer | src/Json.cpp:96-114 | opens a container within the depth limit |
| JsonHandler.ValueHandler.EndContainer | src/Json.cpp:116-141 | closes a container and attaches it under the key it was opened with |
| JsonHandler.ValueHandler.Scalar | src/Json.cpp:143-151 | a scalar |
| JsonHandler.ValueHandler.Key | src/Json.cpp:161-169 | a key |
| JsonHandler.ValueHandler.Read | src/Json.cpp:290-302 | a whole document: succeeds exactly within the limits and then has the document's value |
| JsonWriter.WrittenReadsBack | src/Json.cpp:180-286 | what the writer accepts the reader accepts under the same depth and twice the node limit, and it comes back unchanged exactly when it is a list or a record all the way down |
| JsonWriter.PureWrites | src/Json.cpp:230-281 | a pure value is written as a tree that builds the same value, whatever order keys are enumerated in |
| JsonWriter.SameIsPure | src/Json.cpp:230-281 | a value whose tree builds the same value is a list or a record all the way down |
| JsonWriter.MixedIsChanged | src/Json.cpp:252-278 | a table with one item and one named field is written and comes back changed, whatever order keys are enumerated in |
| JsonWriter.MixedReadsBack | src/Json.cpp:252-278 | a table with string keys comes back with string keys only: its fields, and its list items under their decimal numbers |
| JsonWriter.TreeIff | src/Json.cpp:230-281 | a value can be written exactly when nothing in it is opaque and no list part has holes |
| JsonWriter.PureIsWritten | src/Json.cpp:180-286 | a pure value is refused only for its size |
| JsonWriter.ReaderMeasures | src/Json.cpp:180-192 | the reader's depth and node counts are bounded by the writer's |
| JsonWriter.Writer.WriteValue | src/Json.cpp:180-286 | succeeds exactly when the value has a tree and there is room for it; then the events are those of the tree |
| JsonWriter.Writer.WriteItems | src/Json.cpp:236-251 | the items of a list without holes |
| JsonWriter.Writer.WriteNumbered | src/Json.cpp:254-267 | the list part of a mixed table under decimal keys |
| JsonWriter.Writer.WriteNamed | src/Json.cpp:268-276 | the string keys in enumeration order |
| Sha256.Hasher.Update | src/Sha256.cpp:61-77 | the hasher stands for the message so far followed by the input, however it is cut |
| Sha256.Hasher.Finalize | src/Sha256.cpp:79-103 | for messages under 2^61 bytes the digest is that of FIPS 180-4 |
| Sha256.HashChunks | src/Sha256.cpp:117-122 | for every chunking the digest is that of the concatenation |
| Sha256.HashFile | src/Sha256.cpp:142-156 | the 64 KiB file loop computes the one-shot digest |
| Sha256.Transform | src/Sha256.cpp:17-56 | one block is compressed as in section 6.2.2 of FIPS 180-4 |
| Sha256.PrepareSchedule | src/Sha256.cpp:30-39 | the message schedule |
| Sha256.HashOneMore | src/Sha256.cpp:61-77 | hashing one more block is compressing it into the hash so far |
| Sha256.PaddedBlocks | src/Sha256.cpp:79-92 | one or two padding blocks, depending on where the tail ends, are the padding of section 5.1.1 of FIPS 180-4 |
| Der.LengthReads | modules/crypto/src/CryptoAsymmetric.cpp:53-60 | every length under 2^64 reads back |
| Der.ReadLengthIsEncoded | modules/crypto/src/CryptoAsymmetric.cpp:122-130 | an accepted length is the minimal encoding of its value |
| Der.TlvReads | modules/crypto/src/CryptoAsymmetric.cpp:62-66 | a written element followed by anything reads back and leaves what follows |
| Der.TlvForms | modules/crypto/src/CryptoAsymmetric.cpp:53-66 | the octets of an element of up to 65535 content octets: tag, length in one octet or after its count, content |
| Der.ReadIsTlv | modules/crypto/src/CryptoAsymmetric.cpp:97-103 | whatever is accepted is exactly the written element: one encoding per content |
| Der.IntegerReads | modules/crypto/src/CryptoAsymmetric.cpp:72-78 | a written integer reads back with only its leading zeros stripped |
| Der.IntegerContentMeans | modules/crypto/src/CryptoAsymmetric.cpp:72-78 | the content octets are the number itself, in minimal non-negative form |
| Der.ReadIntegerIsWritten | modules/crypto/src/CryptoAsymmetric.cpp:108-115 | every accepted integer is the written form of the value returned |
| Der.BitStringReads | modules/crypto/src/CryptoAsymmetric.cpp:85-88 | a written bit string reads back |
| DerStreams.AppendLength | modules/crypto/src/CryptoAsymmetric.cpp:53-60 | the digit loops append the encoded length |
| DerStreams.WriteTlv | modules/crypto/src/CryptoAsymmetric.cpp:62-66 | tag, length and content |
| DerStreams.WriteInteger | modules/crypto/src/CryptoAsymmetric.cpp:72-78 | the stripped, sign-extended integer |
| DerStreams.DerReader.ReadLength | modules/crypto/src/CryptoAsymmetric.cpp:122-130 | the length as defined, and the position where it stops; the overflow test is never taken |
| DerStreams.DerReader.Read | modules/crypto/src/CryptoAsymmetric.cpp:97-103 | the element as defined, and the position where it stops |
| DerStreams.DerReader.ReadInteger | modules/crypto/src/CryptoAsymmetric.cpp:108-115 | the integer as defined |
| CryptoKeys.RsaPrivateRoundTrip | modules/crypto/src/CryptoAsymmetric.cpp:154-209 | a written RSA private key parses to its components with leading zeros stripped |
| CryptoKeys.RsaPublicRoundTrip | modules/crypto/src/CryptoAsymmetric.cpp:168-215 | a written RSA public key parses to modulus and exponent with leading zeros stripped |
| CryptoKeys.EccPrivateRoundTrip | modules/crypto/src/CryptoAsymmetric.cpp:188-232 | a written P-256 private key with 32-byte fields parses unchanged |
| CryptoKeys.EccPublicRoundTrip | modules/crypto/src/CryptoAsymmetric.cpp:181-238 | a written P-256 public key with 32-byte fields parses unchanged |
| CryptoKeys.RsaPrivateLayout | modules/crypto/src/CryptoAsymmetric.cpp:154-209 | a written RSA private key holds version, modulus, both exponents, both primes, their exponents and the coefficient, each in its place of Appendix A.1.2 of RFC 8017 |
| CryptoKeys.RsaPublicLayout | modules/crypto/src/CryptoAsymmetric.cpp:168-215 | a written RSA public key holds the modulus and then the exponent |
| CryptoKeys.EccPrivateLayout | modules/crypto/src/CryptoAsymmetric.cpp:188-232 | the octets of the ECPrivateKey in a written P-256 private key (section 3 of RFC 5915) |
| CryptoKeys.EccPublicLayout | modules/crypto/src/CryptoAsymmetric.cpp:181-238 | the octets of a written P-256 public key (section 2 of RFC 5480) |
| CryptoKeysExact.RsaPrivateIsWritten | modules/crypto/src/CryptoAsymmetric.cpp:154-209 | an accepted RSA private key is exactly the written form of the components returned |
| CryptoKeysExact.RsaPublicIsWritten | modules/crypto/src/CryptoAsymmetric.cpp:168-215 | an accepted RSA public key is exactly the written form of modulus and exponent |
| CryptoKeysExact.EccPublicIsWritten | modules/crypto/src/CryptoAsymmetric.cpp:181-238 | an accepted P-256 public key is exactly the written form of its point |
| CryptoKeysExact.EccPrivateIsWrittenIff | modules/crypto/src/CryptoAsymmetric.cpp:188-232 | an accepted P-256 private key is written back byte for byte exactly when nothing follows the key octets and its optional elements are the curve and then the point |
| CryptoKeysExact.CurveMayBeOmitted | modules/crypto/src/CryptoAsymmetric.cpp:188-202 | every P-256 private key is also accepted without its curve, a form the writer never produces |
| CryptoKeysExact.IntegersAreWritten | modules/crypto/src/CryptoAsymmetric.cpp:154-172 | a run of accepted integers is exactly the written form of the values returned |
| Ecdsa.SignatureRoundTrip | modules/crypto/src/CryptoAsymmetric.cpp:364-445 | a raw pair of up to 60 bytes a side survives raw to DER to raw exactly when both halves are non-zero and is rejected otherwise |
| Ecdsa.P256RoundTrip | modules/crypto/src/CryptoAsymmetric.cpp:364-445 | the same for the 64-byte pair of P-256 |
| Ecdsa.WrittenIsSigValue | modules/crypto/src/CryptoAsymmetric.cpp:378-396 | the written form is the SEQUENCE of two INTEGERs of section 2.2.3 of RFC 3279 |
| Ecdsa.AcceptedMeans | modules/crypto/src/CryptoAsymmetric.cpp:401-445 | the two contents of an accepted signature, and that the pair returned has their numeric values in fixed width |
| Ecdsa.AcceptedIff | modules/crypto/src/CryptoAsymmetric.cpp:401-445 | a signature is accepted exactly when its body is two framed contents that are not negative, not the single zero byte and not too long |
| Ecdsa.ZeroHalfIff | modules/crypto/src/CryptoAsymmetric.cpp:424-441 | a half comes out as zero exactly when its content is two or more zero bytes |
| Ecdsa.ReencodesIffCanonical | modules/crypto/src/CryptoAsymmetric.cpp:378-445 | an accepted signature is written back byte for byte exactly when it was encoded canonically |
| Ecdsa.PaddedZeroIsAccepted | modules/crypto/src/CryptoAsymmetric.cpp:418-441 | for P-256, zero is rejected in canonical form and accepted with one more zero byte |
| Ecdsa.IntegerFromRaw | modules/crypto/src/CryptoAsymmetric.cpp:364-374 | the minimal content bytes of a raw integer |
| Ecdsa.ConvertRawToDer | modules/crypto/src/CryptoAsymmetric.cpp:378-396 | the conversion as defined, lengths cut to one byte |
| Ecdsa.ConvertDerToRaw | modules/crypto/src/CryptoAsymmetric.cpp:401-445 | the conversion as defined, into the caller's buffer |
| Base64.Base64RoundTrip | modules/crypto/src/CryptoCommon.cpp:71-89 | what is encoded decodes to itself |
| Base64.Base64IsCanonical | modules/crypto/src/CryptoCommon.cpp:91-130 | what decodes is the encoding of its value, so non-canonical padding never decodes |
| Base64.Base64DecodesIff | modules/crypto/src/CryptoCommon.cpp:91-130 | a text decodes to given bytes exactly when it is their encoding and they are within the limit of the decoder |
| Base64.GroupEncodes | modules/crypto/src/CryptoCommon.cpp:110-128 | only canonical groups decode |
| Base64.GroupDecodes | modules/crypto/src/CryptoCommon.cpp:77-87 | every group of one to three bytes decodes |
| Base64.GroupIsBigEndian | modules/crypto/src/CryptoCommon.cpp:77-87 | the first octet fills the high bits of a group, and missing octets are padded |
| Base64.EncodeBase64 | modules/crypto/src/CryptoCommon.cpp:71-89 | the encoding loop with its limit |
| Base64.DecodeBase64 | modules/crypto/src/CryptoCommon.cpp:91-130 | the decoding loop with its limit |
| Base64.HexDecodes | modules/crypto/src/CryptoCommon.cpp:35-69 | hexadecimal text decodes to the bytes it was made from |
| Base64.HexEncodes | modules/crypto/src/CryptoCommon.cpp:49-69 | accepted hexadecimal text is the encoding of its value up to upper case |
| Base64.HexEncode | modules/crypto/src/CryptoCommon.cpp:35-47 | the encoding loop with its limit |
| Base64.HexDecode | modules/crypto/src/CryptoCommon.cpp:49-69 | the decoding loop with its limit |
| Pem.PemRoundTrip | modules/crypto/src/CryptoCommon.cpp:132-158 | whatever is encoded decodes under the same label to the original bytes |
| Pem.PemDecodesIff | modules/crypto/src/CryptoCommon.cpp:144-158 | a text decodes to given bytes exactly when it is the header line, a body whose characters other than white space are the Base64 encoding of the bytes and in which no footer begins, and the footer line, within the limits; each line break may be a carriage return and a line feed |
| Pem.LinesAreFull | modules/crypto/src/CryptoCommon.cpp:132-142 | every line of the body has 64 symbols, and only the last one may be shorter |
| Pem.FindIsFirst | modules/crypto/src/CryptoCommon.cpp:152-152 | the footer found is the first one |
| Pem.EncodePem | modules/crypto/src/CryptoCommon.cpp:132-142 | the encoder with its limits and label test |
| Pem.DecodePem | modules/crypto/src/CryptoCommon.cpp:144-158 | the decoder with all its refusals |
| KeyDerivation.DeriveHkdf | modules/crypto/src/CryptoCng.cpp:138-169 | the first octets of T(1), T(2), ... concatenated, for every permitted length; the one-byte counter never wraps before it is used |
| KeyDerivation.HkdfIsPrefix | modules/crypto/src/CryptoCng.cpp:138-169 | a shorter output is the beginning of a longer one, and has the length asked for |
| KeyDerivation.HkdfBlocks | modules/crypto/src/CryptoCng.cpp:138-169 | each block of an output is the HMAC, under the extracted key, of the block before it, the info and its number (section 2.3 of RFC 5869) |
| KeyDerivation.DerivePbkdf2 | modules/crypto/src/CryptoCng.cpp:171-205 | the first octets of F(1), F(2), ... concatenated, for every permitted length and iteration count |
| KeyDerivation.FoldBlock | modules/crypto/src/CryptoCng.cpp:181-198 | one block is the exclusive-or of all its iterates |
| KeyDerivation.Pbkdf2Blocks | modules/crypto/src/CryptoCng.cpp:171-205 | each octet of a block is the exclusive-or of that octet of all iterates, the first made of the salt and the block number in four octets (section 5.2 of RFC 8018) |
| KeyDerivation.BlockNumbersDiffer | modules/crypto/src/CryptoCng.cpp:181-188 | no two blocks of a permitted output have the same four-byte number |

## Left out

- Luau VM bindings, libuv, rapidjson, miniz, WinHTTP, BCrypt and OpenSSL: foreign code; timers are an enabled set, HMAC is a function of fixed output length, JSON text is its event sequence.
- The cycle error of `ResolveDependencyGraph`: the guards before it keep it unreachable when paths are canonical.
- Manifest fields of the wrong JSON type: the exceptions they raise in the resolver are not modelled.
- `MergeResolvedPackageGraph` (src/PackageInstaller.cpp:660-736): a second splice whose root skips the renumbering.
- The JSON text of lode.lock, members of it of a wrong type, and the checks of downloaded artifacts: `LockedEdges` reads documents, and the Git pass takes the validated checkouts as given.
- Cleanup deletes that fail, interference from other processes, symbolic-link resolution and containment checks of paths: the installation assumes deletes succeed, temporary names are fresh, and paths are inside their directories.
- Temporary directories of the cache: only those in lode_modules are entries of the model.
- InstallTransaction.Disk.BindAliases: bindings are a map; `ConfigBindings` proves that generated configurations follow it, hand-written ones are not covered.
- std::sort: modelled as an insertion sort; the lockfile results hold for any sorted permutation.
- The JSON text of the lockfile and of cache identities: documents are compared field by field.
- Iteration order of the unordered map of timers: modelled as ascending ids (the connections of a signal are an ordered map).
- Failure of `SetTimeout` inside `Signal::Wait`, failure of `uv_timer_init`, `Task::Shutdown` from inside a timer callback, closing the loop from a close hook: not steps of the machines.
- Wrap-around of timer ids, connection ids and JSON counters: they are unbounded.
- What happens after a deleted timer has been read: undefined in the program; the model goes on as if it were still there.
- EventLoop.Loop.AddCloseHook: one atomic step; the source tests and pushes without the mutex, which is sound only on the loop thread, where it is called.
- EventLoop.Loop.Close: the method runs its sections without interference; interleavings with producers and drains are covered by the machine.
- InstallTransaction.Disk.PopulatePackageCache: a rename that fails because another process has put an equal tree there counts as a failure, since other processes are not modelled.
- InstallTransaction.Disk.MaterializePackage: the same, for a rename onto an equal directory that another process has put there.
- Signal.QuietFire: states the outcome of a whole fire at once only when its callbacks do nothing; `FireOutcome` states it for all callbacks, connection by connection.
- ConfigScanner.FindExistingAlias: where the program reads past the end of the text, which is undefined, the model takes the value for one that is not a string.
- Timers that callbacks of the last loop run set up in a new task context, and hooks registered by hooks: not part of the shutdown.
- JSON number formatting, keys with NUL characters, cyclic Lua tables: scalars are opaque and values are finite trees.
- Updating a hand-written table that is not tidy (no comma behind its last entry, or its closing brace not on a line of its own), or text with carriage returns: which updates are refused is exact, the text inserted is only as the update function computes it.
- Alias tables with values other than strings, and configurations that are not `return { luau = { aliases = {`: only as the scanner computes them.
- Path safety of config aliases, version matching, project-relative paths: parameters.
- ToHex of SHA-256, `MaterializePackage` logging, error message texts: only whether and which error.
- HTTP, Git processes, dynamic libraries, ABI checks, crash handling, CLI, scaffolding: input and output, or text constants.
