/** The dependency graph shared by the validator, the installer, the cache and the lockfile. */
module PackageGraph {
  import opened Wrappers

  /** Canonical package directories: only their identity matters. */
  type CanonicalPath = string

  datatype DependencySource = Root | StandardLibrary | Path | Git

  datatype DependencyScope = Runtime | Development

  datatype DependencyEdge = DependencyEdge(
    alias: string,
    source: DependencySource,
    requestedVersion: string,
    sourceReference: string,
    target: Option<nat>,
    scope: DependencyScope)

  datatype PackageArtifact = PackageArtifact(
    platform: string,
    architecture: string,
    configuration: string,
    abi: string,
    release: string,
    asset: string,
    sha256: string)

  datatype PackageNode = PackageNode(
    name: string,
    version: string,
    root: CanonicalPath,
    source: DependencySource,
    sourceReference: string,
    resolvedCommit: string,
    artifacts: seq<PackageArtifact>,
    dependencies: seq<DependencyEdge>)

  datatype DependencyGraph = DependencyGraph(root: nat, packages: seq<PackageNode>)
}
