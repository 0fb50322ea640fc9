/**
 * The value types of the multitenant index service: build-target ids, the sorted int arrays
 * that hold sets of them, rules paired with their deps, and the changes to a set of packages.
 */
module MultitenantTypes {

  /** A build target interned as a Kotlin `Int`. */
  type BuildTargetId = int

  /** A set of build targets stored as an `IntArray`; see `IsBuildTargetSet`. */
  type BuildTargetSet = seq<BuildTargetId>

  /** A repository path, independent of the file system (`FsAgnosticPath`). */
  type FsAgnosticPath = string

  /** A build target before configuration (`UnconfiguredBuildTarget`), by its name. */
  type UnconfiguredBuildTarget = string

  /**
   * The invariant every `BuildTargetSet` must keep: its values are in strictly ascending order,
   * so that two arrays holding the same set of targets are equal element by element.
   */
  predicate IsBuildTargetSet(s: BuildTargetSet) {
    forall i, j | 0 <= i < j < |s| :: s[i] < s[j]
  }

  /** A target node paired with the deps it has under the empty configuration. */
  datatype RawBuildRule<N(==)> = RawBuildRule(targetNode: N, deps: set<UnconfiguredBuildTarget>)

  datatype BuildPackageParsingError = BuildPackageParsingError(message: string, stacktrace: seq<string>)

  /** The interned form of a rule. `deps` must be a `BuildTargetSet`. */
  datatype InternalRawBuildRule<N(==)> = InternalRawBuildRule(targetNode: N, deps: BuildTargetSet)

  /** `IntArray.contentEquals`: same length and equal at every index. */
  predicate ContentEquals(set1: BuildTargetSet, set2: BuildTargetSet) {
    |set1| == |set2| && forall i | 0 <= i < |set1| :: set1[i] == set2[i]
  }

  /** `InternalRawBuildRule.equals`: equal target nodes and deps arrays with equal contents. */
  predicate RuleEquals<N(==)>(a: InternalRawBuildRule<N>, b: InternalRawBuildRule<N>) {
    a.targetNode == b.targetNode && ContentEquals(a.deps, b.deps)
  }

  /** Java's `int` arithmetic: the value of `x` reduced into [-2^31, 2^31). */
  function Int32(x: int): (r: int)
    ensures -0x8000_0000 <= r < 0x8000_0000
    ensures (x - r) % 0x1_0000_0000 == 0
    ensures -0x8000_0000 <= x < 0x8000_0000 ==> r == x
  {
    var m := x % 0x1_0000_0000;
    if m >= 0x8000_0000 then m - 0x1_0000_0000 else m
  }

  /** `IntArray.contentHashCode`: `h := 31 * h + e` from `h = 1`, in 32-bit arithmetic. */
  function ContentHashCode(s: BuildTargetSet): (h: int)
    ensures -0x8000_0000 <= h < 0x8000_0000
  {
    if s == [] then 1 else Int32(31 * ContentHashCode(s[..|s| - 1]) + s[|s| - 1])
  }

  /**
   * `InternalRawBuildRule.hashCode`: `31 * Objects.hash(targetNode) + contentHashCode(deps)`,
   * where `Objects.hash(x)` is `31 + x.hashCode()`. The node's own hash is a parameter since
   * `ServiceRawTargetNode` is not part of this model.
   */
  function RuleHashCode<N(==)>(r: InternalRawBuildRule<N>, nodeHash: N -> int): (h: int)
    ensures -0x8000_0000 <= h < 0x8000_0000
  {
    Int32(31 * Int32(31 + nodeHash(r.targetNode)) + ContentHashCode(r.deps))
  }

  /** The custom `equals` agrees with value equality of the rule: both directions. */
  lemma RuleEqualsIsValueEquality<N>(a: InternalRawBuildRule<N>, b: InternalRawBuildRule<N>)
    ensures RuleEquals(a, b) <==> a == b
  {
    if RuleEquals(a, b) {
      assert a.deps == b.deps;
    }
  }

  /** Equal rules have equal hash codes, whatever hash the target nodes have. */
  lemma EqualRulesHashEqually<N>(a: InternalRawBuildRule<N>, b: InternalRawBuildRule<N>, nodeHash: N -> int)
    requires RuleEquals(a, b)
    ensures RuleHashCode(a, nodeHash) == RuleHashCode(b, nodeHash)
  {
    RuleEqualsIsValueEquality(a, b);
  }

  datatype BuildPackage<N(==)> = BuildPackage(
    buildFileDirectory: FsAgnosticPath,
    rules: set<RawBuildRule<N>>,
    errors: seq<BuildPackageParsingError>)

  /** The packages added, modified and removed by one commit. */
  datatype BuildPackageChanges<N(==)> = BuildPackageChanges(
    addedBuildPackages: seq<BuildPackage<N>>,
    modifiedBuildPackages: seq<BuildPackage<N>>,
    removedBuildPackages: seq<FsAgnosticPath>)
  {
    /** True iff the commit changes no package at all. */
    predicate IsEmpty()
      ensures IsEmpty() <==> |addedBuildPackages| + |modifiedBuildPackages| + |removedBuildPackages| == 0
    {
      addedBuildPackages == [] && modifiedBuildPackages == [] && removedBuildPackages == []
    }
  }

  /** `BuildPackageChanges()` with every list left at its default, `emptyList()`. */
  function DefaultBuildPackageChanges<N(==)>(): (c: BuildPackageChanges<N>)
    ensures c.IsEmpty()
  {
    BuildPackageChanges([], [], [])
  }
}
