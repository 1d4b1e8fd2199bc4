/** Where host paths land in the container: the path arithmetic of langgraph_cli/uv_lock.py. */
module UvPaths {
  import opened Prelude

  /** A path by its parts; `a <= b` says that `a` is `b` or one of its parents. */
  type Path = seq<string>

  const WORKSPACE_ROOT: Path := ["/", "deps", "workspace"]

  /** `installed` are the roots of the install order, the keys of `container_roots`; `members` all package roots. */
  datatype Plan = Plan(projectRoot: Path, installed: seq<Path>, members: set<Path>)

  /** What planning establishes: it refuses an installed package outside the project root. */
  ghost predicate Planned(plan: Plan) {
    forall r | r in plan.installed :: r in plan.members && plan.projectRoot <= r
  }

  /** `_container_root_for_uv_lock_package` */
  function ContainerRoot(projectRoot: Path, packageRoot: Path): Path
    requires projectRoot <= packageRoot
  {
    WORKSPACE_ROOT + packageRoot[|projectRoot|..]
  }

  /** `_path_in_unrelated_member`: some member around `host`, not above `matched`, is not installed. */
  predicate InUnrelatedMember(host: Path, matched: Path, plan: Plan) {
    exists ws | ws in plan.members :: ws != matched && !(ws < matched) && ws <= host && ws !in plan.installed
  }

  // ---------------------------------------------------------------------
  // Longest prefix first
  // ---------------------------------------------------------------------

  ghost predicate DeepestFirst(roots: seq<Path>) {
    forall i, j | 0 <= i < j < |roots| :: |roots[j]| <= |roots[i]|
  }

  function InsertByDepth(roots: seq<Path>, r: Path): (s: seq<Path>)
    requires DeepestFirst(roots)
    ensures DeepestFirst(s) && |s| == |roots| + 1
    ensures forall x :: x in s <==> x == r || x in roots
  {
    if roots == [] || |roots[|roots| - 1]| >= |r| then roots + [r]
    else
      var front, last := roots[..|roots| - 1], roots[|roots| - 1];
      var s := InsertByDepth(front, r);
      assert roots == front + [last];
      assert forall i | 0 <= i < |s| :: s[i] in s;
      assert forall x | x in front :: |last| <= |x|;
      s + [last]
  }

  /** `sorted(roots, key=depth, reverse=True)` */
  function SortByDepth(roots: seq<Path>): (s: seq<Path>)
    ensures DeepestFirst(s) && |s| == |roots|
    ensures forall x :: x in s <==> x in roots
  {
    if roots == [] then [] else
      assert roots == roots[..|roots| - 1] + [roots[|roots| - 1]];
      InsertByDepth(SortByDepth(roots[..|roots| - 1]), roots[|roots| - 1])
  }

  // ---------------------------------------------------------------------
  // The lookup
  // ---------------------------------------------------------------------

  /** The deepest workspace member that holds a path. */
  ghost predicate Innermost(m: Path, host: Path, plan: Plan) {
    m in plan.members && m <= host && forall n | n in plan.members && n <= host :: |n| <= |m|
  }

  /** A path maps iff its innermost member is installed, and then by its position below the project root. */
  ghost function Resolved(host: Path, plan: Plan): Option<Path> {
    if exists m :: Innermost(m, host, plan) && m in plan.installed && plan.projectRoot <= m
    then Some(WORKSPACE_ROOT + host[|plan.projectRoot|..])
    else None
  }

  /** Two prefixes of one path of the same depth are the same. */
  lemma SameDepthSamePrefix(a: Path, b: Path, host: Path)
    requires a <= host && b <= host && |a| <= |b|
    ensures a <= b
  {
    assert a == host[..|a|] && b == host[..|b|];
  }

  /** If a deeper member holds `host`, and deeper installed ones were turned down, so is this root. */
  lemma DeeperMemberUnrelated(host: Path, root: Path, n: Path, plan: Plan)
    requires root in plan.installed && root <= host
    requires n in plan.members && n <= host && |root| < |n|
    requires n in plan.installed ==> InUnrelatedMember(host, n, plan)
    ensures InUnrelatedMember(host, root, plan)
  {
    if n in plan.installed {
      var w :| w in plan.members && w != n && !(w < n) && w <= host && w !in plan.installed;
      if |w| <= |n| {
        SameDepthSamePrefix(w, n, host);
      }
      assert w != root && !(w < root);
    } else {
      assert n != root && !(n < root);
    }
  }

  /** The guard on a matching root, met in depth order, passes exactly when that root is the innermost member. */
  lemma GuardIsInnermost(host: Path, root: Path, plan: Plan)
    requires Planned(plan) && root in plan.installed && root <= host
    requires forall r | r in plan.installed && r <= host && |root| < |r| :: InUnrelatedMember(host, r, plan)
    ensures InUnrelatedMember(host, root, plan) <==> !Innermost(root, host, plan)
  {
    if n :| n in plan.members && n <= host && |root| < |n| {
      DeeperMemberUnrelated(host, root, n, plan);
    }
    if ws :| ws in plan.members && ws != root && !(ws < root) && ws <= host && ws !in plan.installed {
      if |ws| <= |root| {
        SameDepthSamePrefix(ws, root, host);
        assert false;
      }
    }
  }

  lemma JoinRelative(host: Path, root: Path, projectRoot: Path)
    requires projectRoot <= root <= host
    ensures ContainerRoot(projectRoot, root) + host[|root|..] == WORKSPACE_ROOT + host[|projectRoot|..]
  {
    assert host == root + host[|root|..];
    assert host[|projectRoot|..] == root[|projectRoot|..] + host[|root|..];
  }

  /** The roots met so far that hold `host` were all turned down. */
  ghost predicate TurnedDown(roots: seq<Path>, i: nat, host: Path, plan: Plan) {
    forall k | 0 <= k < i && k < |roots| && roots[k] <= host :: InUnrelatedMember(host, roots[k], plan)
  }

  lemma DeeperWereTurnedDown(roots: seq<Path>, i: nat, host: Path, plan: Plan)
    requires DeepestFirst(roots) && i < |roots| && TurnedDown(roots, i, host, plan)
    requires forall x :: x in roots <==> x in plan.installed
    ensures forall r | r in plan.installed && r <= host && |roots[i]| < |r| :: InUnrelatedMember(host, r, plan)
  {
    forall r | r in plan.installed && r <= host && |roots[i]| < |r| ensures InUnrelatedMember(host, r, plan) {
      var k :| 0 <= k < |roots| && roots[k] == r;
      assert k < i;
    }
  }

  lemma NoneLeft(roots: seq<Path>, host: Path, plan: Plan)
    requires Planned(plan) && DeepestFirst(roots) && TurnedDown(roots, |roots|, host, plan)
    requires forall x :: x in roots <==> x in plan.installed
    ensures Resolved(host, plan) == None
  {
    if m :| Innermost(m, host, plan) && m in plan.installed {
      var k :| 0 <= k < |roots| && roots[k] == m;
      DeeperWereTurnedDown(roots, k, host, plan);
      GuardIsInnermost(host, m, plan);
      assert false;
    }
  }

  /** `_resolve_uv_lock_container_path` */
  method Resolve(host: Path, plan: Plan) returns (r: Option<Path>)
    requires Planned(plan)
    ensures r == Resolved(host, plan)
  {
    var roots := SortByDepth(plan.installed);
    for i := 0 to |roots|
      invariant TurnedDown(roots, i, host, plan)
    {
      var packageRoot := roots[i];
      if packageRoot <= host {
        DeeperWereTurnedDown(roots, i, host, plan);
        GuardIsInnermost(host, packageRoot, plan);
        if plan.members == {} || !InUnrelatedMember(host, packageRoot, plan) {
          JoinRelative(host, packageRoot, plan.projectRoot);
          return Some(ContainerRoot(plan.projectRoot, packageRoot) + host[|packageRoot|..]);
        }
      }
    }
    NoneLeft(roots, host, plan);
    return None;
  }

  /** No two host paths share a container path. */
  lemma ResolvedInjective(a: Path, b: Path, plan: Plan)
    requires Resolved(a, plan).Some? && Resolved(a, plan) == Resolved(b, plan)
    ensures a == b
  {
    var n := |plan.projectRoot|;
    var ma :| Innermost(ma, a, plan) && plan.projectRoot <= ma;
    var mb :| Innermost(mb, b, plan) && plan.projectRoot <= mb;
    assert (WORKSPACE_ROOT + a[n..])[|WORKSPACE_ROOT|..] == a[n..];
    assert (WORKSPACE_ROOT + b[n..])[|WORKSPACE_ROOT|..] == b[n..];
    assert a == plan.projectRoot + a[n..] && b == plan.projectRoot + b[n..];
  }

  /** Each installed package's own root maps to the container root recorded for it. */
  lemma PackageRootResolves(root: Path, plan: Plan)
    requires Planned(plan) && root in plan.installed
    ensures Resolved(root, plan) == Some(ContainerRoot(plan.projectRoot, root))
  {
    assert Innermost(root, root, plan);
  }
}
