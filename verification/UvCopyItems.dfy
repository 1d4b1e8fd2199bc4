/** Which files of a uv workspace root are copied: `_uv_lock_package_copy_items` in langgraph_cli/uv_lock.py. */
module UvCopyItems {
  import opened Prelude
  import opened UvPaths

  datatype Node = File | Dir(children: seq<Child>)

  datatype Child = Child(name: string, node: Node)

  const ALWAYS_EXCLUDED: set<string> :=
    {"__pycache__", ".git", ".venv", "venv", "node_modules", ".tox", ".mypy_cache"}

  /** `_is_always_excluded`: a file is excluded only by a directory it lies in. */
  predicate AlwaysExcluded(path: Path, isDir: bool)
    requires path != []
  {
    exists i | 0 <= i < (if isDir then |path| else |path| - 1) :: path[i] in ALWAYS_EXCLUDED
  }

  /**
   * Paths here are relative to the project root. `members` are the other workspace roots, `ignored` is
   * the ignore file's verdict on a path (and whether it is a directory), `walk` is `requires_dir_walk`.
   */
  datatype Rules = Rules(members: set<Path>, ignored: (Path, bool) -> bool, walk: Path -> bool)
  {
    predicate MemberParent(path: Path) {
      exists m | m in members :: path < m
    }

    /** The walk enters this directory instead of copying it. */
    predicate Entered(path: Path)
      requires path != []
    {
      && path !in members && !AlwaysExcluded(path, true)
      && (MemberParent(path) || (ignored(path, true) && walk(path)))
    }

    predicate Copied(path: Path, isDir: bool)
      requires path != []
    {
      && path !in members && !AlwaysExcluded(path, isDir)
      && !(isDir && MemberParent(path)) && !ignored(path, isDir)
    }
  }

  // ---------------------------------------------------------------------
  // The walk
  // ---------------------------------------------------------------------

  ghost function ChildEntries(c: Child, at: Path, rules: Rules): seq<Path>
    decreases c
  {
    var p := at + [c.name];
    if c.node.Dir? && rules.Entered(p) then Entries(c.node.children, p, rules)
    else if rules.Copied(p, c.node.Dir?) then [p]
    else []
  }

  ghost function Entries(children: seq<Child>, at: Path, rules: Rules): seq<Path>
    decreases children
  {
    if children == [] then []
    else Entries(children[..|children| - 1], at, rules) + ChildEntries(children[|children| - 1], at, rules)
  }

  /** `iter_entries` on the directory at `at`. */
  method IterEntries(children: seq<Child>, at: Path, rules: Rules) returns (entries: seq<Path>)
    ensures entries == Entries(children, at, rules)
    decreases children
  {
    entries := [];
    for k := 0 to |children|
      invariant entries == Entries(children[..k], at, rules)
    {
      assert children[..k + 1][..k] == children[..k];
      var child := children[k];
      var path := at + [child.name];
      if path in rules.members {
        continue;
      }
      var isDir := child.node.Dir?;
      if AlwaysExcluded(path, isDir) {
        continue;
      }
      var ignored := rules.ignored(path, isDir);
      if isDir && rules.MemberParent(path) {
        var below := IterEntries(child.node.children, path, rules);
        entries := entries + below;
        continue;
      }
      if isDir && ignored && rules.walk(path) {
        var below := IterEntries(child.node.children, path, rules);
        entries := entries + below;
        continue;
      }
      if ignored {
        continue;
      }
      entries := entries + [path];
    }
    assert children[..|children|] == children;
  }

  // ---------------------------------------------------------------------
  // Exactly which paths are entries
  // ---------------------------------------------------------------------

  /** `node` stands at the relative path `q` below a directory. */
  ghost predicate StandsAt(children: seq<Child>, q: Path, node: Node)
    decreases |q|, 0
  {
    q != [] && exists i | 0 <= i < |children| ::
      children[i].name == q[0] && StandsBelow(children[i].node, q[1..], node)
  }

  ghost predicate StandsBelow(top: Node, q: Path, node: Node)
    decreases |q|, 1
  {
    if q == [] then top == node else top.Dir? && StandsAt(top.children, q, node)
  }

  /** An existing path that is copied, all of whose parents (below `at`) are entered. */
  ghost predicate IsEntry(children: seq<Child>, at: Path, q: Path, rules: Rules) {
    && q != []
    && (exists node :: StandsAt(children, q, node) && rules.Copied(at + q, node.Dir?))
    && forall i | 0 < i < |q| :: rules.Entered(at + q[..i])
  }

  lemma {:induction false} EntriesLieBelow(children: seq<Child>, at: Path, rules: Rules)
    ensures forall x | x in Entries(children, at, rules) :: at < x
    decreases children
  {
    if children == [] {
    } else {
      EntriesLieBelow(children[..|children| - 1], at, rules);
      ChildEntriesNamed(children[|children| - 1], at, rules);
    }
  }

  lemma {:induction false} ChildEntriesNamed(c: Child, at: Path, rules: Rules)
    ensures forall x | x in ChildEntries(c, at, rules) :: at < at + [c.name] <= x
    decreases c
  {
    if c.node.Dir? {
      EntriesLieBelow(c.node.children, at + [c.name], rules);
    }
  }

  /** The path below a child's own name. */
  lemma EntryOfChild(c: Child, at: Path, q: Path, rules: Rules)
    requires q != [] && q[0] == c.name
    requires c.node.Dir? && |q| > 1 ==>
               (at + [c.name] + q[1..] in Entries(c.node.children, at + [c.name], rules)
                <==> IsEntry(c.node.children, at + [c.name], q[1..], rules))
    ensures at + q in ChildEntries(c, at, rules) <==> IsEntry([c], at, q, rules)
  {
    var p := at + [c.name];
    assert at + q == p + q[1..] && [c][0] == c;
    forall node ensures StandsAt([c], q, node) <==> StandsBelow(c.node, q[1..], node) {
    }
    if |q| == 1 {
      assert q == [c.name];
      assert StandsAt([c], q, c.node);
      if c.node.Dir? {
        EntriesLieBelow(c.node.children, p, rules);
      }
    } else {
      assert at + q[..1] == p;
      assert forall i | 0 < i < |q| - 1 :: p + q[1..][..i] == at + q[..i + 1];
      if IsEntry([c], at, q, rules) {
        assert rules.Entered(at + q[..1]);
        forall i | 0 < i < |q[1..]| ensures rules.Entered(p + q[1..][..i]) {
          assert rules.Entered(at + q[..i + 1]);
        }
      }
      if c.node.Dir? && rules.Entered(p) && IsEntry(c.node.children, p, q[1..], rules) {
        forall i | 0 < i < |q| ensures rules.Entered(at + q[..i]) {
          if i > 1 {
            assert rules.Entered(p + q[1..][..i - 1]);
          }
        }
      }
    }
  }

  lemma StandsAtSplit(front: seq<Child>, c: Child, q: Path, node: Node)
    ensures StandsAt(front + [c], q, node) <==> StandsAt(front, q, node) || StandsAt([c], q, node)
  {
    var children := front + [c];
    assert forall i | 0 <= i < |front| :: children[i] == front[i];
    assert children[|front|] == c == [c][0];
  }

  lemma IsEntrySplit(front: seq<Child>, c: Child, at: Path, q: Path, rules: Rules)
    ensures IsEntry(front + [c], at, q, rules) <==> IsEntry(front, at, q, rules) || IsEntry([c], at, q, rules)
  {
    forall node ensures StandsAt(front + [c], q, node) <==> StandsAt(front, q, node) || StandsAt([c], q, node) {
      StandsAtSplit(front, c, q, node);
    }
  }

  /** The walk emits exactly the entries. */
  lemma {:induction false} EntriesExact(children: seq<Child>, at: Path, q: Path, rules: Rules)
    requires q != []
    ensures at + q in Entries(children, at, rules) <==> IsEntry(children, at, q, rules)
    decreases children
  {
    if children == [] {
    } else {
      var front, c := children[..|children| - 1], children[|children| - 1];
      assert children == front + [c];
      EntriesExact(front, at, q, rules);
      IsEntrySplit(front, c, at, q, rules);
      ChildEntriesNamed(c, at, rules);
      if q[0] == c.name {
        if c.node.Dir? && |q| > 1 {
          EntriesExact(c.node.children, at + [c.name], q[1..], rules);
        }
        EntryOfChild(c, at, q, rules);
      } else {
        assert (at + q)[|at|] == q[0];
        assert [c][0] == c;
        assert !IsEntry([c], at, q, rules);
      }
    }
  }

  /** The walk of the project root emits this path. */
  ghost predicate Emitted(root: seq<Child>, p: Path, rules: Rules) {
    p in Entries(root, [], rules)
  }

  lemma RootEntries(root: seq<Child>, p: Path, rules: Rules)
    ensures Emitted(root, p, rules) <==> IsEntry(root, [], p, rules)
  {
    EntriesLieBelow(root, [], rules);
    if p != [] {
      EntriesExact(root, [], p, rules);
      assert [] + p == p;
    }
  }

  /** The walk goes through a directory: some member lies below it, or it is ignored but may hold what is not. */
  ghost predicate WalkedThrough(rules: Rules, dir: Path)
    requires dir != []
  {
    && dir !in rules.members && (forall j | 0 <= j < |dir| :: dir[j] !in ALWAYS_EXCLUDED)
    && ((exists m :: m in rules.members && dir < m) || (rules.ignored(dir, true) && rules.walk(dir)))
  }

  /** A path may be copied whole: no member, holding none, neither ignored nor, but for a file's own name, excluded. */
  ghost predicate CopiedWhole(rules: Rules, p: Path, node: Node)
    requires p != []
  {
    && p !in rules.members && !rules.ignored(p, node.Dir?)
    && (forall j | 0 <= j < (if node.Dir? then |p| else |p| - 1) :: p[j] !in ALWAYS_EXCLUDED)
    && (node.Dir? ==> !exists m :: m in rules.members && p < m)
  }

  /** The entries, rule by rule: what exists, may be copied whole, and has only parents that are walked through. */
  lemma EntriesByRule(root: seq<Child>, p: Path, rules: Rules)
    ensures Emitted(root, p, rules) <==>
              && p != []
              && (exists node :: StandsAt(root, p, node) && CopiedWhole(rules, p, node))
              && forall i | 0 < i < |p| :: WalkedThrough(rules, p[..i])
  {
    RootEntries(root, p, rules);
    assert [] + p == p;
    if p != [] {
      forall node: Node ensures rules.Copied(p, node.Dir?) <==> CopiedWhole(rules, p, node) {
      }
      forall i | 0 < i < |p| ensures rules.Entered([] + p[..i]) <==> WalkedThrough(rules, p[..i]) {
        assert [] + p[..i] == p[..i];
      }
    }
  }

  // ---------------------------------------------------------------------
  // A directory tree
  // ---------------------------------------------------------------------

  /** Names are unique in each directory. */
  ghost predicate DistinctNames(children: seq<Child>)
    decreases children
  {
    && (forall i, j | 0 <= i < j < |children| :: children[i].name != children[j].name)
    && forall i | 0 <= i < |children| && children[i].node.Dir? :: DistinctNames(children[i].node.children)
  }

  lemma {:induction false} OneNodePerPath(children: seq<Child>, q: Path, a: Node, b: Node)
    requires DistinctNames(children) && StandsAt(children, q, a) && StandsAt(children, q, b)
    ensures a == b
    decreases |q|
  {
    var i :| 0 <= i < |children| && children[i].name == q[0] && StandsBelow(children[i].node, q[1..], a);
    var j :| 0 <= j < |children| && children[j].name == q[0] && StandsBelow(children[j].node, q[1..], b);
    assert i == j;
    if |q| > 1 {
      OneNodePerPath(children[i].node.children, q[1..], a, b);
    }
  }

  /** Whatever has something below it is a directory. */
  lemma {:induction false} ParentsAreDirs(children: seq<Child>, q: Path, n: nat, node: Node)
    requires 0 < n < |q| && StandsAt(children, q, node)
    ensures exists d: Node :: d.Dir? && StandsAt(children, q[..n], d)
    decreases |q|
  {
    var i :| 0 <= i < |children| && children[i].name == q[0] && StandsBelow(children[i].node, q[1..], node);
    var top := children[i].node;
    if n == 1 {
      assert q[..1][1..] == [];
      assert StandsBelow(top, q[..1][1..], top);
      assert StandsAt(children, q[..1], top);
    } else {
      ParentsAreDirs(top.children, q[1..], n - 1, node);
      var d: Node :| d.Dir? && StandsAt(top.children, q[1..][..n - 1], d);
      assert q[..n][1..] == q[1..][..n - 1];
      assert StandsBelow(top, q[..n][1..], d);
      assert StandsAt(children, q[..n], d);
    }
  }

  // ---------------------------------------------------------------------
  // What the entries are good for
  // ---------------------------------------------------------------------

  /** Every parent path of a member that exists in the tree is a directory. */
  ghost predicate MembersFit(root: seq<Child>, rules: Rules) {
    forall p, node | StandsAt(root, p, node) && rules.MemberParent(p) :: node.Dir?
  }

  /** No entry is a member, contains one, or lies inside one. */
  lemma EntryApartFromMembers(root: seq<Child>, rules: Rules, p: Path, m: Path)
    requires MembersFit(root, rules) && Emitted(root, p, rules) && m in rules.members && m != []
    ensures !(p <= m) && !(m <= p)
  {
    RootEntries(root, p, rules);
    assert [] + p == p;
    var node :| StandsAt(root, p, node) && rules.Copied([] + p, node.Dir?);
    assert |p| == |m| && (p <= m || m <= p) ==> p == m;
    assert rules.MemberParent(p) ==> node.Dir?;
    assert p < m ==> rules.MemberParent(p);
    if m < p {
      var d := ParentOfEntryEntered(root, rules, m, p);
    }
  }

  lemma ParentOfEntryEntered(root: seq<Child>, rules: Rules, p: Path, q: Path) returns (d: Node)
    requires Emitted(root, q, rules) && p < q && p != []
    ensures rules.Entered(p) && d.Dir? && StandsAt(root, p, d)
  {
    RootEntries(root, q, rules);
    assert q[..|p|] == p && [] + q[..|p|] == p;
    var below :| StandsAt(root, q, below);
    ParentsAreDirs(root, q, |p|, below);
    d :| d.Dir? && StandsAt(root, q[..|p|], d);
  }

  /** A directory that is an entry is neither entered nor ignored. */
  lemma DirEntry(root: seq<Child>, rules: Rules, p: Path, d: Node)
    requires DistinctNames(root) && Emitted(root, p, rules) && d.Dir? && StandsAt(root, p, d)
    ensures p != [] && !rules.Entered(p) && !rules.ignored(p, true)
  {
    RootEntries(root, p, rules);
    assert [] + p == p;
    var node :| StandsAt(root, p, node) && rules.Copied([] + p, node.Dir?);
    OneNodePerPath(root, p, node, d);
  }

  /** No entry lies inside another. */
  lemma EntriesDoNotNest(root: seq<Child>, rules: Rules, p: Path, q: Path)
    requires DistinctNames(root) && Emitted(root, p, rules) && Emitted(root, q, rules) && p != q
    ensures !(p <= q)
  {
    RootEntries(root, p, rules);
    if p < q {
      var d := ParentOfEntryEntered(root, rules, p, q);
      DirEntry(root, rules, p, d);
    } else if |p| == |q| {
      assert p <= q ==> p == q;
    }
  }

  /** What is ignored or excluded is never an entry. */
  lemma EntryIsAllowed(root: seq<Child>, rules: Rules, p: Path, node: Node)
    requires DistinctNames(root) && Emitted(root, p, rules) && StandsAt(root, p, node)
    ensures !rules.ignored(p, node.Dir?)
    ensures forall j | 0 <= j < |p| - 1 :: p[j] !in ALWAYS_EXCLUDED
    ensures node.Dir? ==> p[|p| - 1] !in ALWAYS_EXCLUDED
  {
    EntriesByRule(root, p, rules);
    var other :| StandsAt(root, p, other) && CopiedWhole(rules, p, other);
    OneNodePerPath(root, p, node, other);
  }

  /** A file the build needs: outside other members, neither ignored nor under an excluded directory. */
  ghost predicate Wanted(root: seq<Child>, rules: Rules, f: Path) {
    && StandsAt(root, f, File)
    && (forall m | m in rules.members :: !(m <= f))
    && (forall i | 0 <= i < |f| - 1 :: f[i] !in ALWAYS_EXCLUDED)
    && !rules.ignored(f, false)
  }

  /** Every ignored parent that the walk gets to and that holds no member may still be walked. */
  ghost predicate ParentsOpen(rules: Rules, f: Path) {
    forall i | 0 < i < |f| && GetsTo(rules, f, i) && rules.ignored(f[..i], true) && !rules.MemberParent(f[..i]) ::
      rules.walk(f[..i])
  }

  /** The walk enters all parents of the file above the `n`-th. */
  ghost predicate GetsTo(rules: Rules, f: Path, n: nat)
    requires n <= |f|
  {
    forall i | 0 < i < n :: rules.Entered(f[..i])
  }

  lemma {:induction false} CoveredBelow(root: seq<Child>, rules: Rules, f: Path, n: nat) returns (p: Path)
    requires Wanted(root, rules, f) && ParentsOpen(rules, f) && 0 < n <= |f| && GetsTo(rules, f, n)
    ensures Emitted(root, p, rules) && p <= f
    decreases |f| - n
  {
    p := f[..n];
    assert [] + p == p;
    forall i | 0 < i < |p| ensures rules.Entered([] + p[..i]) {
      assert [] + p[..i] == f[..i];
    }
    RootEntries(root, p, rules);
    if n == |f| {
      assert p == f;
      assert rules.Copied([] + p, File.Dir?);
    } else if rules.Entered(p) {
      p := CoveredBelow(root, rules, f, n + 1);
    } else {
      ParentsAreDirs(root, f, n, File);
      var d: Node :| d.Dir? && StandsAt(root, p, d);
      assert rules.Copied([] + p, d.Dir?);
    }
  }

  lemma PrefixesNest(p: Path, q: Path, f: Path)
    requires p <= f && q <= f
    ensures p <= q || q <= p
  {
    if |p| <= |q| {
      SameDepthSamePrefix(p, q, f);
    } else {
      SameDepthSamePrefix(q, p, f);
    }
  }

  /** Every wanted file whose parents are open lies under exactly one entry. */
  lemma WantedFileCoveredOnce(root: seq<Child>, rules: Rules, f: Path) returns (p: Path)
    requires DistinctNames(root) && Wanted(root, rules, f) && ParentsOpen(rules, f)
    ensures Emitted(root, p, rules) && p <= f
    ensures forall q | Emitted(root, q, rules) && q <= f :: q == p
  {
    assert GetsTo(rules, f, 1);
    p := CoveredBelow(root, rules, f, 1);
    forall q | Emitted(root, q, rules) && q <= f ensures q == p {
      if q != p {
        EntriesDoNotNest(root, rules, p, q);
        EntriesDoNotNest(root, rules, q, p);
        PrefixesNest(p, q, f);
      }
    }
  }

  /** A parent that the walk gets to but may not enter keeps every entry away from the file. */
  lemma ClosedParentHides(root: seq<Child>, rules: Rules, f: Path, i: nat, p: Path)
    requires DistinctNames(root) && StandsAt(root, f, File) && 0 < i < |f| && GetsTo(rules, f, i)
    requires rules.ignored(f[..i], true) && !rules.MemberParent(f[..i]) && !rules.walk(f[..i])
    ensures !(Emitted(root, p, rules) && p <= f)
  {
    if Emitted(root, p, rules) && p <= f {
      RootEntries(root, p, rules);
      assert !rules.Entered(f[..i]);
      assert |p| <= i by {
        forall n | 0 < n < |p| ensures rules.Entered(f[..n]) {
          assert [] + p[..n] == f[..n];
        }
      }
      assert p == f[..|p|];
      ParentsAreDirs(root, f, |p|, File);
      var d: Node :| d.Dir? && StandsAt(root, f[..|p|], d);
      DirEntry(root, rules, p, d);
    }
  }

  /** Exactly then is a wanted file copied at all. */
  lemma WantedFileCoveredIff(root: seq<Child>, rules: Rules, f: Path)
    requires DistinctNames(root) && Wanted(root, rules, f)
    ensures (exists p :: Emitted(root, p, rules) && p <= f) <==> ParentsOpen(rules, f)
  {
    if ParentsOpen(rules, f) {
      var p := WantedFileCoveredOnce(root, rules, f);
    } else {
      var i :| 0 < i < |f| && GetsTo(rules, f, i) && rules.ignored(f[..i], true)
               && !rules.MemberParent(f[..i]) && !rules.walk(f[..i]);
      forall p ensures !(Emitted(root, p, rules) && p <= f) {
        ClosedParentHides(root, rules, f, i, p);
      }
    }
  }

  ghost predicate NoRepeats(ps: seq<Path>) {
    forall i, j | 0 <= i < j < |ps| :: ps[i] != ps[j]
  }

  /** No path is listed twice. */
  lemma {:induction false} EntriesListedOnce(children: seq<Child>, at: Path, rules: Rules)
    requires DistinctNames(children)
    ensures NoRepeats(Entries(children, at, rules))
    decreases children
  {
    if children == [] {
    } else {
      var front, c := children[..|children| - 1], children[|children| - 1];
      EntriesListedOnce(front, at, rules);
      if c.node.Dir? {
        EntriesListedOnce(c.node.children, at + [c.name], rules);
      }
      EntriesUnderNames(front, at, rules);
      ChildEntriesNamed(c, at, rules);
      var a, b := Entries(front, at, rules), ChildEntries(c, at, rules);
      assert NoRepeats(b);
      forall i, j | 0 <= i < |a| && 0 <= j < |b| ensures a[i] != b[j] {
        assert a[i] in a && b[j] in b;
        var k :| 0 <= k < |front| && at + [front[k].name] <= a[i];
        assert (at + [front[k].name])[|at|] == front[k].name == a[i][|at|];
        assert (at + [c.name])[|at|] == c.name == b[j][|at|];
      }
    }
  }

  lemma {:induction false} EntriesUnderNames(children: seq<Child>, at: Path, rules: Rules)
    ensures forall x | x in Entries(children, at, rules) ::
              exists k | 0 <= k < |children| :: at + [children[k].name] <= x
    decreases |children|
  {
    if children == [] {
    } else {
      var front, c := children[..|children| - 1], children[|children| - 1];
      EntriesUnderNames(front, at, rules);
      ChildEntriesNamed(c, at, rules);
      forall x | x in Entries(children, at, rules) ensures exists k | 0 <= k < |children| :: at + [children[k].name] <= x {
        if x in Entries(front, at, rules) {
          var k :| 0 <= k < |front| && at + [front[k].name] <= x;
          assert children[k] == front[k];
        } else {
          assert x in ChildEntries(c, at, rules);
          assert children[|children| - 1] == c;
        }
      }
    }
  }

  // ---------------------------------------------------------------------
  // Copy items
  // ---------------------------------------------------------------------

  /** The other workspace roots of a plan, relative to the project root. */
  ghost predicate MembersOf(rules: Rules, plan: Plan) {
    forall r: Path :: r in rules.members <==> r != [] && plan.projectRoot + r in plan.members
  }

  /** The copied source and its destination in the container. */
  type CopyItem = (Path, Path)

  datatype CopyError = ExcludedMember(root: Path)

  /** What is copied for the root package: each entry to its place below the workspace root. */
  ghost function RootItems(root: seq<Child>, rules: Rules): (items: seq<CopyItem>)
    ensures |items| == |Entries(root, [], rules)|
    ensures forall i | 0 <= i < |items| ::
              items[i] == (Entries(root, [], rules)[i], WORKSPACE_ROOT + Entries(root, [], rules)[i])
  {
    var entries := Entries(root, [], rules);
    seq(|entries|, i requires 0 <= i < |entries| => (entries[i], WORKSPACE_ROOT + entries[i]))
  }

  /** Another member is copied whole, or refused if the build context leaves it out. */
  method CopyItems(package: Path, plan: Plan, root: seq<Child>, rules: Rules) returns (r: Result<seq<CopyItem>, CopyError>)
    requires Planned(plan) && package in plan.installed
    ensures package != plan.projectRoot ==>
              var relative := package[|plan.projectRoot|..];
              r == if AlwaysExcluded(relative, true) || rules.ignored(relative, true) then Err(ExcludedMember(relative))
                   else Ok([(relative, ContainerRoot(plan.projectRoot, package))])
    ensures package == plan.projectRoot ==> r == Ok(RootItems(root, rules))
  {
    if package != plan.projectRoot {
      var relative := package[|plan.projectRoot|..];
      if AlwaysExcluded(relative, true) || rules.ignored(relative, true) {
        return Err(ExcludedMember(relative));
      }
      return Ok([(relative, ContainerRoot(plan.projectRoot, package))]);
    }
    var entries := IterEntries(root, [], rules);
    var container := ContainerRoot(plan.projectRoot, package);
    assert container == WORKSPACE_ROOT;
    r := Ok(seq(|entries|, i requires 0 <= i < |entries| => (entries[i], container + entries[i])));
  }

  /**
   * No two items of the root package have the same source or one inside the other, and none touches
   * another member.
   */
  lemma RootItemsApart(root: seq<Child>, rules: Rules, i: nat)
    requires DistinctNames(root) && MembersFit(root, rules) && i < |RootItems(root, rules)|
    ensures forall j | 0 <= j < |RootItems(root, rules)| && j != i ::
              !(RootItems(root, rules)[i].0 <= RootItems(root, rules)[j].0)
    ensures forall m | m in rules.members && m != [] ::
              !(m <= RootItems(root, rules)[i].0) && !(RootItems(root, rules)[i].0 <= m)
  {
    var entries, p := Entries(root, [], rules), Entries(root, [], rules)[i];
    EntriesListedOnce(root, [], rules);
    assert Emitted(root, p, rules);
    forall j | 0 <= j < |entries| && j != i ensures !(p <= entries[j]) {
      assert Emitted(root, entries[j], rules);
      assert entries[i] != entries[j];
      EntriesDoNotNest(root, rules, p, entries[j]);
    }
    forall m | m in rules.members && m != [] ensures !(m <= p) && !(p <= m) {
      EntryApartFromMembers(root, rules, p, m);
    }
  }

  /** No source of an item is ignored or excluded, and each is there. */
  lemma RootItemsAllowed(root: seq<Child>, rules: Rules, i: nat) returns (node: Node)
    requires DistinctNames(root) && i < |RootItems(root, rules)|
    ensures var p := RootItems(root, rules)[i].0;
            && StandsAt(root, p, node) && !rules.ignored(p, node.Dir?)
            && (forall j | 0 <= j < |p| - 1 :: p[j] !in ALWAYS_EXCLUDED)
            && (node.Dir? ==> p[|p| - 1] !in ALWAYS_EXCLUDED)
  {
    var p := Entries(root, [], rules)[i];
    assert Emitted(root, p, rules);
    EntriesByRule(root, p, rules);
    node :| StandsAt(root, p, node) && CopiedWhole(rules, p, node);
    EntryIsAllowed(root, rules, p, node);
  }

  /** A wanted file lies under the source of some item exactly when its parents are open. */
  lemma WantedFileCopiedIff(root: seq<Child>, rules: Rules, f: Path)
    requires DistinctNames(root) && Wanted(root, rules, f)
    ensures (exists i | 0 <= i < |RootItems(root, rules)| :: RootItems(root, rules)[i].0 <= f) <==> ParentsOpen(rules, f)
  {
    var items, entries := RootItems(root, rules), Entries(root, [], rules);
    WantedFileCoveredIff(root, rules, f);
    if i :| 0 <= i < |items| && items[i].0 <= f {
      assert Emitted(root, entries[i], rules) && entries[i] <= f;
    }
    if p :| Emitted(root, p, rules) && p <= f {
      var i :| 0 <= i < |entries| && entries[i] == p;
      assert items[i].0 <= f;
    }
  }

  /**
   * The path lookup sends every copied source of the root package, and every path inside it, to the place
   * it is copied to.
   */
  lemma EntryResolvesToDestination(root: seq<Child>, rules: Rules, plan: Plan, p: Path, f: Path)
    requires Planned(plan) && plan.projectRoot in plan.installed
    requires MembersFit(root, rules) && MembersOf(rules, plan) && Emitted(root, p, rules) && p <= f
    ensures Resolved(plan.projectRoot + f, plan) == Some(WORKSPACE_ROOT + f)
  {
    var host, top := plan.projectRoot + f, plan.projectRoot;
    forall n | n in plan.members && n <= host ensures |n| <= |top| {
      if |top| < |n| {
        SameDepthSamePrefix(top, n, host);
        var r := n[|top|..];
        assert top + r == n;
        assert r == host[|top|..|n|] == f[..|r|];
        PrefixesNest(p, r, f);
        EntryApartFromMembers(root, rules, p, r);
        assert false;
      }
    }
    assert Innermost(top, host, plan);
    assert host[|top|..] == f;
  }
}
