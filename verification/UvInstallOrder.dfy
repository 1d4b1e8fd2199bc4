/** The install order of a uv workspace: `visit` in langgraph_cli/uv_lock.py. */
module UvInstallOrder {
  import opened Prelude

  type Name = string

  /** Every workspace package with its workspace dependencies; a name outside the workspace is skipped. */
  type Workspace = map<Name, seq<Name>>

  ghost predicate DependsOn(w: Workspace, a: Name, b: Name) {
    a in w && b in w[a] && b in w
  }

  ghost predicate IsPath(w: Workspace, p: seq<Name>, a: Name, b: Name) {
    && p != [] && p[0] == a && p[|p| - 1] == b
    && forall i | 0 <= i < |p| - 1 :: DependsOn(w, p[i], p[i + 1])
  }

  ghost predicate Reaches(w: Workspace, a: Name, b: Name) {
    exists p :: IsPath(w, p, a, b)
  }

  lemma ReachesSelf(w: Workspace, a: Name)
    ensures Reaches(w, a, a)
  {
    assert IsPath(w, [a], a, a);
  }

  lemma ReachesStep(w: Workspace, a: Name, b: Name)
    requires DependsOn(w, a, b)
    ensures Reaches(w, a, b)
  {
    assert IsPath(w, [a, b], a, b);
  }

  lemma ReachesTrans(w: Workspace, a: Name, b: Name, c: Name)
    requires Reaches(w, a, b) && Reaches(w, b, c)
    ensures Reaches(w, a, c)
  {
    var p :| IsPath(w, p, a, b);
    var q :| IsPath(w, q, b, c);
    var r := p + q[1..];
    forall i | 0 <= i < |r| - 1 ensures DependsOn(w, r[i], r[i + 1]) {
      if i >= |p| - 1 {
        assert r[i] == q[i - |p| + 1] && r[i + 1] == q[i - |p| + 2];
      }
    }
    assert IsPath(w, r, a, c);
  }

  /** A set of packages closed under dependencies holds whatever its members reach. */
  lemma {:induction false} ClosedHoldsReachable(w: Workspace, s: set<Name>, p: seq<Name>, a: Name, b: Name)
    requires a in s && IsPath(w, p, a, b)
    requires forall x, y | x in s && DependsOn(w, x, y) :: y in s
    ensures b in s
    decreases |p|
  {
    if |p| > 1 {
      assert DependsOn(w, p[0], p[1]);
      ClosedHoldsReachable(w, s, p[1..], p[1], b);
    }
  }

  ghost predicate NoRepeats(order: seq<Name>) {
    forall i, j | 0 <= i < j < |order| :: order[i] != order[j]
  }

  /** A dependency of a listed package is listed earlier or can reach that package. */
  ghost predicate EarlierOrCyclic(w: Workspace, order: seq<Name>, visited: set<Name>) {
    forall i, b | 0 <= i < |order| && DependsOn(w, order[i], b) ::
      b in visited && (b in order[..i] || Reaches(w, b, order[i]))
  }

  ghost function Listed(order: seq<Name>): set<Name> {
    set x | x in order
  }

  class Planner {
    const workspace: Workspace
    var visited: set<Name>
    var installOrder: seq<Name>

    constructor (workspace: Workspace)
      ensures this.workspace == workspace && visited == {} && installOrder == []
    {
      this.workspace, visited, installOrder := workspace, {}, [];
    }

    ghost predicate Valid()
      reads this
    {
      && visited <= workspace.Keys
      && Listed(installOrder) <= visited
      && NoRepeats(installOrder)
      && EarlierOrCyclic(workspace, installOrder, visited)
    }

    /** The packages whose visit has begun but not ended. */
    ghost function Open(): set<Name>
      reads this
    {
      visited - Listed(installOrder)
    }

    method Visit(package: Name)
      requires Valid() && package in workspace
      requires forall s | s in Open() :: Reaches(workspace, s, package)
      modifies this
      ensures Valid() && package in visited && old(visited) <= visited
      ensures Open() == old(Open())
      ensures old(installOrder) <= installOrder
      ensures forall x | x in installOrder[|old(installOrder)|..] :: Reaches(workspace, package, x)
      ensures package !in old(visited) ==> installOrder != [] && installOrder[|installOrder| - 1] == package
      decreases workspace.Keys - visited
    {
      if package in visited {
        return;
      }
      visited := visited + {package};
      ghost var open := old(Open()) + {package};
      assert Open() == open;
      ReachesSelf(workspace, package);
      var dependencies := workspace[package];
      for j := 0 to |dependencies|
        invariant Valid() && Open() == open && old(visited) + {package} <= visited
        invariant old(installOrder) <= installOrder
        invariant forall x | x in installOrder[|old(installOrder)|..] :: Reaches(workspace, package, x)
        invariant forall i | 0 <= i < j && dependencies[i] in workspace ::
                    && dependencies[i] in visited
                    && (dependencies[i] in installOrder || Reaches(workspace, dependencies[i], package))
      {
        var dependency := dependencies[j];
        if dependency in workspace {
          ReachesStep(workspace, package, dependency);
          forall s | s in open ensures Reaches(workspace, s, dependency) {
            ReachesTrans(workspace, s, package, dependency);
          }
          ghost var before := installOrder;
          Visit(dependency);
          forall x | x in installOrder[|old(installOrder)|..] ensures Reaches(workspace, package, x) {
            if x !in before[|old(installOrder)|..] {
              assert x in installOrder[|before|..];
              ReachesTrans(workspace, package, dependency, x);
            }
          }
          assert dependency in Open() || dependency in installOrder;
        }
      }
      ghost var before := installOrder;
      installOrder := installOrder + [package];
      assert Listed(installOrder) == Listed(before) + {package};
      forall i, b | 0 <= i < |installOrder| && DependsOn(workspace, installOrder[i], b)
        ensures b in visited && (b in installOrder[..i] || Reaches(workspace, b, installOrder[i]))
      {
        assert installOrder[..i] == before[..i];
        if i == |before| {
          assert installOrder[..i] == before;
        }
      }
    }
  }

  /**
   * The install order for a target: exactly the packages it reaches, each once, the target last; a
   * dependency comes after its dependent only if it can itself reach that dependent.
   */
  method InstallOrder(w: Workspace, target: Name) returns (order: seq<Name>)
    requires target in w
    ensures forall x :: x in order <==> Reaches(w, target, x)
    ensures NoRepeats(order)
    ensures order != [] && order[|order| - 1] == target
    ensures DependenciesFirst(w, order)
  {
    var planner := new Planner(w);
    assert planner.Open() == {};
    planner.Visit(target);
    order := planner.installOrder;
    assert order[0..] == order;
    assert planner.visited == Listed(order) by {
      assert planner.visited - Listed(order) == planner.Open() == {};
      forall x ensures x in planner.visited <==> x in Listed(order) {
        assert x !in planner.visited - Listed(order);
      }
    }
    assert EarlierOrCyclic(w, order, planner.visited);
    forall x | Reaches(w, target, x) ensures x in order {
      var p :| IsPath(w, p, target, x);
      forall a, b | a in Listed(order) && DependsOn(w, a, b) ensures b in Listed(order) {
        var i :| 0 <= i < |order| && order[i] == a;
      }
      ClosedHoldsReachable(w, Listed(order), p, target, x);
    }
    forall i, j | 0 <= i < j < |order| && DependsOn(w, order[i], order[j]) ensures Reaches(w, order[j], order[i]) {
      assert forall k | 0 <= k < i :: order[..i][k] == order[k] != order[j];
      assert order[j] in Listed(order);
    }
  }

  ghost predicate DependenciesFirst(w: Workspace, order: seq<Name>) {
    forall i, j | 0 <= i < j < |order| && DependsOn(w, order[i], order[j]) :: Reaches(w, order[j], order[i])
  }

  /** No package depends on one that reaches it. */
  ghost predicate Acyclic(w: Workspace) {
    forall a, b | DependsOn(w, a, b) :: !Reaches(w, b, a)
  }

  /** In a workspace without cycles every dependency is installed before its dependents. */
  lemma AcyclicOrderIsTopological(w: Workspace, target: Name, order: seq<Name>, i: nat, b: Name)
    requires Acyclic(w) && DependenciesFirst(w, order)
    requires forall x :: x in order <==> Reaches(w, target, x)
    requires i < |order| && DependsOn(w, order[i], b)
    ensures b in order[..i]
  {
    ReachesStep(w, order[i], b);
    ReachesTrans(w, target, order[i], b);
    var j :| 0 <= j < |order| && order[j] == b;
    if j == i {
      ReachesSelf(w, b);
    }
    assert j < i;
    assert order[..i][j] == b;
  }
}
