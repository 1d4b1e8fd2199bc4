/** `CompiledStateGraph._migrate_checkpoint` of langgraph/graph/state.py: many trigger channels become one per node. */
module Migration {
  import opened Prelude

  type Key = string
  type NodeName = string

  const START: NodeName := "__start__"
  const END: NodeName := "__end__"
  const INTERRUPT: NodeName := "__interrupt__"

  datatype Graph = Graph(nodes: set<NodeName>, edges: set<(NodeName, NodeName)>)

  // ---------------------------------------------------------------------
  // Channel names
  // ---------------------------------------------------------------------

  /** `k.split(":")` */
  function Parts(k: Key): (parts: seq<string>)
    ensures parts != []
  {
    if k == [] then [""]
    else
      var rest := Parts(k[1..]);
      if k[0] == ':' then [""] + rest else [[k[0]] + rest[0]] + rest[1..]
  }

  /** The node of a key `start:node`, read up to the next colon. */
  function StartTarget(k: Key): Option<NodeName> {
    var parts := Parts(k);
    if |parts| >= 2 && parts[0] == "start" then Some(parts[1]) else None
  }

  /** The node of a key `branch:source:condition:node`. */
  function BranchTarget(k: Key): Option<NodeName> {
    var parts := Parts(k);
    if |parts| == 4 && parts[0] == "branch" then Some(parts[3]) else None
  }

  /** `branch:to:node` */
  function NewKey(node: NodeName): Key {
    "branch" + ":" + ("to" + ":" + node)
  }

  /** Node names never hold a colon. */
  ghost predicate IsName(n: NodeName) {
    ':' !in n && n != INTERRUPT
  }

  ghost predicate WellNamed(g: Graph) {
    && (forall n | n in g.nodes :: IsName(n))
    && forall e | e in g.edges :: IsName(e.1)
  }

  lemma {:induction false} PartsOfName(n: string, rest: string)
    requires ':' !in n
    ensures Parts(n) == [n] && Parts(n + ":" + rest) == [n] + Parts(rest)
  {
    if n == [] {
      assert n + ":" + rest == ":" + rest;
    } else {
      assert n[0] in n && forall c | c in n[1..] :: c in n;
      PartsOfName(n[1..], rest);
      assert (n + ":" + rest)[1..] == n[1..] + ":" + rest;
      assert [n[0]] + n[1..] == n;
    }
  }

  lemma NewKeyParts(n: NodeName)
    requires ':' !in n
    ensures Parts(NewKey(n)) == ["branch", "to", n]
    ensures StartTarget(NewKey(n)) == BranchTarget(NewKey(n)) == None && ':' in NewKey(n)
  {
    PartsOfName("branch", "to" + ":" + n);
    PartsOfName("to", n);
    PartsOfName(n, "");
    assert NewKey(n)[6] == ':';
    assert "branch"[0] != "start"[0];
  }

  lemma NameIsNotOld(n: NodeName)
    requires ':' !in n
    ensures StartTarget(n) == BranchTarget(n) == None
  {
    PartsOfName(n, "");
  }

  // ---------------------------------------------------------------------
  // Triggers of a node
  // ---------------------------------------------------------------------

  predicate FeedsByEdge(g: Graph, k: Key, n: NodeName) {
    k in g.nodes && k != START && (k, n) in g.edges && n != END
  }

  /** A channel of the old layouts that triggers `n`. */
  predicate OldTrigger(g: Graph, n: NodeName, k: Key) {
    || (n in g.nodes && (StartTarget(k) == Some(n) || BranchTarget(k) == Some(n)))
    || FeedsByEdge(g, k, n)
  }

  predicate Trigger(g: Graph, n: NodeName, k: Key) {
    OldTrigger(g, n, k) || k == NewKey(n)
  }

  /** A node's own new key triggers nothing else, and is no old key. */
  lemma NewKeyTriggers(g: Graph, n: NodeName, m: NodeName)
    requires WellNamed(g) && IsName(n) && IsName(m)
    ensures !OldTrigger(g, m, NewKey(n)) && NewKey(n) !in g.nodes
    ensures NewKey(n) == NewKey(m) ==> n == m
  {
    NewKeyParts(n);
    NewKeyParts(m);
  }

  /** A start or branch key triggers only the node it names. */
  lemma NamedKeyTriggers(g: Graph, n: NodeName, k: Key, m: NodeName)
    requires WellNamed(g) && n in g.nodes && IsName(m)
    requires StartTarget(k) == Some(n) || BranchTarget(k) == Some(n)
    ensures Trigger(g, m, k) <==> m == n
    ensures k !in g.nodes && k != NewKey(n)
  {
    NewKeyParts(m);
    NewKeyParts(n);
    if k in g.nodes {
      NameIsNotOld(k);
    }
    assert "branch"[0] != "start"[0];
  }

  lemma NodeKeyTriggers(g: Graph, k: Key, m: NodeName)
    requires WellNamed(g) && k in g.nodes && IsName(m)
    ensures Trigger(g, m, k) <==> FeedsByEdge(g, k, m)
    ensures StartTarget(k) == BranchTarget(k) == None
  {
    NameIsNotOld(k);
    NewKeyParts(m);
  }

  // ---------------------------------------------------------------------
  // Checkpoints
  // ---------------------------------------------------------------------

  /** Channel versions, the versions each node has seen, and channel values. */
  datatype Data<V> = Data(versions: map<Key, nat>, seen: map<NodeName, map<Key, nat>>, values: map<Key, V>)

  function Max(a: nat, b: nat): nat {
    if a < b then b else a
  }

  /** Some trigger channel of `n` has reached version `b`. */
  ghost predicate Reached<V>(g: Graph, d: Data<V>, n: NodeName, b: nat) {
    exists k | k in d.versions && Trigger(g, n, k) :: b <= d.versions[k]
  }

  /** The keys the migration takes into account for `n`. */
  ghost predicate Counted<V>(g: Graph, d: Data<V>, n: NodeName, k: Key) {
    Trigger(g, n, k) && (k in d.versions || k == NewKey(n))
  }

  /** Node `n` has seen version `b` of some counted trigger channel. */
  ghost predicate HasSeen<V>(g: Graph, d: Data<V>, n: NodeName, b: nat) {
    n in d.seen && exists k | k in d.seen[n] && Counted(g, d, n, k) :: b <= d.seen[n][k]
  }

  ghost predicate Carries<V>(g: Graph, d: Data<V>, n: NodeName, x: V) {
    exists k | k in d.values && Counted(g, d, n, k) :: d.values[k] == x
  }

  ghost predicate CarriesAny<V>(g: Graph, d: Data<V>, n: NodeName) {
    exists k :: k in d.values && Counted(g, d, n, k)
  }

  /** A value already on the new key stays. */
  ghost predicate KeepsNewValue<V>(d: Data<V>, e: Data<V>, n: NodeName) {
    NewKey(n) in d.values ==> NewKey(n) in e.values && e.values[NewKey(n)] == d.values[NewKey(n)]
  }

  /** For one node nothing is lost and nothing invented: versions, seen versions, and whether it has a value. */
  ghost predicate KeepsNode<V(!new)>(g: Graph, d: Data<V>, e: Data<V>, n: NodeName) {
    && (forall b: nat :: Reached(g, e, n, b) <==> Reached(g, d, n, b))
    && (forall b: nat :: HasSeen(g, e, n, b) <==> HasSeen(g, d, n, b))
    && (forall x :: Carries(g, e, n, x) ==> Carries(g, d, n, x))
    && (CarriesAny(g, e, n) <==> CarriesAny(g, d, n))
    && KeepsNewValue(d, e, n)
  }

  ghost predicate NamedBy(g: Graph, target: Option<NodeName>) {
    target.Some? && target.value in g.nodes
  }

  /** A channel that no phase touches. */
  ghost predicate IsOther(g: Graph, k: Key) {
    && !NamedBy(g, StartTarget(k)) && !NamedBy(g, BranchTarget(k)) && !(k in g.nodes && k != START)
    && forall n | IsName(n) :: k != NewKey(n)
  }

  ghost predicate SameAt<X>(a: map<Key, X>, b: map<Key, X>, k: Key) {
    (k in a <==> k in b) && (k in a ==> a[k] == b[k])
  }

  /** All other channels, and what any node has seen of them, stay as they are. */
  ghost predicate LeavesRest<V(!new)>(g: Graph, d: Data<V>, e: Data<V>) {
    && d.seen.Keys == e.seen.Keys
    && forall k | IsOther(g, k) :: LeavesKey(d, e, k)
  }

  ghost predicate LeavesKey<V>(d: Data<V>, e: Data<V>, k: Key)
    requires d.seen.Keys == e.seen.Keys
  {
    && SameAt(d.versions, e.versions, k) && SameAt(d.values, e.values, k)
    && forall n | n in d.seen :: SameAt(d.seen[n], e.seen[n], k)
  }

  ghost predicate Keeps<V(!new)>(g: Graph, d: Data<V>, e: Data<V>) {
    && (forall n | IsName(n) :: KeepsNode(g, d, e, n))
    && LeavesRest(g, d, e)
  }

  /** One entry of `versions_seen` with key `k` merged into `newK`. */
  function MergedSeen(ss: map<Key, nat>, k: Key, newK: Key): map<Key, nat> {
    if k in ss then
      var rest := ss - {k};
      rest[newK := if newK in rest then Max(ss[k], rest[newK]) else ss[k]]
    else ss
  }

  /** The same for the entries of a node and of the interrupt pseudo-node. */
  function SeenAfter(seen: map<NodeName, map<Key, nat>>, n: NodeName, k: Key): map<NodeName, map<Key, nat>> {
    var s := if n in seen then seen[n := MergedSeen(seen[n], k, NewKey(n))] else seen;
    if INTERRUPT in s then s[INTERRUPT := MergedSeen(s[INTERRUPT], k, NewKey(n))] else s
  }

  /** Channel `k` merged into the new key of the one node it names. */
  function Moved<V>(d: Data<V>, k: Key, n: NodeName): Data<V>
    requires k in d.versions
  {
    var newK, rest := NewKey(n), d.versions - {k};
    Data(rest[newK := if newK in d.versions then Max(d.versions[newK], d.versions[k]) else d.versions[k]],
         SeenAfter(d.seen, n, k),
         if newK !in d.values && k in d.values then (d.values - {k})[newK := d.values[k]] else d.values)
  }

  // ---------------------------------------------------------------------
  // One key of the first two layouts
  // ---------------------------------------------------------------------

  /** Key `k` names node `n`, in the `start:` or the `branch:` layout. */
  ghost predicate Names(g: Graph, k: Key, n: NodeName) {
    n in g.nodes && (StartTarget(k) == Some(n) || BranchTarget(k) == Some(n))
  }

  lemma MovedReached<V>(g: Graph, d: Data<V>, k: Key, n: NodeName, m: NodeName, b: nat)
    requires WellNamed(g) && Names(g, k, n) && k in d.versions && IsName(m)
    ensures Reached(g, Moved(d, k, n), m, b) <==> Reached(g, d, m, b)
  {
    var e, newK := Moved(d, k, n), NewKey(n);
    NamedKeyTriggers(g, n, k, m);
    NewKeyTriggers(g, n, m);
    if Reached(g, d, m, b) {
      var j :| j in d.versions && Trigger(g, m, j) && b <= d.versions[j];
      var i := if j == k then newK else j;
      assert i in e.versions && Trigger(g, m, i) && b <= e.versions[i];
    }
    if Reached(g, e, m, b) {
      var j :| j in e.versions && Trigger(g, m, j) && b <= e.versions[j];
      var i := if j == newK && !(newK in d.versions && b <= d.versions[newK]) then k else j;
      assert i in d.versions && Trigger(g, m, i) && b <= d.versions[i];
    }
  }

  lemma MovedCounted<V>(g: Graph, d: Data<V>, k: Key, n: NodeName, m: NodeName)
    requires WellNamed(g) && Names(g, k, n) && k in d.versions && IsName(m)
    ensures forall j :: Counted(g, Moved(d, k, n), m, j) <==> Counted(g, d, m, j) && j != k
    ensures Counted(g, d, m, k) <==> m == n
    ensures Counted(g, d, n, NewKey(n)) && (Counted(g, d, m, NewKey(n)) ==> m == n)
  {
    NamedKeyTriggers(g, n, k, m);
    NamedKeyTriggers(g, n, k, n);
    NewKeyTriggers(g, n, m);
  }

  lemma SeenOfName(seen: map<NodeName, map<Key, nat>>, n: NodeName, k: Key, m: NodeName)
    requires IsName(m)
    ensures m in SeenAfter(seen, n, k) <==> m in seen
    ensures m in seen ==> SeenAfter(seen, n, k)[m] == if m == n then MergedSeen(seen[m], k, NewKey(n)) else seen[m]
  {
  }

  /** Merging one key of a seen entry into another keeps what the two together had reached. */
  lemma MergedSeenHas(ss: map<Key, nat>, k: Key, newK: Key, b: nat)
    requires k != newK
    ensures var t := MergedSeen(ss, k, newK);
            && k !in t
            && (newK in t && b <= t[newK] <==> (k in ss && b <= ss[k]) || (newK in ss && b <= ss[newK]))
            && forall j | j != k && j != newK :: (j in t <==> j in ss) && (j in ss ==> t[j] == ss[j])
  {
  }

  lemma MovedHasSeen<V>(g: Graph, d: Data<V>, k: Key, n: NodeName, m: NodeName, b: nat)
    requires WellNamed(g) && Names(g, k, n) && k in d.versions && IsName(m)
    ensures HasSeen(g, Moved(d, k, n), m, b) <==> HasSeen(g, d, m, b)
  {
    var e, newK := Moved(d, k, n), NewKey(n);
    MovedCounted(g, d, k, n, m);
    NamedKeyTriggers(g, n, k, n);
    SeenOfName(d.seen, n, k, m);
    if m in d.seen {
      MergedSeenHas(d.seen[m], k, newK, b);
      if HasSeen(g, d, m, b) {
        var j :| j in d.seen[m] && Counted(g, d, m, j) && b <= d.seen[m][j];
        var i := if j == k then newK else j;
        assert i in e.seen[m] && Counted(g, e, m, i) && b <= e.seen[m][i];
      }
      if HasSeen(g, e, m, b) {
        var j :| j in e.seen[m] && Counted(g, e, m, j) && b <= e.seen[m][j];
        var i := if m == n && j == newK && k in d.seen[m] && b <= d.seen[m][k] then k else j;
        assert i in d.seen[m] && Counted(g, d, m, i) && b <= d.seen[m][i];
      }
    }
  }

  lemma MovedCarries<V(!new)>(g: Graph, d: Data<V>, k: Key, n: NodeName, m: NodeName)
    requires WellNamed(g) && Names(g, k, n) && k in d.versions && IsName(m)
    ensures forall x :: Carries(g, Moved(d, k, n), m, x) ==> Carries(g, d, m, x)
    ensures CarriesAny(g, Moved(d, k, n), m) <==> CarriesAny(g, d, m)
  {
    var e, newK := Moved(d, k, n), NewKey(n);
    MovedCounted(g, d, k, n, m);
    forall x | Carries(g, e, m, x) ensures Carries(g, d, m, x) {
      var j :| j in e.values && Counted(g, e, m, j) && e.values[j] == x;
      var i := if j == newK && newK !in d.values then k else j;
      assert i in d.values && Counted(g, d, m, i) && d.values[i] == x;
    }
    if CarriesAny(g, d, m) {
      var j :| j in d.values && Counted(g, d, m, j);
      var i := if j == k then newK else j;
      assert i in e.values && Counted(g, e, m, i);
    }
    if CarriesAny(g, e, m) {
      var j :| j in e.values && Counted(g, e, m, j);
      var i := if j == newK && newK !in d.values then k else j;
      assert i in d.values && Counted(g, d, m, i);
    }
  }

  /** After one move `k` is gone and the only new key is that of its node, which is no old key. */
  lemma MovedKeys<V>(g: Graph, d: Data<V>, k: Key, n: NodeName)
    requires WellNamed(g) && Names(g, k, n) && k in d.versions
    ensures Moved(d, k, n).versions.Keys == d.versions.Keys - {k} + {NewKey(n)} && k != NewKey(n)
    ensures !NamedBy(g, StartTarget(NewKey(n))) && !NamedBy(g, BranchTarget(NewKey(n)))
    ensures NamedBy(g, StartTarget(k)) || NamedBy(g, BranchTarget(k))
  {
    NewKeyParts(n);
  }

  lemma SeenLeavesKey<V>(d: Data<V>, e: Data<V>, n: NodeName, k: Key, j: Key)
    requires e.seen == SeenAfter(d.seen, n, k) && j != k && j != NewKey(n)
    requires SameAt(d.versions, e.versions, j) && SameAt(d.values, e.values, j)
    ensures d.seen.Keys == e.seen.Keys && LeavesKey(d, e, j)
  {
  }

  lemma MovedLeaves<V(!new)>(g: Graph, d: Data<V>, k: Key, n: NodeName)
    requires WellNamed(g) && Names(g, k, n) && k in d.versions
    ensures LeavesRest(g, d, Moved(d, k, n))
  {
    var e := Moved(d, k, n);
    assert d.seen.Keys == e.seen.Keys;
    forall j | IsOther(g, j) ensures LeavesKey(d, e, j) {
      SeenLeavesKey(d, e, n, k, j);
    }
  }

  lemma LeavesTrans<V(!new)>(g: Graph, a: Data<V>, b: Data<V>, c: Data<V>)
    requires LeavesRest(g, a, b) && LeavesRest(g, b, c)
    ensures LeavesRest(g, a, c)
  {
    forall k | IsOther(g, k) ensures LeavesKey(a, c, k) {
      assert LeavesKey(a, b, k) && LeavesKey(b, c, k);
      forall n | n in a.seen ensures SameAt(a.seen[n], c.seen[n], k) {
        assert SameAt(a.seen[n], b.seen[n], k) && SameAt(b.seen[n], c.seen[n], k);
      }
    }
  }

  lemma MovedKeeps<V(!new)>(g: Graph, d: Data<V>, k: Key, n: NodeName)
    requires WellNamed(g) && Names(g, k, n) && k in d.versions
    ensures Keeps(g, d, Moved(d, k, n))
  {
    var e := Moved(d, k, n);
    MovedLeaves(g, d, k, n);
    forall m | IsName(m) ensures KeepsNode(g, d, e, m) {
      forall b: nat ensures Reached(g, e, m, b) <==> Reached(g, d, m, b) {
        MovedReached(g, d, k, n, m, b);
      }
      forall b: nat ensures HasSeen(g, e, m, b) <==> HasSeen(g, d, m, b) {
        MovedHasSeen(g, d, k, n, m, b);
      }
      MovedCarries(g, d, k, n, m);
      NewKeyParts(m);
    }
  }

  lemma KeepsTrans<V(!new)>(g: Graph, a: Data<V>, b: Data<V>, c: Data<V>)
    requires Keeps(g, a, b) && Keeps(g, b, c)
    ensures Keeps(g, a, c)
  {
    LeavesTrans(g, a, b, c);
    forall n | IsName(n) ensures KeepsNode(g, a, c, n) {
      assert KeepsNode(g, a, b, n) && KeepsNode(g, b, c, n);
    }
  }

  // ---------------------------------------------------------------------
  // One node channel of the third layout
  // ---------------------------------------------------------------------

  /** What a node channel, already taken out, passes on to one of the nodes it triggers. */
  function Passed<V>(d: Data<V>, k: Key, v: nat, c: Option<V>, end: NodeName): Data<V> {
    var newK := NewKey(end);
    Data(d.versions[newK := if newK in d.versions then Max(d.versions[newK], v) else v],
         SeenAfter(d.seen, end, k),
         if newK !in d.values && c.Some? then d.values[newK := c.value] else d.values)
  }

  /**
   * Half-way through: channel `k` with version `v` and value `c` is taken out, and the nodes in `rest`
   * have not yet received it. For the others nothing is lost or invented already.
   */
  ghost predicate Passing<V(!new)>(g: Graph, d: Data<V>, e: Data<V>, k: Key, v: nat, c: Option<V>, rest: set<NodeName>) {
    && k !in e.versions && k !in e.values
    && LeavesRest(g, d, e)
    && forall n | IsName(n) :: PassingNode(g, d, e, k, v, c, n in rest, n)
  }

  ghost predicate PassingNode<V(!new)>(g: Graph, d: Data<V>, e: Data<V>, k: Key, v: nat, c: Option<V>, waits: bool, n: NodeName) {
    && (forall b: nat :: Reached(g, d, n, b) <==> Reached(g, e, n, b) || (waits && b <= v))
    && (forall b: nat :: HasSeen(g, d, n, b) <==> HasSeen(g, e, n, b) || (waits && SawKey(e, n, k, b)))
    && (forall x :: Carries(g, e, n, x) || (waits && c == Some(x)) ==> Carries(g, d, n, x))
    && (CarriesAny(g, d, n) <==> CarriesAny(g, e, n) || (waits && c.Some?))
    && KeepsNewValue(d, e, n)
  }

  ghost predicate SawKey<V>(e: Data<V>, n: NodeName, k: Key, b: nat) {
    n in e.seen && k in e.seen[n] && b <= e.seen[n][k]
  }

  /** The channel taken out, before any node received it. */
  function TakenOut<V>(d: Data<V>, k: Key): Data<V> {
    Data(d.versions - {k}, d.seen, d.values - {k})
  }

  function ValueOf<V>(d: Data<V>, k: Key): Option<V> {
    if k in d.values then Some(d.values[k]) else None
  }

  /** The nodes a node channel triggers, by the edges out of it. */
  function Ends(g: Graph, k: Key): set<NodeName> {
    set e | e in g.edges && e.0 == k && e.1 != END :: e.1
  }

  lemma EndsFed(g: Graph, k: Key, n: NodeName)
    requires k in g.nodes && k != START
    ensures n in Ends(g, k) <==> FeedsByEdge(g, k, n)
  {
    assert (k, n) in g.edges && n != END ==> (k, n).1 in Ends(g, k);
  }

  lemma TakenOutPassing<V(!new)>(g: Graph, d: Data<V>, k: Key)
    requires WellNamed(g) && k in g.nodes && k != START && k in d.versions
    ensures Passing(g, d, TakenOut(d, k), k, d.versions[k], ValueOf(d, k), Ends(g, k))
  {
    var e, v, c := TakenOut(d, k), d.versions[k], ValueOf(d, k);
    forall n | IsName(n) ensures PassingNode(g, d, e, k, v, c, n in Ends(g, k), n) {
      NodeKeyTriggers(g, k, n);
      EndsFed(g, k, n);
      assert Counted(g, d, n, k) <==> n in Ends(g, k) by {
        NewKeyParts(n);
        NewKeyTriggers(g, n, n);
      }
      NewKeyTriggers(g, n, n);
      forall j ensures Counted(g, e, n, j) <==> Counted(g, d, n, j) && j != k {
      }
      TakenOutReached(g, d, k, n);
      TakenOutSeen(g, d, k, n);
      TakenOutCarries(g, d, k, n);
    }
  }

  lemma TakenOutReached<V>(g: Graph, d: Data<V>, k: Key, n: NodeName)
    requires k in d.versions
    ensures forall b: nat :: Reached(g, d, n, b) <==> Reached(g, TakenOut(d, k), n, b) || (Trigger(g, n, k) && b <= d.versions[k])
  {
  }

  lemma TakenOutSeen<V>(g: Graph, d: Data<V>, k: Key, n: NodeName)
    requires k in d.versions
    requires forall j :: Counted(g, TakenOut(d, k), n, j) <==> Counted(g, d, n, j) && j != k
    ensures forall b: nat :: HasSeen(g, d, n, b) <==>
              HasSeen(g, TakenOut(d, k), n, b) || (Counted(g, d, n, k) && SawKey(TakenOut(d, k), n, k, b))
  {
  }

  lemma TakenOutCarries<V(!new)>(g: Graph, d: Data<V>, k: Key, n: NodeName)
    requires k in d.versions
    requires forall j :: Counted(g, TakenOut(d, k), n, j) <==> Counted(g, d, n, j) && j != k
    ensures forall x :: Carries(g, d, n, x) <==>
              Carries(g, TakenOut(d, k), n, x) || (Counted(g, d, n, k) && ValueOf(d, k) == Some(x))
    ensures CarriesAny(g, d, n) <==> CarriesAny(g, TakenOut(d, k), n) || (Counted(g, d, n, k) && ValueOf(d, k).Some?)
  {
  }

  lemma PassedOthers<V(!new)>(g: Graph, e: Data<V>, k: Key, v: nat, c: Option<V>, end: NodeName, n: NodeName)
    requires WellNamed(g) && IsName(end) && IsName(n) && n != end
    ensures KeepsNode(g, e, Passed(e, k, v, c, end), n)
    ensures forall b: nat :: SawKey(Passed(e, k, v, c, end), n, k, b) <==> SawKey(e, n, k, b)
  {
    var t := Passed(e, k, v, c, end);
    NewKeyTriggers(g, end, n);
    SeenOfName(e.seen, end, k, n);
    forall j ensures Counted(g, t, n, j) <==> Counted(g, e, n, j) {
    }
    PassedOthersReached(g, e, k, v, c, end, n);
  }

  lemma PassedOthersReached<V>(g: Graph, e: Data<V>, k: Key, v: nat, c: Option<V>, end: NodeName, n: NodeName)
    requires !Trigger(g, n, NewKey(end))
    ensures forall b: nat :: Reached(g, Passed(e, k, v, c, end), n, b) <==> Reached(g, e, n, b)
  {
  }

  lemma PassedEnd<V(!new)>(g: Graph, e: Data<V>, k: Key, v: nat, c: Option<V>, end: NodeName)
    requires WellNamed(g) && IsName(end) && FeedsByEdge(g, k, end) && k !in e.versions && k !in e.values
    ensures var t := Passed(e, k, v, c, end);
            && (forall b: nat :: Reached(g, t, end, b) <==> Reached(g, e, end, b) || b <= v)
            && (forall b: nat :: HasSeen(g, t, end, b) <==> HasSeen(g, e, end, b) || SawKey(e, end, k, b))
            && (forall x :: Carries(g, t, end, x) ==> Carries(g, e, end, x) || c == Some(x))
            && (CarriesAny(g, t, end) <==> CarriesAny(g, e, end) || c.Some?)
  {
    var t, newK := Passed(e, k, v, c, end), NewKey(end);
    NewKeyTriggers(g, end, end);
    assert k != newK && !Counted(g, e, end, k);
    assert forall j :: Counted(g, t, end, j) <==> Counted(g, e, end, j);
    assert Counted(g, e, end, newK);
    forall b: nat ensures Reached(g, t, end, b) <==> Reached(g, e, end, b) || b <= v {
      if b <= v {
        assert newK in t.versions && b <= t.versions[newK];
      } else if Reached(g, e, end, b) {
        var j :| j in e.versions && Trigger(g, end, j) && b <= e.versions[j];
        assert j in t.versions && b <= t.versions[j];
      }
    }
    forall b: nat ensures HasSeen(g, t, end, b) <==> HasSeen(g, e, end, b) || SawKey(e, end, k, b) {
      PassedEndSeen(g, e, k, v, c, end, b);
    }
    if CarriesAny(g, e, end) || c.Some? {
      assert CarriesAny(g, t, end) by {
        if c.Some? {
          assert newK in t.values;
        } else {
          var j :| j in e.values && Counted(g, e, end, j);
          assert j in t.values;
        }
      }
    }
  }

  lemma PassedEndSeen<V>(g: Graph, e: Data<V>, k: Key, v: nat, c: Option<V>, end: NodeName, b: nat)
    requires IsName(end) && k != NewKey(end) && !Counted(g, e, end, k) && Counted(g, e, end, NewKey(end))
    requires forall j :: Counted(g, Passed(e, k, v, c, end), end, j) <==> Counted(g, e, end, j)
    ensures HasSeen(g, Passed(e, k, v, c, end), end, b) <==> HasSeen(g, e, end, b) || SawKey(e, end, k, b)
  {
    var t, newK := Passed(e, k, v, c, end), NewKey(end);
    SeenOfName(e.seen, end, k, end);
    if end in e.seen {
      MergedSeenHas(e.seen[end], k, newK, b);
      if HasSeen(g, e, end, b) {
        var j :| j in e.seen[end] && Counted(g, e, end, j) && b <= e.seen[end][j];
        assert j in t.seen[end] && b <= t.seen[end][j];
      }
      if SawKey(e, end, k, b) {
        assert newK in t.seen[end] && b <= t.seen[end][newK];
      }
      if HasSeen(g, t, end, b) && !SawKey(e, end, k, b) {
        var j :| j in t.seen[end] && Counted(g, t, end, j) && b <= t.seen[end][j];
        assert j in e.seen[end] && b <= e.seen[end][j];
      }
    }
  }

  lemma PassedLeaves<V(!new)>(g: Graph, e: Data<V>, k: Key, v: nat, c: Option<V>, end: NodeName)
    requires WellNamed(g) && IsName(end) && FeedsByEdge(g, k, end)
    ensures LeavesRest(g, e, Passed(e, k, v, c, end))
  {
    var t := Passed(e, k, v, c, end);
    assert e.seen.Keys == t.seen.Keys;
    forall j | IsOther(g, j) ensures LeavesKey(e, t, j) {
      SeenLeavesKey(e, t, end, k, j);
    }
  }

  lemma PassedStep<V(!new)>(g: Graph, d: Data<V>, e: Data<V>, k: Key, v: nat, c: Option<V>, rest: set<NodeName>, end: NodeName)
    requires WellNamed(g) && Passing(g, d, e, k, v, c, rest)
    requires end in rest && IsName(end) && FeedsByEdge(g, k, end)
    ensures Passing(g, d, Passed(e, k, v, c, end), k, v, c, rest - {end})
  {
    var t := Passed(e, k, v, c, end);
    NewKeyTriggers(g, end, end);
    PassedLeaves(g, e, k, v, c, end);
    LeavesTrans(g, d, e, t);
    PassedEnd(g, e, k, v, c, end);
    forall n | IsName(n) ensures PassingNode(g, d, t, k, v, c, n in rest - {end}, n) {
      assert PassingNode(g, d, e, k, v, c, n in rest, n);
      if n != end {
        PassedOthers(g, e, k, v, c, end, n);
      }
    }
  }

  // ---------------------------------------------------------------------
  // The migration
  // ---------------------------------------------------------------------

  /** No channel of an old layout is left. */
  ghost predicate Settled<V>(g: Graph, d: Data<V>) {
    forall k | k in d.versions ::
      !NamedBy(g, StartTarget(k)) && !NamedBy(g, BranchTarget(k)) && !(k in g.nodes && k != START)
  }

  class Checkpoint<V(!new)> {
    var v: nat
    var versions: map<Key, nat>
    var seen: map<NodeName, map<Key, nat>>
    var values: map<Key, V>

    constructor (v: nat, data: Data<V>)
      ensures this.v == v && Current() == data
    {
      this.v, versions, seen, values := v, data.versions, data.seen, data.values;
    }

    ghost function Current(): Data<V>
      reads this
    {
      Data(versions, seen, values)
    }

    /** The part of `versions_seen` for a node, or for the interrupts, gets key `k` renamed. */
    method UpdateSeen(who: NodeName, k: Key, newK: Key)
      modifies this`seen
      ensures seen == if who in old(seen) then old(seen)[who := MergedSeen(old(seen)[who], k, newK)] else old(seen)
    {
      if who in seen {
        var ss := seen[who];
        if k in ss {
          var s := ss[k];
          ss := ss - {k};
          if newK in ss {
            ss := ss[newK := Max(s, ss[newK])];
          } else {
            ss := ss[newK := s];
          }
        }
        seen := seen[who := ss];
      }
    }

    /** The body of the first two phases: channel `k` becomes the new channel of the node it names. */
    method MoveTrigger(k: Key, node: NodeName)
      requires k in versions && k != NewKey(node)
      modifies this`versions, this`seen, this`values
      ensures Current() == Moved(old(Current()), k, node)
    {
      var newK := NewKey(node);
      var newV := if newK in versions then Max(versions[newK], versions[k]) else versions[k];
      versions := versions - {k};
      UpdateSeen(node, k, newK);
      UpdateSeen(INTERRUPT, k, newK);
      if newK !in values && k in values {
        var x := values[k];
        values := (values - {k})[newK := x];
      }
      versions := versions[newK := newV];
    }

    method MigrateStartKeys(g: Graph)
      requires WellNamed(g)
      modifies this`versions, this`seen, this`values
      ensures Keeps(g, old(Current()), Current())
      ensures forall k | k in versions :: !NamedBy(g, StartTarget(k))
      ensures Settled(g, old(Current())) ==> Current() == old(Current())
    {
      ghost var before := Current();
      var keys := versions.Keys;
      while keys != {}
        invariant keys <= versions.Keys
        invariant Keeps(g, before, Current())
        invariant forall k | k in versions && NamedBy(g, StartTarget(k)) :: k in keys
        invariant Settled(g, before) ==> Current() == before
        decreases keys
      {
        var k :| k in keys;
        keys := keys - {k};
        var target := StartTarget(k);
        if target.Some? && target.value in g.nodes {
          ghost var d := Current();
          MovedKeys(g, d, k, target.value);
          MovedKeeps(g, d, k, target.value);
          MoveTrigger(k, target.value);
          KeepsTrans(g, before, d, Current());
        }
      }
    }

    method MigrateBranchKeys(g: Graph)
      requires WellNamed(g)
      requires forall k | k in versions :: !NamedBy(g, StartTarget(k))
      modifies this`versions, this`seen, this`values
      ensures Keeps(g, old(Current()), Current())
      ensures forall k | k in versions :: !NamedBy(g, StartTarget(k)) && !NamedBy(g, BranchTarget(k))
      ensures Settled(g, old(Current())) ==> Current() == old(Current())
    {
      ghost var before := Current();
      var keys := versions.Keys;
      while keys != {}
        invariant keys <= versions.Keys
        invariant Keeps(g, before, Current())
        invariant forall k | k in versions :: !NamedBy(g, StartTarget(k))
        invariant forall k | k in versions && NamedBy(g, BranchTarget(k)) :: k in keys
        invariant Settled(g, before) ==> Current() == before
        decreases keys
      {
        var k :| k in keys;
        keys := keys - {k};
        var target := BranchTarget(k);
        if target.Some? && target.value in g.nodes {
          ghost var d := Current();
          MovedKeys(g, d, k, target.value);
          MovedKeeps(g, d, k, target.value);
          MoveTrigger(k, target.value);
          KeepsTrans(g, before, d, Current());
        }
      }
    }

    /** One node receives a channel that was taken out. */
    method PassOn(k: Key, version: nat, c: Option<V>, end: NodeName)
      modifies this`versions, this`seen, this`values
      ensures Current() == Passed(old(Current()), k, version, c, end)
    {
      var newK := NewKey(end);
      var newV := if newK in versions then Max(versions[newK], version) else version;
      UpdateSeen(end, k, newK);
      UpdateSeen(INTERRUPT, k, newK);
      if newK !in values && c.Some? {
        values := values[newK := c.value];
      }
      versions := versions[newK := newV];
    }

    /** The body of the third phase: a node's own channel is handed on along the node's edges. */
    method SpreadNode(g: Graph, k: Key)
      requires WellNamed(g) && k in g.nodes && k != START && k in versions
      modifies this`versions, this`seen, this`values
      ensures Keeps(g, old(Current()), Current())
      ensures k !in versions && old(versions.Keys) - {k} <= versions.Keys
      ensures forall j | j in versions && j !in old(versions) :: exists end | end in Ends(g, k) :: j == NewKey(end)
    {
      ghost var before := Current();
      var version := versions[k];
      var c := if k in values then Some(values[k]) else None;
      versions := versions - {k};
      values := values - {k};
      TakenOutPassing(g, before, k);
      var rest := Ends(g, k);
      while rest != {}
        invariant rest <= Ends(g, k)
        invariant Passing(g, before, Current(), k, version, c, rest)
        invariant before.versions.Keys - {k} <= versions.Keys
        invariant forall j | j in versions && j !in before.versions :: exists end | end in Ends(g, k) :: j == NewKey(end)
        decreases rest
      {
        var end :| end in rest;
        EndsFed(g, k, end);
        PassedStep(g, before, Current(), k, version, c, rest, end);
        PassOn(k, version, c, end);
        rest := rest - {end};
      }
      ghost var d := Current();
      if INTERRUPT in seen {
        seen := seen[INTERRUPT := seen[INTERRUPT] - {k}];
      }
      PassingDone(g, before, d, Current(), k, version, c);
    }

    method MigrateNodeKeys(g: Graph)
      requires WellNamed(g)
      requires forall k | k in versions :: !NamedBy(g, StartTarget(k)) && !NamedBy(g, BranchTarget(k))
      modifies this`versions, this`seen, this`values
      ensures Keeps(g, old(Current()), Current()) && Settled(g, Current())
      ensures Settled(g, old(Current())) ==> Current() == old(Current())
    {
      ghost var before := Current();
      if versions.Keys !! g.nodes {
        return;
      }
      var keys := versions.Keys;
      while keys != {}
        invariant keys <= versions.Keys
        invariant Keeps(g, before, Current())
        invariant forall k | k in versions :: !NamedBy(g, StartTarget(k)) && !NamedBy(g, BranchTarget(k))
        invariant forall k | k in versions && k in g.nodes && k != START :: k in keys
        invariant Settled(g, before) ==> Current() == before
        decreases keys
      {
        var k :| k in keys;
        keys := keys - {k};
        if k != START && k in g.nodes {
          ghost var d := Current();
          SpreadNode(g, k);
          KeepsTrans(g, before, d, Current());
          forall j | j in versions && j !in d.versions
            ensures !NamedBy(g, StartTarget(j)) && !NamedBy(g, BranchTarget(j)) && j !in g.nodes
          {
            var end :| end in Ends(g, k) && j == NewKey(end);
            EndsFed(g, k, end);
            NewKeyParts(end);
            NewKeyTriggers(g, end, end);
          }
        }
      }
    }

    /** The whole migration. A checkpoint of a current version, or a settled one, is left as it is. */
    method Migrate(g: Graph)
      requires WellNamed(g)
      modifies this`versions, this`seen, this`values
      ensures v < 3 ==> Keeps(g, old(Current()), Current()) && Settled(g, Current())
      ensures v >= 3 || Settled(g, old(Current())) ==> Current() == old(Current())
    {
      ghost var before := Current();
      if versions == map[] {
        return;
      }
      if v >= 3 {
        return;
      }
      MigrateStartKeys(g);
      ghost var started := Current();
      MigrateBranchKeys(g);
      KeepsTrans(g, before, started, Current());
      ghost var branched := Current();
      MigrateNodeKeys(g);
      KeepsTrans(g, before, branched, Current());
    }
  }

  lemma InterruptIrrelevant<V(!new)>(g: Graph, d: Data<V>, e: Data<V>, n: NodeName)
    requires IsName(n) && e.versions == d.versions && e.values == d.values
    requires (n in d.seen <==> n in e.seen) && (n in d.seen ==> e.seen[n] == d.seen[n])
    ensures KeepsNode(g, d, e, n)
  {
    assert forall k :: Counted(g, d, n, k) <==> Counted(g, e, n, k);
  }

  lemma PassingDone<V(!new)>(g: Graph, before: Data<V>, d: Data<V>, e: Data<V>, k: Key, v: nat, c: Option<V>)
    requires Passing(g, before, d, k, v, c, {})
    requires k in g.nodes && k != START
    requires d.seen.Keys == e.seen.Keys
    requires forall j, n | n in d.seen && j != k :: SameAt(d.seen[n], e.seen[n], j)
    requires e.versions == d.versions && e.values == d.values
    requires forall n | IsName(n) :: (n in d.seen <==> n in e.seen) && (n in d.seen ==> e.seen[n] == d.seen[n])
    ensures Keeps(g, before, e)
  {
    assert forall j | IsOther(g, j) :: LeavesKey(d, e, j);
    LeavesTrans(g, before, d, e);
    forall n | IsName(n) ensures KeepsNode(g, before, e, n) {
      assert PassingNode(g, before, d, k, v, c, n in {}, n);
      InterruptIrrelevant(g, d, e, n);
    }
  }

  /** Migrating a second time changes nothing. */
  method MigrateTwice<V(!new)>(g: Graph, v: nat, data: Data<V>) returns (once: Data<V>, twice: Data<V>)
    requires WellNamed(g)
    ensures once == twice
    ensures v < 3 ==> Keeps(g, data, once) && Settled(g, once)
    ensures v >= 3 ==> once == data
  {
    var c := new Checkpoint(v, data);
    c.Migrate(g);
    once := Data(c.versions, c.seen, c.values);
    c.Migrate(g);
    twice := Data(c.versions, c.seen, c.values);
  }

  // ---------------------------------------------------------------------
  // What is kept
  // ---------------------------------------------------------------------

  /** `m` is the greatest of the versions of `n`'s trigger channels. */
  ghost predicate IsNewest<V>(g: Graph, d: Data<V>, n: NodeName, m: nat) {
    && (exists k | k in d.versions && Trigger(g, n, k) :: d.versions[k] == m)
    && forall k | k in d.versions && Trigger(g, n, k) :: d.versions[k] <= m
  }

  ghost predicate IsNewestSeen<V>(g: Graph, d: Data<V>, n: NodeName, m: nat) {
    && n in d.seen
    && (exists k | k in d.seen[n] && Counted(g, d, n, k) :: d.seen[n][k] == m)
    && forall k | k in d.seen[n] && Counted(g, d, n, k) :: d.seen[n][k] <= m
  }

  lemma SettledTriggers<V>(g: Graph, e: Data<V>, n: NodeName)
    requires WellNamed(g) && IsName(n) && Settled(g, e)
    ensures forall k | k in e.versions && Trigger(g, n, k) :: k == NewKey(n)
    ensures forall k | Counted(g, e, n, k) :: k == NewKey(n)
    ensures Counted(g, e, n, NewKey(n))
  {
  }

  /**
   * After the migration a node's one trigger channel has the greatest version its channels had, the node
   * has seen of it the greatest it had seen of them, and it holds one of their values if there was any.
   */
  lemma MigratedIsMaximum<V(!new)>(g: Graph, d: Data<V>, e: Data<V>, n: NodeName)
    requires WellNamed(g) && IsName(n) && Keeps(g, d, e) && Settled(g, e)
    ensures NewKey(n) in e.versions <==> exists k :: k in d.versions && Trigger(g, n, k)
    ensures NewKey(n) in e.versions ==> IsNewest(g, d, n, e.versions[NewKey(n)])
    ensures n in e.seen && NewKey(n) in e.seen[n] <==> n in d.seen && exists k :: k in d.seen[n] && Counted(g, d, n, k)
    ensures n in e.seen && NewKey(n) in e.seen[n] ==> IsNewestSeen(g, d, n, e.seen[n][NewKey(n)])
    ensures NewKey(n) in e.values <==> CarriesAny(g, d, n)
    ensures NewKey(n) in e.values ==> Carries(g, d, n, e.values[NewKey(n)])
    ensures NewKey(n) in d.values ==> e.values[NewKey(n)] == d.values[NewKey(n)]
  {
    assert KeepsNode(g, d, e, n);
    SettledTriggers(g, e, n);
    var newK := NewKey(n);
    if k :| k in d.versions && Trigger(g, n, k) {
      assert Reached(g, d, n, d.versions[k]) && Reached(g, e, n, d.versions[k]);
    }
    if newK in e.versions {
      MaximumReached(g, d, e, n);
    }
    SeenIffSeen(g, d, e, n);
    if n in e.seen && newK in e.seen[n] {
      MaximumSeen(g, d, e, n);
    }
    if newK in e.values {
      assert Carries(g, e, n, e.values[newK]);
    }
  }

  lemma MaximumReached<V(!new)>(g: Graph, d: Data<V>, e: Data<V>, n: NodeName)
    requires WellNamed(g) && IsName(n) && KeepsNode(g, d, e, n) && Settled(g, e) && NewKey(n) in e.versions
    ensures IsNewest(g, d, n, e.versions[NewKey(n)])
  {
    SettledTriggers(g, e, n);
    var m := e.versions[NewKey(n)];
    assert Reached(g, e, n, m) && Reached(g, d, n, m) && !Reached(g, e, n, m + 1);
    forall k | k in d.versions && Trigger(g, n, k) ensures d.versions[k] <= m {
      assert Reached(g, d, n, d.versions[k]);
    }
    var k :| k in d.versions && Trigger(g, n, k) && m <= d.versions[k];
    assert d.versions[k] == m;
  }

  lemma SeenIffSeen<V(!new)>(g: Graph, d: Data<V>, e: Data<V>, n: NodeName)
    requires WellNamed(g) && IsName(n) && KeepsNode(g, d, e, n) && Settled(g, e)
    ensures n in e.seen && NewKey(n) in e.seen[n] <==> n in d.seen && exists k :: k in d.seen[n] && Counted(g, d, n, k)
  {
    SettledTriggers(g, e, n);
    assert HasSeen(g, e, n, 0) <==> HasSeen(g, d, n, 0);
    assert HasSeen(g, e, n, 0) <==> n in e.seen && NewKey(n) in e.seen[n];
  }

  lemma MaximumSeen<V(!new)>(g: Graph, d: Data<V>, e: Data<V>, n: NodeName)
    requires WellNamed(g) && IsName(n) && KeepsNode(g, d, e, n) && Settled(g, e)
    requires n in e.seen && NewKey(n) in e.seen[n]
    ensures IsNewestSeen(g, d, n, e.seen[n][NewKey(n)])
  {
    SettledTriggers(g, e, n);
    var m := e.seen[n][NewKey(n)];
    assert HasSeen(g, e, n, m) && HasSeen(g, d, n, m);
    forall k | k in d.seen[n] && Counted(g, d, n, k) ensures d.seen[n][k] <= m {
      assert HasSeen(g, d, n, d.seen[n][k]);
    }
    var k :| k in d.seen[n] && Counted(g, d, n, k) && m <= d.seen[n][k];
    assert d.seen[n][k] == m;
  }

  /** The version of a channel a node has recorded, the null version 0 where it recorded none. */
  ghost function SeenOf<V>(d: Data<V>, n: NodeName, k: Key): nat {
    if n in d.seen && k in d.seen[n] then d.seen[n][k] else 0
  }

  /** Some trigger channel of `n` is newer than what `n` has seen of it. */
  ghost predicate Pending<V>(g: Graph, d: Data<V>, n: NodeName) {
    exists k | k in d.versions && Trigger(g, n, k) :: SeenOf(d, n, k) < d.versions[k]
  }

  /** Some trigger channel of `n` is newer than everything `n` has seen of its trigger channels. */
  ghost predicate NewerThanAllSeen<V>(g: Graph, d: Data<V>, n: NodeName, k: Key)
    requires k in d.versions
  {
    0 < d.versions[k] && !HasSeen(g, d, n, d.versions[k])
  }

  /** When a node is due after the migration, in terms of the old channels. */
  lemma PendingAfter<V(!new)>(g: Graph, d: Data<V>, e: Data<V>, n: NodeName)
    requires WellNamed(g) && IsName(n) && Keeps(g, d, e) && Settled(g, e)
    ensures Pending(g, e, n) <==> exists k | k in d.versions && Trigger(g, n, k) :: NewerThanAllSeen(g, d, n, k)
  {
    assert KeepsNode(g, d, e, n);
    SettledTriggers(g, e, n);
    var newK := NewKey(n);
    if Pending(g, e, n) {
      MaximumReached(g, d, e, n);
      var k :| k in d.versions && Trigger(g, n, k) && d.versions[k] == e.versions[newK];
      assert !HasSeen(g, e, n, e.versions[newK]);
      assert NewerThanAllSeen(g, d, n, k);
    }
    if k :| k in d.versions && Trigger(g, n, k) && NewerThanAllSeen(g, d, n, k) {
      assert Reached(g, d, n, d.versions[k]) && Reached(g, e, n, d.versions[k]);
      assert !HasSeen(g, e, n, d.versions[k]);
      assert SeenOf(e, n, newK) < e.versions[newK];
    }
  }

  /** By versions alone, the migration leaves no channel newer than what its node has seen that had none before. */
  lemma NoPendingInvented<V(!new)>(g: Graph, d: Data<V>, e: Data<V>, n: NodeName)
    requires WellNamed(g) && IsName(n) && Keeps(g, d, e) && Settled(g, e) && Pending(g, e, n)
    ensures Pending(g, d, n)
  {
    PendingAfter(g, d, e, n);
    var k :| k in d.versions && Trigger(g, n, k) && NewerThanAllSeen(g, d, n, k);
    assert Counted(g, d, n, k);
    assert SeenOf(d, n, k) < d.versions[k];
  }

  /** An unseen version exceeds every version the node has recorded, as the scheduler's rising versions ensure. */
  ghost predicate UnseenIsNewest<V>(g: Graph, d: Data<V>, n: NodeName) {
    forall k | k in d.versions && Trigger(g, n, k) && SeenOf(d, n, k) < d.versions[k] ::
      !HasSeen(g, d, n, d.versions[k])
  }

  /** Under rising versions a node has a newer channel after the migration exactly when it had one before. */
  lemma PendingPreserved<V(!new)>(g: Graph, d: Data<V>, e: Data<V>, n: NodeName)
    requires WellNamed(g) && IsName(n) && Keeps(g, d, e) && Settled(g, e) && UnseenIsNewest(g, d, n)
    ensures Pending(g, e, n) <==> Pending(g, d, n)
  {
    PendingAfter(g, d, e, n);
    if Pending(g, e, n) {
      NoPendingInvented(g, d, e, n);
    }
    if k :| k in d.versions && Trigger(g, n, k) && SeenOf(d, n, k) < d.versions[k] {
      assert NewerThanAllSeen(g, d, n, k);
    }
  }

  // ---------------------------------------------------------------------
  // The old layouts, spelled out
  // ---------------------------------------------------------------------

  /** The start channel of a node, which may have more after the name, and a branch channel that leads to it. */
  function StartKey(n: NodeName): Key {
    "start" + ":" + n
  }

  function LongStartKey(n: NodeName, more: string): Key {
    "start" + ":" + (n + ":" + more)
  }

  function BranchKey(source: string, condition: string, n: NodeName): Key {
    "branch" + ":" + (source + ":" + (condition + ":" + n))
  }

  /** A channel leads to a node: by its name, or along an edge of the graph. */
  ghost predicate LeadsTo(g: Graph, k: Key, n: NodeName) {
    || (n in g.nodes &&
        (|| k == StartKey(n)
         || (exists more :: k == LongStartKey(n, more))
         || (exists s, c :: ':' !in s && ':' !in c && k == BranchKey(s, c, n))))
    || (k in g.nodes && k != "__start__" && n != "__end__" && (k, n) in g.edges)
  }

  lemma StartKeyNames(n: NodeName)
    requires IsName(n)
    ensures StartTarget(StartKey(n)) == Some(n)
  {
    PartsOfName("start", n);
    PartsOfName(n, "");
  }

  lemma LongStartKeyNames(n: NodeName, more: string)
    requires IsName(n)
    ensures StartTarget(LongStartKey(n, more)) == Some(n)
  {
    PartsOfName("start", n + ":" + more);
    PartsOfName(n, more);
  }

  lemma {:induction false} FourParts(a: string, b: string, c: string, n: string)
    requires ':' !in a && ':' !in b && ':' !in c && ':' !in n
    ensures Parts(a + ":" + (b + ":" + (c + ":" + n))) == [a, b, c, n]
  {
    var last := c + ":" + n;
    PartsOfName(n, "");
    PartsOfName(c, n);
    PartsOfName(b, last);
    PartsOfName(a, b + ":" + last);
  }

  lemma BranchKeyNames(s: string, c: string, n: NodeName)
    requires IsName(n) && ':' !in s && ':' !in c
    ensures BranchTarget(BranchKey(s, c, n)) == Some(n)
  {
    FourParts("branch", s, c, n);
  }

  function Colons(parts: seq<string>): string
    requires parts != []
  {
    if |parts| == 1 then parts[0] else parts[0] + ":" + Colons(parts[1..])
  }

  /** Splitting at the colons loses nothing, and no part holds one. */
  lemma {:induction false} PartsJoined(k: Key)
    ensures Colons(Parts(k)) == k && forall i | 0 <= i < |Parts(k)| :: ':' !in Parts(k)[i]
  {
    if k == [] {
    } else {
      var rest := Parts(k[1..]);
      PartsJoined(k[1..]);
      assert k == [k[0]] + k[1..];
      if k[0] == ':' {
        assert ([""] + rest)[1..] == rest;
      } else {
        var parts := [[k[0]] + rest[0]] + rest[1..];
        assert parts[1..] == rest[1..];
        assert forall i | 0 < i < |parts| :: parts[i] == rest[i];
      }
    }
  }

  lemma StartTargetSpelled(k: Key, n: NodeName)
    requires StartTarget(k) == Some(n)
    ensures k == StartKey(n) || exists more :: k == LongStartKey(n, more)
  {
    var parts := Parts(k);
    PartsJoined(k);
    assert Colons(parts) == "start" + ":" + Colons(parts[1..]);
    if |parts| > 2 {
      var more := Colons(parts[1..][1..]);
      assert k == LongStartKey(n, more);
    }
  }

  lemma BranchTargetSpelled(k: Key, n: NodeName)
    requires BranchTarget(k) == Some(n)
    ensures exists s, c :: ':' !in s && ':' !in c && k == BranchKey(s, c, n)
  {
    var parts := Parts(k);
    PartsJoined(k);
    assert parts[1..][1..][1..] == [n] && parts[1..][0] == parts[1] && parts[1..][1..][0] == parts[2];
    assert Colons(parts[1..]) == parts[1] + ":" + Colons(parts[1..][1..]);
    assert Colons(parts[1..][1..]) == parts[2] + ":" + Colons([n]);
    assert k == BranchKey(parts[1], parts[2], n);
  }

  /** The triggers of the old layouts are exactly the channels that lead to the node. */
  lemma OldTriggerSpelled(g: Graph, n: NodeName, k: Key)
    requires IsName(n)
    ensures OldTrigger(g, n, k) <==> LeadsTo(g, k, n)
  {
    StartKeyNames(n);
    if StartTarget(k) == Some(n) {
      StartTargetSpelled(k, n);
    }
    if BranchTarget(k) == Some(n) {
      BranchTargetSpelled(k, n);
    }
    if more :| k == LongStartKey(n, more) {
      LongStartKeyNames(n, more);
    }
    if s, c :| ':' !in s && ':' !in c && k == BranchKey(s, c, n) {
      BranchKeyNames(s, c, n);
    }
  }

  /** What a channel that leads to a node had reached, had been seen to and held, is handed on to the node's new key. */
  lemma HandedOn<V(!new)>(g: Graph, d: Data<V>, e: Data<V>, k: Key, n: NodeName)
    requires WellNamed(g) && IsName(n) && Keeps(g, d, e) && Settled(g, e)
    requires k in d.versions && LeadsTo(g, k, n)
    ensures NewKey(n) in e.versions && d.versions[k] <= e.versions[NewKey(n)]
    ensures k in d.values ==> NewKey(n) in e.values
    ensures n in d.seen && k in d.seen[n] ==>
              n in e.seen && NewKey(n) in e.seen[n] && d.seen[n][k] <= e.seen[n][NewKey(n)]
  {
    OldTriggerSpelled(g, n, k);
    assert Trigger(g, n, k) && Counted(g, d, n, k);
    MigratedIsMaximum(g, d, e, n);
  }

  /** Along an edge in particular. */
  lemma HandedOnAlongEdge<V(!new)>(g: Graph, d: Data<V>, e: Data<V>, k: NodeName, n: NodeName)
    requires WellNamed(g) && Keeps(g, d, e) && Settled(g, e)
    requires (k, n) in g.edges && k in g.nodes && k != START && n != END && k in d.versions
    ensures NewKey(n) in e.versions && d.versions[k] <= e.versions[NewKey(n)]
    ensures k in d.values ==> NewKey(n) in e.values
    ensures k !in e.versions
  {
    HandedOn(g, d, e, k, n);
  }

  /**
   * Nothing else is: version, seen entry and value of a new key are those it had, or those of channels that
   * lead to its node.
   */
  lemma ComesFrom<V(!new)>(g: Graph, d: Data<V>, e: Data<V>, n: NodeName)
    requires WellNamed(g) && IsName(n) && Keeps(g, d, e) && Settled(g, e)
    ensures NewKey(n) in e.versions ==>
              exists k | k in d.versions :: (k == NewKey(n) || LeadsTo(g, k, n)) && d.versions[k] == e.versions[NewKey(n)]
    ensures n in e.seen && NewKey(n) in e.seen[n] ==>
              n in d.seen && exists k | k in d.seen[n] ::
                (k == NewKey(n) || LeadsTo(g, k, n)) && d.seen[n][k] == e.seen[n][NewKey(n)]
    ensures NewKey(n) in e.values ==>
              exists k | k in d.values :: (k == NewKey(n) || LeadsTo(g, k, n)) && d.values[k] == e.values[NewKey(n)]
  {
    forall k ensures OldTrigger(g, n, k) <==> LeadsTo(g, k, n) {
      OldTriggerSpelled(g, n, k);
    }
    MigratedIsMaximum(g, d, e, n);
    if NewKey(n) in e.versions {
      var k :| k in d.versions && Trigger(g, n, k) && d.versions[k] == e.versions[NewKey(n)];
    }
    if n in e.seen && NewKey(n) in e.seen[n] {
      var k :| k in d.seen[n] && Counted(g, d, n, k) && d.seen[n][k] == e.seen[n][NewKey(n)];
    }
    if NewKey(n) in e.values {
      var k :| k in d.values && Counted(g, d, n, k) && d.values[k] == e.values[NewKey(n)];
    }
  }

  // ---------------------------------------------------------------------
  // Which nodes are due
  // ---------------------------------------------------------------------

  ghost function VersionOf<V>(d: Data<V>, k: Key): nat {
    if k in d.versions then d.versions[k] else 0
  }

  /**
   * The scheduler's test on one trigger channel: it holds a value, and the node has no record at all or
   * an older one.
   */
  ghost predicate DueOn<V>(d: Data<V>, n: NodeName, k: Key) {
    k in d.values && (n in d.seen ==> SeenOf(d, n, k) < VersionOf(d, k))
  }

  /** A node of an old layout is due on any of its trigger channels; a migrated one only on its new key. */
  ghost predicate Due<V>(g: Graph, d: Data<V>, n: NodeName) {
    exists k | Trigger(g, n, k) :: DueOn(d, n, k)
  }

  lemma PendingOnNewKey<V>(g: Graph, e: Data<V>, n: NodeName)
    requires WellNamed(g) && IsName(n) && Settled(g, e)
    ensures Pending(g, e, n) <==> SeenOf(e, n, NewKey(n)) < VersionOf(e, NewKey(n))
  {
    SettledTriggers(g, e, n);
  }

  /**
   * When a node is due after the migration: some old trigger channel held a value, and some, perhaps
   * another one, was newer than all the node had recorded, if it had a record.
   */
  lemma DueAfter<V(!new)>(g: Graph, d: Data<V>, e: Data<V>, n: NodeName)
    requires WellNamed(g) && IsName(n) && Keeps(g, d, e) && Settled(g, e)
    ensures DueOn(e, n, NewKey(n)) <==>
              && CarriesAny(g, d, n)
              && (n in d.seen ==> exists k | k in d.versions && Trigger(g, n, k) :: NewerThanAllSeen(g, d, n, k))
  {
    assert n in d.seen <==> n in e.seen;
    MigratedIsMaximum(g, d, e, n);
    PendingAfter(g, d, e, n);
    PendingOnNewKey(g, e, n);
  }

  /** No value sits on a channel whose version the node has seen. */
  ghost predicate ValuesUnseen<V>(g: Graph, d: Data<V>, n: NodeName) {
    forall k | k in d.values && Counted(g, d, n, k) && n in d.seen :: SeenOf(d, n, k) < VersionOf(d, k)
  }

  /** Where no value was left on a seen channel, the migration makes no node due that was not. */
  lemma NoWorkInvented<V(!new)>(g: Graph, d: Data<V>, e: Data<V>, n: NodeName)
    requires WellNamed(g) && IsName(n) && Keeps(g, d, e) && Settled(g, e) && ValuesUnseen(g, d, n)
    requires DueOn(e, n, NewKey(n))
    ensures Due(g, d, n)
  {
    DueAfter(g, d, e, n);
    var k :| k in d.values && Counted(g, d, n, k);
    assert DueOn(d, n, k);
  }

  /** A channel that holds a value has a version. */
  ghost predicate ValuesVersioned<V>(g: Graph, d: Data<V>, n: NodeName) {
    forall k | k in d.values && Trigger(g, n, k) :: Counted(g, d, n, k)
  }

  /** Under rising versions a due node stays due. */
  lemma NoWorkLost<V(!new)>(g: Graph, d: Data<V>, e: Data<V>, n: NodeName)
    requires WellNamed(g) && IsName(n) && Keeps(g, d, e) && Settled(g, e)
    requires UnseenIsNewest(g, d, n) && ValuesVersioned(g, d, n)
    requires Due(g, d, n)
    ensures DueOn(e, n, NewKey(n))
  {
    DueAfter(g, d, e, n);
    var k :| Trigger(g, n, k) && DueOn(d, n, k);
    assert Counted(g, d, n, k);
    if n in d.seen {
      assert NewerThanAllSeen(g, d, n, k);
    }
  }

  lemma OldKeysDiffer(n: NodeName)
    ensures StartKey(n) != BranchKey("a", "if", n)
  {
    assert StartKey(n)[0] == 's' && BranchKey("a", "if", n)[0] == 'b';
  }

  /** A new start channel without a value, and a value left on a branch channel already seen. */
  function SplitWork<V>(n: NodeName, x: V): Data<V> {
    Data(map[StartKey(n) := 3, BranchKey("a", "if", n) := 2],
         map[n := map[StartKey(n) := 1, BranchKey("a", "if", n) := 2]],
         map[BranchKey("a", "if", n) := x])
  }

  /** Merging the two puts the version and the value on one channel: a node that was not due becomes due. */
  lemma WorkInvented<V(!new)>(n: NodeName, x: V, e: Data<V>)
    requires IsName(n)
    requires Keeps(Graph({n}, {}), SplitWork(n, x), e) && Settled(Graph({n}, {}), e)
    ensures UnseenIsNewest(Graph({n}, {}), SplitWork(n, x), n)
    ensures !Due(Graph({n}, {}), SplitWork(n, x), n)
    ensures DueOn(e, n, NewKey(n))
  {
    var g, d := Graph({n}, {}), SplitWork(n, x);
    StartKeyNames(n);
    BranchKeyNames("a", "if", n);
    OldKeysDiffer(n);
    assert d.versions[StartKey(n)] == 3 && d.versions[BranchKey("a", "if", n)] == 2;
    assert Trigger(g, n, StartKey(n)) && Trigger(g, n, BranchKey("a", "if", n));
    DueAfter(g, d, e, n);
    assert Counted(g, d, n, BranchKey("a", "if", n)) && CarriesAny(g, d, n);
    assert NewerThanAllSeen(g, d, n, StartKey(n));
  }
}
