/**
 * Rebuilding a delta channel from its checkpoint chain: `walk_channel` of
 * examples/delta-channel-dump/dump.py followed by the restore of langgraph/pregel/_checkpoint.py.
 */
module CheckpointWalk {
  import opened Prelude
  import opened DeltaChannel

  type CheckpointId = string

  /**
   * One checkpoint, for one channel: its parent, the blob stored for the channel, the channel's writes
   * as the query returns them, newest first, and the same writes in the order in which the scheduler
   * applied them, which the store does not record.
   */
  datatype Row<+V> = Row(parent: Option<CheckpointId>, stored: Stored<V>, writes: seq<PendingWrite<V>>, live: seq<V>)

  type Db<V> = map<CheckpointId, Row<V>>

  /** Parents rank below their children: the chain has no cycle. */
  ghost predicate Acyclic<V>(db: Db<V>, rank: CheckpointId -> nat) {
    forall id | id in db && db[id].parent.Some? ::
      rank(db[id].parent.value) < rank(id)
  }

  ghost predicate Before<V>(a: PendingWrite<V>, b: PendingWrite<V>) {
    a.taskId < b.taskId || (a.taskId == b.taskId && a.idx < b.idx)
  }

  ghost predicate Ascending<V>(ws: seq<PendingWrite<V>>) {
    forall i, j | 0 <= i < j < |ws| :: Before(ws[i], ws[j])
  }

  ghost predicate Descending<V>(ws: seq<PendingWrite<V>>) {
    forall i, j | 0 <= i < j < |ws| :: Before(ws[j], ws[i])
  }

  /** The blob of the nearest seeded checkpoint, its id, and the writes from it on, one block a checkpoint. */
  datatype Trail<+V> = Trail(seed: Stored<V>, seedId: Option<CheckpointId>, blocks: seq<seq<PendingWrite<V>>>)

  ghost function Rank(cur: Option<CheckpointId>, rank: CheckpointId -> nat): nat {
    if cur.Some? then rank(cur.value) + 1 else 0
  }

  ghost function TrailOf<V>(db: Db<V>, cur: Option<CheckpointId>, rank: CheckpointId -> nat): Trail<V>
    requires Acyclic(db, rank)
    decreases Rank(cur, rank)
  {
    if cur.None? || cur.value !in db then Trail(Absent, None, [])
    else
      var row := db[cur.value];
      if row.stored != Absent then Trail(row.stored, cur, [Reverse(row.writes)])
      else
        var t := TrailOf(db, row.parent, rank);
        t.(blocks := t.blocks + [Reverse(row.writes)])
  }

  lemma {:induction false} ReverseAppend<T>(a: seq<T>, b: seq<T>)
    ensures Reverse(a + b) == Reverse(b) + Reverse(a)
  {
    if a == [] {
      assert a + b == b;
    } else {
      ReverseAppend(a[1..], b);
      assert (a + b)[1..] == a[1..] + b;
    }
  }

  /** The blocks below one checkpoint, if the walk goes on. */
  ghost function Below<V>(db: Db<V>, cur: CheckpointId, rank: CheckpointId -> nat): seq<seq<PendingWrite<V>>>
    requires Acyclic(db, rank) && cur in db
  {
    if db[cur].stored != Absent then [] else TrailOf(db, db[cur].parent, rank).blocks
  }

  lemma TrailStep<V>(db: Db<V>, cur: CheckpointId, rank: CheckpointId -> nat, newest: seq<PendingWrite<V>>)
    requires Acyclic(db, rank) && cur in db
    ensures Flatten(TrailOf(db, Some(cur), rank).blocks) + Reverse(newest)
            == Flatten(Below(db, cur, rank)) + Reverse(newest + db[cur].writes)
  {
    var own := Reverse(db[cur].writes);
    FlattenSnoc(Below(db, cur, rank), own);
    assert [] + [own] == [own];
    ReverseAppend(newest, db[cur].writes);
  }

  /**
   * Walks from the target's parent to the nearest seed. The writes are collected newest first and
   * reversed once.
   */
  method WalkChannel<V>(db: Db<V>, start: Option<CheckpointId>, ghost rank: CheckpointId -> nat)
      returns (seed: Stored<V>, seedId: Option<CheckpointId>, writes: seq<PendingWrite<V>>)
    requires Acyclic(db, rank)
    ensures var t := TrailOf(db, start, rank); seed == t.seed && seedId == t.seedId && writes == Flatten(t.blocks)
  {
    var newestFirst: seq<PendingWrite<V>> := [];
    var cur := start;
    ghost var t := TrailOf(db, start, rank);
    while cur.Some?
      invariant TrailOf(db, cur, rank).seed == t.seed && TrailOf(db, cur, rank).seedId == t.seedId
      invariant Flatten(t.blocks) == Flatten(TrailOf(db, cur, rank).blocks) + Reverse(newestFirst)
      decreases Rank(cur, rank)
    {
      if cur.value !in db {
        break;
      }
      TrailStep(db, cur.value, rank, newestFirst);
      newestFirst := newestFirst + db[cur.value].writes;
      if db[cur.value].stored != Absent {
        return db[cur.value].stored, cur, Reverse(newestFirst);
      }
      cur := db[cur.value].parent;
    }
    return Absent, None, Reverse(newestFirst);
  }

  /** The `n`-th ancestor, counting `cur` itself as the zeroth. */
  ghost function Ancestor<V>(db: Db<V>, cur: CheckpointId, n: nat): Option<CheckpointId>
    decreases n
  {
    if n == 0 then Some(cur)
    else if cur in db && db[cur].parent.Some? then Ancestor(db, db[cur].parent.value, n - 1)
    else None
  }

  /** Block `i` of a trail holds the writes of its ancestor in ascending order; only block 0 can be seeded. */
  ghost predicate BlockOfAncestor<V>(db: Db<V>, cur: CheckpointId, t: Trail<V>, i: nat)
    requires i < |t.blocks|
  {
    var a := Ancestor(db, cur, |t.blocks| - 1 - i);
    && a.Some? && a.value in db
    && t.blocks[i] == Reverse(db[a.value].writes) && Ascending(t.blocks[i])
    && (db[a.value].stored != Absent <==> i == 0 && t.seed != Absent)
    && (i == 0 && t.seed != Absent ==> t.seedId == a && db[a.value].stored == t.seed)
  }

  /**
   * The walk visits the ancestors one by one, the oldest block first; it stops at the first seeded one,
   * and without a seed it has exhausted the chain.
   */
  lemma {:induction false} TrailIsAncestry<V>(db: Db<V>, cur: CheckpointId, rank: CheckpointId -> nat)
    requires Acyclic(db, rank) && forall id | id in db :: Descending(db[id].writes)
    ensures forall i | 0 <= i < |TrailOf(db, Some(cur), rank).blocks| ::
              BlockOfAncestor(db, cur, TrailOf(db, Some(cur), rank), i)
    ensures var t := TrailOf(db, Some(cur), rank);
            && (t.seed != Absent ==> t.blocks != [])
            && (t.seed == Absent ==> var a := Ancestor(db, cur, |t.blocks|); a.None? || a.value !in db)
    decreases rank(cur)
  {
    if cur in db {
      var t := TrailOf(db, Some(cur), rank);
      assert Ascending(Reverse(db[cur].writes));
      assert Ancestor(db, cur, 0) == Some(cur);
      if db[cur].stored == Absent && db[cur].parent.Some? {
        var p := db[cur].parent.value;
        TrailIsAncestry(db, p, rank);
        var u := TrailOf(db, Some(p), rank);
        forall i | 0 <= i < |t.blocks| ensures BlockOfAncestor(db, cur, t, i) {
          if i < |u.blocks| {
            assert BlockOfAncestor(db, p, u, i);
            assert Ancestor(db, cur, |t.blocks| - 1 - i) == Ancestor(db, p, |u.blocks| - 1 - i);
          }
        }
      }
    }
  }

  // ---------------------------------------------------------------------
  // The live run behind a chain
  // ---------------------------------------------------------------------

  /** A step's writes in stored order, ascending by task id. */
  ghost function Step<V>(row: Row<V>): seq<V> {
    Values(Reverse(row.writes))
  }

  /** The steps of a trail as they ran, in the order of their tasks' paths. */
  ghost function LiveSteps<V>(db: Db<V>, cur: Option<CheckpointId>, rank: CheckpointId -> nat): (r: seq<seq<V>>)
    requires Acyclic(db, rank)
    ensures |r| == |TrailOf(db, cur, rank).blocks|
    decreases Rank(cur, rank)
  {
    if cur.None? || cur.value !in db then []
    else if db[cur.value].stored != Absent then [db[cur.value].live]
    else LiveSteps(db, db[cur.value].parent, rank) + [db[cur.value].live]
  }

  /** The value the live channel held when a checkpoint was taken. A root may hold a plain or snapshot value. */
  ghost function ValueAt<V>(k: Kind<V>, db: Db<V>, id: CheckpointId, rank: CheckpointId -> nat): Result<Option<V>, UpdateError>
    requires Acyclic(db, rank)
    decreases rank(id)
  {
    if id !in db then Ok(None)
    else if db[id].parent.None? then Ok(Held(db[id].stored))
    else
      var p := db[id].parent.value;
      match ValueAt(k, db, p, rank)
      case Err(e) => Err(e)
      case Ok(v) => if p in db then Stepped(k, v, db[p].live) else Ok(v)
  }

  /**
   * No ancestor is missing, each stored blob is the value the live channel then held, and what is stored
   * of each step is what it applied, in whatever order.
   */
  ghost predicate Intact<V>(k: Kind<V>, db: Db<V>, id: CheckpointId, rank: CheckpointId -> nat)
    requires Acyclic(db, rank)
    decreases rank(id)
  {
    && id in db
    && multiset(db[id].live) == multiset(Step(db[id]))
    && (db[id].stored != Absent ==> ValueAt(k, db, id, rank) == Ok(Held(db[id].stored)))
    && (db[id].parent.Some? ==> Intact(k, db, db[id].parent.value, rank))
  }

  ghost function Steps<V>(blocks: seq<seq<PendingWrite<V>>>): (r: seq<seq<V>>)
    ensures |r| == |blocks|
  {
    seq(|blocks|, i requires 0 <= i < |blocks| => Values(blocks[i]))
  }

  lemma {:induction false} StepsFlatten<V>(blocks: seq<seq<PendingWrite<V>>>)
    ensures Flatten(Steps(blocks)) == Values(Flatten(blocks))
  {
    if blocks == [] {
    } else {
      StepsFlatten(blocks[1..]);
      assert Steps(blocks)[1..] == Steps(blocks[1..]);
      assert Values(blocks[0] + Flatten(blocks[1..])) == Values(blocks[0]) + Values(Flatten(blocks[1..]));
    }
  }

  ghost function LiveBelow<V>(db: Db<V>, cur: CheckpointId, rank: CheckpointId -> nat): (r: seq<seq<V>>)
    requires Acyclic(db, rank) && cur in db
    ensures |r| == |Below(db, cur, rank)|
  {
    if db[cur].stored != Absent then [] else LiveSteps(db, db[cur].parent, rank)
  }

  /** A trail and its live steps grow by one checkpoint at a time. */
  lemma OneMoreStep<V>(db: Db<V>, p: CheckpointId, rank: CheckpointId -> nat)
    requires Acyclic(db, rank) && p in db
    ensures TrailOf(db, Some(p), rank).blocks == Below(db, p, rank) + [Reverse(db[p].writes)]
    ensures Steps(TrailOf(db, Some(p), rank).blocks) == Steps(Below(db, p, rank)) + [Step(db[p])]
    ensures LiveSteps(db, Some(p), rank) == LiveBelow(db, p, rank) + [db[p].live]
  {
  }

  lemma RunOneMore<V>(k: Kind<V>, start: Option<V>, steps: seq<seq<V>>, last: seq<V>)
    requires Run(k, start, steps).Ok?
    ensures Run(k, start, steps + [last]) == Stepped(k, Run(k, start, steps).value, last)
  {
    assert (steps + [last])[..|steps|] == steps;
  }

  /**
   * The trail from a checkpoint holds, step by step, the writes of the live run from the seed through that
   * checkpoint's own step.
   */
  lemma {:induction false} TrailIsRun<V>(k: Kind<V>, db: Db<V>, p: CheckpointId, rank: CheckpointId -> nat)
    requires Acyclic(db, rank) && Intact(k, db, p, rank) && ValueAt(k, db, p, rank).Ok?
    ensures var t, live := TrailOf(db, Some(p), rank), LiveSteps(db, Some(p), rank);
            && SameWrites(live, Steps(t.blocks))
            && Run(k, Held(t.seed), live) == Stepped(k, ValueAt(k, db, p, rank).value, db[p].live)
    decreases rank(p)
  {
    var seed := Held(TrailOf(db, Some(p), rank).seed);
    assert SameWrites(LiveBelow(db, p, rank), Steps(Below(db, p, rank)))
           && Run(k, seed, LiveBelow(db, p, rank)) == ValueAt(k, db, p, rank) by {
      if db[p].stored == Absent && db[p].parent.Some? {
        TrailIsRun(k, db, db[p].parent.value, rank);
      }
    }
    OneMoreStep(db, p, rank);
    RunOneMore(k, seed, LiveBelow(db, p, rank), db[p].live);
  }

  ghost predicate HistoryInto<V>(k: Kind<V>, db: Db<V>, inv: V -> bool) {
    && (forall id | id in db && db[id].stored != Absent :: inv(db[id].stored.value))
    && (forall id | id in db :: ResetsInto(k, inv, Step(db[id])))
  }

  lemma {:induction false} TrailInto<V>(k: Kind<V>, db: Db<V>, cur: Option<CheckpointId>, rank: CheckpointId -> nat, inv: V -> bool)
    requires Acyclic(db, rank) && HistoryInto(k, db, inv)
    ensures var t := TrailOf(db, cur, rank); AllResetInto(k, inv, Steps(t.blocks)) && (t.seed != Absent ==> inv(t.seed.value))
    decreases Rank(cur, rank)
  {
    if cur.Some? && cur.value in db {
      var row := db[cur.value];
      if row.stored == Absent {
        TrailInto(k, db, row.parent, rank, inv);
      }
      var t, front := TrailOf(db, cur, rank), Below(db, cur.value, rank);
      assert t.blocks == front + [Reverse(row.writes)];
      forall i | 0 <= i < |t.blocks| ensures ResetsInto(k, inv, Steps(t.blocks)[i]) {
        if i < |front| {
          assert Steps(t.blocks)[i] == Steps(front)[i];
        } else {
          assert Steps(t.blocks)[i] == Step(row);
        }
      }
    }
  }

  /** The value a restore builds for a checkpoint: its own blob, or the walk from its parent replayed once. */
  ghost function Restored<V>(k: Kind<V>, db: Db<V>, target: CheckpointId, rank: CheckpointId -> nat): V
    requires Acyclic(db, rank) && target in db
  {
    if db[target].stored != Absent then db[target].stored.value
    else
      var t := TrailOf(db, db[target].parent, rank);
      Replayed(k, Held(t.seed).GetOr(k.typ), Values(Flatten(t.blocks)))
  }

  /** Nothing is stored after the overwrite in the last step that holds one: see `ReplayAgreesIffClean`. */
  ghost predicate CleanTrail<V>(k: Kind<V>, db: Db<V>, target: CheckpointId, rank: CheckpointId -> nat)
    requires Acyclic(db, rank) && target in db
  {
    db[target].stored == Absent ==> ResetsCleanly(k, Steps(TrailOf(db, db[target].parent, rank).blocks))
  }

  /** Since the last reset or the seed, the steps ran in the order in which they are stored. */
  ghost predicate OrderedTrail<V>(k: Kind<V>, db: Db<V>, target: CheckpointId, rank: CheckpointId -> nat)
    requires Acyclic(db, rank) && target in db
  {
    db[target].stored == Absent ==>
      InStoredOrder(k, LiveSteps(db, db[target].parent, rank), Steps(TrailOf(db, db[target].parent, rank).blocks))
  }

  /**
   * Whatever subset of an intact chain's checkpoints holds snapshots, the restored value is the one the
   * live channel held (`typ()` where the live channel was never written).
   */
  lemma RestoredIsLive<V(!new)>(k: Kind<V>, db: Db<V>, target: CheckpointId, rank: CheckpointId -> nat, inv: V -> bool)
    requires Acyclic(db, rank) && Intact(k, db, target, rank) && ValueAt(k, db, target, rank).Ok?
    requires Lawful(k, inv) && HistoryInto(k, db, inv) && CleanTrail(k, db, target, rank)
    requires OrderFree(k, inv) || OrderedTrail(k, db, target, rank)
    ensures Restored(k, db, target, rank) == ValueAt(k, db, target, rank).value.GetOr(k.typ)
  {
    if db[target].stored == Absent {
      var t := TrailOf(db, db[target].parent, rank);
      StepsFlatten(t.blocks);
      if db[target].parent.Some? {
        TrailIsRun(k, db, db[target].parent.value, rank);
        TrailInto(k, db, db[target].parent, rank, inv);
        ReplayEqualsRun(k, inv, Held(t.seed), LiveSteps(db, db[target].parent, rank), Steps(t.blocks));
      }
    }
  }

  /** The writes along the trail since the last reset. */
  ghost function TrailSince<V>(k: Kind<V>, db: Db<V>, target: CheckpointId, rank: CheckpointId -> nat): Since<V>
    requires Acyclic(db, rank) && target in db
  {
    var t := TrailOf(db, db[target].parent, rank);
    SinceReset(k, Held(t.seed), LiveSteps(db, db[target].parent, rank), Steps(t.blocks))
  }

  lemma SameSince<V(!new)>(k: Kind<V>, db: Db<V>, target: CheckpointId, rank: CheckpointId -> nat, inv: V -> bool)
    requires Acyclic(db, rank) && Intact(k, db, target, rank) && ValueAt(k, db, target, rank).Ok?
    requires Lawful(k, inv) && HistoryInto(k, db, inv) && db[target].stored == Absent
    ensures multiset(TrailSince(k, db, target, rank).live) == multiset(TrailSince(k, db, target, rank).stored)
  {
    if db[target].parent.Some? {
      var t := TrailOf(db, db[target].parent, rank);
      TrailIsRun(k, db, db[target].parent.value, rank);
      TrailInto(k, db, db[target].parent, rank, inv);
      RunSinceReset(k, inv, Held(t.seed), LiveSteps(db, db[target].parent, rank), Steps(t.blocks));
    }
  }

  /** For a reducer that loses nothing of what was written since the last reset, both conditions are exact. */
  lemma RestoredIsLiveIffClean<V(!new)>(k: Kind<V>, db: Db<V>, target: CheckpointId, rank: CheckpointId -> nat,
        inv: V -> bool, good: (V, seq<V>) -> bool)
    requires Acyclic(db, rank) && Intact(k, db, target, rank) && ValueAt(k, db, target, rank).Ok?
    requires Lawful(k, inv) && Injective(k, good) && HistoryInto(k, db, inv)
    requires db[target].stored == Absent ==> GoodSince(k, inv, good, TrailSince(k, db, target, rank))
    ensures Restored(k, db, target, rank) == ValueAt(k, db, target, rank).value.GetOr(k.typ)
            <==> CleanTrail(k, db, target, rank) && OrderedTrail(k, db, target, rank)
  {
    if db[target].stored == Absent {
      var t := TrailOf(db, db[target].parent, rank);
      StepsFlatten(t.blocks);
      if db[target].parent.Some? {
        TrailIsRun(k, db, db[target].parent.value, rank);
        TrailInto(k, db, db[target].parent, rank, inv);
        ReplayAgreesIffClean(k, inv, good, Held(t.seed), LiveSteps(db, db[target].parent, rank), Steps(t.blocks));
      }
    }
  }

  // ---------------------------------------------------------------------
  // Chains the loop writes
  // ---------------------------------------------------------------------

  /** The loop takes a snapshot after every step that holds an overwrite. */
  ghost predicate SnapshotsAfterOverwrites<V>(k: Kind<V>, db: Db<V>) {
    forall id | id in db && db[id].parent.Some? && db[id].parent.value in db ::
      LastOverwrite(k, Step(db[db[id].parent.value])).Some? ==> db[id].stored != Absent
  }

  lemma {:induction false} TrailWithoutOverwrites<V>(k: Kind<V>, db: Db<V>, id: CheckpointId, rank: CheckpointId -> nat)
    requires Acyclic(db, rank) && SnapshotsAfterOverwrites(k, db) && id in db && db[id].stored == Absent
    ensures AllPlain(k, Steps(TrailOf(db, db[id].parent, rank).blocks))
    decreases rank(id)
  {
    if db[id].parent.Some? && db[id].parent.value in db {
      var p := db[id].parent.value;
      OneMoreStep(db, p, rank);
      if db[p].stored == Absent {
        TrailWithoutOverwrites(k, db, p, rank);
      }
    }
  }

  lemma {:induction false} PlainIsClean<V>(k: Kind<V>, steps: seq<seq<V>>)
    requires AllPlain(k, steps)
    ensures ResetsCleanly(k, steps)
  {
    if steps == [] {
    } else {
      PlainIsClean(k, steps[..|steps| - 1]);
    }
  }

  /** On a chain the loop writes, no overwrite is ever replayed. */
  lemma LoopTrailIsClean<V>(k: Kind<V>, db: Db<V>, target: CheckpointId, rank: CheckpointId -> nat)
    requires Acyclic(db, rank) && SnapshotsAfterOverwrites(k, db) && target in db
    ensures CleanTrail(k, db, target, rank)
  {
    if db[target].stored == Absent {
      TrailWithoutOverwrites(k, db, target, rank);
      PlainIsClean(k, Steps(TrailOf(db, db[target].parent, rank).blocks));
    }
  }

  /** So there a restore needs the order of the steps only. */
  lemma LoopRestoredIsLive<V(!new)>(k: Kind<V>, db: Db<V>, target: CheckpointId, rank: CheckpointId -> nat, inv: V -> bool)
    requires Acyclic(db, rank) && Intact(k, db, target, rank) && ValueAt(k, db, target, rank).Ok?
    requires Lawful(k, inv) && HistoryInto(k, db, inv) && SnapshotsAfterOverwrites(k, db)
    requires OrderFree(k, inv) || OrderedTrail(k, db, target, rank)
    ensures Restored(k, db, target, rank) == ValueAt(k, db, target, rank).value.GetOr(k.typ)
  {
    LoopTrailIsClean(k, db, target, rank);
    RestoredIsLive(k, db, target, rank, inv);
  }

  /** Two stores of the same run that differ in where snapshots were taken. */
  ghost predicate SameRun<V>(a: Db<V>, b: Db<V>) {
    && a.Keys == b.Keys
    && forall id | id in a ::
      && a[id].parent == b[id].parent && a[id].writes == b[id].writes && a[id].live == b[id].live
      && (a[id].parent.None? ==> Held(a[id].stored) == Held(b[id].stored))
  }

  lemma {:induction false} SameRunSameValues<V>(k: Kind<V>, a: Db<V>, b: Db<V>, id: CheckpointId, rank: CheckpointId -> nat)
    requires Acyclic(a, rank) && Acyclic(b, rank) && SameRun(a, b)
    ensures ValueAt(k, a, id, rank) == ValueAt(k, b, id, rank)
    decreases rank(id)
  {
    if id in a && a[id].parent.Some? {
      SameRunSameValues(k, a, b, a[id].parent.value, rank);
    }
  }

  /** Where replay meets its conditions, snapshot placement does not change what is restored. */
  lemma SnapshotPlacementIrrelevant<V(!new)>(k: Kind<V>, a: Db<V>, b: Db<V>, target: CheckpointId, rank: CheckpointId -> nat, inv: V -> bool)
    requires Acyclic(a, rank) && Acyclic(b, rank) && SameRun(a, b)
    requires Intact(k, a, target, rank) && Intact(k, b, target, rank) && ValueAt(k, a, target, rank).Ok?
    requires Lawful(k, inv) && HistoryInto(k, a, inv) && HistoryInto(k, b, inv)
    requires CleanTrail(k, a, target, rank) && CleanTrail(k, b, target, rank)
    requires OrderFree(k, inv) || (OrderedTrail(k, a, target, rank) && OrderedTrail(k, b, target, rank))
    ensures Restored(k, a, target, rank) == Restored(k, b, target, rank)
  {
    SameRunSameValues(k, a, b, target, rank);
    RestoredIsLive(k, a, target, rank, inv);
    RestoredIsLive(k, b, target, rank, inv);
  }

  /** Restores one delta channel for a target checkpoint. */
  method Hydrate<V>(spec: Channel<V>, db: Db<V>, target: CheckpointId, ghost rank: CheckpointId -> nat)
      returns (ch: Channel<V>)
    requires Acyclic(db, rank) && target in db
    ensures fresh(ch) && ch.kind == spec.kind
    ensures ch.value == Some(Restored(spec.kind, db, target, rank))
  {
    if db[target].stored != Absent {
      ch := spec.FromCheckpoint(db[target].stored);
    } else {
      var seed, seedId, writes := WalkChannel(db, db[target].parent, rank);
      ch := spec.FromCheckpoint(seed);
      ch.ReplayWrites(writes);
    }
  }
}
