/**
 * Channels that wait: `NamedBarrierValue` and `NamedBarrierValueAfterFinish` of
 * langgraph/channels/named_barrier_value.py, `LastValueAfterFinish` of langgraph/channels/last_value.py.
 */
module Barriers {
  import opened Prelude

  /** What the scheduler does to a channel. */
  datatype Op<T> = Update(values: seq<T>) | Consume | Finish

  // ---------------------------------------------------------------------
  // Barriers
  // ---------------------------------------------------------------------

  /** `finished` stays false in the plain form. */
  datatype Barrier<T> = Barrier(seen: set<T>, finished: bool)

  /** The values an update takes in before it meets an unknown name, on which it raises. */
  ghost function Accepted<T>(names: set<T>, values: seq<T>): (r: seq<T>)
    ensures r <= values
    ensures |r| < |values| ==> values[|r|] !in names
    ensures forall v | v in r :: v in names
  {
    if values == [] || values[0] !in names then [] else [values[0]] + Accepted(names, values[1..])
  }

  ghost predicate Available<T>(names: set<T>, afterFinish: bool, s: Barrier<T>) {
    s.seen == names && (afterFinish ==> s.finished)
  }

  ghost function After<T>(names: set<T>, afterFinish: bool, s: Barrier<T>, op: Op<T>): Barrier<T> {
    match op
    case Update(values) => s.(seen := s.seen + set v | v in Accepted(names, values))
    case Consume => if Available(names, afterFinish, s) then Barrier({}, false) else s
    case Finish => if afterFinish && s.seen == names then s.(finished := true) else s
  }

  lemma {:induction false} AcceptedPrefix<T>(names: set<T>, values: seq<T>, n: nat)
    requires n <= |values| && forall i | 0 <= i < n :: values[i] in names
    ensures n <= |Accepted(names, values)|
    ensures n == |values| || values[n] !in names ==> Accepted(names, values) == values[..n]
    decreases n
  {
    if n == 0 {
    } else {
      assert forall i | 0 <= i < n - 1 :: values[1..][i] == values[i + 1];
      AcceptedPrefix(names, values[1..], n - 1);
      assert [values[0]] + values[1..][..n - 1] == values[..n];
    }
  }

  class NamedBarrierValue<T(==)> {
    const names: set<T>
    var seen: set<T>

    constructor (names: set<T>)
      ensures this.names == names && State() == Barrier({}, false)
    {
      this.names, seen := names, {};
    }

    ghost function State(): Barrier<T>
      reads this
    {
      Barrier(seen, false)
    }

    /** On an unknown name the names before it stay recorded. */
    method Update(values: seq<T>) returns (r: Result<bool, T>)
      modifies this`seen
      ensures State() == After(names, false, old(State()), Op.Update(values))
      ensures r == (if |Accepted(names, values)| == |values| then Ok(seen != old(seen))
                    else Err(values[|Accepted(names, values)|]))
    {
      var updated := false;
      for i := 0 to |values|
        invariant forall j | 0 <= j < i :: values[j] in names
        invariant seen == old(seen) + set v | v in values[..i]
        invariant updated <==> seen != old(seen)
      {
        assert values[..i + 1] == values[..i] + [values[i]];
        if values[i] in names {
          if values[i] !in seen {
            seen := seen + {values[i]};
            updated := true;
          }
        } else {
          AcceptedPrefix(names, values, i);
          return Err(values[i]);
        }
      }
      AcceptedPrefix(names, values, |values|);
      assert values[..|values|] == values;
      return Ok(updated);
    }

    method Consume() returns (r: bool)
      modifies this`seen
      ensures State() == After(names, false, old(State()), Op.Consume)
      ensures r <==> Available(names, false, old(State()))
      ensures r && names != {} ==> !Available(names, false, State())
    {
      if seen == names {
        seen := {};
        return true;
      }
      return false;
    }

    method Checkpoint() returns (c: set<T>)
      ensures c == seen
    {
      c := seen;
    }

    /** `None` stands for MISSING. */
    method FromCheckpoint(c: Option<set<T>>) returns (b: NamedBarrierValue<T>)
      ensures fresh(b) && b.names == names && b.seen == c.GetOr({})
    {
      b := new NamedBarrierValue(names);
      if c.Some? {
        b.seen := c.value;
      }
    }
  }

  class NamedBarrierValueAfterFinish<T(==)> {
    const names: set<T>
    var seen: set<T>
    var finished: bool

    constructor (names: set<T>)
      ensures this.names == names && State() == Barrier({}, false)
    {
      this.names, seen, finished := names, {}, false;
    }

    ghost function State(): Barrier<T>
      reads this
    {
      Barrier(seen, finished)
    }

    method Update(values: seq<T>) returns (r: Result<bool, T>)
      modifies this`seen
      ensures State() == After(names, true, old(State()), Op.Update(values))
      ensures r == (if |Accepted(names, values)| == |values| then Ok(seen != old(seen))
                    else Err(values[|Accepted(names, values)|]))
    {
      var updated := false;
      for i := 0 to |values|
        invariant forall j | 0 <= j < i :: values[j] in names
        invariant seen == old(seen) + set v | v in values[..i]
        invariant updated <==> seen != old(seen)
      {
        assert values[..i + 1] == values[..i] + [values[i]];
        if values[i] in names {
          if values[i] !in seen {
            seen := seen + {values[i]};
            updated := true;
          }
        } else {
          AcceptedPrefix(names, values, i);
          return Err(values[i]);
        }
      }
      AcceptedPrefix(names, values, |values|);
      assert values[..|values|] == values;
      return Ok(updated);
    }

    method Consume() returns (r: bool)
      modifies this
      ensures State() == After(names, true, old(State()), Op.Consume)
      ensures r <==> Available(names, true, old(State()))
      ensures r ==> !Available(names, true, State())
    {
      if finished && seen == names {
        finished := false;
        seen := {};
        return true;
      }
      return false;
    }

    method Finish() returns (r: bool)
      modifies this`finished
      ensures State() == After(names, true, old(State()), Op.Finish)
      ensures r <==> finished != old(finished)
    {
      if !finished && seen == names {
        finished := true;
        return true;
      }
      return false;
    }

    method Checkpoint() returns (c: (set<T>, bool))
      ensures c == (seen, finished)
    {
      c := (seen, finished);
    }

    method FromCheckpoint(c: Option<(set<T>, bool)>) returns (b: NamedBarrierValueAfterFinish<T>)
      ensures fresh(b) && b.names == names && (b.seen, b.finished) == c.GetOr(({}, false))
    {
      b := new NamedBarrierValueAfterFinish(names);
      if c.Some? {
        b.seen, b.finished := c.value.0, c.value.1;
      }
    }
  }

  // ---------------------------------------------------------------------
  // Runs of a barrier
  // ---------------------------------------------------------------------

  ghost function Run<T>(names: set<T>, afterFinish: bool, s: Barrier<T>, ops: seq<Op<T>>): Barrier<T> {
    if ops == [] then s
    else After(names, afterFinish, Run(names, afterFinish, s, ops[..|ops| - 1]), ops[|ops| - 1])
  }

  ghost function FromStart<T>(names: set<T>, afterFinish: bool, ops: seq<Op<T>>): Barrier<T> {
    Run(names, afterFinish, Barrier({}, false), ops)
  }

  ghost predicate Writes<T>(names: set<T>, op: Op<T>, name: T) {
    op.Update? && name in Accepted(names, op.values)
  }

  /** Operation `i` of the run is a consume that succeeded. */
  ghost predicate Consumed<T>(names: set<T>, afterFinish: bool, ops: seq<Op<T>>, i: nat)
    requires i < |ops|
  {
    ops[i].Consume? && Available(names, afterFinish, FromStart(names, afterFinish, ops[..i]))
  }

  /** The operations up to and including the last successful consume. */
  ghost function Spent<T>(names: set<T>, afterFinish: bool, ops: seq<Op<T>>): (n: nat)
    ensures n <= |ops|
  {
    if ops == [] then 0
    else if Consumed(names, afterFinish, ops, |ops| - 1) then |ops|
    else Spent(names, afterFinish, ops[..|ops| - 1])
  }

  lemma ConsumedFront<T>(names: set<T>, afterFinish: bool, ops: seq<Op<T>>, i: nat)
    requires i < |ops| - 1
    ensures Consumed(names, afterFinish, ops[..|ops| - 1], i) <==> Consumed(names, afterFinish, ops, i)
  {
    assert ops[..|ops| - 1][..i] == ops[..i];
  }

  lemma {:induction false} SpentIsLastConsume<T>(names: set<T>, afterFinish: bool, ops: seq<Op<T>>)
    ensures var n := Spent(names, afterFinish, ops);
            && (n > 0 ==> Consumed(names, afterFinish, ops, n - 1))
            && forall i | n <= i < |ops| :: !Consumed(names, afterFinish, ops, i)
  {
    if ops != [] && !Consumed(names, afterFinish, ops, |ops| - 1) {
      SpentIsLastConsume(names, afterFinish, ops[..|ops| - 1]);
      var n := Spent(names, afterFinish, ops);
      if n > 0 {
        ConsumedFront(names, afterFinish, ops, n - 1);
      }
      forall i | n <= i < |ops| ensures !Consumed(names, afterFinish, ops, i) {
        if i < |ops| - 1 {
          ConsumedFront(names, afterFinish, ops, i);
        }
      }
    }
  }

  ghost predicate WrittenIn<T>(names: set<T>, ops: seq<Op<T>>, lo: nat, hi: nat, name: T)
    requires hi <= |ops|
  {
    exists i | lo <= i < hi :: Writes(names, ops[i], name)
  }

  /** A finish that came when every name had been written since operation `lo`. */
  ghost predicate FinishedIn<T>(names: set<T>, ops: seq<Op<T>>, lo: nat, hi: nat)
    requires hi <= |ops|
  {
    exists j | lo <= j < hi :: ops[j].Finish? && forall n | n in names :: WrittenIn(names, ops, lo, j, n)
  }

  lemma WrittenStep<T>(names: set<T>, ops: seq<Op<T>>, lo: nat, name: T)
    requires ops != [] && lo <= |ops| - 1
    ensures var front := ops[..|ops| - 1];
            WrittenIn(names, ops, lo, |ops|, name) <==> WrittenIn(names, front, lo, |front|, name) || Writes(names, ops[|ops| - 1], name)
  {
    assert forall i | 0 <= i < |ops| - 1 :: ops[..|ops| - 1][i] == ops[i];
  }

  lemma FinishedStep<T>(names: set<T>, ops: seq<Op<T>>, lo: nat)
    requires ops != [] && lo <= |ops| - 1
    ensures var front := ops[..|ops| - 1];
            FinishedIn(names, ops, lo, |ops|) <==>
              || FinishedIn(names, front, lo, |front|)
              || (ops[|ops| - 1].Finish? && forall n | n in names :: WrittenIn(names, front, lo, |front|, n))
  {
    var front := ops[..|ops| - 1];
    forall j, n | 0 <= j <= |front| ensures WrittenIn(names, ops, lo, j, n) <==> WrittenIn(names, front, lo, j, n) {
      assert forall i | 0 <= i < |front| :: front[i] == ops[i];
    }
    assert forall i | 0 <= i < |front| :: front[i] == ops[i];
  }

  /** What a barrier's fields record: what happened since the last successful consume. */
  lemma {:induction false} BarrierRecords<T(!new)>(names: set<T>, afterFinish: bool, ops: seq<Op<T>>)
    ensures var s, lo := FromStart(names, afterFinish, ops), Spent(names, afterFinish, ops);
            && (forall n :: n in s.seen <==> WrittenIn(names, ops, lo, |ops|, n))
            && s.seen <= names
            && (s.finished <==> afterFinish && FinishedIn(names, ops, lo, |ops|))
  {
    if ops == [] {
    } else {
      var front, last := ops[..|ops| - 1], ops[|ops| - 1];
      BarrierRecords(names, afterFinish, front);
      var s, t := FromStart(names, afterFinish, front), FromStart(names, afterFinish, ops);
      var lo := Spent(names, afterFinish, front);
      if Consumed(names, afterFinish, ops, |front|) {
        assert t == Barrier({}, false);
      } else {
        forall n ensures n in t.seen <==> WrittenIn(names, ops, lo, |ops|, n) {
          WrittenStep(names, ops, lo, n);
        }
        FinishedStep(names, ops, lo);
        AllSeenIffWritten(names, s.seen, front, lo);
      }
    }
  }

  lemma AllSeenIffWritten<T(!new)>(names: set<T>, seen: set<T>, ops: seq<Op<T>>, lo: nat)
    requires seen <= names && forall n :: n in seen <==> WrittenIn(names, ops, lo, |ops|, n)
    ensures seen == names <==> forall n | n in names :: WrittenIn(names, ops, lo, |ops|, n)
  {
    if forall n | n in names :: WrittenIn(names, ops, lo, |ops|, n) {
      assert forall n | n in names :: n in seen;
    }
  }

  /** The last successful consume was operation `lo - 1`, or there was none and `lo` is 0. */
  ghost predicate LastConsumedAt<T>(names: set<T>, afterFinish: bool, ops: seq<Op<T>>, lo: nat) {
    && lo <= |ops| && (lo > 0 ==> Consumed(names, afterFinish, ops, lo - 1))
    && forall i | lo <= i < |ops| :: !Consumed(names, afterFinish, ops, i)
  }

  /**
   * A barrier is available exactly when every name has been written since the last successful consume
   * and, in the after-finish form, a finish came after all those writes.
   */
  lemma AvailableIff<T(!new)>(names: set<T>, afterFinish: bool, ops: seq<Op<T>>, lo: nat)
    requires LastConsumedAt(names, afterFinish, ops, lo)
    ensures Available(names, afterFinish, FromStart(names, afterFinish, ops)) <==>
              && (forall n | n in names :: WrittenIn(names, ops, lo, |ops|, n))
              && (afterFinish ==> FinishedIn(names, ops, lo, |ops|))
  {
    SpentIsLastConsume(names, afterFinish, ops);
    assert lo == Spent(names, afterFinish, ops);
    BarrierRecords(names, afterFinish, ops);
    AllSeenIffWritten(names, FromStart(names, afterFinish, ops).seen, ops, lo);
  }

  ghost function Consumes<T>(names: set<T>, afterFinish: bool, ops: seq<Op<T>>): nat {
    if ops == [] then 0
    else Consumes(names, afterFinish, ops[..|ops| - 1]) + if Consumed(names, afterFinish, ops, |ops| - 1) then 1 else 0
  }

  ghost function WritesOf<T>(names: set<T>, ops: seq<Op<T>>, name: T): nat {
    if ops == [] then 0
    else WritesOf(names, ops[..|ops| - 1], name) + if Writes(names, ops[|ops| - 1], name) then 1 else 0
  }

  lemma {:induction false} ConsumesAndSeen<T>(names: set<T>, afterFinish: bool, ops: seq<Op<T>>, name: T)
    requires name in names
    ensures Consumes(names, afterFinish, ops) + (if name in FromStart(names, afterFinish, ops).seen then 1 else 0)
            <= WritesOf(names, ops, name)
  {
    if ops == [] {
    } else {
      ConsumesAndSeen(names, afterFinish, ops[..|ops| - 1], name);
    }
  }

  /** A barrier never opens more often than any one of its names was written. */
  lemma ConsumesBounded<T>(names: set<T>, afterFinish: bool, ops: seq<Op<T>>, name: T)
    requires name in names
    ensures Consumes(names, afterFinish, ops) <= WritesOf(names, ops, name)
  {
    ConsumesAndSeen(names, afterFinish, ops, name);
  }

  lemma {:induction false} RunAppend<T>(names: set<T>, afterFinish: bool, s: Barrier<T>, a: seq<Op<T>>, b: seq<Op<T>>)
    ensures Run(names, afterFinish, s, a + b) == Run(names, afterFinish, Run(names, afterFinish, s, a), b)
  {
    if b == [] {
      assert a + b == a;
    } else {
      RunAppend(names, afterFinish, s, a, b[..|b| - 1]);
      assert (a + b)[..|a + b| - 1] == a + b[..|b| - 1];
    }
  }

  /** Checkpoint and restore of each form, by value. */
  ghost function Restored<T>(afterFinish: bool, s: Barrier<T>): Barrier<T> {
    if afterFinish then s else Barrier(s.seen, false)
  }

  /** Cutting a run anywhere with a checkpoint and a restore leaves the rest of the run as it was. */
  lemma CutUnnoticed<T(!new)>(names: set<T>, afterFinish: bool, a: seq<Op<T>>, b: seq<Op<T>>)
    ensures FromStart(names, afterFinish, a + b) == Run(names, afterFinish, Restored(afterFinish, FromStart(names, afterFinish, a)), b)
  {
    BarrierRecords(names, afterFinish, a);
    RunAppend(names, afterFinish, Barrier({}, false), a, b);
  }

  // ---------------------------------------------------------------------
  // The last value, after finish
  // ---------------------------------------------------------------------

  /** `None` stands for MISSING. */
  datatype Last<V> = Last(value: Option<V>, finished: bool)

  ghost function LastAfter<V>(s: Last<V>, op: Op<V>): Last<V> {
    match op
    case Update(values) => if values == [] then s else Last(Some(values[|values| - 1]), false)
    case Consume => if s.finished then Last(None, false) else s
    case Finish => if s.value.Some? then s.(finished := true) else s
  }

  class LastValueAfterFinish<V> {
    var value: Option<V>
    var finished: bool

    constructor ()
      ensures State() == Last(None, false)
    {
      value, finished := None, false;
    }

    ghost function State(): Last<V>
      reads this
    {
      Last(value, finished)
    }

    method Update(values: seq<V>) returns (r: bool)
      modifies this
      ensures State() == LastAfter(old(State()), Op.Update(values)) && (r <==> values != [])
    {
      if |values| == 0 {
        return false;
      }
      finished := false;
      value := Some(values[|values| - 1]);
      return true;
    }

    method Consume() returns (r: bool)
      modifies this
      ensures State() == LastAfter(old(State()), Op.Consume) && (r <==> old(finished))
    {
      if finished {
        finished := false;
        value := None;
        return true;
      }
      return false;
    }

    method Finish() returns (r: bool)
      modifies this`finished
      ensures State() == LastAfter(old(State()), Op.Finish) && (r <==> finished != old(finished))
    {
      if !finished && value.Some? {
        finished := true;
        return true;
      }
      return false;
    }

    method Checkpoint() returns (c: Option<(V, bool)>)
      ensures c == Checkpointed(State())
    {
      c := if value.None? then None else Some((value.value, finished));
    }

    method FromCheckpoint(c: Option<(V, bool)>) returns (l: LastValueAfterFinish<V>)
      ensures fresh(l) && l.State() == LastRestored(c)
    {
      l := new LastValueAfterFinish();
      if c.Some? {
        l.value, l.finished := Some(c.value.0), c.value.1;
      }
    }
  }

  ghost function Checkpointed<V>(s: Last<V>): Option<(V, bool)> {
    if s.value.None? then None else Some((s.value.value, s.finished))
  }

  ghost function LastRestored<V>(c: Option<(V, bool)>): Last<V> {
    if c.None? then Last(None, false) else Last(Some(c.value.0), c.value.1)
  }

  ghost function LastRun<V>(s: Last<V>, ops: seq<Op<V>>): Last<V> {
    if ops == [] then s else LastAfter(LastRun(s, ops[..|ops| - 1]), ops[|ops| - 1])
  }

  ghost predicate WritesValue<V>(op: Op<V>) {
    op.Update? && op.values != []
  }

  /** The last non-empty update is operation `w`. */
  ghost predicate LastWrite<V>(ops: seq<Op<V>>, w: nat) {
    w < |ops| && WritesValue(ops[w]) && forall i | w < i < |ops| :: !WritesValue(ops[i])
  }

  /** After the last write: still held unless a finish was followed by a consume, available once finished. */
  lemma {:induction false} LastValueMeaning<V>(ops: seq<Op<V>>, w: nat)
    requires LastWrite(ops, w)
    ensures var s := LastRun(Last(None, false), ops);
            var taken := exists f, c | w < f < c < |ops| :: ops[f].Finish? && ops[c].Consume?;
            && (s.value == if taken then None else Some(ops[w].values[|ops[w].values| - 1]))
            && (s.finished <==> !taken && exists f | w < f < |ops| :: ops[f].Finish?)
  {
    var front := ops[..|ops| - 1];
    assert forall i | 0 <= i < |front| :: front[i] == ops[i];
    if w < |front| {
      LastValueMeaning(front, w);
      if f, c :| w < f < c < |front| && front[f].Finish? && front[c].Consume? {
        assert ops[f].Finish? && ops[c].Consume?;
      } else if ops[|front|].Consume? {
        if f :| w < f < |front| && front[f].Finish? {
          assert ops[f].Finish?;
        }
      }
    }
  }

  /** A channel without a value is never finished, so its checkpoint forgets nothing. */
  lemma {:induction false} MissingIsUnfinished<V>(ops: seq<Op<V>>)
    ensures var s := LastRun(Last(None, false), ops); LastRestored(Checkpointed(s)) == s
  {
    if ops == [] {
    } else {
      MissingIsUnfinished(ops[..|ops| - 1]);
    }
  }

  lemma {:induction false} LastRunAppend<V>(s: Last<V>, a: seq<Op<V>>, b: seq<Op<V>>)
    ensures LastRun(s, a + b) == LastRun(LastRun(s, a), b)
  {
    if b == [] {
      assert a + b == a;
    } else {
      LastRunAppend(s, a, b[..|b| - 1]);
      assert (a + b)[..|a + b| - 1] == a + b[..|b| - 1];
    }
  }

  lemma LastCutUnnoticed<V>(a: seq<Op<V>>, b: seq<Op<V>>)
    ensures LastRun(Last(None, false), a + b) == LastRun(LastRestored(Checkpointed(LastRun(Last(None, false), a))), b)
  {
    MissingIsUnfinished(a);
    LastRunAppend(Last(None, false), a, b);
  }
}
