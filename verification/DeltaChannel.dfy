/** `DeltaChannel` of langgraph/channels/delta.py: stepwise updates, replay, and when they agree. */
module DeltaChannel {
  import opened Prelude

  /**
   * The Python values a channel handles: its reducer, the default `typ()`, the value `None`, and the
   * recogniser of overwrites, which gives the wrapped value.
   */
  datatype Kind<!V(==)> = Kind(reducer: (V, seq<V>) -> V, typ: V, none: V, unwrap: V -> Option<V>)
  {
    predicate IsOverwrite(v: V) {
      unwrap(v).Some?
    }

    /** The value an overwrite resets the channel to. */
    function Reset(v: V): V
      requires IsOverwrite(v)
    {
      if unwrap(v).value == none then typ else unwrap(v).value
    }
  }

  datatype UpdateError = TwoOverwrites

  /** A stored blob: nothing, a snapshot, or a plain value written by an older channel type. */
  datatype Stored<+V> = Absent | Snapshot(value: V) | Plain(value: V)

  datatype PendingWrite<+V> = PendingWrite(taskId: int, idx: int, value: V)

  function Values<V>(ws: seq<PendingWrite<V>>): (vs: seq<V>)
    ensures |vs| == |ws|
  {
    seq(|ws|, i requires 0 <= i < |ws| => ws[i].value)
  }

  // ---------------------------------------------------------------------
  // One step, one replay
  // ---------------------------------------------------------------------

  ghost function LastOverwrite<V>(k: Kind<V>, vs: seq<V>): (r: Option<nat>)
    ensures r.Some? ==> r.value < |vs| && k.IsOverwrite(vs[r.value])
    ensures forall i | (if r.Some? then r.value + 1 else 0) <= i < |vs| :: !k.IsOverwrite(vs[i])
  {
    if vs == [] then None
    else if k.IsOverwrite(vs[|vs| - 1]) then Some(|vs| - 1)
    else LastOverwrite(k, vs[..|vs| - 1])
  }

  ghost predicate TwoOverwritesIn<V>(k: Kind<V>, vs: seq<V>) {
    exists i, j | 0 <= i < j < |vs| :: k.IsOverwrite(vs[i]) && k.IsOverwrite(vs[j])
  }

  /** The value after one super-step; `None` is MISSING. */
  ghost function Stepped<V>(k: Kind<V>, value: Option<V>, vs: seq<V>): Result<Option<V>, UpdateError> {
    if vs == [] then Ok(value)
    else if TwoOverwritesIn(k, vs) then Err(TwoOverwrites)
    else
      match LastOverwrite(k, vs)
      case Some(i) => Ok(Some(k.Reset(vs[i])))
      case None => Ok(Some(k.reducer(value.GetOr(k.typ), vs)))
  }

  ghost function Reduced<V>(k: Kind<V>, base: V, vs: seq<V>): V {
    if vs == [] then base else k.reducer(base, vs)
  }

  /** The value one replay of many writes gives. */
  ghost function Replayed<V>(k: Kind<V>, base: V, vs: seq<V>): V {
    match LastOverwrite(k, vs)
    case Some(i) => Reduced(k, k.Reset(vs[i]), vs[i + 1..])
    case None => Reduced(k, base, vs)
  }

  ghost function Held<V>(s: Stored<V>): Option<V> {
    if s.Absent? then None else Some(s.value)
  }

  class Channel<V(==)> {
    const kind: Kind<V>
    var value: Option<V>

    constructor (kind: Kind<V>)
      ensures this.kind == kind && value == None
    {
      this.kind, this.value := kind, None;
    }

    method FromCheckpoint(checkpoint: Stored<V>) returns (restored: Channel<V>)
      ensures fresh(restored) && restored.kind == kind
      ensures restored.value == Some(Held(checkpoint).GetOr(kind.typ))
    {
      restored := new Channel(kind);
      match checkpoint {
        case Absent => restored.value := Some(kind.typ);
        case Snapshot(v) => restored.value := Some(v);
        case Plain(v) => restored.value := Some(v);
      }
    }

    /** Called on a channel that `FromCheckpoint` made, so a value is present. */
    method ReplayWrites(writes: seq<PendingWrite<V>>)
      requires value.Some?
      modifies this
      ensures value == Some(Replayed(kind, old(value).value, Values(writes)))
    {
      var values := Values(writes);
      if values == [] {
        return;
      }
      var base, start := value.value, 0;
      for i := 0 to |values|
        invariant match LastOverwrite(kind, values[..i])
                  case None => base == old(value).value && start == 0
                  case Some(j) => base == kind.Reset(values[j]) && start == j + 1
      {
        assert values[..i + 1][..i] == values[..i];
        if kind.IsOverwrite(values[i]) {
          base := if kind.unwrap(values[i]).value == kind.none then kind.typ else kind.unwrap(values[i]).value;
          start := i + 1;
        }
      }
      assert values[..|values|] == values;
      var remaining := values[start..];
      value := Some(if remaining != [] then kind.reducer(base, remaining) else base);
    }

    /** On an error the value is left alone. */
    method Update(values: seq<V>) returns (r: Result<bool, UpdateError>)
      modifies this
      ensures match Stepped(kind, old(value), values)
              case Ok(v) => r == Ok(values != []) && value == v
              case Err(e) => r == Err(e) && value == old(value)
    {
      if values == [] {
        return Ok(false);
      }
      var overwriteIdx: Option<nat> := None;
      for i := 0 to |values|
        invariant overwriteIdx == LastOverwrite(kind, values[..i])
        invariant overwriteIdx.Some? ==> forall j | 0 <= j < i && kind.IsOverwrite(values[j]) :: j == overwriteIdx.value
      {
        assert values[..i + 1][..i] == values[..i];
        if kind.IsOverwrite(values[i]) {
          if overwriteIdx.Some? {
            return Err(TwoOverwrites);
          }
          overwriteIdx := Some(i);
        }
      }
      assert values[..|values|] == values;
      if overwriteIdx.Some? {
        var overwritten := kind.unwrap(values[overwriteIdx.value]).value;
        value := Some(if overwritten == kind.none then kind.typ else overwritten);
        return Ok(true);
      }
      var base := if value.None? then kind.typ else value.value;
      value := Some(kind.reducer(base, values));
      return Ok(true);
    }
  }

  // ---------------------------------------------------------------------
  // Runs
  // ---------------------------------------------------------------------

  /** The live value after a run of super-steps, or the error that stopped it. */
  ghost function Run<V>(k: Kind<V>, start: Option<V>, steps: seq<seq<V>>): Result<Option<V>, UpdateError> {
    if steps == [] then Ok(start) else
      match Run(k, start, steps[..|steps| - 1])
      case Ok(v) => Stepped(k, v, steps[|steps| - 1])
      case Err(e) => Err(e)
  }

  /** The contract a reducer must meet, on the states where it is promised. */
  ghost predicate Lawful<V(!new)>(k: Kind<V>, inv: V -> bool) {
    && inv(k.typ)
    && (forall s, xs {:trigger k.reducer(s, xs)} | inv(s) :: inv(k.reducer(s, xs)))
    && (forall s, xs, ys {:trigger k.reducer(k.reducer(s, xs), ys)} | inv(s) ::
         k.reducer(k.reducer(s, xs), ys) == k.reducer(s, xs + ys))
  }

  /** Every overwrite among `vs` resets to a promised state. */
  ghost predicate ResetsInto<V>(k: Kind<V>, inv: V -> bool, vs: seq<V>) {
    forall i | 0 <= i < |vs| && k.IsOverwrite(vs[i]) :: inv(k.Reset(vs[i]))
  }

  ghost predicate AllResetInto<V>(k: Kind<V>, inv: V -> bool, steps: seq<seq<V>>) {
    forall i | 0 <= i < |steps| :: ResetsInto(k, inv, steps[i])
  }

  /** In the last step that holds an overwrite, no plain write follows it. */
  ghost predicate ResetsCleanly<V>(k: Kind<V>, steps: seq<seq<V>>) {
    if steps == [] then true else
      var last := steps[|steps| - 1];
      if LastOverwrite(k, last).Some? then LastOverwrite(k, last).value == |last| - 1
      else ResetsCleanly(k, steps[..|steps| - 1])
  }

  // ---------------------------------------------------------------------
  // Live order and stored order
  // ---------------------------------------------------------------------

  /**
   * The scheduler applies a step's writes in the order of its tasks' paths, the store returns them by
   * task id: the same writes step by step, but each step possibly in another order.
   */
  ghost predicate SameWrites<V>(live: seq<seq<V>>, stored: seq<seq<V>>) {
    |live| == |stored| && forall i | 0 <= i < |live| :: multiset(live[i]) == multiset(stored[i])
  }

  /** Since the last step that holds an overwrite, every step ran in the order in which it is stored. */
  ghost predicate InStoredOrder<V>(k: Kind<V>, live: seq<seq<V>>, stored: seq<seq<V>>)
    requires |live| == |stored|
  {
    if stored == [] then true else
      var n := |stored| - 1;
      LastOverwrite(k, stored[n]).Some? || (live[n] == stored[n] && InStoredOrder(k, live[..n], stored[..n]))
  }

  /** The reducer does not care about the order within a batch. */
  ghost predicate OrderFree<V(!new)>(k: Kind<V>, inv: V -> bool) {
    forall s, xs, ys {:trigger k.reducer(s, xs), k.reducer(s, ys)} | inv(s) && multiset(xs) == multiset(ys) ::
      k.reducer(s, xs) == k.reducer(s, ys)
  }

  lemma {:induction false} StoredOrderIsItsOwn<V>(k: Kind<V>, steps: seq<seq<V>>)
    ensures SameWrites(steps, steps) && InStoredOrder(k, steps, steps)
  {
    if steps == [] {
    } else {
      StoredOrderIsItsOwn(k, steps[..|steps| - 1]);
    }
  }

  lemma SameWritesFront<V>(live: seq<seq<V>>, stored: seq<seq<V>>)
    requires SameWrites(live, stored) && stored != []
    ensures var n := |stored| - 1;
            && SameWrites(live[..n], stored[..n]) && multiset(live[n]) == multiset(stored[n])
            && |live[n]| == |stored[n]|
  {
    var n := |stored| - 1;
    assert |multiset(live[n])| == |live[n]| && |multiset(stored[n])| == |stored[n]|;
  }

  /** Reordering a step keeps its overwrite, if it holds just one. */
  lemma SameOverwrite<V>(k: Kind<V>, a: seq<V>, b: seq<V>)
    requires multiset(a) == multiset(b)
    ensures LastOverwrite(k, a).Some? <==> LastOverwrite(k, b).Some?
    ensures LastOverwrite(k, a).Some? && !TwoOverwritesIn(k, a) ==>
              a[LastOverwrite(k, a).value] == b[LastOverwrite(k, b).value]
  {
    if LastOverwrite(k, a).Some? {
      var x := a[LastOverwrite(k, a).value];
      assert x in multiset(b);
      var j :| 0 <= j < |b| && b[j] == x;
      assert k.IsOverwrite(b[j]);
    }
    if LastOverwrite(k, b).Some? {
      var x := b[LastOverwrite(k, b).value];
      assert x in multiset(a);
      var j :| 0 <= j < |a| && a[j] == x;
      assert k.IsOverwrite(a[j]);
    }
  }

  lemma ResetsIntoReordered<V>(k: Kind<V>, inv: V -> bool, live: seq<seq<V>>, stored: seq<seq<V>>)
    requires SameWrites(live, stored) && AllResetInto(k, inv, stored)
    ensures AllResetInto(k, inv, live)
  {
    forall i, j | 0 <= i < |live| && 0 <= j < |live[i]| && k.IsOverwrite(live[i][j]) ensures inv(k.Reset(live[i][j])) {
      assert live[i][j] in multiset(stored[i]);
      var n :| 0 <= n < |stored[i]| && stored[i][n] == live[i][j];
      assert ResetsInto(k, inv, stored[i]);
    }
  }

  lemma {:induction false} LastOverwriteAppend<V>(k: Kind<V>, a: seq<V>, b: seq<V>)
    ensures LastOverwrite(k, a + b) ==
            match LastOverwrite(k, b)
            case Some(i) => Some(|a| + i)
            case None => LastOverwrite(k, a)
  {
    if b == [] {
      assert a + b == a;
    } else {
      assert (a + b)[..|a + b| - 1] == a + b[..|b| - 1];
      LastOverwriteAppend(k, a, b[..|b| - 1]);
    }
  }

  lemma ReducedTwice<V(!new)>(k: Kind<V>, inv: V -> bool, base: V, xs: seq<V>, ys: seq<V>)
    requires Lawful(k, inv) && inv(base)
    ensures Reduced(k, Reduced(k, base, xs), ys) == Reduced(k, base, xs + ys)
  {
    assert xs + [] == xs && [] + ys == ys;
    assert k.reducer(k.reducer(base, xs), ys) == k.reducer(base, xs + ys);
  }

  /** What a replay starts from: the reset value or the base, and the writes reduced onto it. */
  ghost function Origin<V>(k: Kind<V>, base: V, vs: seq<V>): (V, seq<V>) {
    match LastOverwrite(k, vs)
    case Some(i) => (k.Reset(vs[i]), vs[i + 1..])
    case None => (base, vs)
  }

  lemma OriginAppend<V>(k: Kind<V>, base: V, xs: seq<V>, ys: seq<V>)
    requires LastOverwrite(k, ys).None?
    ensures Origin(k, base, xs + ys) == (Origin(k, base, xs).0, Origin(k, base, xs).1 + ys)
    ensures Replayed(k, base, xs) == Reduced(k, Origin(k, base, xs).0, Origin(k, base, xs).1)
    ensures Replayed(k, base, xs + ys) == Reduced(k, Origin(k, base, xs).0, Origin(k, base, xs).1 + ys)
  {
    LastOverwriteAppend(k, xs, ys);
    if LastOverwrite(k, xs).Some? {
      var i := LastOverwrite(k, xs).value;
      assert (xs + ys)[i] == xs[i] && (xs + ys)[i + 1..] == xs[i + 1..] + ys;
    }
  }

  lemma ReplayThenReduce<V(!new)>(k: Kind<V>, inv: V -> bool, base: V, xs: seq<V>, ys: seq<V>)
    requires Lawful(k, inv) && ResetsInto(k, inv, xs) && LastOverwrite(k, ys).None?
    requires LastOverwrite(k, xs).None? ==> inv(base)
    ensures Replayed(k, base, xs + ys) == Reduced(k, Replayed(k, base, xs), ys)
  {
    OriginAppend(k, base, xs, ys);
    ReducedTwice(k, inv, Origin(k, base, xs).0, Origin(k, base, xs).1, ys);
  }

  lemma {:induction false} FlattenResetsInto<V>(k: Kind<V>, inv: V -> bool, steps: seq<seq<V>>)
    requires AllResetInto(k, inv, steps)
    ensures ResetsInto(k, inv, Flatten(steps))
  {
    if steps == [] {
    } else {
      assert forall i | 0 <= i < |steps| - 1 :: steps[1..][i] == steps[i + 1];
      FlattenResetsInto(k, inv, steps[1..]);
    }
  }

  /** A run of steps as the sequence of its earlier steps and its last. */
  lemma FlattenLast<T>(steps: seq<seq<T>>)
    requires steps != []
    ensures Flatten(steps) == Flatten(steps[..|steps| - 1]) + steps[|steps| - 1]
  {
    FlattenSnoc(steps[..|steps| - 1], steps[|steps| - 1]);
    assert steps == steps[..|steps| - 1] + [steps[|steps| - 1]];
  }

  /** A run of lawful steps stays within the promised states. */
  lemma {:induction false} RunInvariant<V(!new)>(k: Kind<V>, inv: V -> bool, start: Option<V>, steps: seq<seq<V>>)
    requires Lawful(k, inv) && AllResetInto(k, inv, steps)
    requires start.Some? ==> inv(start.value)
    requires Run(k, start, steps).Ok?
    ensures inv(Run(k, start, steps).value.GetOr(k.typ))
  {
    if steps == [] {
    } else {
      RunInvariant(k, inv, start, steps[..|steps| - 1]);
      assert ResetsInto(k, inv, steps[|steps| - 1]);
    }
  }

  lemma PlainStep<V>(k: Kind<V>, value: Option<V>, vs: seq<V>)
    requires LastOverwrite(k, vs).None?
    ensures Stepped(k, value, vs).Ok?
    ensures Stepped(k, value, vs).value.GetOr(k.typ) == Reduced(k, value.GetOr(k.typ), vs)
    ensures value.Some? ==> Stepped(k, value, vs).value.Some?
  {
  }

  lemma ResetStep<V>(k: Kind<V>, value: Option<V>, vs: seq<V>)
    requires LastOverwrite(k, vs).Some? && Stepped(k, value, vs).Ok?
    ensures Stepped(k, value, vs).value == Some(k.Reset(vs[LastOverwrite(k, vs).value])) && !TwoOverwritesIn(k, vs)
  {
  }

  lemma ReorderedBatch<V(!new)>(k: Kind<V>, inv: V -> bool, base: V, xs: seq<V>, ys: seq<V>)
    requires multiset(xs) == multiset(ys) && inv(base) && (xs == ys || OrderFree(k, inv))
    ensures Reduced(k, base, xs) == Reduced(k, base, ys)
  {
    assert |multiset(xs)| == |xs| && |multiset(ys)| == |ys|;
    if xs != ys {
      assert k.reducer(base, xs) == k.reducer(base, ys);
    }
  }

  /**
   * One replay of the stored writes gives the value the live run reached step by step (`typ()` for
   * MISSING), if the steps since the last reset ran in stored order or order does not matter.
   */
  lemma {:induction false} ReplayEqualsRun<V(!new)>(k: Kind<V>, inv: V -> bool, start: Option<V>, live: seq<seq<V>>, stored: seq<seq<V>>)
    requires Lawful(k, inv) && AllResetInto(k, inv, stored) && SameWrites(live, stored)
    requires start.Some? ==> inv(start.value)
    requires Run(k, start, live).Ok? && ResetsCleanly(k, stored)
    requires OrderFree(k, inv) || InStoredOrder(k, live, stored)
    ensures Replayed(k, start.GetOr(k.typ), Flatten(stored)) == Run(k, start, live).value.GetOr(k.typ)
  {
    if stored == [] {
    } else {
      var n := |stored| - 1;
      var front, last := stored[..n], stored[n];
      SameWritesFront(live, stored);
      SameOverwrite(k, live[n], last);
      FlattenLast(stored);
      var v := Run(k, start, live[..n]).value;
      if LastOverwrite(k, last).Some? {
        ReplayEndingInReset(k, start.GetOr(k.typ), Flatten(front), last);
        ResetStep(k, v, live[n]);
      } else {
        ReplayEqualsRun(k, inv, start, live[..n], front);
        FlattenResetsInto(k, inv, front);
        ReplayThenReduce(k, inv, start.GetOr(k.typ), Flatten(front), last);
        PlainStep(k, v, live[n]);
        ResetsIntoReordered(k, inv, live[..n], front);
        RunInvariant(k, inv, start, live[..n]);
        ReorderedBatch(k, inv, v.GetOr(k.typ), live[n], last);
      }
    }
  }

  // ---------------------------------------------------------------------
  // The condition is exact
  // ---------------------------------------------------------------------

  /**
   * A reducer that loses nothing of the batches `good` for a state: different ones give different values,
   * as list concatenation does.
   */
  ghost predicate Injective<V(!new)>(k: Kind<V>, good: (V, seq<V>) -> bool) {
    forall s, xs, ys | good(s, xs) && good(s, ys) && Reduced(k, s, xs) == Reduced(k, s, ys) :: xs == ys
  }

  lemma {:induction false} ReplayEndingInReset<V>(k: Kind<V>, base: V, xs: seq<V>, ys: seq<V>)
    requires LastOverwrite(k, ys).Some?
    ensures var i := LastOverwrite(k, ys).value;
            Replayed(k, base, xs + ys) == Reduced(k, k.Reset(ys[i]), ys[i + 1..])
  {
    LastOverwriteAppend(k, xs, ys);
    var i := LastOverwrite(k, ys).value;
    assert (xs + ys)[|xs| + i + 1..] == ys[i + 1..];
  }

  lemma {:induction false} RunEndingInReset<V>(k: Kind<V>, start: Option<V>, live: seq<seq<V>>, last: seq<V>)
    requires live != [] && Run(k, start, live).Ok?
    requires multiset(live[|live| - 1]) == multiset(last) && LastOverwrite(k, last).Some?
    ensures Run(k, start, live).value == Some(k.Reset(last[LastOverwrite(k, last).value]))
  {
    var n := |live| - 1;
    SameOverwrite(k, live[n], last);
    ResetStep(k, Run(k, start, live[..n]).value, live[n]);
  }

  /**
   * For any reducer: a run whose last step resets the channel is replayed correctly exactly when
   * reducing the writes stored after that overwrite leaves the overwritten value as it is.
   */
  lemma {:induction false} AgreesIffDroppedHarmless<V>(k: Kind<V>, start: Option<V>, live: seq<seq<V>>, stored: seq<seq<V>>)
    requires SameWrites(live, stored) && Run(k, start, live).Ok?
    requires stored != [] && LastOverwrite(k, stored[|stored| - 1]).Some?
    ensures var last := stored[|stored| - 1]; var i := LastOverwrite(k, last).value;
            && Run(k, start, live).value == Some(k.Reset(last[i]))
            && Replayed(k, start.GetOr(k.typ), Flatten(stored)) == Reduced(k, k.Reset(last[i]), last[i + 1..])
            && (Replayed(k, start.GetOr(k.typ), Flatten(stored)) == Run(k, start, live).value.GetOr(k.typ)
                <==> Reduced(k, k.Reset(last[i]), last[i + 1..]) == k.Reset(last[i]))
  {
    var n := |stored| - 1;
    RunEndingInReset(k, start, live, stored[n]);
    var before := Flatten(stored[..n]);
    assert Flatten(stored) == before + stored[n] by { FlattenLast(stored); }
    ReplayEndingInReset(k, start.GetOr(k.typ), before, stored[n]);
  }

  lemma ReducedOnward<V(!new)>(k: Kind<V>, inv: V -> bool, b: V, dropped: seq<V>, later: seq<V>, ys: seq<V>)
    requires Lawful(k, inv) && inv(b)
    ensures Reduced(k, Reduced(k, b, dropped + later), ys) == Reduced(k, b, dropped + (later + ys))
  {
    ReducedTwice(k, inv, b, dropped + later, ys);
    assert dropped + later + ys == dropped + (later + ys);
  }

  /** The writes since the last reset, as they ran and as they are stored, and those `update` dropped. */
  datatype Since<V> = Since(origin: V, dropped: seq<V>, live: seq<V>, stored: seq<V>)

  /**
   * The run holds the origin reduced with the writes as they ran; the replay reduces the dropped writes
   * and the writes as they are stored.
   */
  ghost predicate Describes<V>(k: Kind<V>, start: Option<V>, live: seq<seq<V>>, stored: seq<seq<V>>, w: Since<V>)
    requires |live| == |stored|
  {
    && Run(k, start, live).Ok?
    && Run(k, start, live).value.GetOr(k.typ) == Reduced(k, w.origin, w.live)
    && Replayed(k, start.GetOr(k.typ), Flatten(stored)) == Reduced(k, w.origin, w.dropped + w.stored)
    && (ResetsCleanly(k, stored) <==> w.dropped == [])
    && multiset(w.live) == multiset(w.stored) && |w.live| == |w.stored|
    && (InStoredOrder(k, live, stored) <==> w.live == w.stored)
  }

  ghost function SinceReset<V>(k: Kind<V>, start: Option<V>, live: seq<seq<V>>, stored: seq<seq<V>>): Since<V>
    requires |live| == |stored|
  {
    if stored == [] then Since(start.GetOr(k.typ), [], [], [])
    else
      var n := |stored| - 1;
      match LastOverwrite(k, stored[n])
      case Some(i) => Since(k.Reset(stored[n][i]), stored[n][i + 1..], [], [])
      case None =>
        var w := SinceReset(k, start, live[..n], stored[..n]);
        w.(live := w.live + live[n], stored := w.stored + stored[n])
  }

  lemma {:induction false} DescribesReset<V>(k: Kind<V>, start: Option<V>, live: seq<seq<V>>, stored: seq<seq<V>>)
    requires SameWrites(live, stored) && Run(k, start, live).Ok?
    requires stored != [] && LastOverwrite(k, stored[|stored| - 1]).Some?
    ensures var last := stored[|stored| - 1]; var i := LastOverwrite(k, last).value;
            Describes(k, start, live, stored, Since(k.Reset(last[i]), last[i + 1..], [], []))
  {
    AgreesIffDroppedHarmless(k, start, live, stored);
    var last := stored[|stored| - 1];
    var i := LastOverwrite(k, last).value;
    assert last[i + 1..] + [] == last[i + 1..];
    assert Reduced(k, k.Reset(last[i]), []) == k.Reset(last[i]);
  }

  lemma SplitEqually<T>(a: seq<T>, b: seq<T>, x: seq<T>, y: seq<T>)
    requires |a| == |b| && |x| == |y|
    ensures a + x == b + y <==> a == b && x == y
  {
    if a + x == b + y {
      assert a == (a + x)[..|a|] == (b + y)[..|b|] == b;
      assert x == (a + x)[|a|..] == (b + y)[|b|..] == y;
    }
  }

  lemma {:induction false} DescribesOnward<V(!new)>(k: Kind<V>, inv: V -> bool, start: Option<V>, live: seq<seq<V>>, stored: seq<seq<V>>, w: Since<V>)
    requires Lawful(k, inv) && inv(w.origin) && AllResetInto(k, inv, stored) && (start.Some? ==> inv(start.value))
    requires SameWrites(live, stored) && stored != [] && LastOverwrite(k, stored[|stored| - 1]).None?
    requires Describes(k, start, live[..|stored| - 1], stored[..|stored| - 1], w)
    ensures var n := |stored| - 1;
            Describes(k, start, live, stored, w.(live := w.live + live[n], stored := w.stored + stored[n]))
  {
    var n := |stored| - 1;
    var front, last := stored[..n], stored[n];
    SameWritesFront(live, stored);
    SameOverwrite(k, live[n], last);
    FlattenLast(stored);
    FlattenResetsInto(k, inv, front);
    ReplayThenReduce(k, inv, start.GetOr(k.typ), Flatten(front), last);
    ReducedOnward(k, inv, w.origin, w.dropped, w.stored, last);
    ReducedTwice(k, inv, w.origin, w.live, live[n]);
    PlainStep(k, Run(k, start, live[..n]).value, live[n]);
    SplitEqually(w.live, w.stored, live[n], last);
  }

  lemma {:induction false} RunSinceReset<V(!new)>(k: Kind<V>, inv: V -> bool, start: Option<V>, live: seq<seq<V>>, stored: seq<seq<V>>)
    requires Lawful(k, inv) && AllResetInto(k, inv, stored) && SameWrites(live, stored)
    requires start.Some? ==> inv(start.value)
    requires Run(k, start, live).Ok?
    ensures inv(SinceReset(k, start, live, stored).origin)
    ensures Describes(k, start, live, stored, SinceReset(k, start, live, stored))
  {
    if stored == [] {
    } else {
      var n := |stored| - 1;
      SameWritesFront(live, stored);
      if LastOverwrite(k, stored[n]).Some? {
        DescribesReset(k, start, live, stored);
        assert ResetsInto(k, inv, stored[n]);
      } else {
        RunSinceReset(k, inv, start, live[..n], stored[..n]);
        DescribesOnward(k, inv, start, live, stored, SinceReset(k, start, live[..n], stored[..n]));
      }
    }
  }

  /** What was written since the last reset is good for the state it was written onto, in either order. */
  ghost predicate GoodSince<V>(k: Kind<V>, inv: V -> bool, good: (V, seq<V>) -> bool, w: Since<V>) {
    inv(w.origin) ==> good(w.origin, w.live) && good(w.origin, w.dropped + w.stored)
  }

  /**
   * For a reducer that loses nothing, replay and run agree exactly when no plain write is stored after the
   * overwrite in the last step that holds one (`update` drops such writes, `replay_writes` keeps them) and
   * every step since ran in stored order.
   */
  lemma {:induction false} ReplayAgreesIffClean<V(!new)>(k: Kind<V>, inv: V -> bool, good: (V, seq<V>) -> bool, start: Option<V>,
        live: seq<seq<V>>, stored: seq<seq<V>>)
    requires Lawful(k, inv) && Injective(k, good) && AllResetInto(k, inv, stored) && SameWrites(live, stored)
    requires start.Some? ==> inv(start.value)
    requires Run(k, start, live).Ok? && GoodSince(k, inv, good, SinceReset(k, start, live, stored))
    ensures Replayed(k, start.GetOr(k.typ), Flatten(stored)) == Run(k, start, live).value.GetOr(k.typ)
            <==> ResetsCleanly(k, stored) && InStoredOrder(k, live, stored)
  {
    var w := SinceReset(k, start, live, stored);
    RunSinceReset(k, inv, start, live, stored);
    if w.dropped == [] {
      assert w.dropped + w.stored == w.stored;
    } else {
      assert |w.dropped + w.stored| > |w.live|;
    }
  }

  // ---------------------------------------------------------------------
  // Several steps under one checkpoint
  // ---------------------------------------------------------------------

  ghost predicate AllPlain<V>(k: Kind<V>, steps: seq<seq<V>>) {
    forall i | 0 <= i < |steps| :: LastOverwrite(k, steps[i]).None?
  }

  lemma {:induction false} PlainFlatten<V>(k: Kind<V>, steps: seq<seq<V>>)
    requires AllPlain(k, steps)
    ensures LastOverwrite(k, Flatten(steps)).None?
  {
    if steps == [] {
    } else {
      PlainFlatten(k, steps[..|steps| - 1]);
      FlattenLast(steps);
      LastOverwriteAppend(k, Flatten(steps[..|steps| - 1]), steps[|steps| - 1]);
    }
  }

  lemma PlainStepped<V>(k: Kind<V>, value: Option<V>, vs: seq<V>)
    requires LastOverwrite(k, vs).None?
    ensures Stepped(k, value, vs) == Ok(if vs == [] then value else Some(k.reducer(value.GetOr(k.typ), vs)))
  {
  }

  lemma PlainStepsTwice<V(!new)>(k: Kind<V>, inv: V -> bool, value: Option<V>, xs: seq<V>, ys: seq<V>)
    requires Lawful(k, inv) && (value.Some? ==> inv(value.value))
    requires LastOverwrite(k, xs).None? && LastOverwrite(k, ys).None?
    ensures Stepped(k, Stepped(k, value, xs).value, ys) == Stepped(k, value, xs + ys)
  {
    LastOverwriteAppend(k, xs, ys);
    PlainStepped(k, value, xs);
    PlainStepped(k, Stepped(k, value, xs).value, ys);
    PlainStepped(k, value, xs + ys);
    assert [] + ys == ys && xs + [] == xs;
    assert k.reducer(k.reducer(value.GetOr(k.typ), xs), ys) == k.reducer(value.GetOr(k.typ), xs + ys);
  }

  /**
   * With exit durability the writes of several super-steps, none of which overwrites, are stored under one
   * checkpoint, in the order of the steps: under a lawful reducer they amount to one step.
   */
  lemma {:induction false} PlainStepsAreOne<V(!new)>(k: Kind<V>, inv: V -> bool, start: Option<V>, steps: seq<seq<V>>)
    requires Lawful(k, inv) && (start.Some? ==> inv(start.value)) && AllPlain(k, steps)
    ensures Run(k, start, steps) == Stepped(k, start, Flatten(steps))
  {
    if steps == [] {
    } else {
      var front, last := steps[..|steps| - 1], steps[|steps| - 1];
      PlainStepsAreOne(k, inv, start, front);
      PlainFlatten(k, front);
      PlainStepped(k, start, Flatten(front));
      PlainStepsTwice(k, inv, start, Flatten(front), last);
      FlattenLast(steps);
    }
  }

  lemma {:induction false} SameFlatten<V>(live: seq<seq<V>>, stored: seq<seq<V>>)
    requires SameWrites(live, stored)
    ensures multiset(Flatten(live)) == multiset(Flatten(stored))
  {
    if stored == [] {
    } else {
      var n := |stored| - 1;
      SameWritesFront(live, stored);
      SameFlatten(live[..n], stored[..n]);
      FlattenLast(live);
      FlattenLast(stored);
    }
  }

  /** So a checkpoint that holds them counts as one step, its writes in live order and in stored order. */
  lemma {:induction false} ExitCheckpointIsOneStep<V(!new)>(k: Kind<V>, inv: V -> bool, start: Option<V>, live: seq<seq<V>>, stored: seq<seq<V>>)
    requires Lawful(k, inv) && (start.Some? ==> inv(start.value))
    requires SameWrites(live, stored) && AllPlain(k, stored)
    ensures Run(k, start, live) == Stepped(k, start, Flatten(live))
    ensures multiset(Flatten(live)) == multiset(Flatten(stored))
  {
    forall i | 0 <= i < |live| ensures LastOverwrite(k, live[i]).None? {
      SameOverwrite(k, live[i], stored[i]);
    }
    PlainStepsAreOne(k, inv, start, live);
    SameFlatten(live, stored);
  }
}
