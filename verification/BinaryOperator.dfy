/** `BinaryOperatorAggregate` of langgraph/channels/binop.py, and its agreement with a folding delta channel. */
module BinaryOperator {
  import opened Prelude
  import Delta = DeltaChannel

  ghost function Fold<S, X>(f: (S, X) -> S, s: S, xs: seq<X>): S {
    if xs == [] then s else f(Fold(f, s, xs[..|xs| - 1]), xs[|xs| - 1])
  }

  lemma {:induction false} FoldAppend<S, X>(f: (S, X) -> S, s: S, xs: seq<X>, ys: seq<X>)
    ensures Fold(f, s, xs + ys) == Fold(f, Fold(f, s, xs), ys)
  {
    if ys == [] {
      assert xs + ys == xs;
    } else {
      FoldAppend(f, s, xs, ys[..|ys| - 1]);
      assert (xs + ys)[..|xs + ys| - 1] == xs + ys[..|ys| - 1];
    }
  }

  /** Applying two updates in either order gives the same state. */
  ghost predicate Exchangeable<S(!new), X(!new)>(f: (S, X) -> S) {
    forall s, x, y :: f(f(s, x), y) == f(f(s, y), x)
  }

  lemma {:induction false} MoveToEnd<S(!new), X(!new)>(f: (S, X) -> S, s: S, p: seq<X>, x: X, q: seq<X>)
    requires Exchangeable(f)
    ensures Fold(f, s, p + [x] + q) == f(Fold(f, s, p + q), x)
  {
    if q == [] {
      assert p + [x] + q == p + [x] && p + q == p;
      assert (p + [x])[..|p|] == p;
    } else {
      var q', z := q[..|q| - 1], q[|q| - 1];
      MoveToEnd(f, s, p, x, q');
      assert (p + [x] + q)[..|p + [x] + q| - 1] == p + [x] + q';
      assert (p + q)[..|p + q| - 1] == p + q';
    }
  }

  lemma {:induction false} FoldPermutation<S(!new), X(!new)>(f: (S, X) -> S, s: S, xs: seq<X>, ys: seq<X>)
    requires Exchangeable(f) && multiset(xs) == multiset(ys)
    ensures Fold(f, s, xs) == Fold(f, s, ys)
  {
    if xs == [] {
      assert |multiset(ys)| == |ys|;
    } else {
      var front, x := xs[..|xs| - 1], xs[|xs| - 1];
      assert xs == front + [x];
      assert x in multiset(ys);
      var i :| 0 <= i < |ys| && ys[i] == x;
      var p, q := ys[..i], ys[i + 1..];
      assert ys == p + [x] + q;
      assert multiset(front) == multiset(p + q) by {
        assert multiset(xs) == multiset(front) + multiset{x};
        assert multiset(ys) == multiset(p + [x] + q) == multiset(p) + multiset{x} + multiset(q);
        assert multiset(front) == multiset(xs) - multiset{x};
      }
      FoldPermutation(f, s, front, p + q);
      MoveToEnd(f, s, p, x, q);
    }
  }

  /** How far one `update` call has come: still reducing, overwritten once, or overwritten twice. */
  datatype Progress<V> = Reducing(value: V) | Overwritten(value: V) | Failed

  function Next<V>(op: (V, V) -> V, unwrap: V -> Option<V>, s: Progress<V>, v: V): Progress<V> {
    match s
    case Failed => Failed
    case Overwritten(o) => if unwrap(v).Some? then Failed else s
    case Reducing(a) => if unwrap(v).Some? then Overwritten(unwrap(v).value) else Reducing(op(a, v))
  }

  ghost function Updated<V>(op: (V, V) -> V, unwrap: V -> Option<V>, s: Progress<V>, vs: seq<V>): Progress<V> {
    Fold((p: Progress<V>, v: V) => Next(op, unwrap, p, v), s, vs)
  }

  ghost predicate FirstOverwriteIs<V>(unwrap: V -> Option<V>, vs: seq<V>, o: V) {
    exists i | 0 <= i < |vs| :: unwrap(vs[i]) == Some(o) && forall j | 0 <= j < i :: unwrap(vs[j]).None?
  }

  class Aggregate<V> {
    const op: (V, V) -> V
    const unwrap: V -> Option<V>
    var value: Option<V>

    /** `typ` is `typ()`, or `None` where that raises and the channel starts MISSING. */
    constructor (op: (V, V) -> V, unwrap: V -> Option<V>, typ: Option<V>)
      ensures this.op == op && this.unwrap == unwrap && value == typ
    {
      this.op, this.unwrap, this.value := op, unwrap, typ;
    }

    /**
     * A MISSING channel takes its first value as it comes, wrapped or not. On an error the value of the
     * first overwrite stays.
     */
    method Update(values: seq<V>) returns (r: Result<bool, Delta.UpdateError>)
      modifies this
      ensures values == [] ==> r == Ok(false) && value == old(value)
      ensures values != [] ==>
                var base, rest := if old(value).Some? then old(value).value else values[0],
                                  if old(value).Some? then values else values[1..];
                match Updated(op, unwrap, Reducing(base), rest)
                case Failed => r == Err(Delta.TwoOverwrites) && value.Some? && FirstOverwriteIs(unwrap, rest, value.value)
                case Overwritten(o) => r == Ok(true) && value == Some(o)
                case Reducing(a) => r == Ok(true) && value == Some(a)
    {
      if values == [] {
        return Ok(false);
      }
      var rest := values;
      if value.None? {
        value := Some(values[0]);
        rest := values[1..];
      }
      var seenOverwrite := false;
      ghost var base := value.value;
      for i := 0 to |rest|
        invariant value.Some?
        invariant Updated(op, unwrap, Reducing(base), rest[..i])
                  == if seenOverwrite then Overwritten(value.value) else Reducing(value.value)
        invariant seenOverwrite ==> FirstOverwriteIs(unwrap, rest, value.value)
        invariant !seenOverwrite ==> forall j | 0 <= j < i :: unwrap(rest[j]).None?
      {
        UpdatedNext(op, unwrap, Reducing(base), rest, i);
        if unwrap(rest[i]).Some? {
          if seenOverwrite {
            StaysFailed(op, unwrap, Reducing(base), rest, i + 1);
            return Err(Delta.TwoOverwrites);
          }
          value := Some(unwrap(rest[i]).value);
          seenOverwrite := true;
        } else if !seenOverwrite {
          value := Some(op(value.value, rest[i]));
        }
      }
      assert rest[..|rest|] == rest;
      return Ok(true);
    }
  }

  lemma UpdatedNext<V>(op: (V, V) -> V, unwrap: V -> Option<V>, s: Progress<V>, vs: seq<V>, i: nat)
    requires i < |vs|
    ensures Updated(op, unwrap, s, vs[..i + 1]) == Next(op, unwrap, Updated(op, unwrap, s, vs[..i]), vs[i])
  {
    assert vs[..i + 1][..i] == vs[..i];
  }

  lemma {:induction false} StaysFailed<V>(op: (V, V) -> V, unwrap: V -> Option<V>, s: Progress<V>, vs: seq<V>, n: nat)
    requires n <= |vs| && Updated(op, unwrap, s, vs[..n]).Failed?
    ensures Updated(op, unwrap, s, vs).Failed?
    decreases |vs| - n
  {
    if n == |vs| {
      assert vs[..n] == vs;
    } else {
      UpdatedNext(op, unwrap, s, vs, n);
      StaysFailed(op, unwrap, s, vs, n + 1);
    }
  }

  // ---------------------------------------------------------------------
  // Order within a step
  // ---------------------------------------------------------------------

  /** With an exchangeable operator the order of a step's values never matters, overwrites included. */
  lemma OrderIrrelevant<V(!new)>(op: (V, V) -> V, unwrap: V -> Option<V>, base: V, xs: seq<V>, ys: seq<V>)
    requires Exchangeable(op) && multiset(xs) == multiset(ys)
    ensures Updated(op, unwrap, Reducing(base), xs) == Updated(op, unwrap, Reducing(base), ys)
  {
    var f := (p: Progress<V>, v: V) => Next(op, unwrap, p, v);
    assert Exchangeable(f) by {
      forall s, x, y ensures f(f(s, x), y) == f(f(s, y), x) {
        if s.Reducing? {
          assert op(op(s.value, x), y) == op(op(s.value, y), x);
        }
      }
    }
    FoldPermutation(f, Reducing(base), xs, ys);
  }

  /**
   * For any operator: two overwrites always raise, one fixes the result wherever it stands, and none
   * leaves the plain left fold.
   */
  lemma {:induction false} OverwritesDecide<V>(op: (V, V) -> V, unwrap: V -> Option<V>, base: V, vs: seq<V>)
    ensures Updated(op, unwrap, Reducing(base), vs).Failed? <==>
            exists i, j | 0 <= i < j < |vs| :: unwrap(vs[i]).Some? && unwrap(vs[j]).Some?
    ensures forall i | 0 <= i < |vs| && unwrap(vs[i]).Some? && !Updated(op, unwrap, Reducing(base), vs).Failed? ::
              Updated(op, unwrap, Reducing(base), vs) == Overwritten(unwrap(vs[i]).value)
    ensures (forall i | 0 <= i < |vs| :: unwrap(vs[i]).None?) ==>
              Updated(op, unwrap, Reducing(base), vs) == Reducing(Fold(op, base, vs))
    ensures Updated(op, unwrap, Reducing(base), vs).Overwritten? ==> exists i | 0 <= i < |vs| :: unwrap(vs[i]).Some?
  {
    if vs == [] {
    } else {
      var front := vs[..|vs| - 1];
      OverwritesDecide(op, unwrap, base, front);
      assert forall i | 0 <= i < |front| :: front[i] == vs[i];
      assert Updated(op, unwrap, Reducing(base), vs)
             == Next(op, unwrap, Updated(op, unwrap, Reducing(base), front), vs[|vs| - 1]);
    }
  }

  // ---------------------------------------------------------------------
  // The same channel as a delta channel
  // ---------------------------------------------------------------------

  /** A delta channel whose reducer left-folds `op`. */
  ghost function Folding<V>(op: (V, V) -> V, typ: V, none: V, unwrap: V -> Option<V>): Delta.Kind<V> {
    Delta.Kind((s: V, vs: seq<V>) => FoldValue(op, s, vs), typ, none, unwrap)
  }

  function FoldValue<V>(op: (V, V) -> V, s: V, vs: seq<V>): (r: V)
    ensures r == Fold(op, s, vs)
  {
    if vs == [] then s else op(FoldValue(op, s, vs[..|vs| - 1]), vs[|vs| - 1])
  }

  /** Folding is a lawful reducer for every operator. */
  lemma FoldingLawful<V(!new)>(op: (V, V) -> V, typ: V, none: V, unwrap: V -> Option<V>)
    ensures Delta.Lawful(Folding(op, typ, none, unwrap), (v: V) => true)
  {
    var k := Folding(op, typ, none, unwrap);
    forall s, xs, ys ensures k.reducer(k.reducer(s, xs), ys) == k.reducer(s, xs + ys) {
      FoldAppend(op, s, xs, ys);
    }
  }

  lemma FoldTwo<S, X>(f: (S, X) -> S, s: S, x: X, y: X)
    ensures Fold(f, s, [x, y]) == f(f(s, x), y)
  {
    assert [x, y][..1] == [x] && [x][..0] == [];
    assert Fold(f, s, [x]) == f(Fold(f, s, []), x);
  }

  /** Folding does not care in which order a step's writes are stored exactly if the operator is exchangeable. */
  lemma FoldingOrderFree<V(!new)>(op: (V, V) -> V, typ: V, none: V, unwrap: V -> Option<V>)
    ensures Delta.OrderFree(Folding(op, typ, none, unwrap), (v: V) => true) <==> Exchangeable(op)
  {
    var k, any := Folding(op, typ, none, unwrap), (v: V) => true;
    if Exchangeable(op) {
      forall s, xs: seq<V>, ys: seq<V> | any(s) && multiset(xs) == multiset(ys) ensures k.reducer(s, xs) == k.reducer(s, ys) {
        FoldPermutation(op, s, xs, ys);
      }
      assert Delta.OrderFree(k, any);
    }
    if Delta.OrderFree(k, any) {
      forall s, x, y ensures op(op(s, x), y) == op(op(s, y), x) {
        assert multiset([x, y]) == multiset([y, x]);
        assert any(s) && k.reducer(s, [x, y]) == k.reducer(s, [y, x]);
        FoldTwo(op, s, x, y);
        FoldTwo(op, s, y, x);
      }
    }
  }

  /** One non-empty step of the aggregate that starts with a value. */
  ghost function AggregateStep<V>(op: (V, V) -> V, unwrap: V -> Option<V>, value: V, vs: seq<V>): Result<V, Delta.UpdateError> {
    match Updated(op, unwrap, Reducing(value), vs)
    case Failed => Err(Delta.TwoOverwrites)
    case Overwritten(o) => Ok(o)
    case Reducing(a) => Ok(a)
  }

  ghost function AggregateRun<V>(op: (V, V) -> V, unwrap: V -> Option<V>, start: V, steps: seq<seq<V>>): Result<V, Delta.UpdateError> {
    if steps == [] then Ok(start) else
      match AggregateRun(op, unwrap, start, steps[..|steps| - 1])
      case Ok(v) => AggregateStep(op, unwrap, v, steps[|steps| - 1])
      case Err(e) => Err(e)
  }

  /** The value two channels show a reader, `typ()` standing in for MISSING. */
  ghost function Shown<V>(r: Result<Option<V>, Delta.UpdateError>, typ: V): Result<V, Delta.UpdateError> {
    match r
    case Ok(v) => Ok(v.GetOr(typ))
    case Err(e) => Err(e)
  }

  /**
   * One step of either channel from the same value: same error, and the same value unless the step
   * overwrites with `None`, which a delta channel reads as `typ()`.
   */
  lemma StepsAgree<V>(op: (V, V) -> V, typ: V, none: V, unwrap: V -> Option<V>, value: Option<V>, vs: seq<V>)
    ensures var k := Folding(op, typ, none, unwrap);
            var d, a := Shown(Delta.Stepped(k, value, vs), typ), AggregateStep(op, unwrap, value.GetOr(typ), vs);
            && (d.Err? <==> a.Err?)
            && (d == a <==> a.Err? || typ == none || forall i | 0 <= i < |vs| :: unwrap(vs[i]) != Some(none))
  {
    var k := Folding(op, typ, none, unwrap);
    OverwritesDecide(op, unwrap, value.GetOr(typ), vs);
    assert forall v :: k.IsOverwrite(v) <==> unwrap(v).Some?;
    if vs != [] && !Delta.TwoOverwritesIn(k, vs) && Delta.LastOverwrite(k, vs).Some? {
      var i := Delta.LastOverwrite(k, vs).value;
      assert forall j | 0 <= j < |vs| && j != i :: !k.IsOverwrite(vs[j]);
    }
  }

  /**
   * Both channels show the same value after every run whose overwrites are not `None`, or, where `typ()`
   * is `None`, after every run.
   */
  lemma {:induction false} RunsAgree<V>(op: (V, V) -> V, typ: V, none: V, unwrap: V -> Option<V>, start: Option<V>, steps: seq<seq<V>>)
    requires typ == none || forall i, j | 0 <= i < |steps| && 0 <= j < |steps[i]| :: unwrap(steps[i][j]) != Some(none)
    ensures Shown(Delta.Run(Folding(op, typ, none, unwrap), start, steps), typ)
            == AggregateRun(op, unwrap, start.GetOr(typ), steps)
  {
    if steps == [] {
    } else {
      var k, front, last := Folding(op, typ, none, unwrap), steps[..|steps| - 1], steps[|steps| - 1];
      RunsAgree(op, typ, none, unwrap, start, front);
      match Delta.Run(k, start, front)
      case Ok(v) =>
        StepsAgree(op, typ, none, unwrap, v, last);
      case Err(_) =>
    }
  }
}
