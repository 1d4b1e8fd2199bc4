/** `interrupt` of langgraph/types.py: a node is run again from the top and fed its earlier answers. */
module Interrupts {
  import opened Prelude

  /** What a node does once it knows its answers so far: ask the next question, or return. */
  datatype Action<Q, R> = Ask(question: Q) | Return(result: R)

  /** A deterministic node body. */
  type Body<!V, Q, R> = seq<V> -> Action<Q, R>

  /** How a run ends; `used` counts the answers it took. */
  datatype Outcome<Q, R> = Done(result: R, used: nat) | Waiting(question: Q)

  // ---------------------------------------------------------------------
  // Direct execution
  // ---------------------------------------------------------------------

  /** The run that takes `given[n]` as the answer to its `n`-th question, from question `n` on. */
  function DirectFrom<V, Q, R>(body: Body<V, Q, R>, given: seq<V>, n: nat): Outcome<Q, R>
    requires n <= |given|
    decreases |given| - n
  {
    match body(given[..n])
    case Return(r) => Done(r, n)
    case Ask(q) => if n < |given| then DirectFrom(body, given, n + 1) else Waiting(q)
  }

  function Direct<V, Q, R>(body: Body<V, Q, R>, given: seq<V>): Outcome<Q, R> {
    DirectFrom(body, given, 0)
  }

  /** More answers than needed make no difference; one answer more leads to the next question or the end. */
  lemma {:induction false} DirectExtends<V, Q, R>(body: Body<V, Q, R>, given: seq<V>, more: seq<V>, n: nat)
    requires n <= |given|
    ensures DirectFrom(body, given, n).Done? ==> DirectFrom(body, given + more, n) == DirectFrom(body, given, n)
    ensures DirectFrom(body, given, n).Waiting? ==>
              && DirectFrom(body, given + more, n) == DirectFrom(body, given + more, |given|)
              && body(given) == Ask(DirectFrom(body, given, n).question)
    decreases |given| - n
  {
    assert (given + more)[..n] == given[..n];
    if n < |given| {
      DirectExtends(body, given, more, n + 1);
    } else {
      assert given[..n] == given;
    }
  }

  // ---------------------------------------------------------------------
  // The resume protocol
  // ---------------------------------------------------------------------

  datatype Reply<V, Q> = Answer(value: V) | Interrupted(question: Q)

  /** The per-task scratchpad; `sent` is the last list of answers written back under `RESUME`. */
  class Scratchpad<V> {
    var counter: nat
    var resume: seq<V>
    var nullResume: Option<V>
    var sent: Option<seq<V>>

    constructor (resume: seq<V>, nullResume: Option<V>)
      ensures this.resume == resume && this.nullResume == nullResume && counter == 0 && sent == None
      ensures Valid()
    {
      this.counter, this.resume, this.nullResume, this.sent := 0, resume, nullResume, None;
    }

    /** A fresh answer is only waiting while earlier answers are still being replayed. */
    ghost predicate Valid()
      reads this
    {
      nullResume.Some? ==> counter <= |resume|
    }

    /** All answers there are: the earlier ones and the fresh one. */
    ghost function Supply(): seq<V>
      reads this
    {
      resume + if nullResume.Some? then [nullResume.value] else []
    }

    /** One call. The source's assertion that the fresh answer lands at index `idx` always holds. */
    method Interrupt<Q>(question: Q) returns (r: Reply<V, Q>)
      requires Valid()
      modifies this
      ensures Valid() && counter == old(counter) + 1
      ensures old(counter) < |old(Supply())| ==>
                && r == Answer(old(Supply())[old(counter)])
                && Supply() == old(Supply())
                && resume == (if old(counter) < |old(resume)| then old(resume) else old(Supply()))
                && sent == Some(resume)
      ensures |old(Supply())| <= old(counter) ==>
                r == Interrupted(question) && Supply() == old(Supply()) == resume && sent == old(sent)
    {
      var idx := counter;
      counter := counter + 1;
      if resume != [] && idx < |resume| {
        sent := Some(resume);
        return Answer(resume[idx]);
      }
      var v := nullResume;
      nullResume := None;
      if v.Some? {
        assert |resume| == idx;
        resume := resume + [v.value];
        sent := Some(resume);
        return Answer(v.value);
      }
      return Interrupted(question);
    }
  }

  /**
   * Runs the node from the top. It ends as the direct run on all supplied answers does, gets the i-th
   * answer at its i-th call, and, where it has to wait, leaves every answer written back.
   */
  method Execute<V, Q, R>(body: Body<V, Q, R>, pad: Scratchpad<V>) returns (outcome: Outcome<Q, R>, got: seq<V>)
    requires pad.Valid() && pad.counter == 0
    modifies pad
    ensures outcome == Direct(body, old(pad.Supply()))
    ensures got <= old(pad.Supply()) && (outcome.Done? ==> |got| == outcome.used)
    ensures outcome.Waiting? ==> got == old(pad.Supply()) && pad.resume == got
    ensures outcome.Waiting? && got != [] ==> pad.sent == Some(got)
    ensures outcome.Waiting? && got == [] ==> pad.sent == old(pad.sent)
  {
    ghost var supply := pad.Supply();
    got := [];
    while true
      invariant pad.Valid() && pad.Supply() == supply && pad.counter == |got| <= |supply|
      invariant got == supply[..|got|]
      invariant Direct(body, supply) == DirectFrom(body, supply, |got|)
      invariant got == [] ==> pad.sent == old(pad.sent)
      invariant got != [] ==> pad.sent == Some(pad.resume)
      decreases |supply| - |got|
    {
      match body(got) {
        case Return(r) =>
          return Done(r, |got|), got;
        case Ask(q) =>
          var reply := pad.Interrupt(q);
          if reply.Interrupted? {
            return Waiting(q), got;
          }
          got := got + [reply.value];
      }
    }
  }

  /** The i-th question is the one the node asks once it knows the first `i` answers. */
  ghost predicate AskedInOrder<V, Q, R>(body: Body<V, Q, R>, answers: seq<V>, asked: seq<Q>) {
    |asked| <= |answers| + 1 && forall i | 0 <= i < |asked| :: body(answers[..i]) == Ask(asked[i])
  }

  lemma AskedNext<V, Q, R>(body: Body<V, Q, R>, answers: seq<V>, asked: seq<Q>, q: Q)
    requires AskedInOrder(body, answers, asked) && |asked| <= |answers|
    requires Direct(body, answers[..|asked|]) == Waiting(q)
    ensures AskedInOrder(body, answers, asked + [q])
  {
    DirectExtends(body, answers[..|asked|], [], 0);
  }

  /**
   * A thread that is resumed with one answer at a time, each attempt starting from the answers written
   * back by the one before, ends as the direct run and surfaces the same questions in the same order.
   */
  method Session<V, Q, R>(body: Body<V, Q, R>, answers: seq<V>) returns (outcome: Outcome<Q, R>, asked: seq<Q>)
    ensures outcome == Direct(body, answers)
    ensures |asked| == if outcome.Done? then outcome.used else |answers| + 1
    ensures AskedInOrder(body, answers, asked)
  {
    var persisted: seq<V> := [];
    var pad := new Scratchpad<V>(persisted, None);
    var got: seq<V>;
    outcome, got := Execute(body, pad);
    asked := [];
    var i := 0;
    assert answers[..0] == [];
    while outcome.Waiting?
      invariant i <= |answers| && outcome == Direct(body, answers[..i])
      invariant outcome.Done? ==> outcome.used == |asked|
      invariant outcome.Waiting? ==> persisted == answers[..if i == 0 then 0 else i - 1]
      invariant outcome.Waiting? ==> |asked| == i && (if i == 0 then pad.sent == None else pad.sent == Some(answers[..i]))
      invariant AskedInOrder(body, answers, asked)
      decreases |answers| - i, outcome.Waiting?
    {
      DirectExtends(body, answers[..i], [], 0);
      AskedNext(body, answers, asked, outcome.question);
      asked := asked + [outcome.question];
      persisted := pad.sent.GetOr(persisted);
      if i == |answers| {
        assert answers[..i] == answers;
        return;
      }
      assert persisted == answers[..i];
      pad := new Scratchpad<V>(persisted, Some(answers[i]));
      assert pad.Supply() == answers[..i + 1];
      DirectNext(body, answers, i);
      outcome, got := Execute(body, pad);
      i := i + 1;
    }
    DirectExtends(body, answers[..i], answers[i..], 0);
    assert answers[..i] + answers[i..] == answers;
  }

  /** A run that waited after `i` answers uses all of the next `i + 1` or waits again. */
  lemma DirectNext<V, Q, R>(body: Body<V, Q, R>, answers: seq<V>, i: nat)
    requires i < |answers| && Direct(body, answers[..i]).Waiting?
    ensures Direct(body, answers[..i + 1]).Done? ==> Direct(body, answers[..i + 1]).used == i + 1
  {
    var given := answers[..i];
    assert answers[..i + 1] == given + [answers[i]];
    DirectExtends(body, given, [answers[i]], 0);
    assert (given + [answers[i]])[..i] == given;
  }
}
