/** The queue of langgraph/_internal/_queue.py under interleaving: a deque and a counting semaphore. */
module SyncQueue {
  import opened Prelude

  type Thread = int

  /** What a thread blocks for: to take a count in `acquire`, or in `wait` to see one. */
  datatype Purpose = Taking | Watching

  /**
   * Where a thread stands: outside, between append and release, between acquire and popleft, asleep on
   * the semaphore's condition, or notified and about to test the count again.
   */
  datatype Pc = Outside | Putting | Getting | Asleep(purpose: Purpose) | Notified(purpose: Purpose)

  datatype State<T> = State(queue: seq<T>, count: nat, sleepers: seq<Thread>, pcs: map<Thread, Pc>)

  /**
   * The atomic steps of `put`, `get` and `wait`. `Refused` and `Unseen` are an acquire and a wait that
   * give up, at once or after their time; `Seen` is a wait that returns because the count is positive.
   */
  datatype Step<T> =
    | Append(thread: Thread, item: T)
    | Release(thread: Thread)
    | Acquire(thread: Thread)
    | Refused(thread: Thread)
    | Seen(thread: Thread)
    | Unseen(thread: Thread)
    | Sleep(thread: Thread, purpose: Purpose)
    | PopLeft(thread: Thread)

  ghost predicate At<T>(s: State<T>, t: Thread, pc: Pc) {
    t in s.pcs && s.pcs[t] == pc
  }

  /** The thread enters the semaphore's loop, was notified, or its time ran out while it slept. */
  ghost predicate Tests<T>(s: State<T>, t: Thread, p: Purpose) {
    At(s, t, Outside) || At(s, t, Notified(p)) || At(s, t, Asleep(p))
  }

  ghost predicate Enabled<T>(s: State<T>, step: Step<T>) {
    match step
    case Append(t, _) => At(s, t, Outside)
    case Release(t) => At(s, t, Putting)
    case Acquire(t) => Tests(s, t, Taking) && s.count > 0
    case Refused(t) => Tests(s, t, Taking) && s.count == 0
    case Seen(t) => Tests(s, t, Watching) && s.count > 0
    case Unseen(t) => Tests(s, t, Watching) && s.count == 0
    case Sleep(t, p) => (At(s, t, Outside) || At(s, t, Notified(p))) && s.count == 0
    case PopLeft(t) => At(s, t, Getting)
  }

  ghost function Without(ts: seq<Thread>, t: Thread): seq<Thread> {
    if ts == [] then [] else (if ts[0] == t then [] else [ts[0]]) + Without(ts[1..], t)
  }

  /** A thread leaves the semaphore's loop; one whose time ran out takes itself off the sleepers. */
  ghost function Leaves<T>(s: State<T>, t: Thread, to: Pc): State<T> {
    s.(sleepers := Without(s.sleepers, t), pcs := s.pcs[t := to])
  }

  ghost function PurposeAt<T>(s: State<T>, t: Thread): Purpose {
    if t in s.pcs && s.pcs[t].Asleep? then s.pcs[t].purpose else Taking
  }

  /** The one thread that a `notify` wakes: the first to have fallen asleep. */
  ghost function Notify<T>(s: State<T>): State<T> {
    if s.sleepers == [] then s
    else
      var first := s.sleepers[0];
      s.(sleepers := s.sleepers[1..], pcs := s.pcs[first := Notified(PurposeAt(s, first))])
  }

  /** A popleft on an empty deque would raise `Empty` and lose the acquired count. */
  ghost function Next<T>(s: State<T>, step: Step<T>): State<T> {
    match step
    case Append(t, x) => s.(queue := s.queue + [x], pcs := s.pcs[t := Putting])
    case Release(t) => Notify(s.(count := s.count + 1, pcs := s.pcs[t := Outside]))
    case Acquire(t) => if s.count > 0 then Leaves(s, t, Getting).(count := s.count - 1) else s
    case Refused(t) => Leaves(s, t, Outside)
    case Seen(t) => Leaves(s, t, Outside)
    case Unseen(t) => Leaves(s, t, Outside)
    case Sleep(t, p) => s.(sleepers := s.sleepers + [t], pcs := s.pcs[t := Asleep(p)])
    case PopLeft(t) => s.(queue := if s.queue == [] then [] else s.queue[1..], pcs := s.pcs[t := Outside])
  }

  ghost function Start<T>(threads: set<Thread>): State<T> {
    State([], 0, [], map t | t in threads :: Outside)
  }

  /** The state after an interleaving, if each of its steps was enabled in turn. */
  ghost function Reach<T>(threads: set<Thread>, steps: seq<Step<T>>): Option<State<T>> {
    if steps == [] then Some(Start(threads)) else
      match Reach(threads, steps[..|steps| - 1])
      case Some(s) => if Enabled(s, steps[|steps| - 1]) then Some(Next(s, steps[|steps| - 1])) else None
      case None => None
  }

  // ---------------------------------------------------------------------
  // The sleepers
  // ---------------------------------------------------------------------

  /** The list of sleepers holds each sleeping thread once and no other. */
  ghost predicate SleepersFit<T>(s: State<T>) {
    && NoRepeat(s.sleepers)
    && (forall t :: t in s.sleepers <==> t in s.pcs && s.pcs[t].Asleep?)
  }

  ghost predicate NoRepeat(ts: seq<Thread>) {
    forall i, j | 0 <= i < j < |ts| :: ts[i] != ts[j]
  }

  lemma {:induction false} WithoutHas(ts: seq<Thread>, t: Thread, u: Thread)
    ensures u in Without(ts, t) <==> u in ts && u != t
  {
    if ts == [] {
    } else {
      WithoutHas(ts[1..], t, u);
      assert ts == [ts[0]] + ts[1..];
    }
  }

  lemma {:induction false} WithoutNoRepeat(ts: seq<Thread>, t: Thread)
    requires NoRepeat(ts)
    ensures NoRepeat(Without(ts, t))
  {
    if ts == [] {
    } else {
      var rest := Without(ts[1..], t);
      WithoutNoRepeat(ts[1..], t);
      WithoutHas(ts[1..], t, ts[0]);
      assert ts[0] !in ts[1..];
      assert forall j | 0 <= j < |rest| :: rest[j] in rest;
      assert [] + rest == rest;
    }
  }

  lemma {:induction false} WithoutOther(ts: seq<Thread>, t: Thread)
    requires t !in ts
    ensures Without(ts, t) == ts
  {
    if ts == [] {
    } else {
      WithoutOther(ts[1..], t);
    }
  }

  lemma WithoutHolds(ts: seq<Thread>, t: Thread)
    requires NoRepeat(ts)
    ensures NoRepeat(Without(ts, t)) && forall u :: u in Without(ts, t) <==> u in ts && u != t
    ensures t !in ts ==> Without(ts, t) == ts
  {
    WithoutNoRepeat(ts, t);
    forall u ensures u in Without(ts, t) <==> u in ts && u != t {
      WithoutHas(ts, t, u);
    }
    if t !in ts {
      WithoutOther(ts, t);
    }
  }

  lemma NotifyFits<T>(s: State<T>)
    requires SleepersFit(s)
    ensures SleepersFit(Notify(s))
  {
    if s.sleepers != [] {
      assert forall u :: u in s.sleepers[1..] <==> u in s.sleepers && u != s.sleepers[0];
    }
  }

  lemma StepSleepersFit<T>(s: State<T>, step: Step<T>)
    requires SleepersFit(s) && Enabled(s, step)
    ensures SleepersFit(Next(s, step))
  {
    WithoutHolds(s.sleepers, step.thread);
    if step.Release? {
      NotifyFits(s.(count := s.count + 1, pcs := s.pcs[step.thread := Outside]));
    }
  }

  lemma {:induction false} AlwaysSleepersFit<T>(threads: set<Thread>, steps: seq<Step<T>>)
    requires Reach(threads, steps).Some?
    ensures SleepersFit(Reach(threads, steps).value)
  {
    if steps == [] {
    } else {
      var front := steps[..|steps| - 1];
      AlwaysSleepersFit(threads, front);
      StepSleepersFit(Reach(threads, front).value, steps[|steps| - 1]);
    }
  }

  // ---------------------------------------------------------------------
  // The count
  // ---------------------------------------------------------------------

  ghost function Threads<T>(s: State<T>, pc: Pc): set<Thread> {
    set t | t in s.pcs && s.pcs[t] == pc
  }

  ghost predicate Balanced<T>(s: State<T>) {
    |s.queue| == s.count + |Threads(s, Putting)| + |Threads(s, Getting)|
  }

  lemma OneJoins(a: set<Thread>, b: set<Thread>, t: Thread)
    requires forall u | u != t :: u in b <==> u in a
    requires t in b && t !in a
    ensures |b| == |a| + 1
  {
    assert forall u :: u in b <==> u in a + {t};
    assert b == a + {t};
  }

  /** Two sets that differ in one element at most. */
  lemma OneMoves(a: set<Thread>, b: set<Thread>, t: Thread)
    requires forall u | u != t :: u in b <==> u in a
    ensures |b| == |a| + (if t in b then 1 else 0) - (if t in a then 1 else 0)
  {
    if t in b && t !in a {
      OneJoins(a, b, t);
    } else if t in a && t !in b {
      OneJoins(b, a, t);
    } else {
      assert forall u :: u in b <==> u in a;
      assert b == a;
    }
  }

  lemma StepBalanced<T>(s: State<T>, step: Step<T>)
    requires SleepersFit(s) && Balanced(s) && Enabled(s, step)
    ensures Balanced(Next(s, step))
    ensures step.PopLeft? ==> s.queue != []
  {
    OneMoves(Threads(s, Putting), Threads(Next(s, step), Putting), step.thread);
    OneMoves(Threads(s, Getting), Threads(Next(s, step), Getting), step.thread);
    if step.PopLeft? {
      assert step.thread in Threads(s, Getting);
    }
  }

  /** In every interleaving the deque holds the counted items and those of puts and gets under way. */
  lemma {:induction false} AlwaysBalanced<T>(threads: set<Thread>, steps: seq<Step<T>>)
    requires Reach(threads, steps).Some?
    ensures Balanced(Reach(threads, steps).value)
  {
    if steps == [] {
      var s: State<T> := Start(threads);
      assert Threads(s, Putting) == {} && Threads(s, Getting) == {};
    } else {
      var front := steps[..|steps| - 1];
      AlwaysBalanced(threads, front);
      AlwaysSleepersFit(threads, front);
      StepBalanced(Reach(threads, front).value, steps[|steps| - 1]);
    }
  }

  /** A thread that acquired the semaphore never finds the deque empty. */
  lemma {:induction false} PopNeverFails<T>(threads: set<Thread>, steps: seq<Step<T>>, t: Thread)
    requires Reach(threads, steps).Some? && At(Reach(threads, steps).value, t, Getting)
    ensures Reach(threads, steps).value.queue != []
  {
    AlwaysBalanced(threads, steps);
    AlwaysSleepersFit(threads, steps);
    StepBalanced(Reach(threads, steps).value, PopLeft(t));
  }

  /** A get that gives up leaves no item behind but those of puts and gets under way. */
  lemma {:induction false} RefusedOnlyWhenClaimed<T>(threads: set<Thread>, steps: seq<Step<T>>, t: Thread)
    requires Reach(threads, steps).Some? && Enabled(Reach(threads, steps).value, Refused(t))
    ensures var s := Reach(threads, steps).value; |s.queue| == |Threads(s, Putting)| + |Threads(s, Getting)|
  {
    AlwaysBalanced(threads, steps);
  }

  ghost function Releases<T>(steps: seq<Step<T>>): nat {
    if steps == [] then 0 else Releases(steps[..|steps| - 1]) + if steps[|steps| - 1].Release? then 1 else 0
  }

  ghost function Acquires<T>(steps: seq<Step<T>>): nat {
    if steps == [] then 0 else Acquires(steps[..|steps| - 1]) + if steps[|steps| - 1].Acquire? then 1 else 0
  }

  /** However threads wait, sleep and time out in between, the count is what was released and not acquired. */
  lemma {:induction false} CountIsReleasesLessAcquires<T>(threads: set<Thread>, steps: seq<Step<T>>)
    requires Reach(threads, steps).Some?
    ensures Reach(threads, steps).value.count == Releases(steps) - Acquires(steps)
  {
    if steps == [] {
    } else {
      CountIsReleasesLessAcquires(threads, steps[..|steps| - 1]);
    }
  }

  // ---------------------------------------------------------------------
  // Wake-ups
  // ---------------------------------------------------------------------

  ghost function Woken<T>(s: State<T>): set<Thread> {
    set t | t in s.pcs && s.pcs[t].Notified?
  }

  /** While a thread sleeps, each count is matched by a notified thread that will still test it. */
  ghost predicate Served<T>(s: State<T>) {
    s.sleepers != [] ==> s.count <= |Woken(s)|
  }

  /** A notified `wait` returns and leaves the count, the last notified thread, to threads that sleep on. */
  ghost predicate TakesWakeup<T>(s: State<T>, step: Step<T>) {
    step.Seen? && At(s, step.thread, Notified(Watching)) && s.sleepers != [] && s.count == |Woken(s)|
  }

  /** A `release` with sleepers raises the count by one and the number of notified threads by one. */
  lemma ReleaseWakesOne<T>(s: State<T>, t: Thread)
    requires SleepersFit(s) && At(s, t, Putting) && s.sleepers != []
    ensures var e := Next(s, Release(t)); e.count == s.count + 1 && |Woken(e)| == |Woken(s)| + 1
  {
    var first := s.sleepers[0];
    assert first in s.sleepers;
    OneMoves(Woken(s), Woken(Next(s, Release(t))), first);
  }

  /** A step loses a wake-up exactly when a `wait` takes the last one. */
  lemma ServedUnlessWaitTakes<T>(s: State<T>, step: Step<T>)
    requires SleepersFit(s) && Served(s) && Enabled(s, step)
    ensures Served(Next(s, step)) <==> !TakesWakeup(s, step)
  {
    var e, t := Next(s, step), step.thread;
    WithoutHolds(s.sleepers, t);
    if step.Release? {
      if s.sleepers != [] {
        ReleaseWakesOne(s, t);
      }
    } else {
      OneMoves(Woken(s), Woken(e), t);
    }
  }

  /** A thread sleeps although the count is positive, and no thread is notified: only another put can help it. */
  ghost predicate Stranded<T>(s: State<T>) {
    s.sleepers != [] && s.count > 0 && Woken(s) == {}
  }

  /** Served states strand nobody. */
  lemma ServedNotStranded<T>(s: State<T>)
    requires Served(s)
    ensures !Stranded(s)
  {
    if Woken(s) == {} {
      assert |Woken(s)| == 0;
    }
  }

  /**
   * Without a `wait` that sleeps, no wake-up is lost and no thread stranded: one sleeps beside a positive
   * count only while another is notified.
   */
  lemma {:induction false} NoWakeupLost<T>(threads: set<Thread>, steps: seq<Step<T>>)
    requires Reach(threads, steps).Some?
    requires forall i | 0 <= i < |steps| :: steps[i].Sleep? ==> steps[i].purpose == Taking
    ensures var s := Reach(threads, steps).value;
            && Served(s) && !Stranded(s)
            && (forall t | t in s.pcs :: s.pcs[t] != Asleep(Watching) && s.pcs[t] != Notified(Watching))
  {
    if steps == [] {
    } else {
      var front, last := steps[..|steps| - 1], steps[|steps| - 1];
      assert forall i | 0 <= i < |front| :: front[i] == steps[i];
      NoWakeupLost(threads, front);
      AlwaysSleepersFit(threads, front);
      var s := Reach(threads, front).value;
      ServedUnlessWaitTakes(s, last);
      ServedNotStranded(Next(s, last));
      if last.Release? && s.sleepers != [] {
        assert s.sleepers[0] in s.sleepers;
      }
    }
  }

  /** The places of three threads. */
  ghost function Three(p0: Pc, p1: Pc, p2: Pc): map<Thread, Pc> {
    map[0 := p0, 1 := p1, 2 := p2]
  }

  lemma Moved0(p0: Pc, p1: Pc, p2: Pc, q: Pc)
    ensures Three(p0, p1, p2)[0 := q] == Three(q, p1, p2)
  {
    assert Three(p0, p1, p2)[0 := q].Keys == Three(q, p1, p2).Keys;
  }

  lemma Moved1(p0: Pc, p1: Pc, p2: Pc, q: Pc)
    ensures Three(p0, p1, p2)[1 := q] == Three(p0, q, p2)
  {
    assert Three(p0, p1, p2)[1 := q].Keys == Three(p0, q, p2).Keys;
  }

  lemma Moved2(p0: Pc, p1: Pc, p2: Pc, q: Pc)
    ensures Three(p0, p1, p2)[2 := q] == Three(p0, p1, q)
  {
    assert Three(p0, p1, p2)[2 := q].Keys == Three(p0, p1, q).Keys;
  }

  lemma ReachNext<T>(threads: set<Thread>, steps: seq<Step<T>>, step: Step<T>, s: State<T>, e: State<T>)
    requires Reach(threads, steps) == Some(s) && Enabled(s, step) && e == Next(s, step)
    ensures Reach(threads, steps + [step]) == Some(e)
  {
    assert (steps + [step])[..|steps|] == steps;
  }

  /** Thread 0 waits and thread 1 blocks in a get. */
  lemma WaitThenGet<T>()
    ensures var steps: seq<Step<T>> := [Sleep(0, Watching), Sleep(1, Taking)];
            Reach({0, 1, 2}, steps) == Some(State([], 0, [0, 1], Three(Asleep(Watching), Asleep(Taking), Outside)))
  {
    var none: seq<Step<T>> := [];
    var s0: State<T> := State([], 0, [], Three(Outside, Outside, Outside));
    var s1: State<T> := State([], 0, [0], Three(Asleep(Watching), Outside, Outside));
    var s2: State<T> := State([], 0, [0, 1], Three(Asleep(Watching), Asleep(Taking), Outside));
    assert Start<T>({0, 1, 2}).pcs == s0.pcs;
    assert Reach({0, 1, 2}, none) == Some(s0);
    Moved0(Outside, Outside, Outside, Asleep(Watching));
    ReachNext({0, 1, 2}, none, Sleep(0, Watching), s0, s1);
    assert none + [Sleep(0, Watching)] == [Sleep(0, Watching)];
    Moved1(Asleep(Watching), Outside, Outside, Asleep(Taking));
    ReachNext({0, 1, 2}, [Sleep(0, Watching)], Sleep(1, Taking), s1, s2);
    assert [Sleep(0, Watching)] + [Sleep(1, Taking)] == [Step<T>.Sleep(0, Watching), Sleep(1, Taking)];
  }

  /** Then thread 2 puts an item; its `release` wakes thread 0, the first of the sleepers. */
  lemma ThenPut<T>(x: T)
    ensures var steps := [Sleep(0, Watching), Sleep(1, Taking), Append(2, x), Release(2)];
            Reach({0, 1, 2}, steps) == Some(State([x], 1, [1], Three(Notified(Watching), Asleep(Taking), Outside)))
  {
    var two: seq<Step<T>> := [Sleep(0, Watching), Sleep(1, Taking)];
    var s2: State<T> := State([], 0, [0, 1], Three(Asleep(Watching), Asleep(Taking), Outside));
    var s3: State<T> := State([x], 0, [0, 1], Three(Asleep(Watching), Asleep(Taking), Putting));
    var s4: State<T> := State([x], 1, [1], Three(Notified(Watching), Asleep(Taking), Outside));
    WaitThenGet<T>();
    Moved2(Asleep(Watching), Asleep(Taking), Outside, Putting);
    ReachNext({0, 1, 2}, two, Append(2, x), s2, s3);
    Moved2(Asleep(Watching), Asleep(Taking), Putting, Outside);
    Moved0(Asleep(Watching), Asleep(Taking), Outside, Notified(Watching));
    assert [0, 1][1..] == [1];
    ReachNext({0, 1, 2}, two + [Append(2, x)], Release(2), s3, s4);
    assert two + [Append(2, x)] + [Release(2)] == [Sleep(0, Watching), Sleep(1, Taking), Append(2, x), Release(2)];
  }

  /** The wait takes the wake-up, and thread 1 sleeps on beside the item. */
  lemma WaitStrandsGet<T>(x: T)
    ensures var steps := [Sleep(0, Watching), Sleep(1, Taking), Append(2, x), Release(2), Seen(0)];
            && Reach({0, 1, 2}, steps) == Some(State([x], 1, [1], Three(Outside, Asleep(Taking), Outside)))
            && Stranded(State([x], 1, [1], Three(Outside, Asleep(Taking), Outside)))
  {
    var four := [Sleep(0, Watching), Sleep(1, Taking), Append(2, x), Release(2)];
    var s4: State<T> := State([x], 1, [1], Three(Notified(Watching), Asleep(Taking), Outside));
    var s5: State<T> := State([x], 1, [1], Three(Outside, Asleep(Taking), Outside));
    ThenPut(x);
    WithoutOther([1], 0);
    Moved0(Notified(Watching), Asleep(Taking), Outside, Outside);
    ReachNext({0, 1, 2}, four, Seen(0), s4, s5);
    assert four + [Seen(0)] == [Sleep(0, Watching), Sleep(1, Taking), Append(2, x), Release(2), Seen(0)];
    assert Woken(s5) == {};
  }

  // ---------------------------------------------------------------------
  // Progress
  // ---------------------------------------------------------------------

  lemma ReachTwo<T>(threads: set<Thread>, steps: seq<Step<T>>, a: Step<T>, b: Step<T>)
    requires Reach(threads, steps).Some? && Enabled(Reach(threads, steps).value, a)
    requires Enabled(Next(Reach(threads, steps).value, a), b)
    ensures Reach(threads, steps + [a, b]) == Some(Next(Next(Reach(threads, steps).value, a), b))
  {
    var s := Reach(threads, steps).value;
    ReachNext(threads, steps, a, s, Next(s, a));
    ReachNext(threads, steps + [a], b, Next(s, a), Next(Next(s, a), b));
    assert steps + [a] + [b] == steps + [a, b];
  }

  /**
   * From every state reached, a thread outside can put; it can take the first item if the count is
   * positive, and otherwise it can give up or fall asleep. A notified or sleeping get can take as well.
   */
  lemma {:induction false} AlwaysProgress<T>(threads: set<Thread>, steps: seq<Step<T>>, t: Thread, x: T)
    requires Reach(threads, steps).Some?
    ensures var s := Reach(threads, steps).value;
            && (At(s, t, Outside) ==>
                  && Reach(threads, steps + [Append(t, x), Release(t)]).Some?
                  && Reach(threads, steps + [Append(t, x), Release(t)]).value.queue == s.queue + [x]
                  && Reach(threads, steps + [Append(t, x), Release(t)]).value.count == s.count + 1)
            && (s.count > 0 && (At(s, t, Outside) || At(s, t, Notified(Taking)) || At(s, t, Asleep(Taking))) ==>
                  && s.queue != [] && Reach(threads, steps + [Acquire(t), PopLeft(t)]).Some?
                  && Reach(threads, steps + [Acquire(t), PopLeft(t)]).value.queue == s.queue[1..]
                  && Reach(threads, steps + [Acquire(t), PopLeft(t)]).value.count == s.count - 1)
            && (s.count == 0 && (At(s, t, Outside) || At(s, t, Notified(Taking))) ==>
                  && Reach(threads, steps + [Refused(t)]).Some?
                  && Reach(threads, steps + [Sleep(t, Taking)]).Some?)
  {
    var s := Reach(threads, steps).value;
    AlwaysBalanced(threads, steps);
    if At(s, t, Outside) {
      ReachTwo(threads, steps, Append(t, x), Release(t));
    }
    if s.count > 0 && Tests(s, t, Taking) {
      ReachTwo(threads, steps, Acquire(t), PopLeft(t));
    }
    if s.count == 0 && (At(s, t, Outside) || At(s, t, Notified(Taking))) {
      ReachNext(threads, steps, Refused(t), s, Next(s, Refused(t)));
      ReachNext(threads, steps, Sleep(t, Taking), s, Next(s, Sleep(t, Taking)));
    }
  }

  /** The same for a wait. */
  lemma {:induction false} WaitProgress<T>(threads: set<Thread>, steps: seq<Step<T>>, t: Thread)
    requires Reach(threads, steps).Some?
    ensures var s := Reach(threads, steps).value;
            (At(s, t, Outside) || At(s, t, Notified(Watching))) ==>
              if s.count > 0 then Reach(threads, steps + [Seen(t)]).Some?
              else Reach(threads, steps + [Unseen(t)]).Some? && Reach(threads, steps + [Sleep(t, Watching)]).Some?
  {
    var s := Reach(threads, steps).value;
    if At(s, t, Outside) || At(s, t, Notified(Watching)) {
      if s.count > 0 {
        ReachNext(threads, steps, Seen(t), s, Next(s, Seen(t)));
      } else {
        ReachNext(threads, steps, Unseen(t), s, Next(s, Unseen(t)));
        ReachNext(threads, steps, Sleep(t, Watching), s, Next(s, Sleep(t, Watching)));
      }
    }
  }

  // ---------------------------------------------------------------------
  // Order
  // ---------------------------------------------------------------------

  ghost function Put<T>(steps: seq<Step<T>>): seq<T> {
    if steps == [] then [] else
      var last := steps[|steps| - 1];
      Put(steps[..|steps| - 1]) + if last.Append? then [last.item] else []
  }

  /** The items the poplefts of an interleaving return, in order. */
  ghost function Got<T>(threads: set<Thread>, steps: seq<Step<T>>): seq<T>
    requires Reach(threads, steps).Some?
  {
    if steps == [] then [] else
      var front, last := steps[..|steps| - 1], steps[|steps| - 1];
      var q := Reach(threads, front).value.queue;
      Got(threads, front) + if last.PopLeft? && q != [] then [q[0]] else []
  }

  lemma StepKeepsOrder<T>(put: seq<T>, got: seq<T>, s: State<T>, step: Step<T>)
    requires put == got + s.queue && Enabled(s, step)
    ensures put + (if step.Append? then [step.item] else [])
            == got + (if step.PopLeft? && s.queue != [] then [s.queue[0]] else []) + Next(s, step).queue
  {
    if step.Append? {
      Assoc(got, s.queue, [step.item]);
      assert got + [] == got;
    } else if step.PopLeft? && s.queue != [] {
      assert s.queue == [s.queue[0]] + s.queue[1..];
      Assoc(got, [s.queue[0]], s.queue[1..]);
      assert put + [] == put;
    } else {
      assert put + [] == put && got + [] == got;
    }
  }

  /** Items leave in the order they were appended, each exactly once; what has not left is in the deque. */
  lemma {:induction false} FirstInFirstOut<T>(threads: set<Thread>, steps: seq<Step<T>>)
    requires Reach(threads, steps).Some?
    ensures Put(steps) == Got(threads, steps) + Reach(threads, steps).value.queue
  {
    if steps == [] {
    } else {
      var front, last := steps[..|steps| - 1], steps[|steps| - 1];
      FirstInFirstOut(threads, front);
      StepKeepsOrder(Put(front), Got(threads, front), Reach(threads, front).value, last);
    }
  }

  ghost function Pops<T>(steps: seq<Step<T>>): nat {
    if steps == [] then 0 else Pops(steps[..|steps| - 1]) + if steps[|steps| - 1].PopLeft? then 1 else 0
  }

  lemma {:induction false} EveryPopReturns<T>(threads: set<Thread>, steps: seq<Step<T>>)
    requires Reach(threads, steps).Some?
    ensures |Got(threads, steps)| == Pops(steps)
  {
    if steps == [] {
    } else {
      var front, last := steps[..|steps| - 1], steps[|steps| - 1];
      EveryPopReturns(threads, front);
      if last.PopLeft? {
        PopNeverFails(threads, front, last.thread);
      }
    }
  }

  /** The k-th get to reach the deque returns the item of the k-th put, whatever threads did them. */
  lemma {:induction false} KthGetIsKthPut<T>(threads: set<Thread>, steps: seq<Step<T>>, k: nat)
    requires Reach(threads, steps).Some? && k < Pops(steps)
    ensures k < |Got(threads, steps)| && k < |Put(steps)| && Got(threads, steps)[k] == Put(steps)[k]
  {
    EveryPopReturns(threads, steps);
    FirstInFirstOut(threads, steps);
  }

  /** With no put or get under way the count is the length, so a get succeeds exactly when an item is there. */
  lemma {:induction false} QuietCountIsLength<T>(threads: set<Thread>, steps: seq<Step<T>>)
    requires Reach(threads, steps).Some?
    requires var s := Reach(threads, steps).value; forall t | t in s.pcs :: s.pcs[t] != Putting && s.pcs[t] != Getting
    ensures var s := Reach(threads, steps).value; s.count == |s.queue|
  {
    AlwaysBalanced(threads, steps);
    var s := Reach(threads, steps).value;
    assert forall t | t in s.pcs :: t !in Threads(s, Putting) && t !in Threads(s, Getting);
    assert Threads(s, Putting) == {} && Threads(s, Getting) == {};
  }
}
