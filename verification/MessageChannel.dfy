/** The delta channel over message lists: every piece put together for the reducer it ships with. */
module MessageChannel {
  import opened Prelude
  import opened DeltaChannel
  import opened CheckpointWalk
  import opened Messages

  const OVERWRITE := "__overwrite__"

  /** The Python values that reach a message channel. */
  datatype PyValue =
    | PyNone
    | Text(text: string)
    | MessageList(messages: seq<Message>)
    | OneMessage(message: Message)
    | Dict(entries: map<string, PyValue>)
    | Overwrite(wrapped: PyValue)

  /** `_get_overwrite`: the typed form, the sentinel-keyed dict, and the form JSON leaves of a dataclass. */
  function GetOverwrite(v: PyValue): Option<PyValue> {
    match v
    case Overwrite(w) => Some(w)
    case Dict(d) =>
      if |d| == 1 && OVERWRITE in d then Some(d[OVERWRITE])
      else if "type" in d && d["type"] == Text(OVERWRITE) && "value" in d then Some(d["value"])
      else None
    case _ => None
  }

  /** What JSON leaves of a value: every overwrite in it, at any depth, is a plain dict. */
  function Jsoned(v: PyValue): PyValue {
    match v
    case Overwrite(w) => Dict(map["value" := Jsoned(w), "type" := Text(OVERWRITE)])
    case Dict(d) => Dict(map key | key in d :: Jsoned(d[key]))
    case _ => v
  }

  /** A trip through JSON neither loses an overwrite nor makes one, and what is wrapped makes the trip too. */
  lemma OverwriteSurvivesJson(v: PyValue)
    ensures GetOverwrite(Jsoned(v)) == match GetOverwrite(v) case Some(w) => Some(Jsoned(w)) case None => None
  {
    assert "value"[0] != "type"[0];
    assert "value"[0] != OVERWRITE[0];
    assert "type"[0] != OVERWRITE[0];
    if v.Dict? {
      var d := v.entries;
      var j: map<string, PyValue> := map key | key in d :: Jsoned(d[key]);
      assert j.Keys == d.Keys;
      assert |j| == |j.Keys| && |d| == |d.Keys|;
      assert Jsoned(v).entries == j;
    }
  }

  function AsMessages(v: PyValue): seq<Message> {
    if v.MessageList? then v.messages else []
  }

  function AsWrite(v: PyValue): Write {
    if v.OneMessage? then One(v.message) else Many(AsMessages(v))
  }

  function AsWrites(vs: seq<PyValue>): (ws: seq<Write>)
    ensures |ws| == |vs|
  {
    seq(|vs|, i requires 0 <= i < |vs| => AsWrite(vs[i]))
  }

  ghost function ReduceMessages(s: PyValue, vs: seq<PyValue>): PyValue {
    MessageList(Reduce(AsMessages(s), AsWrites(vs)))
  }

  /** The channel `Annotated[list, DeltaChannel(_messages_delta_reducer)]`. */
  ghost function MessagesKind(): Kind<PyValue> {
    Kind((s: PyValue, vs: seq<PyValue>) => ReduceMessages(s, vs), MessageList([]), PyNone, GetOverwrite)
  }

  ghost predicate GoodState(v: PyValue) {
    v.MessageList? && DistinctIds(v.messages)
  }

  lemma ReduceMessagesTwice(s: PyValue, xs: seq<PyValue>, ys: seq<PyValue>)
    requires GoodState(s)
    ensures GoodState(ReduceMessages(s, xs))
    ensures ReduceMessages(ReduceMessages(s, xs), ys) == ReduceMessages(s, xs + ys)
  {
    ReduceDistinct(s.messages, AsWrites(xs));
    BatchingInvariant(s.messages, AsWrites(xs), AsWrites(ys));
    assert AsWrites(xs + ys) == AsWrites(xs) + AsWrites(ys);
  }

  /** The message reducer is lawful on lists with distinct non-null ids. */
  lemma MessagesLawful()
    ensures Lawful(MessagesKind(), GoodState)
  {
    var k := MessagesKind();
    assert forall s, vs :: k.reducer(s, vs) == ReduceMessages(s, vs);
    forall s, xs | GoodState(s) ensures GoodState(k.reducer(s, xs)) {
      ReduceMessagesTwice(s, xs, []);
    }
    forall s, xs, ys | GoodState(s) ensures k.reducer(k.reducer(s, xs), ys) == k.reducer(s, xs + ys) {
      ReduceMessagesTwice(s, xs, ys);
    }
  }

  /**
   * A message thread restored from any intact checkpoint chain whose steps ran in stored order since the
   * last reset is the message list the live run held, and its ids are distinct.
   */
  lemma MessageThreadRestored(db: Db<PyValue>, target: CheckpointId, rank: CheckpointId -> nat)
    requires Acyclic(db, rank) && Intact(MessagesKind(), db, target, rank)
    requires ValueAt(MessagesKind(), db, target, rank).Ok?
    requires HistoryInto(MessagesKind(), db, GoodState)
    requires CleanTrail(MessagesKind(), db, target, rank) && OrderedTrail(MessagesKind(), db, target, rank)
    ensures Restored(MessagesKind(), db, target, rank)
            == ValueAt(MessagesKind(), db, target, rank).value.GetOr(MessageList([]))
    ensures GoodState(Restored(MessagesKind(), db, target, rank))
  {
    var k := MessagesKind();
    MessagesLawful();
    RestoredIsLive(k, db, target, rank, GoodState);
    if db[target].stored == Absent && db[target].parent.Some? {
      var p := db[target].parent.value;
      var t := TrailOf(db, Some(p), rank);
      TrailIsRun(k, db, p, rank);
      TrailInto(k, db, Some(p), rank, GoodState);
      ResetsIntoReordered(k, GoodState, LiveSteps(db, Some(p), rank), Steps(t.blocks));
      RunInvariant(k, GoodState, Held(t.seed), LiveSteps(db, Some(p), rank));
    }
  }

  lemma LeftAsItIs(list: seq<Message>, vs: seq<PyValue>)
    requires DistinctIds(list)
    ensures Reduced(MessagesKind(), MessageList(list), vs) == MessageList(list) <==> Reduce(list, AsWrites(vs)) == list
  {
    assert MessagesKind().reducer(MessageList(list), vs) == ReduceMessages(MessageList(list), vs);
    if vs == [] {
      assert AsWrites(vs) == [] && Flat([]) == [];
      assert Unload(Load(list)) == list;
    }
  }

  /**
   * A message thread whose last step overwrites the list is replayed correctly exactly when reducing the
   * writes stored after the overwrite leaves the new list as it is.
   */
  lemma ThreadAgreesIffDroppedHarmless(start: Option<PyValue>, live: seq<seq<PyValue>>, stored: seq<seq<PyValue>>,
        i: nat, list: seq<Message>)
    requires SameWrites(live, stored) && Run(MessagesKind(), start, live).Ok? && stored != []
    requires LastOverwrite(MessagesKind(), stored[|stored| - 1]) == Some(i)
    requires MessagesKind().Reset(stored[|stored| - 1][i]) == MessageList(list) && DistinctIds(list)
    ensures Replayed(MessagesKind(), start.GetOr(MessageList([])), Flatten(stored))
            == Run(MessagesKind(), start, live).value.GetOr(MessageList([]))
            <==> Reduce(list, AsWrites(stored[|stored| - 1][i + 1..])) == list
  {
    AgreesIffDroppedHarmless(MessagesKind(), start, live, stored);
    LeftAsItIs(list, stored[|stored| - 1][i + 1..]);
  }

  /** A message without an id is never harmless: a live step drops it, the replay of that step brings it back. */
  lemma MessageAfterOverwriteReappears(list: seq<Message>, m: Message)
    requires DistinctIds(list) && m.id == None
    ensures var k, step := MessagesKind(), [Overwrite(MessageList(list)), OneMessage(m)];
            && Stepped(k, None, step) == Ok(Some(MessageList(list)))
            && Replayed(k, MessageList([]), step) == MessageList(list + [m])
  {
    var k := MessagesKind();
    var step := [Overwrite(MessageList(list)), OneMessage(m)];
    assert k.Reset(step[0]) == MessageList(list);
    LastOverwriteAppend(k, [step[0]], [step[1]]);
    assert [step[0]] + [step[1]] == step;
    assert LastOverwrite(k, [step[0]]) == Some(0) && LastOverwrite(k, [step[1]]) == None;
    assert !TwoOverwritesIn(k, step);
    assert step[1..] == [OneMessage(m)];
    assert AsWrites([OneMessage(m)]) == [One(m)];
    AnonymousIsAppended(list, m);
  }

  /** Any of the three forms of an overwrite, alone in a step, resets the list; one that wraps `None` empties it. */
  lemma OverwriteFormsReset(s: Option<PyValue>, list: seq<Message>, form: PyValue, wrapped: PyValue)
    requires form == Overwrite(wrapped) || form == Dict(map["__overwrite__" := wrapped])
             || form == Dict(map["value" := wrapped, "type" := Text("__overwrite__")])
    requires wrapped == MessageList(list) || (wrapped == PyNone && list == [])
    ensures Stepped(MessagesKind(), s, [form]) == Ok(Some(MessageList(list)))
  {
    assert "value"[0] != "type"[0] && "value"[0] != OVERWRITE[0] && "type"[0] != OVERWRITE[0];
    var k := MessagesKind();
    assert form.Dict? && OVERWRITE in form.entries ==> form.entries == map[OVERWRITE := wrapped];
    assert k.unwrap(form) == Some(wrapped);
    LastOverwriteAppend(k, [], [form]);
    assert [] + [form] == [form] && !TwoOverwritesIn(k, [form]);
    assert LastOverwrite(k, [form]) == Some(0);
  }

  // ---------------------------------------------------------------------
  // Lists and single messages in one step
  // ---------------------------------------------------------------------

  /** The messages from `lo` to `hi` are those of one write: a single message, or all of a list. */
  ghost predicate LiesAt(v: PyValue, ms: seq<Message>, lo: nat, hi: nat) {
    && lo <= hi <= |ms|
    && match v
       case OneMessage(m) => hi == lo + 1 && ms[lo] == m
       case MessageList(list) => hi == lo + |list| && forall j | 0 <= j < |list| :: ms[lo + j] == list[j]
       case _ => false
  }

  /** `ms` holds the messages of all writes one after the other; write `i` lies from `at[i]` to `at[i + 1]`. */
  ghost predicate LaidOut(vs: seq<PyValue>, ms: seq<Message>, at: seq<nat>) {
    && |at| == |vs| + 1 && at[0] == 0 && at[|vs|] == |ms|
    && forall i | 0 <= i < |vs| :: LiesAt(vs[i], ms, at[i], at[i + 1])
  }

  lemma WriteLies(v: PyValue, ms: seq<Message>, lo: nat, hi: nat)
    requires LiesAt(v, ms, lo, hi)
    ensures Batch(AsWrite(v)) == ms[lo..hi]
  {
  }

  lemma {:induction false} FlatLaidOut(vs: seq<PyValue>, ms: seq<Message>, at: seq<nat>, n: nat)
    requires LaidOut(vs, ms, at) && n <= |vs| && at[n] <= |ms|
    ensures Flat(AsWrites(vs[..n])) == ms[..at[n]]
  {
    if n == 0 {
    } else {
      assert LiesAt(vs[n - 1], ms, at[n - 1], at[n]);
      FlatLaidOut(vs, ms, at, n - 1);
      WriteLies(vs[n - 1], ms, at[n - 1], at[n]);
      assert AsWrites(vs[..n]) == AsWrites(vs[..n - 1]) + [AsWrite(vs[n - 1])];
      FlatSnoc(AsWrites(vs[..n - 1]), AsWrite(vs[n - 1]));
      assert ms[..at[n]] == ms[..at[n - 1]] + ms[at[n - 1]..at[n]];
    }
  }

  /** Every batch of lists and single messages can be laid out. */
  lemma {:induction false} EveryBatchLaidOut(vs: seq<PyValue>) returns (ms: seq<Message>, at: seq<nat>)
    requires forall i | 0 <= i < |vs| :: vs[i].OneMessage? || vs[i].MessageList?
    ensures LaidOut(vs, ms, at)
  {
    if vs == [] {
      ms, at := [], [0];
    } else {
      var n := |vs| - 1;
      var front, starts := EveryBatchLaidOut(vs[..n]);
      ms := front + if vs[n].OneMessage? then [vs[n].message] else vs[n].messages;
      at := starts + [|ms|];
      forall i | 0 <= i < |vs| ensures LiesAt(vs[i], ms, at[i], at[i + 1]) {
        if i < n {
          assert LiesAt(vs[..n][i], front, starts[i], starts[i + 1]);
        }
      }
    }
  }

  /**
   * Lists and single messages of a step, in any mixture, become one list of messages in order, and the
   * thread is what its places hold (`Messages.ReducedPlaces`).
   */
  lemma WritesReduced(s: seq<Message>, vs: seq<PyValue>, ms: seq<Message>, at: seq<nat>)
    requires DistinctIds(s) && LaidOut(vs, ms, at)
    ensures ReduceMessages(MessageList(s), vs) == MessageList(Unload(Places(s, ms, |s| + |ms|)))
  {
    FlatLaidOut(vs, ms, at, |vs|);
    assert vs[..|vs|] == vs && ms[..|ms|] == ms;
    ReducedPlaces(s, AsWrites(vs));
  }

  lemma {:induction false} LaidOutIsPlain(vs: seq<PyValue>, ms: seq<Message>, at: seq<nat>, n: nat)
    requires LaidOut(vs, ms, at) && n <= |vs|
    ensures LastOverwrite(MessagesKind(), vs[..n]) == None
  {
    if n == 0 {
    } else {
      assert LiesAt(vs[n - 1], ms, at[n - 1], at[n]);
      LaidOutIsPlain(vs, ms, at, n - 1);
      assert vs[..n][..n - 1] == vs[..n - 1];
    }
  }

  /** One step of the live channel, from a thread or from a channel never written. */
  lemma StepOfWrites(value: Option<PyValue>, s: seq<Message>, vs: seq<PyValue>, ms: seq<Message>, at: seq<nat>)
    requires value == Some(MessageList(s)) || (value == None && s == [])
    requires DistinctIds(s) && LaidOut(vs, ms, at) && vs != []
    ensures Stepped(MessagesKind(), value, vs) == Ok(Some(MessageList(Unload(Places(s, ms, |s| + |ms|)))))
  {
    WritesReduced(s, vs, ms, at);
    LaidOutIsPlain(vs, ms, at, |vs|);
    assert vs[..|vs|] == vs;
    PlainStepped(MessagesKind(), value, vs);
  }

  /** A node that returns a list: its messages go through the places, and new ones are appended as they are. */
  lemma StepOfOneList(value: Option<PyValue>, s: seq<Message>, list: seq<Message>)
    requires value == Some(MessageList(s)) || (value == None && s == [])
    requires DistinctIds(s)
    ensures Stepped(MessagesKind(), value, [MessageList(list)]) == Ok(Some(MessageList(Unload(Places(s, list, |s| + |list|)))))
    ensures DistinctIds(s + list) && (forall i | 0 <= i < |list| && list[i].id.Some? :: !list[i].isRemove) ==>
              Stepped(MessagesKind(), value, [MessageList(list)]) == Ok(Some(MessageList(s + list)))
  {
    assert LaidOut([MessageList(list)], list, [0, |list|]);
    StepOfWrites(value, s, [MessageList(list)], list, [0, |list|]);
    if DistinctIds(s + list) && forall i | 0 <= i < |list| && list[i].id.Some? :: !list[i].isRemove {
      PlacesOfNew(s, list);
    }
  }

  // ---------------------------------------------------------------------
  // Threads that grow by new messages
  // ---------------------------------------------------------------------

  function Sent(vs: seq<PyValue>): (ms: seq<Message>)
    requires forall i | 0 <= i < |vs| :: vs[i].OneMessage?
    ensures |ms| == |vs| && forall i | 0 <= i < |vs| :: vs[i] == OneMessage(ms[i])
  {
    seq(|vs|, i requires 0 <= i < |vs| => vs[i].message)
  }

  /** Single messages: without an id, or written under ids that are new and all different. */
  ghost predicate NewMessages(s: PyValue, vs: seq<PyValue>) {
    && GoodState(s)
    && (forall i | 0 <= i < |vs| :: vs[i].OneMessage? && (vs[i].message.id.Some? ==> !vs[i].message.isRemove))
    && DistinctIds(s.messages + Sent(vs))
  }

  lemma NewMessagesFront(s: PyValue, vs: seq<PyValue>, v: PyValue)
    requires NewMessages(s, vs + [v])
    ensures NewMessages(s, vs) && v.OneMessage? && (v.message.id.Some? ==> !v.message.isRemove)
    ensures Sent(vs + [v]) == Sent(vs) + [v.message]
    ensures DistinctIds(s.messages + Sent(vs) + [v.message])
  {
    assert (vs + [v])[|vs|] == v;
    assert forall i | 0 <= i < |vs| :: (vs + [v])[i] == vs[i];
    Assoc(s.messages, Sent(vs), [v.message]);
    var longer, shorter := s.messages + Sent(vs + [v]), s.messages + Sent(vs);
    assert forall i | 0 <= i < |shorter| :: longer[i] == shorter[i];
  }

  /** The message reducer appends them. */
  lemma {:induction false} NewMessagesAppend(s: PyValue, vs: seq<PyValue>)
    requires NewMessages(s, vs)
    ensures ReduceMessages(s, vs) == MessageList(s.messages + Sent(vs))
  {
    if vs == [] {
      assert AsWrites(vs) == [] && Flat([]) == [];
      assert Unload(Load(s.messages)) == s.messages && s.messages + Sent(vs) == s.messages;
    } else {
      var front, v := vs[..|vs| - 1], vs[|vs| - 1];
      assert vs == front + [v];
      NewMessagesFront(s, front, v);
      NewMessagesAppend(s, front);
      ReduceMessagesTwice(s, front, [v]);
      assert AsWrites([v]) == [One(v.message)];
      NewIsAppended(s.messages + Sent(front), v.message);
      Assoc(s.messages, Sent(front), [v.message]);
    }
  }

  lemma PlacesOfNew(s: seq<Message>, list: seq<Message>)
    requires DistinctIds(s) && DistinctIds(s + list)
    requires forall i | 0 <= i < |list| && list[i].id.Some? :: !list[i].isRemove
    ensures Unload(Places(s, list, |s| + |list|)) == s + list
  {
    var ones := seq(|list|, i requires 0 <= i < |list| => OneMessage(list[i]));
    assert LaidOut(ones, list, seq(|list| + 1, i => i));
    WritesReduced(s, ones, list, seq(|list| + 1, i => i));
    assert Sent(ones) == list;
    NewMessagesAppend(MessageList(s), ones);
  }

  /** Of such batches the message reducer loses nothing. */
  lemma MessagesInjective()
    ensures Injective(MessagesKind(), NewMessages)
  {
    var k := MessagesKind();
    forall s, xs, ys | NewMessages(s, xs) && NewMessages(s, ys) && Reduced(k, s, xs) == Reduced(k, s, ys) ensures xs == ys {
      ReducedByNew(s, xs);
      ReducedByNew(s, ys);
      var a, b := s.messages + Sent(xs), s.messages + Sent(ys);
      assert Sent(xs) == a[|s.messages|..] && Sent(ys) == b[|s.messages|..];
      assert forall i | 0 <= i < |xs| :: xs[i] == OneMessage(Sent(xs)[i]) && ys[i] == OneMessage(Sent(ys)[i]);
    }
  }

  lemma ReducedByNew(s: PyValue, vs: seq<PyValue>)
    requires NewMessages(s, vs)
    ensures Reduced(MessagesKind(), s, vs) == MessageList(s.messages + Sent(vs))
  {
    NewMessagesAppend(s, vs);
    assert MessagesKind().reducer(s, vs) == ReduceMessages(s, vs);
    assert s.messages + [] == s.messages;
  }

  lemma {:induction false} SentCounts(vs: seq<PyValue>, m: Message)
    requires forall i | 0 <= i < |vs| :: vs[i].OneMessage?
    ensures multiset(Sent(vs))[m] == multiset(vs)[OneMessage(m)]
  {
    if vs == [] {
    } else {
      var front, v := vs[..|vs| - 1], vs[|vs| - 1];
      assert vs == front + [v] && Sent(vs) == Sent(front) + [v.message];
      SentCounts(front, m);
    }
  }

  /** New messages stay new in another order and without some of them. */
  lemma NewMessagesAmong(s: PyValue, xs: seq<PyValue>, ys: seq<PyValue>)
    requires NewMessages(s, ys) && multiset(xs) <= multiset(ys)
    ensures NewMessages(s, xs)
  {
    forall i | 0 <= i < |xs| ensures xs[i].OneMessage? && (xs[i].message.id.Some? ==> !xs[i].message.isRemove) {
      assert xs[i] in multiset(ys);
      var j :| 0 <= j < |ys| && ys[j] == xs[i];
    }
    var a, b := s.messages + Sent(xs), s.messages + Sent(ys);
    forall m ensures multiset(a)[m] <= multiset(b)[m] {
      SentCounts(xs, m);
      SentCounts(ys, m);
    }
    DistinctAmong(a, b);
  }

  /**
   * A thread to which only new messages were written since the last reset is restored as the live run held
   * it exactly when nothing is stored after the last overwrite and the steps since ran in stored order.
   */
  lemma MessageThreadRestoredIff(db: Db<PyValue>, target: CheckpointId, rank: CheckpointId -> nat)
    requires Acyclic(db, rank) && Intact(MessagesKind(), db, target, rank)
    requires ValueAt(MessagesKind(), db, target, rank).Ok?
    requires HistoryInto(MessagesKind(), db, GoodState) && db[target].stored == Absent
    requires var w := TrailSince(MessagesKind(), db, target, rank); NewMessages(w.origin, w.dropped + w.stored)
    ensures Restored(MessagesKind(), db, target, rank)
            == ValueAt(MessagesKind(), db, target, rank).value.GetOr(MessageList([]))
            <==> CleanTrail(MessagesKind(), db, target, rank) && OrderedTrail(MessagesKind(), db, target, rank)
  {
    var k := MessagesKind();
    var w := TrailSince(k, db, target, rank);
    MessagesLawful();
    MessagesInjective();
    SameSince(k, db, target, rank, GoodState);
    NewMessagesAmong(w.origin, w.live, w.dropped + w.stored);
    RestoredIsLiveIffClean(k, db, target, rank, GoodState, NewMessages);
  }

  /** On a chain the loop writes, only the order matters. */
  lemma LoopThreadRestoredIff(db: Db<PyValue>, target: CheckpointId, rank: CheckpointId -> nat)
    requires Acyclic(db, rank) && Intact(MessagesKind(), db, target, rank)
    requires ValueAt(MessagesKind(), db, target, rank).Ok? && SnapshotsAfterOverwrites(MessagesKind(), db)
    requires HistoryInto(MessagesKind(), db, GoodState) && db[target].stored == Absent
    requires var w := TrailSince(MessagesKind(), db, target, rank); NewMessages(w.origin, w.dropped + w.stored)
    ensures Restored(MessagesKind(), db, target, rank)
            == ValueAt(MessagesKind(), db, target, rank).value.GetOr(MessageList([]))
            <==> OrderedTrail(MessagesKind(), db, target, rank)
  {
    LoopTrailIsClean(MessagesKind(), db, target, rank);
    MessageThreadRestoredIff(db, target, rank);
  }

  // ---------------------------------------------------------------------
  // A step that did not run in stored order
  // ---------------------------------------------------------------------

  /**
   * Two parallel tasks append one message each. The path order puts `a` first, the task ids put `b`
   * first. The checkpoint after that step may hold a snapshot.
   */
  function ParallelStep(a: Message, b: Message, middle: Stored<PyValue>): Db<PyValue> {
    map["root" := Row(None, Absent, [PendingWrite(1, 0, OneMessage(a)), PendingWrite(0, 0, OneMessage(b))],
                      [OneMessage(a), OneMessage(b)]),
        "step" := Row(Some("root"), middle, [], []),
        "target" := Row(Some("step"), Absent, [], [])]
  }

  function Depth(id: CheckpointId): nat {
    if id == "root" then 0 else if id == "step" then 1 else 2
  }

  lemma AppendTwo(a: Message, b: Message)
    requires a.id == None && b.id == None
    ensures Reduce([], [One(a), One(b)]) == [a, b]
  {
    assert [One(a)] + [One(b)] == [One(a), One(b)] && [] + [a] == [a] && [a] + [b] == [a, b];
    BatchingInvariant([], [One(a)], [One(b)]);
    AnonymousIsAppended([], a);
    AnonymousIsAppended([a], b);
  }

  lemma TwoAppended(s: Option<PyValue>, a: Message, b: Message)
    requires a.id == None && b.id == None && s.GetOr(MessageList([])) == MessageList([])
    ensures var k, step := MessagesKind(), [OneMessage(a), OneMessage(b)];
            && LastOverwrite(k, step) == None
            && Stepped(k, s, step) == Ok(Some(MessageList([a, b])))
            && Replayed(k, MessageList([]), step) == MessageList([a, b])
  {
    var k, step := MessagesKind(), [OneMessage(a), OneMessage(b)];
    LastOverwriteAppend(k, [step[0]], [step[1]]);
    assert [step[0]] + [step[1]] == step;
    assert LastOverwrite(k, [step[0]]) == None && LastOverwrite(k, [step[1]]) == None;
    assert AsWrites(step) == [One(a), One(b)];
    AppendTwo(a, b);
    assert k.reducer(MessageList([]), step) == ReduceMessages(MessageList([]), step) == MessageList([a, b]);
  }

  lemma ParallelRows(a: Message, b: Message, middle: Stored<PyValue>)
    ensures var db := ParallelStep(a, b, middle);
            && Acyclic(db, Depth)
            && "root" in db && db["root"].parent == None && db["root"].stored == Absent
            && "step" in db && db["step"].parent == Some("root") && db["step"].stored == middle
            && "target" in db && db["target"].parent == Some("step") && db["target"].stored == Absent
            && db["root"].live == [OneMessage(a), OneMessage(b)] && db["step"].live == [] && db["target"].live == []
            && Step(db["root"]) == [OneMessage(b), OneMessage(a)]
            && Step(db["step"]) == [] && Step(db["target"]) == []
  {
    var db := ParallelStep(a, b, middle);
    assert "root"[0] != "step"[0] && |"target"| != |"step"| && |"target"| != |"root"|;
    var root := db["root"];
    assert Reverse(root.writes[1..]) == [root.writes[1]];
    assert Reverse(root.writes) == [root.writes[1], root.writes[0]];
  }

  lemma ParallelValues(a: Message, b: Message, middle: Stored<PyValue>)
    requires a.id == None && b.id == None
    ensures var k, db := MessagesKind(), ParallelStep(a, b, middle);
            && Acyclic(db, Depth)
            && ValueAt(k, db, "root", Depth) == Ok(None)
            && ValueAt(k, db, "step", Depth) == Ok(Some(MessageList([a, b])))
            && ValueAt(k, db, "target", Depth) == Ok(Some(MessageList([a, b])))
  {
    var k, db := MessagesKind(), ParallelStep(a, b, middle);
    ParallelRows(a, b, middle);
    TwoAppended(None, a, b);
    assert ValueAt(k, db, "root", Depth) == Ok(None);
    assert ValueAt(k, db, "step", Depth) == Stepped(k, None, db["root"].live);
    assert Stepped(k, Some(MessageList([a, b])), []) == Ok(Some(MessageList([a, b])));
  }

  lemma ParallelIntact(a: Message, b: Message, middle: Stored<PyValue>)
    requires a.id == None && b.id == None && (middle == Absent || middle == Snapshot(MessageList([a, b])))
    ensures Acyclic(ParallelStep(a, b, middle), Depth)
    ensures Intact(MessagesKind(), ParallelStep(a, b, middle), "target", Depth)
  {
    var k, db := MessagesKind(), ParallelStep(a, b, middle);
    ParallelRows(a, b, middle);
    ParallelValues(a, b, middle);
    assert multiset(db["root"].live) == multiset(Step(db["root"]));
    assert Intact(k, db, "root", Depth);
    assert Intact(k, db, "step", Depth);
  }

  lemma ParallelRestored(a: Message, b: Message, middle: Stored<PyValue>)
    requires a.id == None && b.id == None
    ensures var k, db := MessagesKind(), ParallelStep(a, b, middle);
            && Acyclic(db, Depth)
            && (middle == Absent ==> Restored(k, db, "target", Depth) == MessageList([b, a]))
            && (middle != Absent ==> Restored(k, db, "target", Depth) == middle.value)
  {
    var k, db := MessagesKind(), ParallelStep(a, b, middle);
    assert "root"[0] != "step"[0] && |"target"| != |"step"| && |"target"| != |"root"|;
    var root := db["root"];
    assert Reverse(root.writes[1..]) == [root.writes[1]];
    var block := [root.writes[1], root.writes[0]];
    assert Reverse(root.writes) == block;
    if middle == Absent {
      assert TrailOf(db, Some("root"), Depth) == Trail(Absent, None, [block]);
      assert TrailOf(db, Some("step"), Depth) == Trail(Absent, None, [block] + [[]]);
      FlattenSnoc([block], []);
      FlattenSnoc([], block);
      assert [] + [block] == [block] && [] + block == block;
      assert Values(Flatten([block] + [[]])) == [OneMessage(b), OneMessage(a)];
      TwoAppended(None, b, a);
    } else {
      assert TrailOf(db, Some("step"), Depth) == Trail(middle, Some("step"), [[]]);
      var none: seq<PendingWrite<PyValue>> := [];
      assert [none] == [] + [none];
      FlattenSnoc([], none);
      assert Values(Flatten([none])) == [];
    }
  }

  /**
   * Two different messages without an id, appended by parallel tasks: the live thread holds them in path
   * order, the restored one in task-id order, unless a snapshot was taken in between.
   */
  lemma ParallelMessagesSwap(a: Message, b: Message, middle: Stored<PyValue>)
    requires a.id == None && b.id == None && a != b
    requires middle == Absent || middle == Snapshot(MessageList([a, b]))
    ensures Acyclic(ParallelStep(a, b, middle), Depth)
    ensures Intact(MessagesKind(), ParallelStep(a, b, middle), "target", Depth)
    ensures ValueAt(MessagesKind(), ParallelStep(a, b, middle), "target", Depth) == Ok(Some(MessageList([a, b])))
    ensures "target" in ParallelStep(a, b, middle)
    ensures Restored(MessagesKind(), ParallelStep(a, b, middle), "target", Depth)
            == MessageList(if middle == Absent then [b, a] else [a, b])
    ensures [b, a] != [a, b]
  {
    ParallelRows(a, b, middle);
    ParallelValues(a, b, middle);
    ParallelIntact(a, b, middle);
    ParallelRestored(a, b, middle);
    assert [b, a][0] != [a, b][0];
  }

  // ---------------------------------------------------------------------
  // A reducer that loses nothing
  // ---------------------------------------------------------------------

  /** Nested lists of numbers, for a channel that concatenates. */
  datatype Item = Nothing | Number(n: int) | Items(items: seq<Item>) | Reset(to: Item)

  function Unwrap(v: Item): Option<Item> {
    if v.Reset? then Some(v.to) else None
  }

  function AppendItems(s: Item, vs: seq<Item>): Item {
    Items((if s.Items? then s.items else [s]) + vs)
  }

  /** Appending is lawful and loses nothing, so the condition of `ReplayAgreesIffClean` is the right one. */
  lemma AppendingIsInjective()
    ensures var k := Kind(AppendItems, Items([]), Nothing, Unwrap);
            Lawful(k, (v: Item) => v.Items?) && Injective(k, (v: Item, vs: seq<Item>) => v.Items?)
  {
    var k := Kind(AppendItems, Items([]), Nothing, Unwrap);
    var inv := (v: Item) => v.Items?;
    forall s: Item, xs, ys | inv(s) ensures k.reducer(k.reducer(s, xs), ys) == k.reducer(s, xs + ys) {
      assert s.items + xs + ys == s.items + (xs + ys);
    }
    forall s: Item, xs, ys | inv(s) && Reduced(k, s, xs) == Reduced(k, s, ys) ensures xs == ys {
      assert Reduced(k, s, xs).items == s.items + xs && Reduced(k, s, ys).items == s.items + ys;
      assert xs == (s.items + xs)[|s.items|..] && ys == (s.items + ys)[|s.items|..];
    }
  }
}
