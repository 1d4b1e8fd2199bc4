/** `add_messages`, the older reducer of langgraph/graph/message.py, and how it relates to the batch reducer. */
module AddMessages {
  import opened Prelude
  import opened Messages

  const REMOVE_ALL_MESSAGES: Id := "__remove_all__"

  ghost predicate IdsAssigned(ms: seq<Message>) {
    forall i | 0 <= i < |ms| :: ms[i].id.Some?
  }

  predicate ClearsAll(m: Message) {
    m.isRemove && m.id == Some(REMOVE_ALL_MESSAGES)
  }

  ghost function LastClear(right: seq<Message>): (r: Option<nat>)
    ensures r.Some? ==> r.value < |right| && ClearsAll(right[r.value])
  {
    if right == [] then None
    else if ClearsAll(right[|right| - 1]) then Some(|right| - 1)
    else LastClear(right[..|right| - 1])
  }

  /** The merged list, in first-written order, and the ids marked for removal. */
  datatype Merge = Merge(merged: seq<Message>, gone: set<Id>)

  ghost function MergeStep(s: Merge, m: Message): Result<Merge, Id>
    requires m.id.Some?
  {
    var id := m.id.value;
    match FindLast(s.merged, id)
    case Some(i) =>
      if m.isRemove then Ok(s.(gone := s.gone + {id}))
      else Ok(Merge(s.merged[i := m], s.gone - {id}))
    case None =>
      if m.isRemove then Err(id) else Ok(s.(merged := s.merged + [m]))
  }

  ghost function MergeAll(left: seq<Message>, right: seq<Message>): Result<Merge, Id>
    requires IdsAssigned(right)
  {
    if right == [] then Ok(Merge(left, {})) else
      match MergeAll(left, right[..|right| - 1])
      case Ok(s) => MergeStep(s, right[|right| - 1])
      case Err(id) => Err(id)
  }

  ghost function Keep(ms: seq<Message>, gone: set<Id>): seq<Message> {
    if ms == [] then [] else
      var last := ms[|ms| - 1];
      Keep(ms[..|ms| - 1], gone) + if last.id.Some? && last.id.value in gone then [] else [last]
  }

  /** What `add_messages` returns, or the unknown id whose removal makes it raise. */
  ghost function Added(left: seq<Message>, right: seq<Message>): Result<seq<Message>, Id>
    requires IdsAssigned(right)
  {
    match LastClear(right)
    case Some(k) => Ok(right[k + 1..])
    case None =>
      match MergeAll(left, right)
      case Ok(s) => Ok(Keep(s.merged, s.gone))
      case Err(id) => Err(id)
  }

  lemma {:induction false} MergeAllErr(left: seq<Message>, right: seq<Message>, k: nat)
    requires IdsAssigned(right) && k <= |right| && MergeAll(left, right[..k]).Err?
    ensures MergeAll(left, right) == MergeAll(left, right[..k])
    decreases |right| - k
  {
    if k == |right| {
      assert right[..k] == right;
    } else {
      assert right[..k + 1][..k] == right[..k];
      MergeAllErr(left, right, k + 1);
    }
  }

  ghost predicate IndexesLast(ms: seq<Message>, index: map<Id, nat>) {
    && (forall id | id in index :: index[id] < |ms| && ms[index[id]].id == Some(id))
    && (forall i | 0 <= i < |ms| && ms[i].id.Some? :: ms[i].id.value in index && i <= index[ms[i].id.value])
  }

  lemma IndexFinds(ms: seq<Message>, index: map<Id, nat>, id: Id)
    requires IndexesLast(ms, index)
    ensures FindLast(ms, id) == if id in index then Some(index[id]) else None
  {
    if id in index {
      assert ms[index[id]].id == Some(id);
    }
  }

  lemma IndexAfterReplace(ms: seq<Message>, index: map<Id, nat>, i: nat, m: Message)
    requires IndexesLast(ms, index) && i < |ms| && ms[i].id == m.id
    ensures IndexesLast(ms[i := m], index)
  {
    assert forall j | 0 <= j < |ms| :: ms[i := m][j].id == ms[j].id;
  }

  lemma IndexAfterAppend(ms: seq<Message>, index: map<Id, nat>, m: Message)
    requires IndexesLast(ms, index) && m.id.Some?
    ensures IndexesLast(ms + [m], index[m.id.value := |ms|])
  {
  }

  /** `[m for m in merged if m.id not in ids_to_remove]` */
  method WithoutIds(merged: seq<Message>, idsToRemove: set<Id>) returns (kept: seq<Message>)
    ensures kept == Keep(merged, idsToRemove)
  {
    kept := [];
    for k := 0 to |merged|
      invariant kept == Keep(merged[..k], idsToRemove)
    {
      assert merged[..k + 1][..k] == merged[..k];
      if !(merged[k].id.Some? && merged[k].id.value in idsToRemove) {
        kept := kept + [merged[k]];
      }
    }
    assert merged[..|merged|] == merged;
  }

  method LastClearIndex(right: seq<Message>) returns (k: Option<nat>)
    ensures k == LastClear(right)
  {
    k := None;
    for i := 0 to |right|
      invariant k == LastClear(right[..i])
    {
      assert right[..i + 1][..i] == right[..i];
      if ClearsAll(right[i]) {
        k := Some(i);
      }
    }
    assert right[..|right|] == right;
  }

  method AddMessages(left: seq<Message>, right: seq<Message>) returns (r: Result<seq<Message>, Id>)
    requires IdsAssigned(left) && IdsAssigned(right)
    ensures r == Added(left, right)
  {
    var removeAllIdx: Option<nat> := LastClearIndex(right);
    if removeAllIdx.Some? {
      return Ok(right[removeAllIdx.value + 1..]);
    }

    var merged := left;
    var mergedById: map<Id, nat> := IndexOf(left);
    var idsToRemove: set<Id> := {};
    for k := 0 to |right|
      invariant MergeAll(left, right[..k]) == Ok(Merge(merged, idsToRemove))
      invariant IndexesLast(merged, mergedById)
    {
      assert right[..k + 1][..k] == right[..k];
      var m := right[k];
      IndexFinds(merged, mergedById, m.id.value);
      if m.id.value in mergedById {
        if m.isRemove {
          idsToRemove := idsToRemove + {m.id.value};
        } else {
          IndexAfterReplace(merged, mergedById, mergedById[m.id.value], m);
          idsToRemove := idsToRemove - {m.id.value};
          merged := merged[mergedById[m.id.value] := m];
        }
      } else {
        if m.isRemove {
          MergeAllErr(left, right, k + 1);
          return Err(m.id.value);
        }
        IndexAfterAppend(merged, mergedById, m);
        mergedById := mergedById[m.id.value := |merged|];
        merged := merged + [m];
      }
    }
    assert right[..|right|] == right;
    var kept := WithoutIds(merged, idsToRemove);
    r := Ok(kept);
  }

  // ---------------------------------------------------------------------
  // Agreement with the batch reducer
  // ---------------------------------------------------------------------

  lemma {:induction false} InKeep(ms: seq<Message>, gone: set<Id>)
    ensures forall x :: x in Keep(ms, gone) <==> x in ms && !(x.id.Some? && x.id.value in gone)
  {
    if ms == [] {
    } else {
      InKeep(ms[..|ms| - 1], gone);
      assert ms == ms[..|ms| - 1] + [ms[|ms| - 1]];
    }
  }

  lemma {:induction false} KeepDistinct(ms: seq<Message>, gone: set<Id>)
    requires DistinctIds(ms)
    ensures DistinctIds(Keep(ms, gone))
  {
    if ms == [] {
    } else {
      var front := ms[..|ms| - 1];
      KeepDistinct(front, gone);
      InKeep(front, gone);
      var kept := Keep(front, gone);
      forall i | 0 <= i < |kept| && kept[i].id.Some? ensures kept[i].id != ms[|ms| - 1].id {
        assert kept[i] in front;
      }
    }
  }

  lemma HasIdSnoc(ms: seq<Message>, m: Message, id: Id)
    ensures HasId(ms + [m], id) <==> HasId(ms, id) || m.id == Some(id)
  {
    assert forall i | 0 <= i < |ms| :: (ms + [m])[i] == ms[i];
    assert (ms + [m])[|ms|] == m;
  }

  lemma {:induction false} KeptIds(ms: seq<Message>, gone: set<Id>, id: Id)
    ensures HasId(Keep(ms, gone), id) <==> HasId(ms, id) && id !in gone
  {
    if ms == [] {
    } else {
      var front, last := ms[..|ms| - 1], ms[|ms| - 1];
      KeptIds(front, gone, id);
      assert ms == front + [last];
      HasIdSnoc(front, last, id);
      HasIdSnoc(Keep(front, gone), last, id);
      assert Keep(front, gone) + [] == Keep(front, gone);
    }
  }

  /** Merging keeps ids distinct and assigned, and only ids still in the list are marked. */
  ghost predicate Orderly(s: Merge) {
    && DistinctIds(s.merged)
    && IdsAssigned(s.merged)
    && forall id | id in s.gone :: HasId(s.merged, id)
  }

  /** Merging a message adds its id and no other; only ids in the list are marked. */
  lemma StepIds(s: Merge, m: Message)
    requires m.id.Some? && MergeStep(s, m).Ok? && forall id | id in s.gone :: HasId(s.merged, id)
    ensures var t := MergeStep(s, m).value;
            && (forall id :: HasId(t.merged, id) <==> HasId(s.merged, id) || m.id == Some(id))
            && (forall id | id in t.gone :: HasId(t.merged, id))
  {
    var t := MergeStep(s, m).value.merged;
    forall id ensures HasId(t, id) <==> HasId(s.merged, id) || m.id == Some(id) {
      HasIdSnoc(s.merged, m, id);
      if |t| == |s.merged| {
        assert forall i | 0 <= i < |t| :: t[i].id == s.merged[i].id;
      }
    }
  }

  lemma {:induction false} MergeIds(left: seq<Message>, right: seq<Message>)
    requires IdsAssigned(right) && MergeAll(left, right).Ok?
    ensures var s := MergeAll(left, right).value;
            && (forall id :: HasId(s.merged, id) <==> HasId(left, id) || HasId(right, id))
            && (forall id | id in s.gone :: HasId(s.merged, id))
  {
    if right == [] {
    } else {
      var front, m := right[..|right| - 1], right[|right| - 1];
      assert right == front + [m];
      MergeIds(left, front);
      StepIds(MergeAll(left, front).value, m);
      forall id ensures HasId(right, id) <==> HasId(front, id) || m.id == Some(id) {
        HasIdSnoc(front, m, id);
      }
    }
  }

  lemma StepOrderly(s: Merge, m: Message)
    requires Orderly(s) && m.id.Some? && MergeStep(s, m).Ok?
    ensures Orderly(MergeStep(s, m).value)
  {
    StepIds(s, m);
  }

  lemma {:induction false} MergeOrderly(left: seq<Message>, right: seq<Message>)
    requires DistinctIds(left) && IdsAssigned(left) && IdsAssigned(right)
    requires MergeAll(left, right).Ok?
    ensures Orderly(MergeAll(left, right).value)
  {
    if right == [] {
    } else {
      MergeOrderly(left, right[..|right| - 1]);
      StepOrderly(MergeAll(left, right[..|right| - 1]).value, right[|right| - 1]);
    }
  }

  /** `add_messages` raises exactly when it removes an id that neither `left` nor an earlier message holds. */
  lemma {:induction false} RaisesIffUnknownRemoval(left: seq<Message>, right: seq<Message>)
    requires IdsAssigned(right)
    ensures MergeAll(left, right).Err? <==>
            exists j | 0 <= j < |right| ::
              right[j].isRemove && !HasId(left, right[j].id.value) && !HasId(right[..j], right[j].id.value)
  {
    if right == [] {
    } else {
      var front, m := right[..|right| - 1], right[|right| - 1];
      RaisesIffUnknownRemoval(left, front);
      assert forall j | 0 <= j <= |front| :: right[..j] == front[..j];
      assert right[|front|] == m && right[..|front|] == front;
      if MergeAll(left, front).Ok? {
        MergeIds(left, front);
      } else {
        var j :| 0 <= j < |front| && front[j].isRemove && !HasId(left, front[j].id.value)
                 && !HasId(front[..j], front[j].id.value);
        assert right[j] == front[j];
      }
    }
  }

  /** The result of a merge has distinct ids. */
  lemma AddedDistinct(left: seq<Message>, right: seq<Message>)
    requires DistinctIds(left) && IdsAssigned(left) && IdsAssigned(right)
    requires LastClear(right).None? && Added(left, right).Ok?
    ensures DistinctIds(Added(left, right).value)
  {
    MergeOrderly(left, right);
    var s := MergeAll(left, right).value;
    KeepDistinct(s.merged, s.gone);
  }

  lemma {:induction false} KeepAll(ms: seq<Message>)
    ensures Keep(ms, {}) == ms
  {
    if ms == [] {
    } else {
      KeepAll(ms[..|ms| - 1]);
    }
  }

  /** The last message of some id in a list is a removal. */
  ghost predicate EndsRemoved(ms: seq<Message>, id: Id) {
    FindLast(ms, id).Some? && ms[FindLast(ms, id).value].isRemove
  }

  /** An id is marked at the end exactly when its last message removed it. */
  lemma {:induction false} GoneIffEndsRemoved(left: seq<Message>, right: seq<Message>, id: Id)
    requires IdsAssigned(right) && MergeAll(left, right).Ok?
    ensures id in MergeAll(left, right).value.gone <==> EndsRemoved(right, id)
  {
    if right == [] {
    } else {
      var front, m := right[..|right| - 1], right[|right| - 1];
      assert right == front + [m];
      GoneIffEndsRemoved(left, front, id);
      FindLastSnoc(front, m, id);
      MergeIds(left, front);
    }
  }

  ghost function ReplaceById(ms: seq<Message>, m: Message): (r: seq<Message>)
    ensures |r| == |ms|
  {
    seq(|ms|, i requires 0 <= i < |ms| => if ms[i].id == m.id then m else ms[i])
  }

  /** What writing a message does to a list with distinct ids, in either reducer, until ids are removed. */
  ghost function Written(ms: seq<Message>, m: Message): seq<Message>
    requires m.id.Some?
  {
    if HasId(ms, m.id.value) then ReplaceById(ms, m) else ms + [m]
  }

  lemma KeepSnoc(ms: seq<Message>, m: Message, gone: set<Id>)
    ensures Keep(ms + [m], gone) == Keep(ms, gone) + if m.id.Some? && m.id.value in gone then [] else [m]
  {
    assert (ms + [m])[..|ms|] == ms;
  }

  lemma ReplaceSnoc(ms: seq<Message>, last: Message, m: Message)
    ensures ReplaceById(ms + [last], m) == ReplaceById(ms, m) + [if last.id == m.id then m else last]
  {
  }

  lemma {:induction false} KeepReplaced(ms: seq<Message>, m: Message, gone: set<Id>)
    ensures Keep(ReplaceById(ms, m), gone) == ReplaceById(Keep(ms, gone), m)
  {
    if ms == [] {
    } else {
      var front, last := ms[..|ms| - 1], ms[|ms| - 1];
      var last' := if last.id == m.id then m else last;
      KeepReplaced(front, m, gone);
      ReplaceSnoc(front, last, m);
      ReplaceSnoc(Keep(front, gone), last, m);
      assert ms == front + [last];
      KeepSnoc(front, last, gone);
      KeepSnoc(ReplaceById(front, m), last', gone);
      assert Keep(front, gone) + [] == Keep(front, gone);
    }
  }

  /** Writing a message, seen without certain ids. */
  lemma KeepWritten(ms: seq<Message>, m: Message, gone: set<Id>)
    requires m.id.Some?
    ensures Keep(Written(ms, m), gone) == if m.id.value in gone then Keep(ms, gone) else Written(Keep(ms, gone), m)
  {
    var kept := Keep(ms, gone);
    KeptIds(ms, gone, m.id.value);
    KeepReplaced(ms, m, gone);
    KeepSnoc(ms, m, gone);
    if m.id.value in gone {
      InKeep(ms, gone);
      assert forall i | 0 <= i < |kept| :: kept[i] in kept;
      assert ReplaceById(kept, m) == kept && kept + [] == kept;
    }
  }

  lemma KeyOfId(es: seq<Entry>, id: Id)
    requires WellKeyed(es)
    ensures HasKey(es, id) <==> HasId(Unload(es), id)
  {
    if HasKey(es, id) {
      var i :| 0 <= i < |es| && es[i].key == Some(id);
      assert Unload(es)[i].id == Some(id);
    }
  }

  lemma ApplyWrites(es: seq<Entry>, m: Message)
    requires WellKeyed(es) && m.id.Some? && !m.isRemove
    ensures Unload(Apply(es, m)) == Written(Unload(es), m)
  {
    KeyOfId(es, m.id.value);
    PutShape(es, m.id.value, m);
  }

  lemma {:induction false} KeepDropped(es: seq<Entry>, id: Id, gone: set<Id>)
    requires WellKeyed(es) && id in gone
    ensures Keep(Unload(Drop(es, id)), gone) == Keep(Unload(es), gone)
  {
    if es == [] {
    } else {
      var front, last := es[..|es| - 1], es[|es| - 1];
      assert es == front + [last];
      WellKeyedSnoc(front, last);
      KeepDropped(front, id, gone);
      assert Unload(es) == Unload(front) + [last.msg];
      assert Unload(Drop(front, id) + [last]) == Unload(Drop(front, id)) + [last.msg];
      assert Drop(front, id) + [] == Drop(front, id);
      KeepSnoc(Unload(front), last.msg, gone);
      KeepSnoc(Unload(Drop(front, id)), last.msg, gone);
    }
  }

  /** Seen without the ids in `gone`, which include every removed one, a message does the same to both lists. */
  lemma SameWithoutGone(s: Merge, es: seq<Entry>, m: Message, gone: set<Id>)
    requires Orderly(s) && WellKeyed(es) && m.id.Some? && MergeStep(s, m).Ok?
    requires m.isRemove ==> m.id.value in gone
    requires Keep(s.merged, gone) == Keep(Unload(es), gone)
    ensures Keep(MergeStep(s, m).value.merged, gone) == Keep(Unload(Apply(es, m)), gone)
  {
    if m.isRemove {
      KeepDropped(es, m.id.value, gone);
    } else {
      ApplyWrites(es, m);
      assert MergeStep(s, m).value.merged == Written(s.merged, m);
      KeepWritten(s.merged, m, gone);
      KeepWritten(Unload(es), m, gone);
    }
  }

  lemma {:induction false} AllSameWithoutGone(left: seq<Message>, right: seq<Message>, gone: set<Id>)
    requires DistinctIds(left) && IdsAssigned(left) && IdsAssigned(right) && MergeAll(left, right).Ok?
    requires forall i | 0 <= i < |right| && right[i].isRemove :: right[i].id.value in gone
    ensures WellKeyed(ApplyAll(Load(left), right))
    ensures Keep(MergeAll(left, right).value.merged, gone) == Keep(Unload(ApplyAll(Load(left), right)), gone)
  {
    LoadWellKeyed(left);
    ApplyAllWellKeyed(Load(left), right);
    if right == [] {
      assert Unload(Load(left)) == left;
    } else {
      var front, m := right[..|right| - 1], right[|right| - 1];
      assert forall i | 0 <= i < |front| :: front[i] == right[i];
      AllSameWithoutGone(left, front, gone);
      MergeOrderly(left, front);
      SameWithoutGone(MergeAll(left, front).value, ApplyAll(Load(left), front), m, gone);
    }
  }

  /** Every id that is removed at all is removed by its last message: no write comes back after a removal for good. */
  ghost predicate RemovalsStand(right: seq<Message>)
    requires IdsAssigned(right)
  {
    forall i | 0 <= i < |right| && right[i].isRemove :: EndsRemoved(right, right[i].id.value)
  }

  lemma {:induction false} KeepNone(ms: seq<Message>, gone: set<Id>)
    requires forall x | x in ms && x.id.Some? :: x.id.value !in gone
    ensures Keep(ms, gone) == ms
  {
    if ms == [] {
    } else {
      var front, last := ms[..|ms| - 1], ms[|ms| - 1];
      assert last in ms && ms == front + [last];
      KeepNone(front, gone);
    }
  }

  /**
   * Where removals stand, the removal set of `add_messages` and the tombstones of the batch reducer give
   * the same list.
   */
  lemma AddedEqualsReduce(left: seq<Message>, right: seq<Message>)
    requires DistinctIds(left) && IdsAssigned(left) && IdsAssigned(right)
    requires LastClear(right).None? && Added(left, right).Ok? && RemovalsStand(right)
    ensures Added(left, right).value == Reduce(left, [Many(right)])
  {
    var gone := MergeAll(left, right).value.gone;
    forall id ensures id in gone <==> EndsRemoved(right, id) {
      GoneIffEndsRemoved(left, right, id);
    }
    AllSameWithoutGone(left, right, gone);
    assert Flat([Many(right)]) == Flat([]) + right == right;
    var reduced := Reduce(left, [Many(right)]);
    forall x | x in reduced && x.id.Some? ensures x.id.value !in gone {
      LastWriteWins(left, [Many(right)], x);
    }
    KeepNone(reduced, gone);
  }

  // ---------------------------------------------------------------------
  // The condition is exact
  // ---------------------------------------------------------------------

  /** An id longer than all ids of a list. */
  ghost function Fresh(ms: seq<Message>): (id: Id)
    ensures |id| > |REMOVE_ALL_MESSAGES|
    ensures forall i | 0 <= i < |ms| && ms[i].id.Some? :: |id| > |ms[i].id.value|
  {
    if ms == [] then REMOVE_ALL_MESSAGES + "+" else
      var id, last := Fresh(ms[..|ms| - 1]), ms[|ms| - 1];
      if last.id.Some? && |last.id.value| >= |id| then last.id.value + "+" else id
  }

  lemma FreshIsNew(ms: seq<Message>)
    ensures !HasId(ms, Fresh(ms)) && Fresh(ms) != REMOVE_ALL_MESSAGES
  {
  }

  ghost function Text(id: Id): Message {
    Message(Some(id), false, "")
  }

  /** A list that holds every id of `right` once, after those of `start`. */
  ghost function Holders(start: seq<Message>, right: seq<Message>): seq<Message>
    requires IdsAssigned(right)
  {
    if right == [] then start else
      var hs, id := Holders(start, right[..|right| - 1]), right[|right| - 1].id.value;
      if HasId(hs, id) then hs else hs + [Text(id)]
  }

  lemma {:induction false} HoldersHold(start: seq<Message>, right: seq<Message>)
    requires start != [] && DistinctIds(start) && IdsAssigned(start) && IdsAssigned(right)
    ensures var hs := Holders(start, right);
            && DistinctIds(hs) && IdsAssigned(hs) && hs != [] && hs[0] == start[0]
            && forall id :: HasId(hs, id) <==> HasId(start, id) || HasId(right, id)
  {
    if right == [] {
    } else {
      var front, m := right[..|right| - 1], right[|right| - 1];
      assert right == front + [m];
      HoldersHold(start, front);
      var hs := Holders(start, front);
      forall id ensures HasId(Holders(start, right), id) <==> HasId(start, id) || HasId(right, id) {
        HasIdSnoc(front, m, id);
        HasIdSnoc(hs, Text(m.id.value), id);
      }
    }
  }

  lemma {:induction false} MergeKeepsHead(left: seq<Message>, right: seq<Message>)
    requires left != [] && IdsAssigned(right) && MergeAll(left, right).Ok?
    ensures var merged := MergeAll(left, right).value.merged; merged != [] && merged[0].id == left[0].id
  {
    if right == [] {
    } else {
      MergeKeepsHead(left, right[..|right| - 1]);
    }
  }

  lemma {:induction false} KeepKeepsHead(ms: seq<Message>, gone: set<Id>)
    requires ms != [] && ms[0].id.Some? && ms[0].id.value !in gone
    ensures Keep(ms, gone) != [] && Keep(ms, gone)[0] == ms[0]
  {
    if |ms| == 1 {
    } else {
      KeepKeepsHead(ms[..|ms| - 1], gone);
    }
  }

  /** Some entry has the key `mark`, and no entry up to there has the key `id`. */
  ghost predicate MarkFirst(es: seq<Entry>, mark: Id, id: Id) {
    es != [] &&
    (MarkFirst(es[..|es| - 1], mark, id) || (!HasKey(es, id) && es[|es| - 1].key == Some(mark)))
  }

  lemma MarkFirstSnoc(es: seq<Entry>, e: Entry, mark: Id, id: Id)
    ensures MarkFirst(es + [e], mark, id) <==> MarkFirst(es, mark, id) || (!HasKey(es + [e], id) && e.key == Some(mark))
  {
    assert (es + [e])[..|es|] == es;
  }

  lemma {:induction false} MarkFirstHead(es: seq<Entry>, mark: Id, id: Id)
    requires MarkFirst(es, mark, id)
    ensures es != [] && es[0].key != Some(id)
  {
    if MarkFirst(es[..|es| - 1], mark, id) {
      MarkFirstHead(es[..|es| - 1], mark, id);
    }
  }

  lemma {:induction false} DropMarkFirst(es: seq<Entry>, other: Id, mark: Id, id: Id)
    requires MarkFirst(es, mark, id) && other != mark
    ensures MarkFirst(Drop(es, other), mark, id)
  {
    var front, last := es[..|es| - 1], es[|es| - 1];
    assert es == front + [last];
    DropSnoc(front, last, other);
    MarkFirstSnoc(Drop(front, other), last, mark, id);
    if MarkFirst(front, mark, id) {
      DropMarkFirst(front, other, mark, id);
      assert Drop(front, other) + [] == Drop(front, other);
    } else {
      DropHasKey(es, other, id);
    }
  }

  lemma {:induction false} PutMarkFirst(es: seq<Entry>, m: Message, mark: Id, id: Id)
    requires MarkFirst(es, mark, id) && m.id.Some?
    ensures MarkFirst(Put(es, m.id.value, m), mark, id)
  {
    var front, last := es[..|es| - 1], es[|es| - 1];
    var last' := if last.key == m.id then Entry(last.key, m) else last;
    assert es == front + [last];
    PutSnoc(front, last, m.id.value, m);
    MarkFirstSnoc(Put(front, m.id.value, m), last', mark, id);
    if MarkFirst(front, mark, id) {
      PutMarkFirst(front, m, mark, id);
    } else {
      PutShape(es, m.id.value, m);
    }
  }

  lemma ApplyMarkFirst(es: seq<Entry>, m: Message, mark: Id, id: Id)
    requires MarkFirst(es, mark, id) && m.id.Some? && m.id != Some(mark)
    ensures MarkFirst(Apply(es, m), mark, id)
  {
    if m.isRemove {
      DropMarkFirst(es, m.id.value, mark, id);
    } else if HasKey(es, m.id.value) {
      PutMarkFirst(es, m, mark, id);
    } else {
      MarkFirstSnoc(es, Entry(m.id, m), mark, id);
    }
  }

  lemma {:induction false} MarkStaysFirst(es: seq<Entry>, ms: seq<Message>, mark: Id, id: Id)
    requires MarkFirst(es, mark, id) && IdsAssigned(ms) && !HasId(ms, mark)
    ensures MarkFirst(ApplyAll(es, ms), mark, id)
  {
    if ms == [] {
    } else {
      var front, m := ms[..|ms| - 1], ms[|ms| - 1];
      assert ms == front + [m];
      HasIdSnoc(front, m, mark);
      MarkStaysFirst(es, front, mark, id);
      ApplyMarkFirst(ApplyAll(es, front), m, mark, id);
    }
  }

  lemma {:induction false} MarkSurvives(es: seq<Entry>, ms: seq<Message>, mark: Id)
    requires HasKey(es, mark) && IdsAssigned(ms) && !HasId(ms, mark)
    ensures HasKey(ApplyAll(es, ms), mark)
  {
    if ms == [] {
    } else {
      var front, m := ms[..|ms| - 1], ms[|ms| - 1];
      assert ms == front + [m];
      HasIdSnoc(front, m, mark);
      MarkSurvives(es, front, mark);
      var before := ApplyAll(es, front);
      DropHasKey(before, m.id.value, mark);
      var i :| 0 <= i < |before| && before[i].key == Some(mark);
      PutShape(before, m.id.value, m);
      HasKeyAppend(before, [Entry(m.id, m)], mark);
      if !m.isRemove && HasKey(before, m.id.value) {
        assert Put(before, m.id.value, m)[i].key == Some(mark);
      }
    }
  }

  /** With `mark` in a list and `id` absent from it, `mark` comes first. */
  lemma {:induction false} MarkAlone(es: seq<Entry>, mark: Id, id: Id)
    requires HasKey(es, mark) && !HasKey(es, id)
    ensures MarkFirst(es, mark, id)
  {
    var front, last := es[..|es| - 1], es[|es| - 1];
    assert es == front + [last];
    HasKeyAppend(front, [last], mark);
    HasKeyAppend(front, [last], id);
    if last.key != Some(mark) {
      MarkAlone(front, mark, id);
    }
  }

  /** After a removal of `id` at `i`, an id that was there all along comes before any later `id`. */
  lemma {:induction false} RemovalReorders(left: seq<Message>, right: seq<Message>, i: nat, mark: Id)
    requires IdsAssigned(right) && i < |right| && right[i].isRemove && !HasId(right, mark)
    requires HasKey(Load(left), mark)
    ensures MarkFirst(ApplyAll(Load(left), right), mark, right[i].id.value)
  {
    var id, es := right[i].id.value, ApplyAll(Load(left), right[..i]);
    MarkSurvives(Load(left), right[..i], mark);
    DropHasKey(es, id, id);
    DropHasKey(es, id, mark);
    ApplyAllNext(Load(left), right, i);
    assert right[i].id != Some(mark);
    MarkAlone(Drop(es, id), mark, id);
    MarkStaysFirst(Drop(es, id), right[i + 1..], mark, id);
    ApplyAllAppend(Load(left), right[..i + 1], right[i + 1..]);
    assert right == right[..i + 1] + right[i + 1..];
  }

  /** A state that holds every id of `right`, `id` first and a new one last. */
  ghost function Witness(right: seq<Message>, id: Id): seq<Message>
    requires IdsAssigned(right)
  {
    Holders([Text(id)], right) + [Text(Fresh(right))]
  }

  lemma {:induction false} WitnessHolds(right: seq<Message>, i: nat)
    requires IdsAssigned(right) && i < |right|
    ensures var left := Witness(right, right[i].id.value);
            && DistinctIds(left) && IdsAssigned(left) && left[0].id == right[i].id
            && HasKey(Load(left), Fresh(right)) && MergeAll(left, right).Ok?
  {
    var id, mark := right[i].id.value, Fresh(right);
    var hs, left := Holders([Text(id)], right), Witness(right, id);
    FreshIsNew(right);
    HoldersHold([Text(id)], right);
    assert !HasId(hs, mark);
    assert forall j | 0 <= j < |hs| :: left[j] == hs[j];
    assert left[|hs|] == Text(mark);
    LoadHasKey(left, mark);
    RaisesIffUnknownRemoval(left, right);
    forall j | 0 <= j < |right| ensures HasId(left, right[j].id.value) {
      assert HasId(hs, right[j].id.value);
      HasIdSnoc(hs, Text(mark), right[j].id.value);
    }
  }

  lemma {:induction false} AddedKeepsHead(left: seq<Message>, right: seq<Message>, id: Id)
    requires IdsAssigned(right) && LastClear(right).None? && Added(left, right).Ok?
    requires left != [] && left[0].id == Some(id) && !EndsRemoved(right, id)
    ensures Added(left, right).value != [] && Added(left, right).value[0].id == Some(id)
  {
    GoneIffEndsRemoved(left, right, id);
    MergeKeepsHead(left, right);
    KeepKeepsHead(MergeAll(left, right).value.merged, MergeAll(left, right).value.gone);
  }

  lemma {:induction false} ReducedHead(left: seq<Message>, right: seq<Message>, mark: Id, id: Id)
    requires DistinctIds(left) && MarkFirst(ApplyAll(Load(left), right), mark, id)
    ensures Reduce(left, [Many(right)]) != [] && Reduce(left, [Many(right)])[0].id != Some(id)
  {
    var es := ApplyAll(Load(left), right);
    MarkFirstHead(es, mark, id);
    LoadWellKeyed(left);
    ApplyAllWellKeyed(Load(left), right);
    assert Flat([Many(right)]) == Flat([]) + right == right;
  }

  /** An id written for good after its removal keeps its slot in one reducer and goes behind a later message in the other. */
  lemma {:induction false} RewriteReorders(right: seq<Message>, i: nat)
    requires IdsAssigned(right) && LastClear(right).None?
    requires i < |right| && right[i].isRemove && !EndsRemoved(right, right[i].id.value)
    ensures var left := Witness(right, right[i].id.value);
            && DistinctIds(left) && IdsAssigned(left) && Added(left, right).Ok?
            && Added(left, right).value != Reduce(left, [Many(right)])
  {
    var id, mark := right[i].id.value, Fresh(right);
    var left := Witness(right, id);
    WitnessHolds(right, i);
    AddedKeepsHead(left, right, id);
    FreshIsNew(right);
    RemovalReorders(left, right, i, mark);
    ReducedHead(left, right, mark, id);
  }

  ghost predicate AlwaysReduces(right: seq<Message>)
    requires IdsAssigned(right)
  {
    forall left | DistinctIds(left) && IdsAssigned(left) && Added(left, right).Ok? ::
      Added(left, right).value == Reduce(left, [Many(right)])
  }

  /**
   * The two reducers return one list from every state on which `right` does not raise exactly when no id
   * whose last message in `right` is a write was removed earlier in it.
   */
  lemma AddedEqualsReduceIff(right: seq<Message>)
    requires IdsAssigned(right) && LastClear(right).None?
    ensures AlwaysReduces(right) <==> RemovalsStand(right)
  {
    if RemovalsStand(right) {
      forall left | DistinctIds(left) && IdsAssigned(left) && Added(left, right).Ok?
        ensures Added(left, right).value == Reduce(left, [Many(right)])
      {
        AddedEqualsReduce(left, right);
      }
    } else {
      var i :| 0 <= i < |right| && right[i].isRemove && !EndsRemoved(right, right[i].id.value);
      RewriteReorders(right, i);
    }
  }

  lemma {:induction false} MergeSameMessages(left: seq<Message>, right: seq<Message>)
    requires DistinctIds(left) && IdsAssigned(left) && IdsAssigned(right) && MergeAll(left, right).Ok?
    ensures WellKeyed(ApplyAll(Load(left), right))
    ensures var s := MergeAll(left, right).value;
            forall x: Message :: Entry(x.id, x) in ApplyAll(Load(left), right) <==> x in Keep(s.merged, s.gone)
  {
    if right == [] {
      KeepAll(left);
      LoadWellKeyed(left);
      forall x: Message ensures Entry(x.id, x) in Load(left) <==> x in left {
        InUnload(Load(left), x);
        assert Unload(Load(left)) == left;
      }
    } else {
      var front, m := right[..|right| - 1], right[|right| - 1];
      MergeSameMessages(left, front);
      MergeOrderly(left, front);
      ApplyWellKeyed(ApplyAll(Load(left), front), m);
      StepSameMessages(ApplyAll(Load(left), front), MergeAll(left, front).value, m);
    }
  }

  lemma InReplace(ms: seq<Message>, i: nat, m: Message, x: Message)
    requires DistinctIds(ms) && i < |ms| && ms[i].id == m.id && m.id.Some?
    ensures x in ms[i := m] <==> x == m || (x in ms && x.id != m.id)
  {
    assert ms[i := m][i] == m;
    if x in ms && x.id != m.id {
      var j :| 0 <= j < |ms| && ms[j] == x;
      assert ms[i := m][j] == x;
    }
  }

  lemma StepSameMessages(es: seq<Entry>, s: Merge, m: Message)
    requires WellKeyed(es) && Orderly(s) && m.id.Some? && MergeStep(s, m).Ok?
    requires forall x: Message :: Entry(x.id, x) in es <==> x in Keep(s.merged, s.gone)
    ensures var t := MergeStep(s, m).value;
            forall x: Message :: Entry(x.id, x) in Apply(es, m) <==> x in Keep(t.merged, t.gone)
  {
    var id, t := m.id.value, MergeStep(s, m).value;
    InKeep(s.merged, s.gone);
    InKeep(t.merged, t.gone);
    forall x: Message ensures Entry(x.id, x) in Apply(es, m) <==> x in Keep(t.merged, t.gone) {
      InApply(es, m, x);
      var i := FindLast(s.merged, id);
      if !m.isRemove && i.Some? {
        InReplace(s.merged, i.value, m, x);
      }
    }
  }

  /**
   * Whatever `right` does, as long as it does not raise, the two reducers keep the same messages and no
   * id twice, so they can differ in order only.
   */
  lemma AddedPermutesReduce(left: seq<Message>, right: seq<Message>)
    requires DistinctIds(left) && IdsAssigned(left) && IdsAssigned(right)
    requires LastClear(right).None? && Added(left, right).Ok?
    ensures DistinctIds(Added(left, right).value) && DistinctIds(Reduce(left, [Many(right)]))
    ensures forall x :: x in Added(left, right).value <==> x in Reduce(left, [Many(right)])
  {
    AddedDistinct(left, right);
    ReduceDistinct(left, [Many(right)]);
    MergeSameMessages(left, right);
    assert Flat([Many(right)]) == Flat([]) + right == right;
    var es := ApplyAll(Load(left), right);
    forall x ensures x in Unload(es) <==> Entry(x.id, x) in es {
      if x in Unload(es) {
        var i :| 0 <= i < |es| && es[i].msg == x;
        assert es[i] == Entry(x.id, x);
      }
      if Entry(x.id, x) in es {
        var i :| 0 <= i < |es| && es[i] == Entry(x.id, x);
        assert Unload(es)[i] == x;
      }
    }
  }

  /** What follows the last remove-all is the result, and nothing else is: it holds no remove-all itself. */
  lemma {:induction false} ClearedResult(left: seq<Message>, right: seq<Message>, k: nat)
    requires IdsAssigned(right) && k < |right|
    requires right[k].isRemove && right[k].id == Some("__remove_all__")
    requires forall j | k < j < |right| :: !(right[j].isRemove && right[j].id == Some("__remove_all__"))
    ensures Added(left, right) == Ok(right[k + 1..])
  {
    LastClearIs(right, k);
  }

  /** Without a remove-all, and only then, the lists are merged. */
  lemma {:induction false} ClearedIff(right: seq<Message>)
    ensures LastClear(right).Some? <==>
            exists j | 0 <= j < |right| :: right[j].isRemove && right[j].id == Some("__remove_all__")
  {
    if right == [] {
    } else {
      var front := right[..|right| - 1];
      ClearedIff(front);
      assert forall j | 0 <= j < |front| :: front[j] == right[j];
    }
  }

  lemma {:induction false} LastClearIs(right: seq<Message>, k: nat)
    requires k < |right| && ClearsAll(right[k]) && forall j | k < j < |right| :: !ClearsAll(right[j])
    ensures LastClear(right) == Some(k)
  {
    if k == |right| - 1 {
    } else {
      assert forall j | 0 <= j < |right| - 1 :: right[..|right| - 1][j] == right[j];
      LastClearIs(right[..|right| - 1], k);
    }
  }

  // ---------------------------------------------------------------------
  // Batching
  // ---------------------------------------------------------------------

  lemma {:induction false} LastClearAppend(xs: seq<Message>, ys: seq<Message>)
    ensures LastClear(xs + ys) ==
            match LastClear(ys)
            case Some(k) => Some(|xs| + k)
            case None => LastClear(xs)
  {
    if ys == [] {
      assert xs + ys == xs;
    } else {
      LastClearAppend(xs, ys[..|ys| - 1]);
      assert (xs + ys)[..|xs + ys| - 1] == xs + ys[..|ys| - 1];
    }
  }

  /** With nothing marked, a merge can be interrupted: the rest goes on from the merged list alone. */
  lemma {:induction false} MergeOnward(left: seq<Message>, xs: seq<Message>, ys: seq<Message>)
    requires IdsAssigned(xs) && IdsAssigned(ys)
    requires MergeAll(left, xs).Ok? && MergeAll(left, xs).value.gone == {}
    ensures MergeAll(left, xs + ys) == MergeAll(MergeAll(left, xs).value.merged, ys)
  {
    if ys == [] {
      assert xs + ys == xs;
    } else {
      MergeOnward(left, xs, ys[..|ys| - 1]);
      assert (xs + ys)[..|xs + ys| - 1] == xs + ys[..|ys| - 1];
    }
  }

  lemma {:induction false} RemovesOne(left: seq<Message>, id: Id)
    requires id != REMOVE_ALL_MESSAGES
    ensures var rm := Message(Some(id), true, "");
            && LastClear([rm]).None?
            && Added(left, [rm]) == if HasId(left, id) then Ok(Keep(left, {id})) else Err(id)
  {
    var rm := Message(Some(id), true, "");
    assert [rm][..0] == [];
    assert MergeAll(left, []) == Ok(Merge(left, {}));
    assert {} + {id} == {id};
  }

  /** Splitting off `ys` after `xs` makes no difference, whatever `ys` is. */
  ghost predicate BatchesAfter(left: seq<Message>, xs: seq<Message>)
    requires IdsAssigned(xs) && Added(left, xs).Ok?
  {
    forall ys | IdsAssigned(ys) :: Added(Added(left, xs).value, ys) == Added(left, xs + ys)
  }

  lemma DropFront<T>(xs: seq<T>, ys: seq<T>, n: nat, k: nat)
    requires n == |xs| + k && k <= |ys|
    ensures (xs + ys)[n..] == ys[k..]
  {
  }

  lemma {:induction false} NothingClears(right: seq<Message>, i: nat)
    requires LastClear(right).None? && i < |right|
    ensures !ClearsAll(right[i])
  {
    if i < |right| - 1 {
      NothingClears(right[..|right| - 1], i);
    }
  }

  lemma {:induction false} ClearDecides(left: seq<Message>, right: seq<Message>, k: nat)
    requires IdsAssigned(right) && LastClear(right) == Some(k)
    ensures Added(left, right) == Ok(right[k + 1..])
  {
  }

  lemma {:induction false} AfterLastClear(left: seq<Message>, xs: seq<Message>, ys: seq<Message>)
    requires IdsAssigned(xs) && IdsAssigned(ys) && LastClear(ys).Some?
    ensures Added(left, xs + ys) == Ok(ys[LastClear(ys).value + 1..])
  {
    var k := LastClear(ys).value;
    assert LastClear(xs + ys) == Some(|xs| + k) by { LastClearAppend(xs, ys); }
    ClearDecides(left, xs + ys, |xs| + k);
    DropFront(xs, ys, |xs| + k + 1, k + 1);
  }

  lemma {:induction false} BatchesIfNothingGone(left: seq<Message>, xs: seq<Message>, ys: seq<Message>)
    requires IdsAssigned(xs) && IdsAssigned(ys) && LastClear(xs).None?
    requires Added(left, xs).Ok? && MergeAll(left, xs).value.gone == {}
    ensures Added(Added(left, xs).value, ys) == Added(left, xs + ys)
  {
    var merged := MergeAll(left, xs).value.merged;
    assert Added(left, xs).value == merged by { KeepAll(merged); }
    if LastClear(ys).Some? {
      AfterLastClear(left, xs, ys);
    } else {
      assert LastClear(xs + ys).None? by { LastClearAppend(xs, ys); }
      MergeOnward(left, xs, ys);
    }
  }

  /** A marked id is still known in the same call and unknown in the next. */
  lemma {:induction false} RemovedTwice(left: seq<Message>, xs: seq<Message>, id: Id)
    requires IdsAssigned(xs) && LastClear(xs).None? && Added(left, xs).Ok?
    requires id in MergeAll(left, xs).value.gone
    ensures var ys := [Message(Some(id), true, "")];
            Added(Added(left, xs).value, ys).Err? && Added(left, xs + ys).Ok?
  {
    var s, rm := MergeAll(left, xs).value, Message(Some(id), true, "");
    GoneIffEndsRemoved(left, xs, id);
    MergeIds(left, xs);
    NothingClears(xs, FindLast(xs, id).value);
    KeptIds(s.merged, s.gone, id);
    RemovesOne(Keep(s.merged, s.gone), id);
    LastClearAppend(xs, [rm]);
    assert (xs + [rm])[..|xs|] == xs;
  }

  /** After a remove-all the rest of the same call is taken as it is, unmerged. */
  lemma {:induction false} ClearedThenUnknown(left: seq<Message>, xs: seq<Message>)
    requires IdsAssigned(xs) && LastClear(xs).Some?
    ensures var ys := [Message(Some(Fresh(Added(left, xs).value)), true, "")];
            Added(Added(left, xs).value, ys).Err? && Added(left, xs + ys).Ok?
  {
    var kept := Added(left, xs).value;
    FreshIsNew(kept);
    RemovesOne(kept, Fresh(kept));
    LastClearAppend(xs, [Message(Some(Fresh(kept)), true, "")]);
  }

  /**
   * A call of `add_messages` may be followed by any other as if both were one exactly when it held no
   * remove-all and no id's last message in it was a removal.
   */
  lemma {:induction false} AddMessagesBatchesIff(left: seq<Message>, xs: seq<Message>)
    requires IdsAssigned(xs) && Added(left, xs).Ok?
    ensures BatchesAfter(left, xs) <==> LastClear(xs).None? && forall id :: !EndsRemoved(xs, id)
  {
    if LastClear(xs).Some? {
      ClearedThenUnknown(left, xs);
      var ys := [Message(Some(Fresh(Added(left, xs).value)), true, "")];
      assert IdsAssigned(ys) && Added(Added(left, xs).value, ys) != Added(left, xs + ys);
    } else {
      var gone := MergeAll(left, xs).value.gone;
      forall id ensures id in gone <==> EndsRemoved(xs, id) {
        GoneIffEndsRemoved(left, xs, id);
      }
      if gone == {} {
        forall ys | IdsAssigned(ys) ensures Added(Added(left, xs).value, ys) == Added(left, xs + ys) {
          BatchesIfNothingGone(left, xs, ys);
        }
      } else {
        var id :| id in gone;
        RemovedTwice(left, xs, id);
        var ys := [Message(Some(id), true, "")];
        assert IdsAssigned(ys) && Added(Added(left, xs).value, ys) != Added(left, xs + ys);
      }
    }
  }

  /** Removing and re-adding in one call keeps the old slot; over two calls the message goes to the end. */
  lemma AddMessagesIsNotBatchingInvariant()
    ensures var a, b := Message(Some("a"), false, ""), Message(Some("b"), false, "");
            var gone, again := Message(Some("a"), true, ""), Message(Some("a"), false, "new");
            && Added([a, b], [gone, again]) == Ok([again, b])
            && Added([a, b], [gone]) == Ok([b])
            && Added([b], [again]) == Ok([b, again])
  {
    var a, b := Message(Some("a"), false, ""), Message(Some("b"), false, "");
    var gone, again := Message(Some("a"), true, ""), Message(Some("a"), false, "new");
    assert "a"[0] != "b"[0];
    assert REMOVE_ALL_MESSAGES[0] != "a"[0];
    assert !ClearsAll(gone) && !ClearsAll(again);
    assert [gone][..0] == [] && [again][..0] == [] && [gone, again][..1] == [gone];
    assert LastClear([gone]) == LastClear([gone, again]) == LastClear([again]) == None;
    assert [a, b][0].id == Some("a") && [a, b][1].id == Some("b") && [b][0].id == Some("b");
    var s0 := Merge([a, b], {});
    assert FindLast([a, b], "a") == Some(0);
    assert MergeAll([a, b], []) == Ok(s0);
    var s1 := Merge([a, b], {"a"});
    assert {} + {"a"} == {"a"};
    assert MergeAll([a, b], [gone]) == MergeStep(s0, gone) == Ok(s1);
    var s2 := Merge([again, b], {});
    assert [a, b][0 := again] == [again, b] && {"a"} - {"a"} == {};
    assert MergeAll([a, b], [gone, again]) == MergeStep(s1, again) == Ok(s2);
    assert FindLast([b], "a") == None;
    assert MergeAll([b], []) == Ok(Merge([b], {}));
    assert [b] + [again] == [b, again];
    assert MergeStep(Merge([b], {}), again) == Ok(Merge([b, again], {}));
    assert MergeAll([b], [again]) == Ok(Merge([b, again], {}));
    assert [a, b][..1] == [a] && [a][..0] == [];
    assert Keep([a], {"a"}) == [];
    assert "b" !in {"a"};
    assert Keep([a, b], {"a"}) == Keep([a], {"a"}) + [b] == [b];
    KeepAll([again, b]);
    KeepAll([b, again]);
  }

  lemma DropFirstOfTwo(ea: Entry, eb: Entry, id: Id)
    requires ea.key == Some(id) && eb.key != Some(id)
    ensures Drop([ea, eb], id) == [eb]
  {
    DropSnoc([], ea, id);
    DropSnoc([ea], eb, id);
    assert [] + [ea] == [ea] && [ea] + [eb] == [ea, eb];
  }

  lemma ReduceTwoMessages(left: seq<Message>, x: Message, y: Message)
    ensures Reduce(left, [Many([x, y])]) == Unload(Apply(Apply(Load(left), x), y))
  {
    assert Flat([Many([x, y])]) == Flat([]) + [x, y] == [x, y];
    ApplyAllNext(Load(left), [x, y], 0);
    ApplyAllNext(Load(left), [x, y], 1);
    assert [x, y][..0] == [] && [x, y][..2] == [x, y];
  }

  lemma RewriteReduced(a: Message, b: Message, gone: Message, again: Message)
    requires a.id.Some? && b.id.Some? && a.id != b.id && gone.id == a.id && again.id == a.id
    requires gone.isRemove && !again.isRemove
    ensures Reduce([a, b], [Many([gone, again])]) == [b, again]
  {
    var ea, eb := Entry(a.id, a), Entry(b.id, b);
    assert Load([a, b]) == [ea, eb] by { assert Findable([a, b], 0) && Findable([a, b], 1); }
    ReduceTwoMessages([a, b], gone, again);
    DropFirstOfTwo(ea, eb, a.id.value);
    assert Unload([eb] + [Entry(a.id, again)]) == [b, again];
  }

  /** On the same input the batch reducer has the message at the end even in one call. */
  lemma RewriteKeepsSlotInOneOnly()
    ensures var a, b := Message(Some("a"), false, ""), Message(Some("b"), false, "");
            var gone, again := Message(Some("a"), true, ""), Message(Some("a"), false, "new");
            && Added([a, b], [gone, again]) == Ok([again, b])
            && Reduce([a, b], [Many([gone, again])]) == [b, again]
            && [again, b] != [b, again]
  {
    var a, b := Message(Some("a"), false, ""), Message(Some("b"), false, "");
    var gone, again := Message(Some("a"), true, ""), Message(Some("a"), false, "new");
    assert "a"[0] != "b"[0];
    AddMessagesIsNotBatchingInvariant();
    RewriteReduced(a, b, gone, again);
    assert [again, b][0] != [b, again][0];
  }
}
