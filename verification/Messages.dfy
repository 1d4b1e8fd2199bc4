/** The two message-list reducers of langgraph/graph/message.py. */
module Messages {
  import opened Prelude

  type Id = string

  /** A typed chat message; `isRemove` marks a `RemoveMessage`. */
  datatype Message = Message(id: Option<Id>, isRemove: bool, content: string)

  /** One write handed to the batch reducer: a list of messages, or a single message. */
  datatype Write = Many(messages: seq<Message>) | One(message: Message)

  function Batch(w: Write): seq<Message> {
    if w.Many? then w.messages else [w.message]
  }

  /** All messages of a list of writes, in order. */
  function Flat(writes: seq<Write>): seq<Message> {
    if writes == [] then [] else Flat(writes[..|writes| - 1]) + Batch(writes[|writes| - 1])
  }

  lemma FlatSnoc(xs: seq<Write>, w: Write)
    ensures Flat(xs + [w]) == Flat(xs) + Batch(w)
  {
    assert (xs + [w])[..|xs|] == xs;
  }

  lemma {:induction false} FlatAppend(xs: seq<Write>, ys: seq<Write>)
    ensures Flat(xs + ys) == Flat(xs) + Flat(ys)
  {
    if ys == [] {
      assert xs + ys == xs;
    } else {
      var front, w := ys[..|ys| - 1], ys[|ys| - 1];
      assert ys == front + [w];
      FlatAppend(xs, front);
      FlatSnoc(front, w);
      Assoc(xs, front, [w]);
      FlatSnoc(xs + front, w);
      Assoc(Flat(xs), Flat(front), Batch(w));
    }
  }

  ghost predicate DistinctIds(ms: seq<Message>) {
    forall i, j | 0 <= i < j < |ms| && ms[i].id.Some? :: ms[i].id != ms[j].id
  }

  ghost predicate HasId(ms: seq<Message>, id: Id) {
    exists i | 0 <= i < |ms| :: ms[i].id == Some(id)
  }

  /** The last message with some id. */
  ghost function FindLast(ms: seq<Message>, id: Id): (r: Option<nat>)
    ensures r.Some? <==> HasId(ms, id)
    ensures r.Some? ==> r.value < |ms| && ms[r.value].id == Some(id)
    ensures r.Some? ==> forall j | r.value < j < |ms| :: ms[j].id != Some(id)
  {
    if ms == [] then None
    else if ms[|ms| - 1].id == Some(id) then Some(|ms| - 1)
    else
      var front := ms[..|ms| - 1];
      assert forall i | 0 <= i < |front| :: front[i] == ms[i];
      FindLast(front, id)
  }

  // ---------------------------------------------------------------------
  // What one call of the delta reducer means
  // ---------------------------------------------------------------------

  /** A message together with the id under which later messages of the same call find it, if any. */
  datatype Entry = Entry(key: Option<Id>, msg: Message)

  ghost predicate HasKey(es: seq<Entry>, id: Id) {
    exists i | 0 <= i < |es| :: es[i].key == Some(id)
  }

  /** Of several messages with one id only the last can be found again. */
  ghost predicate Findable(state: seq<Message>, i: nat)
    requires i < |state|
  {
    state[i].id.Some? && forall j | i < j < |state| :: state[j].id != state[i].id
  }

  ghost function Load(state: seq<Message>): (es: seq<Entry>)
    ensures |es| == |state|
  {
    seq(|state|, i requires 0 <= i < |state| =>
      Entry(if Findable(state, i) then state[i].id else None, state[i]))
  }

  ghost function Unload(es: seq<Entry>): (ms: seq<Message>)
    ensures |ms| == |es|
    ensures forall i | 0 <= i < |es| :: ms[i] == es[i].msg
  {
    seq(|es|, i requires 0 <= i < |es| => es[i].msg)
  }

  ghost function Drop(es: seq<Entry>, id: Id): seq<Entry> {
    if es == [] then [] else
      var last := es[|es| - 1];
      Drop(es[..|es| - 1], id) + if last.key == Some(id) then [] else [last]
  }

  ghost function Put(es: seq<Entry>, id: Id, m: Message): seq<Entry> {
    if es == [] then [] else
      var last := es[|es| - 1];
      Put(es[..|es| - 1], id, m) + [if last.key == Some(id) then Entry(last.key, m) else last]
  }

  /** One message: append it, delete by id, replace in place, or append under a new id. */
  ghost function Apply(es: seq<Entry>, m: Message): seq<Entry> {
    if m.id.None? then es + [Entry(None, m)]
    else if m.isRemove then Drop(es, m.id.value)
    else if HasKey(es, m.id.value) then Put(es, m.id.value, m)
    else es + [Entry(m.id, m)]
  }

  ghost function ApplyAll(es: seq<Entry>, ms: seq<Message>): seq<Entry> {
    if ms == [] then es else Apply(ApplyAll(es, ms[..|ms| - 1]), ms[|ms| - 1])
  }

  /** The list one reducer call returns. */
  ghost function Reduce(state: seq<Message>, writes: seq<Write>): seq<Message> {
    Unload(ApplyAll(Load(state), Flat(writes)))
  }

  // ---------------------------------------------------------------------
  // The reducer's loop: an id index and tombstones
  // ---------------------------------------------------------------------

  type Slots = seq<Option<Message>>

  ghost predicate IndexFits(slots: Slots, index: map<Id, nat>) {
    forall id | id in index ::
      index[id] < |slots| && slots[index[id]].Some? && slots[index[id]].value.id == Some(id)
  }

  ghost function EntryAt(slots: Slots, index: map<Id, nat>, i: nat): seq<Entry>
    requires i < |slots|
  {
    if slots[i].None? then [] else
      var m := slots[i].value;
      [Entry(if m.id.Some? && m.id.value in index && index[m.id.value] == i then m.id else None, m)]
  }

  /** The entries held by the first `n` slots. */
  ghost function Entries(slots: Slots, index: map<Id, nat>, n: nat): seq<Entry>
    requires n <= |slots|
  {
    if n == 0 then [] else Entries(slots, index, n - 1) + EntryAt(slots, index, n - 1)
  }

  lemma {:induction false} EntriesAgree(s: Slots, ix: map<Id, nat>, t: Slots, iy: map<Id, nat>, n: nat)
    requires n <= |s| && n <= |t|
    requires forall i | 0 <= i < n :: EntryAt(s, ix, i) == EntryAt(t, iy, i)
    ensures Entries(s, ix, n) == Entries(t, iy, n)
  {
    if n == 0 {
    } else {
      EntriesAgree(s, ix, t, iy, n - 1);
    }
  }

  lemma HasKeyAppend(a: seq<Entry>, b: seq<Entry>, id: Id)
    ensures HasKey(a + b, id) <==> HasKey(a, id) || HasKey(b, id)
  {
    assert forall i | 0 <= i < |a| :: (a + b)[i] == a[i];
    assert forall i | 0 <= i < |b| :: (a + b)[|a| + i] == b[i];
  }

  lemma EntryHasKey(slots: Slots, index: map<Id, nat>, i: nat, id: Id)
    requires i < |slots| && IndexFits(slots, index)
    ensures HasKey(EntryAt(slots, index, i), id) <==> id in index && index[id] == i
  {
    if id in index && index[id] == i {
      assert EntryAt(slots, index, i)[0].key == Some(id);
    }
  }

  lemma {:induction false} EntriesHaveKey(slots: Slots, index: map<Id, nat>, n: nat, id: Id)
    requires n <= |slots| && IndexFits(slots, index)
    ensures HasKey(Entries(slots, index, n), id) <==> id in index && index[id] < n
  {
    if n == 0 {
    } else {
      EntriesHaveKey(slots, index, n - 1, id);
      EntryHasKey(slots, index, n - 1, id);
      HasKeyAppend(Entries(slots, index, n - 1), EntryAt(slots, index, n - 1), id);
    }
  }

  lemma IndexFitsAfterRemove(slots: Slots, index: map<Id, nat>, id: Id)
    requires IndexFits(slots, index) && id in index
    ensures IndexFits(slots[index[id] := None], index - {id})
  {
    forall j | j in index && j != id ensures index[j] != index[id] {
    }
  }

  lemma DropSnoc(es: seq<Entry>, e: Entry, id: Id)
    ensures Drop(es + [e], id) == Drop(es, id) + if e.key == Some(id) then [] else [e]
  {
    assert (es + [e])[..|es|] == es;
  }

  lemma PutSnoc(es: seq<Entry>, e: Entry, id: Id, m: Message)
    ensures Put(es + [e], id, m) == Put(es, id, m) + [if e.key == Some(id) then Entry(e.key, m) else e]
  {
    assert (es + [e])[..|es|] == es;
  }

  ghost function EntryDropped(e: seq<Entry>, id: Id): seq<Entry> {
    if e != [] && e[0].key == Some(id) then [] else e
  }

  ghost function EntryPut(e: seq<Entry>, id: Id, m: Message): seq<Entry> {
    if e != [] && e[0].key == Some(id) then [Entry(Some(id), m)] else e
  }

  lemma EntryAfterRemove(slots: Slots, index: map<Id, nat>, i: nat, id: Id)
    requires i < |slots| && IndexFits(slots, index) && id in index
    ensures var e := EntryAt(slots, index, i);
            EntryAt(slots[index[id] := None], index - {id}, i) == EntryDropped(e, id)
  {
  }

  lemma EntryAfterReplace(slots: Slots, index: map<Id, nat>, i: nat, id: Id, m: Message)
    requires i < |slots| && IndexFits(slots, index) && id in index && m.id == Some(id)
    ensures var e := EntryAt(slots, index, i);
            EntryAt(slots[index[id] := Some(m)], index, i) == EntryPut(e, id, m)
  {
  }

  lemma DropOneMore(front: seq<Entry>, last: seq<Entry>, id: Id)
    requires |last| <= 1
    ensures Drop(front + last, id) == Drop(front, id) + EntryDropped(last, id)
  {
    if last == [] {
      assert front + last == front;
    } else {
      DropSnoc(front, last[0], id);
      assert last == [last[0]];
    }
  }

  lemma PutOneMore(front: seq<Entry>, last: seq<Entry>, id: Id, m: Message)
    requires |last| <= 1
    ensures Put(front + last, id, m) == Put(front, id, m) + EntryPut(last, id, m)
  {
    if last == [] {
      assert front + last == front;
    } else {
      PutSnoc(front, last[0], id, m);
      assert last == [last[0]];
    }
  }

  lemma EntriesNext(s: Slots, ix: map<Id, nat>, n: nat)
    requires 0 < n <= |s|
    ensures Entries(s, ix, n) == Entries(s, ix, n - 1) + EntryAt(s, ix, n - 1)
    ensures |EntryAt(s, ix, n - 1)| <= 1
  {
  }

  lemma {:induction false} DropBoth(es: seq<Entry>, front: seq<Entry>, last: seq<Entry>, id: Id, fs: seq<Entry>)
    requires es == front + last && |last| <= 1 && fs == Drop(front, id) + EntryDropped(last, id)
    ensures fs == Drop(es, id)
  {
    DropOneMore(front, last, id);
  }

  lemma {:induction false} DropEach(s: Slots, ix: map<Id, nat>, t: Slots, iy: map<Id, nat>, n: nat, id: Id)
    requires n <= |s| && n <= |t|
    requires forall i | 0 <= i < n :: EntryAt(t, iy, i) == EntryDropped(EntryAt(s, ix, i), id)
    ensures Entries(t, iy, n) == Drop(Entries(s, ix, n), id)
  {
    if n == 0 {
    } else {
      DropEach(s, ix, t, iy, n - 1, id);
      EntriesNext(s, ix, n);
      EntriesNext(t, iy, n);
      DropBoth(Entries(s, ix, n), Entries(s, ix, n - 1), EntryAt(s, ix, n - 1), id, Entries(t, iy, n));
    }
  }

  lemma {:induction false} PutBoth(es: seq<Entry>, front: seq<Entry>, last: seq<Entry>, id: Id, m: Message, fs: seq<Entry>)
    requires es == front + last && |last| <= 1 && fs == Put(front, id, m) + EntryPut(last, id, m)
    ensures fs == Put(es, id, m)
  {
    PutOneMore(front, last, id, m);
  }

  lemma {:induction false} PutEach(s: Slots, ix: map<Id, nat>, t: Slots, iy: map<Id, nat>, n: nat, id: Id, m: Message)
    requires n <= |s| && n <= |t|
    requires forall i | 0 <= i < n :: EntryAt(t, iy, i) == EntryPut(EntryAt(s, ix, i), id, m)
    ensures Entries(t, iy, n) == Put(Entries(s, ix, n), id, m)
  {
    if n == 0 {
    } else {
      PutEach(s, ix, t, iy, n - 1, id, m);
      EntriesNext(s, ix, n);
      EntriesNext(t, iy, n);
      PutBoth(Entries(s, ix, n), Entries(s, ix, n - 1), EntryAt(s, ix, n - 1), id, m, Entries(t, iy, n));
    }
  }

  /** Tombstoning a slot and forgetting its id deletes exactly that entry. */
  lemma {:induction false} EntriesAfterRemove(slots: Slots, index: map<Id, nat>, n: nat, id: Id)
    requires n <= |slots| && IndexFits(slots, index) && id in index
    ensures Entries(slots[index[id] := None], index - {id}, n) == Drop(Entries(slots, index, n), id)
  {
    var t, iy := slots[index[id] := None], index - {id};
    forall i | 0 <= i < n ensures EntryAt(t, iy, i) == EntryDropped(EntryAt(slots, index, i), id) {
      EntryAfterRemove(slots, index, i, id);
    }
    DropEach(slots, index, t, iy, n, id);
  }

  lemma {:induction false} EntriesAfterReplace(slots: Slots, index: map<Id, nat>, n: nat, id: Id, m: Message)
    requires n <= |slots| && IndexFits(slots, index) && id in index && m.id == Some(id)
    ensures Entries(slots[index[id] := Some(m)], index, n) == Put(Entries(slots, index, n), id, m)
  {
    var t := slots[index[id] := Some(m)];
    forall i | 0 <= i < n ensures EntryAt(t, index, i) == EntryPut(EntryAt(slots, index, i), id, m) {
      EntryAfterReplace(slots, index, i, id, m);
    }
    PutEach(slots, index, t, index, n, id, m);
  }

  lemma IndexFitsAfterReplace(slots: Slots, index: map<Id, nat>, id: Id, m: Message)
    requires IndexFits(slots, index) && id in index && m.id == Some(id)
    ensures IndexFits(slots[index[id] := Some(m)], index)
  {
  }

  lemma EntriesAfterAppend(slots: Slots, index: map<Id, nat>, m: Message)
    requires IndexFits(slots, index)
    requires m.id.Some? ==> m.id.value !in index
    ensures var iy := if m.id.Some? then index[m.id.value := |slots|] else index;
            && IndexFits(slots + [Some(m)], iy)
            && Entries(slots + [Some(m)], iy, |slots| + 1) == Entries(slots, index, |slots|) + [Entry(m.id, m)]
  {
    var iy := if m.id.Some? then index[m.id.value := |slots|] else index;
    EntriesAgree(slots, index, slots + [Some(m)], iy, |slots|);
  }

  lemma {:induction false} EntriesOfState(state: seq<Message>, index: map<Id, nat>, n: nat)
    requires n <= |state|
    requires forall id | id in index :: index[id] < |state| && state[index[id]].id == Some(id)
    requires forall i | 0 <= i < |state| && state[i].id.Some? ::
               state[i].id.value in index && i <= index[state[i].id.value]
    ensures Entries(seq(|state|, i requires 0 <= i < |state| => Some(state[i])), index, n) == Load(state)[..n]
  {
    if n == 0 {
    } else {
      EntriesOfState(state, index, n - 1);
      var m := state[n - 1];
      assert Findable(state, n - 1) <==> m.id.Some? && index[m.id.value] == n - 1;
      assert Load(state)[..n] == Load(state)[..n - 1] + [Load(state)[n - 1]];
    }
  }

  /** `index = {m.id: i for i, m in enumerate(state) if m.id is not None}` */
  method IndexOf(state: seq<Message>) returns (index: map<Id, nat>)
    ensures forall id | id in index :: index[id] < |state| && state[index[id]].id == Some(id)
    ensures forall i | 0 <= i < |state| && state[i].id.Some? ::
              state[i].id.value in index && i <= index[state[i].id.value]
  {
    index := map[];
    for k := 0 to |state|
      invariant forall id | id in index :: index[id] < k && state[index[id]].id == Some(id)
      invariant forall i | 0 <= i < k && state[i].id.Some? ::
                  state[i].id.value in index && i <= index[state[i].id.value]
    {
      if state[k].id.Some? {
        index := index[state[k].id.value := k];
      }
    }
  }

  /** The live messages of a slot list. */
  method Compact(slots: Slots, ghost index: map<Id, nat>) returns (r: seq<Message>)
    ensures r == Unload(EntriesOf(slots, index))
  {
    r := [];
    for i := 0 to |slots|
      invariant r == Unload(Entries(slots, index, i))
    {
      if slots[i].Some? {
        r := r + [slots[i].value];
      }
    }
  }

  /** Only lists flatten; anything else is one message. */
  method Flattened(writes: seq<Write>) returns (msgs: seq<Message>)
    ensures msgs == Flat(writes)
  {
    msgs := [];
    for k := 0 to |writes|
      invariant msgs == Flat(writes[..k])
    {
      assert writes[..k + 1] == writes[..k] + [writes[k]];
      FlatSnoc(writes[..k], writes[k]);
      msgs := msgs + Batch(writes[k]);
    }
    assert writes[..|writes|] == writes;
  }

  /** Slots and index after the loop body met one message. */
  ghost function Absorbed(slots: Slots, index: map<Id, nat>, msg: Message): (Slots, map<Id, nat>)
    requires IndexFits(slots, index)
  {
    if msg.id.None? then (slots + [Some(msg)], index)
    else
      var id := msg.id.value;
      if msg.isRemove then
        if id in index then (slots[index[id] := None], index - {id}) else (slots, index)
      else if id in index then (slots[index[id] := Some(msg)], index)
      else (slots + [Some(msg)], index[id := |slots|])
  }

  ghost function EntriesOf(slots: Slots, index: map<Id, nat>): seq<Entry> {
    Entries(slots, index, |slots|)
  }

  lemma LoopBody(slots: Slots, index: map<Id, nat>, msg: Message)
    requires IndexFits(slots, index)
    ensures var (t, iy) := Absorbed(slots, index, msg);
            IndexFits(t, iy) && EntriesOf(t, iy) == Apply(EntriesOf(slots, index), msg)
  {
    if msg.id.None? {
      EntriesAfterAppend(slots, index, msg);
    } else {
      var id := msg.id.value;
      EntriesHaveKey(slots, index, |slots|, id);
      if id in index {
        if msg.isRemove {
          IndexFitsAfterRemove(slots, index, id);
          EntriesAfterRemove(slots, index, |slots|, id);
        } else {
          IndexFitsAfterReplace(slots, index, id, msg);
          EntriesAfterReplace(slots, index, |slots|, id, msg);
        }
      } else if msg.isRemove {
        DropAbsent(Entries(slots, index, |slots|), id);
      } else {
        EntriesAfterAppend(slots, index, msg);
      }
    }
  }

  lemma ApplyAllNext(es: seq<Entry>, msgs: seq<Message>, k: nat)
    requires k < |msgs|
    ensures ApplyAll(es, msgs[..k + 1]) == Apply(ApplyAll(es, msgs[..k]), msgs[k])
  {
    assert msgs[..k + 1][..k] == msgs[..k];
  }

  lemma StartOfLoop(state: seq<Message>, index: map<Id, nat>)
    requires forall id | id in index :: index[id] < |state| && state[index[id]].id == Some(id)
    requires forall i | 0 <= i < |state| && state[i].id.Some? ::
               state[i].id.value in index && i <= index[state[i].id.value]
    ensures var slots := seq(|state|, i requires 0 <= i < |state| => Some(state[i]));
            IndexFits(slots, index) && EntriesOf(slots, index) == Load(state)
  {
    EntriesOfState(state, index, |state|);
    assert Load(state)[..|state|] == Load(state);
  }

  /** `_messages_delta_reducer`: one pass over all writes. */
  method DeltaReducer(state: seq<Message>, writes: seq<Write>) returns (r: seq<Message>)
    ensures r == Reduce(state, writes)
  {
    var msgs := Flattened(writes);
    var index: map<Id, nat> := IndexOf(state);
    var result: Slots := seq(|state|, i requires 0 <= i < |state| => Some(state[i]));
    StartOfLoop(state, index);
    ghost var start := Load(state);
    for k := 0 to |msgs|
      invariant IndexFits(result, index)
      invariant EntriesOf(result, index) == ApplyAll(start, msgs[..k])
    {
      var msg := msgs[k];
      ApplyAllNext(start, msgs, k);
      LoopBody(result, index, msg);
      ghost var next := Absorbed(result, index, msg);
      if msg.id.None? {
        result := result + [Some(msg)];
      } else if msg.isRemove {
        if msg.id.value in index {
          result := result[index[msg.id.value] := None];
          index := index - {msg.id.value};
        }
      } else if msg.id.value in index {
        result := result[index[msg.id.value] := Some(msg)];
      } else {
        index := index[msg.id.value := |result|];
        result := result + [Some(msg)];
      }
      assert (result, index) == next;
    }
    assert msgs[..|msgs|] == msgs;
    r := Compact(result, index);
  }

  // ---------------------------------------------------------------------
  // Batching invariance
  // ---------------------------------------------------------------------

  lemma {:induction false} DropAbsent(es: seq<Entry>, id: Id)
    requires !HasKey(es, id)
    ensures Drop(es, id) == es
  {
    if es == [] {
    } else {
      var front := es[..|es| - 1];
      assert forall i | 0 <= i < |front| :: front[i] == es[i];
      DropAbsent(front, id);
      assert es == front + [es[|es| - 1]];
    }
  }

  /** What is left after a deletion: other keys only, in their old order. */
  lemma {:induction false} DropKeeps(es: seq<Entry>, id: Id)
    ensures !HasKey(Drop(es, id), id)
    ensures |Drop(es, id)| <= |es|
    ensures HasKey(es, id) ==> |Drop(es, id)| < |es|
    ensures forall e :: e in Drop(es, id) <==> e in es && e.key != Some(id)
  {
    if es == [] {
    } else {
      DropKeeps(es[..|es| - 1], id);
      assert es == es[..|es| - 1] + [es[|es| - 1]];
    }
  }

  lemma {:induction false} PutShape(es: seq<Entry>, id: Id, m: Message)
    ensures |Put(es, id, m)| == |es|
    ensures forall i | 0 <= i < |es| ::
              Put(es, id, m)[i] == if es[i].key == Some(id) then Entry(es[i].key, m) else es[i]
  {
    if es == [] {
    } else {
      PutShape(es[..|es| - 1], id, m);
    }
  }

  lemma {:induction false} ApplyAllAppend(es: seq<Entry>, xs: seq<Message>, ys: seq<Message>)
    ensures ApplyAll(es, xs + ys) == ApplyAll(ApplyAll(es, xs), ys)
  {
    if ys == [] {
      assert xs + ys == xs;
    } else {
      assert (xs + ys)[..|xs + ys| - 1] == xs + ys[..|ys| - 1];
      assert (xs + ys)[|xs + ys| - 1] == ys[|ys| - 1];
      ApplyAllAppend(es, xs, ys[..|ys| - 1]);
    }
  }

  /** Every entry is found under its own id and no id occurs twice. */
  ghost predicate WellKeyed(es: seq<Entry>) {
    && (forall i | 0 <= i < |es| :: es[i].key == es[i].msg.id)
    && (forall i, j | 0 <= i < j < |es| && es[i].key.Some? :: es[i].key != es[j].key)
  }

  lemma LoadWellKeyed(state: seq<Message>)
    requires DistinctIds(state)
    ensures WellKeyed(Load(state))
  {
  }

  /** Reloading a well-keyed list rebuilds the very index the call had. */
  lemma ReloadIsIdentity(es: seq<Entry>)
    requires WellKeyed(es)
    ensures DistinctIds(Unload(es)) && Load(Unload(es)) == es
  {
    var ms := Unload(es);
    assert forall i | 0 <= i < |es| :: ms[i].id == es[i].key;
    forall i | 0 <= i < |es| ensures Load(ms)[i] == es[i] {
      assert Findable(ms, i) <==> es[i].key.Some?;
    }
  }

  lemma WellKeyedSnoc(es: seq<Entry>, e: Entry)
    ensures WellKeyed(es + [e]) <==>
              WellKeyed(es) && e.key == e.msg.id && (e.key.Some? ==> !HasKey(es, e.key.value))
  {
    var fs := es + [e];
    assert forall i | 0 <= i < |es| :: fs[i] == es[i];
    assert fs[|es|] == e;
    if e.key.Some? && HasKey(es, e.key.value) {
      var i :| 0 <= i < |es| && es[i].key == Some(e.key.value);
      assert fs[i].key == fs[|es|].key;
    }
  }

  lemma {:induction false} DropHasKey(es: seq<Entry>, id: Id, other: Id)
    ensures HasKey(Drop(es, id), other) <==> HasKey(es, other) && other != id
  {
    if es == [] {
    } else {
      var front, last := es[..|es| - 1], es[|es| - 1];
      assert es == front + [last];
      DropHasKey(front, id, other);
      HasKeyAppend(front, [last], other);
      HasKeyAppend(Drop(front, id), [last], other);
      assert [last][0] == last;
      assert Drop(front, id) + [] == Drop(front, id);
    }
  }

  lemma {:induction false} DropWellKeyed(es: seq<Entry>, id: Id)
    requires WellKeyed(es)
    ensures WellKeyed(Drop(es, id))
  {
    if es == [] {
    } else {
      var front, last := es[..|es| - 1], es[|es| - 1];
      assert es == front + [last];
      WellKeyedSnoc(front, last);
      DropWellKeyed(front, id);
      WellKeyedSnoc(Drop(front, id), last);
      if last.key.Some? {
        DropHasKey(front, id, last.key.value);
      }
      assert Drop(front, id) + [] == Drop(front, id);
    }
  }

  lemma ApplyWellKeyed(es: seq<Entry>, m: Message)
    requires WellKeyed(es)
    ensures WellKeyed(Apply(es, m))
  {
    if m.id.Some? {
      DropWellKeyed(es, m.id.value);
      PutShape(es, m.id.value, m);
    }
  }

  lemma {:induction false} ApplyAllWellKeyed(es: seq<Entry>, ms: seq<Message>)
    requires WellKeyed(es)
    ensures WellKeyed(ApplyAll(es, ms))
  {
    if ms == [] {
    } else {
      ApplyAllWellKeyed(es, ms[..|ms| - 1]);
      ApplyWellKeyed(ApplyAll(es, ms[..|ms| - 1]), ms[|ms| - 1]);
    }
  }

  /** The reducer keeps ids distinct. */
  lemma ReduceDistinct(state: seq<Message>, writes: seq<Write>)
    requires DistinctIds(state)
    ensures DistinctIds(Reduce(state, writes))
  {
    LoadWellKeyed(state);
    ApplyAllWellKeyed(Load(state), Flat(writes));
    ReloadIsIdentity(ApplyAll(Load(state), Flat(writes)));
  }

  /** Two calls, with the tombstones compacted and the index rebuilt in between, equal one call. */
  lemma BatchingInvariant(state: seq<Message>, xs: seq<Write>, ys: seq<Write>)
    requires DistinctIds(state)
    ensures Reduce(Reduce(state, xs), ys) == Reduce(state, xs + ys)
  {
    LoadWellKeyed(state);
    ApplyAllWellKeyed(Load(state), Flat(xs));
    ReloadIsIdentity(ApplyAll(Load(state), Flat(xs)));
    FlatAppend(xs, ys);
    ApplyAllAppend(Load(state), Flat(xs), Flat(ys));
  }

  lemma InPut(es: seq<Entry>, id: Id, m: Message, e: Entry)
    requires WellKeyed(es) && HasKey(es, id) && m.id == Some(id)
    ensures e in Put(es, id, m) <==> e == Entry(Some(id), m) || (e in es && e.key != Some(id))
  {
    PutShape(es, id, m);
    var i :| 0 <= i < |es| && es[i].key == Some(id);
    assert Put(es, id, m)[i] == Entry(Some(id), m);
    if e in es && e.key != Some(id) {
      var j :| 0 <= j < |es| && es[j] == e;
      assert Put(es, id, m)[j] == e;
    }
  }

  lemma EntryIdIsKey(es: seq<Entry>, x: Message)
    requires Entry(x.id, x) in es && x.id.Some?
    ensures HasKey(es, x.id.value)
  {
    var j :| 0 <= j < |es| && es[j] == Entry(x.id, x);
    assert es[j].key == x.id;
  }

  /** One message: what is in the list afterwards. */
  lemma InApply(es: seq<Entry>, x: Message, m: Message)
    requires WellKeyed(es)
    ensures Entry(m.id, m) in Apply(es, x) <==>
            if x.id.None? then m == x || Entry(m.id, m) in es
            else (m == x && !x.isRemove) || (Entry(m.id, m) in es && m.id != x.id)
  {
    if x.id.Some? {
      var id := x.id.value;
      DropKeeps(es, id);
      if HasKey(es, id) {
        InPut(es, id, x, Entry(m.id, m));
      } else if Entry(m.id, m) in es && m.id.Some? {
        EntryIdIsKey(es, m);
      }
    }
  }

  lemma InUnload(es: seq<Entry>, m: Message)
    requires WellKeyed(es)
    ensures m in Unload(es) <==> Entry(m.id, m) in es
  {
    if m in Unload(es) {
      var i :| 0 <= i < |es| && es[i].msg == m;
      assert es[i] == Entry(m.id, m);
    }
    if Entry(m.id, m) in es {
      var i :| 0 <= i < |es| && es[i] == Entry(m.id, m);
      assert Unload(es)[i] == m;
    }
  }

  /** What decides about a message: the last write of its id, or else whether the state held it. */
  ghost predicate Survives(state: seq<Message>, ms: seq<Message>, m: Message) {
    if m.id.None? then m in state || m in ms
    else
      match FindLast(ms, m.id.value)
      case Some(k) => m == ms[k] && !m.isRemove
      case None => m in state
  }

  lemma {:induction false} ContentsOfApplyAll(state: seq<Message>, ms: seq<Message>, m: Message)
    requires DistinctIds(state)
    ensures Entry(m.id, m) in ApplyAll(Load(state), ms) <==> Survives(state, ms, m)
  {
    LoadWellKeyed(state);
    if ms == [] {
      InUnload(Load(state), m);
      assert Unload(Load(state)) == state;
    } else {
      var front, x := ms[..|ms| - 1], ms[|ms| - 1];
      assert ms == front + [x];
      ContentsOfApplyAll(state, front, m);
      ApplyAllWellKeyed(Load(state), front);
      InApply(ApplyAll(Load(state), front), x, m);
    }
  }

  /**
   * The contents of the reduced list: of each id the last message written, unless that removed it, and
   * the old message where nothing was written; messages without an id all stay.
   */
  lemma LastWriteWins(state: seq<Message>, writes: seq<Write>, m: Message)
    requires DistinctIds(state)
    ensures m in Reduce(state, writes) <==> Survives(state, Flat(writes), m)
  {
    LoadWellKeyed(state);
    ApplyAllWellKeyed(Load(state), Flat(writes));
    ContentsOfApplyAll(state, Flat(writes), m);
    InUnload(ApplyAll(Load(state), Flat(writes)), m);
  }

  // ---------------------------------------------------------------------
  // The order of the result
  // ---------------------------------------------------------------------

  lemma FindLastSnoc(ms: seq<Message>, m: Message, id: Id)
    ensures FindLast(ms + [m], id) == if m.id == Some(id) then Some(|ms|) else FindLast(ms, id)
  {
    assert (ms + [m])[..|ms|] == ms;
  }

  ghost predicate Removes(m: Message, id: Option<Id>) {
    m.isRemove && m.id == id
  }

  /** The list holds a message with this id after these messages. */
  ghost predicate Live(state: seq<Message>, ms: seq<Message>, id: Id) {
    match FindLast(ms, id)
    case Some(k) => !ms[k].isRemove
    case None => HasId(state, id)
  }

  /** Position `i` of the state followed by the messages, as far as it shows in the result. */
  ghost function Slot(state: seq<Message>, ms: seq<Message>, i: nat): Message
    requires i < |state| + |ms|
  {
    if i < |state| then state[i] else ms[i - |state|]
  }

  /**
   * The result has a place for position `i`: a message without an id, a state message never removed, or
   * a write of an id that was not live, and never removed later.
   */
  ghost predicate HasPlace(state: seq<Message>, ms: seq<Message>, i: nat)
    requires i < |state| + |ms|
  {
    var m := Slot(state, ms, i);
    || m.id.None?
    || (i < |state| && forall j | 0 <= j < |ms| :: !Removes(ms[j], m.id))
    || (i >= |state| && !m.isRemove && !Live(state, ms[..i - |state|], m.id.value)
        && forall j | i - |state| < j < |ms| :: !Removes(ms[j], m.id))
  }

  /** What stands there: the last write of the id. */
  ghost function Latest(state: seq<Message>, ms: seq<Message>, i: nat): Message
    requires i < |state| + |ms|
  {
    var m := Slot(state, ms, i);
    if m.id.Some? && FindLast(ms, m.id.value).Some? then ms[FindLast(ms, m.id.value).value] else m
  }

  ghost function PlaceAt(state: seq<Message>, ms: seq<Message>, i: nat): seq<Entry>
    requires i < |state| + |ms|
  {
    if HasPlace(state, ms, i) then [Entry(Latest(state, ms, i).id, Latest(state, ms, i))] else []
  }

  /** The places of the first `n` positions, in order. */
  ghost function Places(state: seq<Message>, ms: seq<Message>, n: nat): seq<Entry>
    requires n <= |state| + |ms|
  {
    if n == 0 then [] else Places(state, ms, n - 1) + PlaceAt(state, ms, n - 1)
  }

  /** What one more message does to the places there are: nothing, a deletion or a replacement. */
  ghost function Changed(es: seq<Entry>, x: Message): seq<Entry> {
    if x.id.None? then es else if x.isRemove then Drop(es, x.id.value) else Put(es, x.id.value, x)
  }

  ghost function ChangedOne(e: seq<Entry>, x: Message): seq<Entry> {
    if x.id.None? then e else if x.isRemove then EntryDropped(e, x.id.value) else EntryPut(e, x.id.value, x)
  }

  lemma {:induction false} ChangedOneMore(es: seq<Entry>, front: seq<Entry>, last: seq<Entry>, x: Message, fs: seq<Entry>)
    requires es == front + last && |last| <= 1 && fs == Changed(front, x) + ChangedOne(last, x)
    ensures fs == Changed(es, x)
  {
    if x.id.Some? {
      if x.isRemove {
        DropBoth(es, front, last, x.id.value, fs);
      } else {
        PutBoth(es, front, last, x.id.value, x, fs);
      }
    }
  }

  /** How one more message changes an earlier place. */
  lemma PlaceAfter(state: seq<Message>, ms: seq<Message>, x: Message, i: nat)
    requires i < |state| + |ms|
    ensures PlaceAt(state, ms + [x], i) == ChangedOne(PlaceAt(state, ms, i), x)
  {
    var all, m := ms + [x], Slot(state, ms, i);
    assert Slot(state, all, i) == m;
    assert all[|ms|] == x && forall j | 0 <= j < |ms| :: all[j] == ms[j];
    if i >= |state| {
      assert all[..i - |state|] == ms[..i - |state|];
    }
    if m.id.Some? {
      FindLastSnoc(ms, x, m.id.value);
      assert Latest(state, ms, i).id == m.id;
    }
  }

  lemma {:induction false} PlacesNext(state: seq<Message>, ms: seq<Message>, n: nat)
    requires n < |state| + |ms|
    ensures Places(state, ms, n + 1) == Places(state, ms, n) + PlaceAt(state, ms, n)
    ensures |PlaceAt(state, ms, n)| <= 1
  {
  }

  lemma {:induction false} PlacesAfter(state: seq<Message>, ms: seq<Message>, x: Message, n: nat)
    requires n <= |state| + |ms|
    ensures Places(state, ms + [x], n) == Changed(Places(state, ms, n), x)
  {
    if n == 0 {
    } else {
      PlacesAfter(state, ms, x, n - 1);
      PlaceAfter(state, ms, x, n - 1);
      PlacesNext(state, ms, n - 1);
      PlacesNext(state, ms + [x], n - 1);
      ChangedOneMore(Places(state, ms, n), Places(state, ms, n - 1), PlaceAt(state, ms, n - 1), x, Places(state, ms + [x], n));
    }
  }

  lemma {:induction false} PlacesOfState(state: seq<Message>, n: nat)
    requires DistinctIds(state) && n <= |state|
    ensures Places(state, [], n) == Load(state)[..n]
  {
    if n == 0 {
    } else {
      PlacesOfState(state, n - 1);
      assert Findable(state, n - 1) <==> state[n - 1].id.Some?;
      assert Load(state)[..n] == Load(state)[..n - 1] + [Load(state)[n - 1]];
    }
  }

  lemma LiveIsKey(state: seq<Message>, ms: seq<Message>, id: Id)
    requires DistinctIds(state)
    ensures HasKey(ApplyAll(Load(state), ms), id) <==> Live(state, ms, id)
  {
    var es := ApplyAll(Load(state), ms);
    LoadWellKeyed(state);
    ApplyAllWellKeyed(Load(state), ms);
    if HasKey(es, id) {
      var i :| 0 <= i < |es| && es[i].key == Some(id);
      ContentsOfApplyAll(state, ms, es[i].msg);
      assert es[i] == Entry(es[i].msg.id, es[i].msg);
    }
    if Live(state, ms, id) {
      var m: Message;
      if FindLast(ms, id).Some? {
        m := ms[FindLast(ms, id).value];
      } else {
        var j :| 0 <= j < |state| && state[j].id == Some(id);
        m := state[j];
      }
      ContentsOfApplyAll(state, ms, m);
      EntryIdIsKey(es, m);
    }
  }

  lemma {:induction false} PutAbsent(es: seq<Entry>, id: Id, m: Message)
    requires !HasKey(es, id)
    ensures Put(es, id, m) == es
  {
    PutShape(es, id, m);
  }

  lemma LastPlace(state: seq<Message>, ms: seq<Message>, x: Message)
    ensures PlaceAt(state, ms + [x], |state| + |ms|) ==
            if x.id.None? || (!x.isRemove && !Live(state, ms, x.id.value)) then [Entry(x.id, x)] else []
  {
    assert Slot(state, ms + [x], |state| + |ms|) == x && (ms + [x])[..|ms|] == ms;
    if x.id.Some? {
      FindLastSnoc(ms, x, x.id.value);
    }
  }

  lemma AppendNothing<T>(s: seq<T>)
    ensures s + [] == s
  {
  }

  lemma {:induction false} PlacesStep(state: seq<Message>, ms: seq<Message>, x: Message, es: seq<Entry>)
    requires es == Places(state, ms, |state| + |ms|)
    requires x.id.Some? ==> (HasKey(es, x.id.value) <==> Live(state, ms, x.id.value))
    ensures Apply(es, x) == Places(state, ms + [x], |state| + |ms| + 1)
  {
    PlacesAfter(state, ms, x, |state| + |ms|);
    LastPlace(state, ms, x);
    PlacesNext(state, ms + [x], |state| + |ms|);
    if x.id.Some? {
      var id := x.id.value;
      if x.isRemove {
        AppendNothing(Drop(es, id));
      } else if HasKey(es, id) {
        AppendNothing(Put(es, id, x));
      } else {
        PutAbsent(es, id, x);
      }
    }
  }

  lemma PlacesOfNothing(state: seq<Message>)
    requires DistinctIds(state)
    ensures Places(state, [], |state|) == Load(state)
  {
    PlacesOfState(state, |state|);
    assert Load(state)[..|state|] == Load(state);
  }

  lemma ApplyAllSnoc(es: seq<Entry>, ms: seq<Message>, x: Message)
    ensures ApplyAll(es, ms + [x]) == Apply(ApplyAll(es, ms), x)
  {
    assert (ms + [x])[..|ms|] == ms;
  }

  lemma {:induction false} PlacesOneMore(state: seq<Message>, ms: seq<Message>, x: Message, es: seq<Entry>)
    requires DistinctIds(state) && es == ApplyAll(Load(state), ms) == Places(state, ms, |state| + |ms|)
    ensures Apply(es, x) == Places(state, ms + [x], |state| + |ms| + 1)
  {
    if x.id.Some? {
      LiveIsKey(state, ms, x.id.value);
    }
    PlacesStep(state, ms, x, es);
  }

  lemma {:induction false} PlacesOfAll(state: seq<Message>, ms: seq<Message>)
    requires DistinctIds(state)
    ensures ApplyAll(Load(state), ms) == Places(state, ms, |state| + |ms|)
  {
    if ms == [] {
      PlacesOfNothing(state);
    } else {
      var front, x := ms[..|ms| - 1], ms[|ms| - 1];
      PlacesOfAll(state, front);
      PlacesOneMore(state, front, x, ApplyAll(Load(state), front));
      ApplyAllSnoc(Load(state), front, x);
      assert ms == front + [x];
    }
  }

  /**
   * The whole result, order and number of copies included: one place for each message without an id and
   * for each id that is live at the end, in the order in which they first came in for good, and there the
   * last write of the id.
   */
  lemma ReducedPlaces(state: seq<Message>, writes: seq<Write>)
    requires DistinctIds(state)
    ensures Reduce(state, writes) == Unload(Places(state, Flat(writes), |state| + |Flat(writes)|))
  {
    PlacesOfAll(state, Flat(writes));
  }

  /** A message without an id is appended, whatever the state. */
  lemma AnonymousIsAppended(state: seq<Message>, m: Message)
    requires m.id.None?
    ensures Reduce(state, [One(m)]) == state + [m]
  {
    FlatSnoc([], One(m));
    assert [] + [One(m)] == [One(m)] && Flat([]) + [m] == [m];
    assert [m][..1] == [m] && [m][..0] == [];
    ApplyAllNext(Load(state), [m], 0);
    assert Unload(Load(state) + [Entry(None, m)]) == state + [m];
  }

  lemma ReduceOneWrite(state: seq<Message>, m: Message)
    ensures Reduce(state, [One(m)]) == Unload(Apply(Load(state), m))
  {
    assert Flat([One(m)]) == Flat([]) + [m] == [m];
    ApplyAllSnoc(Load(state), [], m);
    assert [] + [m] == [m];
  }

  /** So is a write under an id that the state does not hold. */
  lemma NewIsAppended(state: seq<Message>, m: Message)
    requires DistinctIds(state + [m]) && (m.id.Some? ==> !m.isRemove)
    ensures Reduce(state, [One(m)]) == state + [m]
  {
    ReduceOneWrite(state, m);
    forall i | 0 <= i < |state| && m.id.Some? ensures Load(state)[i].key != m.id {
      assert (state + [m])[i] == state[i] && (state + [m])[|state|] == m;
    }
    assert Unload(Load(state) + [Entry(m.id, m)]) == state + [m];
  }

  lemma TwiceThere(ms: seq<Message>, i: nat, j: nat)
    requires i < j < |ms| && ms[i] == ms[j]
    ensures multiset(ms)[ms[i]] >= 2
  {
    assert ms == ms[..j] + [ms[j]] + ms[j + 1..];
    assert ms[..j][i] in ms[..j];
  }

  lemma TwoPlaces(ms: seq<Message>, m: Message) returns (i: nat, j: nat)
    requires multiset(ms)[m] >= 2
    ensures i < j < |ms| && ms[i] == ms[j] == m && ms[i].id == ms[j].id
  {
    var p :| 0 <= p < |ms| && ms[p] == m;
    assert ms == ms[..p] + [m] + ms[p + 1..];
    assert multiset(ms) == multiset(ms[..p]) + multiset{m} + multiset(ms[p + 1..]);
    if m in ms[..p] {
      i, j :| 0 <= i < p && ms[..p][i] == m && j == p;
    } else {
      assert m in multiset(ms[p + 1..]);
      var q :| 0 <= q < |ms[p + 1..]| && ms[p + 1..][q] == m;
      i, j := p, p + 1 + q;
    }
  }

  lemma OnePlace(ms: seq<Message>, m: Message)
    requires DistinctIds(ms) && m.id.Some?
    ensures multiset(ms)[m] <= 1
  {
    if multiset(ms)[m] >= 2 {
      var i, j := TwoPlaces(ms, m);
    }
  }

  lemma SameIdSame(ms: seq<Message>, m: Message, n: Message)
    requires DistinctIds(ms) && m in ms && n in ms && m.id.Some?
    ensures m.id == n.id ==> m == n
  {
    var i :| 0 <= i < |ms| && ms[i] == m;
    var j :| 0 <= j < |ms| && ms[j] == n;
    assert m.id == n.id ==> i == j;
  }

  /** Ids that are distinct in a list are distinct among any of its messages, in any order. */
  lemma DistinctAmong(a: seq<Message>, b: seq<Message>)
    requires DistinctIds(b) && multiset(a) <= multiset(b)
    ensures DistinctIds(a)
  {
    forall i, j | 0 <= i < j < |a| && a[i].id.Some? ensures a[i].id != a[j].id {
      assert a[i] in multiset(b) && a[j] in multiset(b);
      OnePlace(b, a[i]);
      if a[i] == a[j] {
        TwiceThere(a, i, j);
      } else {
        SameIdSame(b, a[i], a[j]);
      }
    }
  }

  ghost predicate BatchesFreely(state: seq<Message>) {
    forall xs, ys :: Reduce(Reduce(state, xs), ys) == Reduce(state, xs + ys)
  }

  lemma ReduceOneRemoval(state: seq<Message>, id: Id)
    ensures Reduce(state, [One(Message(Some(id), true, ""))]) == Unload(Drop(Load(state), id))
  {
    var r := Message(Some(id), true, "");
    assert Flat([One(r)]) == Flat([]) + [r] == [r];
    assert ApplyAll(Load(state), [r]) == Apply(ApplyAll(Load(state), []), r);
  }

  lemma LoadHasKey(state: seq<Message>, id: Id)
    requires HasId(state, id)
    ensures HasKey(Load(state), id)
  {
    var i :| 0 <= i < |state| && state[i].id == Some(id);
    LastOccurrence(state, id, i);
  }

  lemma LastOccurrence(state: seq<Message>, id: Id, i: nat)
    requires i < |state| && state[i].id == Some(id)
    ensures HasKey(Load(state), id)
    decreases |state| - i
  {
    if Findable(state, i) {
      assert Load(state)[i].key == Some(id);
    } else {
      var j :| i < j < |state| && state[j].id == state[i].id;
      LastOccurrence(state, id, j);
    }
  }

  /** In one call, a second removal of the same id finds nothing. */
  lemma RemovalTwiceInOneCall(state: seq<Message>, id: Id)
    ensures var xs := [One(Message(Some(id), true, ""))]; Reduce(state, xs + xs) == Reduce(state, xs)
  {
    var r := Message(Some(id), true, "");
    var xs, es := [One(r)], Load(state);
    FlatAppend(xs, xs);
    assert Flat(xs) == Flat([]) + [r] == [r];
    ApplyAllAppend(es, [r], [r]);
    assert ApplyAll(es, [r]) == Apply(ApplyAll(es, []), r) == Drop(es, id);
    assert ApplyAll(Drop(es, id), [r]) == Apply(ApplyAll(Drop(es, id), []), r) == Drop(Drop(es, id), id);
    DropKeeps(es, id);
    DropAbsent(Drop(es, id), id);
  }

  lemma RemovalShrinks(state: seq<Message>, id: Id)
    requires HasId(state, id)
    ensures |Reduce(state, [One(Message(Some(id), true, ""))])| < |state|
  {
    ReduceOneRemoval(state, id);
    LoadHasKey(state, id);
    DropKeeps(Load(state), id);
  }

  lemma RemovalLeavesEarlierCopy(state: seq<Message>, i: nat, j: nat)
    requires i < j < |state| && state[i].id.Some? && state[i].id == state[j].id
    ensures HasId(Reduce(state, [One(Message(state[i].id, true, ""))]), state[i].id.value)
  {
    var id := state[i].id.value;
    var es := Load(state);
    ReduceOneRemoval(state, id);
    DropKeeps(es, id);
    assert !Findable(state, i);
    assert es[i].key == None && es[i] in Drop(es, id);
    var k :| 0 <= k < |Drop(es, id)| && Drop(es, id)[k] == es[i];
    assert Unload(Drop(es, id))[k].id == Some(id);
  }

  /** A repeated id breaks the law: removing it twice deletes one copy in one call and two copies in two. */
  lemma RepeatedIdBreaksBatching(state: seq<Message>, i: nat, j: nat)
    requires i < j < |state| && state[i].id.Some? && state[i].id == state[j].id
    ensures !BatchesFreely(state)
  {
    var id := state[i].id.value;
    var xs := [One(Message(Some(id), true, ""))];
    RemovalTwiceInOneCall(state, id);
    RemovalLeavesEarlierCopy(state, i, j);
    RemovalShrinks(Reduce(state, xs), id);
    assert Reduce(Reduce(state, xs), xs) != Reduce(state, xs + xs);
  }

  /** The reducer may be batched freely from a state exactly when no non-null id occurs twice in it. */
  lemma BatchingIffDistinct(state: seq<Message>)
    ensures BatchesFreely(state) <==> DistinctIds(state)
  {
    if DistinctIds(state) {
      forall xs, ys ensures Reduce(Reduce(state, xs), ys) == Reduce(state, xs + ys) {
        BatchingInvariant(state, xs, ys);
      }
    } else {
      var i, j :| 0 <= i < j < |state| && state[i].id.Some? && state[i].id == state[j].id;
      RepeatedIdBreaksBatching(state, i, j);
    }
  }
}
