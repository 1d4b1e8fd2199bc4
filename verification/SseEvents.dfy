/** `SSEDecoder` of langgraph_sdk/sse.py: folding lines into server-sent events. */
module SseEvents {
  import opened Prelude
  import opened SseLines

  const COLON: byte := 58
  const SPACE: byte := 32
  const NUL: byte := 0
  const EVENT: Bytes := [101, 118, 101, 110, 116]
  const DATA: Bytes := [100, 97, 116, 97]
  const ID: Bytes := [105, 100]
  const RETRY: Bytes := [114, 101, 116, 114, 121]

  /** One decoded event; `data` is the raw text that is then parsed as JSON, `id` the last id seen. */
  datatype StreamPart = StreamPart(event: Bytes, data: Option<Bytes>, id: Option<Bytes>)

  datatype State = State(event: Bytes, data: Bytes, lastId: Bytes, retry: Option<int>)

  const FRESH := State([], [], [], None)

  function NonEmpty(s: Bytes): Option<Bytes> {
    if s == [] then None else Some(s)
  }

  /** The bytes before the first colon. */
  function NameLength(line: Bytes): (n: nat)
    ensures n <= |line|
    ensures forall i | 0 <= i < n :: line[i] != COLON
    ensures n < |line| ==> line[n] == COLON
  {
    if line == [] || line[0] == COLON then 0 else 1 + NameLength(line[1..])
  }

  function FieldName(line: Bytes): Bytes {
    line[..NameLength(line)]
  }

  /** The bytes after the first colon, less one leading space. */
  function FieldValue(line: Bytes): Bytes {
    var n := NameLength(line);
    var v := if n < |line| then line[n + 1..] else [];
    if v != [] && v[0] == SPACE then v[1..] else v
  }

  /** What one line does to the state, and the event it completes. `parse` is `int(...)`, `None` where it raises. */
  function Feed(s: State, line: Bytes, parse: Bytes -> Option<int>): (State, Option<StreamPart>) {
    if line == [] then
      if s == FRESH then (s, None)
      else (State([], [], s.lastId, None), Some(StreamPart(s.event, NonEmpty(s.data), NonEmpty(s.lastId))))
    else
      var name, value := FieldName(line), FieldValue(line);
      if line[0] == COLON then (s, None)
      else if name == EVENT then (s.(event := value), None)
      else if name == DATA then (s.(data := s.data + value), None)
      else if name == ID then (if NUL in value then s else s.(lastId := value), None)
      else if name == RETRY && parse(value).Some? then (s.(retry := parse(value)), None)
      else (s, None)
  }

  /** The events a sequence of lines completes. */
  function Parts(s: State, lines: seq<Bytes>, parse: Bytes -> Option<int>): seq<StreamPart>
    decreases |lines|
  {
    if lines == [] then []
    else
      var (t, part) := Feed(s, lines[0], parse);
      (if part.Some? then [part.value] else []) + Parts(t, lines[1..], parse)
  }

  function After(s: State, lines: seq<Bytes>, parse: Bytes -> Option<int>): State
    decreases |lines|
  {
    if lines == [] then s else After(Feed(s, lines[0], parse).0, lines[1..], parse)
  }

  lemma {:induction false} PartsAppend(s: State, a: seq<Bytes>, b: seq<Bytes>, parse: Bytes -> Option<int>)
    ensures Parts(s, a + b, parse) == Parts(s, a, parse) + Parts(After(s, a, parse), b, parse)
    ensures After(s, a + b, parse) == After(After(s, a, parse), b, parse)
    decreases |a|
  {
    if a == [] {
      assert a + b == b;
    } else {
      assert (a + b)[1..] == a[1..] + b;
      PartsAppend(Feed(s, a[0], parse).0, a[1..], b, parse);
    }
  }

  /** A comment, or a field the decoder does not know. */
  predicate Ignorable(line: Bytes) {
    line != [] && (line[0] == COLON || FieldName(line) !in {EVENT, DATA, ID, RETRY})
  }

  /** A line that sets a field of this name. */
  predicate Sets(line: Bytes, name: Bytes) {
    line != [] && line[0] != COLON && FieldName(line) == name
  }

  /** Comments and unknown fields may stand anywhere in a stream without changing its events. */
  lemma IgnorableInvisible(s: State, a: seq<Bytes>, line: Bytes, b: seq<Bytes>, parse: Bytes -> Option<int>)
    requires Ignorable(line)
    ensures Parts(s, a + [line] + b, parse) == Parts(s, a + b, parse)
    ensures After(s, a + [line] + b, parse) == After(s, a + b, parse)
  {
    Assoc(a, [line], b);
    PartsAppend(s, a, [line] + b, parse);
    PartsAppend(s, a, b, parse);
    assert ([line] + b)[1..] == b;
  }

  class SSEDecoder {
    const parse: Bytes -> Option<int>
    var event: Bytes
    var data: Bytes
    var lastEventId: Bytes
    var retry: Option<int>

    constructor (parse: Bytes -> Option<int>)
      ensures this.parse == parse && Current() == FRESH
    {
      this.parse := parse;
      event, data, lastEventId, retry := [], [], [], None;
    }

    ghost function Current(): State
      reads this
    {
      State(event, data, lastEventId, retry)
    }

    method Decode(line: Bytes) returns (part: Option<StreamPart>)
      modifies this
      ensures (Current(), part) == Feed(old(Current()), line, parse)
    {
      if line == [] {
        if event == [] && data == [] && lastEventId == [] && retry == None {
          return None;
        }
        part := Some(StreamPart(event, if data != [] then Some(data) else None,
                                if lastEventId != [] then Some(lastEventId) else None));
        event, data, retry := [], [], None;
        return;
      }
      if line[0] == COLON {
        return None;
      }
      var name, value := FieldName(line), FieldValue(line);
      if name == EVENT {
        event := value;
      } else if name == DATA {
        data := data + value;
      } else if name == ID {
        if NUL !in value {
          lastEventId := value;
        }
      } else if name == RETRY {
        if parse(value).Some? {
          retry := parse(value);
        }
      }
      return None;
    }
  }

  /** Line-decodes and event-decodes a byte stream that arrives in chunks. */
  method DecodeStream(chunks: seq<Bytes>, parse: Bytes -> Option<int>) returns (parts: seq<StreamPart>)
    ensures parts == Parts(FRESH, Lines(Flatten(chunks)), parse)
  {
    var lines := IterLines(chunks);
    var decoder := new SSEDecoder(parse);
    parts := [];
    for i := 0 to |lines|
      invariant decoder.parse == parse
      invariant decoder.Current() == After(FRESH, lines[..i], parse)
      invariant parts == Parts(FRESH, lines[..i], parse)
    {
      assert lines[..i + 1] == lines[..i] + [lines[i]];
      PartsAppend(FRESH, lines[..i], [lines[i]], parse);
      ghost var before := decoder.Current();
      assert Parts(Feed(before, lines[i], parse).0, [], parse) == [];
      var part := decoder.Decode(lines[i]);
      if part.Some? {
        parts := parts + [part.value];
      }
    }
    assert lines[..|lines|] == lines;
  }

  // ---------------------------------------------------------------------
  // Printing events
  // ---------------------------------------------------------------------

  /** An event to print: its type, its data one chunk a `data:` line, and possibly an id. */
  datatype Event = Event(event: Bytes, data: seq<Bytes>, id: Option<Bytes>)

  function Field(name: Bytes, value: Bytes): Bytes {
    name + [COLON, SPACE] + value
  }

  function DataLines(data: seq<Bytes>): (lines: seq<Bytes>)
    ensures |lines| == |data|
  {
    seq(|data|, i requires 0 <= i < |data| => Field(DATA, data[i]))
  }

  function EventLines(e: Event): seq<Bytes> {
    [Field(EVENT, e.event)] + DataLines(e.data) + IdLines(e) + [[]]
  }

  function PrintedLines(es: seq<Event>): seq<Bytes> {
    if es == [] then [] else EventLines(es[0]) + PrintedLines(es[1..])
  }

  /** The id in force after an event: ids persist, and an id that holds a NUL is ignored. */
  function IdAfter(lastId: Bytes, e: Event): Bytes {
    if e.id.Some? && NUL !in e.id.value then e.id.value else lastId
  }

  /** What a client gets: the data chunks joined with nothing in between; an event without any content is not seen. */
  function Received(lastId: Bytes, es: seq<Event>): seq<StreamPart>
    decreases |es|
  {
    if es == [] then []
    else
      var id, joined := IdAfter(lastId, es[0]), Flatten(es[0].data);
      (if es[0].event == [] && joined == [] && id == [] then []
       else [StreamPart(es[0].event, NonEmpty(joined), NonEmpty(id))])
      + Received(id, es[1..])
  }

  lemma {:induction false} NameLengthOfField(name: Bytes, rest: Bytes)
    requires COLON !in name
    ensures NameLength(name + [COLON] + rest) == |name|
  {
    var line := name + [COLON] + rest;
    if name == [] {
      assert line[0] == COLON;
    } else {
      assert line[0] == name[0];
      assert line[1..] == name[1..] + [COLON] + rest;
      NameLengthOfField(name[1..], rest);
    }
  }

  lemma FieldParses(name: Bytes, value: Bytes)
    requires COLON !in name
    ensures FieldName(Field(name, value)) == name && FieldValue(Field(name, value)) == value
  {
    assert Field(name, value) == name + [COLON] + ([SPACE] + value);
    NameLengthOfField(name, [SPACE] + value);
    assert (name + [COLON] + ([SPACE] + value))[|name| + 1..] == [SPACE] + value;
    assert ([SPACE] + value)[1..] == value;
  }

  /** The other two forms of a field: no space after the colon, and no colon at all. */
  lemma FieldForms(name: Bytes, value: Bytes)
    requires COLON !in name
    ensures FieldName(name) == name && FieldValue(name) == []
    ensures FieldName(name + [COLON] + value) == name
    ensures value == [] || value[0] != SPACE ==> FieldValue(name + [COLON] + value) == value
  {
    NameLengthOfField(name, value);
    assert (name + [COLON] + value)[|name| + 1..] == value;
    assert name[..|name|] == name;
    assert NameLength(name) == |name| by {
      assert forall k | 0 <= k < |name| :: name[k] in name && name[k] != COLON;
    }
  }

  lemma FeedField(s: State, name: Bytes, value: Bytes, parse: Bytes -> Option<int>)
    requires name == EVENT || name == DATA || name == ID
    ensures Feed(s, Field(name, value), parse).1 == None
    ensures Feed(s, Field(name, value), parse).0 ==
            if name == EVENT then s.(event := value)
            else if name == DATA then s.(data := s.data + value)
            else if NUL in value then s else s.(lastId := value)
  {
    FieldParses(name, value);
    assert Field(name, value)[0] == name[0];
    assert EVENT[0] != DATA[0] && DATA[0] != ID[0] && ID[0] != EVENT[0];
  }

  lemma OneLine(s: State, line: Bytes, parse: Bytes -> Option<int>)
    ensures Parts(s, [line], parse) == if Feed(s, line, parse).1.Some? then [Feed(s, line, parse).1.value] else []
    ensures After(s, [line], parse) == Feed(s, line, parse).0
  {
    assert [line][1..] == [];
    assert Parts(Feed(s, line, parse).0, [], parse) == [];
  }

  lemma {:induction false} FeedData(s: State, data: seq<Bytes>, parse: Bytes -> Option<int>)
    ensures Parts(s, DataLines(data), parse) == []
    ensures After(s, DataLines(data), parse) == s.(data := s.data + Flatten(data))
    decreases |data|
  {
    if data == [] {
      assert s.data + [] == s.data;
    } else {
      assert DataLines(data)[1..] == DataLines(data[1..]);
      FeedField(s, DATA, data[0], parse);
      var t := s.(data := s.data + data[0]);
      FeedData(t, data[1..], parse);
      Assoc(s.data, data[0], Flatten(data[1..]));
    }
  }

  function IdLines(e: Event): seq<Bytes> {
    if e.id.Some? then [Field(ID, e.id.value)] else []
  }

  lemma FeedEventAndData(s: State, e: Event, parse: Bytes -> Option<int>)
    requires s.data == []
    ensures var lines := [Field(EVENT, e.event)] + DataLines(e.data);
            && Parts(s, lines, parse) == []
            && After(s, lines, parse) == s.(event := e.event, data := Flatten(e.data))
  {
    FeedField(s, EVENT, e.event, parse);
    OneLine(s, Field(EVENT, e.event), parse);
    FeedData(s.(event := e.event), e.data, parse);
    assert [] + Flatten(e.data) == Flatten(e.data);
    PartsAppend(s, [Field(EVENT, e.event)], DataLines(e.data), parse);
  }

  lemma FeedId(s: State, e: Event, parse: Bytes -> Option<int>)
    ensures Parts(s, IdLines(e), parse) == []
    ensures After(s, IdLines(e), parse) == s.(lastId := IdAfter(s.lastId, e))
  {
    if e.id.Some? {
      FeedField(s, ID, e.id.value, parse);
      OneLine(s, Field(ID, e.id.value), parse);
    }
  }

  lemma OneEvent(lastId: Bytes, e: Event, parse: Bytes -> Option<int>)
    ensures var s, id := State([], [], lastId, None), IdAfter(lastId, e);
            && Parts(s, EventLines(e), parse) == Received(lastId, [e])
            && After(s, EventLines(e), parse) == State([], [], id, None)
  {
    var s := State([], [], lastId, None);
    var lines := [Field(EVENT, e.event)] + DataLines(e.data);
    var t := s.(event := e.event, data := Flatten(e.data));
    FeedEventAndData(s, e, parse);
    FeedId(t, e, parse);
    PartsAppend(s, lines, IdLines(e), parse);
    OneLine(t.(lastId := IdAfter(lastId, e)), [], parse);
    PartsAppend(s, lines + IdLines(e), [[]], parse);
    assert Received(IdAfter(lastId, e), [e][1..]) == [];
  }

  lemma {:induction false} PartsOfPrinted(lastId: Bytes, es: seq<Event>, parse: Bytes -> Option<int>)
    ensures Parts(State([], [], lastId, None), PrintedLines(es), parse) == Received(lastId, es)
    decreases |es|
  {
    if es == [] {
    } else {
      OneEvent(lastId, es[0], parse);
      PartsAppend(State([], [], lastId, None), EventLines(es[0]), PrintedLines(es[1..]), parse);
      PartsOfPrinted(IdAfter(lastId, es[0]), es[1..], parse);
      assert [es[0]][1..] == [];
    }
  }

  ghost predicate Printable(es: seq<Event>) {
    forall i | 0 <= i < |es| ::
      && BreakFree(es[i].event)
      && AllBreakFree(es[i].data)
      && (es[i].id.Some? ==> BreakFree(es[i].id.value))
  }

  lemma {:induction false} PrintedLinesBreakFree(es: seq<Event>)
    requires Printable(es)
    ensures AllBreakFree(PrintedLines(es))
  {
    if es == [] {
    } else {
      var e := es[0];
      assert forall i | 0 <= i < |es[1..]| :: es[1..][i] == es[i + 1];
      PrintedLinesBreakFree(es[1..]);
      forall i | 0 <= i < |e.data| ensures BreakFree(DataLines(e.data)[i]) {
        assert BreakFree(e.data[i]);
      }
      assert AllBreakFree(EventLines(e));
    }
  }

  /**
   * Printed events come back through both decoders, whatever the chunking and whatever line endings,
   * provided no blank line printed as `\n` follows a line ended by `\r` (the two read as one `\r\n`).
   */
  lemma EventRoundTrip(es: seq<Event>, ends: seq<Ending>, chunks: seq<Bytes>, parse: Bytes -> Option<int>)
    requires Printable(es) && |ends| == |PrintedLines(es)|
    requires forall i | 0 <= i < |ends| :: !Collides(PrintedLines(es), ends, i)
    requires Flatten(chunks) == Render(PrintedLines(es), ends)
    ensures Parts(FRESH, Lines(Flatten(chunks)), parse) == Received([], es)
  {
    PrintedLinesBreakFree(es);
    RenderRoundTripIff(PrintedLines(es), ends);
    PartsOfPrinted([], es, parse);
  }

  function Blanks(lines: seq<Bytes>): nat {
    if lines == [] then 0 else (if lines[0] == [] then 1 else 0) + Blanks(lines[1..])
  }

  lemma {:induction false} BlanksAppend(a: seq<Bytes>, b: seq<Bytes>)
    ensures Blanks(a + b) == Blanks(a) + Blanks(b)
  {
    if a == [] {
      assert a + b == b;
    } else {
      assert (a + b)[0] == a[0] && (a + b)[1..] == a[1..] + b;
      BlanksAppend(a[1..], b);
    }
  }

  lemma {:induction false} NoBlanks(lines: seq<Bytes>)
    requires forall i | 0 <= i < |lines| :: lines[i] != []
    ensures Blanks(lines) == 0
  {
    if lines == [] {
    } else {
      NoBlanks(lines[1..]);
    }
  }

  /** Only a blank line completes an event. */
  lemma {:induction false} PartsNeedBlanks(s: State, lines: seq<Bytes>, parse: Bytes -> Option<int>)
    ensures |Parts(s, lines, parse)| <= Blanks(lines)
    decreases |lines|
  {
    if lines == [] {
    } else {
      PartsNeedBlanks(Feed(s, lines[0], parse).0, lines[1..], parse);
    }
  }

  /** Each collision costs a blank line. */
  lemma {:induction false} SurvivingBlanks(lines: seq<Bytes>, ends: seq<Ending>)
    requires |lines| == |ends|
    ensures Blanks(Surviving(lines, ends)) <= Blanks(lines)
    ensures (exists i | 0 <= i < |lines| :: Collides(lines, ends, i)) ==>
              Blanks(Surviving(lines, ends)) < Blanks(lines)
    decreases |lines|
  {
    if lines == [] {
    } else {
      var ls, es := lines[1..], ends[1..];
      var seen := Surviving(lines, ends);
      if Collides(lines, ends, 0) {
        SurvivingBlanks(lines[2..], ends[2..]);
        assert ls[0] == [] && ls[1..] == lines[2..];
        assert seen[1..] == Surviving(lines[2..], ends[2..]);
      } else {
        SurvivingBlanks(ls, es);
        assert seen[1..] == Surviving(ls, es);
        if i :| 0 <= i < |lines| && Collides(lines, ends, i) {
          assert Collides(ls, es, i - 1);
        }
      }
    }
  }

  lemma {:induction false} PrintedBlanks(es: seq<Event>)
    ensures Blanks(PrintedLines(es)) == |es|
  {
    if es == [] {
    } else {
      var lines := [Field(EVENT, es[0].event)] + DataLines(es[0].data) + IdLines(es[0]);
      NoBlanks(lines);
      var blank: seq<Bytes> := [[]];
      BlanksAppend(lines, blank);
      assert Blanks(blank) == 1 + Blanks(blank[1..]);
      BlanksAppend(EventLines(es[0]), PrintedLines(es[1..]));
      PrintedBlanks(es[1..]);
    }
  }

  /** An event with a type or some data is always seen. */
  lemma {:induction false} SeenEvents(lastId: Bytes, es: seq<Event>)
    requires forall i | 0 <= i < |es| :: es[i].event != [] || Flatten(es[i].data) != []
    ensures |Received(lastId, es)| == |es|
    decreases |es|
  {
    if es == [] {
    } else {
      assert forall i | 0 <= i < |es| - 1 :: es[1..][i] == es[i + 1];
      SeenEvents(IdAfter(lastId, es[0]), es[1..]);
    }
  }

  /** Where every printed event is one a client sees, the condition on the endings is exact. */
  lemma EventRoundTripIff(es: seq<Event>, ends: seq<Ending>, chunks: seq<Bytes>, parse: Bytes -> Option<int>)
    requires Printable(es) && |ends| == |PrintedLines(es)| && |Received([], es)| == |es|
    requires Flatten(chunks) == Render(PrintedLines(es), ends)
    ensures Parts(FRESH, Lines(Flatten(chunks)), parse) == Received([], es)
            <==> forall i | 0 <= i < |ends| :: !Collides(PrintedLines(es), ends, i)
  {
    if forall i | 0 <= i < |ends| :: !Collides(PrintedLines(es), ends, i) {
      EventRoundTrip(es, ends, chunks, parse);
    } else {
      var lines := PrintedLines(es);
      PrintedLinesBreakFree(es);
      LinesOfRender(lines, ends);
      SurvivingBlanks(lines, ends);
      PrintedBlanks(es);
      PartsNeedBlanks(FRESH, Surviving(lines, ends), parse);
    }
  }

  /** In particular where every event has a type or some data. */
  lemma EventsWithContentComeBackIff(es: seq<Event>, ends: seq<Ending>, chunks: seq<Bytes>, parse: Bytes -> Option<int>)
    requires Printable(es) && |ends| == |PrintedLines(es)|
    requires forall i | 0 <= i < |es| :: es[i].event != [] || Flatten(es[i].data) != []
    requires Flatten(chunks) == Render(PrintedLines(es), ends)
    ensures Parts(FRESH, Lines(Flatten(chunks)), parse) == Received([], es)
            <==> forall i | 0 <= i < |ends| :: !Collides(PrintedLines(es), ends, i)
  {
    SeenEvents([], es);
    EventRoundTripIff(es, ends, chunks, parse);
  }

  /** The condition cannot be dropped: one collision swallows the blank line and the event with it. */
  lemma CollisionLosesEvent(parse: Bytes -> Option<int>)
    ensures var e := Event([97], [], None);
            && PrintedLines([e]) == [Field(EVENT, [97]), []]
            && Parts(FRESH, Lines(Render(PrintedLines([e]), [EndCr, EndLf])), parse) == []
            && Received([], [e]) == [StreamPart([97], None, None)]
  {
    var e := Event([97], [], None);
    assert PrintedLines([e]) == EventLines(e) + PrintedLines([]) == [Field(EVENT, [97]), []];
    var lines := [Field(EVENT, [97]), []];
    assert AllBreakFree(lines);
    LinesOfRender(lines, [EndCr, EndLf]);
    assert lines[2..] == [];
    FeedField(FRESH, EVENT, [97], parse);
    OneLine(FRESH, Field(EVENT, [97]), parse);
    assert Received([], []) == [] && [e][1..] == [];
  }

  // ---------------------------------------------------------------------
  // The event stream interpretation of the standard
  // ---------------------------------------------------------------------

  /** The three buffers of section 9.2.6 of the WHATWG HTML Living Standard. */
  datatype Buffers = Buffers(event: Bytes, data: Bytes, lastId: Bytes)

  /**
   * One line as that section has it: every data value is followed by a line feed, and a blank line
   * dispatches only if there is data, less the final line feed.
   */
  ghost function StandardFeed(b: Buffers, line: Bytes): (Buffers, Option<StreamPart>) {
    if line == [] then
      (Buffers([], [], b.lastId),
       if b.data == [] then None else Some(StreamPart(b.event, Some(b.data[..|b.data| - 1]), NonEmpty(b.lastId))))
    else
      var name, value := FieldName(line), FieldValue(line);
      if line[0] == COLON then (b, None)
      else if name == EVENT then (b.(event := value), None)
      else if name == DATA then (b.(data := b.data + value + [LF]), None)
      else if name == ID && NUL !in value then (b.(lastId := value), None)
      else (b, None)
  }

  ghost function StandardAfter(lines: seq<Bytes>): Buffers {
    if lines == [] then Buffers([], [], [])
    else StandardFeed(StandardAfter(lines[..|lines| - 1]), lines[|lines| - 1]).0
  }

  /** What line `i` dispatches, in the standard and in the code. */
  ghost function StandardAt(lines: seq<Bytes>, i: nat): Option<StreamPart>
    requires i < |lines|
  {
    StandardFeed(StandardAfter(lines[..i]), lines[i]).1
  }

  ghost function CodeAt(lines: seq<Bytes>, i: nat, parse: Bytes -> Option<int>): Option<StreamPart>
    requires i < |lines|
  {
    Feed(After(FRESH, lines[..i], parse), lines[i], parse).1
  }

  /** The data values since the last blank line. */
  ghost function DataSince(lines: seq<Bytes>): seq<Bytes> {
    if lines == [] || lines[|lines| - 1] == [] then []
    else
      var last := lines[|lines| - 1];
      DataSince(lines[..|lines| - 1]) + if Sets(last, DATA) then [FieldValue(last)] else []
  }

  ghost function Ended(values: seq<Bytes>): (r: seq<Bytes>)
    ensures |r| == |values|
  {
    seq(|values|, i requires 0 <= i < |values| => values[i] + [LF])
  }

  lemma EndedSnoc(values: seq<Bytes>, v: Bytes)
    ensures Flatten(Ended(values + [v])) == Flatten(Ended(values)) + v + [LF]
    ensures Flatten(values + [v]) == Flatten(values) + v
  {
    assert Ended(values + [v]) == Ended(values) + [v + [LF]];
    FlattenSnoc(Ended(values), v + [LF]);
    FlattenSnoc(values, v);
    Assoc(Flatten(Ended(values)), v, [LF]);
  }

  /** The code and the standard differ in what they keep of the data lines only. */
  ghost predicate Matches(s: State, b: Buffers, values: seq<Bytes>) {
    && s.event == b.event && s.lastId == b.lastId
    && s.data == Flatten(values) && b.data == Flatten(Ended(values))
  }

  ghost function ValuesAfter(values: seq<Bytes>, line: Bytes): seq<Bytes> {
    if line == [] then [] else if Sets(line, DATA) then values + [FieldValue(line)] else values
  }

  lemma LineMatches(s: State, b: Buffers, values: seq<Bytes>, line: Bytes, parse: Bytes -> Option<int>)
    requires Matches(s, b, values)
    ensures Matches(Feed(s, line, parse).0, StandardFeed(b, line).0, ValuesAfter(values, line))
  {
    assert EVENT[0] != DATA[0] && DATA[0] != ID[0] && ID[0] != EVENT[0] && RETRY[0] != DATA[0];
    if Sets(line, DATA) {
      EndedSnoc(values, FieldValue(line));
    }
  }

  lemma {:induction false} BuffersMatch(lines: seq<Bytes>, parse: Bytes -> Option<int>)
    ensures Matches(After(FRESH, lines, parse), StandardAfter(lines), DataSince(lines))
  {
    if lines == [] {
    } else {
      var front, last := lines[..|lines| - 1], lines[|lines| - 1];
      var s := After(FRESH, front, parse);
      BuffersMatch(front, parse);
      LineMatches(s, StandardAfter(front), DataSince(front), last, parse);
      assert After(FRESH, lines, parse) == Feed(s, last, parse).0 by {
        assert lines == front + [last];
        PartsAppend(FRESH, front, [last], parse);
        OneLine(s, last, parse);
      }
      assert DataSince(lines) == ValuesAfter(DataSince(front), last);
    }
  }

  lemma {:induction false} EndedLength(values: seq<Bytes>)
    ensures |Flatten(Ended(values))| == |Flatten(values)| + |values|
  {
    if values == [] {
    } else {
      EndedLength(values[1..]);
      assert Ended(values)[1..] == Ended(values[1..]);
    }
  }

  // ---------------------------------------------------------------------
  // When a blank line completes nothing
  // ---------------------------------------------------------------------

  /** Line `j` belongs to the block that line `i` ends: no blank line lies from `j` to `i`. */
  ghost predicate InBlock(lines: seq<Bytes>, j: nat, i: nat)
    requires i <= |lines|
  {
    j < i && forall m | j <= m < i :: lines[m] != []
  }

  /** The last event field of the block, if there is one, is empty. */
  ghost predicate NoEvent(lines: seq<Bytes>, i: nat)
    requires i <= |lines|
  {
    forall j | 0 <= j < i && InBlock(lines, j, i) && Sets(lines[j], EVENT) ::
      (forall m | j < m < i :: !Sets(lines[m], EVENT)) ==> FieldValue(lines[j]) == []
  }

  ghost predicate NoData(lines: seq<Bytes>, i: nat)
    requires i <= |lines|
  {
    forall j | 0 <= j < i && InBlock(lines, j, i) && Sets(lines[j], DATA) :: FieldValue(lines[j]) == []
  }

  /** No retry field of the block holds a number. */
  ghost predicate NoRetry(lines: seq<Bytes>, i: nat, parse: Bytes -> Option<int>)
    requires i <= |lines|
  {
    forall j | 0 <= j < i && InBlock(lines, j, i) && Sets(lines[j], RETRY) :: parse(FieldValue(lines[j])).None?
  }

  ghost predicate SetsId(line: Bytes) {
    Sets(line, ID) && NUL !in FieldValue(line)
  }

  /** The last id of the whole stream so far, if there is one, is empty. */
  ghost predicate NoId(lines: seq<Bytes>, i: nat)
    requires i <= |lines|
  {
    forall j | 0 <= j < i && SetsId(lines[j]) ::
      (forall m | j < m < i :: !SetsId(lines[m])) ==> FieldValue(lines[j]) == []
  }

  ghost predicate NothingSet(lines: seq<Bytes>, i: nat, parse: Bytes -> Option<int>)
    requires i <= |lines|
  {
    NoEvent(lines, i) && NoData(lines, i) && NoRetry(lines, i, parse) && NoId(lines, i)
  }

  lemma AfterNext(lines: seq<Bytes>, i: nat, parse: Bytes -> Option<int>)
    requires i < |lines|
    ensures After(FRESH, lines[..i + 1], parse) == Feed(After(FRESH, lines[..i], parse), lines[i], parse).0
  {
    assert lines[..i + 1] == lines[..i] + [lines[i]];
    PartsAppend(FRESH, lines[..i], [lines[i]], parse);
    OneLine(After(FRESH, lines[..i], parse), lines[i], parse);
  }

  lemma InBlockNext(lines: seq<Bytes>, i: nat)
    requires i < |lines|
    ensures forall j | 0 <= j < i :: InBlock(lines, j, i + 1) <==> InBlock(lines, j, i) && lines[i] != []
    ensures InBlock(lines, i, i + 1) <==> lines[i] != []
  {
    forall j | 0 <= j < i ensures InBlock(lines, j, i + 1) <==> InBlock(lines, j, i) && lines[i] != [] {
      if InBlock(lines, j, i + 1) {
        assert lines[i] != [] && forall m | j <= m < i :: lines[m] != [];
      }
    }
  }

  /** What one line does to each field, in terms of what it sets. */
  lemma FeedSets(s: State, line: Bytes, parse: Bytes -> Option<int>)
    requires line != []
    ensures var t := Feed(s, line, parse).0;
            && t.event == (if Sets(line, EVENT) then FieldValue(line) else s.event)
            && t.data == s.data + (if Sets(line, DATA) then FieldValue(line) else [])
            && t.retry == (if Sets(line, RETRY) && parse(FieldValue(line)).Some? then parse(FieldValue(line)) else s.retry)
            && t.lastId == (if SetsId(line) then FieldValue(line) else s.lastId)
  {
    assert EVENT[0] != DATA[0] && DATA[0] != ID[0] && ID[0] != EVENT[0];
    assert RETRY[0] != DATA[0] && RETRY[0] != EVENT[0] && RETRY[0] != ID[0];
  }

  /** A blank line clears the type, the data and the retry, and keeps the id. */
  lemma BlankClears(lines: seq<Bytes>, i: nat, parse: Bytes -> Option<int>)
    requires i < |lines| && lines[i] == []
    ensures After(FRESH, lines[..i + 1], parse) == State([], [], After(FRESH, lines[..i], parse).lastId, None)
  {
    AfterNext(lines, i, parse);
  }

  lemma NoEventNext(lines: seq<Bytes>, i: nat)
    requires i < |lines|
    ensures NoEvent(lines, i + 1) <==>
            if lines[i] == [] then true
            else if Sets(lines[i], EVENT) then FieldValue(lines[i]) == []
            else NoEvent(lines, i)
  {
    InBlockNext(lines, i);
    assert lines[i] != [] && Sets(lines[i], EVENT) ==> InBlock(lines, i, i + 1);
  }

  lemma NoDataNext(lines: seq<Bytes>, i: nat)
    requires i < |lines|
    ensures NoData(lines, i + 1) <==>
            lines[i] == [] || (NoData(lines, i) && (Sets(lines[i], DATA) ==> FieldValue(lines[i]) == []))
  {
    InBlockNext(lines, i);
  }

  lemma NoRetryNext(lines: seq<Bytes>, i: nat, parse: Bytes -> Option<int>)
    requires i < |lines|
    ensures NoRetry(lines, i + 1, parse) <==>
            lines[i] == [] || (NoRetry(lines, i, parse) && (Sets(lines[i], RETRY) ==> parse(FieldValue(lines[i])).None?))
  {
    InBlockNext(lines, i);
  }

  lemma NoIdNext(lines: seq<Bytes>, i: nat)
    requires i < |lines|
    ensures NoId(lines, i + 1) <==> if SetsId(lines[i]) then FieldValue(lines[i]) == [] else NoId(lines, i)
  {
  }

  /** What one line does to each field: a blank line clears all but the id, a field line sets or extends its own. */
  ghost predicate OneLineOn(s: State, line: Bytes, parse: Bytes -> Option<int>, t: State) {
    if line == [] then t == State([], [], s.lastId, None)
    else
      && t.event == (if Sets(line, EVENT) then FieldValue(line) else s.event)
      && t.data == s.data + (if Sets(line, DATA) then FieldValue(line) else [])
      && t.retry == (if Sets(line, RETRY) && parse(FieldValue(line)).Some? then parse(FieldValue(line)) else s.retry)
      && t.lastId == (if SetsId(line) then FieldValue(line) else s.lastId)
  }

  lemma FieldsNext(lines: seq<Bytes>, i: nat, parse: Bytes -> Option<int>)
    requires i < |lines|
    ensures OneLineOn(After(FRESH, lines[..i], parse), lines[i], parse, After(FRESH, lines[..i + 1], parse))
  {
    AfterNext(lines, i, parse);
    if lines[i] == [] {
      BlankClears(lines, i, parse);
    } else {
      FeedSets(After(FRESH, lines[..i], parse), lines[i], parse);
    }
  }

  lemma {:induction false} EventUnset(lines: seq<Bytes>, i: nat, parse: Bytes -> Option<int>)
    requires i <= |lines|
    ensures After(FRESH, lines[..i], parse).event == [] <==> NoEvent(lines, i)
  {
    if i == 0 {
      assert lines[..0] == [];
    } else {
      EventUnset(lines, i - 1, parse);
      FieldsNext(lines, i - 1, parse);
      NoEventNext(lines, i - 1);
    }
  }

  lemma {:induction false} DataUnset(lines: seq<Bytes>, i: nat, parse: Bytes -> Option<int>)
    requires i <= |lines|
    ensures After(FRESH, lines[..i], parse).data == [] <==> NoData(lines, i)
  {
    if i == 0 {
      assert lines[..0] == [];
    } else {
      DataUnset(lines, i - 1, parse);
      FieldsNext(lines, i - 1, parse);
      NoDataNext(lines, i - 1);
    }
  }

  lemma {:induction false} RetryUnset(lines: seq<Bytes>, i: nat, parse: Bytes -> Option<int>)
    requires i <= |lines|
    ensures After(FRESH, lines[..i], parse).retry == None <==> NoRetry(lines, i, parse)
  {
    if i == 0 {
      assert lines[..0] == [];
    } else {
      RetryUnset(lines, i - 1, parse);
      FieldsNext(lines, i - 1, parse);
      NoRetryNext(lines, i - 1, parse);
    }
  }

  lemma {:induction false} IdUnset(lines: seq<Bytes>, i: nat, parse: Bytes -> Option<int>)
    requires i <= |lines|
    ensures After(FRESH, lines[..i], parse).lastId == [] <==> NoId(lines, i)
  {
    if i == 0 {
      assert lines[..0] == [];
    } else {
      IdUnset(lines, i - 1, parse);
      FieldsNext(lines, i - 1, parse);
      NoIdNext(lines, i - 1);
    }
  }

  lemma FreshIffNothingSet(lines: seq<Bytes>, i: nat, parse: Bytes -> Option<int>)
    requires i <= |lines|
    ensures After(FRESH, lines[..i], parse) == FRESH <==> NothingSet(lines, i, parse)
  {
    EventUnset(lines, i, parse);
    DataUnset(lines, i, parse);
    RetryUnset(lines, i, parse);
    IdUnset(lines, i, parse);
  }

  /**
   * A blank line completes no event exactly when the last event field and all data fields of its block are
   * empty, no retry field of it holds a number, and the last id so far is empty; other lines complete none.
   */
  lemma CompletesNothingIff(lines: seq<Bytes>, i: nat, parse: Bytes -> Option<int>)
    requires i < |lines|
    ensures CodeAt(lines, i, parse) == None <==> lines[i] != [] || NothingSet(lines, i, parse)
  {
    FreshIffNothingSet(lines, i, parse);
  }

  /** A retry field alone makes a blank line emit an event. */
  lemma RetryEmitsEvent(parse: Bytes -> Option<int>)
    requires parse([51]).Some?
    ensures Parts(FRESH, [Field(RETRY, [51]), []], parse) == [StreamPart([], None, None)]
  {
    var a := Field(RETRY, [51]);
    FieldParses(RETRY, [51]);
    assert a[0] == RETRY[0];
    FeedSets(FRESH, a, parse);
    OneLine(FRESH, a, parse);
    var s := Feed(FRESH, a, parse).0;
    assert EVENT[0] != RETRY[0] && DATA[0] != RETRY[0] && ID[0] != RETRY[0];
    OneLine(s, [], parse);
    PartsAppend(FRESH, [a], [[]], parse);
    assert [a] + [[]] == [a, []];
  }

  /** A blank line ends a block of exactly one data line, not an empty one, or nothing has been set at all. */
  ghost predicate RegularAt(lines: seq<Bytes>, i: nat, parse: Bytes -> Option<int>)
    requires i < |lines|
  {
    lines[i] == [] ==>
      var values := DataSince(lines[..i]);
      (|values| == 1 && values[0] != []) || (values == [] && NothingSet(lines, i, parse))
  }

  /** Each line completes the event the standard has it complete exactly under that condition. */
  lemma StandardIffRegular(lines: seq<Bytes>, i: nat, parse: Bytes -> Option<int>)
    requires i < |lines|
    ensures CodeAt(lines, i, parse) == StandardAt(lines, i) <==> RegularAt(lines, i, parse)
  {
    if lines[i] == [] {
      BuffersMatch(lines[..i], parse);
      FreshIffNothingSet(lines, i, parse);
      BlankAgrees(After(FRESH, lines[..i], parse), StandardAfter(lines[..i]), DataSince(lines[..i]), parse);
    }
  }

  lemma BlankAgrees(s: State, b: Buffers, values: seq<Bytes>, parse: Bytes -> Option<int>)
    requires Matches(s, b, values)
    ensures Feed(s, [], parse).1 == StandardFeed(b, []).1 <==>
              (|values| == 1 && values[0] != []) || (values == [] && s == FRESH)
  {
    EndedLength(values);
    if |values| == 1 {
      assert [] + [values[0]] == values;
      EndedSnoc([], values[0]);
      assert b.data[..|b.data| - 1] == values[0] == s.data;
    }
  }

  ghost function StandardParts(lines: seq<Bytes>): seq<StreamPart> {
    if lines == [] then []
    else
      var n := |lines| - 1;
      StandardParts(lines[..n]) + if StandardAt(lines, n).Some? then [StandardAt(lines, n).value] else []
  }

  ghost function StandardPart(lines: seq<Bytes>, i: nat): seq<StreamPart>
    requires i < |lines|
  {
    if StandardAt(lines, i).Some? then [StandardAt(lines, i).value] else []
  }

  ghost function CodePart(lines: seq<Bytes>, i: nat, parse: Bytes -> Option<int>): seq<StreamPart>
    requires i < |lines|
  {
    if CodeAt(lines, i, parse).Some? then [CodeAt(lines, i, parse).value] else []
  }

  /** One more line of a stream. */
  lemma PartsNext(lines: seq<Bytes>, n: nat, parse: Bytes -> Option<int>)
    requires n < |lines|
    ensures Parts(FRESH, lines[..n + 1], parse) == Parts(FRESH, lines[..n], parse) + CodePart(lines, n, parse)
    ensures StandardParts(lines[..n + 1]) == StandardParts(lines[..n]) + StandardPart(lines, n)
  {
    assert lines[..n + 1] == lines[..n] + [lines[n]];
    PartsAppend(FRESH, lines[..n], [lines[n]], parse);
    OneLine(After(FRESH, lines[..n], parse), lines[n], parse);
    assert lines[..n + 1][..n] == lines[..n];
  }

  /** A stream of regular blocks gives the events of the standard. */
  lemma {:induction false} RegularStream(lines: seq<Bytes>, n: nat, parse: Bytes -> Option<int>)
    requires n <= |lines| && forall i | 0 <= i < n :: RegularAt(lines, i, parse)
    ensures Parts(FRESH, lines[..n], parse) == StandardParts(lines[..n])
  {
    if n == 0 {
    } else {
      RegularStream(lines, n - 1, parse);
      StandardIffRegular(lines, n - 1, parse);
      PartsNext(lines, n - 1, parse);
    }
  }

  /** What the code can put into an event: no data, or data that is not empty and holds no line feed. */
  ghost predicate CodeData(p: StreamPart) {
    p.data.None? || (p.data.value != [] && LF !in p.data.value)
  }

  ghost predicate WithoutLf(lines: seq<Bytes>) {
    forall i | 0 <= i < |lines| :: LF !in lines[i]
  }

  lemma CodeDataOnce(s: State, line: Bytes, parse: Bytes -> Option<int>)
    requires LF !in s.data && LF !in line
    ensures LF !in Feed(s, line, parse).0.data
    ensures Feed(s, line, parse).1.Some? ==> CodeData(Feed(s, line, parse).1.value)
  {
    assert forall b | b in FieldValue(line) :: b in line;
  }

  lemma {:induction false} CodeDataAlways(s: State, lines: seq<Bytes>, parse: Bytes -> Option<int>)
    requires LF !in s.data && WithoutLf(lines)
    ensures forall p | p in Parts(s, lines, parse) :: CodeData(p)
    decreases |lines|
  {
    if lines == [] {
    } else {
      assert LF !in lines[0] && forall i | 0 <= i < |lines| - 1 :: lines[1..][i] == lines[i + 1];
      CodeDataOnce(s, lines[0], parse);
      CodeDataAlways(Feed(s, lines[0], parse).0, lines[1..], parse);
    }
  }

  /** What the standard puts into one: always data. */
  lemma {:induction false} StandardDataAlways(lines: seq<Bytes>)
    ensures forall p | p in StandardParts(lines) :: p.data.Some?
  {
    if lines == [] {
    } else {
      StandardDataAlways(lines[..|lines| - 1]);
    }
  }

  lemma {:induction false} PartsPrefix(lines: seq<Bytes>, n: nat, parse: Bytes -> Option<int>)
    requires n <= |lines|
    ensures Parts(FRESH, lines[..n], parse) <= Parts(FRESH, lines, parse)
    ensures StandardParts(lines[..n]) <= StandardParts(lines)
    decreases |lines| - n
  {
    if n == |lines| {
      assert lines[..n] == lines;
    } else {
      PartsNext(lines, n, parse);
      PartsPrefix(lines, n + 1, parse);
    }
  }

  lemma {:induction false} FirstIrregular(lines: seq<Bytes>, n: nat, parse: Bytes -> Option<int>) returns (i: nat)
    requires n < |lines| && !RegularAt(lines, n, parse)
    ensures i < |lines| && !RegularAt(lines, i, parse) && forall j | 0 <= j < i :: RegularAt(lines, j, parse)
  {
    if j :| 0 <= j < n && !RegularAt(lines, j, parse) {
      i := FirstIrregular(lines, j, parse);
    } else {
      i := n;
    }
  }

  lemma {:induction false} LfBetween(values: seq<Bytes>)
    requires |values| >= 2
    ensures var data := Flatten(Ended(values)); data != [] && LF in data[..|data| - 1]
  {
    var rest := Flatten(Ended(values[1..]));
    EndedLength(values[1..]);
    assert Ended(values)[1..] == Ended(values[1..]);
    assert Flatten(Ended(values)) == values[0] + [LF] + rest;
    assert (values[0] + [LF] + rest)[|values[0]|] == LF;
  }

  /** Where the two part, the event of one is none the other can give. */
  lemma IrregularPart(lines: seq<Bytes>, i: nat, parse: Bytes -> Option<int>)
    requires i < |lines| && !RegularAt(lines, i, parse)
    ensures CodePart(lines, i, parse) != StandardPart(lines, i)
    ensures StandardPart(lines, i) == [] ==> CodePart(lines, i, parse) != [] && CodePart(lines, i, parse)[0].data.None?
    ensures StandardPart(lines, i) != [] ==> !CodeData(StandardPart(lines, i)[0])
  {
    var values := DataSince(lines[..i]);
    StandardIffRegular(lines, i, parse);
    FreshIffNothingSet(lines, i, parse);
    BuffersMatch(lines[..i], parse);
    EndedLength(values);
    if |values| == 1 {
      assert values == [] + [values[0]];
      EndedSnoc([], values[0]);
    } else if |values| >= 2 {
      LfBetween(values);
    }
  }

  lemma Parted<T>(a: seq<T>, x: seq<T>, b: seq<T>)
    requires a + x <= b && x != []
    ensures |a| < |b| && b[|a|] == x[0] && x[0] in b
  {
    assert (a + x)[|a|] == x[0];
  }

  /** One irregular line makes the events of the stream differ. */
  lemma {:induction false} IrregularStream(lines: seq<Bytes>, i: nat, parse: Bytes -> Option<int>)
    requires WithoutLf(lines) && i < |lines| && !RegularAt(lines, i, parse)
    requires forall j | 0 <= j < i :: RegularAt(lines, j, parse)
    ensures Parts(FRESH, lines, parse) != StandardParts(lines)
  {
    var code, standard, before := Parts(FRESH, lines, parse), StandardParts(lines), StandardParts(lines[..i]);
    RegularStream(lines, i, parse);
    PartsNext(lines, i, parse);
    PartsPrefix(lines, i + 1, parse);
    IrregularPart(lines, i, parse);
    CodeDataAlways(FRESH, lines, parse);
    StandardDataAlways(lines);
    if StandardPart(lines, i) == [] {
      Parted(before, CodePart(lines, i, parse), code);
    } else {
      Parted(before, StandardPart(lines, i), standard);
    }
  }

  /** Lines that hold no line feed give the events of the standard exactly if every block is regular. */
  lemma StandardStreamIff(lines: seq<Bytes>, parse: Bytes -> Option<int>)
    requires WithoutLf(lines)
    ensures Parts(FRESH, lines, parse) == StandardParts(lines)
            <==> forall i | 0 <= i < |lines| :: RegularAt(lines, i, parse)
  {
    if n :| 0 <= n < |lines| && !RegularAt(lines, n, parse) {
      var i := FirstIrregular(lines, n, parse);
      IrregularStream(lines, i, parse);
    } else {
      RegularStream(lines, |lines|, parse);
      assert lines[..|lines|] == lines;
    }
  }

  lemma {:induction false} LinesWithoutLf(s: Bytes)
    ensures WithoutLf(Lines(s))
    decreases |s|
  {
    var n := LineLength(s);
    if n < |s| {
      LinesWithoutLf(s[AfterBreak(s, n)..]);
    }
  }

  /** So a byte stream, in whatever chunks, is decoded as the standard has it exactly if its lines are regular. */
  lemma StandardBytesIff(chunks: seq<Bytes>, parse: Bytes -> Option<int>)
    ensures var lines := Lines(Flatten(chunks));
            Parts(FRESH, lines, parse) == StandardParts(lines)
            <==> forall i | 0 <= i < |lines| :: RegularAt(lines, i, parse)
  {
    LinesWithoutLf(Flatten(chunks));
    StandardStreamIff(Lines(Flatten(chunks)), parse);
  }

  lemma StandardField(lines: seq<Bytes>, name: Bytes, value: Bytes)
    requires name == DATA || name == ID
    requires NUL !in value
    ensures StandardAfter(lines + [Field(name, value)]) ==
            var b := StandardAfter(lines);
            if name == DATA then b.(data := b.data + value + [LF]) else b.(lastId := value)
  {
    FieldParses(name, value);
    assert (lines + [Field(name, value)])[..|lines|] == lines;
    assert Field(name, value)[0] == name[0];
    assert EVENT[0] != DATA[0] && DATA[0] != ID[0] && ID[0] != EVENT[0];
  }

  lemma CodeField(lines: seq<Bytes>, name: Bytes, value: Bytes, parse: Bytes -> Option<int>)
    requires name == DATA || name == ID
    requires NUL !in value
    ensures After(FRESH, lines + [Field(name, value)], parse) ==
            var s := After(FRESH, lines, parse);
            if name == DATA then s.(data := s.data + value) else s.(lastId := value)
  {
    var s := After(FRESH, lines, parse);
    PartsAppend(FRESH, lines, [Field(name, value)], parse);
    OneLine(s, Field(name, value), parse);
    FeedField(s, name, value, parse);
    assert EVENT[0] != DATA[0] && DATA[0] != ID[0] && ID[0] != EVENT[0];
  }

  /** Two data lines lose the line feed between them. */
  lemma LineFeedLost(parse: Bytes -> Option<int>)
    ensures var lines := [Field(DATA, [97]), Field(DATA, [98]), []];
            && CodeAt(lines, 2, parse) == Some(StreamPart([], Some([97, 98]), None))
            && StandardAt(lines, 2) == Some(StreamPart([], Some([97, LF, 98]), None))
            && Parts(FRESH, lines, parse) != StandardParts(lines)
  {
    var a, b := Field(DATA, [97]), Field(DATA, [98]);
    StandardField([], DATA, [97]);
    StandardField([a], DATA, [98]);
    CodeField([], DATA, [97], parse);
    CodeField([a], DATA, [98], parse);
    assert [] + [a] == [a] && [a] + [b] == [a, b] == [a, b, []][..2];
    assert StandardAfter([a, b]).data == [97, LF, 98, LF] && [97, LF, 98, LF][..3] == [97, LF, 98];
    assert After(FRESH, [a, b], parse).data == [97, 98];
    StandardIffRegular([a, b, []], 2, parse);
    StandardStreamIff([a, b, []], parse);
  }

  /** An id alone makes a blank line emit an event. */
  lemma IdEmitsEvent(parse: Bytes -> Option<int>)
    ensures var lines := [Field(ID, [49]), []];
            && CodeAt(lines, 1, parse) == Some(StreamPart([], None, Some([49])))
            && StandardAt(lines, 1) == None
            && Parts(FRESH, lines, parse) != StandardParts(lines)
  {
    var a := Field(ID, [49]);
    StandardField([], ID, [49]);
    CodeField([], ID, [49], parse);
    assert [] + [a] == [a] == [a, []][..1];
    assert ID[0] != DATA[0];
    StandardIffRegular([a, []], 1, parse);
    StandardStreamIff([a, []], parse);
  }
}
