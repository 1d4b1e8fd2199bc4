/** `BytesLineDecoder` of langgraph_sdk/sse.py: line splitting that does not depend on chunk boundaries. */
module SseLines {
  import opened Prelude

  newtype byte = b: int | 0 <= b < 256

  type Bytes = seq<byte>

  const LF: byte := 10
  const CR: byte := 13

  predicate IsBreak(b: byte) {
    b == LF || b == CR
  }

  ghost predicate BreakFree(s: Bytes) {
    forall i | 0 <= i < |s| :: !IsBreak(s[i])
  }

  // ---------------------------------------------------------------------
  // Splitting a whole byte string
  // ---------------------------------------------------------------------

  /** The number of bytes before the first line break. */
  function LineLength(s: Bytes): (n: nat)
    ensures n <= |s|
    ensures forall i | 0 <= i < n :: !IsBreak(s[i])
    ensures n < |s| ==> IsBreak(s[n])
  {
    if s == [] || IsBreak(s[0]) then 0 else 1 + LineLength(s[1..])
  }

  /** A carriage return and a line feed right after it are one break. */
  function AfterBreak(s: Bytes, n: nat): (m: nat)
    requires n < |s|
    ensures n < m <= |s|
  {
    if s[n] == CR && n + 1 < |s| && s[n + 1] == LF then n + 2 else n + 1
  }

  /** `bytes.splitlines`: the lines without their breaks; an unterminated last line counts if it is not empty. */
  function Lines(s: Bytes): seq<Bytes>
    decreases |s|
  {
    if s == [] then []
    else
      var n := LineLength(s);
      if n == |s| then [s] else [s[..n]] + Lines(s[AfterBreak(s, n)..])
  }

  /** The terminated lines of a text, and what follows the last break. */
  datatype Cut = Cut(lines: seq<Bytes>, rest: Bytes)

  function CutOf(s: Bytes): Cut
    decreases |s|
  {
    var n := LineLength(s);
    if n == |s| then Cut([], s)
    else
      var c := CutOf(s[AfterBreak(s, n)..]);
      Cut([s[..n]] + c.lines, c.rest)
  }

  predicate EndsInCr(s: Bytes) {
    s != [] && s[|s| - 1] == CR
  }

  predicate StartsWithLf(s: Bytes) {
    s != [] && s[0] == LF
  }

  lemma {:induction false} LineLengthAppend(s: Bytes, t: Bytes)
    ensures LineLength(s + t) == if LineLength(s) < |s| then LineLength(s) else |s| + LineLength(t)
  {
    if s == [] {
      assert s + t == t;
    } else if !IsBreak(s[0]) {
      assert (s + t)[1..] == s[1..] + t;
      LineLengthAppend(s[1..], t);
    }
  }

  lemma {:induction false} LinesOfCut(s: Bytes)
    ensures Lines(s) == CutOf(s).lines + if CutOf(s).rest == [] then [] else [CutOf(s).rest]
    ensures s != [] ==> (CutOf(s).rest == [] <==> IsBreak(s[|s| - 1]))
    ensures BreakFree(CutOf(s).rest)
    decreases |s|
  {
    var n := LineLength(s);
    if n < |s| {
      LinesOfCut(s[AfterBreak(s, n)..]);
    }
  }

  /** How a text with a break splits into its first line, that break, and the remaining text. */
  lemma FirstBreak(s: Bytes) returns (line: Bytes, brk: Bytes, t: Bytes)
    requires LineLength(s) < |s|
    ensures s == line + brk + t && BreakFree(line) && IsLineBreak(brk, t) && |t| < |s|
  {
    var n := LineLength(s);
    var m := AfterBreak(s, n);
    line, brk, t := s[..n], s[n..m], s[m..];
  }

  ghost predicate IsLineBreak(brk: Bytes, t: Bytes) {
    brk == [LF] || brk == [CR, LF] || (brk == [CR] && !StartsWithLf(t))
  }

  /** Where the first break of a text lies. */
  lemma FirstBreakAt(line: Bytes, brk: Bytes, t: Bytes)
    requires BreakFree(line) && IsLineBreak(brk, t)
    ensures var s := line + brk + t; LineLength(s) == |line| < |s| && AfterBreak(s, |line|) == |line + brk|
  {
    var s := line + brk + t;
    assert s == line + (brk + t);
    LineLengthAppend(line, brk + t);
    assert IsBreak((brk + t)[0]);
    if |s| > |line| + 1 {
      assert s[|line| + 1] == (brk + t)[1];
    }
  }

  lemma LinesPeel(line: Bytes, brk: Bytes, t: Bytes)
    requires BreakFree(line) && IsLineBreak(brk, t)
    ensures Lines(line + brk + t) == [line] + Lines(t)
  {
    FirstBreakAt(line, brk, t);
    var s := line + brk + t;
    assert s[..|line|] == line && s[|line + brk|..] == t;
  }

  lemma CutPeel(line: Bytes, brk: Bytes, t: Bytes)
    requires BreakFree(line) && IsLineBreak(brk, t)
    ensures CutOf(line + brk + t) == Cut([line] + CutOf(t).lines, CutOf(t).rest)
  {
    FirstBreakAt(line, brk, t);
    var s := line + brk + t;
    assert s[..|line|] == line && s[|line + brk|..] == t;
  }

  lemma NoBreak(s: Bytes)
    requires BreakFree(s)
    ensures LineLength(s) == |s| && CutOf(s) == Cut([], s)
  {
    assert LineLength(s) == |s|;
  }

  lemma PeelBefore(line: Bytes, brk: Bytes, u: Bytes, t: Bytes)
    requires IsLineBreak(brk, u) && !(EndsInCr(line + brk + u) && StartsWithLf(t))
    ensures IsLineBreak(brk, u + t) && !(EndsInCr(u) && StartsWithLf(t))
    ensures line + brk + u + t == line + brk + (u + t)
  {
    if u == [] {
      assert u + t == t;
    } else {
      assert (line + brk + u)[|line + brk + u| - 1] == u[|u| - 1];
    }
  }

  /** Text may be cut anywhere but inside a `\r\n`: the finished lines are settled, whatever follows. */
  lemma {:induction false} CutSettles(s: Bytes, t: Bytes)
    requires !(EndsInCr(s) && StartsWithLf(t))
    ensures Lines(s + t) == CutOf(s).lines + Lines(CutOf(s).rest + t)
    decreases |s|
  {
    if LineLength(s) < |s| {
      var line, brk, u := FirstBreak(s);
      PeelBefore(line, brk, u, t);
      LinesPeel(line, brk, u + t);
      CutPeel(line, brk, u);
      CutSettles(u, t);
    } else {
      NoBreak(s);
    }
  }

  /** Text kept from earlier joins the first finished line. */
  lemma CutWithPrefix(b: Bytes, s: Bytes)
    requires BreakFree(b)
    ensures CutOf(b + s) ==
            if CutOf(s).lines == [] then Cut([], b + s)
            else Cut([b + CutOf(s).lines[0]] + CutOf(s).lines[1..], CutOf(s).rest)
  {
    if LineLength(s) < |s| {
      var line, brk, u := FirstBreak(s);
      assert b + s == b + line + brk + u;
      CutPeel(line, brk, u);
      CutPeel(b + line, brk, u);
    } else {
      NoBreak(b + s);
    }
  }

  function WithoutFinalCr(s: Bytes): Bytes {
    if EndsInCr(s) then s[..|s| - 1] else s
  }

  /** What one call has to split: the buffered bytes and the new text, a held-back `\r` in between. */
  lemma TextOfPending(b: Bytes, held: bool, text: Bytes)
    requires BreakFree(b)
    ensures var s, u := b + (if held then [CR] else []) + text, if held then [CR] + text else text;
            && EndsInCr(s) == EndsInCr(u)
            && WithoutFinalCr(s) == b + WithoutFinalCr(u)
  {
    assert b + (if held then [CR] else []) + text == b + if held then [CR] + text else text;
  }

  lemma CutUnbroken(text: Bytes)
    requires CutOf(text).lines == []
    ensures CutOf(text) == Cut([], text)
  {
    if LineLength(text) < |text| {
      var line, brk, u := FirstBreak(text);
      CutPeel(line, brk, u);
    }
  }

  /** `splitlines` of a text, by whether the text ends in a break. */
  lemma LinesByCut(text: Bytes)
    requires text != []
    ensures var lines, terminated, c := Lines(text), IsBreak(text[|text| - 1]), CutOf(text);
            && lines != []
            && (terminated ==> c == Cut(lines, []))
            && (!terminated ==> c == Cut(lines[..|lines| - 1], lines[|lines| - 1]))
            && (!terminated && |lines| == 1 ==> c == Cut([], text) && lines == [text])
            && (c.lines == [] <==> |lines| == 1 && !terminated)
  {
    LinesOfCut(text);
    if CutOf(text).lines == [] {
      CutUnbroken(text);
    }
  }

  /** Buffered text joins the first line. */
  function Joined(b: Bytes, lines: seq<Bytes>): seq<Bytes>
    requires lines != []
  {
    if b == [] then lines else [b + lines[0]] + lines[1..]
  }

  lemma JoinedNothing(lines: seq<Bytes>)
    requires lines != []
    ensures [[] + lines[0]] + lines[1..] == lines
  {
    assert [] + lines[0] == lines[0];
  }

  /** The decoder's list surgery: prefix the first line, and keep back an unterminated last one. */
  function Surgery(b: Bytes, lines: seq<Bytes>, terminated: bool): Cut
    requires lines != []
  {
    var joined := Joined(b, lines);
    if terminated then Cut(joined, []) else Cut(joined[..|joined| - 1], joined[|joined| - 1])
  }

  lemma SurgeryIsPrefixing(b: Bytes, lines: seq<Bytes>, terminated: bool, c: Cut)
    requires lines != [] && c.lines != []
    requires c == if terminated then Cut(lines, []) else Cut(lines[..|lines| - 1], lines[|lines| - 1])
    ensures Cut([b + c.lines[0]] + c.lines[1..], c.rest) == Surgery(b, lines, terminated)
  {
    assert c.lines[0] == lines[0];
    JoinedNothing(lines);
    JoinedNothing(c.lines);
  }

  /** What the decoder makes of `splitlines` when `b` is already buffered. */
  lemma LinesAfterPrefix(b: Bytes, text: Bytes)
    requires BreakFree(b) && text != []
    ensures var lines, terminated := Lines(text), IsBreak(text[|text| - 1]);
            && lines != []
            && CutOf(b + text) ==
               if |lines| == 1 && !terminated then Cut([], b + lines[0]) else Surgery(b, lines, terminated)
  {
    LinesByCut(text);
    CutWithPrefix(b, text);
    if CutOf(text).lines != [] {
      SurgeryIsPrefixing(b, Lines(text), IsBreak(text[|text| - 1]), CutOf(text));
    }
  }

  // ---------------------------------------------------------------------
  // The decoder
  // ---------------------------------------------------------------------

  class BytesLineDecoder {
    var buffer: Bytes
    var trailingCr: bool

    constructor ()
      ensures Valid() && Pending() == []
    {
      buffer, trailingCr := [], false;
    }

    ghost predicate Valid()
      reads this
    {
      BreakFree(buffer)
    }

    /** The input not yet returned as lines. */
    ghost function Pending(): Bytes
      reads this
    {
      buffer + if trailingCr then [CR] else []
    }

    /** A final `\r` is held back until the next call shows whether a `\n` follows. */
    method Decode(text: Bytes) returns (lines: seq<Bytes>)
      requires Valid()
      modifies this
      ensures Valid()
      ensures var s := old(Pending()) + text;
              trailingCr == EndsInCr(s) && Cut(lines, buffer) == CutOf(WithoutFinalCr(s))
    {
      ghost var target := CutOf(WithoutFinalCr(Pending() + text));
      var text := ReleaseCr(text);
      assert target == CutOf(buffer + text);
      if text == [] {
        NoBreak(buffer);
        assert buffer + text == buffer;
        return [];
      }
      LinesAfterPrefix(buffer, text);
      LinesOfCut(buffer + text);
      lines := TakeLines(Lines(text), IsBreak(text[|text| - 1]));
    }

    /** Joins the buffer with the first of the lines a text was split into, and keeps back an unterminated last one. */
    method TakeLines(split: seq<Bytes>, trailingNewline: bool) returns (lines: seq<Bytes>)
      requires split != []
      modifies this`buffer
      ensures Cut(lines, buffer) ==
              if |split| == 1 && !trailingNewline then Cut([], old(buffer) + split[0])
              else Surgery(old(buffer), split, trailingNewline)
    {
      lines := split;
      if |lines| == 1 && !trailingNewline {
        buffer := buffer + lines[0];
        return [];
      }
      if buffer != [] {
        lines := [buffer + lines[0]] + lines[1..];
        buffer := [];
      }
      if !trailingNewline {
        buffer := lines[|lines| - 1];
        lines := lines[..|lines| - 1];
      }
    }

    /** Puts a held-back `\r` in front of the text and holds back its own final one. */
    method ReleaseCr(text: Bytes) returns (r: Bytes)
      requires Valid()
      modifies this`trailingCr
      ensures var s := old(Pending()) + text;
              trailingCr == EndsInCr(s) && WithoutFinalCr(s) == buffer + r
    {
      TextOfPending(buffer, trailingCr, text);
      r := if trailingCr then [CR] + text else text;
      trailingCr := EndsInCr(r);
      r := WithoutFinalCr(r);
    }

    method Flush() returns (lines: seq<Bytes>)
      requires Valid()
      modifies this
      ensures Valid() && Pending() == []
      ensures lines == Lines(old(Pending()))
    {
      LinesOfPending(buffer);
      assert buffer + [] == buffer;
      if buffer == [] && !trailingCr {
        return [];
      }
      lines := [buffer];
      buffer := [];
      trailingCr := false;
    }
  }

  lemma LinesOfPending(b: Bytes)
    requires BreakFree(b)
    ensures Lines(b) == if b == [] then [] else [b]
    ensures Lines(b + [CR]) == [b]
  {
    NoBreak(b);
    LinesPeel(b, [CR], []);
    assert b + [CR] + [] == b + [CR];
    assert Lines([]) == [];
  }

  /** What a decoder returned so far settles all it was fed but the pending part, whatever follows. */
  ghost predicate Settled(fed: Bytes, returned: seq<Bytes>, pending: Bytes) {
    forall t :: Lines(fed + t) == returned + Lines(pending + t)
  }

  lemma ChunkThen(s: Bytes, t: Bytes)
    ensures var c := CutOf(WithoutFinalCr(s)); var held := if EndsInCr(s) then [CR] else [];
            Lines(s + t) == c.lines + Lines(c.rest + held + t)
  {
    var c, held := CutOf(WithoutFinalCr(s)), if EndsInCr(s) then [CR] else [];
    assert s == WithoutFinalCr(s) + held;
    Assoc(WithoutFinalCr(s), held, t);
    Assoc(c.rest, held, t);
    CutSettles(WithoutFinalCr(s), held + t);
  }

  /** One decoder call keeps that promise, even with a `\r\n` cut in the middle and in runs of `\r`. */
  lemma ChunkSettles(fed: Bytes, returned: seq<Bytes>, pending: Bytes, chunk: Bytes)
    requires Settled(fed, returned, pending)
    ensures var s := pending + chunk; var c := CutOf(WithoutFinalCr(s));
            Settled(fed + chunk, returned + c.lines, c.rest + if EndsInCr(s) then [CR] else [])
  {
    var s := pending + chunk;
    var c, held := CutOf(WithoutFinalCr(s)), if EndsInCr(s) then [CR] else [];
    forall t ensures Lines(fed + chunk + t) == returned + c.lines + Lines(c.rest + held + t) {
      Assoc(fed, chunk, t);
      Assoc(pending, chunk, t);
      ChunkThen(s, t);
      Assoc(returned, c.lines, Lines(c.rest + held + t));
    }
  }

  /** `iter_lines_raw`: however the bytes are cut into chunks, the lines are those of the whole. */
  method IterLines(chunks: seq<Bytes>) returns (lines: seq<Bytes>)
    ensures lines == Lines(Flatten(chunks))
  {
    var decoder := new BytesLineDecoder();
    lines := [];
    for i := 0 to |chunks|
      invariant decoder.Valid()
      invariant Settled(Flatten(chunks[..i]), lines, decoder.Pending())
    {
      ChunkSettles(Flatten(chunks[..i]), lines, decoder.Pending(), chunks[i]);
      FlattenNext(chunks, i);
      var more := decoder.Decode(chunks[i]);
      lines := lines + more;
    }
    assert chunks[..|chunks|] == chunks;
    SettledWhole(Flatten(chunks), lines, decoder.Pending());
    var last := decoder.Flush();
    lines := lines + last;
  }

  lemma SettledWhole(fed: Bytes, returned: seq<Bytes>, pending: Bytes)
    requires Settled(fed, returned, pending)
    ensures Lines(fed) == returned + Lines(pending)
  {
    assert Lines(fed + []) == returned + Lines(pending + []);
    assert fed + [] == fed && pending + [] == pending;
  }

  // ---------------------------------------------------------------------
  // Printing lines
  // ---------------------------------------------------------------------

  datatype Ending = EndLf | EndCr | EndCrLf
  {
    function Text(): Bytes {
      match this
      case EndLf => [LF]
      case EndCr => [CR]
      case EndCrLf => [CR, LF]
    }
  }

  function Render(lines: seq<Bytes>, ends: seq<Ending>): Bytes
    requires |lines| == |ends|
  {
    if lines == [] then [] else lines[0] + ends[0].Text() + Render(lines[1..], ends[1..])
  }

  /** Line `i` ends in `\r` and the next line is empty and ends in `\n`: on the wire, one `\r\n`. */
  predicate Collides(lines: seq<Bytes>, ends: seq<Ending>, i: nat)
    requires |lines| == |ends| && i < |lines|
  {
    ends[i] == EndCr && i + 1 < |lines| && lines[i + 1] == [] && ends[i + 1] == EndLf
  }

  ghost predicate AllBreakFree(lines: seq<Bytes>) {
    forall i | 0 <= i < |lines| :: BreakFree(lines[i])
  }

  /** The lines a reader sees: the empty line of each collision is lost. */
  ghost function Surviving(lines: seq<Bytes>, ends: seq<Ending>): seq<Bytes>
    requires |lines| == |ends|
  {
    if lines == [] then []
    else [lines[0]] + if Collides(lines, ends, 0) then Surviving(lines[2..], ends[2..]) else Surviving(lines[1..], ends[1..])
  }

  lemma RenderStartsWithLf(lines: seq<Bytes>, ends: seq<Ending>)
    requires |lines| == |ends| && AllBreakFree(lines)
    ensures StartsWithLf(Render(lines, ends)) <==> lines != [] && lines[0] == [] && ends[0] == EndLf
  {
    if lines != [] && lines[0] != [] {
      assert Render(lines, ends)[0] == lines[0][0];
    }
  }

  lemma FirstLine(line: Bytes, end: Ending, t: Bytes)
    requires BreakFree(line)
    ensures Lines(line + end.Text() + t)
            == [line] + Lines(if end == EndCr && StartsWithLf(t) then t[1..] else t)
  {
    if end == EndCr && StartsWithLf(t) {
      assert line + [CR] + t == line + [CR, LF] + t[1..];
      LinesPeel(line, [CR, LF], t[1..]);
    } else {
      LinesPeel(line, end.Text(), t);
    }
  }

  lemma {:induction false} LinesOfRender(lines: seq<Bytes>, ends: seq<Ending>)
    requires |lines| == |ends| && AllBreakFree(lines)
    ensures Lines(Render(lines, ends)) == Surviving(lines, ends)
    decreases |lines|
  {
    if lines == [] {
    } else {
      var t := Render(lines[1..], ends[1..]);
      FirstLine(lines[0], ends[0], t);
      RenderStartsWithLf(lines[1..], ends[1..]);
      if Collides(lines, ends, 0) {
        assert lines[1..][1..] == lines[2..] && ends[1..][1..] == ends[2..];
        assert t == [LF] + Render(lines[2..], ends[2..]);
        LinesOfRender(lines[2..], ends[2..]);
      } else {
        LinesOfRender(lines[1..], ends[1..]);
      }
    }
  }

  lemma {:induction false} SurvivingAllOrFewer(lines: seq<Bytes>, ends: seq<Ending>)
    requires |lines| == |ends|
    ensures |Surviving(lines, ends)| <= |lines|
    ensures (forall i | 0 <= i < |lines| :: !Collides(lines, ends, i)) ==> Surviving(lines, ends) == lines
    ensures (exists i | 0 <= i < |lines| :: Collides(lines, ends, i)) ==> |Surviving(lines, ends)| < |lines|
    decreases |lines|
  {
    if lines == [] {
    } else {
      if Collides(lines, ends, 0) {
        SurvivingAllOrFewer(lines[2..], ends[2..]);
      } else {
        var ls, es := lines[1..], ends[1..];
        SurvivingAllOrFewer(ls, es);
        forall i | 0 <= i < |ls| ensures Collides(ls, es, i) <==> Collides(lines, ends, i + 1) {
        }
        assert lines == [lines[0]] + ls;
        if i :| 0 <= i < |lines| && Collides(lines, ends, i) {
          assert Collides(ls, es, i - 1);
        }
      }
    }
  }

  /**
   * Break-free lines printed with any mix of endings are read back exactly if no line ending in `\r` is
   * followed by an empty line ending in `\n`.
   */
  lemma RenderRoundTripIff(lines: seq<Bytes>, ends: seq<Ending>)
    requires |lines| == |ends| && AllBreakFree(lines)
    ensures Lines(Render(lines, ends)) == lines <==> forall i | 0 <= i < |lines| :: !Collides(lines, ends, i)
  {
    LinesOfRender(lines, ends);
    SurvivingAllOrFewer(lines, ends);
  }
}
