/**
 The round trip of the two stream parsers on standard framing: for each kind of line end the exact
 condition under which each of them returns what was sent, and what they make of a stream that
 ends in the middle of an event.
 */
module SseRoundTrip {
  import opened Wrappers
  import opened Sse
  import opened SseFraming
  import opened SseLineEnds

  /* ---------- lines as the Python parser splits them ---------- */

  /** Without any of the characters that end a line for Python. */
  predicate Unbroken(s: string) {
    forall c :: c in s ==> !PyBreak(c)
  }

  predicate AllUnbroken(lines: seq<string>) {
    forall i :: 0 <= i < |lines| ==> Unbroken(lines[i])
  }

  /** The pieces into which Python splits a line of the standard. */
  function Pieces(line: string): seq<string> {
    match FirstIndex(line, PyBreak)
    case None => [line]
    case Some(i) => [line[..i]] + Pieces(line[i + 1..])
  }

  function AllPieces(lines: seq<string>): seq<string> {
    if lines == [] then [] else Pieces(lines[0]) + AllPieces(lines[1..])
  }

  lemma FirstBreak(line: string, e: LineEnd, rest: string)
    requires Unbroken(line)
    ensures var s := line + Eol(e) + rest;
      FirstIndex(s, PyBreak) == Some(|line|) && s[..|line|] == line && s[|line| + |Eol(e)|..] == rest
  {
    var s := line + Eol(e) + rest;
    assert forall j :: 0 <= j < |line| ==> s[j] == line[j] && line[j] in line;
    FirstIndexIs(s, PyBreak, |line|);
  }

  lemma FirstPiece(line: string, e: LineEnd, rest: string)
    requires Unbroken(line) && (e == CR && rest != "" ==> rest[0] != '\n')
    ensures PyLines(line + Eol(e) + rest) == [line] + PyLines(rest)
  {
    FirstBreak(line, e, rest);
    var s := line + Eol(e) + rest;
    assert e != LF ==> s[|line|] == '\r' && (e == CRLF <==> |line| + 1 < |s| && s[|line| + 1] == '\n');
  }

  lemma BreakInside(line: string, i: nat, more: string)
    requires OneLine(line) && FirstIndex(line, PyBreak) == Some(i)
    ensures PyLines(line + more) == [line[..i]] + PyLines(line[i + 1..] + more)
  {
    var s := line + more;
    assert line[i] in line;
    FirstIndexIs(s, PyBreak, i);
    assert s[..i] == line[..i] && s[i + 1..] == line[i + 1..] + more;
  }

  /** The first line of a text, for each kind of line end. */
  lemma {:induction false} FirstPieces(line: string, e: LineEnd, rest: string)
    requires OneLine(line) && (e == CR && rest != "" ==> rest[0] != '\n')
    ensures PyLines(line + Eol(e) + rest) == Pieces(line) + PyLines(rest)
    decreases |line|
  {
    match FirstIndex(line, PyBreak) {
      case None =>
        assert forall c :: c in line ==> exists j :: 0 <= j < |line| && line[j] == c;
        FirstPiece(line, e, rest);
      case Some(i) =>
        var tail := line[i + 1..];
        assert forall c :: c in tail ==> c in line;
        Associative(line, Eol(e), rest);
        BreakInside(line, i, Eol(e) + rest);
        FirstPieces(tail, e, rest);
        Associative(tail, Eol(e), rest);
        Associative([line[..i]], Pieces(tail), PyLines(rest));
    }
  }

  /** Splitting a text of lines splits each line into its pieces. */
  lemma {:induction false} PyLinesOfText(lines: seq<string>, e: LineEnd)
    requires Plain(lines)
    ensures PyLines(TextOf(lines, e)) == AllPieces(lines)
  {
    if lines != [] {
      PyLinesOfText(lines[1..], e);
      assert PlainLine(lines[0]);
      if e == CR {
        TextStart(lines[1..], e);
      }
      FirstPieces(lines[0], e, TextOf(lines[1..], e));
    }
  }

  lemma {:induction false} PiecesOfUnbroken(lines: seq<string>)
    requires AllUnbroken(lines)
    ensures AllPieces(lines) == lines
  {
    if lines != [] {
      PiecesOfUnbroken(lines[1..]);
      assert Unbroken(lines[0]);
      assert Pieces(lines[0]) == [lines[0]];
    }
  }

  /* ---------- what the Python parser can never return ---------- */

  /** Of the characters that end a line for Python only line feeds, as joining puts them in. */
  predicate OnlyFeeds(s: string) {
    forall c :: c in s && PyBreak(c) ==> c == '\n'
  }

  predicate AllOnlyFeeds(payloads: seq<string>) {
    forall i :: 0 <= i < |payloads| ==> OnlyFeeds(payloads[i])
  }

  lemma {:induction false} PyLinesUnbroken(s: string)
    ensures AllUnbroken(PyLines(s))
    decreases |s|
  {
    match FirstIndex(s, PyBreak) {
      case None =>
      case Some(i) =>
        PyLinesUnbroken(s[AfterBreak(s, i)..]);
        assert Unbroken(s[..i]);
    }
  }

  lemma {:induction false} TrimStartUnbroken(s: string)
    requires Unbroken(s)
    ensures Unbroken(TrimStart(s, PyBlank))
  {
    if s != "" && PyBlank(s[0]) {
      assert forall c :: c in s[1..] ==> c in s;
      TrimStartUnbroken(s[1..]);
    }
  }

  lemma {:induction false} JoinOnlyFeeds(lines: seq<string>)
    requires AllUnbroken(lines)
    ensures OnlyFeeds(Join(lines))
  {
    if |lines| > 1 {
      JoinOnlyFeeds(lines[1..]);
      assert Unbroken(lines[0]);
    } else if |lines| == 1 {
      assert Unbroken(lines[0]);
    }
  }

  lemma {:induction false} PyEventsOnlyFeeds(lines: seq<string>, pending: seq<string>)
    requires AllUnbroken(lines) && AllUnbroken(pending)
    ensures AllOnlyFeeds(PyEvents(lines, pending))
  {
    JoinOnlyFeeds(pending);
    if lines != [] {
      var line := lines[0];
      assert Unbroken(line);
      if IsData(line) {
        assert forall c :: c in line[|DATA|..] ==> c in line;
        TrimStartUnbroken(line[|DATA|..]);
        PyEventsOnlyFeeds(lines[1..], pending + [TrimStart(line[|DATA|..], PyBlank)]);
      } else if line == "" && pending != [] {
        PyEventsOnlyFeeds(lines[1..], []);
      } else {
        PyEventsOnlyFeeds(lines[1..], pending);
      }
    }
  }

  /** Whatever the text, the Python parser returns no payload with one of its other line breaks. */
  lemma PyNeverReturnsBreaks(text: string, payloads: seq<string>, i: nat)
    requires i < |payloads| && !OnlyFeeds(payloads[i])
    ensures PyEvents(PyLines(text), []) != payloads
  {
    PyLinesUnbroken(text);
    PyEventsOnlyFeeds(PyLines(text), []);
  }

  /* ---------- when the Python parser is right ---------- */

  /** No data of the stream has a line break of Python in it. */
  predicate DataUnbroken(events: seq<Event>) {
    forall i :: 0 <= i < |events| ==> AllUnbroken(Texts(events[i]))
  }

  /** No comment and no other field has one. */
  predicate OthersUnbroken(events: seq<Event>) {
    forall i, j :: 0 <= i < |events| && 0 <= j < |events[i]| && events[i][j].Other? ==> Unbroken(events[i][j].text)
  }

  lemma {:induction false} InJoin(texts: seq<string>, i: nat, c: char)
    requires i < |texts| && c in texts[i]
    ensures c in Join(texts)
  {
    if i > 0 {
      InJoin(texts[1..], i - 1, c);
    }
  }

  lemma {:induction false} TextsAreLines(event: Event)
    requires AllWellFormed(event)
    ensures forall i :: 0 <= i < |Texts(event)| ==> OneLine(Texts(event)[i])
    ensures AllUnbroken(Texts(event)) ==>
              forall j :: 0 <= j < |event| && event[j].Data? ==> Unbroken(event[j].text)
  {
    if event != [] {
      TextsAreLines(event[1..]);
      var head := if event[0].Data? then [event[0].text] else [];
      assert Texts(event) == head + Texts(event[1..]);
      if AllUnbroken(Texts(event)) {
        assert event[0].Data? ==> Texts(event)[0] == event[0].text;
        assert forall i :: 0 <= i < |Texts(event[1..])| ==> Texts(event[1..])[i] == Texts(event)[i + |head|];
        assert forall j :: 1 <= j < |event| ==> event[j] == event[1..][j - 1];
      }
    }
  }

  /** Data with a line break of Python is in some payload. */
  lemma {:induction false} BrokenPayload(events: seq<Event>) returns (k: nat)
    requires AllWellFramed(events) && !DataUnbroken(events)
    ensures k < |Payloads(events)| && !OnlyFeeds(Payloads(events)[k])
  {
    var event := events[0];
    if AllUnbroken(Texts(event)) {
      assert !DataUnbroken(events[1..]) by {
        var i :| 0 <= i < |events| && !AllUnbroken(Texts(events[i]));
        assert events[1..][i - 1] == events[i];
      }
      k := BrokenPayload(events[1..]);
      k := k + |Payload(event)|;
    } else {
      k := 0;
      TextsAreLines(event);
      var i :| 0 <= i < |Texts(event)| && !Unbroken(Texts(event)[i]);
      var c :| c in Texts(event)[i] && PyBreak(c);
      InJoin(Texts(event), i, c);
      assert c != '\n' && c in Payloads(events)[0];
    }
  }

  lemma WrittenUnbroken(event: Event)
    requires forall j :: 0 <= j < |event| ==> Unbroken(event[j].text)
    ensures AllUnbroken(WrittenLines(event))
  {
    forall j | 0 <= j < |event|
      ensures |WrittenLines(event)| == |event| && Unbroken(WrittenLines(event)[j])
    {
      WrittenAt(event, j);
      HeadUnbroken(event[j]);
    }
    if event == [] {
      assert WrittenLines(event) == [];
    }
  }

  lemma HeadUnbroken(l: Line)
    requires Unbroken(l.text)
    ensures Unbroken(Written(l))
  {
  }

  lemma {:induction false} LinesUnbroken(events: seq<Event>)
    requires AllWellFramed(events) && DataUnbroken(events) && OthersUnbroken(events)
    ensures AllUnbroken(Lines(events))
  {
    if events != [] {
      assert OthersUnbroken(events[1..]) by {
        assert forall i :: 0 <= i < |events[1..]| ==> events[1..][i] == events[i + 1];
      }
      LinesUnbroken(events[1..]);
      TextsAreLines(events[0]);
      assert forall j :: 0 <= j < |events[0]| ==> Unbroken(events[0][j].text);
      WrittenUnbroken(events[0]);
    }
  }

  /** With comments and other fields free of Python's other line breaks: the Python parser returns the
      payloads if and only if no data has such a break or starts with a blank. */
  lemma PyIff(events: seq<Event>, e: LineEnd)
    requires AllWellFramed(events)
    ensures !DataUnbroken(events) ==> PyEvents(PyLines(Encode(events, e)), []) != Payloads(events)
    ensures OthersUnbroken(events) ==>
              (PyEvents(PyLines(Encode(events, e)), []) == Payloads(events)
               <==> DataUnbroken(events) && AllClean(events, PyBlank, true))
  {
    if !DataUnbroken(events) {
      var k := BrokenPayload(events);
      PyNeverReturnsBreaks(Encode(events, e), Payloads(events), k);
    } else if OthersUnbroken(events) {
      StreamLinesPlain(events);
      PyLinesOfText(Lines(events), e);
      LinesUnbroken(events);
      PiecesOfUnbroken(Lines(events));
      PyEncoded(events, []);
      assert Lines(events) + [] == Lines(events);
      ReadAsIff(events, PyBlank, true);
    }
  }

  /* ---------- the round trip ---------- */

  /** When the TypeScript parser returns the payloads of a stream. */
  predicate ReadRight(events: seq<Event>, e: LineEnd) {
    match e
    case LF => AllClean(events, JsBlank, false)
    case CRLF => |Payloads(events)| <= 1 && !EndsBlank(events) && AllClean(events, JsBlank, false)
    case CR =>
      Payloads(events) == [] || (|AllLines(events)| == 1 && !EndsBlank(events) && AllClean(events, JsBlank, false))
  }

  /** On line feeds the TypeScript parser reads every event by itself. */
  lemma ReadOnFeeds(events: seq<Event>)
    requires AllWellFramed(events)
    ensures EventsOf(Encode(events, LF)) == ReadAs(events, JsBlank, false)
  {
    StreamLinesPlain(events);
    EventsOfLines(Lines(events));
    GroupEncoded(events);
  }

  /** On standard framing, with comments, other fields, several data lines per event, empty data and
      each kind of line end: the TypeScript parser, however the text is cut into pieces, returns the
      payloads exactly under the condition above, and the Python parser, if comments and other
      fields have none of its other line breaks, exactly if no data has one or starts with a blank. */
  lemma FramingRoundTrip(events: seq<Event>, e: LineEnd, pieces: seq<string>)
    requires AllWellFramed(events)
    requires Concat(pieces) == Encode(events, e)
    ensures EventsOf(Concat(pieces)) == Payloads(events) <==> ReadRight(events, e)
    ensures OthersUnbroken(events) ==>
              (PyEvents(PyLines(Encode(events, e)), []) == Payloads(events)
               <==> DataUnbroken(events) && AllClean(events, PyBlank, true))
  {
    PyIff(events, e);
    match e {
      case LF =>
        ReadOnFeeds(events);
        ReadAsIff(events, JsBlank, false);
      case CRLF =>
        CrlfJoinsEverything(events);
        DispatchIff(events);
      case CR => CrIff(events);
    }
  }

  /* ---------- streams that end inside an event ---------- */

  lemma {:induction false} NoFeedPair(lines: seq<string>)
    requires Plain(lines) && forall i :: 1 <= i < |lines| ==> lines[i] != ""
    ensures forall j :: !EmptyLineAt(TextOf(lines, LF), j)
  {
    if lines != [] {
      var line, tail := lines[0], TextOf(lines[1..], LF);
      NoFeedPair(lines[1..]);
      assert PlainLine(line);
      if tail != "" {
        PlainStart(lines[1]);
        assert tail[0] == lines[1][0];
        EmptyLinesShift(line, tail, |line| + 1);
      } else {
        assert lines[1..] == [];
        EndedLine(line);
      }
    }
  }

  lemma EndedLine(line: string)
    requires OneLine(line)
    ensures forall j :: !EmptyLineAt(line + "\n" + "", j)
  {
    var s := line + "\n" + "";
    assert forall j :: 0 <= j < |line| ==> s[j] == line[j] && line[j] in line;
  }

  lemma CoreOfOpen(lines: seq<string>, open: seq<string>)
    requires lines == [] || lines == [""]
    requires open != [] && open[0] != "" && open[|open| - 1] != ""
    ensures Core(lines + open) == open
  {
    assert [""] + open != [] && ([""] + open)[1..] == open;
    assert [] + open == open;
  }

  /** The event of lines that no empty line ends: the last one is trimmed. */
  function OwnEvent(open: seq<string>): seq<string>
    requires open != []
  {
    Dispatch(DataOf(open[..|open| - 1] + [TrimEnd(open[|open| - 1], JsBlank)], JsBlank))
  }

  /** Lines without an empty line after the first: one block, parsed at the end. */
  lemma OpenBlock(lines: seq<string>, open: seq<string>)
    requires lines == [] || lines == [""]
    requires Plain(open) && NoneEmpty(open) && open != []
    ensures EventsOf(TextOf(lines + open, LF))
         == OwnEvent(open)
  {
    var all, last := lines + open, open[|open| - 1];
    var text := TextOf(all, LF);
    assert Plain(all);
    NoFeedPair(all);
    assert Drain(text) == Drained([], text);
    CoreTrims(all, LF);
    CoreOfOpen(lines, open);
    assert PlainLine(last);
    TrimmedOneLine(last);
    BodyParses(open[..|open| - 1], TrimEnd(last, JsBlank), LF);
  }

  lemma OpenRegroups(front: seq<string>, last: string, rest: seq<string>, open: seq<string>)
    ensures (front + ([last] + ([""] + rest))) + open == front + ([last] + ([""] + (rest + open)))
  {
  }

  /** The first of the complete lines' blocks. */
  lemma BlockBeforeOpen(lines: seq<string>, open: seq<string>, k: nat)
    requires Plain(lines) && Plain(open)
    requires 1 <= k < |lines| && lines[k] == "" && forall i :: 1 <= i < k ==> lines[i] != ""
    ensures EventsOf(TextOf(lines + open, LF))
         == Dispatch(DataOf(lines[..k], JsBlank)) + EventsOf(TextOf(lines[k + 1..] + open, LF))
  {
    AtBlock(lines, k);
    OpenRegroups(lines[..k - 1], lines[k - 1], lines[k + 1..], open);
    FirstBlock(lines[..k - 1], lines[k - 1], lines[k + 1..] + open);
  }

  lemma OpenAfterFirst(lines: seq<string>, open: seq<string>, k: nat)
    requires Plain(lines) && Plain(open) && open != []
    requires 1 <= k < |lines| && lines[k] == "" && forall i :: 1 <= i < k ==> lines[i] != ""
    requires EventsOf(TextOf(lines[k + 1..] + open, LF)) == Group(lines[k + 1..], []) + OwnEvent(open)
    ensures EventsOf(TextOf(lines + open, LF)) == Group(lines, []) + OwnEvent(open)
  {
    BlockBeforeOpen(lines, open, k);
    GroupBlock(lines, k);
    Associative(Dispatch(DataOf(lines[..k], JsBlank)), Group(lines[k + 1..], []), OwnEvent(open));
  }

  /** Complete lines followed by lines that no empty line ends. */
  lemma {:induction false} EventsOfOpen(lines: seq<string>, open: seq<string>)
    requires Plain(lines) && (lines != [] ==> lines[|lines| - 1] == "")
    requires Plain(open) && NoneEmpty(open) && open != []
    ensures EventsOf(TextOf(lines + open, LF)) == Group(lines, []) + OwnEvent(open)
    decreases |lines|
  {
    if |lines| <= 1 {
      assert lines == [] || lines == [""];
      OpenBlock(lines, open);
      OneEmptyLine();
    } else {
      var k := NextEmpty(lines, 1);
      RestEndsEmpty(lines, k);
      EventsOfOpen(lines[k + 1..], open);
      OpenAfterFirst(lines, open, k);
    }
  }

  lemma {:induction false} TrimStartFeed(b: string)
    ensures var trimmed := TrimStart(b, JsBlank);
      TrimStart(b + "\n", JsBlank) == if trimmed == "" then "" else trimmed + "\n"
  {
    var s := b + "\n";
    if b == "" {
      assert s[1..] == "";
    } else if JsBlank(b[0]) {
      TrimStartFeed(b[1..]);
      assert s[1..] == b[1..] + "\n";
    }
  }

  lemma TrimFinalFeed(b: string)
    ensures TrimEnd(TrimStart(b + "\n", JsBlank), JsBlank) == TrimEnd(TrimStart(b, JsBlank), JsBlank)
  {
    TrimStartFeed(b);
    EolBlank(LF, TrimStart(b, JsBlank));
  }

  lemma EndOfRest(s: string, m: nat, end: string)
    requires m <= |s| && |end| <= |s| - m && end == s[m..][|s| - m - |end|..]
    ensures end == s[|s| - |end|..]
  {
  }

  /** What is left in the buffer is the end of the text, without a complete block. */
  lemma {:induction false} BufferIsTheEnd(s: string)
    ensures Boundary(Drain(s).buffer).None?
    ensures |Drain(s).buffer| <= |s| && Drain(s).buffer == s[|s| - |Drain(s).buffer|..]
    decreases |s|
  {
    match Boundary(s) {
      case None =>
      case Some(i) =>
        BufferIsTheEnd(s[i + 2..]);
        EndOfRest(s, i + 2, Drain(s).buffer);
    }
  }

  lemma NoPairAfterFeed(b: string)
    requires Boundary(b).None? && (b != "" ==> b[|b| - 1] != '\n')
    ensures Drain(b + "\n") == Drained([], b + "\n")
  {
    assert forall j :: !EmptyLineAt(b, j);
    assert forall j :: 0 <= j < |b| - 1 ==> EmptyLineAt(b + "\n", j) == EmptyLineAt(b, j);
  }

  /** For neither parser does it matter whether the last line is ended. */
  lemma FinalFeedIsIdle(s: string)
    requires s != "" && s[|s| - 1] != '\n'
    ensures EventsOf(s + "\n") == EventsOf(s)
  {
    var d := Drain(s);
    DrainAppend(s, "\n");
    BufferIsTheEnd(s);
    assert d.buffer != "" ==> d.buffer[|d.buffer| - 1] == s[|s| - 1];
    NoPairAfterFeed(d.buffer);
    TrimFinalFeed(d.buffer);
    assert d.blocks + [] == d.blocks;
  }

  lemma FirstBreakKept(s: string, i: nat)
    requires FirstIndex(s, PyBreak) == Some(i)
    ensures FirstIndex(s + "\n", PyBreak) == Some(i)
  {
    FirstIndexIs(s + "\n", PyBreak, i);
  }

  lemma BreakBeforeFeed(s: string, i: nat)
    requires i < |s| && PyBreak(s[i]) && !PyBreak(s[|s| - 1])
    ensures var t, next := s + "\n", AfterBreak(s, i);
      next < |s| && AfterBreak(t, i) == next && t[next..] == s[next..] + "\n" && t[..i] == s[..i]
  {
    assert i + 1 < |s|;
  }

  lemma NoBreakBeforeFeed(s: string)
    requires s != "" && FirstIndex(s, PyBreak).None?
    ensures PyLines(s + "\n") == [s] == PyLines(s)
  {
    var t := s + "\n";
    FirstIndexIs(t, PyBreak, |s|);
    assert t[..|s|] == s && t[|s| + 1..] == "";
  }

  lemma {:induction false} PyFinalFeedIsIdle(s: string)
    requires s != "" && !PyBreak(s[|s| - 1])
    ensures PyLines(s + "\n") == PyLines(s)
    decreases |s|
  {
    match FirstIndex(s, PyBreak) {
      case None => NoBreakBeforeFeed(s);
      case Some(i) =>
        FirstBreakKept(s, i);
        BreakBeforeFeed(s, i);
        PyFinalFeedIsIdle(s[AfterBreak(s, i)..]);
    }
  }

  /** The text of some events and of one that no empty line ends, without the end of its last line. */
  function CutBody(events: seq<Event>, event: Event): string
    requires event != []
  {
    TextOf(Lines(events) + WrittenLines(event[..|event| - 1]), LF) + Written(event[|event| - 1])
  }

  /** The same, with its last line ended or not. */
  function CutText(events: seq<Event>, event: Event, ended: bool): string
    requires event != []
  {
    if ended then CutBody(events, event) + "\n" else CutBody(events, event)
  }

  lemma CutTextIs(events: seq<Event>, event: Event)
    requires event != []
    ensures CutText(events, event, true) == TextOf(Lines(events) + WrittenLines(event), LF)
  {
    var front, last := event[..|event| - 1], event[|event| - 1];
    assert event == front + [last];
    WrittenConcat(front, [last]);
    assert WrittenLines([last]) == [Written(last)];
    Associative(Lines(events), WrittenLines(front), [Written(last)]);
    TextOfSnoc(Lines(events) + WrittenLines(front), Written(last), LF);
  }

  lemma CutBodyEnd(events: seq<Event>, event: Event)
    requires AllWellFormed(event) && event != []
    ensures var body := CutBody(events, event);
      && body != "" && body[|body| - 1] != '\n'
      && (Unbroken(event[|event| - 1].text) ==> !PyBreak(body[|body| - 1]))
  {
    var l := event[|event| - 1];
    var last := Written(l);
    WrittenPlain(l);
    assert last[|last| - 1] in last;
    if Unbroken(l.text) {
      HeadUnbroken(l);
    }
  }

  /** With or without the line feed at its end the text of a cut event is read alike. */
  lemma CutTextReads(events: seq<Event>, event: Event, ended: bool)
    requires AllWellFramed(events) && AllWellFormed(event) && event != []
    ensures EventsOf(CutText(events, event, ended)) == EventsOf(CutText(events, event, true))
    ensures Unbroken(event[|event| - 1].text) ==>
              PyLines(CutText(events, event, ended)) == PyLines(CutText(events, event, true))
  {
    CutBodyEnd(events, event);
    FinalFeedIsIdle(CutBody(events, event));
    if Unbroken(event[|event| - 1].text) {
      PyFinalFeedIsIdle(CutBody(events, event));
    }
  }

  /** A stream that ends inside an event, without the empty line, whether or not its last line is ended:
      both parsers still deliver that event, the TypeScript one after trimming it at the end. */
  lemma CutStream(events: seq<Event>, event: Event, ended: bool)
    requires AllWellFramed(events) && AllWellFormed(event) && event != []
    ensures EventsOf(CutText(events, event, ended)) == ReadAs(events, JsBlank, false) + Dispatch(TrimmedTexts(event))
    ensures DataUnbroken(events + [event]) && OthersUnbroken(events + [event]) ==>
              PyEvents(PyLines(CutText(events, event, ended)), [])
                == ReadAs(events, PyBlank, true) + EventAs(event, PyBlank, true)
  {
    CutTextIs(events, event);
    CutTextReads(events, event, ended);
    CutForJs(events, event);
    if DataUnbroken(events + [event]) && OthersUnbroken(events + [event]) {
      UnbrokenParts(events, event);
      CutForPy(events, event);
    }
  }

  lemma CutForJs(events: seq<Event>, event: Event)
    requires AllWellFramed(events) && AllWellFormed(event) && event != []
    ensures EventsOf(TextOf(Lines(events) + WrittenLines(event), LF))
         == ReadAs(events, JsBlank, false) + Dispatch(TrimmedTexts(event))
  {
    var written := WrittenLines(event);
    WrittenLinesPlain(event);
    StreamLinesPlain(events);
    EventsOfOpen(Lines(events), written);
    GroupEncoded(events);
    WrittenData(event, JsBlank);
    WrittenAt(event, |event| - 1);
    TrimmedCore(written, event);
  }

  lemma UnbrokenParts(events: seq<Event>, event: Event)
    requires AllWellFormed(event) && DataUnbroken(events + [event]) && OthersUnbroken(events + [event])
    ensures DataUnbroken(events) && OthersUnbroken(events)
    ensures forall j :: 0 <= j < |event| ==> Unbroken(event[j].text)
  {
    var all := events + [event];
    assert forall i :: 0 <= i < |events| ==> all[i] == events[i];
    assert all[|events|] == event;
    TextsAreLines(event);
  }

  lemma UnbrokenConcat(a: seq<string>, b: seq<string>)
    requires AllUnbroken(a) && AllUnbroken(b)
    ensures AllUnbroken(a + b)
  {
  }

  lemma PlainPair(a: seq<string>, b: seq<string>)
    requires Plain(a) && Plain(b)
    ensures Plain(a + b)
  {
  }

  lemma CutForPy(events: seq<Event>, event: Event)
    requires AllWellFramed(events) && AllWellFormed(event)
    requires DataUnbroken(events + [event]) && OthersUnbroken(events + [event])
    ensures PyEvents(PyLines(TextOf(Lines(events) + WrittenLines(event), LF)), [])
         == ReadAs(events, PyBlank, true) + EventAs(event, PyBlank, true)
  {
    var written := WrittenLines(event);
    UnbrokenParts(events, event);
    LinesUnbroken(events);
    WrittenUnbroken(event);
    UnbrokenConcat(Lines(events), written);
    StreamLinesPlain(events);
    WrittenLinesPlain(event);
    PlainPair(Lines(events), written);
    PyLinesOfText(Lines(events) + written, LF);
    PiecesOfUnbroken(Lines(events) + written);
    PyEncoded(events, written);
    PyCut(event);
  }

  lemma PyCut(event: Event)
    requires AllWellFormed(event)
    ensures PyEvents(WrittenLines(event), []) == EventAs(event, PyBlank, true)
  {
    WrittenData(event, PyBlank);
    WrittenLinesPlain(event);
    PyCollects(WrittenLines(event), [], []);
    assert WrittenLines(event) + [] == WrittenLines(event);
    assert [] + DataOf(WrittenLines(event), PyBlank) == DataOf(WrittenLines(event), PyBlank);
  }

  lemma CleanDispatch(event: Event)
    requires Clean(event, JsBlank, false) && !EndsBlank([event])
    ensures Dispatch(TrimmedTexts(event)) == Payload(event)
  {
    var single := [event];
    assert single[1..] == [];
    assert AllLines(single) == event + [] == event;
    assert Payloads(single) == Payload(event) + [] == Payload(event);
    DispatchIff(single);
  }

  /** On streams that both parsers read right: the standard discards an event that no empty line ends, and
      both parsers deliver it, so they agree with the standard if and only if it has no data. */
  lemma CutEventIsDelivered(events: seq<Event>, event: Event, ended: bool)
    requires AllWellFramed(events) && AllWellFormed(event) && event != []
    requires DataUnbroken(events + [event]) && OthersUnbroken(events + [event])
    requires AllClean(events, PyBlank, true) && Clean(event, PyBlank, true)
    requires AllClean(events, JsBlank, false) && Clean(event, JsBlank, false) && !EndsBlank([event])
    ensures PyEvents(PyLines(CutText(events, event, ended)), []) == Payloads(events) + Payload(event)
    ensures EventsOf(CutText(events, event, ended)) == Payloads(events) + Payload(event)
    ensures Payloads(events) + Payload(event) == Payloads(events) <==> Texts(event) == []
  {
    UnbrokenParts(events, event);
    CutStream(events, event, ended);
    ReadAsIff(events, PyBlank, true);
    ReadAsIff(events, JsBlank, false);
    EventAsWeight(event, PyBlank, true);
    CleanDispatch(event);
  }

  /* ---------- witnesses ---------- */

  lemma OneDataLine(text: string)
    ensures WrittenLines([Data(true, text)]) == ["data: " + text] && Texts([Data(true, text)]) == [text]
  {
    var event := [Data(true, text)];
    assert event[1..] == [];
  }

  /** Two events of one data line each. */
  lemma TwoEvents(a: string, b: string)
    ensures var events := [[Data(true, a)], [Data(true, b)]];
      && Lines(events) == ["data: " + a, "", "data: " + b, ""]
      && Payloads(events) == [a, b]
      && AllLines(events) == [Data(true, a), Data(true, b)]
  {
    var x, y := [Data(true, a)], [Data(true, b)];
    var events, tail := [x, y], [y];
    OneDataLine(a);
    OneDataLine(b);
    assert events[1..] == tail && tail[1..] == [];
    assert Lines(tail) == ["data: " + b] + ([""] + []);
    assert Payloads(tail) == [b];
    assert AllLines(tail) == y + AllLines(tail[1..]) == y;
    assert AllLines(events) == x + y;
  }

  /** Text without any line break or blank at its ends that either parser knows. */
  predicate Solid(text: string) {
    && text != "" && Unbroken(text) && Unblank(text, JsBlank) && Unblank(text, PyBlank)
    && !JsBlank(text[|text| - 1])
  }

  lemma SolidEvent(text: string)
    requires Solid(text)
    ensures var event := [Data(true, text)];
      AllWellFormed(event) && AllUnbroken(Texts(event)) && Clean(event, PyBlank, true) && TrimBoth(text) == text
  {
    OneDataLine(text);
    assert TrimEnd(text, JsBlank) == text;
  }

  lemma SolidPair(events: seq<Event>, a: string, b: string)
    requires events == [[Data(true, a)], [Data(true, b)]] && Solid(a) && Solid(b)
    ensures AllWellFramed(events) && DataUnbroken(events) && OthersUnbroken(events) && AllClean(events, PyBlank, true)
  {
    SolidEvent(a);
    SolidEvent(b);
  }

  lemma JoinedTexts(events: seq<Event>, a: string, b: string)
    requires AllLines(events) == [Data(true, a), Data(true, b)] && Solid(a) && Solid(b)
    ensures Dispatch(AllTexts(events)) == [a + "\n" + b]
  {
    SolidEvent(a);
    SolidEvent(b);
    OneDataLine(a);
    var all, texts := AllLines(events), [a, b];
    assert all[..1] == [Data(true, a)];
    assert Stripped([a], JsBlank) == [a];
    assert AllTexts(events) == texts && texts[1..] == [b];
    assert Join(texts) == a + "\n" + b;
  }

  lemma FourLines(w: string, x: string)
    ensures TextOf([w, "", x, ""], CRLF) == w + "\r\n" + ("\r\n" + (x + "\r\n" + "\r\n"))
  {
    var l4, l3, l2, l1 := [""], [x, ""], ["", x, ""], [w, "", x, ""];
    assert l1[1..] == l2 && l2[1..] == l3 && l3[1..] == l4 && l4[1..] == [];
    assert TextOf(l4, CRLF) == "\r\n";
    assert TextOf(l3, CRLF) == x + "\r\n" + "\r\n";
    assert TextOf(l2, CRLF) == "\r\n" + (x + "\r\n" + "\r\n");
  }

  /** Two events on carriage returns with line feeds come out as one event of both payloads. */
  lemma TwoCrlfEventsJoin(a: string, b: string)
    requires Solid(a) && Solid(b)
    ensures var events := [[Data(true, a)], [Data(true, b)]];
      && Encode(events, CRLF) == "data: " + a + "\r\n" + ("\r\n" + ("data: " + b + "\r\n" + "\r\n"))
      && PyEvents(PyLines(Encode(events, CRLF)), []) == [a, b]
      && EventsOf(Encode(events, CRLF)) == [a + "\n" + b]
  {
    var events := [[Data(true, a)], [Data(true, b)]];
    TwoEvents(a, b);
    FourLines("data: " + a, "data: " + b);
    SolidPair(events, a, b);
    PyIff(events, CRLF);
    CrlfJoinsEverything(events);
    JoinedTexts(events, a, b);
  }

  lemma OneEvent(text: string)
    ensures var events := [[Data(true, text)]];
      && Lines(events) == ["data: " + text, ""] && Payloads(events) == [text]
      && Encode(events, LF) == "data: " + text + "\n" + "\n"
  {
    var event := [Data(true, text)];
    var events, lines := [event], ["data: " + text, ""];
    OneDataLine(text);
    assert events[1..] == [] && Lines(events) == lines;
    assert Payloads(events) == [text];
    assert lines[1..] == [""] && [""][1..] == [];
    assert TextOf([""], LF) == "\n";
  }

  /** A data line with one of Python's other line breaks in it is two lines. */
  lemma TwoPieces(a: string, c: char, b: string)
    requires Unbroken(a) && PyBreak(c) && Unbroken(b)
    ensures AllPieces(["data: " + (a + [c] + b), ""]) == ["data: " + a, b, ""]
  {
    var first, line := "data: " + a, "data: " + (a + [c] + b);
    assert line == first + [c] + b;
    assert forall j :: 0 <= j < |first| ==> line[j] == first[j] && first[j] in first;
    FirstIndexIs(line, PyBreak, |first|);
    assert line[..|first|] == first && line[|first| + 1..] == b;
    PiecesOfUnbroken([b]);
    PiecesOfUnbroken([""]);
    assert Pieces(b) == [b];
    assert Pieces(line) == [first, b];
    var lines := [line, ""];
    assert lines[1..] == [""];
    assert AllPieces(lines) == [first, b] + [""];
  }

  /** What the Python parser reads of the two. */
  lemma FirstPieceOnly(a: string, b: string)
    requires Unblank(a, PyBlank) && !IsData(b)
    ensures PyEvents(["data: " + a, b, ""], []) == [a]
  {
    var w := "data: " + a;
    var l3, l2, l1 := [""], [b, ""], [w, b, ""];
    assert l1[1..] == l2 && l2[1..] == l3 && l3[1..] == [];
    assert w == Written(Data(true, a));
    WrittenRest(Data(true, a), PyBlank);
    StripShortens(a, PyBlank);
    var pending := [a];
    assert Join(pending) == a;
    assert PyEvents(l1, []) == PyEvents(l2, [] + pending);
    assert [] + pending == pending;
    assert PyEvents(l3, pending) == [a] && PyEvents(l3, []) == [];
  }

  lemma BrokenClean(a: string, c: char, b: string)
    requires Solid(a) && PyBreak(c) && c != '\n' && c != '\r' && Solid(b)
    ensures var events := [[Data(true, a + [c] + b)]];
      AllWellFramed(events) && AllClean(events, JsBlank, false)
  {
    var text := a + [c] + b;
    OneDataLine(text);
    assert OneLine(text) && text[0] == a[0];
  }

  /** One event with one of Python's other line breaks in its data, such as a line separator: the Python
      parser loses what is behind it. */
  lemma BreakLosesTheRest(a: string, c: char, b: string)
    requires Solid(a) && PyBreak(c) && c != '\n' && c != '\r' && Solid(b) && !IsData(b)
    ensures var events := [[Data(true, a + [c] + b)]];
      && Encode(events, LF) == "data: " + (a + [c] + b) + "\n" + "\n"
      && EventsOf(Encode(events, LF)) == [a + [c] + b]
      && PyEvents(PyLines(Encode(events, LF)), []) == [a]
  {
    var text := a + [c] + b;
    var events := [[Data(true, text)]];
    OneEvent(text);
    BrokenClean(a, c, b);
    ReadOnFeeds(events);
    ReadAsIff(events, JsBlank, false);
    StreamLinesPlain(events);
    PyLinesOfText(Lines(events), LF);
    TwoPieces(a, c, b);
    FirstPieceOnly(a, b);
  }

  lemma LineSeparatorBreaks()
    ensures var events := [[Data(true, "a\U{2028}b")]];
      && EventsOf(Encode(events, LF)) == ["a\U{2028}b"]
      && PyEvents(PyLines(Encode(events, LF)), []) == ["a"]
  {
    BreakLosesTheRest("a", '\U{2028}', "b");
    assert "a" + ['\U{2028}'] + "b" == "a\U{2028}b";
  }
}
