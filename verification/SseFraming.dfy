/**
 Event streams in the format of section 9.2 of the WHATWG HTML Standard, and what the two parsers
 read out of their lines: the TypeScript one for line feeds.
 */
module SseFraming {
  import opened Wrappers
  import opened Sse

  /* ---------- framing ---------- */

  datatype LineEnd = LF | CRLF | CR

  function Eol(e: LineEnd): string {
    match e
    case LF => "\n"
    case CRLF => "\r\n"
    case CR => "\r"
  }

  /** A line of an event: a data field, with or without a space after the colon, or a comment or
      another field. */
  datatype Line = Data(spaced: bool, text: string) | Other(text: string)

  type Event = seq<Line>

  function Written(l: Line): string {
    match l
    case Data(spaced, text) => (if spaced then "data: " else "data:") + text
    case Other(text) => text
  }

  /** What the standard calls a line: it has no line feed and no carriage return. */
  predicate OneLine(s: string) {
    forall c :: c in s ==> c != '\n' && c != '\r'
  }

  /** A single line; data that starts with a space is written with a space after the colon, and
      anything else is not empty, no data field, and does not start with a blank. */
  predicate WellFormed(l: Line) {
    && OneLine(l.text)
    && match l
       case Data(spaced, text) => spaced || text == "" || text[0] != ' '
       case Other(text) => text != "" && !JsBlank(text[0]) && !IsData(text) && text != "data"
  }

  /** The data of an event, line by line. */
  function Texts(event: Event): seq<string> {
    if event == [] then []
    else (if event[0].Data? then [event[0].text] else []) + Texts(event[1..])
  }

  /** What an event delivers: its joined data, or nothing if it has no data field. */
  function Payload(event: Event): seq<string> {
    if Texts(event) == [] then [] else [Join(Texts(event))]
  }

  function Payloads(events: seq<Event>): seq<string> {
    if events == [] then [] else Payload(events[0]) + Payloads(events[1..])
  }

  predicate AllWellFormed(event: Event) {
    forall i :: 0 <= i < |event| ==> WellFormed(event[i])
  }

  predicate AllWellFramed(events: seq<Event>) {
    forall i :: 0 <= i < |events| ==> AllWellFormed(events[i])
  }

  function WrittenLines(event: Event): seq<string> {
    if event == [] then [] else [Written(event[0])] + WrittenLines(event[1..])
  }

  /** The lines of a stream: each event is ended by an empty line. */
  function Lines(events: seq<Event>): seq<string> {
    if events == [] then [] else WrittenLines(events[0]) + ([""] + Lines(events[1..]))
  }

  function TextOf(lines: seq<string>, e: LineEnd): string {
    if lines == [] then "" else lines[0] + Eol(e) + TextOf(lines[1..], e)
  }

  /** The framing of section 9.2 of the WHATWG HTML Standard with one kind of line end. */
  function Encode(events: seq<Event>, e: LineEnd): string {
    TextOf(Lines(events), e)
  }

  function AllLines(events: seq<Event>): Event {
    if events == [] then [] else events[0] + AllLines(events[1..])
  }

  /* ---------- lines and data ---------- */

  /** One line that does not start with a blank. */
  ghost predicate PlainLine(line: string) {
    OneLine(line) && (line != "" ==> !JsBlank(line[0]))
  }

  ghost predicate Plain(lines: seq<string>) {
    forall i :: 0 <= i < |lines| ==> PlainLine(lines[i])
  }

  predicate NoneEmpty(lines: seq<string>) {
    forall i :: 0 <= i < |lines| ==> lines[i] != ""
  }

  lemma WrittenPlain(l: Line)
    requires WellFormed(l)
    ensures PlainLine(Written(l)) && Written(l) != ""
    ensures IsData(Written(l)) <==> l.Data?
  {
  }

  /** What a parser reads of a written data line: its text without leading blanks. */
  lemma WrittenRest(l: Line, blank: char -> bool)
    requires l.Data? && blank(' ')
    ensures IsData(Written(l)) && TrimStart(Written(l)[|DATA|..], blank) == TrimStart(l.text, blank)
  {
    var rest := Written(l)[|DATA|..];
    assert rest == if l.spaced then " " + l.text else l.text;
    assert l.spaced ==> rest[1..] == l.text;
  }

  lemma {:induction false} DataOfConcat(a: seq<string>, b: seq<string>, blank: char -> bool)
    ensures DataOf(a + b, blank) == DataOf(a, blank) + DataOf(b, blank)
  {
    if a == [] {
      assert a + b == b;
    } else {
      DataOfConcat(a[1..], b, blank);
      assert (a + b)[1..] == a[1..] + b;
      Associative(if IsData(a[0]) then [TrimStart(a[0][|DATA|..], blank)] else [],
                  DataOf(a[1..], blank), DataOf(b, blank));
    }
  }

  lemma WrittenAt(event: Event, i: nat)
    requires i < |event|
    ensures |WrittenLines(event)| == |event| && WrittenLines(event)[i] == Written(event[i])
  {
    if i > 0 {
      WrittenAt(event[1..], i - 1);
    } else if |event| > 1 {
      WrittenAt(event[1..], 0);
    }
  }

  /** Some texts without their leading blanks. */
  function Stripped(texts: seq<string>, blank: char -> bool): seq<string> {
    seq(|texts|, i requires 0 <= i < |texts| => TrimStart(texts[i], blank))
  }

  lemma StrippedConcat(a: seq<string>, b: seq<string>, blank: char -> bool)
    ensures Stripped(a + b, blank) == Stripped(a, blank) + Stripped(b, blank)
  {
  }

  lemma {:induction false} WrittenData(event: Event, blank: char -> bool)
    requires AllWellFormed(event) && blank(' ')
    ensures DataOf(WrittenLines(event), blank) == Stripped(Texts(event), blank)
  {
    if event != [] {
      var l := event[0];
      WrittenData(event[1..], blank);
      assert WrittenLines(event)[1..] == WrittenLines(event[1..]);
      StrippedConcat(if l.Data? then [l.text] else [], Texts(event[1..]), blank);
      if l.Data? {
        WrittenRest(l, blank);
        assert Stripped([l.text], blank) == [TrimStart(l.text, blank)];
      } else {
        WrittenPlain(l);
      }
    }
  }

  lemma WrittenLinesPlain(event: Event)
    requires AllWellFormed(event)
    ensures Plain(WrittenLines(event)) && NoneEmpty(WrittenLines(event)) && |WrittenLines(event)| == |event|
  {
    forall i | 0 <= i < |event|
      ensures |WrittenLines(event)| == |event| && PlainLine(WrittenLines(event)[i]) && WrittenLines(event)[i] != ""
    {
      WrittenAt(event, i);
      WrittenPlain(event[i]);
    }
    if event == [] {
      assert WrittenLines(event) == [];
    }
  }

  lemma {:induction false} TextsConcat(a: Event, b: Event)
    ensures Texts(a + b) == Texts(a) + Texts(b)
  {
    if a == [] {
      assert a + b == b;
    } else {
      TextsConcat(a[1..], b);
      assert (a + b)[1..] == a[1..] + b;
      Associative(if a[0].Data? then [a[0].text] else [], Texts(a[1..]), Texts(b));
    }
  }

  /** The lines of a stream are plain, and the last one is empty. */
  lemma {:induction false} StreamLinesPlain(events: seq<Event>)
    requires AllWellFramed(events)
    ensures Plain(Lines(events))
    ensures events != [] ==> Lines(events) != [] && Lines(events)[|Lines(events)| - 1] == ""
  {
    if events != [] {
      WrittenLinesPlain(events[0]);
      StreamLinesPlain(events[1..]);
      PlainConcat(WrittenLines(events[0]), Lines(events[1..]));
    }
  }

  lemma PlainConcat(a: seq<string>, b: seq<string>)
    requires Plain(a) && Plain(b)
    ensures Plain(a + ([""] + b))
  {
    forall i | 0 <= i < |a + ([""] + b)|
      ensures PlainLine((a + ([""] + b))[i])
    {
      if i > |a| {
        assert (a + ([""] + b))[i] == b[i - |a| - 1];
      }
    }
  }

  /* ---------- the Python parser on lines ---------- */

  lemma FirstIndexIs(s: string, p: char -> bool, i: nat)
    requires i < |s| && p(s[i]) && forall j :: 0 <= j < i ==> !p(s[j])
    ensures FirstIndex(s, p) == Some(i)
  {
    var f := FirstIndex(s, p);
    assert f.Some?;
    assert !(f.value < i) && !(f.value > i);
  }

  /** Framed text never starts with a line feed, except for an empty line ended by one. */
  lemma TextStart(lines: seq<string>, e: LineEnd)
    requires Plain(lines) && (lines != [] ==> lines[0] != "" || e != LF)
    ensures TextOf(lines, e) != "" ==> TextOf(lines, e)[0] != '\n'
  {
    if lines != [] && lines[0] != "" {
      assert lines[0] in lines && lines[0][0] in lines[0];
    }
  }

  /** Lines that are not empty only collect data. */
  lemma {:induction false} PyCollects(lines: seq<string>, rest: seq<string>, pending: seq<string>)
    requires NoneEmpty(lines)
    ensures PyEvents(lines + rest, pending) == PyEvents(rest, pending + DataOf(lines, PyBlank))
  {
    if lines == [] {
      assert lines + rest == rest && pending + [] == pending;
    } else {
      var data := DataOf(lines[..1], PyBlank);
      assert lines[..1] + lines[1..] == lines;
      DataOfConcat(lines[..1], lines[1..], PyBlank);
      assert (lines + rest)[1..] == lines[1..] + rest && lines[..1][1..] == [];
      assert pending + [] == pending;
      assert data == if IsData(lines[0]) then [TrimStart(lines[0][|DATA|..], PyBlank)] else [];
      assert PyEvents(lines + rest, pending) == PyEvents(lines[1..] + rest, pending + data);
      PyCollects(lines[1..], rest, pending + data);
      assert pending + data + DataOf(lines[1..], PyBlank) == pending + DataOf(lines, PyBlank);
    }
  }

  /** What a parser reads of an event: its data without leading blanks; empty data is an event for
      the Python parser only. */
  function EventAs(event: Event, blank: char -> bool, keepEmpty: bool): seq<string> {
    var data := Stripped(Texts(event), blank);
    if data == [] || (!keepEmpty && Join(data) == "") then [] else [Join(data)]
  }

  function ReadAs(events: seq<Event>, blank: char -> bool, keepEmpty: bool): seq<string> {
    if events == [] then [] else EventAs(events[0], blank, keepEmpty) + ReadAs(events[1..], blank, keepEmpty)
  }

  /** What the Python parser makes of some collected data. */
  function PyDispatch(data: seq<string>): seq<string> {
    if data == [] then [] else [Join(data)]
  }

  lemma PyAtEmptyLine(tail: seq<string>, data: seq<string>)
    ensures PyEvents([""] + tail, data) == PyDispatch(data) + PyEvents(tail, [])
  {
    var lines := [""] + tail;
    assert lines[1..] == tail && !IsData(lines[0]);
    assert [] + PyEvents(tail, []) == PyEvents(tail, []);
  }

  /** One complete event in front of other lines. */
  lemma PyFirstEvent(event: Event, tail: seq<string>)
    requires AllWellFormed(event)
    ensures PyEvents(WrittenLines(event) + ([""] + tail), []) == EventAs(event, PyBlank, true) + PyEvents(tail, [])
  {
    var written := WrittenLines(event);
    WrittenData(event, PyBlank);
    WrittenLinesPlain(event);
    PyCollects(written, [""] + tail, []);
    assert [] + DataOf(written, PyBlank) == DataOf(written, PyBlank);
    PyAtEmptyLine(tail, DataOf(written, PyBlank));
  }

  /** The lines of complete events in front of others. */
  lemma {:induction false} PyEncoded(events: seq<Event>, rest: seq<string>)
    requires AllWellFramed(events)
    ensures PyEvents(Lines(events) + rest, []) == ReadAs(events, PyBlank, true) + PyEvents(rest, [])
  {
    if events == [] {
      assert Lines(events) + rest == rest;
    } else {
      var written, tail := WrittenLines(events[0]), Lines(events[1..]);
      PyEncoded(events[1..], rest);
      PyFirstEvent(events[0], tail + rest);
      Associative(written, [""] + tail, rest);
      Associative([""], tail, rest);
      Associative(EventAs(events[0], PyBlank, true), ReadAs(events[1..], PyBlank, true), PyEvents(rest, []));
    }
  }

  /* ---------- the TypeScript parser on line feeds ---------- */

  /** The event of some collected data; empty data is none. */
  function Dispatch(data: seq<string>): seq<string> {
    if Join(data) != "" then [Join(data)] else []
  }

  /** The events of complete lines, with some data already collected. */
  function Group(lines: seq<string>, pending: seq<string>): seq<string> {
    if lines == [] then []
    else if lines[0] == "" then Dispatch(pending) + Group(lines[1..], [])
    else Group(lines[1..], pending + DataOf(lines[..1], JsBlank))
  }

  lemma {:induction false} GroupCollects(lines: seq<string>, rest: seq<string>, pending: seq<string>)
    requires NoneEmpty(lines)
    ensures Group(lines + rest, pending) == Group(rest, pending + DataOf(lines, JsBlank))
  {
    if lines == [] {
      assert lines + rest == rest && pending + [] == pending;
    } else {
      var data := DataOf(lines[..1], JsBlank);
      assert lines[..1] + lines[1..] == lines;
      DataOfConcat(lines[..1], lines[1..], JsBlank);
      assert (lines + rest)[1..] == lines[1..] + rest && (lines + rest)[..1] == lines[..1];
      GroupCollects(lines[1..], rest, pending + data);
      assert pending + data + DataOf(lines[1..], JsBlank) == pending + DataOf(lines, JsBlank);
    }
  }

  lemma {:induction false} GroupEncoded(events: seq<Event>)
    requires AllWellFramed(events)
    ensures Group(Lines(events), []) == ReadAs(events, JsBlank, false)
  {
    if events != [] {
      var written, rest := WrittenLines(events[0]), Lines(events[1..]);
      WrittenData(events[0], JsBlank);
      WrittenLinesPlain(events[0]);
      GroupEncoded(events[1..]);
      GroupCollects(written, [""] + rest, []);
      assert [] + DataOf(written, JsBlank) == DataOf(written, JsBlank);
      assert ([""] + rest)[1..] == rest;
    }
  }

  lemma OneLineHasNoFeed(line: string)
    requires OneLine(line)
    ensures '\n' !in line && '\r' !in line
  {
  }

  lemma FirstLineOnFeed(line: string, rest: string)
    requires OneLine(line)
    ensures SplitLines(line + "\n" + rest) == [line] + SplitLines(rest)
  {
    var s, i := line + "\n" + rest, |line|;
    assert forall j :: 0 <= j < i ==> s[j] == line[j] && line[j] in line;
    FirstIndexIs(s, IsNewline, i);
    assert s[..i] == line && s[i + 1..] == rest;
    assert i > 0 ==> s[i - 1] != '\r';
  }

  lemma FirstLineOnBoth(line: string, rest: string)
    requires OneLine(line)
    ensures SplitLines(line + "\r\n" + rest) == [line] + SplitLines(rest)
  {
    var s, i := line + "\r\n" + rest, |line| + 1;
    assert forall j :: 0 <= j < |line| ==> s[j] == line[j] && line[j] in line;
    FirstIndexIs(s, IsNewline, i);
    assert s[..i - 1] == line && s[i + 1..] == rest;
  }

  /** The first line of a text whose lines end in line feeds, with or without carriage returns. */
  lemma FirstLine(line: string, e: LineEnd, rest: string)
    requires OneLine(line) && e != CR
    ensures SplitLines(line + Eol(e) + rest) == [line] + SplitLines(rest)
  {
    if e == LF {
      FirstLineOnFeed(line, rest);
    } else {
      FirstLineOnBoth(line, rest);
    }
  }

  lemma FirstOfText(lines: seq<string>, last: string, e: LineEnd)
    requires lines != []
    ensures TextOf(lines, e) + last == lines[0] + Eol(e) + (TextOf(lines[1..], e) + last)
  {
  }

  lemma OnlyLine(last: string)
    requires OneLine(last)
    ensures SplitLines(last) == [last]
  {
    OneLineHasNoFeed(last);
    NoNewline(last);
  }

  lemma SplitStep(line: string, lines: seq<string>, last: string, e: LineEnd, rest: string)
    requires OneLine(line) && e != CR && SplitLines(rest) == lines + [last]
    ensures SplitLines(line + Eol(e) + rest) == [line] + lines + [last]
  {
    FirstLine(line, e, rest);
    Associative([line], lines, [last]);
  }

  /** Splitting a text whose last line is not ended. */
  lemma {:induction false} SplitText(lines: seq<string>, last: string, e: LineEnd)
    requires Plain(lines) && OneLine(last) && e != CR
    ensures SplitLines(TextOf(lines, e) + last) == lines + [last]
  {
    if lines == [] {
      OnlyLine(last);
      assert TextOf(lines, e) + last == last;
    } else {
      SplitText(lines[1..], last, e);
      FirstOfText(lines, last, e);
      assert PlainLine(lines[0]);
      SplitStep(lines[0], lines[1..], last, e, TextOf(lines[1..], e) + last);
      assert [lines[0]] + lines[1..] == lines;
    }
  }

  /** A block of lines parses to its data. */
  lemma BodyParses(lines: seq<string>, last: string, e: LineEnd)
    requires Plain(lines) && OneLine(last) && e != CR
    ensures ParseEvent(TextOf(lines, e) + last) == Dispatch(DataOf(lines + [last], JsBlank))
  {
    SplitText(lines, last, e);
  }

  lemma EmptyLineShifts(line: string, tail: string, k: nat, j: int)
    requires OneLine(line) && tail != "" && tail[0] != '\n' && k == |line| + 1
    ensures EmptyLineAt(line + "\n" + tail, j) <==> j >= k && EmptyLineAt(tail, j - k)
  {
    var s := line + "\n" + tail;
    if 0 <= j < |line| {
      assert s[j] == line[j] && line[j] in line;
    } else if j == |line| {
      assert s[j + 1] == tail[0];
    } else if k <= j < |s| - 1 {
      assert s[j] == tail[j - k] && s[j + 1] == tail[j - k + 1];
    }
  }

  lemma EmptyLinesShift(line: string, tail: string, k: nat)
    requires OneLine(line) && tail != "" && tail[0] != '\n' && k == |line| + 1
    ensures forall j :: EmptyLineAt(line + "\n" + tail, j) <==> j >= k && EmptyLineAt(tail, j - k)
  {
    forall j
      ensures EmptyLineAt(line + "\n" + tail, j) <==> j >= k && EmptyLineAt(tail, j - k)
    {
      EmptyLineShifts(line, tail, k, j);
    }
  }

  lemma BoundaryShifts(s: string, tail: string, k: nat, i: nat)
    requires forall j :: EmptyLineAt(s, j) <==> j >= k && EmptyLineAt(tail, j - k)
    requires Boundary(tail) == Some(i)
    ensures Boundary(s) == Some(k + i)
  {
    assert EmptyLineAt(s, k + i);
    BoundaryUnique(s, k + i);
  }

  /** One more line in front moves the first empty line by its length. */
  lemma BoundaryAfterLine(line: string, tail: string, k: nat, i: nat)
    requires OneLine(line) && tail != "" && tail[0] != '\n' && Boundary(tail) == Some(i) && k == |line| + 1
    ensures Boundary(line + "\n" + tail) == Some(k + i)
  {
    EmptyLinesShift(line, tail, k);
    BoundaryShifts(line + "\n" + tail, tail, k, i);
  }

  lemma BoundaryAfterLast(last: string, rest: string)
    requires OneLine(last)
    ensures Boundary(last + "\n\n" + rest) == Some(|last|)
  {
    var s := last + "\n\n" + rest;
    assert forall j :: 0 <= j < |last| ==> s[j] == last[j] && last[j] in last;
    BoundaryUnique(s, |last|);
  }

  lemma PlainStart(line: string)
    requires PlainLine(line) && line != ""
    ensures line[0] != '\n'
  {
  }

  lemma BlockText(lines: seq<string>, last: string, rest: string)
    requires lines != []
    ensures TextOf(lines, LF) + last + "\n\n" + rest
         == lines[0] + "\n" + (TextOf(lines[1..], LF) + last + "\n\n" + rest)
  {
  }

  /** A block ends at the first empty line after its first line. */
  lemma {:induction false} BlockBoundary(lines: seq<string>, last: string, rest: string)
    requires Plain(lines) && PlainLine(last)
    requires forall i :: 1 <= i < |lines| ==> lines[i] != ""
    requires lines != [] ==> last != ""
    ensures Boundary(TextOf(lines, LF) + last + "\n\n" + rest) == Some(|TextOf(lines, LF) + last|)
  {
    if lines == [] {
      BoundaryAfterLast(last, rest);
      assert TextOf(lines, LF) + last == last;
    } else {
      var tail := TextOf(lines[1..], LF) + last + "\n\n" + rest;
      BlockBoundary(lines[1..], last, rest);
      BlockText(lines, last, rest);
      assert tail != "" && tail[0] != '\n' by {
        if |lines| > 1 {
          PlainStart(lines[1]);
          assert tail[0] == lines[1][0];
        } else {
          PlainStart(last);
          assert tail[0] == last[0];
        }
      }
      assert PlainLine(lines[0]);
      BoundaryAfterLine(lines[0], tail, |lines[0]| + 1, |TextOf(lines[1..], LF) + last|);
    }
  }

  lemma EventsOfBlock(s: string, i: nat)
    requires Boundary(s) == Some(i)
    ensures EventsOf(s) == ParseEvent(s[..i]) + EventsOf(s[i + 2..])
  {
    var block, rest := s[..i], Drain(s[i + 2..]);
    assert Drain(s) == Drained([block] + rest.blocks, rest.buffer);
    BlockEventsConcat([block], rest.blocks);
    assert BlockEvents([block]) == ParseEvent(block);
    Associative(ParseEvent(block), BlockEvents(rest.blocks),
                ParseEvent(TrimEnd(TrimStart(rest.buffer, JsBlank), JsBlank)));
  }

  /** The first empty line after the first line. */
  lemma {:induction false} NextEmpty(lines: seq<string>, from: nat) returns (k: nat)
    requires from < |lines| && lines[|lines| - 1] == ""
    ensures from <= k < |lines| && lines[k] == "" && forall i :: from <= i < k ==> lines[i] != ""
    decreases |lines| - from
  {
    if lines[from] == "" {
      k := from;
    } else {
      k := NextEmpty(lines, from + 1);
    }
  }

  lemma {:induction false} TextOfConcat(a: seq<string>, b: seq<string>, e: LineEnd)
    ensures TextOf(a + b, e) == TextOf(a, e) + TextOf(b, e)
  {
    if a == [] {
      assert a + b == b;
    } else {
      TextOfConcat(a[1..], b, e);
      assert (a + b)[1..] == a[1..] + b;
      Associative(a[0] + Eol(e), TextOf(a[1..], e), TextOf(b, e));
    }
  }

  lemma EndedByEmpty(last: string, rest: seq<string>)
    ensures TextOf([last] + ([""] + rest), LF) == last + "\n\n" + TextOf(rest, LF)
  {
    var tail := [""] + rest;
    assert tail[1..] == rest && ([last] + tail)[1..] == tail;
    assert TextOf(tail, LF) == "\n" + TextOf(rest, LF);
    assert "\n\n" == "\n" + "\n";
    Associative(last + "\n", "\n", TextOf(rest, LF));
    assert last + "\n" + "\n" == last + "\n\n";
  }

  /** One block in front of the rest, in the text and in its lines. */
  lemma SplitOffBlock(front: seq<string>, last: string, rest: seq<string>)
    ensures TextOf(front + ([last] + ([""] + rest)), LF) == TextOf(front, LF) + last + "\n\n" + TextOf(rest, LF)
  {
    TextOfConcat(front, [last] + ([""] + rest), LF);
    EndedByEmpty(last, rest);
    var text, after := TextOf(front, LF), TextOf(rest, LF);
    Associative(text, last + "\n\n", after);
    Associative(text, last, "\n\n");
  }

  lemma GroupNonempty(block: seq<string>, rest: seq<string>)
    requires NoneEmpty(block) && rest != [] && rest[0] == ""
    ensures Group(block + rest, []) == Dispatch(DataOf(block, JsBlank)) + Group(rest[1..], [])
  {
    GroupCollects(block, rest, []);
    assert [] + DataOf(block, JsBlank) == DataOf(block, JsBlank);
  }

  lemma GroupAfterEmpty(lines: seq<string>, block: seq<string>)
    requires lines == [""] + block
    ensures forall rest :: Group(lines + rest, []) == Group(block + rest, [])
    ensures DataOf(lines, JsBlank) == DataOf(block, JsBlank)
  {
    assert lines[1..] == block;
    forall rest
      ensures Group(lines + rest, []) == Group(block + rest, [])
    {
      assert (lines + rest)[1..] == block + rest;
    }
  }

  lemma GroupBlock(lines: seq<string>, k: nat)
    requires 1 <= k < |lines| && lines[k] == "" && forall i :: 1 <= i < k ==> lines[i] != ""
    ensures Group(lines, []) == Dispatch(DataOf(lines[..k], JsBlank)) + Group(lines[k + 1..], [])
  {
    var rest := lines[k..];
    assert rest[1..] == lines[k + 1..] && lines == lines[..k] + rest;
    if lines[0] == "" {
      assert lines[..k] == [""] + lines[1..k];
      GroupAfterEmpty(lines[..k], lines[1..k]);
      GroupNonempty(lines[1..k], rest);
    } else {
      GroupNonempty(lines[..k], rest);
    }
  }

  lemma OneEmptyLine()
    ensures EventsOf(TextOf([""], LF)) == [] == Group([""], [])
  {
    EmptyBlockHasNoEvent();
    var lines: seq<string> := [""];
    assert lines[1..] == [];
    assert TextOf(lines, LF) == "\n" && Drain("\n") == Drained([], "\n");
    assert TrimStart("\n", JsBlank) == "";
  }

  lemma SlicesOfText(block: string, rest: string)
    ensures (block + "\n\n" + rest)[..|block|] == block && (block + "\n\n" + rest)[|block| + 2..] == rest
  {
  }

  lemma LeadingBlock(front: seq<string>, last: string, rest: string)
    requires Plain(front) && PlainLine(last)
    requires forall i :: 1 <= i < |front| ==> front[i] != ""
    requires front != [] ==> last != ""
    ensures EventsOf(TextOf(front, LF) + last + "\n\n" + rest)
         == Dispatch(DataOf(front + [last], JsBlank)) + EventsOf(rest)
  {
    var block := TextOf(front, LF) + last;
    BlockBoundary(front, last, rest);
    SlicesOfText(block, rest);
    EventsOfBlock(block + "\n\n" + rest, |block|);
    BodyParses(front, last, LF);
  }

  /** The first block of complete lines. */
  lemma FirstBlock(front: seq<string>, last: string, rest: seq<string>)
    requires Plain(front) && PlainLine(last)
    requires forall i :: 1 <= i < |front| ==> front[i] != ""
    requires front != [] ==> last != ""
    ensures EventsOf(TextOf(front + ([last] + ([""] + rest)), LF))
         == Dispatch(DataOf(front + [last], JsBlank)) + EventsOf(TextOf(rest, LF))
  {
    LeadingBlock(front, last, TextOf(rest, LF));
    SplitOffBlock(front, last, rest);
  }

  lemma AtBlock(lines: seq<string>, k: nat)
    requires Plain(lines) && 1 <= k < |lines| && lines[k] == ""
    ensures Plain(lines[..k - 1]) && PlainLine(lines[k - 1]) && Plain(lines[k + 1..])
    ensures lines[..k - 1] + [lines[k - 1]] == lines[..k]
    ensures lines == lines[..k - 1] + ([lines[k - 1]] + ([""] + lines[k + 1..]))
  {
  }

  lemma RestEndsEmpty(lines: seq<string>, k: nat)
    requires Plain(lines) && k < |lines| && lines[|lines| - 1] == ""
    ensures Plain(lines[k + 1..])
    ensures lines[k + 1..] != [] ==> lines[k + 1..][|lines[k + 1..]| - 1] == ""
  {
  }

  lemma LinesAfterFirst(lines: seq<string>, k: nat)
    requires Plain(lines) && 1 <= k < |lines| && lines[k] == "" && forall i :: 1 <= i < k ==> lines[i] != ""
    requires EventsOf(TextOf(lines[k + 1..], LF)) == Group(lines[k + 1..], [])
    ensures EventsOf(TextOf(lines, LF)) == Group(lines, [])
  {
    AtBlock(lines, k);
    FirstBlock(lines[..k - 1], lines[k - 1], lines[k + 1..]);
    GroupBlock(lines, k);
  }

  /** On line feeds the parser takes complete lines to their events. */
  lemma {:induction false} EventsOfLines(lines: seq<string>)
    requires Plain(lines) && (lines != [] ==> lines[|lines| - 1] == "")
    ensures EventsOf(TextOf(lines, LF)) == Group(lines, [])
    decreases |lines|
  {
    if lines == [] {
      EmptyBlockHasNoEvent();
    } else if |lines| == 1 {
      assert lines == [""];
      OneEmptyLine();
    } else {
      var k := NextEmpty(lines, 1);
      RestEndsEmpty(lines, k);
      EventsOfLines(lines[k + 1..]);
      LinesAfterFirst(lines, k);
    }
  }
}
