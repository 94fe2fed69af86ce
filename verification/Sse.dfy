/**
 The server-sent-event parsers of the two client kits: the TypeScript one reads text in
 arbitrary pieces, the Python one reads lines.  Payloads are the decoded `data` texts
 before they are parsed as JSON.
 */
module Sse {
  import opened Wrappers
  import opened Decimal

  /* ---------- characters ---------- */

  /** Characters both `trimStart` and `lstrip` remove. */
  predicate CommonBlank(c: char) {
    || '\U{9}' <= c <= '\U{D}' || c == ' ' || c == '\U{A0}' || c == '\U{1680}'
    || '\U{2000}' <= c <= '\U{200A}' || c == '\U{2028}' || c == '\U{2029}'
    || c == '\U{202F}' || c == '\U{205F}' || c == '\U{3000}'
  }

  predicate JsBlank(c: char) {
    CommonBlank(c) || c == '\U{FEFF}'
  }

  predicate PyBlank(c: char) {
    CommonBlank(c) || '\U{1C}' <= c <= '\U{1F}' || c == '\U{85}'
  }

  /** The characters that end a line for Python's `splitlines`. */
  predicate PyBreak(c: char) {
    || c == '\n' || c == '\r' || c == '\U{B}' || c == '\U{C}'
    || '\U{1C}' <= c <= '\U{1E}' || c == '\U{85}' || c == '\U{2028}' || c == '\U{2029}'
  }

  function TrimStart(s: string, blank: char -> bool): string {
    if s != "" && blank(s[0]) then TrimStart(s[1..], blank) else s
  }

  function TrimEnd(s: string, blank: char -> bool): string {
    if s != "" && blank(s[|s| - 1]) then TrimEnd(s[..|s| - 1], blank) else s
  }

  function Join(lines: seq<string>): string {
    if lines == [] then ""
    else if |lines| == 1 then lines[0]
    else lines[0] + "\n" + Join(lines[1..])
  }

  const DATA := "data:"

  predicate IsData(line: string) {
    DATA <= line
  }

  function FirstIndex(s: string, p: char -> bool): (i: Option<nat>)
    ensures i.Some? ==> i.value < |s| && p(s[i.value]) && forall j :: 0 <= j < i.value ==> !p(s[j])
    ensures i.None? ==> forall j :: 0 <= j < |s| ==> !p(s[j])
  {
    if s == "" then None
    else if p(s[0]) then Some(0)
    else
      var i := FirstIndex(s[1..], p);
      if i.Some? then Some(i.value + 1) else None
  }

  /** Two newlines in a row start at `j`. */
  predicate EmptyLineAt(s: string, j: int) {
    0 <= j < |s| - 1 && s[j] == '\n' && s[j + 1] == '\n'
  }

  /** The index of the first two newlines in a row. */
  function Boundary(s: string): (i: Option<nat>)
    ensures i.Some? ==> i.value + 2 <= |s| && EmptyLineAt(s, i.value) && forall j :: j < i.value ==> !EmptyLineAt(s, j)
    ensures i.None? ==> forall j :: !EmptyLineAt(s, j)
  {
    if |s| < 2 then None
    else if EmptyLineAt(s, 0) then Some(0)
    else
      var i := Boundary(s[1..]);
      assert forall j :: 1 <= j ==> EmptyLineAt(s, j) == EmptyLineAt(s[1..], j - 1);
      if i.Some? then Some(i.value + 1) else None
  }

  /* ---------- the TypeScript parser ---------- */

  predicate IsNewline(c: char) {
    c == '\n'
  }

  /** Splits at line feeds, each with an optional carriage return before it. */
  function SplitLines(s: string): seq<string> {
    match FirstIndex(s, IsNewline)
    case None => [s]
    case Some(i) => [if i > 0 && s[i - 1] == '\r' then s[..i - 1] else s[..i]] + SplitLines(s[i + 1..])
  }

  /** The contents of the data lines, without leading blanks. */
  function DataOf(lines: seq<string>, blank: char -> bool): seq<string> {
    if lines == [] then []
    else (if IsData(lines[0]) then [TrimStart(lines[0][|DATA|..], blank)] else []) + DataOf(lines[1..], blank)
  }

  /** The payload of one event block; an empty one is no event. */
  function ParseEvent(block: string): seq<string> {
    var data := Join(DataOf(SplitLines(block), JsBlank));
    if data != "" then [data] else []
  }

  /** The complete blocks of a buffer and what is left of it. */
  datatype Drained = Drained(blocks: seq<string>, buffer: string)

  function Drain(buffer: string): Drained
    decreases |buffer|
  {
    match Boundary(buffer)
    case None => Drained([], buffer)
    case Some(i) =>
      var rest := Drain(buffer[i + 2..]);
      Drained([buffer[..i]] + rest.blocks, rest.buffer)
  }

  function BlockEvents(blocks: seq<string>): seq<string> {
    if blocks == [] then [] else BlockEvents(blocks[..|blocks| - 1]) + ParseEvent(blocks[|blocks| - 1])
  }

  /** The events of a text read as a whole. */
  function EventsOf(text: string): seq<string> {
    BlockEvents(Drain(text).blocks) + ParseEvent(TrimEnd(TrimStart(Drain(text).buffer, JsBlank), JsBlank))
  }

  function Concat(pieces: seq<string>): string {
    if pieces == [] then "" else Concat(pieces[..|pieces| - 1]) + pieces[|pieces| - 1]
  }

  lemma BoundaryUnique(s: string, i: nat)
    requires EmptyLineAt(s, i) && forall j :: j < i ==> !EmptyLineAt(s, j)
    ensures Boundary(s) == Some(i)
  {
    var b := Boundary(s);
    assert b.Some?;
    assert !(b.value < i) && !(b.value > i);
  }

  /** Text that arrives later does not move the first boundary. */
  lemma BoundaryStays(b: string, x: string)
    requires Boundary(b).Some?
    ensures var i := Boundary(b).value;
      Boundary(b + x) == Some(i) && (b + x)[..i] == b[..i] && (b + x)[i + 2..] == b[i + 2..] + x
  {
    var i := Boundary(b).value;
    assert forall j :: j <= i ==> EmptyLineAt(b + x, j) == EmptyLineAt(b, j);
    BoundaryUnique(b + x, i);
  }

  lemma Associative<T>(a: seq<T>, b: seq<T>, c: seq<T>)
    ensures a + (b + c) == a + b + c
  {
  }

  /** Draining early and going on with the rest is draining once. */
  lemma {:induction false} DrainAppend(b: string, x: string)
    ensures Drain(b + x).blocks == Drain(b).blocks + Drain(Drain(b).buffer + x).blocks
    ensures Drain(b + x).buffer == Drain(Drain(b).buffer + x).buffer
    decreases |b|
  {
    if Boundary(b).Some? {
      var i := Boundary(b).value;
      var head, tail := [b[..i]], b[i + 2..];
      BoundaryStays(b, x);
      assert Drain(b + x) == Drained(head + Drain(tail + x).blocks, Drain(tail + x).buffer);
      assert Drain(b) == Drained(head + Drain(tail).blocks, Drain(tail).buffer);
      DrainAppend(tail, x);
      Associative(head, Drain(tail).blocks, Drain(Drain(tail).buffer + x).blocks);
    } else {
      assert Drain(b) == Drained([], b);
    }
  }

  lemma DrainStep(blocks: seq<string>, buffer: string)
    requires Boundary(buffer).Some?
    ensures var block, rest := buffer[..Boundary(buffer).value], buffer[Boundary(buffer).value + 2..];
      && blocks + Drain(buffer).blocks == blocks + [block] + Drain(rest).blocks
      && Drain(buffer).buffer == Drain(rest).buffer
      && BlockEvents(blocks + [block]) == BlockEvents(blocks) + ParseEvent(block)
  {
    var block, rest := buffer[..Boundary(buffer).value], buffer[Boundary(buffer).value + 2..];
    assert (blocks + [block])[..|blocks|] == blocks;
    Associative(blocks, [block], Drain(rest).blocks);
  }

  /** The inner loop: yields the events of all complete blocks. */
  method DrainBuffer(buffer0: string) returns (events: seq<string>, buffer: string)
    ensures events == BlockEvents(Drain(buffer0).blocks) && buffer == Drain(buffer0).buffer
  {
    buffer, events := buffer0, [];
    ghost var blocks := [];
    var boundary := Boundary(buffer);
    while boundary.Some?
      invariant boundary == Boundary(buffer)
      invariant Drain(buffer0) == Drained(blocks + Drain(buffer).blocks, Drain(buffer).buffer)
      invariant events == BlockEvents(blocks)
      decreases |buffer|
    {
      var block := buffer[..boundary.value];
      DrainStep(blocks, buffer);
      events := events + ParseEvent(block);
      buffer := buffer[boundary.value + 2..];
      boundary := Boundary(buffer);
      blocks := blocks + [block];
    }
    assert blocks + [] == blocks;
  }

  lemma {:induction false} BlockEventsConcat(a: seq<string>, b: seq<string>)
    ensures BlockEvents(a + b) == BlockEvents(a) + BlockEvents(b)
  {
    if b == [] {
      assert a + b == a;
    } else {
      var last := |b| - 1;
      BlockEventsConcat(a, b[..last]);
      assert (a + b)[..|a + b| - 1] == a + b[..last] && (a + b)[|a + b| - 1] == b[last];
      Associative(BlockEvents(a), BlockEvents(b[..last]), ParseEvent(b[last]));
    }
  }

  /** The reading loop: whatever the pieces, the events are those of the whole text. */
  method StreamTaskChunks(pieces: seq<string>) returns (events: seq<string>)
    ensures events == EventsOf(Concat(pieces))
  {
    var buffer := "";
    events := [];
    for i := 0 to |pieces|
      invariant buffer == Drain(Concat(pieces[..i])).buffer
      invariant events == BlockEvents(Drain(Concat(pieces[..i])).blocks)
    {
      assert pieces[..i + 1][..i] == pieces[..i];
      DrainAppend(Concat(pieces[..i]), pieces[i]);
      BlockEventsConcat(Drain(Concat(pieces[..i])).blocks, Drain(buffer + pieces[i]).blocks);
      var more;
      more, buffer := DrainBuffer(buffer + pieces[i]);
      events := events + more;
    }
    assert pieces[..|pieces|] == pieces;
    events := events + ParseEvent(TrimEnd(TrimStart(buffer, JsBlank), JsBlank));
  }

  /** The blocks taken out and the buffer after some reads, each drained as it arrives. */
  function FeedAll(pieces: seq<string>): Drained {
    if pieces == [] then Drained([], "")
    else
      var before := FeedAll(pieces[..|pieces| - 1]);
      var d := Drain(before.buffer + pieces[|pieces| - 1]);
      Drained(before.blocks + d.blocks, d.buffer)
  }

  lemma {:induction false} FeedIsDrain(pieces: seq<string>)
    ensures FeedAll(pieces) == Drain(Concat(pieces))
  {
    if pieces != [] {
      FeedIsDrain(pieces[..|pieces| - 1]);
      DrainAppend(Concat(pieces[..|pieces| - 1]), pieces[|pieces| - 1]);
    }
  }

  /** Chunk independence: two ways of cutting one text leave the reader in the same state. */
  lemma ChunkIndependence(pieces1: seq<string>, pieces2: seq<string>)
    requires Concat(pieces1) == Concat(pieces2)
    ensures FeedAll(pieces1) == FeedAll(pieces2)
  {
    FeedIsDrain(pieces1);
    FeedIsDrain(pieces2);
  }

  /* ---------- the Python parser ---------- */

  /** Where the line behind the break at `i` starts: a carriage return and line feed are one break. */
  function AfterBreak(s: string, i: nat): (next: nat)
    requires i < |s|
    ensures i < next <= |s|
  {
    if s[i] == '\r' && i + 1 < |s| && s[i + 1] == '\n' then i + 2 else i + 1
  }

  /** Splits after line breaks, with a carriage return and line feed as one break. */
  function PyLines(s: string): seq<string> {
    match FirstIndex(s, PyBreak)
    case None => if s == "" then [] else [s]
    case Some(i) =>
      [s[..i]] + PyLines(s[AfterBreak(s, i)..])
  }

  /** The payloads still to come after `lines`, with `dataLines` already collected. */
  function PyEvents(lines: seq<string>, dataLines: seq<string>): seq<string> {
    if lines == [] then
      if dataLines != [] then [Join(dataLines)] else []
    else if IsData(lines[0]) then
      PyEvents(lines[1..], dataLines + [TrimStart(lines[0][|DATA|..], PyBlank)])
    else if lines[0] == "" && dataLines != [] then
      [Join(dataLines)] + PyEvents(lines[1..], [])
    else
      PyEvents(lines[1..], dataLines)
  }

  method StreamLines(lines: seq<string>) returns (events: seq<string>)
    ensures events == PyEvents(lines, [])
  {
    var dataLines: seq<string> := [];
    events := [];
    for i := 0 to |lines|
      invariant events + PyEvents(lines[i..], dataLines) == PyEvents(lines, [])
    {
      var line := lines[i];
      assert lines[i..][0] == line && lines[i..][1..] == lines[i + 1..];
      if IsData(line) {
        dataLines := dataLines + [TrimStart(line[|DATA|..], PyBlank)];
      } else if line == "" && dataLines != [] {
        events := events + [Join(dataLines)];
        dataLines := [];
      }
    }
    if dataLines != [] {
      events := events + [Join(dataLines)];
    }
  }

  /* ---------- texts without events ---------- */

  /** A text without line feeds is one line and holds no complete block. */
  lemma NoNewline(s: string)
    requires '\n' !in s
    ensures SplitLines(s) == [s] && Drain(s) == Drained([], s)
  {
    assert forall j :: 0 <= j < |s| ==> s[j] in s;
  }

  lemma NoDataInLine(line: string)
    requires !IsData(line)
    ensures DataOf([line], JsBlank) == []
  {
  }

  lemma EmptyBlockHasNoEvent()
    ensures ParseEvent("") == []
  {
    NoNewline("");
    NoDataInLine("");
  }

  /* ---------- the emitter ---------- */

  /** What the server writes per chunk: its line ends are a backslash and the letter n. */
  function Emitted(sequence: nat, payload: string): string {
    "id: " + ToDecimal(sequence) + "\\ndata: " + payload + "\\n\\n"
  }

  function EmittedFrom(sequence: nat, payloads: seq<string>): string
    decreases |payloads|
  {
    if payloads == [] then "" else Emitted(sequence, payloads[0]) + EmittedFrom(sequence + 1, payloads[1..])
  }

  /** None of the characters of `p` is in the text. */
  ghost predicate Lacks(s: string, p: char -> bool) {
    forall c :: c in s ==> !p(c)
  }

  ghost predicate AllLack(payloads: seq<string>, p: char -> bool) {
    forall i :: 0 <= i < |payloads| ==> Lacks(payloads[i], p)
  }

  lemma LacksConcat(a: string, b: string, p: char -> bool)
    requires Lacks(a, p) && Lacks(b, p)
    ensures Lacks(a + b, p)
  {
  }

  /** The server adds printable ASCII only, and its text starts with the `i` of the first id. */
  lemma {:induction false} EmittedLacks(sequence: nat, payloads: seq<string>, p: char -> bool)
    requires (forall c :: ' ' <= c <= '~' ==> !p(c)) && AllLack(payloads, p)
    ensures Lacks(EmittedFrom(sequence, payloads), p)
    ensures payloads != [] ==> |EmittedFrom(sequence, payloads)| > 1 && EmittedFrom(sequence, payloads)[0] == 'i'
    decreases |payloads|
  {
    if payloads != [] {
      EmittedLacks(sequence + 1, payloads[1..], p);
      assert Lacks("id: ", p) && Lacks("\\ndata: ", p) && Lacks("\\n\\n", p);
      LacksConcat("id: ", ToDecimal(sequence), p);
      LacksConcat("id: " + ToDecimal(sequence), "\\ndata: ", p);
      LacksConcat("id: " + ToDecimal(sequence) + "\\ndata: ", payloads[0], p);
      LacksConcat("id: " + ToDecimal(sequence) + "\\ndata: " + payloads[0], "\\n\\n", p);
    }
  }

  lemma {:induction false} TrimEndPrefix(s: string, blank: char -> bool)
    ensures TrimEnd(s, blank) <= s
    ensures s != "" && !blank(s[0]) ==> TrimEnd(s, blank) != ""
  {
    if s != "" && blank(s[|s| - 1]) {
      TrimEndPrefix(s[..|s| - 1], blank);
    }
  }

  /** For the Python parser the text is one line, which is no data. */
  lemma PyReadsNothing(payloads: seq<string>)
    requires AllLack(payloads, PyBreak)
    ensures PyEvents(PyLines(EmittedFrom(0, payloads)), []) == []
  {
    EmittedLacks(0, payloads, PyBreak);
    var text := EmittedFrom(0, payloads);
    assert FirstIndex(text, PyBreak).None? by {
      assert forall j :: 0 <= j < |text| ==> text[j] in text;
    }
    assert PyEvents([], []) == [];
    if payloads != [] {
      var lines := [text];
      assert lines[1..] == [] && !IsData(text);
    }
  }

  /** The parsers read nothing out of what the server writes: the TypeScript one for payloads without
      line feeds, the Python one for payloads without any of its line breaks.  So the events are the
      sent payloads exactly when none were sent. */
  lemma EmitterYieldsNoEvents(payloads: seq<string>)
    requires AllLack(payloads, IsNewline)
    ensures EventsOf(EmittedFrom(0, payloads)) == []
    ensures EventsOf(EmittedFrom(0, payloads)) == payloads <==> payloads == []
    ensures AllLack(payloads, PyBreak) ==> PyEvents(PyLines(EmittedFrom(0, payloads)), []) == []
  {
    EmptyBlockHasNoEvent();
    if AllLack(payloads, PyBreak) {
      PyReadsNothing(payloads);
    }
    if payloads != [] {
      EmittedLacks(0, payloads, IsNewline);
      var text := EmittedFrom(0, payloads);
      assert '\n' !in text;
      NoNewline(text);
      assert TrimStart(text, JsBlank) == text;
      TrimEndPrefix(text, JsBlank);
      var block := TrimEnd(text, JsBlank);
      assert block[0] == 'i';
      assert '\n' !in block;
      NoNewline(block);
      assert !IsData(block);
      NoDataInLine(block);
    }
  }
}
