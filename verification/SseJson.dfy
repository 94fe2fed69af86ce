/**
 The event stream as the platform means it: one data line with a JSON object per event.  Nothing here
 is stated in terms of what the parsers take for blanks or line breaks: the characters are listed.
 */
module SseJson {
  import opened Wrappers
  import opened Sse
  import opened SseFraming
  import opened SseLineEnds
  import opened SseRoundTrip

  /* ---------- the characters ---------- */

  /** White space and line terminators of sections 12.2 and 12.3 of ECMA-262: what `trimStart` removes. */
  const JS_BLANKS: set<char> := {
    '\t', '\U{B}', '\U{C}', ' ', '\U{A0}', '\U{FEFF}', '\U{1680}', '\U{2000}', '\U{2001}', '\U{2002}', '\U{2003}',
    '\U{2004}', '\U{2005}', '\U{2006}', '\U{2007}', '\U{2008}', '\U{2009}', '\U{200A}', '\U{202F}', '\U{205F}',
    '\U{3000}', '\n', '\r', '\U{2028}', '\U{2029}'
  }

  /** What `lstrip` removes: the same without the byte order mark, and the separators and the next-line
      character. */
  const PY_BLANKS: set<char> := JS_BLANKS - {'\U{FEFF}'} + {'\U{1C}', '\U{1D}', '\U{1E}', '\U{1F}', '\U{85}'}

  /** What `splitlines` takes for a line break and the standard does not. */
  const PY_BREAKS: set<char> := {'\U{B}', '\U{C}', '\U{1C}', '\U{1D}', '\U{1E}', '\U{85}', '\U{2028}', '\U{2029}'}

  lemma CharactersIff(c: char)
    ensures JsBlank(c) <==> c in JS_BLANKS
    ensures PyBlank(c) <==> c in PY_BLANKS
    ensures PyBreak(c) <==> c in PY_BREAKS || c == '\n' || c == '\r'
  {
  }

  /* ---------- streams of objects ---------- */

  /** The text of a JSON object on one line: it starts and ends with a brace. */
  predicate ObjectText(p: string) {
    |p| >= 2 && p[0] == '{' && p[|p| - 1] == '}' && '\n' !in p && '\r' !in p
  }

  predicate AllObjects(payloads: seq<string>) {
    forall i :: 0 <= i < |payloads| ==> ObjectText(payloads[i])
  }

  /** Each payload on a data line of its own, ended by an empty line. */
  function Sent(payloads: seq<string>, eol: string): string {
    if payloads == [] then "" else "data: " + payloads[0] + eol + eol + Sent(payloads[1..], eol)
  }

  /** No payload has one of the characters. */
  predicate NoneHas(payloads: seq<string>, chars: set<char>) {
    forall i, c :: 0 <= i < |payloads| && c in payloads[i] ==> c !in chars
  }

  function Streamed(payloads: seq<string>): seq<Event> {
    if payloads == [] then [] else [[Data(true, payloads[0])]] + Streamed(payloads[1..])
  }

  lemma ObjectEvent(p: string)
    requires ObjectText(p)
    ensures var event := [Data(true, p)];
      && AllWellFormed(event) && Texts(event) == [p] && Payload(event) == [p]
      && Clean(event, JsBlank, false) && Clean(event, PyBlank, true)
  {
    OneDataLine(p);
    CharactersIff('{');
    assert OneLine(p);
  }

  lemma {:induction false} StreamedClean(payloads: seq<string>)
    requires AllObjects(payloads)
    ensures var events := Streamed(payloads);
      && AllWellFramed(events) && Payloads(events) == payloads && OthersUnbroken(events)
      && AllClean(events, JsBlank, false) && AllClean(events, PyBlank, true)
  {
    if payloads != [] {
      var first, rest := [Data(true, payloads[0])], Streamed(payloads[1..]);
      ObjectEvent(payloads[0]);
      StreamedClean(payloads[1..]);
      assert Streamed(payloads) == [first] + rest && Streamed(payloads)[1..] == rest;
    }
  }

  lemma {:induction false} StreamedUnbroken(payloads: seq<string>)
    requires AllObjects(payloads) && NoneHas(payloads, PY_BREAKS)
    ensures DataUnbroken(Streamed(payloads))
  {
    if payloads != [] {
      var first, rest := [Data(true, payloads[0])], Streamed(payloads[1..]);
      StreamedUnbroken(payloads[1..]);
      ObjectEvent(payloads[0]);
      forall c | c in payloads[0]
        ensures !PyBreak(c)
      {
        CharactersIff(c);
      }
      assert Streamed(payloads) == [first] + rest;
    }
  }

  lemma {:induction false} StreamedBroken(payloads: seq<string>)
    requires AllObjects(payloads) && !NoneHas(payloads, PY_BREAKS)
    ensures !DataUnbroken(Streamed(payloads))
  {
    var first, rest := [Data(true, payloads[0])], Streamed(payloads[1..]);
    ObjectEvent(payloads[0]);
    var events := Streamed(payloads);
    assert events == [first] + rest;
    if c :| c in payloads[0] && c in PY_BREAKS {
      CharactersIff(c);
      assert !Unbroken(Texts(events[0])[0]);
    } else {
      assert !NoneHas(payloads[1..], PY_BREAKS) by {
        var i, c :| 0 <= i < |payloads| && c in payloads[i] && c in PY_BREAKS;
        assert payloads[1..][i - 1] == payloads[i];
      }
      StreamedBroken(payloads[1..]);
      var j :| 0 <= j < |rest| && !AllUnbroken(Texts(rest[j]));
      assert events[j + 1] == rest[j];
    }
  }

  lemma FirstFrame(p: string, events: seq<Event>, e: LineEnd)
    ensures Encode([[Data(true, p)]] + events, e) == "data: " + p + Eol(e) + Eol(e) + Encode(events, e)
  {
    var event := [Data(true, p)];
    var all, w := [event] + events, "data: " + p;
    OneDataLine(p);
    assert all[1..] == events;
    var tail := [""] + Lines(events);
    assert Lines(all) == [w] + tail;
    assert ([w] + tail)[1..] == tail && tail[1..] == Lines(events);
    assert TextOf(tail, e) == Eol(e) + Encode(events, e);
    Associative(w + Eol(e), Eol(e), Encode(events, e));
  }

  lemma {:induction false} SentIsEncoded(payloads: seq<string>, e: LineEnd)
    ensures Sent(payloads, Eol(e)) == Encode(Streamed(payloads), e)
  {
    if payloads != [] {
      SentIsEncoded(payloads[1..], e);
      FirstFrame(payloads[0], Streamed(payloads[1..]), e);
    }
  }

  /** What the platform streams is read back: objects sent with line feeds come out of the TypeScript
      parser in order, however the text is cut, and out of the Python parser, for each kind of line
      end, if and only if none has one of Python's other line breaks. */
  lemma ObjectsReadBack(payloads: seq<string>, pieces: seq<string>, e: LineEnd)
    requires AllObjects(payloads)
    ensures Concat(pieces) == Sent(payloads, "\n") ==> EventsOf(Concat(pieces)) == payloads
    ensures PyEvents(PyLines(Sent(payloads, Eol(e))), []) == payloads <==> NoneHas(payloads, PY_BREAKS)
  {
    var events := Streamed(payloads);
    StreamedClean(payloads);
    SentIsEncoded(payloads, LF);
    SentIsEncoded(payloads, e);
    ReadOnFeeds(events);
    ReadAsIff(events, JsBlank, false);
    PyIff(events, e);
    if NoneHas(payloads, PY_BREAKS) {
      StreamedUnbroken(payloads);
    } else {
      StreamedBroken(payloads);
    }
  }

  lemma ObjectEndsInBrace(p: string)
    requires ObjectText(p)
    ensures !EndsBlank(Streamed([p]))
  {
    var event := [Data(true, p)];
    var single := [event];
    assert [p][1..] == [] && Streamed([p]) == single && single[1..] == [];
    assert AllLines(single) == event + [] == event;
    CharactersIff('}');
  }

  /** With carriage returns before the line feeds the TypeScript parser reads at most one object back. */
  lemma ObjectsOnCrlf(payloads: seq<string>)
    requires AllObjects(payloads)
    ensures EventsOf(Sent(payloads, "\r\n")) == payloads <==> |payloads| <= 1
  {
    var events := Streamed(payloads);
    StreamedClean(payloads);
    SentIsEncoded(payloads, CRLF);
    CrlfJoinsEverything(events);
    DispatchIff(events);
    if |payloads| == 1 {
      assert payloads == [payloads[0]];
      ObjectEndsInBrace(payloads[0]);
    }
  }

  /* ---------- the first character of data ---------- */

  lemma OneEventClean(text: string)
    ensures var events := [[Data(true, text)]];
      && Payloads(events) == [text]
      && (AllClean(events, JsBlank, false) <==> text != "" && Unblank(text, JsBlank))
      && (AllClean(events, PyBlank, true) <==> Unblank(text, PyBlank))
  {
    var event := [Data(true, text)];
    var events := [event];
    OneDataLine(text);
    assert events[1..] == [];
    assert Payload(event) == [text] && Payloads(events) == [text] + [];
    assert events[0] == event;
  }

  lemma OneEventFramed(text: string)
    requires forall d :: d in text ==> d != '\n' && d != '\r'
    ensures AllWellFramed([[Data(true, text)]]) && OthersUnbroken([[Data(true, text)]])
    ensures NoneHas([text], PY_BREAKS) ==> DataUnbroken([[Data(true, text)]])
  {
    assert OneLine(text);
    if NoneHas([text], PY_BREAKS) {
      OneDataLine(text);
      forall d | d in text
        ensures !PyBreak(d)
      {
        assert d in [text][0];
        CharactersIff(d);
      }
      assert Unbroken(text);
    }
  }

  lemma OneEventRead(text: string)
    requires forall d :: d in text ==> d != '\n' && d != '\r'
    ensures var stream := "data: " + text + "\n" + "\n";
      && (EventsOf(stream) == [text] <==> text != "" && Unblank(text, JsBlank))
      && (NoneHas([text], PY_BREAKS) ==> (PyEvents(PyLines(stream), []) == [text] <==> Unblank(text, PyBlank)))
  {
    var events := [[Data(true, text)]];
    OneEvent(text);
    OneEventClean(text);
    OneEventFramed(text);
    ReadOnFeeds(events);
    ReadAsIff(events, JsBlank, false);
    PyIff(events, LF);
  }

  /** Which first characters of data survive: for the TypeScript parser exactly those that are no white
      space of ECMAScript, and for the Python parser those that are none of its own, in data that has
      none of its line breaks. */
  lemma FirstCharacterKept(c: char, rest: string)
    requires forall d :: d in [c] + rest ==> d != '\n' && d != '\r'
    ensures var text := "data: " + ([c] + rest) + "\n" + "\n";
      && (EventsOf(text) == [[c] + rest] <==> c !in JS_BLANKS)
      && (NoneHas([[c] + rest], PY_BREAKS) ==> (PyEvents(PyLines(text), []) == [[c] + rest] <==> c !in PY_BLANKS))
  {
    var text := [c] + rest;
    CharactersIff(c);
    assert text[0] == c;
    OneEventRead(text);
  }
}
