/**
 What the TypeScript parser reads out of streams whose lines end in carriage returns, and when
 that is what was sent.
 */
module SseLineEnds {
  import opened Sse
  import opened SseFraming

  /* ---------- what stripping and joining lose ---------- */

  predicate Unblank(text: string, blank: char -> bool) {
    text == "" || !blank(text[0])
  }

  predicate NoLeading(texts: seq<string>, blank: char -> bool) {
    forall i :: 0 <= i < |texts| ==> Unblank(texts[i], blank)
  }

  /** An event that a parser reads without change: no data starts with a blank, and the data is not
      empty where empty data is no event. */
  predicate Clean(event: Event, blank: char -> bool, keepEmpty: bool) {
    NoLeading(Texts(event), blank) && (keepEmpty || Payload(event) != [""])
  }

  predicate AllClean(events: seq<Event>, blank: char -> bool, keepEmpty: bool) {
    forall i :: 0 <= i < |events| ==> Clean(events[i], blank, keepEmpty)
  }

  lemma {:induction false} StripShortens(s: string, blank: char -> bool)
    ensures |TrimStart(s, blank)| <= |s|
    ensures |TrimStart(s, blank)| == |s| <==> Unblank(s, blank)
    ensures Unblank(s, blank) ==> TrimStart(s, blank) == s
  {
    if s != "" && blank(s[0]) {
      StripShortens(s[1..], blank);
    }
  }

  /** Shorter texts join to a shorter one. */
  lemma {:induction false} JoinShorter(a: seq<string>, b: seq<string>)
    requires |a| == |b| && forall i :: 0 <= i < |a| ==> |a[i]| <= |b[i]|
    ensures |Join(a)| <= |Join(b)|
    ensures |Join(a)| == |Join(b)| <==> forall i :: 0 <= i < |a| ==> |a[i]| == |b[i]|
  {
    if a != [] {
      JoinShorter(a[1..], b[1..]);
      assert forall i :: 1 <= i < |a| ==> a[i] == a[1..][i - 1] && b[i] == b[1..][i - 1];
      assert forall i :: 0 <= i < |a[1..]| ==> a[1..][i] == a[i + 1] && b[1..][i] == b[i + 1];
    }
  }

  lemma StrippedJoin(texts: seq<string>, blank: char -> bool)
    ensures |Join(Stripped(texts, blank))| <= |Join(texts)|
    ensures |Join(Stripped(texts, blank))| == |Join(texts)| <==> NoLeading(texts, blank)
    ensures NoLeading(texts, blank) ==> Stripped(texts, blank) == texts
  {
    forall i | 0 <= i < |texts|
      ensures |TrimStart(texts[i], blank)| <= |texts[i]|
      ensures |TrimStart(texts[i], blank)| == |texts[i]| <==> Unblank(texts[i], blank)
      ensures Unblank(texts[i], blank) ==> TrimStart(texts[i], blank) == texts[i]
    {
      StripShortens(texts[i], blank);
    }
    JoinShorter(Stripped(texts, blank), texts);
  }

  /** The size of a list of payloads. */
  function Weight(payloads: seq<string>): nat {
    if payloads == [] then 0 else |payloads[0]| + 1 + Weight(payloads[1..])
  }

  lemma {:induction false} WeightConcat(a: seq<string>, b: seq<string>)
    ensures Weight(a + b) == Weight(a) + Weight(b)
  {
    if a == [] {
      assert a + b == b;
    } else {
      WeightConcat(a[1..], b);
      assert (a + b)[1..] == a[1..] + b;
    }
  }

  lemma EventAsWeight(event: Event, blank: char -> bool, keepEmpty: bool)
    ensures Weight(EventAs(event, blank, keepEmpty)) <= Weight(Payload(event))
    ensures Weight(EventAs(event, blank, keepEmpty)) == Weight(Payload(event)) <==> Clean(event, blank, keepEmpty)
    ensures Clean(event, blank, keepEmpty) ==> EventAs(event, blank, keepEmpty) == Payload(event)
  {
    StrippedJoin(Texts(event), blank);
  }

  lemma {:induction false} ReadAsWeight(events: seq<Event>, blank: char -> bool, keepEmpty: bool)
    ensures Weight(ReadAs(events, blank, keepEmpty)) <= Weight(Payloads(events))
    ensures Weight(ReadAs(events, blank, keepEmpty)) == Weight(Payloads(events)) <==> AllClean(events, blank, keepEmpty)
    ensures AllClean(events, blank, keepEmpty) ==> ReadAs(events, blank, keepEmpty) == Payloads(events)
  {
    if events != [] {
      var rest := events[1..];
      EventAsWeight(events[0], blank, keepEmpty);
      ReadAsWeight(rest, blank, keepEmpty);
      WeightConcat(EventAs(events[0], blank, keepEmpty), ReadAs(rest, blank, keepEmpty));
      WeightConcat(Payload(events[0]), Payloads(rest));
      assert AllClean(events, blank, keepEmpty)
        <==> Clean(events[0], blank, keepEmpty) && AllClean(rest, blank, keepEmpty);
    }
  }

  /** A parser that reads every event by itself is right exactly on clean streams. */
  lemma ReadAsIff(events: seq<Event>, blank: char -> bool, keepEmpty: bool)
    ensures ReadAs(events, blank, keepEmpty) == Payloads(events) <==> AllClean(events, blank, keepEmpty)
  {
    ReadAsWeight(events, blank, keepEmpty);
  }

  /* ---------- the TypeScript parser on carriage returns ---------- */

  /** Without line feeds of its own a text never has two in a row. */
  lemma {:induction false} NoBlockEnd(lines: seq<string>, e: LineEnd)
    requires Plain(lines) && e != LF
    ensures forall j :: !EmptyLineAt(TextOf(lines, e), j)
  {
    if lines != [] {
      NoBlockEnd(lines[1..], e);
      TextStart(lines[1..], e);
      var line, tail := lines[0], TextOf(lines[1..], e);
      var s, k := line + Eol(e) + tail, |line| + |Eol(e)|;
      forall j
        ensures !EmptyLineAt(s, j)
      {
        assert 0 <= j < |line| ==> s[j] == line[j] && line[j] in line;
        assert j >= k ==> EmptyLineAt(s, j) == EmptyLineAt(tail, j - k);
      }
    }
  }

  /** So the whole text is parsed at the end, trimmed, as one block. */
  lemma OneBlock(lines: seq<string>, e: LineEnd)
    requires Plain(lines) && e != LF
    ensures Drain(TextOf(lines, e)) == Drained([], TextOf(lines, e))
    ensures EventsOf(TextOf(lines, e)) == ParseEvent(TrimEnd(TrimStart(TextOf(lines, e), JsBlank), JsBlank))
  {
    NoBlockEnd(lines, e);
  }

  /** Without the empty lines at the start, and at the end. */
  function Front(lines: seq<string>): seq<string> {
    if lines != [] && lines[0] == "" then Front(lines[1..]) else lines
  }

  function Back(lines: seq<string>): seq<string> {
    if lines != [] && lines[|lines| - 1] == "" then Back(lines[..|lines| - 1]) else lines
  }

  lemma EolBlank(e: LineEnd, s: string)
    ensures TrimStart(Eol(e) + s, JsBlank) == TrimStart(s, JsBlank)
    ensures TrimEnd(s + Eol(e), JsBlank) == TrimEnd(s, JsBlank)
  {
    if e == CRLF {
      assert ("\r\n" + s)[1..] == "\n" + s && ("\n" + s)[1..] == s;
      assert (s + "\r\n")[..|s| + 1] == s + "\r" && (s + "\r")[..|s|] == s;
    } else {
      assert (Eol(e) + s)[1..] == s && (s + Eol(e))[..|s|] == s;
    }
  }

  lemma {:induction false} FrontTrims(lines: seq<string>, e: LineEnd)
    requires Plain(lines)
    ensures TrimStart(TextOf(lines, e), JsBlank) == TextOf(Front(lines), e)
  {
    if lines != [] && lines[0] == "" {
      FrontTrims(lines[1..], e);
      assert TextOf(lines, e) == Eol(e) + TextOf(lines[1..], e);
      EolBlank(e, TextOf(lines[1..], e));
    } else if lines != [] {
      assert lines[0] in lines;
    }
  }

  lemma {:induction false} FrontLines(lines: seq<string>)
    requires Plain(lines)
    ensures DataOf(Front(lines), JsBlank) == DataOf(lines, JsBlank)
    ensures Plain(Front(lines))
    ensures Front(lines) != [] ==> Front(lines)[0] != ""
  {
    if lines != [] && lines[0] == "" {
      FrontLines(lines[1..]);
    }
  }

  lemma {:induction false} TrimEndAppend(s: string, x: string, blank: char -> bool)
    requires x != "" && !blank(x[0])
    ensures TrimEnd(s + x, blank) == s + TrimEnd(x, blank)
    ensures TrimEnd(x, blank) != "" && TrimEnd(x, blank)[0] == x[0]
  {
    if blank(x[|x| - 1]) {
      TrimEndAppend(s, x[..|x| - 1], blank);
      assert (s + x)[..|s + x| - 1] == s + x[..|x| - 1];
    }
  }

  lemma TextOfSnoc(lines: seq<string>, last: string, e: LineEnd)
    ensures TextOf(lines + [last], e) == TextOf(lines, e) + last + Eol(e)
  {
    TextOfConcat(lines, [last], e);
    assert [last][1..] == [];
  }

  lemma EmptyLineTrims(init: seq<string>, e: LineEnd)
    ensures TrimEnd(TextOf(init + [""], e), JsBlank) == TrimEnd(TextOf(init, e), JsBlank)
    ensures DataOf(init + [""], JsBlank) == DataOf(init, JsBlank)
  {
    TextOfSnoc(init, "", e);
    EolBlank(e, TextOf(init, e));
    assert TextOf(init, e) + "" == TextOf(init, e);
    DataOfConcat(init, [""], JsBlank);
    NoDataInLine("");
  }

  lemma LastLineTrims(init: seq<string>, last: string, e: LineEnd)
    requires PlainLine(last) && last != ""
    ensures TrimEnd(TextOf(init + [last], e), JsBlank) == TextOf(init, e) + TrimEnd(last, JsBlank)
  {
    TextOfSnoc(init, last, e);
    EolBlank(e, TextOf(init, e) + last);
    TrimEndAppend(TextOf(init, e), last, JsBlank);
  }

  /** Trimming at the end drops the empty lines and trims the last one that is not empty. */
  lemma {:induction false} BackTrims(lines: seq<string>, e: LineEnd)
    requires Plain(lines)
    ensures var b := Back(lines);
      && TrimEnd(TextOf(lines, e), JsBlank)
           == (if b == [] then "" else TextOf(b[..|b| - 1], e) + TrimEnd(b[|b| - 1], JsBlank))
      && DataOf(b, JsBlank) == DataOf(lines, JsBlank)
      && b <= lines && (b != [] ==> b[|b| - 1] != "")
  {
    if lines != [] {
      var init, last := lines[..|lines| - 1], lines[|lines| - 1];
      assert lines == init + [last];
      if last == "" {
        BackTrims(init, e);
        EmptyLineTrims(init, e);
      } else {
        assert PlainLine(last);
        LastLineTrims(init, last, e);
      }
    }
  }

  /** The lines that trimming leaves, the last one still untrimmed. */
  function Core(lines: seq<string>): seq<string> {
    Back(Front(lines))
  }

  /** The text of some lines, trimmed at the end. */
  function TrimmedText(c: seq<string>, e: LineEnd): string {
    if c == [] then "" else TextOf(c[..|c| - 1], e) + TrimEnd(c[|c| - 1], JsBlank)
  }

  lemma CoreTrims(lines: seq<string>, e: LineEnd)
    requires Plain(lines)
    ensures var c := Core(lines);
      && TrimEnd(TrimStart(TextOf(lines, e), JsBlank), JsBlank) == TrimmedText(c, e)
      && DataOf(c, JsBlank) == DataOf(lines, JsBlank)
      && Plain(c)
      && (c != [] ==> c[0] != "" && c[|c| - 1] != "")
  {
    FrontTrims(lines, e);
    FrontLines(lines);
    BackTrims(Front(lines), e);
  }

  function NotEmpty(lines: seq<string>): seq<string> {
    if lines == [] then [] else (if lines[0] != "" then [lines[0]] else []) + NotEmpty(lines[1..])
  }

  lemma {:induction false} NotEmptyConcat(a: seq<string>, b: seq<string>)
    ensures NotEmpty(a + b) == NotEmpty(a) + NotEmpty(b)
  {
    if a == [] {
      assert a + b == b;
    } else {
      NotEmptyConcat(a[1..], b);
      assert (a + b)[1..] == a[1..] + b;
      Associative(if a[0] != "" then [a[0]] else [], NotEmpty(a[1..]), NotEmpty(b));
    }
  }

  lemma {:induction false} NotEmptyFront(lines: seq<string>)
    ensures NotEmpty(Front(lines)) == NotEmpty(lines)
  {
    if lines != [] && lines[0] == "" {
      NotEmptyFront(lines[1..]);
    }
  }

  lemma {:induction false} NotEmptyBack(lines: seq<string>)
    ensures NotEmpty(Back(lines)) == NotEmpty(lines)
  {
    if lines != [] && lines[|lines| - 1] == "" {
      NotEmptyBack(lines[..|lines| - 1]);
      assert lines == lines[..|lines| - 1] + [""];
      NotEmptyConcat(lines[..|lines| - 1], [""]);
    }
  }

  lemma EndsOfNotEmpty(c: seq<string>)
    requires c != [] && c[0] != "" && c[|c| - 1] != ""
    ensures var n := NotEmpty(c);
      n != [] && (|c| == 1 <==> |n| == 1) && c[0] == n[0] && c[|c| - 1] == n[|n| - 1]
  {
    if |c| > 1 {
      var middle, last := c[1..|c| - 1], c[|c| - 1];
      assert c[1..] == middle + [last];
      NotEmptyConcat(middle, [last]);
      assert NotEmpty([last]) == [last];
    } else {
      assert c[1..] == [];
    }
  }

  /** First and last of the lines that are not empty. */
  lemma CoreEnds(lines: seq<string>)
    requires Plain(lines)
    ensures var c, n := Core(lines), NotEmpty(lines);
      && (c == [] <==> n == []) && (|c| == 1 <==> |n| == 1)
      && (c != [] ==> c[0] == n[0] && c[|c| - 1] == n[|n| - 1])
  {
    CoreTrims(lines, LF);
    NotEmptyFront(lines);
    NotEmptyBack(Front(lines));
    if Core(lines) != [] {
      EndsOfNotEmpty(Core(lines));
    }
  }

  lemma {:induction false} WrittenConcat(a: Event, b: Event)
    ensures WrittenLines(a + b) == WrittenLines(a) + WrittenLines(b)
  {
    if a == [] {
      assert a + b == b;
    } else {
      WrittenConcat(a[1..], b);
      assert (a + b)[1..] == a[1..] + b;
      Associative([Written(a[0])], WrittenLines(a[1..]), WrittenLines(b));
    }
  }

  lemma {:induction false} NotEmptyAll(lines: seq<string>)
    requires NoneEmpty(lines)
    ensures NotEmpty(lines) == lines
  {
    if lines != [] {
      NotEmptyAll(lines[1..]);
    }
  }

  lemma NotEmptyOfEvent(event: Event, rest: seq<string>)
    requires AllWellFormed(event)
    ensures NotEmpty(WrittenLines(event) + ([""] + rest)) == WrittenLines(event) + NotEmpty(rest)
  {
    WrittenLinesPlain(event);
    NotEmptyConcat(WrittenLines(event), [""] + rest);
    NotEmptyAll(WrittenLines(event));
    assert ([""] + rest)[1..] == rest;
  }

  lemma {:induction false} NotEmptyLines(events: seq<Event>)
    requires AllWellFramed(events)
    ensures NotEmpty(Lines(events)) == WrittenLines(AllLines(events))
  {
    if events != [] {
      NotEmptyLines(events[1..]);
      NotEmptyOfEvent(events[0], Lines(events[1..]));
      WrittenConcat(events[0], AllLines(events[1..]));
    }
  }

  lemma {:induction false} AllLinesWellFormed(events: seq<Event>)
    requires AllWellFramed(events)
    ensures AllWellFormed(AllLines(events))
  {
    if events != [] {
      AllLinesWellFormed(events[1..]);
    }
  }

  lemma DataOfEvent(event: Event, rest: seq<string>)
    requires AllWellFormed(event)
    ensures DataOf(WrittenLines(event) + ([""] + rest), JsBlank)
         == Stripped(Texts(event), JsBlank) + DataOf(rest, JsBlank)
  {
    WrittenData(event, JsBlank);
    DataOfConcat(WrittenLines(event), [""] + rest, JsBlank);
    DataOfConcat([""], rest, JsBlank);
    NoDataInLine("");
  }

  lemma {:induction false} LinesData(events: seq<Event>)
    requires AllWellFramed(events)
    ensures DataOf(Lines(events), JsBlank) == Stripped(Texts(AllLines(events)), JsBlank)
  {
    if events != [] {
      LinesData(events[1..]);
      DataOfEvent(events[0], Lines(events[1..]));
      TextsConcat(events[0], AllLines(events[1..]));
      StrippedConcat(Texts(events[0]), Texts(AllLines(events[1..])), JsBlank);
    }
  }

  /** The text of a data line that is trimmed before it is read. */
  function TrimBoth(text: string): string {
    TrimStart(TrimEnd(text, JsBlank), JsBlank)
  }

  /** Trimming a written line trims its data. */
  lemma TrimmedLine(l: Line)
    requires WellFormed(l)
    ensures OneLine(TrimEnd(Written(l), JsBlank))
    ensures DataOf([TrimEnd(Written(l), JsBlank)], JsBlank) == if l.Data? then [TrimBoth(l.text)] else []
  {
    WrittenPlain(l);
    TrimEndPrefix(Written(l), JsBlank);
    var trimmed := TrimEnd(Written(l), JsBlank);
    assert forall c :: c in trimmed ==> c in Written(l);
    if l.Data? {
      TrimmedData(l);
    } else {
      NoDataInLine(trimmed);
    }
  }

  lemma {:induction false} TrimEndAfter(s: string, x: string, blank: char -> bool)
    requires s != "" && !blank(s[|s| - 1])
    ensures TrimEnd(s + x, blank) == s + TrimEnd(x, blank)
  {
    if x == "" {
      assert s + x == s;
    } else if blank(x[|x| - 1]) {
      TrimEndAfter(s, x[..|x| - 1], blank);
      assert (s + x)[..|s + x| - 1] == s + x[..|x| - 1];
    }
  }

  lemma {:induction false} SpaceBeforeTrims(text: string)
    ensures TrimBoth(" " + text) == TrimBoth(text)
  {
    var s := " " + text;
    if text == "" {
      assert s[..0] == "";
    } else if JsBlank(text[|text| - 1]) {
      SpaceBeforeTrims(text[..|text| - 1]);
      assert s[..|s| - 1] == " " + text[..|text| - 1];
    } else {
      assert s[1..] == text;
    }
  }

  lemma TrimmedData(l: Line)
    requires WellFormed(l) && l.Data?
    ensures DataOf([TrimEnd(Written(l), JsBlank)], JsBlank) == [TrimBoth(l.text)]
  {
    var rest := if l.spaced then " " + l.text else l.text;
    assert (if l.spaced then "data: " else "data:") == DATA + if l.spaced then " " else "";
    assert Written(l) == DATA + rest;
    TrimEndAfter(DATA, rest, JsBlank);
    AfterPrefix(DATA, TrimEnd(rest, JsBlank));
    DataOfOne(DATA + TrimEnd(rest, JsBlank));
    SpaceBeforeTrims(l.text);
  }

  lemma DataOfOne(line: string)
    requires IsData(line)
    ensures DataOf([line], JsBlank) == [TrimStart(line[|DATA|..], JsBlank)]
  {
    assert [line][1..] == [];
  }

  lemma AfterPrefix(prefix: string, rest: string)
    ensures prefix <= prefix + rest && (prefix + rest)[|prefix|..] == rest
  {
  }

  /* ---------- when the TypeScript parser is right ---------- */

  /** The last line of the stream is data that ends in a blank. */
  predicate EndsBlank(events: seq<Event>) {
    var all := AllLines(events);
    all != [] && all[|all| - 1].Data? && all[|all| - 1].text != ""
      && JsBlank(all[|all| - 1].text[|all[|all| - 1].text| - 1])
  }

  /** The data that is read if lines end in a carriage return and a line feed: that of all events
      together, trimmed at the end. */
  function AllTexts(events: seq<Event>): seq<string> {
    TrimmedTexts(AllLines(events))
  }

  function TrimmedTexts(all: Event): seq<string> {
    if all == [] then []
    else
      var last := all[|all| - 1];
      Stripped(Texts(all[..|all| - 1]), JsBlank) + if last.Data? then [TrimBoth(last.text)] else []
  }

  lemma TextsSnoc(all: Event)
    requires all != []
    ensures Texts(all) == Texts(all[..|all| - 1]) + if all[|all| - 1].Data? then [all[|all| - 1].text] else []
  {
    assert all == all[..|all| - 1] + [all[|all| - 1]];
    TextsConcat(all[..|all| - 1], [all[|all| - 1]]);
  }

  /** Lines that end in a written line, with that line trimmed instead. */
  lemma TrimmedLast(init: seq<string>, all: Event)
    requires AllWellFormed(all) && all != []
    requires DataOf(init + [Written(all[|all| - 1])], JsBlank) == Stripped(Texts(all), JsBlank)
    ensures DataOf(init, JsBlank) == Stripped(Texts(all[..|all| - 1]), JsBlank)
  {
    var before, last := Texts(all[..|all| - 1]), all[|all| - 1];
    var own := if last.Data? then [last.text] else [];
    DataOfConcat(init, [Written(last)], JsBlank);
    LastData(last);
    TextsSnoc(all);
    StrippedConcat(before, own, JsBlank);
    SameFront(DataOf(init, JsBlank), Stripped(before, JsBlank), Stripped(own, JsBlank));
  }

  /** The trimmed core of a stream starts and ends with its first and last line. */
  lemma CoreOf(events: seq<Event>)
    requires AllWellFramed(events)
    ensures var c, all := Core(Lines(events)), AllLines(events);
      && AllWellFormed(all) && Plain(c) && DataOf(c, JsBlank) == Stripped(Texts(all), JsBlank)
      && (c == [] <==> all == []) && (|c| == 1 <==> |all| == 1)
      && (c != [] ==> c[0] == Written(all[0]) && c[|c| - 1] == Written(all[|all| - 1]))
  {
    var lines, all := Lines(events), AllLines(events);
    StreamLinesPlain(events);
    CoreTrims(lines, CRLF);
    CoreEnds(lines);
    NotEmptyLines(events);
    AllLinesWellFormed(events);
    LinesData(events);
    WrittenLinesPlain(all);
    if all != [] {
      WrittenAt(all, 0);
      WrittenAt(all, |all| - 1);
    }
  }

  /** Its data, the last line trimmed. */
  lemma TrimmedCore(c: seq<string>, all: Event)
    requires AllWellFormed(all) && all != [] && Plain(c) && c != []
    requires DataOf(c, JsBlank) == Stripped(Texts(all), JsBlank) && c[|c| - 1] == Written(all[|all| - 1])
    ensures OneLine(TrimEnd(c[|c| - 1], JsBlank)) && Plain(c[..|c| - 1])
    ensures DataOf(c[..|c| - 1] + [TrimEnd(c[|c| - 1], JsBlank)], JsBlank) == TrimmedTexts(all)
  {
    var init, last := c[..|c| - 1], all[|all| - 1];
    assert c == init + [Written(last)];
    TrimmedLast(init, all);
    TrimmedLine(last);
    DataOfConcat(init, [TrimEnd(Written(last), JsBlank)], JsBlank);
  }

  lemma LastData(l: Line)
    requires WellFormed(l)
    ensures DataOf([Written(l)], JsBlank) == Stripped(if l.Data? then [l.text] else [], JsBlank)
  {
    if l.Data? {
      WrittenRest(l, JsBlank);
      DataOfOne(Written(l));
    } else {
      WrittenPlain(l);
      NoDataInLine(Written(l));
    }
  }

  /** On carriage returns with line feeds all events come out as one. */
  lemma CrlfJoinsEverything(events: seq<Event>)
    requires AllWellFramed(events)
    ensures EventsOf(Encode(events, CRLF)) == Dispatch(AllTexts(events))
  {
    var lines := Lines(events);
    StreamLinesPlain(events);
    OneBlock(lines, CRLF);
    CoreTrims(lines, CRLF);
    CoreOf(events);
    var c := Core(lines);
    EmptyBlockHasNoEvent();
    if AllLines(events) != [] {
      TrimmedCore(c, AllLines(events));
      BodyParses(c[..|c| - 1], TrimEnd(c[|c| - 1], JsBlank), CRLF);
    }
  }

  lemma SameFront(a: seq<string>, b: seq<string>, tail: seq<string>)
    requires a + tail == b + tail
    ensures a == b
  {
    assert |a + tail| == |a| + |tail| && |b + tail| == |b| + |tail|;
    assert (a + tail)[..|a|] == a && (b + tail)[..|b|] == b;
  }

  /** One payload is the data of the whole stream. */
  lemma {:induction false} SinglePayload(events: seq<Event>)
    ensures Payloads(events) == [] ==> Texts(AllLines(events)) == []
    ensures |Payloads(events)| == 1 ==>
              Texts(AllLines(events)) != [] && Payloads(events) == [Join(Texts(AllLines(events)))]
  {
    if events != [] {
      var rest := events[1..];
      SinglePayload(rest);
      TextsConcat(events[0], AllLines(rest));
      if Texts(events[0]) == [] {
        assert Payloads(events) == Payloads(rest);
        assert Texts(AllLines(events)) == Texts(AllLines(rest));
      } else if Payloads(rest) == [] {
        assert Payloads(events) == Payload(events[0]);
        assert Texts(AllLines(events)) == Texts(events[0]);
      }
    }
  }

  /** When one payload is read without change. */
  lemma {:induction false} SingleClean(events: seq<Event>)
    requires |Payloads(events)| <= 1
    ensures var texts := Texts(AllLines(events));
      AllClean(events, JsBlank, false) <==> NoLeading(texts, JsBlank) && (texts != [] ==> Join(texts) != "")
  {
    SinglePayload(events);
    if events != [] {
      var rest := events[1..];
      SingleClean(rest);
      SinglePayload(rest);
      TextsConcat(events[0], AllLines(rest));
      assert Texts(events[0]) == [] ==> Texts(AllLines(events)) == Texts(AllLines(rest));
      assert Payloads(rest) == [] ==> Texts(AllLines(events)) == Texts(events[0]);
      assert AllClean(events, JsBlank, false) <==> Clean(events[0], JsBlank, false) && AllClean(rest, JsBlank, false);
    }
  }

  lemma {:induction false} TrimEndShortens(s: string)
    ensures |TrimEnd(s, JsBlank)| <= |s|
    ensures TrimEnd(s, JsBlank) == s <==> s == "" || !JsBlank(s[|s| - 1])
    ensures TrimEnd(s, JsBlank) != s ==> |TrimEnd(s, JsBlank)| < |s|
  {
    if s != "" && JsBlank(s[|s| - 1]) {
      TrimEndShortens(s[..|s| - 1]);
    }
  }

  lemma TrimBothShortens(s: string)
    ensures |TrimBoth(s)| <= |s|
    ensures |TrimBoth(s)| == |s| <==> s == "" || (!JsBlank(s[0]) && !JsBlank(s[|s| - 1]))
  {
    TrimEndShortens(s);
    StripShortens(TrimEnd(s, JsBlank), JsBlank);
    StripShortens(s, JsBlank);
  }

  /** Trimming leaves the joined data as it is exactly if no text starts with a blank and the last line
      is no data that ends in one. */
  lemma TrimmedJoin(events: seq<Event>)
    ensures var texts := Texts(AllLines(events));
      && (AllTexts(events) == [] <==> texts == [])
      && (Join(AllTexts(events)) == Join(texts) <==> NoLeading(texts, JsBlank) && !EndsBlank(events))
  {
    var all := AllLines(events);
    var texts, trimmed := Texts(all), AllTexts(events);
    if all != [] {
      var before := Texts(all[..|all| - 1]);
      TextsSnoc(all);
      forall i | 0 <= i < |texts|
        ensures |trimmed| == |texts| && |trimmed[i]| <= |texts[i]|
        ensures |trimmed[i]| == |texts[i]| <==>
                  Unblank(texts[i], JsBlank) && (i == |before| ==> !EndsBlank(events))
        ensures |trimmed[i]| == |texts[i]| ==> trimmed[i] == texts[i]
      {
        StripShortens(texts[i], JsBlank);
        if i == |before| {
          TrimBothShortens(texts[i]);
          TrimEndShortens(texts[i]);
        }
      }
      assert EndsBlank(events) ==> |texts| == |before| + 1;
      TrimmedTextsIff(events, texts, trimmed, |before|);
    }
  }

  lemma TrimmedTextsIff(events: seq<Event>, texts: seq<string>, trimmed: seq<string>, last: nat)
    requires |trimmed| == |texts| && (EndsBlank(events) ==> |texts| == last + 1)
    requires forall i :: 0 <= i < |texts| ==> |trimmed[i]| <= |texts[i]|
    requires forall i :: 0 <= i < |texts| ==>
      (|trimmed[i]| == |texts[i]| <==> Unblank(texts[i], JsBlank) && (i == last ==> !EndsBlank(events)))
    requires forall i :: 0 <= i < |texts| && |trimmed[i]| == |texts[i]| ==> trimmed[i] == texts[i]
    ensures Join(trimmed) == Join(texts) <==> NoLeading(texts, JsBlank) && !EndsBlank(events)
  {
    JoinShorter(trimmed, texts);
    if NoLeading(texts, JsBlank) && !EndsBlank(events) {
      assert trimmed == texts;
    } else if EndsBlank(events) {
      assert |trimmed[last]| != |texts[last]|;
    } else {
      var i :| 0 <= i < |texts| && !Unblank(texts[i], JsBlank);
      assert |trimmed[i]| != |texts[i]|;
    }
  }

  /** When all the data as one event is the payloads of the stream. */
  lemma DispatchIff(events: seq<Event>)
    ensures Dispatch(AllTexts(events)) == Payloads(events)
       <==> |Payloads(events)| <= 1 && !EndsBlank(events) && AllClean(events, JsBlank, false)
  {
    SinglePayload(events);
    TrimmedJoin(events);
    if |Payloads(events)| <= 1 {
      SingleClean(events);
    }
    if Payloads(events) == [] {
      NoDataNoBlankEnd(events);
    }
  }

  lemma NoDataNoBlankEnd(events: seq<Event>)
    requires Texts(AllLines(events)) == []
    ensures !EndsBlank(events) && AllTexts(events) == []
  {
    if AllLines(events) != [] {
      TextsSnoc(AllLines(events));
    }
  }

  lemma TrimmedOneLine(line: string)
    requires OneLine(line)
    ensures OneLine(TrimEnd(line, JsBlank))
  {
    TrimEndPrefix(line, JsBlank);
    assert forall c :: c in TrimEnd(line, JsBlank) ==> c in line;
  }

  /** A text of carriage returns is one line. */
  lemma CrText(c: seq<string>)
    requires Plain(c)
    ensures ParseEvent(TrimmedText(c, CR)) == if c == [] then [] else Dispatch(DataOf([TrimmedText(c, CR)], JsBlank))
  {
    if c == [] {
      EmptyBlockHasNoEvent();
    } else {
      var last := c[|c| - 1];
      assert PlainLine(last);
      TrimmedOneLine(last);
      OneLineHasNoFeed(TrimEnd(last, JsBlank));
      NoFeedInText(c[..|c| - 1]);
      NoNewline(TrimmedText(c, CR));
    }
  }

  /** On carriage returns alone the stream is one line. */
  lemma CrIsOneLine(events: seq<Event>)
    requires AllWellFramed(events)
    ensures var c := Core(Lines(events));
      EventsOf(Encode(events, CR)) == if c == [] then [] else Dispatch(DataOf([TrimmedText(c, CR)], JsBlank))
  {
    StreamLinesPlain(events);
    OneBlock(Lines(events), CR);
    CoreTrims(Lines(events), CR);
    CrText(Core(Lines(events)));
  }

  lemma {:induction false} NoFeedInText(lines: seq<string>)
    requires Plain(lines)
    ensures '\n' !in TextOf(lines, CR)
  {
    if lines != [] {
      NoFeedInText(lines[1..]);
      assert lines[0] in lines;
      OneLineHasNoFeed(lines[0]);
    }
  }

  lemma SingleLine(c: seq<string>)
    requires |c| == 1
    ensures TrimmedText(c, CR) == TrimEnd(c[0], JsBlank)
    ensures c[..|c| - 1] + [TrimEnd(c[|c| - 1], JsBlank)] == [TrimEnd(c[0], JsBlank)]
  {
    assert c[..0] == [] && TextOf(c[..0], CR) == "";
  }

  /** A stream of one line, whatever the line end. */
  lemma OneLineStream(events: seq<Event>)
    requires AllWellFramed(events) && |AllLines(events)| == 1
    ensures EventsOf(Encode(events, CR)) == Dispatch(AllTexts(events))
  {
    var c := Core(Lines(events));
    CrIsOneLine(events);
    CoreOf(events);
    TrimmedCore(c, AllLines(events));
    SingleLine(c);
  }

  lemma {:induction false} JoinHasNoReturn(texts: seq<string>)
    requires forall i :: 0 <= i < |texts| ==> OneLine(texts[i])
    ensures '\r' !in Join(texts)
  {
    if texts != [] {
      OneLineHasNoFeed(texts[0]);
      JoinHasNoReturn(texts[1..]);
    }
  }

  lemma JoinStart(texts: seq<string>)
    requires texts != [] && Join(texts) != ""
    ensures Join(texts)[0] == if texts[0] == "" then '\n' else texts[0][0]
  {
  }

  lemma {:induction false} TextsOneLine(all: Event)
    requires AllWellFormed(all)
    ensures forall i :: 0 <= i < |Texts(all)| ==> OneLine(Texts(all)[i])
  {
    if all != [] {
      TextsOneLine(all[1..]);
    }
  }

  lemma {:induction false} TrimStartUnblank(s: string)
    ensures TrimStart(s, JsBlank) != "" ==> !JsBlank(TrimStart(s, JsBlank)[0])
  {
    if s != "" && JsBlank(s[0]) {
      TrimStartUnblank(s[1..]);
    }
  }

  /** The data of a first line of data with more text behind it. */
  lemma DataWithMore(l: Line, more: string)
    requires WellFormed(l) && l.Data?
    ensures DataOf([Written(l) + more], JsBlank)
         == [TrimStart((if l.spaced then " " else "") + (l.text + more), JsBlank)]
  {
    var head := if l.spaced then " " else "";
    assert (if l.spaced then "data: " else "data:") == DATA + head;
    Associative(DATA, head, l.text);
    Associative(DATA, head + l.text, more);
    Associative(head, l.text, more);
    AfterPrefix(DATA, head + (l.text + more));
    DataOfOne(Written(l) + more);
  }

  lemma TrimSpace(spaced: bool, s: string)
    ensures TrimStart((if spaced then " " else "") + s, JsBlank) == TrimStart(s, JsBlank)
  {
    if spaced {
      assert (" " + s)[1..] == s;
    } else {
      assert "" + s == s;
    }
  }

  /** Text behind a return is kept if anything before it is. */
  lemma {:induction false} TrimStartKeeps(text: string, more: string)
    ensures (exists i :: 0 <= i < |text| && !JsBlank(text[i])) ==> '\r' in TrimStart(text + ("\r" + more), JsBlank)
  {
    var s := text + ("\r" + more);
    if text != "" {
      if JsBlank(text[0]) {
        TrimStartKeeps(text[1..], more);
        assert s[1..] == text[1..] + ("\r" + more);
        assert forall i :: 0 <= i < |text| && !JsBlank(text[i]) ==> i > 0 && text[1..][i - 1] == text[i];
      } else {
        assert s[|text|] == '\r';
      }
    }
  }

  /** A first line of data with more lines behind it: what is read has a carriage return in it, or
      else does not start with the blank that the data starts with. */
  lemma ReadsTooMuch(l: Line, more: string, texts: seq<string>)
    requires WellFormed(l) && l.Data?
    requires texts != [] && texts[0] == l.text && forall i :: 0 <= i < |texts| ==> OneLine(texts[i])
    ensures Dispatch(DataOf([Written(l) + "\r" + more], JsBlank)) != [Join(texts)]
  {
    assert Written(l) + "\r" + more == Written(l) + ("\r" + more);
    DataWithMore(l, "\r" + more);
    var kept := l.text + ("\r" + more);
    TrimSpace(l.spaced, kept);
    TrimStartKeeps(l.text, more);
    TrimStartUnblank(kept);
    JoinHasNoReturn(texts);
    if Join(texts) != "" {
      JoinStart(texts);
      assert l.text != "" && !JsBlank(l.text[0]) ==> exists i :: 0 <= i < |l.text| && !JsBlank(l.text[i]);
    }
  }

  lemma NoDataFirst(l: Line, more: string)
    requires WellFormed(l) && l.Other?
    ensures DataOf([Written(l) + "\r" + more], JsBlank) == []
  {
    var w, line := Written(l), Written(l) + "\r" + more;
    if |w| >= |DATA| {
      assert line[..|DATA|] == w[..|DATA|];
    } else {
      assert line[|w|] == '\r' && DATA[|w|] != '\r';
    }
    NoDataInLine(line);
  }

  lemma SplitFirst(c: seq<string>) returns (more: string)
    requires |c| > 1
    ensures TrimmedText(c, CR) == c[0] + "\r" + more
  {
    var init, last := c[..|c| - 1], TrimEnd(c[|c| - 1], JsBlank);
    more := TextOf(init[1..], CR) + last;
    FirstOfText(init, last, CR);
  }

  /** What is read of several lines ended by carriage returns. */
  lemma ManyLinesText(events: seq<Event>) returns (more: string)
    requires AllWellFramed(events) && |AllLines(events)| > 1
    ensures EventsOf(Encode(events, CR)) == Dispatch(DataOf([Written(AllLines(events)[0]) + "\r" + more], JsBlank))
  {
    CrIsOneLine(events);
    CoreOf(events);
    more := SplitFirst(Core(Lines(events)));
  }

  /** Several lines ended by carriage returns are read right exactly if there is no data. */
  lemma ManyLinesOnCr(events: seq<Event>)
    requires AllWellFramed(events) && |AllLines(events)| > 1
    ensures EventsOf(Encode(events, CR)) == Payloads(events) <==> Payloads(events) == []
  {
    var all := AllLines(events);
    var more := ManyLinesText(events);
    AllLinesWellFormed(events);
    SinglePayload(events);
    if all[0].Other? {
      NoDataFirst(all[0], more);
    } else if |Payloads(events)| == 1 {
      TextsOneLine(all);
      ReadsTooMuch(all[0], more, Texts(all));
    }
  }

  lemma CrIff(events: seq<Event>)
    requires AllWellFramed(events)
    ensures EventsOf(Encode(events, CR)) == Payloads(events)
       <==> Payloads(events) == []
            || (|AllLines(events)| == 1 && !EndsBlank(events) && AllClean(events, JsBlank, false))
  {
    var all := AllLines(events);
    OneTextOnePayload(events);
    if all == [] {
      CrIsOneLine(events);
      CoreOf(events);
    } else if |all| == 1 {
      OneLineStream(events);
      DispatchIff(events);
      if Payloads(events) == [] {
        SinglePayload(events);
        SingleClean(events);
        NoDataNoBlankEnd(events);
      }
    } else {
      ManyLinesOnCr(events);
    }
  }

  lemma {:induction false} OneTextOnePayload(events: seq<Event>)
    ensures |Payloads(events)| <= |Texts(AllLines(events))| <= |AllLines(events)|
  {
    if events != [] {
      OneTextOnePayload(events[1..]);
      TextsConcat(events[0], AllLines(events[1..]));
      FewTexts(events[0]);
    }
  }

  lemma {:induction false} FewTexts(event: Event)
    ensures |Texts(event)| <= |event|
  {
    if event != [] {
      FewTexts(event[1..]);
    }
  }
}
