/** The answer stream: frames written by api/routes.py and read back by
    frontend/src/lib/api.ts, a restricted form of section 9.2 of the WHATWG HTML Living
    Standard.  A read is the decoded text of one network read, cut anywhere. */
module EventStream {
  import opened Seqs
  import opened Text

  // ----- writing

  /** One frame around one JSON payload. */
  function Frame(payload: string): string { "data: " + payload + "\n\n" }

  function Stream<E>(dumps: E -> string, events: seq<E>): string {
    if events == [] then "" else Frame(dumps(events[0])) + Stream(dumps, events[1..])
  }

  // ----- reading

  /** What JavaScript's `trim` removes. */
  predicate JsSpace(c: char) {
    || '\t' <= c <= '\r' || c == ' ' || c == '\U{a0}' || c == '\U{1680}'
    || '\U{2000}' <= c <= '\U{200a}'
    || c == '\U{2028}' || c == '\U{2029}' || c == '\U{202f}' || c == '\U{205f}' || c == '\U{3000}' || c == '\U{feff}'
  }

  function TrimStart(s: string): string {
    if s != "" && JsSpace(s[0]) then TrimStart(s[1..]) else s
  }

  function TrimEnd(s: string): string {
    if s != "" && JsSpace(s[|s| - 1]) then TrimEnd(s[..|s| - 1]) else s
  }

  function Trim(s: string): string { TrimEnd(TrimStart(s)) }

  /** The event on a line: none if it is no data line, is empty or does not parse. */
  function LineEvents<E>(parse: string -> Option<E>, line: string): seq<E> {
    if !StartsWith(line, "data:") then []
    else
      var payload := Trim(line[5..]);
      if payload == "" then []
      else match parse(payload) case None => [] case Some(e) => [e]
  }

  function LinesEvents<E>(parse: string -> Option<E>, lines: seq<string>): seq<E> {
    if lines == [] then [] else LineEvents(parse, lines[0]) + LinesEvents(parse, lines[1..])
  }

  function FrameEvents<E>(parse: string -> Option<E>, frame: string): seq<E> {
    LinesEvents(parse, Split(frame, "\n"))
  }

  /** The events of the whole frames at the head of a text. */
  function Events<E>(parse: string -> Option<E>, text: string): seq<E>
    decreases |text|
  {
    var k := IndexOf(text, "\n\n");
    if k < 0 then [] else FrameEvents(parse, text[..k]) + Events(parse, text[k + 2..])
  }

  /** The piece of a frame that is left over behind them. */
  function Rest(text: string): string
    decreases |text|
  {
    var k := IndexOf(text, "\n\n");
    if k < 0 then text else Rest(text[k + 2..])
  }

  /** The reader's loops: the events are those of the concatenated reads, so they do not
      depend on where the network cut the text. */
  method AskStream<E>(parse: string -> Option<E>, pieces: seq<string>) returns (events: seq<E>)
    ensures events == Events(parse, Concat(pieces))
  {
    events := [];
    var buffer := "";
    for n := 0 to |pieces|
      invariant events == Events(parse, Concat(pieces[..n]))
      invariant buffer == Rest(Concat(pieces[..n]))
    {
      assert pieces[..n + 1] == pieces[..n] + [pieces[n]];
      ConcatSnoc(pieces[..n], pieces[n]);
      EventsOfConcat(parse, Concat(pieces[..n]), pieces[n]);
      buffer := buffer + pieces[n];
      var more;
      more, buffer := DrainBuffer(parse, buffer);
      events := events + more;
    }
    assert pieces[..|pieces|] == pieces;
  }

  method DrainBuffer<E>(parse: string -> Option<E>, text: string) returns (events: seq<E>, buffer: string)
    ensures events == Events(parse, text) && buffer == Rest(text)
  {
    events, buffer := [], text;
    var split := IndexOf(buffer, "\n\n");
    while split >= 0
      invariant split == IndexOf(buffer, "\n\n")
      invariant events + Events(parse, buffer) == Events(parse, text)
      invariant Rest(buffer) == Rest(text)
      decreases |buffer|
    {
      var found := ReadFrame(parse, buffer[..split]);
      Assoc(events, found, Events(parse, buffer[split + 2..]));
      events, buffer := events + found, buffer[split + 2..];
      split := IndexOf(buffer, "\n\n");
    }
  }

  method ReadFrame<E>(parse: string -> Option<E>, frame: string) returns (events: seq<E>)
    ensures events == FrameEvents(parse, frame)
  {
    events := [];
    var lines := Split(frame, "\n");
    for m := 0 to |lines|
      invariant events + LinesEvents(parse, lines[m..]) == LinesEvents(parse, lines)
    {
      assert lines[m..][1..] == lines[m + 1..];
      Assoc(events, LineEvents(parse, lines[m]), LinesEvents(parse, lines[m + 1..]));
      var found := ReadLine(parse, lines[m]);
      events := events + found;
    }
  }

  method ReadLine<E>(parse: string -> Option<E>, line: string) returns (events: seq<E>)
    ensures events == LineEvents(parse, line)
  {
    if !StartsWith(line, "data:") { return []; }
    var payload := Trim(line[5..]);
    if payload == "" { return []; }
    var parsed := parse(payload);
    events := if parsed.Some? then [parsed.value] else [];
  }

  /** A frame is found no later when more text follows. */
  lemma IndexStays(a: string, b: string)
    requires IndexOf(a, "\n\n") >= 0
    ensures IndexOf(a + b, "\n\n") == IndexOf(a, "\n\n")
  {
    var k := IndexOf(a, "\n\n");
    assert (a + b)[k..k + 2] == a[k..k + 2];
    assert OccursAt(a + b, "\n\n", k);
    var j := IndexOf(a + b, "\n\n");
    assert (a + b)[j..j + 2] == a[j..j + 2];
    assert OccursAt(a, "\n\n", j);
  }

  /** Reading `a` and then `b` behind what `a` left over is reading `a + b`, wherever the cut
      between them falls. */
  lemma {:induction false} EventsOfConcat<E>(parse: string -> Option<E>, a: string, b: string)
    ensures Events(parse, a + b) == Events(parse, a) + Events(parse, Rest(a) + b)
    ensures Rest(a + b) == Rest(Rest(a) + b)
    decreases |a|
  {
    var k := IndexOf(a, "\n\n");
    if k >= 0 {
      IndexStays(a, b);
      assert (a + b)[..k] == a[..k] && (a + b)[k + 2..] == a[k + 2..] + b;
      EventsOfConcat(parse, a[k + 2..], b);
      Assoc(FrameEvents(parse, a[..k]), Events(parse, a[k + 2..]), Events(parse, Rest(a) + b));
    }
  }

  // ----- the round trip

  /** What `json.dumps` guarantees for an object: one line, no white space at its ends, and
      parsing gives the event back. */
  ghost predicate Faithful<E(!new)>(parse: string -> Option<E>, dumps: E -> string) {
    forall e ::
      && dumps(e) != "" && '\n' !in dumps(e)
      && !JsSpace(dumps(e)[0]) && !JsSpace(dumps(e)[|dumps(e)| - 1])
      && parse(dumps(e)) == Some(e)
  }

  lemma OneLine(s: string)
    requires '\n' !in s
    ensures Split(s, "\n") == [s]
  {
    forall i: nat ensures !OccursAt(s, "\n", i) {
      if i < |s| { assert s[i] in s && s[i..i + 1][0] == s[i]; }
    }
  }

  lemma EndOfFrame(line: string, rest: string)
    requires '\n' !in line
    ensures IndexOf(line + "\n\n" + rest, "\n\n") == |line|
  {
    var text := line + "\n\n" + rest;
    assert text[|line|..|line| + 2] == "\n\n";
    assert OccursAt(text, "\n\n", |line|);
    forall i | 0 <= i < |line| ensures !OccursAt(text, "\n\n", i) {
      assert text[i] == line[i] && line[i] in line && text[i..i + 2][0] == text[i];
    }
  }

  lemma TrimmedPayload(payload: string)
    requires payload != "" && !JsSpace(payload[0]) && !JsSpace(payload[|payload| - 1])
    ensures Trim(" " + payload) == payload
  {
    assert (" " + payload)[1..] == payload;
    assert TrimStart(" " + payload) == TrimStart(payload) == payload;
  }

  lemma FrameIsOneEvent<E(!new)>(parse: string -> Option<E>, dumps: E -> string, e: E, rest: string)
    requires Faithful(parse, dumps)
    ensures Events(parse, Frame(dumps(e)) + rest) == [e] + Events(parse, rest)
  {
    var line := "data: " + dumps(e);
    assert Frame(dumps(e)) + rest == line + "\n\n" + rest;
    EndOfFrame(line, rest);
    var text := line + "\n\n" + rest;
    assert text[..|line|] == line && text[|line| + 2..] == rest;
    DataLine(parse, dumps, e);
    assert Events(parse, text) == FrameEvents(parse, text[..|line|]) + Events(parse, text[|line| + 2..]);
  }

  lemma DataLine<E(!new)>(parse: string -> Option<E>, dumps: E -> string, e: E)
    requires Faithful(parse, dumps)
    ensures FrameEvents(parse, "data: " + dumps(e)) == [e]
  {
    var line := "data: " + dumps(e);
    OneLine(line);
    assert line[..5] == "data:" && line[5..] == " " + dumps(e);
    TrimmedPayload(dumps(e));
    assert LineEvents(parse, line) == [e];
    assert [line][1..] == [];
    assert LinesEvents(parse, [line]) == LineEvents(parse, line) + LinesEvents(parse, [line][1..]) == [e];
  }

  lemma {:induction false} StreamIsItsEvents<E(!new)>(parse: string -> Option<E>, dumps: E -> string, events: seq<E>)
    requires Faithful(parse, dumps)
    ensures Events(parse, Stream(dumps, events)) == events
  {
    if events != [] {
      FrameIsOneEvent(parse, dumps, events[0], Stream(dumps, events[1..]));
      StreamIsItsEvents(parse, dumps, events[1..]);
    }
  }

  /** However the frames of a list of events are cut into reads, the reader yields exactly
      those events, in order. */
  lemma StreamRoundTrip<E(!new)>(parse: string -> Option<E>, dumps: E -> string, events: seq<E>, pieces: seq<string>)
    requires Faithful(parse, dumps) && Concat(pieces) == Stream(dumps, events)
    ensures Events(parse, Concat(pieces)) == events
  {
    StreamIsItsEvents(parse, dumps, events);
  }

  lemma {:induction false} StreamOfConcat<E>(dumps: E -> string, a: seq<E>, b: seq<E>)
    ensures Stream(dumps, a + b) == Stream(dumps, a) + Stream(dumps, b)
  {
    if a == [] {
      assert a + b == b;
    } else {
      assert (a + b)[1..] == a[1..] + b;
      StreamOfConcat(dumps, a[1..], b);
      Assoc(Frame(dumps(a[0])), Stream(dumps, a[1..]), Stream(dumps, b));
    }
  }

  /** If the connection is lost inside the frame of one event, everything before that event
      has been yielded and nothing else: no event is ever made up from half a frame. */
  lemma CutStreamYieldsWholeFrames<E(!new)>(parse: string -> Option<E>, dumps: E -> string, events: seq<E>, n: nat,
                                            part: string)
    requires Faithful(parse, dumps) && n < |events|
    requires part <= Frame(dumps(events[n])) && part != Frame(dumps(events[n]))
    ensures Stream(dumps, events[..n]) + part <= Stream(dumps, events)
    ensures Events(parse, Stream(dumps, events[..n]) + part) == events[..n]
  {
    var front, rest := events[..n], events[n..];
    CutStreamOf(parse, dumps, front, rest, part);
    assert front + rest == events;
  }

  lemma CutStreamOf<E(!new)>(parse: string -> Option<E>, dumps: E -> string, front: seq<E>, rest: seq<E>, part: string)
    requires Faithful(parse, dumps) && rest != []
    requires part <= Frame(dumps(rest[0])) && part != Frame(dumps(rest[0]))
    ensures Stream(dumps, front) + part <= Stream(dumps, front + rest)
    ensures Events(parse, Stream(dumps, front) + part) == front
  {
    StreamIsItsEvents(parse, dumps, front);
    HalfAFrameIsNothing(parse, dumps, front, rest[0], part);
    ReceivedSoFar(dumps, front, rest, part);
  }

  lemma ReceivedSoFar<E>(dumps: E -> string, front: seq<E>, rest: seq<E>, part: string)
    requires rest != [] && part <= Frame(dumps(rest[0]))
    ensures Stream(dumps, front) + part <= Stream(dumps, front + rest)
  {
    StreamOfConcat(dumps, front, rest);
    PartOfStream(dumps, rest, part);
    PrefixStays(Stream(dumps, front), part, Stream(dumps, rest));
  }

  lemma PrefixStays(a: string, b: string, c: string)
    requires b <= c
    ensures a + b <= a + c
  {
  }

  lemma HalfAFrameIsNothing<E(!new)>(parse: string -> Option<E>, dumps: E -> string, front: seq<E>, e: E, part: string)
    requires Faithful(parse, dumps) && part <= Frame(dumps(e)) && part != Frame(dumps(e))
    ensures Events(parse, Stream(dumps, front) + part) == Events(parse, Stream(dumps, front))
  {
    FramesLeaveNothing(parse, dumps, front);
    EventsOfConcat(parse, Stream(dumps, front), part);
    assert "" + part == part;
    NoFrameInPart(dumps(e), part);
  }

  lemma PartOfStream<E>(dumps: E -> string, events: seq<E>, part: string)
    requires events != [] && part <= Frame(dumps(events[0]))
    ensures part <= Stream(dumps, events)
  {
  }

  lemma NoFrameInPart(payload: string, part: string)
    requires '\n' !in payload && part <= Frame(payload) && part != Frame(payload)
    ensures IndexOf(part, "\n\n") < 0
  {
    var line, whole := "data: " + payload, Frame(payload);
    forall i: nat ensures !OccursAt(part, "\n\n", i) {
      if i + 2 <= |part| {
        assert part[i] == whole[i] == line[i];
        assert line[i] in line && part[i..i + 2][0] == part[i];
      }
    }
  }

  lemma {:induction false} FramesLeaveNothing<E(!new)>(parse: string -> Option<E>, dumps: E -> string, events: seq<E>)
    requires Faithful(parse, dumps)
    ensures Rest(Stream(dumps, events)) == ""
  {
    if events != [] {
      var line, rest := "data: " + dumps(events[0]), Stream(dumps, events[1..]);
      assert Stream(dumps, events) == line + "\n\n" + rest;
      EndOfFrame(line, rest);
      assert (line + "\n\n" + rest)[|line| + 2..] == rest;
      FramesLeaveNothing(parse, dumps, events[1..]);
    }
  }

  // ----- what is read, for any text

  function EachFrame<E>(parse: string -> Option<E>, frames: seq<string>): seq<seq<E>> {
    seq(|frames|, k requires 0 <= k < |frames| => FrameEvents(parse, frames[k]))
  }

  function EachLine<E>(parse: string -> Option<E>, lines: seq<string>): seq<seq<E>> {
    seq(|lines|, k requires 0 <= k < |lines| => LineEvents(parse, lines[k]))
  }

  /** The events of a text are those of its frames, in order: all that blank lines divide it
      into but the last, which is left over. */
  lemma {:induction false} EventsAreOfTheFrames<E>(parse: string -> Option<E>, text: string)
      returns (frames: seq<string>, rest: string)
    ensures frames + [rest] == Split(text, "\n\n")
    ensures Events(parse, text) == Concat(EachFrame(parse, frames)) && Rest(text) == rest
    decreases |text|
  {
    var k := IndexOf(text, "\n\n");
    if k < 0 {
      frames, rest := [], text;
    } else {
      var more;
      more, rest := EventsAreOfTheFrames(parse, text[k + 2..]);
      FramesMore(parse, text[..k], more);
      frames := [text[..k]] + more;
      Assoc([text[..k]], more, [rest]);
    }
  }

  lemma FramesMore<E>(parse: string -> Option<E>, frame: string, rest: seq<string>)
    ensures Concat(EachFrame(parse, [frame] + rest)) == FrameEvents(parse, frame) + Concat(EachFrame(parse, rest))
  {
    assert EachFrame(parse, [frame] + rest)[1..] == EachFrame(parse, rest);
  }

  /** The events of a frame are those of its lines, in order. */
  lemma FrameEventsAreOfTheLines<E>(parse: string -> Option<E>, frame: string)
    ensures FrameEvents(parse, frame) == Concat(EachLine(parse, Split(frame, "\n")))
  {
    LinesAreEachOnes(parse, Split(frame, "\n"));
  }

  lemma {:induction false} LinesAreEachOnes<E>(parse: string -> Option<E>, lines: seq<string>)
    ensures LinesEvents(parse, lines) == Concat(EachLine(parse, lines))
  {
    if lines != [] {
      LinesAreEachOnes(parse, lines[1..]);
      assert EachLine(parse, lines)[1..] == EachLine(parse, lines[1..]);
    }
  }

  predicate JsBlank(s: string) { forall i :: 0 <= i < |s| ==> JsSpace(s[i]) }

  lemma {:induction false} TrimStartOf(a: string, t: string)
    requires JsBlank(a) && (t == "" || !JsSpace(t[0]))
    ensures TrimStart(a + t) == t
  {
    if a == "" {
      assert a + t == t;
    } else {
      assert (a + t)[1..] == a[1..] + t;
      TrimStartOf(a[1..], t);
    }
  }

  lemma {:induction false} TrimEndOf(t: string, b: string)
    requires JsBlank(b) && (t == "" || !JsSpace(t[|t| - 1]))
    ensures TrimEnd(t + b) == t
  {
    if b == "" {
      assert t + b == t;
    } else {
      assert (t + b)[..|t + b| - 1] == t + b[..|b| - 1];
      TrimEndOf(t, b[..|b| - 1]);
    }
  }

  /** A line gives an event if it begins with `data:` and the rest, without the white space
      around it, parses; anything else gives none. */
  lemma DataLineGives<E>(parse: string -> Option<E>, a: string, t: string, b: string)
    requires JsBlank(a) && JsBlank(b) && t != "" && !JsSpace(t[0]) && !JsSpace(t[|t| - 1])
    ensures LineEvents(parse, "data:" + (a + t + b)) == match parse(t) case None => [] case Some(e) => [e]
  {
    var line := "data:" + (a + t + b);
    assert line[..5] == "data:" && line[5..] == a + t + b;
    Assoc(a, t, b);
    assert (t + b)[0] == t[0];
    TrimStartOf(a, t + b);
    TrimEndOf(t, b);
  }

  lemma OtherLinesGiveNothing<E>(parse: string -> Option<E>, line: string)
    requires |line| < 5 || line[..5] != "data:" || JsBlank(line[5..])
    ensures LineEvents(parse, line) == []
  {
    if StartsWith(line, "data:") {
      TrimStartOf(line[5..], "");
      assert line[5..] + "" == line[5..];
    }
  }
}
