/** The loop that reads a node's event stream: decoded text arrives in chunks, is cut into lines,
    and the `data: ` lines are folded into the outcome of a dispatched task. */
module SseStream {
  import opened Wrappers

  /** The fields of an event the loop looks at. */
  datatype Event = Event(content: Option<string>, status: Option<string>, error: Option<string>, summary: Option<string>)

  /** `JSON.parse`; `None` if it throws, or gives null, on which the first field access throws. */
  type Parser = string -> Option<Event>

  /** Neither the empty text nor the end marker is JSON. */
  ghost predicate JsonLike(parse: Parser) { parse("").None? && parse("[DONE]").None? }

  const DATA: string := "data: "

  datatype Progress = Progress(content: string, failed: bool, error: Option<string>)
  datatype Outcome = Success(output: string) | Failed(error: string, partial: Option<string>)

  const START: Progress := Progress("", false, None)

  function Text(o: Option<string>): string { if o.Some? then o.value else "" }

  predicate Fails(e: Event) { e.status == Some("failed") || Text(e.error) != "" }

  function FailureText(e: Event): string {
    if e.error.Some? then e.error.value else if e.summary.Some? then e.summary.value else "task_error received"
  }

  function Absorb(p: Progress, e: Event): Progress {
    Progress(p.content + Text(e.content), p.failed || Fails(e), if Fails(e) then Some(FailureText(e)) else p.error)
  }

  function ProcessLine(parse: Parser, p: Progress, line: string): Progress {
    if DATA <= line && line[6..] != "[DONE]" && parse(line[6..]).Some? then Absorb(p, parse(line[6..]).value) else p
  }

  function ProcessLines(parse: Parser, p: Progress, lines: seq<string>): Progress {
    if lines == [] then p
    else ProcessLine(parse, ProcessLines(parse, p, lines[..|lines| - 1]), lines[|lines| - 1])
  }

  /** The remaining buffer gives its content but neither status nor error. */
  function Finish(parse: Parser, p: Progress, buffer: string): Progress {
    if DATA <= buffer && |buffer| > 6 && parse(buffer[6..]).Some?
    then p.(content := p.content + Text(parse(buffer[6..]).value.content))
    else p
  }

  function Report(p: Progress): Outcome {
    var output := if p.content == "" then None else Some(p.content);
    if p.failed then Failed(if p.error.Some? then p.error.value else "task_error", output)
    else Success(if p.content == "" then "Task completed" else p.content)
  }

  // ----- Lines -----

  /** `text.split('\n')` */
  function Split(text: string): (r: seq<string>)
    ensures |r| >= 1
  {
    if text == "" then [""]
    else
      var front, c := Split(text[..|text| - 1]), text[|text| - 1];
      if c == '\n' then front + [""] else front[..|front| - 1] + [front[|front| - 1] + [c]]
  }

  function Complete(text: string): seq<string> { Split(text)[..|Split(text)| - 1] }

  function Rest(text: string): string { Split(text)[|Split(text)| - 1] }

  lemma {:induction false} SplitAppend(a: string, b: string)
    ensures Split(a + b) == Complete(a) + Split(Rest(a) + b)
  {
    RestIsLine(a);
    if b == "" {
      assert a + b == a && Rest(a) + b == Rest(a);
    } else {
      var front, c := b[..|b| - 1], b[|b| - 1];
      SplitAppend(a, front);
      var x, y := a + b, Rest(a) + b;
      assert x[..|x| - 1] == a + front && y[..|y| - 1] == Rest(a) + front;
      hide Complete, Rest;
      SplitNext(a + front, c, x);
      SplitNext(Rest(a) + front, c, y);
      ExtendSplit(Complete(a), Split(Rest(a) + front), c);
    }
  }

  /** The lines after one more character. */
  function Extend(lines: seq<string>, c: char): seq<string>
    requires |lines| >= 1
  {
    if c == '\n' then lines + [""] else lines[..|lines| - 1] + [lines[|lines| - 1] + [c]]
  }

  lemma SplitNext(text: string, c: char, longer: string)
    requires longer != "" && longer[..|longer| - 1] == text && longer[|longer| - 1] == c
    ensures Split(longer) == Extend(Split(text), c)
  {}

  lemma ExtendSplit(before: seq<string>, lines: seq<string>, c: char)
    requires |lines| >= 1
    ensures Extend(before + lines, c) == before + Extend(lines, c)
  {}

  /** A rest holds no line end. */
  lemma {:induction false} RestIsLine(text: string)
    ensures Split(Rest(text)) == [Rest(text)]
  {
    if text != "" {
      var c := text[|text| - 1];
      RestIsLine(text[..|text| - 1]);
      if c == '\n' {
        assert Rest(text) == "";
      } else {
        var r := Rest(text[..|text| - 1]);
        assert Rest(text) == r + [c];
        assert (r + [c])[..|r|] == r;
      }
    }
  }

  /** Splitting is told by what it means: the lines joined by line ends give the text, and none of
      them holds one. */
  function Join(lines: seq<string>): string
    requires |lines| >= 1
  {
    if |lines| == 1 then lines[0] else Join(lines[..|lines| - 1]) + ("\n" + lines[|lines| - 1])
  }

  lemma {:induction false} SplitJoins(text: string)
    ensures Join(Split(text)) == text
    ensures forall line :: line in Split(text) ==> '\n' !in line
  {
    if text != "" {
      var front, c := text[..|text| - 1], text[|text| - 1];
      SplitJoins(front);
      SplitNext(front, c, text);
      hide Join, Split, Extend;
      ExtendJoins(Split(front), c);
      ExtendKeepsLines(Split(front), c);
      LastSplit(text);
    }
  }

  lemma JoinSnoc(before: seq<string>, last: string)
    requires |before| >= 1
    ensures Join(before + [last]) == Join(before) + ("\n" + last)
  {
    assert (before + [last])[..|before|] == before;
  }

  lemma ExtendJoins(lines: seq<string>, c: char)
    requires |lines| >= 1
    ensures Join(Extend(lines, c)) == Join(lines) + [c]
  {
    if c == '\n' {
      NewlineJoins(lines);
      hide Join;
    } else {
      LastSplit(lines);
      LastLineGrows(lines[..|lines| - 1], lines[|lines| - 1], c);
      hide Join;
    }
  }

  lemma LastSplit<T>(s: seq<T>)
    requires s != []
    ensures s == s[..|s| - 1] + [s[|s| - 1]]
  {}

  lemma NewlineJoins(lines: seq<string>)
    requires |lines| >= 1
    ensures Join(lines + [""]) == Join(lines) + "\n"
  {
    JoinSnoc(lines, "");
    hide Join;
    assert "\n" + "" == "\n";
  }

  lemma LastLineGrows(before: seq<string>, last: string, c: char)
    ensures Join(before + [last + [c]]) == Join(before + [last]) + [c]
  {
    if before == [] {
      assert before + [last] == [last] && before + [last + [c]] == [last + [c]];
    } else {
      JoinSnoc(before, last);
      JoinSnoc(before, last + [c]);
      hide Join;
      var j := Join(before);
      assert j + ("\n" + (last + [c])) == (j + ("\n" + last)) + [c];
    }
  }

  lemma ExtendKeepsLines(lines: seq<string>, c: char)
    requires |lines| >= 1
    requires forall line :: line in lines ==> '\n' !in line
    ensures forall line :: line in Extend(lines, c) ==> '\n' !in line
  {}

  /** And there is no other way to cut the text into such lines. */
  lemma {:induction false} JoinSplits(lines: seq<string>)
    requires |lines| >= 1 && forall line :: line in lines ==> '\n' !in line
    ensures Split(Join(lines)) == lines
  {
    var front, last := lines[..|lines| - 1], lines[|lines| - 1];
    if front == [] {
      NoNewline(last);
      assert lines == [last];
    } else {
      JoinSplits(front);
      AppendLine(Join(front), last);
      hide Split, Join;
      JoinSnoc(front, last);
      LastSplit(lines);
    }
  }

  lemma AppendLine(text: string, line: string)
    requires '\n' !in line
    ensures Split(text + ("\n" + line)) == Split(text) + [line]
  {
    NoNewline(line);
    SplitNewline(text);
    SplitAppend(text + "\n", line);
    hide Split, Complete, Rest;
    assert (text + "\n") + line == text + ("\n" + line);
    assert "" + line == line;
  }

  // ----- The loop -----

  function Concat(chunks: seq<string>): string {
    if chunks == [] then "" else Concat(chunks[..|chunks| - 1]) + chunks[|chunks| - 1]
  }

  lemma {:induction false} ProcessAppend(parse: Parser, p: Progress, a: seq<string>, b: seq<string>)
    ensures ProcessLines(parse, p, a + b) == ProcessLines(parse, ProcessLines(parse, p, a), b)
  {
    hide ProcessLine;
    if b == [] {
      assert a + b == a;
    } else {
      ProcessAppend(parse, p, a, b[..|b| - 1]);
      assert (a + b)[..|a + b| - 1] == a + b[..|b| - 1];
    }
  }

  /** One chunk moves the loop from the lines and the rest of the text so far to those of the text
      with the chunk, wherever the text was cut before. */
  lemma ChunkStep(parse: Parser, text: string, chunk: string)
    ensures var buffer := Rest(text) + chunk;
      && Rest(text + chunk) == Rest(buffer)
      && ProcessLines(parse, START, Complete(text + chunk))
           == ProcessLines(parse, ProcessLines(parse, START, Complete(text)), Complete(buffer))
  {
    var buffer := Rest(text) + chunk;
    SplitAppend(text, chunk);
    assert Complete(text + chunk) == Complete(text) + Complete(buffer);
    ProcessAppend(parse, START, Complete(text), Complete(buffer));
  }

  /** The loop does not depend on how the stream was cut: it ends in what splitting the whole text
      once gives, for every sequence of chunks. */
  method Consume(parse: Parser, chunks: seq<string>) returns (p: Progress, buffer: string)
    ensures p == ProcessLines(parse, START, Complete(Concat(chunks)))
    ensures buffer == Rest(Concat(chunks))
  {
    p, buffer := START, "";
    var i := 0;
    while i < |chunks|
      invariant 0 <= i <= |chunks|
      invariant p == ProcessLines(parse, START, Complete(Concat(chunks[..i])))
      invariant buffer == Rest(Concat(chunks[..i]))
    {
      hide Split, Complete, Rest, ProcessLines;
      ChunkStep(parse, Concat(chunks[..i]), chunks[i]);
      assert chunks[..i + 1][..i] == chunks[..i];
      assert Concat(chunks[..i + 1]) == Concat(chunks[..i]) + chunks[i];
      p, buffer := ConsumeChunk(parse, p, buffer + chunks[i]);
      i := i + 1;
    }
    assert chunks[..i] == chunks;
  }

  method ConsumeChunk(parse: Parser, start: Progress, text: string) returns (p: Progress, buffer: string)
    ensures p == ProcessLines(parse, start, Complete(text)) && buffer == Rest(text)
  {
    p := start;
    var lines := Split(text);
    buffer := lines[|lines| - 1];
    lines := lines[..|lines| - 1];
    var i := 0;
    while i < |lines|
      invariant 0 <= i <= |lines|
      invariant p == ProcessLines(parse, start, lines[..i])
    {
      assert lines[..i + 1][..i] == lines[..i];
      var line := lines[i];
      if DATA <= line {
        var data := line[6..];
        if data != "[DONE]" {
          var parsed := parse(data);
          if parsed.Some? {
            var event := parsed.value;
            if event.content.Some? && event.content.value != "" {
              p := p.(content := p.content + event.content.value);
            }
            if event.status == Some("failed") || (event.error.Some? && event.error.value != "") {
              p := p.(failed := true, error := Some(FailureText(event)));
            }
          }
        }
      }
      i := i + 1;
    }
    assert lines[..i] == lines;
  }

  /** What a stream comes to. */
  function Result(parse: Parser, text: string): Progress {
    Finish(parse, ProcessLines(parse, START, Complete(text)), Rest(text))
  }

  // ----- The outcome by the events of the stream -----

  /** The event a line carries: JSON behind `data: `, the end marker excepted. */
  function EventOn(parse: Parser, line: string): Option<Event> {
    if |line| >= 6 && line[..6] == "data: " && line[6..] != "[DONE]" then parse(line[6..]) else None
  }

  /** The events of some lines, in order. */
  function Events(parse: Parser, lines: seq<string>): seq<Event> {
    if lines == [] then []
    else
      var e := EventOn(parse, lines[|lines| - 1]);
      Events(parse, lines[..|lines| - 1]) + (if e.Some? then [e.value] else [])
  }

  function Contents(events: seq<Event>): string {
    if events == [] then ""
    else
      var e := events[|events| - 1];
      Contents(events[..|events| - 1]) + (match e.content case Some(c) => c case None => "")
  }

  predicate IsFailure(e: Event) { e.status == Some("failed") || e.error !in {None, Some("")} }

  function Message(e: Event): string {
    match (e.error, e.summary)
    case (Some(error), _) => error
    case (None, Some(summary)) => summary
    case (None, None) => "task_error received"
  }

  /** The last of the failures among some events. */
  function LastFailure(events: seq<Event>): Option<Event> {
    if events == [] then None
    else if IsFailure(events[|events| - 1]) then Some(events[|events| - 1])
    else LastFailure(events[..|events| - 1])
  }

  /** The event of an unterminated last line. Its end marker is not excepted, being no JSON. */
  function RestEvents(parse: Parser, rest: string): seq<Event> {
    if |rest| > 6 && rest[..6] == "data: " && parse(rest[6..]).Some? then [parse(rest[6..]).value] else []
  }

  /** The task's output is the content of all events in stream order. It fails exactly if a
      complete line reports a failure, with the message of the last such line. */
  function OutcomeOf(lines: seq<Event>, rest: seq<Event>): Outcome {
    var output := Contents(lines + rest);
    match LastFailure(lines)
    case Some(e) => Failed(Message(e), if output == "" then None else Some(output))
    case None => Success(if output == "" then "Task completed" else output)
  }

  lemma ContentsNext(events: seq<Event>, e: Event)
    ensures Contents(events + [e]) == Contents(events) + (match e.content case Some(c) => c case None => "")
    ensures LastFailure(events + [e]) == if IsFailure(e) then Some(e) else LastFailure(events)
  {
    assert (events + [e])[..|events|] == events;
  }

  function FailureOf(events: seq<Event>): Option<string> {
    var e := LastFailure(events);
    if e.Some? then Some(Message(e.value)) else None
  }

  /** The loop over complete lines collects their contents and keeps the last failure. */
  lemma {:induction false} LinesCollect(parse: Parser, lines: seq<string>)
    ensures var events := Events(parse, lines);
      ProcessLines(parse, START, lines) == Progress(Contents(events), LastFailure(events).Some?, FailureOf(events))
  {
    if lines != [] {
      var front, line := lines[..|lines| - 1], lines[|lines| - 1];
      LinesCollect(parse, front);
      LineCollects(parse, Events(parse, front), line);
    }
  }

  lemma LineCollects(parse: Parser, events: seq<Event>, line: string)
    ensures var p := Progress(Contents(events), LastFailure(events).Some?, FailureOf(events));
      var e := EventOn(parse, line);
      var more := events + (if e.Some? then [e.value] else []);
      ProcessLine(parse, p, line) == Progress(Contents(more), LastFailure(more).Some?, FailureOf(more))
  {
    var e := EventOn(parse, line);
    assert DATA <= line <==> |line| >= 6 && line[..6] == "data: ";
    if e.Some? {
      ContentsNext(events, e.value);
      hide Contents, LastFailure;
    } else {
      assert events + [] == events;
    }
  }

  /** What a stream comes to, told from its events alone. */
  lemma OutcomeByEvents(parse: Parser, text: string)
    ensures Report(Result(parse, text)) == OutcomeOf(Events(parse, Complete(text)), RestEvents(parse, Rest(text)))
  {
    var events, rest := Events(parse, Complete(text)), RestEvents(parse, Rest(text));
    LinesCollect(parse, Complete(text));
    hide ProcessLines, Events, LastFailure, Complete, Rest;
    assert DATA <= Rest(text) <==> |Rest(text)| >= 6 && Rest(text)[..6] == "data: ";
    if rest == [] {
      assert events + rest == events;
    } else {
      ContentsNext(events, rest[0]);
    }
  }

  method Execute(parse: Parser, chunks: seq<string>) returns (outcome: Outcome)
    ensures outcome == Report(Result(parse, Concat(chunks)))
    ensures outcome == OutcomeOf(Events(parse, Complete(Concat(chunks))), RestEvents(parse, Rest(Concat(chunks))))
  {
    OutcomeByEvents(parse, Concat(chunks));
    var p, buffer := Consume(parse, chunks);
    hide Split, Complete, Rest, ProcessLines, Concat;
    var data := if |buffer| > 6 then buffer[6..] else "";
    if DATA <= buffer && |buffer| > 6 {
      var parsed := parse(data);
      if parsed.Some? && parsed.value.content.Some? && parsed.value.content.value != "" {
        p := p.(content := p.content + parsed.value.content.value);
      } else {
        assert p.content + "" == p.content;
      }
    }
    outcome := Report(p);
  }

  // ----- An unterminated last line -----

  lemma SplitNewline(text: string)
    ensures Complete(text + "\n") == Split(text) && Rest(text + "\n") == ""
  {
    assert (text + "\n")[..|text|] == text;
  }

  /** Ending the stream with a line end changes nothing exactly if the last line reports no failure
      that is news: an unterminated failure is not seen. */
  lemma FinalNewlineMatters(parse: Parser, text: string)
    requires JsonLike(parse)
    ensures var p := ProcessLines(parse, START, Complete(text));
      var rest := Rest(text);
      Result(parse, text) == Result(parse, text + "\n") <==>
        (DATA <= rest && parse(rest[6..]).Some? && Fails(parse(rest[6..]).value) ==>
           p.failed && p.error == Some(FailureText(parse(rest[6..]).value)))
  {
    SplitNewline(text);
    var p := ProcessLines(parse, START, Complete(text));
    var rest := Rest(text);
    assert Split(text)[..|Split(text)| - 1] == Complete(text);
    assert ProcessLines(parse, START, Split(text)) == ProcessLine(parse, p, rest);
    hide Split, ProcessLines, Complete, Rest;
    if DATA <= rest && |rest| == 6 {
      assert rest[6..] == "";
    }
  }

  /** So a stream of one unterminated failure succeeds. */
  lemma UnterminatedFailureSucceeds(parse: Parser, line: string)
    requires DATA <= line && '\n' !in line && |line| > 6 && line[6..] != "[DONE]"
    requires parse(line[6..]) == Some(Event(None, Some("failed"), Some("boom"), None))
    ensures Report(Result(parse, line)) == Success("Task completed")
    ensures Report(Result(parse, line + "\n")) == Failed("boom", None)
  {
    WholeLine(parse, line);
    var event := Event(None, Some("failed"), Some("boom"), None);
    hide ProcessLines, Complete, Rest, Split;
    assert "" + "" == "";
    assert Result(parse, line) == START;
    assert ProcessLine(parse, START, line) == Absorb(START, event);
    assert Absorb(START, event) == Progress("", true, Some("boom"));
    assert Result(parse, line + "\n") == Absorb(START, event) by {
      assert Rest(line + "\n") == "";
    }
  }

  lemma WholeLine(parse: Parser, line: string)
    requires '\n' !in line
    ensures ProcessLines(parse, START, Complete(line)) == START
    ensures Rest(line) == line
    ensures ProcessLines(parse, START, Complete(line + "\n")) == ProcessLine(parse, START, line)
    ensures Rest(line + "\n") == ""
  {
    NoNewline(line);
    SplitNewline(line);
    OneLine(parse, line);
  }

  lemma OneLine(parse: Parser, line: string)
    ensures ProcessLines(parse, START, [line]) == ProcessLine(parse, START, line)
  {
    assert [line][..0] == [];
  }

  lemma {:induction false} NoNewline(line: string)
    requires '\n' !in line
    ensures Split(line) == [line]
  {
    if line != "" {
      NoNewline(line[..|line| - 1]);
      assert line == line[..|line| - 1] + [line[|line| - 1]];
    }
  }
}
