/**
 * Reading completion streams line by line: the browser's parser and the
 * gateway's observer. `decode` stands for JSON parsing.
 */
module Sse {
  import opened Wrappers
  import opened Text

  // ------------------------------------------------------------- the two frame shapes

  datatype Usage = Usage(input: Option<int>, output: Option<int>, cacheRead: Option<int>, cacheWrite: Option<int>, cost: Option<string>)

  /** What the code reads of one decoded event; absent members are missing or of the wrong type;
      a finish reason that is set but no string is `Some(None)`. */
  datatype Chunk = Chunk(
    error: Option<Option<string>>, usage: Option<Usage>, model: Option<string>, id: Option<string>, provider: Option<string>,
    finishReason: Option<Option<string>>, content: Option<string>)

  /** `null` parses, but reading a member of it throws. */
  datatype Decoded = Malformed | Null | Value(chunk: Chunk)

  type Decoder = string -> Decoded

  datatype StreamEvent =
    | Delta(text: string)
    | UsageEvent(usage: Usage, model: Option<string>, generationId: Option<string>)
    | Done
    | ErrorEvent(message: string)

  datatype Thrown = TypeError

  /** The payload of a trimmed `data:` line, if there is one. */
  function DataOf(trimmed: string): Option<string>
  {
    if !StartsWith(trimmed, "data:") then None
    else
      var data := Trim(trimmed[5..]);
      if data == "" then None else Some(data)
  }

  function EventOf(chunk: Chunk): Option<StreamEvent>
  {
    if chunk.error.Some? then
      Some(ErrorEvent(if chunk.error.value.Some? then chunk.error.value.value else "The provider returned an error."))
    else if chunk.usage.Some? then Some(UsageEvent(chunk.usage.value, chunk.model, chunk.id))
    else if chunk.content.Some? && chunk.content.value != "" then Some(Delta(chunk.content.value))
    else None
  }

  function ParseTrimmed(decode: Decoder, trimmed: string): Result<Option<StreamEvent>, Thrown>
  {
    match DataOf(trimmed)
    case None => Ok(None)
    case Some(data) =>
      if data == "[DONE]" then Ok(Some(Done))
      else
        match decode(data)
        case Malformed => Ok(None)
        case Null => Err(TypeError)
        case Value(chunk) => Ok(EventOf(chunk))
  }

  type LineParser = string -> Result<Option<StreamEvent>, Thrown>

  function ParseLine(decode: Decoder): LineParser
  {
    (line: string) => ParseTrimmed(decode, Trim(line))
  }

  // ----------------------------------------------------------------- the whole text

  function ListOf(event: Option<StreamEvent>): seq<StreamEvent>
  {
    match event case None => [] case Some(e) => [e]
  }

  function Prepend(events: seq<StreamEvent>, r: Result<seq<StreamEvent>, Thrown>): Result<seq<StreamEvent>, Thrown>
  {
    match r case Err(e) => Err(e) case Ok(rest) => Ok(events + rest)
  }

  /** The events of some lines, in order, or a throw at the first line that throws. */
  function EventsOf(parse: LineParser, lines: seq<string>): Result<seq<StreamEvent>, Thrown>
  {
    if lines == [] then Ok([])
    else
      match parse(lines[0])
      case Err(e) => Err(e)
      case Ok(first) => Prepend(ListOf(first), EventsOf(parse, lines[1..]))
  }

  /** Parsing a text all at once, line by line. */
  function ParseText(parse: LineParser, text: string): Result<seq<StreamEvent>, Thrown>
  {
    EventsOf(parse, Split(text, '\n'))
  }

  // ------------------------------------------------------------------- the parser

  /** `replace(/\r$/, "")`. */
  function DropCarriageReturn(line: string): string
  {
    if line != "" && line[|line| - 1] == '\r' then line[..|line| - 1] else line
  }

  /** The lines a buffer completes, and the unfinished rest. */
  function CompleteLines(buffer: string): (lines: seq<string>)
  {
    var parts := Split(buffer, '\n');
    parts[..|parts| - 1]
  }

  function Remainder(buffer: string): string
  {
    var parts := Split(buffer, '\n');
    parts[|parts| - 1]
  }

  /** `whole` is some complete lines that parse, then the first line that throws, then `rest`. */
  ghost predicate ThrewAt(parse: LineParser, whole: string, before: string, line: string, rest: string)
  {
    && whole == before + (line + "\n") + rest && '\n' !in line && parse(line).Err?
    && Remainder(before) == "" && EventsOf(parse, CompleteLines(before)).Ok?
  }

  /** A parser that does not mind a carriage return at the end of a line, nor blank lines. */
  ghost predicate IgnoresLineEnds(parse: LineParser)
  {
    && (forall line {:trigger DropCarriageReturn(line)} :: parse(DropCarriageReturn(line)) == parse(line))
    && (forall line {:trigger Trim(line)} | Trim(line) == "" :: parse(line) == Ok(None))
  }

  class SseParser {
    var buffer: string

    constructor ()
      ensures buffer == ""
    {
      buffer := "";
    }

    /**
     * Take complete lines off the buffer one by one. A throw abandons the call and
     * the events it had found; the buffer goes on behind the line that threw.
     */
    method Push(parse: LineParser, chunk: string) returns (r: Result<seq<StreamEvent>, Thrown>)
      requires IgnoresLineEnds(parse)
      modifies this
      ensures r == EventsOf(parse, CompleteLines(old(buffer) + chunk))
      ensures r.Ok? ==> buffer == Remainder(old(buffer) + chunk)
      ensures r.Err? ==> exists before, line :: ThrewAt(parse, old(buffer) + chunk, before, line, buffer)
    {
      buffer := buffer + chunk;
      ghost var whole, before := buffer, "";
      var events: seq<StreamEvent> := [];
      PrependNothing(EventsOf(parse, CompleteLines(whole)));
      while '\n' in buffer
        invariant Remainder(buffer) == Remainder(whole)
        invariant whole == before + buffer && LinesParse(parse, before)
        invariant EventsOf(parse, CompleteLines(whole)) == Prepend(events, EventsOf(parse, CompleteLines(buffer)))
        decreases |buffer|
      {
        var newline := IndexOfChar(buffer, '\n');
        var line := DropCarriageReturn(buffer[..newline]);
        var event := parse(line);
        FirstLineStep(parse, buffer, newline);
        ghost var raw := buffer[..newline];
        TakeLine(before, buffer, newline);
        buffer := buffer[newline + 1..];
        if event.Err? {
          assert ThrewAt(parse, whole, before, raw, buffer);
          return Err(event.error);
        }
        OneMoreLineParses(parse, before, raw);
        before := before + (raw + "\n");
        PrependMore(events, ListOf(event.value), EventsOf(parse, CompleteLines(buffer)));
        events := events + ListOf(event.value);
      }
      assert CompleteLines(buffer) == [];
      PrependLast(events);
      return Ok(events);
    }

    /** At the end of the stream an unfinished rest counts as a whole line. */
    method Flush(parse: LineParser) returns (r: Result<seq<StreamEvent>, Thrown>)
      requires IgnoresLineEnds(parse)
      modifies this
      ensures buffer == "" && r == EventsOf(parse, [old(buffer)])
    {
      var rest := buffer;
      buffer := "";
      OneLine(parse, rest);
      if Trim(rest) == "" {
        return Ok([]);
      }
      var event := parse(rest);
      if event.Err? {
        return Err(event.error);
      }
      return Ok(ListOf(event.value));
    }
  }

  /** Complete lines only, and none of them throws. */
  ghost predicate LinesParse(parse: LineParser, text: string)
  {
    Remainder(text) == "" && EventsOf(parse, CompleteLines(text)).Ok?
  }

  lemma TakeLine(before: string, buffer: string, k: nat)
    requires k < |buffer| && buffer[k] == '\n'
    ensures before + buffer == before + (buffer[..k] + "\n") + buffer[k + 1..]
  {
    assert buffer == (buffer[..k] + "\n") + buffer[k + 1..];
  }

  lemma OneMoreLineParses(parse: LineParser, before: string, line: string)
    requires LinesParse(parse, before) && '\n' !in line && parse(line).Ok?
    ensures LinesParse(parse, before + (line + "\n"))
  {
    SplitConcat(before, line + "\n");
    assert "" + (line + "\n") == line + "\n" + "";
    SplitCons(line, "");
    OneLineLeft("");
    assert [line] + [] == [line];
    EventsConcat(parse, CompleteLines(before), [line]);
    OneLine(parse, line);
  }

  lemma PrependNothing(r: Result<seq<StreamEvent>, Thrown>)
    ensures Prepend([], r) == r
  {
    if r.Ok? {
      assert [] + r.value == r.value;
    }
  }

  lemma OneLine(parse: LineParser, line: string)
    ensures EventsOf(parse, [line]) ==
            (match parse(line) case Err(e) => Err(e) case Ok(event) => Ok(ListOf(event)))
  {
    assert [line][1..] == [];
    if parse(line).Ok? {
      PrependLast(ListOf(parse(line).value));
    }
  }

  lemma PrependLast(events: seq<StreamEvent>)
    ensures Prepend(events, Ok([])) == Ok(events)
  {
    assert events + [] == events;
  }

  lemma PrependMore(a: seq<StreamEvent>, b: seq<StreamEvent>, r: Result<seq<StreamEvent>, Thrown>)
    ensures Prepend(a, Prepend(b, r)) == Prepend(a + b, r)
  {
    if r.Ok? {
      assert a + (b + r.value) == (a + b) + r.value;
    }
  }

  /** The first complete line of a buffer, and the rest. */
  lemma FirstLineStep(parse: LineParser, buffer: string, k: nat)
    requires '\n' in buffer && k == IndexOfChar(buffer, '\n')
    ensures Remainder(buffer) == Remainder(buffer[k + 1..])
    ensures EventsOf(parse, CompleteLines(buffer)) ==
              (match parse(buffer[..k])
               case Err(e) => Err(e)
               case Ok(first) => Prepend(ListOf(first), EventsOf(parse, CompleteLines(buffer[k + 1..]))))
  {
    var line, rest := buffer[..k], buffer[k + 1..];
    assert buffer == line + "\n" + rest;
    SplitCons(line, rest);
    assert ([line] + CompleteLines(rest))[1..] == CompleteLines(rest);
  }

  // ------------------------------------------------------- whitespace at line ends

  lemma {:induction false} TrimStartSnoc(s: string, c: char)
    requires IsSpace(c)
    ensures TrimStart(s + [c]) == if TrimStart(s) == "" then "" else TrimStart(s) + [c]
  {
    if s == "" {
      assert s + [c] == [c];
      assert TrimStart([c]) == TrimStart([c][1..]) == "";
    } else if IsSpace(s[0]) {
      assert (s + [c])[1..] == s[1..] + [c];
      TrimStartSnoc(s[1..], c);
    }
  }

  lemma TrimSnoc(s: string, c: char)
    requires IsSpace(c)
    ensures Trim(s + [c]) == Trim(s)
  {
    TrimStartSnoc(s, c);
    var t := TrimStart(s);
    assert (t + [c])[..|t + [c]| - 1] == t;
  }

  lemma TrimDropped(line: string)
    ensures Trim(DropCarriageReturn(line)) == Trim(line)
  {
    if line != "" && line[|line| - 1] == '\r' {
      assert line == line[..|line| - 1] + ['\r'];
      TrimSnoc(line[..|line| - 1], '\r');
    }
  }

  lemma BlankHasNoEvent(decode: Decoder)
    ensures ParseTrimmed(decode, "") == Ok(None)
  {
  }

  lemma ParseLineIgnoresLineEnds(decode: Decoder)
    ensures IgnoresLineEnds(ParseLine(decode))
  {
    BlankHasNoEvent(decode);
    forall line ensures ParseLine(decode)(DropCarriageReturn(line)) == ParseLine(decode)(line) {
      TrimDropped(line);
    }
  }

  // ------------------------------------------------------------ chunk independence

  lemma SplitCons(line: string, rest: string)
    requires '\n' !in line
    ensures CompleteLines(line + "\n" + rest) == [line] + CompleteLines(rest)
    ensures Remainder(line + "\n" + rest) == Remainder(rest)
  {
    FirstChar(line, rest, '\n');
    var parts := Split(rest, '\n');
    assert Split(line + "\n" + rest, '\n') == [line] + parts;
    assert ([line] + parts)[..|parts|] == [line] + parts[..|parts| - 1];
  }

  /** Splitting a longer text splits the last piece further. */
  ghost predicate SplitsFurther(a: string, b: string)
  {
    && CompleteLines(a + b) == CompleteLines(a) + CompleteLines(Remainder(a) + b)
    && Remainder(a + b) == Remainder(Remainder(a) + b)
  }

  lemma OneLineLeft(a: string)
    requires '\n' !in a
    ensures CompleteLines(a) == [] && Remainder(a) == a
  {
    assert Split(a, '\n') == [a];
  }

  lemma SplitConcatBase(a: string, b: string)
    requires '\n' !in a
    ensures SplitsFurther(a, b)
  {
    OneLineLeft(a);
    assert [] + CompleteLines(a + b) == CompleteLines(a + b);
  }

  lemma SplitConcatStep(line: string, rest: string, b: string)
    requires '\n' !in line && SplitsFurther(rest, b)
    ensures SplitsFurther(line + "\n" + rest, b)
  {
    assert line + "\n" + rest + b == line + "\n" + (rest + b);
    SplitCons(line, rest);
    SplitCons(line, rest + b);
    ConsAssoc(line, CompleteLines(rest), CompleteLines(Remainder(rest) + b));
  }

  lemma {:induction false} SplitConcat(a: string, b: string)
    ensures SplitsFurther(a, b)
    decreases |a|
  {
    if '\n' !in a {
      SplitConcatBase(a, b);
    } else {
      var line, rest := FirstLine(a);
      SplitConcat(rest, b);
      SplitConcatStep(line, rest, b);
    }
  }

  lemma {:induction false} EventsConcat(parse: LineParser, a: seq<string>, b: seq<string>)
    ensures EventsOf(parse, a + b) ==
            (match EventsOf(parse, a) case Err(e) => Err(e) case Ok(events) => Prepend(events, EventsOf(parse, b)))
  {
    if a == [] {
      assert a + b == b;
      PrependNothing(EventsOf(parse, b));
    } else {
      assert (a + b)[1..] == a[1..] + b;
      EventsConcat(parse, a[1..], b);
      if parse(a[0]).Ok? && EventsOf(parse, a[1..]).Ok? {
        PrependMore(ListOf(parse(a[0]).value), EventsOf(parse, a[1..]).value, EventsOf(parse, b));
      }
    }
  }

  function Concat(chunks: seq<string>): string
  {
    if chunks == [] then "" else chunks[0] + Concat(chunks[1..])
  }

  /** What pushing some chunks and flushing yields, from a given buffer. */
  function Fed(parse: LineParser, buffer: string, chunks: seq<string>): Result<seq<StreamEvent>, Thrown>
    decreases |chunks|
  {
    if chunks == [] then EventsOf(parse, [buffer])
    else
      match EventsOf(parse, CompleteLines(buffer + chunks[0]))
      case Err(e) => Err(e)
      case Ok(events) => Prepend(events, Fed(parse, Remainder(buffer + chunks[0]), chunks[1..]))
  }

  /** A reader that pushes every chunk and then flushes. */
  method ReadStream(parse: LineParser, chunks: seq<string>) returns (r: Result<seq<StreamEvent>, Thrown>)
    requires IgnoresLineEnds(parse)
    ensures r == ParseText(parse, Concat(chunks))
  {
    var parser := new SseParser();
    var events: seq<StreamEvent> := [];
    ChunksDoNotMatter(parse, "", chunks);
    assert "" + Concat(chunks) == Concat(chunks);
    PrependNothing(Fed(parse, "", chunks));
    for i := 0 to |chunks|
      invariant Fed(parse, "", chunks) == Prepend(events, Fed(parse, parser.buffer, chunks[i..]))
    {
      assert chunks[i..][1..] == chunks[i + 1..];
      var pushed := parser.Push(parse, chunks[i]);
      if pushed.Err? {
        return Err(pushed.error);
      }
      PrependMore(events, pushed.value, Fed(parse, parser.buffer, chunks[i + 1..]));
      events := events + pushed.value;
    }
    var last := parser.Flush(parse);
    r := Prepend(events, last);
  }

  /** However a stream is split, pushing its chunks and flushing parses the whole text line by line. */
  lemma {:induction false} ChunksDoNotMatter(parse: LineParser, buffer: string, chunks: seq<string>)
    requires '\n' !in buffer
    ensures Fed(parse, buffer, chunks) == ParseText(parse, buffer + Concat(chunks))
    decreases |chunks|
  {
    if chunks == [] {
      assert buffer + Concat([]) == buffer;
      assert Split(buffer, '\n') == [buffer];
    } else {
      var fed, later := buffer + chunks[0], Concat(chunks[1..]);
      assert buffer + Concat(chunks) == fed + later;
      ChunksDoNotMatter(parse, Remainder(fed), chunks[1..]);
      TextAfter(parse, fed, later);
    }
  }

  lemma TextAfter(parse: LineParser, fed: string, later: string)
    ensures ParseText(parse, fed + later) ==
            (match EventsOf(parse, CompleteLines(fed))
             case Err(e) => Err(e)
             case Ok(events) => Prepend(events, ParseText(parse, Remainder(fed) + later)))
  {
    SplitAfter(fed, later);
    EventsConcat(parse, CompleteLines(fed), Split(Remainder(fed) + later, '\n'));
  }

  lemma SplitAfter(fed: string, later: string)
    ensures Split(fed + later, '\n') == CompleteLines(fed) + Split(Remainder(fed) + later, '\n')
  {
    SplitConcat(fed, later);
    SplitInTwo(fed + later);
    SplitInTwo(Remainder(fed) + later);
    LinesAssoc(CompleteLines(fed), CompleteLines(Remainder(fed) + later), [Remainder(fed + later)]);
  }

  lemma SplitInTwo(text: string)
    ensures Split(text, '\n') == CompleteLines(text) + [Remainder(text)]
  {
  }

  lemma LinesAssoc(a: seq<string>, b: seq<string>, c: seq<string>)
    ensures a + (b + c) == a + b + c
  {
  }

  /** Two ways of cutting up the same stream give the same events. */
  lemma CutsAgree(parse: LineParser, chunks: seq<string>, others: seq<string>)
    requires Concat(chunks) == Concat(others)
    ensures Fed(parse, "", chunks) == Fed(parse, "", others)
  {
    ChunksDoNotMatter(parse, "", chunks);
    ChunksDoNotMatter(parse, "", others);
  }

  // ------------------------------------------------------------------ the one crash

  /** A trimmed line whose payload is the JSON text `null`. */
  predicate NullPayload(decode: Decoder, trimmed: string)
  {
    var data := DataOf(trimmed);
    data.Some? && data.value != "[DONE]" && decode(data.value) == Null
  }

  /** The test for lines that carry `null`. */
  function NullLine(decode: Decoder): string -> bool
  {
    (line: string) => NullPayload(decode, Trim(line))
  }

  /** Malformed payloads are skipped, but the parser throws exactly when some line carries `null`. */
  lemma ThrowsExactlyOnNull(decode: Decoder, text: string)
    ensures ParseText(ParseLine(decode), text).Err? <==> exists line | line in Split(text, '\n') :: NullLine(decode)(line)
  {
    LinesThrowOnNullOnly(decode);
    ThrowsWhere(ParseLine(decode), NullLine(decode), text);
  }

  lemma ThrowsWhere(parse: LineParser, test: string -> bool, text: string)
    requires forall line :: SameVerdict(parse, test, line)
    ensures ParseText(parse, text).Err? <==> exists line | line in Split(text, '\n') :: test(line)
  {
    ThrowsWhereALineDoes(parse, Split(text, '\n'));
    SomeLineAlike(parse, test, Split(text, '\n'));
  }

  ghost predicate SameVerdict(parse: LineParser, test: string -> bool, line: string)
  {
    parse(line).Err? <==> test(line)
  }

  lemma SomeLineAlike(parse: LineParser, test: string -> bool, lines: seq<string>)
    requires forall line :: SameVerdict(parse, test, line)
    ensures (exists line | line in lines :: parse(line).Err?) <==> (exists line | line in lines :: test(line))
  {
    forall line | line in lines ensures parse(line).Err? <==> test(line) {
      assert SameVerdict(parse, test, line);
    }
  }

  lemma LinesThrowOnNullOnly(decode: Decoder)
    ensures forall line :: SameVerdict(ParseLine(decode), NullLine(decode), line)
  {
    forall line ensures SameVerdict(ParseLine(decode), NullLine(decode), line) {
      ThrowsOnNullOnly(decode, Trim(line));
    }
  }

  lemma ThrowsOnNullOnly(decode: Decoder, trimmed: string)
    ensures ParseTrimmed(decode, trimmed).Err? <==> NullPayload(decode, trimmed)
  {
  }

  lemma {:induction false} ThrowsWhereALineDoes(parse: LineParser, lines: seq<string>)
    ensures EventsOf(parse, lines).Err? <==> exists line | line in lines :: parse(line).Err?
  {
    if lines != [] {
      ThrowsWhereALineDoes(parse, lines[1..]);
      assert forall line :: line in lines <==> line == lines[0] || line in lines[1..];
    }
  }

  lemma PayloadOf(line: string, data: string)
    requires line == "data:" + data && data != "" && !IsSpace(data[0]) && !IsSpace(data[|data| - 1])
    ensures DataOf(Trim(line)) == Some(data)
  {
    assert !IsSpace('d');
    assert line[0] == 'd' && line[|line| - 1] == data[|data| - 1];
    assert line[5..] == data;
    TrimKeeps(line);
    TrimKeeps(data);
  }

  /** A line such as `data:null` is one: its payload decodes to `null`. */
  lemma PayloadIsNull(decode: Decoder, line: string, data: string)
    requires line == "data:" + data && data != "" && !IsSpace(data[0]) && !IsSpace(data[|data| - 1])
    requires decode(data) == Null && data != "[DONE]"
    ensures NullLine(decode)(line)
  {
    PayloadOf(line, data);
  }

  /** One such line is enough, `data:null` for one. */
  lemma NullCrashes(decode: Decoder, line: string, data: string)
    requires line == "data:" + data && data != "" && !IsSpace(data[0]) && !IsSpace(data[|data| - 1])
    requires decode(data) == Null && data != "[DONE]" && '\n' !in line
    ensures ParseText(ParseLine(decode), line).Err?
  {
    PayloadIsNull(decode, line, data);
    NullLineThrows(decode, line);
  }

  lemma NullLineThrows(decode: Decoder, line: string)
    requires NullLine(decode)(line) && '\n' !in line
    ensures ParseText(ParseLine(decode), line).Err?
  {
    LinesThrowOnNullOnly(decode);
    OneLineThrows(ParseLine(decode), NullLine(decode), line);
  }

  lemma OneLineThrows(parse: LineParser, test: string -> bool, line: string)
    requires '\n' !in line && test(line) && forall l :: SameVerdict(parse, test, l)
    ensures ParseText(parse, line).Err?
  {
    assert SameVerdict(parse, test, line);
    SplitOneLine(line);
    OneLine(parse, line);
  }

  // ------------------------------------------------------------------ what one line says

  /** The line, trimmed, is `data:` and a payload, and this is the payload, trimmed. */
  predicate Carries(line: string, data: string)
  {
    "data:" <= Trim(line) && data == Trim(Trim(line)[5..]) && data != ""
  }

  /** What a frame announces: an error before usage, usage before text, and text unless it is empty. */
  ghost predicate Announces(chunk: Chunk, event: Option<StreamEvent>)
  {
    && (forall message :: chunk.error == Some(Some(message)) ==> event == Some(ErrorEvent(message)))
    && (chunk.error == Some(None) ==> event == Some(ErrorEvent("The provider returned an error.")))
    && (forall usage :: chunk.error.None? && chunk.usage == Some(usage) ==> event == Some(UsageEvent(usage, chunk.model, chunk.id)))
    && (forall text :: chunk.error.None? && chunk.usage.None? && chunk.content == Some(text) && text != "" ==> event == Some(Delta(text)))
    && (chunk.error.None? && chunk.usage.None? && (chunk.content.None? || chunk.content == Some("")) ==> event.None?)
  }

  lemma CarriesItsData(line: string, data: string)
    ensures Carries(line, data) <==> DataOf(Trim(line)) == Some(data)
  {
  }

  lemma EventIsAnnounced(chunk: Chunk)
    ensures Announces(chunk, EventOf(chunk))
  {
  }

  /** The same, of a trimmed line and its payload. */
  lemma PayloadSays(decode: Decoder, trimmed: string, data: string)
    requires DataOf(trimmed) == Some(data)
    ensures data == "[DONE]" ==> ParseTrimmed(decode, trimmed) == Ok(Some(Done))
    ensures data != "[DONE]" ==>
              && (decode(data) == Malformed ==> ParseTrimmed(decode, trimmed) == Ok(None))
              && (decode(data) == Null ==> ParseTrimmed(decode, trimmed) == Err(TypeError))
              && (decode(data).Value? ==> ParseTrimmed(decode, trimmed) == Ok(EventOf(decode(data).chunk)))
  {
  }

  /**
   * A line without a payload says nothing, the payload `[DONE]` ends the stream,
   * a payload that is no JSON is skipped, null throws, and any other frame
   * announces its event.
   */
  lemma LineSays(decode: Decoder, line: string, data: string)
    ensures (forall other :: !Carries(line, other)) ==> ParseLine(decode)(line) == Ok(None)
    ensures Carries(line, data) && data == "[DONE]" ==> ParseLine(decode)(line) == Ok(Some(Done))
    ensures Carries(line, data) && data != "[DONE]" ==>
              && (decode(data) == Malformed ==> ParseLine(decode)(line) == Ok(None))
              && (decode(data) == Null ==> ParseLine(decode)(line) == Err(TypeError))
              && (decode(data).Value? ==> ParseLine(decode)(line).Ok? && Announces(decode(data).chunk, ParseLine(decode)(line).value))
  {
    CarriesItsData(line, data);
    if Carries(line, data) {
      PayloadSays(decode, Trim(line), data);
      if decode(data).Value? {
        EventIsAnnounced(decode(data).chunk);
      }
    } else if DataOf(Trim(line)).Some? {
      CarriesItsData(line, DataOf(Trim(line)).value);
    }
  }
}

/** The gateway's observer of a stream it passes through untouched. */
module StreamObserver {
  import opened Wrappers
  import opened Text
  import opened Sse

  /** What the observer remembers: the last value seen of each member. */
  datatype Latest = Latest(
    id: Option<string>, model: Option<string>, provider: Option<string>, finish: Option<Option<string>>, usage: Option<Usage>)

  const NOTHING := Latest(None, None, None, None, None)

  datatype Observed = Observed(
    generationId: Option<string>, model: Option<string>, provider: Option<string>, finishReason: Option<string>, usage: Option<Usage>)

  /** The frame a line carries, if it carries one that can be read. */
  function FrameOf(decode: Decoder, line: string): Option<Chunk>
  {
    match DataOf(Trim(line))
    case None => None
    case Some(data) =>
      if data == "[DONE]" then None
      else match decode(data) case Malformed => None case Null => None case Value(chunk) => Some(chunk)
  }

  /** A finish reason that counts as set: the empty string does not. */
  function FinishOf(chunk: Chunk): Option<Option<string>>
  {
    if chunk.finishReason == Some(Some("")) then None else chunk.finishReason
  }

  function Or<T>(later: Option<T>, earlier: Option<T>): Option<T>
  {
    if later.Some? then later else earlier
  }

  function Absorb(latest: Latest, frame: Option<Chunk>): Latest
  {
    match frame
    case None => latest
    case Some(chunk) =>
      Latest(Or(chunk.id, latest.id), Or(chunk.model, latest.model), Or(chunk.provider, latest.provider),
             Or(FinishOf(chunk), latest.finish), Or(chunk.usage, latest.usage))
  }

  type FrameReader = string -> Option<Chunk>

  function Reader(decode: Decoder): FrameReader
  {
    (line: string) => FrameOf(decode, line)
  }

  function AfterLines(read: FrameReader, latest: Latest, lines: seq<string>): Latest
  {
    if lines == [] then latest
    else Absorb(AfterLines(read, latest, lines[..|lines| - 1]), read(lines[|lines| - 1]))
  }

  /** The upstream provider as stated, else the part of the model's name before the first slash. */
  function ProviderOf(latest: Latest): Option<string>
  {
    if latest.provider.Some? then latest.provider
    else if latest.model.Some? && '/' in latest.model.value then Some(Split(latest.model.value, '/')[0])
    else None
  }

  function ObservedFrom(latest: Latest): Observed
  {
    Observed(latest.id, latest.model, ProviderOf(latest), if latest.finish.Some? then latest.finish.value else None, latest.usage)
  }

  lemma AbsorbOneMore(read: FrameReader, latest: Latest, lines: seq<string>, i: nat)
    requires i < |lines|
    ensures AfterLines(read, latest, lines[..i + 1]) == Absorb(AfterLines(read, latest, lines[..i]), read(lines[i]))
  {
    assert lines[..i + 1][..i] == lines[..i];
  }

  class OpenRouterStreamObserver {
    var buffer: string
    var latest: Latest

    constructor ()
      ensures buffer == "" && latest == NOTHING
    {
      buffer := "";
      latest := NOTHING;
    }

    method Push(read: FrameReader, chunk: string)
      modifies this
      ensures buffer == Remainder(old(buffer) + chunk)
      ensures latest == AfterLines(read, old(latest), CompleteLines(old(buffer) + chunk))
    {
      buffer := buffer + chunk;
      ghost var whole := buffer;
      var lines := Split(buffer, '\n');
      buffer := lines[|lines| - 1];
      lines := lines[..|lines| - 1];
      for i := 0 to |lines|
        invariant buffer == Remainder(whole)
        invariant latest == AfterLines(read, old(latest), lines[..i])
      {
        AbsorbOneMore(read, old(latest), lines, i);
        var frame := read(lines[i]);
        if frame.Some? {
          var f := frame.value;
          if f.id.Some? { latest := latest.(id := f.id); }
          if f.model.Some? { latest := latest.(model := f.model); }
          if f.provider.Some? { latest := latest.(provider := f.provider); }
          if FinishOf(f).Some? { latest := latest.(finish := FinishOf(f)); }
          if f.usage.Some? { latest := latest.(usage := f.usage); }
        }
      }
      assert lines[..|lines|] == lines;
    }

    method Result() returns (r: Observed)
      ensures r == ObservedFrom(latest)
    {
      r := ObservedFrom(latest);
    }
  }

  // ------------------------------------------------------------- chunk independence

  lemma {:induction false} AfterConcat(read: FrameReader, latest: Latest, a: seq<string>, b: seq<string>)
    ensures AfterLines(read, latest, a + b) == AfterLines(read, AfterLines(read, latest, a), b)
  {
    if b == [] {
      assert a + b == a;
    } else {
      assert (a + b)[..|a + b| - 1] == a + b[..|b| - 1];
      AfterConcat(read, latest, a, b[..|b| - 1]);
    }
  }

  lemma PushesAdd(read: FrameReader, latest: Latest, fed: string, chunk: string)
    ensures AfterLines(read, AfterLines(read, latest, CompleteLines(fed)), CompleteLines(Remainder(fed) + chunk))
         == AfterLines(read, latest, CompleteLines(fed + chunk))
    ensures Remainder(Remainder(fed) + chunk) == Remainder(fed + chunk)
  {
    SplitConcat(fed, chunk);
    AfterConcat(read, latest, CompleteLines(fed), CompleteLines(Remainder(fed) + chunk));
  }

  /** Watching a whole stream reads the complete lines of its concatenation, however it was cut. */
  method ObserveStream(read: FrameReader, chunks: seq<string>) returns (r: Observed)
    ensures r == ObservedFrom(AfterLines(read, NOTHING, CompleteLines(Concat(chunks))))
  {
    var observer := new OpenRouterStreamObserver();
    OneLineLeft("");
    for i := 0 to |chunks|
      invariant observer.buffer == Remainder(Concat(chunks[..i]))
      invariant observer.latest == AfterLines(read, NOTHING, CompleteLines(Concat(chunks[..i])))
    {
      PushesAdd(read, NOTHING, Concat(chunks[..i]), chunks[i]);
      ConcatSnoc(chunks[..i], chunks[i]);
      assert chunks[..i] + [chunks[i]] == chunks[..i + 1];
      observer.Push(read, chunks[i]);
    }
    assert chunks[..|chunks|] == chunks;
    r := observer.Result();
  }

  lemma {:induction false} ConcatSnoc(chunks: seq<string>, chunk: string)
    ensures Concat(chunks + [chunk]) == Concat(chunks) + chunk
  {
    if chunks == [] {
      assert [] + [chunk] == [chunk] && [chunk][1..] == [];
    } else {
      assert (chunks + [chunk])[1..] == chunks[1..] + [chunk];
      ConcatSnoc(chunks[1..], chunk);
    }
  }

  /** A line the stream never finished leaves no trace. */
  lemma UnfinishedLineIsIgnored(read: FrameReader, text: string, tail: string)
    requires '\n' !in tail
    ensures AfterLines(read, NOTHING, CompleteLines(text + tail)) == AfterLines(read, NOTHING, CompleteLines(text))
  {
    SplitConcat(text, tail);
    OneLineLeft(Remainder(text) + tail);
    assert CompleteLines(text) + [] == CompleteLines(text);
  }

  // --------------------------------------------------------------- last writer wins

  /** `r` is the value of the last line on which `f` is set, or nothing if it never is. */
  ghost predicate IsLast<T>(f: string -> Option<T>, lines: seq<string>, r: Option<T>)
  {
    if r.None? then forall i | 0 <= i < |lines| :: f(lines[i]).None?
    else exists i | 0 <= i < |lines| :: f(lines[i]) == r && forall j | i < j < |lines| :: f(lines[j]).None?
  }

  function Field<T>(read: FrameReader, pick: Chunk -> Option<T>): string -> Option<T>
  {
    (line: string) => match read(line) case None => None case Some(chunk) => pick(chunk)
  }

  lemma LastGrows<T>(f: string -> Option<T>, lines: seq<string>, line: string, r: Option<T>)
    requires IsLast(f, lines, r)
    ensures IsLast(f, lines + [line], Or(f(line), r))
  {
    var more := lines + [line];
    assert more[|lines|] == line;
    assert forall i | 0 <= i < |lines| :: more[i] == lines[i];
    if f(line).None? && r.Some? {
      var i :| 0 <= i < |lines| && f(lines[i]) == r && forall j | i < j < |lines| :: f(lines[j]).None?;
      assert f(more[i]) == r && forall j | i < j < |more| :: f(more[j]).None?;
    }
  }

  /** `get` is the member of the result that `pick` feeds. */
  ghost predicate Feeds<T(!new)>(pick: Chunk -> Option<T>, get: Latest -> Option<T>)
  {
    && get(NOTHING).None?
    && forall latest, chunk :: get(Absorb(latest, Some(chunk))) == Or(pick(chunk), get(latest))
  }

  lemma {:induction false} LastOfMember<T(!new)>(read: FrameReader, pick: Chunk -> Option<T>, get: Latest -> Option<T>, lines: seq<string>)
    requires Feeds(pick, get)
    ensures IsLast(Field(read, pick), lines, get(AfterLines(read, NOTHING, lines)))
  {
    if lines != [] {
      var before, line := lines[..|lines| - 1], lines[|lines| - 1];
      LastOfMember(read, pick, get, before);
      LastGrows(Field(read, pick), before, line, get(AfterLines(read, NOTHING, before)));
      assert before + [line] == lines;
    }
  }

  /** After any lines, each member of the result is the one the last frame stating it stated. */
  lemma LastWriterWins(read: FrameReader, lines: seq<string>)
    ensures IsLast(Field(read, (c: Chunk) => c.id), lines, AfterLines(read, NOTHING, lines).id)
    ensures IsLast(Field(read, (c: Chunk) => c.model), lines, AfterLines(read, NOTHING, lines).model)
    ensures IsLast(Field(read, (c: Chunk) => c.provider), lines, AfterLines(read, NOTHING, lines).provider)
    ensures IsLast(Field(read, (c: Chunk) => if c.finishReason == Some(Some("")) then None else c.finishReason), lines, AfterLines(read, NOTHING, lines).finish)
    ensures IsLast(Field(read, (c: Chunk) => c.usage), lines, AfterLines(read, NOTHING, lines).usage)
  {
    LastOfMember(read, (c: Chunk) => c.id, (l: Latest) => l.id, lines);
    LastOfMember(read, (c: Chunk) => c.model, (l: Latest) => l.model, lines);
    LastOfMember(read, (c: Chunk) => c.provider, (l: Latest) => l.provider, lines);
    LastOfMember(read, (c: Chunk) => if c.finishReason == Some(Some("")) then None else c.finishReason, (l: Latest) => l.finish, lines);
    LastOfMember(read, (c: Chunk) => c.usage, (l: Latest) => l.usage, lines);
  }

  /** A line's frame is what its payload decodes to; other lines have none. */
  lemma FrameExactly(decode: Decoder, line: string, chunk: Chunk)
    ensures Reader(decode)(line) == Some(chunk) <==>
              exists data :: Carries(line, data) && data != "[DONE]" && decode(data) == Value(chunk)
  {
    var trimmed := Trim(line);
    if "data:" <= trimmed {
      assert Carries(line, Trim(trimmed[5..])) <==> Trim(trimmed[5..]) != "";
    }
  }

  /**
   * The result reports what was remembered. The provider, when none was stated, is
   * what stands before the first slash of the model's name, if there is one.
   */
  lemma ObservedExactly(latest: Latest)
    ensures var o := ObservedFrom(latest);
            && o.generationId == latest.id && o.model == latest.model && o.usage == latest.usage
            && (latest.finish.None? ==> o.finishReason.None?) && (latest.finish.Some? ==> o.finishReason == latest.finish.value)
            && (latest.provider.Some? ==> o.provider == latest.provider)
            && (latest.provider.None? ==>
                  && (o.provider.Some? <==> latest.model.Some? && '/' in latest.model.value)
                  && (o.provider.Some? ==> '/' !in o.provider.value && o.provider.value + "/" <= latest.model.value))
  {
    if latest.model.Some? && '/' in latest.model.value {
      var k := IndexOfChar(latest.model.value, '/');
      assert Split(latest.model.value, '/')[0] == latest.model.value[..k];
      assert latest.model.value[..k] + "/" == latest.model.value[..k + 1];
    }
  }
}
