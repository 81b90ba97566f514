/**
 * Files folded into a chat message, each in a fenced block of its own, and a
 * reader that takes such a message apart the way CommonMark 0.31.2, section 4.5,
 * reads code fences.
 */
module Attachments {
  import opened Wrappers
  import opened Text

  datatype Attachment = Attachment(name: string, text: string)

  datatype Message = Message(files: seq<Attachment>, question: string)

  // -------------------------------------------------------------------- the fence

  /** Backticks at the start of a string. */
  function LeadingRun(s: string): (n: nat)
    ensures n <= |s| && forall i | 0 <= i < n :: s[i] == '`'
    ensures n < |s| ==> s[n] != '`'
  {
    if s == "" || s[0] != '`' then 0 else 1 + LeadingRun(s[1..])
  }

  predicate AllTicks(s: string)
  {
    forall i | 0 <= i < |s| :: s[i] == '`'
  }

  function Max(a: nat, b: nat): nat
  {
    if a < b then b else a
  }

  /** The longest of the maximal backtick runs, found left to right. */
  function LongestRun(s: string): nat
    decreases |s|
  {
    if s == "" then 0
    else if s[0] == '`' then Max(LeadingRun(s), LongestRun(s[LeadingRun(s)..]))
    else LongestRun(s[1..])
  }

  function Ticks(n: nat): (s: string)
    ensures |s| == n && AllTicks(s)
  {
    seq(n, _ => '`')
  }

  function FenceFor(text: string): string
  {
    Ticks(Max(3, LongestRun(text) + 1))
  }

  predicate RunAt(s: string, i: int, n: nat)
  {
    0 <= i <= |s| - n && forall j | i <= j < i + n :: s[j] == '`'
  }

  /** `n` backticks in a row occur somewhere. */
  ghost predicate HasRun(s: string, n: nat)
  {
    exists i :: RunAt(s, i, n)
  }

  /** A run of some length occurs exactly if it is no longer than the longest run. */
  lemma {:induction false} RunsUpToLongest(s: string, n: nat)
    requires n > 0
    ensures HasRun(s, n) <==> n <= LongestRun(s)
    decreases |s|
  {
    if s != "" {
      var k := if s[0] == '`' then LeadingRun(s) else 1;
      RunsUpToLongest(s[k..], n);
      RunSplits(s, k, n);
    }
  }

  lemma RunInRest(s: string, k: nat, i: int, n: nat)
    requires k <= |s|
    ensures RunAt(s[k..], i, n) <==> i >= 0 && RunAt(s, k + i, n)
  {
    if i >= 0 && RunAt(s, k + i, n) {
      assert forall j | i <= j < i + n :: s[k..][j] == s[k + j];
    }
    if RunAt(s[k..], i, n) {
      assert forall j | k + i <= j < k + i + n :: s[j] == s[k..][j - k];
    }
  }

  /** A run in `s` lies in the leading run or after it: it cannot straddle a character that is no backtick. */
  lemma RunSplits(s: string, k: nat, n: nat)
    requires s != "" && n > 0 && k == if s[0] == '`' then LeadingRun(s) else 1
    ensures HasRun(s, n) <==> (s[0] == '`' && n <= k) || HasRun(s[k..], n)
  {
    if HasRun(s[k..], n) {
      var i :| RunAt(s[k..], i, n);
      RunInRest(s, k, i, n);
    }
    if s[0] == '`' && n <= k {
      assert forall j | 0 <= j < k :: s[j] == s[..k][j];
      assert RunAt(s, 0, n);
    }
    if HasRun(s, n) {
      var i :| RunAt(s, i, n);
      StaysOnOneSide(s, k, i, n);
      if i >= k {
        RunInRest(s, k, i - k, n);
      }
    }
  }

  lemma StaysOnOneSide(s: string, k: nat, i: int, n: nat)
    requires s != "" && n > 0 && k == if s[0] == '`' then LeadingRun(s) else 1
    requires RunAt(s, i, n)
    ensures i >= k || (s[0] == '`' && i + n <= k)
  {
    assert i <= 0 < i + n ==> s[0] == '`';
    assert k < |s| && i <= k < i + n ==> s[k] == '`';
  }

  /** No backtick run in a file is as long as its fence, and a shorter fence of three or more would occur in it. */
  lemma FenceIsShortestSafe(text: string, n: nat)
    requires n >= 3
    ensures HasRun(text, n) <==> n < |FenceFor(text)|
  {
    RunsUpToLongest(text, n);
  }

  // ------------------------------------------------------------------- composing

  /** `lastIndexOf`, as an option. */
  function LastIndexOf(s: string, c: char): Option<nat>
  {
    if s == "" then None
    else if s[|s| - 1] == c then Some(|s| - 1)
    else LastIndexOf(s[..|s| - 1], c)
  }

  /** The part of a path after its last slash or backslash. */
  function BaseName(name: string): string
  {
    if name == "" || name[|name| - 1] in "\\/" then ""
    else BaseName(name[..|name| - 1]) + [name[|name| - 1]]
  }

  /** The extension, in lower case; a leading dot starts no extension. */
  function ExtensionOf(lower: string -> string, name: string): string
  {
    match LastIndexOf(BaseName(name), '.')
    case None => ""
    case Some(dot) => if dot > 0 && dot < |BaseName(name)| then lower(BaseName(name)[dot + 1..]) else ""
  }

  function BlockOf(lower: string -> string, a: Attachment): string
  {
    a.name + "\n" + FenceFor(a.text) + ExtensionOf(lower, a.name) + "\n" + a.text + "\n" + FenceFor(a.text)
  }

  function BlocksOf(lower: string -> string, files: seq<Attachment>): seq<string>
  {
    if files == [] then [] else [BlockOf(lower, files[0])] + BlocksOf(lower, files[1..])
  }

  const ONE_FILE := "The user attached this file:"
  const BEFORE_COUNT := "The user attached "
  const AFTER_COUNT := " files:"

  function Preamble(count: nat): string
  {
    if count == 1 then ONE_FILE else BEFORE_COUNT + Digits(count) + AFTER_COUNT
  }

  function NonEmpty(parts: seq<string>): seq<string>
  {
    if parts == [] then []
    else if |parts[0]| > 0 then [parts[0]] + NonEmpty(parts[1..])
    else NonEmpty(parts[1..])
  }

  /** What is sent: the files, then the question. */
  function ComposeMessage(lower: string -> string, text: string, files: seq<Attachment>): string
  {
    if files == [] then text
    else Join(NonEmpty([Preamble(|files|), Join(BlocksOf(lower, files), "\n\n"), Trim(text)]), "\n\n")
  }

  // --------------------------------------------------------------------- reading

  function LeadingSpaces(s: string): (n: nat)
    ensures n <= |s|
  {
    if s == "" || s[0] != ' ' then 0 else 1 + LeadingSpaces(s[1..])
  }

  predicate OnlySpacesAndTabs(s: string)
  {
    forall i | 0 <= i < |s| :: s[i] == ' ' || s[i] == '\t'
  }

  /** A closing fence: at most three spaces, enough backticks, then nothing but spaces and tabs. */
  predicate Closes(line: string, fence: nat)
  {
    var body := line[LeadingSpaces(line)..];
    LeadingSpaces(line) <= 3 && LeadingRun(body) >= fence && OnlySpacesAndTabs(body[LeadingRun(body)..])
  }

  /** An opening fence: three backticks or more, and an info string without any. */
  predicate Opens(line: string)
  {
    LeadingRun(line) >= 3 && '`' !in line[LeadingRun(line)..]
  }

  /** How many lines come before the first closing fence. */
  function UntilClose(lines: seq<string>, fence: nat): (k: nat)
    ensures k <= |lines|
  {
    if lines == [] || Closes(lines[0], fence) then 0 else 1 + UntilClose(lines[1..], fence)
  }

  datatype Block = Block(file: Attachment, rest: seq<string>)

  /** A name, an opening fence, lines up to the first closing fence. */
  function ReadBlock(lines: seq<string>): (r: Option<Block>)
    ensures r.Some? ==> |r.value.rest| < |lines| && r.value.file.name == lines[0]
  {
    if |lines| < 3 || !Opens(lines[1]) then None
    else
      var k := UntilClose(lines[2..], LeadingRun(lines[1]));
      if k == |lines[2..]| then None
      else Some(Block(Attachment(lines[0], Join(lines[2..2 + k], "\n")), lines[3 + k..]))
  }

  datatype Blocks = Blocks(files: seq<Attachment>, rest: seq<string>)

  /** A number of blocks with one blank line between them. */
  function ReadBlocks(count: nat, lines: seq<string>): Option<Blocks>
  {
    if count == 0 then None
    else
      match ReadBlock(lines)
      case None => None
      case Some(block) =>
        if count == 1 then Some(Blocks([block.file], block.rest))
        else if block.rest == [] || block.rest[0] != "" then None
        else
          match ReadBlocks(count - 1, block.rest[1..])
          case None => None
          case Some(more) => Some(Blocks([block.file] + more.files, more.rest))
  }

  /** How many files the first line announces. */
  function ReadCount(line: string): Option<nat>
  {
    var start, end := |BEFORE_COUNT|, |line| - |AFTER_COUNT|;
    if line == ONE_FILE then Some(1)
    else if start <= end && line[..start] == BEFORE_COUNT && line[end..] == AFTER_COUNT
              && AllDigits(line[start..end]) then
      Some(ValueOf(line[start..end]))
    else None
  }

  /** Take a message with files apart. */
  function ReadMessage(message: string): Option<Message>
  {
    var lines := Split(message, '\n');
    if |lines| < 2 || lines[1] != "" || ReadCount(lines[0]).None? then None
    else
      match ReadBlocks(ReadCount(lines[0]).value, lines[2..])
      case None => None
      case Some(blocks) => MessageOf(blocks)
  }

  /** What follows the blocks is the question, after a blank line. */
  function MessageOf(blocks: Blocks): (r: Option<Message>)
    ensures r.Some? ==> r.value.files == blocks.files
  {
    if blocks.rest == [] then Some(Message(blocks.files, ""))
    else if blocks.rest[0] != "" then None
    else Some(Message(blocks.files, Join(blocks.rest[1..], "\n")))
  }

  // -------------------------------------------------------------- lines of a message

  lemma OverBlank(a: string, b: string)
    ensures a + "\n\n" + b == Over(a, Over("", b))
  {
  }

  lemma SplitBlank(a: string, b: string)
    ensures Split(a + "\n\n" + b, '\n') == Split(a, '\n') + ([""] + Split(b, '\n'))
  {
    OverBlank(a, b);
    SplitAppend(a, Over("", b));
    SplitAppend("", b);
    SplitOneLine("");
  }

  function OpeningOf(lower: string -> string, a: Attachment): string
  {
    FenceFor(a.text) + ExtensionOf(lower, a.name)
  }

  function BlockLines(lower: string -> string, a: Attachment): seq<string>
  {
    Split(a.name, '\n') + (Split(OpeningOf(lower, a), '\n') + (Split(a.text, '\n') + [FenceFor(a.text)]))
  }

  lemma OverBlock(name: string, fence: string, language: string, text: string)
    ensures name + "\n" + fence + language + "\n" + text + "\n" + fence
         == Over(name, Over(fence + language, Over(text, fence)))
  {
  }

  lemma LinesOfBlock(lower: string -> string, a: Attachment)
    ensures Split(BlockOf(lower, a), '\n') == BlockLines(lower, a)
  {
    var fence, open := FenceFor(a.text), OpeningOf(lower, a);
    SplitOneLine(fence);
    SplitAppend(a.text, fence);
    SplitAppend(open, Over(a.text, fence));
    SplitAppend(a.name, Over(open, Over(a.text, fence)));
    OverBlock(a.name, fence, ExtensionOf(lower, a.name), a.text);
  }

  function AllLines(lower: string -> string, files: seq<Attachment>, tail: seq<string>): seq<string>
    requires files != []
  {
    if |files| == 1 then BlockLines(lower, files[0]) + tail
    else BlockLines(lower, files[0]) + ([""] + AllLines(lower, files[1..], tail))
  }

  lemma {:induction false} LinesOfBlocks(lower: string -> string, files: seq<Attachment>, tail: seq<string>)
    requires files != []
    ensures Split(Join(BlocksOf(lower, files), "\n\n"), '\n') + tail == AllLines(lower, files, tail)
    ensures Join(BlocksOf(lower, files), "\n\n") != ""
  {
    LinesOfBlock(lower, files[0]);
    var first := BlockOf(lower, files[0]);
    if |files| == 1 {
      assert BlocksOf(lower, files) == [first];
    } else {
      var later := Join(BlocksOf(lower, files[1..]), "\n\n");
      LinesOfBlocks(lower, files[1..], tail);
      JoinCons(first, BlocksOf(lower, files[1..]), "\n\n");
      SplitBlank(first, later);
      BlankAssoc(BlockLines(lower, files[0]), Split(later, '\n'), tail);
    }
  }

  lemma BlankAssoc(a: seq<string>, b: seq<string>, c: seq<string>)
    ensures (a + ([""] + b)) + c == a + ([""] + (b + c))
  {
  }

  function TailOf(question: string): seq<string>
  {
    if question == "" then [] else [""] + Split(question, '\n')
  }

  lemma LinesOfMessage(lower: string -> string, text: string, files: seq<Attachment>)
    requires files != [] && '\n' !in Preamble(|files|)
    ensures Split(ComposeMessage(lower, text, files), '\n')
         == [Preamble(|files|), ""] + AllLines(lower, files, TailOf(Trim(text)))
  {
    var first, blocks, question := Preamble(|files|), Join(BlocksOf(lower, files), "\n\n"), Trim(text);
    LinesOfBlocks(lower, files, TailOf(question));
    assert first != "";
    assert Split(first, '\n') == [first];
    NonEmptyParts(first, blocks, question);
    if question == "" {
      SplitBlank(first, blocks);
      AppendNothing(Split(blocks, '\n'));
    } else {
      SplitBlank(blocks, question);
      SplitBlank(first, blocks + "\n\n" + question);
    }
    PreambleAssoc(first, AllLines(lower, files, TailOf(question)));
  }

  lemma AppendNothing(a: seq<string>)
    ensures a + [] == a
  {
  }

  lemma PreambleAssoc(first: string, lines: seq<string>)
    ensures [first] + ([""] + lines) == [first, ""] + lines
  {
  }

  lemma NonEmptyParts(first: string, blocks: string, question: string)
    requires first != "" && blocks != ""
    ensures Join(NonEmpty([first, blocks, question]), "\n\n")
         == first + "\n\n" + (if question == "" then blocks else blocks + "\n\n" + question)
  {
    var last := if question == "" then [] else [question];
    assert [question][1..] == [];
    assert NonEmpty([question]) == last;
    assert [blocks, question][1..] == [question];
    assert NonEmpty([blocks, question]) == [blocks] + last;
    assert [first, blocks, question][1..] == [blocks, question];
    assert NonEmpty([first, blocks, question]) == [first] + ([blocks] + last);
    JoinCons(first, [blocks] + last, "\n\n");
    if question == "" {
      assert [blocks] + last == [blocks];
    } else {
      JoinCons(blocks, last, "\n\n");
    }
  }

  // ----------------------------------------------------------------- the round trip

  lemma CountIsRead(count: nat)
    ensures ReadCount(Preamble(count)) == Some(count) && '\n' !in Preamble(count)
  {
    if count != 1 {
      var digits, line := Digits(count), Preamble(count);
      var end := |line| - |AFTER_COUNT|;
      DigitsRoundTrip(count);
      assert line[..|BEFORE_COUNT|] == BEFORE_COUNT && line[end..] == AFTER_COUNT && line[|BEFORE_COUNT|..end] == digits;
      assert line[|BEFORE_COUNT|] == digits[0];
      assert ONE_FILE[|BEFORE_COUNT|] == 't';
    }
  }

  lemma {:induction false} RunInLine(text: string, line: string, n: nat)
    requires line in Split(text, '\n') && HasRun(line, n)
    ensures HasRun(text, n)
    decreases |text|
  {
    if '\n' in text {
      var k := IndexOfChar(text, '\n');
      if line == text[..k] {
        var i :| RunAt(line, i, n);
        assert forall j | i <= j < i + n :: text[j] == line[j];
        assert RunAt(text, i, n);
      } else {
        RunInLine(text[k + 1..], line, n);
        var i :| RunAt(text[k + 1..], i, n);
        RunInRest(text, k + 1, i, n);
      }
    }
  }

  /** A closing line carries a run as long as the fence. */
  lemma ClosingHasRun(line: string, fence: nat)
    requires Closes(line, fence)
    ensures HasRun(line, fence)
  {
    var k := LeadingSpaces(line);
    var run := line[k..][..LeadingRun(line[k..])];
    assert forall j | k <= j < k + fence :: line[j] == run[j - k];
    assert RunAt(line, k, fence);
  }

  /** No line of a file closes the fence made for it. */
  lemma NoLineCloses(text: string, line: string)
    requires line in Split(text, '\n')
    ensures !Closes(line, |FenceFor(text)|)
  {
    if Closes(line, |FenceFor(text)|) {
      ClosingHasRun(line, |FenceFor(text)|);
      RunInLine(text, line, |FenceFor(text)|);
      FenceIsShortestSafe(text, |FenceFor(text)|);
    }
  }

  lemma {:induction false} RunOfTicks(n: nat, rest: string)
    ensures LeadingRun(Ticks(n) + rest) == n + LeadingRun(rest)
    ensures (Ticks(n) + rest)[n..] == rest
  {
    if n == 0 {
      assert Ticks(0) + rest == rest;
    } else {
      RunOfTicks(n - 1, rest);
      assert (Ticks(n) + rest)[1..] == Ticks(n - 1) + rest;
    }
  }

  lemma FenceCloses(n: nat)
    requires n > 0
    ensures Closes(Ticks(n), n)
  {
    RunOfTicks(n, "");
    assert Ticks(n) + "" == Ticks(n);
    assert LeadingSpaces(Ticks(n)) == 0;
    assert Ticks(n)[0..] == Ticks(n);
  }

  lemma {:induction false} UntilCloseStops(body: seq<string>, close: string, rest: seq<string>, fence: nat)
    requires (forall line | line in body :: !Closes(line, fence)) && Closes(close, fence)
    ensures UntilClose(body + [close] + rest, fence) == |body|
  {
    if body == [] {
      assert ([] + [close] + rest)[0] == close;
    } else {
      assert (body + [close] + rest)[1..] == body[1..] + [close] + rest;
      UntilCloseStops(body[1..], close, rest, fence);
    }
  }

  /** A name that can be read back: one line, and an extension without backticks. */
  predicate Readable(lower: string -> string, name: string)
  {
    '\n' !in name && '`' !in ExtensionOf(lower, name)
  }

  /** Lower-casing makes no line break out of none. */
  ghost predicate KeepsLines(lower: string -> string)
  {
    forall s | '\n' !in s :: '\n' !in lower(s)
  }

  lemma {:induction false} BaseNameIsPart(name: string)
    requires '\n' !in name
    ensures '\n' !in BaseName(name)
  {
    if name != "" && name[|name| - 1] !in "\\/" {
      BaseNameIsPart(name[..|name| - 1]);
    }
  }

  lemma OpeningLine(fence: string, language: string)
    requires AllTicks(fence) && |fence| >= 3
    ensures LeadingRun(fence + language) == |fence| + LeadingRun(language)
    ensures '`' !in language ==> Opens(fence + language)
    ensures '`' in language && Opens(fence + language) ==> LeadingRun(language) > 0
  {
    assert fence == Ticks(|fence|);
    RunOfTicks(|fence|, language);
    if LeadingRun(language) == 0 {
      assert (fence + language)[|fence|..] == language;
    }
  }

  lemma LanguageIsOneLine(lower: string -> string, name: string)
    requires '\n' !in name && KeepsLines(lower)
    ensures '\n' !in ExtensionOf(lower, name)
  {
    BaseNameIsPart(name);
  }

  /** The lines of a block whose name and language are one line each. */
  lemma LinesOfPlainBlock(lower: string -> string, a: Attachment, rest: seq<string>)
    requires '\n' !in a.name && KeepsLines(lower)
    ensures BlockLines(lower, a) + rest
         == [a.name, OpeningOf(lower, a)] + (Split(a.text, '\n') + [FenceFor(a.text)] + rest)
  {
    LanguageIsOneLine(lower, a.name);
    SplitOneLine(a.name);
    SplitOneLine(OpeningOf(lower, a));
  }

  lemma FindsItsFence(text: string, rest: seq<string>)
    ensures UntilClose(Split(text, '\n') + [FenceFor(text)] + rest, |FenceFor(text)|) == |Split(text, '\n')|
  {
    var fence := FenceFor(text);
    forall line | line in Split(text, '\n') ensures !Closes(line, |fence|) {
      NoLineCloses(text, line);
    }
    assert fence == Ticks(|fence|);
    FenceCloses(|fence|);
    UntilCloseStops(Split(text, '\n'), fence, rest, |fence|);
  }

  lemma ReadBlockStep(name: string, open: string, body: seq<string>, fence: string, rest: seq<string>)
    requires Opens(open) && UntilClose(body + [fence] + rest, LeadingRun(open)) == |body|
    ensures ReadBlock([name, open] + (body + [fence] + rest)) == Some(Block(Attachment(name, Join(body, "\n")), rest))
  {
    var lines, more := [name, open] + (body + [fence] + rest), body + [fence] + rest;
    assert lines[2..] == more;
    assert lines[2..2 + |body|] == body;
    assert lines[3 + |body|..] == rest;
  }

  /** A readable file is read back, and the lines after it are left. */
  lemma ReadableIsRead(lower: string -> string, a: Attachment, rest: seq<string>)
    requires KeepsLines(lower) && Readable(lower, a.name)
    ensures ReadBlock(BlockLines(lower, a) + rest) == Some(Block(a, rest))
  {
    LinesOfPlainBlock(lower, a, rest);
    OpeningLine(FenceFor(a.text), ExtensionOf(lower, a.name));
    FindsItsFence(a.text, rest);
    ReadBlockStep(a.name, OpeningOf(lower, a), Split(a.text, '\n'), FenceFor(a.text), rest);
    JoinSplit(a.text, '\n');
  }

  /** Past lines that do not close, the search goes on. */
  lemma {:induction false} UntilClosePasses(body: seq<string>, rest: seq<string>, fence: nat)
    requires forall line | line in body :: !Closes(line, fence)
    ensures UntilClose(body + rest, fence) >= |body|
  {
    if body != [] {
      assert (body + rest)[1..] == body[1..] + rest;
      UntilClosePasses(body[1..], rest, fence);
    }
  }

  /** Backticks at the start of the language make the opening fence too long for its own closing fence. */
  lemma OverlongFence(a: Attachment, lines: seq<string>, rest: seq<string>)
    requires |lines| >= 3 && lines[2..] == Split(a.text, '\n') + [FenceFor(a.text)] + rest
    requires forall line | line in lines :: '\n' !in line
    requires LeadingRun(lines[1]) > |FenceFor(a.text)|
    ensures ReadBlock(lines).Some? ==> ReadBlock(lines).value.file.text != a.text
  {
    var fence, body, n := FenceFor(a.text), Split(a.text, '\n'), LeadingRun(lines[1]);
    forall line | line in body + [fence] ensures !Closes(line, n) {
      if line in body {
        NoLineCloses(a.text, line);
      } else {
        assert fence == Ticks(|fence|);
      }
    }
    UntilClosePasses(body + [fence], rest, n);
    var read := lines[2..2 + UntilClose(lines[2..], n)];
    assert forall line | line in read :: line in lines;
    SplitJoin(read, '\n');
    assert |read| > |body|;
  }

  /** An unreadable file is not read back, whatever follows. */
  lemma UnreadableIsNotRead(lower: string -> string, a: Attachment, rest: seq<string>)
    requires KeepsLines(lower) && !Readable(lower, a.name)
    requires forall line | line in rest :: '\n' !in line
    ensures ReadBlock(BlockLines(lower, a) + rest).Some? ==> ReadBlock(BlockLines(lower, a) + rest).value.file != a
  {
    var lines := BlockLines(lower, a) + rest;
    if '\n' in a.name {
      assert lines[0] == Split(a.name, '\n')[0];
      assert lines[0] in Split(a.name, '\n');
    } else {
      var fence, language := FenceFor(a.text), ExtensionOf(lower, a.name);
      LinesOfPlainBlock(lower, a, rest);
      OpeningLine(fence, language);
      LanguageIsOneLine(lower, a.name);
      if Opens(lines[1]) {
        assert lines[2..] == Split(a.text, '\n') + [fence] + rest;
        OverlongFence(a, lines, rest);
      }
    }
  }

  predicate AllReadable(lower: string -> string, files: seq<Attachment>)
  {
    forall i | 0 <= i < |files| :: Readable(lower, files[i].name)
  }

  lemma {:induction false} LinesHaveNoBreaks(lower: string -> string, files: seq<Attachment>, tail: seq<string>)
    requires files != [] && forall line | line in tail :: '\n' !in line
    ensures forall line | line in AllLines(lower, files, tail) :: '\n' !in line
  {
    assert forall line | line in BlockLines(lower, files[0]) :: '\n' !in line;
    if |files| > 1 {
      LinesHaveNoBreaks(lower, files[1..], tail);
    }
  }

  lemma ReadBlocksStep(count: nat, lines: seq<string>, first: Attachment, later: seq<string>)
    requires count > 1 && ReadBlock(lines) == Some(Block(first, [""] + later))
    ensures ReadBlocks(count, lines) ==
            (match ReadBlocks(count - 1, later) case None => None case Some(more) => Some(Blocks([first] + more.files, more.rest)))
  {
    assert ([""] + later)[1..] == later;
  }

  lemma FirstFileRead(count: nat, lines: seq<string>)
    requires ReadBlocks(count, lines).Some?
    ensures ReadBlock(lines).Some? && ReadBlocks(count, lines).value.files != []
    ensures ReadBlocks(count, lines).value.files[0] == ReadBlock(lines).value.file
  {
  }

  /** All files and the tail if `good`, else anything but these files. */
  ghost predicate Recovers(r: Option<Blocks>, files: seq<Attachment>, tail: seq<string>, good: bool)
  {
    if good then r == Some(Blocks(files, tail)) else r.None? || r.value.files != files
  }

  ghost predicate ReadBack(lower: string -> string, files: seq<Attachment>, tail: seq<string>)
    requires files != []
  {
    Recovers(ReadBlocks(|files|, AllLines(lower, files, tail)), files, tail, AllReadable(lower, files))
  }

  /** Whatever follows, the files are read back exactly when all their names are readable. */
  lemma {:induction false} FilesAreReadBack(lower: string -> string, files: seq<Attachment>, tail: seq<string>)
    requires KeepsLines(lower) && files != [] && forall line | line in tail :: '\n' !in line
    ensures ReadBack(lower, files, tail)
    decreases |files|
  {
    if |files| == 1 {
      OneFileIsReadBack(lower, files, tail);
    } else if Readable(lower, files[0].name) {
      FilesAreReadBack(lower, files[1..], tail);
      FirstFileIsKept(lower, files, tail);
    } else {
      FirstFileIsUnread(lower, files, tail);
    }
  }

  lemma OneFileIsReadBack(lower: string -> string, files: seq<Attachment>, tail: seq<string>)
    requires KeepsLines(lower) && |files| == 1 && forall line | line in tail :: '\n' !in line
    ensures ReadBack(lower, files, tail)
  {
    assert files == [files[0]];
    if Readable(lower, files[0].name) {
      ReadableIsRead(lower, files[0], tail);
    } else {
      FirstFileIsLost(lower, files, tail);
    }
  }

  lemma FirstFileIsUnread(lower: string -> string, files: seq<Attachment>, tail: seq<string>)
    requires KeepsLines(lower) && |files| > 1 && !Readable(lower, files[0].name)
    requires forall line | line in tail :: '\n' !in line
    ensures ReadBack(lower, files, tail)
  {
    LinesHaveNoBreaks(lower, files[1..], tail);
    FirstFileIsLost(lower, files, [""] + AllLines(lower, files[1..], tail));
  }

  lemma FirstFileIsKept(lower: string -> string, files: seq<Attachment>, tail: seq<string>)
    requires KeepsLines(lower) && |files| > 1 && Readable(lower, files[0].name)
    requires ReadBack(lower, files[1..], tail)
    ensures ReadBack(lower, files, tail)
  {
    var later := AllLines(lower, files[1..], tail);
    ReadableIsRead(lower, files[0], [""] + later);
    ReadBlocksStep(|files|, BlockLines(lower, files[0]) + ([""] + later), files[0], later);
    PrependRecovers(ReadBlocks(|files| - 1, later), files, tail, AllReadable(lower, files));
  }

  lemma PrependRecovers(inner: Option<Blocks>, files: seq<Attachment>, tail: seq<string>, good: bool)
    requires files != [] && Recovers(inner, files[1..], tail, good)
    ensures Recovers(match inner case None => None case Some(more) => Some(Blocks([files[0]] + more.files, more.rest)), files, tail, good)
  {
    assert files == [files[0]] + files[1..];
    if inner.Some? {
      assert ([files[0]] + inner.value.files)[1..] == inner.value.files;
    }
  }

  lemma FirstFileIsLost(lower: string -> string, files: seq<Attachment>, rest: seq<string>)
    requires KeepsLines(lower) && files != [] && !Readable(lower, files[0].name)
    requires forall line | line in rest :: '\n' !in line
    ensures Recovers(ReadBlocks(|files|, BlockLines(lower, files[0]) + rest), files, [], false)
  {
    var lines := BlockLines(lower, files[0]) + rest;
    UnreadableIsNotRead(lower, files[0], rest);
    if ReadBlocks(|files|, lines).Some? {
      FirstFileRead(|files|, lines);
    }
  }

  lemma ReadMessageStep(message: string, first: string, lines: seq<string>)
    requires Split(message, '\n') == [first, ""] + lines && ReadCount(first).Some?
    ensures ReadMessage(message) ==
            (match ReadBlocks(ReadCount(first).value, lines) case None => None case Some(blocks) => MessageOf(blocks))
  {
    assert ([first, ""] + lines)[2..] == lines;
  }

  lemma TailIsRead(files: seq<Attachment>, question: string)
    ensures MessageOf(Blocks(files, TailOf(question))) == Some(Message(files, question))
  {
    if question != "" {
      assert TailOf(question)[1..] == Split(question, '\n');
      JoinSplit(question, '\n');
    }
  }

  /** The composed message gives back every file's exact text and the trimmed question exactly when
      every name is one line and no extension carries a backtick. */
  lemma ComposedIsReadBack(lower: string -> string, text: string, files: seq<Attachment>)
    requires KeepsLines(lower) && files != []
    ensures ReadMessage(ComposeMessage(lower, text, files)) == Some(Message(files, Trim(text))) <==> AllReadable(lower, files)
  {
    CountIsRead(|files|);
    LinesOfMessage(lower, text, files);
    ReadsBackFrom(lower, ComposeMessage(lower, text, files), Trim(text), files);
  }

  /** A line break in a name, or a backtick behind its last point, and the files are not recovered. */
  lemma UnreadableNames(lower: string -> string, text: string, content: string)
    requires KeepsLines(lower)
    ensures var broken := [Attachment("a\nb", content)];
            ReadMessage(ComposeMessage(lower, text, broken)) != Some(Message(broken, Trim(text)))
    ensures '`' in lower("`") ==>
              var ticked := [Attachment("a.`", content)];
              ReadMessage(ComposeMessage(lower, text, ticked)) != Some(Message(ticked, Trim(text)))
  {
    var broken, ticked := [Attachment("a\nb", content)], [Attachment("a.`", content)];
    assert broken[0].name[1] == '\n';
    assert !Readable(lower, broken[0].name);
    ComposedIsReadBack(lower, text, broken);
    if '`' in lower("`") {
      TickedExtension(lower);
      assert !Readable(lower, ticked[0].name);
      ComposedIsReadBack(lower, text, ticked);
    }
  }

  lemma BaseNameMore(name: string, c: char)
    requires c !in "\\/"
    ensures BaseName(name + [c]) == BaseName(name) + [c]
  {
    assert (name + [c])[..|name|] == name;
  }

  lemma TickedExtension(lower: string -> string)
    ensures ExtensionOf(lower, "a.`") == lower("`")
  {
    var name := "a.`";
    BaseNameMore("", 'a');
    BaseNameMore("a", '.');
    BaseNameMore("a.", '`');
    assert "" + ['a'] == "a" && "a" + ['.'] == "a." && "a." + ['`'] == name;
    assert name[..2] == "a." && LastIndexOf("a.", '.') == Some(1);
    assert LastIndexOf(name, '.') == LastIndexOf(name[..2], '.');
    assert name[2..] == "`";
  }

  lemma ReadsBackFrom(lower: string -> string, message: string, question: string, files: seq<Attachment>)
    requires KeepsLines(lower) && files != [] && ReadCount(Preamble(|files|)) == Some(|files|)
    requires Split(message, '\n') == [Preamble(|files|), ""] + AllLines(lower, files, TailOf(question))
    ensures ReadMessage(message) == Some(Message(files, question)) <==> AllReadable(lower, files)
  {
    var tail := TailOf(question);
    assert forall line | line in tail :: '\n' !in line;
    FilesAreReadBack(lower, files, tail);
    ReadMessageStep(message, Preamble(|files|), AllLines(lower, files, tail));
    TailIsRead(files, question);
  }

  // -------------------------------------------------------------------- the budget

  const MAX_ATTACHMENT_CHARS: nat := 24_000
  const MAX_SINGLE_ATTACHMENT_CHARS: nat := 20_000
  const MAX_ATTACHMENT_BYTES: nat := 1_000_000
  const MAX_ATTACHMENTS: nat := 6

  datatype Refusal = TooMany | TooLarge | NotText | TooLong | OverBudget | Empty

  function AcceptFile(size: nat, textLike: bool, alreadyAttached: nat): Result<(), Refusal>
  {
    if alreadyAttached >= MAX_ATTACHMENTS then Err(TooMany)
    else if size > MAX_ATTACHMENT_BYTES then Err(TooLarge)
    else if !textLike then Err(NotText)
    else Ok(())
  }

  function Used(attached: seq<Attachment>): nat
  {
    if attached == [] then 0 else |attached[0].text| + Used(attached[1..])
  }

  function AcceptText(text: string, attached: seq<Attachment>): Result<(), Refusal>
  {
    if |text| > MAX_SINGLE_ATTACHMENT_CHARS then Err(TooLong)
    else if Used(attached) + |text| > MAX_ATTACHMENT_CHARS then Err(OverBudget)
    else if |Trim(text)| == 0 then Err(Empty)
    else Ok(())
  }

  /** Dropping a file, or removing one that is attached. */
  datatype Gesture = Drop(file: Attachment, size: nat, textLike: bool) | Remove(index: nat)

  function Apply(attached: seq<Attachment>, g: Gesture): seq<Attachment>
  {
    match g
    case Drop(file, size, textLike) =>
      if AcceptFile(size, textLike, |attached|).Ok? && AcceptText(file.text, attached).Ok? then attached + [file] else attached
    case Remove(i) => if i < |attached| then attached[..i] + attached[i + 1..] else attached
  }

  function ApplyAll(attached: seq<Attachment>, gestures: seq<Gesture>): seq<Attachment>
    decreases |gestures|
  {
    if gestures == [] then attached else ApplyAll(Apply(attached, gestures[0]), gestures[1..])
  }

  ghost predicate WithinBudget(attached: seq<Attachment>)
  {
    && |attached| <= MAX_ATTACHMENTS && Used(attached) <= MAX_ATTACHMENT_CHARS
    && forall a | a in attached :: 0 < |a.text| <= MAX_SINGLE_ATTACHMENT_CHARS
  }

  lemma {:induction false} UsedSplits(a: seq<Attachment>, b: seq<Attachment>)
    ensures Used(a + b) == Used(a) + Used(b)
  {
    if a == [] {
      assert a + b == b;
    } else {
      assert (a + b)[1..] == a[1..] + b;
      UsedSplits(a[1..], b);
    }
  }

  /** However files are dropped and removed, what is attached stays within every limit. */
  lemma {:induction false} BudgetHolds(attached: seq<Attachment>, gestures: seq<Gesture>)
    requires WithinBudget(attached)
    ensures WithinBudget(ApplyAll(attached, gestures))
    decreases |gestures|
  {
    if gestures != [] {
      GestureKeepsBudget(attached, gestures[0]);
      BudgetHolds(Apply(attached, gestures[0]), gestures[1..]);
    }
  }

  lemma GestureKeepsBudget(attached: seq<Attachment>, g: Gesture)
    requires WithinBudget(attached)
    ensures WithinBudget(Apply(attached, g))
  {
    match g
    case Drop(file, _, _) =>
      UsedSplits(attached, [file]);
      assert file.text == "" ==> Trim(file.text) == "";
    case Remove(i) =>
      if i < |attached| {
        assert attached == attached[..i] + ([attached[i]] + attached[i + 1..]);
        UsedSplits(attached[..i], [attached[i]] + attached[i + 1..]);
        UsedSplits([attached[i]], attached[i + 1..]);
        UsedSplits(attached[..i], attached[i + 1..]);
      }
  }

  // ------------------------------------------------------------------- names and limits

  /** The file name is what follows the last slash or backslash; its extension what follows the last dot, unless that dot comes first. */
  lemma {:induction false} BaseNameExactly(name: string) returns (folder: string)
    ensures name == folder + BaseName(name) && '/' !in BaseName(name) && '\\' !in BaseName(name)
    ensures folder != "" ==> folder[|folder| - 1] in "\\/"
  {
    if name == "" || name[|name| - 1] in "\\/" {
      folder := name;
    } else {
      folder := BaseNameExactly(name[..|name| - 1]);
      assert name == name[..|name| - 1] + [name[|name| - 1]];
    }
  }

  lemma {:induction false} LastIndexExactly(s: string, c: char)
    ensures var at := LastIndexOf(s, c);
            && (at.None? <==> c !in s)
            && (at.Some? ==> at.value < |s| && s[at.value] == c && c !in s[at.value + 1..])
  {
    if s != "" && s[|s| - 1] != c {
      var shorter := s[..|s| - 1];
      LastIndexExactly(shorter, c);
      assert s == shorter + [s[|s| - 1]];
      var at := LastIndexOf(shorter, c);
      if at.Some? {
        assert s[at.value + 1..] == shorter[at.value + 1..] + [s[|s| - 1]];
      }
    }
  }

  lemma {:induction false} LastIndexIs(s: string, c: char, k: nat)
    requires k < |s| && s[k] == c && c !in s[k + 1..]
    ensures LastIndexOf(s, c) == Some(k)
  {
    if k < |s| - 1 {
      var shorter := s[..|s| - 1];
      assert s[k + 1..] == shorter[k + 1..] + [s[|s| - 1]];
      assert s[|s| - 1] in s[k + 1..];
      LastIndexIs(shorter, c, k);
    }
  }

  lemma ExtensionExactly(lower: string -> string, name: string, front: string, tail: string)
    ensures '.' !in BaseName(name) ==> ExtensionOf(lower, name) == ""
    ensures BaseName(name) == front + "." + tail && '.' !in tail ==> ExtensionOf(lower, name) == if front == "" then "" else lower(tail)
  {
    var base := BaseName(name);
    if base == front + "." + tail && '.' !in tail {
      assert base[|front|] == '.' && base[|front| + 1..] == tail;
      LastIndexIs(base, '.', |front|);
    } else {
      LastIndexExactly(base, '.');
    }
  }

  lemma UsedExactly(attached: seq<Attachment>, file: Attachment)
    ensures Used([]) == 0 && Used(attached + [file]) == Used(attached) + |file.text|
  {
    UsedSplits(attached, [file]);
    assert [file][1..] == [];
  }

  /** The first thing that is wrong is what the refusal says. */
  lemma RefusalExactly(size: nat, textLike: bool, text: string, attached: seq<Attachment>)
    ensures AcceptFile(size, textLike, |attached|) ==
              if |attached| > 5 then Err(TooMany) else if size > 1_000_000 then Err(TooLarge) else if textLike then Ok(()) else Err(NotText)
    ensures AcceptText(text, attached) ==
              if |text| > 20_000 then Err(TooLong) else if Used(attached) + |text| > 24_000 then Err(OverBudget)
              else if Trim(text) != "" then Ok(()) else Err(Empty)
  {
  }

  /** A dropped file is attached exactly if it is text, small enough, not blank, and fits beside the others. */
  lemma DropExactly(attached: seq<Attachment>, file: Attachment, size: nat, textLike: bool)
    ensures Apply(attached, Drop(file, size, textLike)) ==
              if |attached| < 6 && size <= 1_000_000 && textLike && |file.text| <= 20_000 && Used(attached) + |file.text| <= 24_000 && Trim(file.text) != ""
              then attached + [file] else attached
  {
    RefusalExactly(size, textLike, file.text, attached);
    DropDecides(attached, file, size, textLike, AcceptText(file.text, attached).Ok?);
  }

  lemma DropDecides(attached: seq<Attachment>, file: Attachment, size: nat, textLike: bool, fits: bool)
    requires fits == AcceptText(file.text, attached).Ok?
    ensures Apply(attached, Drop(file, size, textLike)) ==
              if |attached| < 6 && size <= 1_000_000 && textLike && fits then attached + [file] else attached
  {
  }

  lemma RemoveExactly(attached: seq<Attachment>, i: nat)
    ensures Apply(attached, Remove(i)) == if i < |attached| then attached[..i] + attached[i + 1..] else attached
  {
  }

  /** One file and a question, written out. */
  lemma OneFileReads(lower: string -> string, text: string, file: Attachment)
    ensures ComposeMessage(lower, text, []) == text
    ensures ComposeMessage(lower, text, [file]) ==
              "The user attached this file:" + "\n\n"
              + (file.name + "\n" + FenceFor(file.text) + ExtensionOf(lower, file.name) + "\n" + file.text + "\n" + FenceFor(file.text))
              + if Trim(text) == "" then "" else "\n\n" + Trim(text)
  {
    var block := BlockOf(lower, file);
    assert BlocksOf(lower, [file]) == [block] by {
      assert [file][1..] == [];
    }
    NonEmptyParts(ONE_FILE, block, Trim(text));
  }

  // -------------------------------------------------------------- what closes a fence

  lemma {:induction false} RunThenOther(ticks: string, rest: string)
    requires AllTicks(ticks) && (rest == "" || rest[0] != '`')
    ensures LeadingRun(ticks + rest) == |ticks|
  {
    if ticks == "" {
      assert ticks + rest == rest;
    } else {
      assert (ticks + rest)[1..] == ticks[1..] + rest;
      RunThenOther(ticks[1..], rest);
    }
  }

  lemma {:induction false} SpacesThenOther(pad: string, rest: string)
    requires (forall i | 0 <= i < |pad| :: pad[i] == ' ') && (rest == "" || rest[0] != ' ')
    ensures LeadingSpaces(pad + rest) == |pad|
  {
    if pad == "" {
      assert pad + rest == rest;
    } else {
      assert (pad + rest)[1..] == pad[1..] + rest;
      SpacesThenOther(pad[1..], rest);
    }
  }

  /** At most three spaces, backticks, as many as opened or more, and blanks behind them close a fence. */
  lemma ClosingReads(pad: string, ticks: string, blanks: string, fence: nat)
    requires (forall i | 0 <= i < |pad| :: pad[i] == ' ') && |pad| <= 3
    requires AllTicks(ticks) && |ticks| >= fence && ticks != "" && forall i | 0 <= i < |blanks| :: blanks[i] == ' ' || blanks[i] == '\t'
    ensures Closes(pad + (ticks + blanks), fence)
  {
    var line := pad + (ticks + blanks);
    SpacesThenOther(pad, ticks + blanks);
    assert line[|pad|..] == ticks + blanks;
    RunThenOther(ticks, blanks);
    assert (ticks + blanks)[|ticks|..] == blanks;
  }

  lemma {:induction false} SpacesLead(line: string)
    ensures forall i | 0 <= i < LeadingSpaces(line) :: line[i] == ' '
  {
    if line != "" && line[0] == ' ' {
      SpacesLead(line[1..]);
    }
  }

  lemma RunAndRest(body: string) returns (ticks: string, blanks: string)
    ensures body == ticks + blanks && |ticks| == LeadingRun(body) && AllTicks(ticks) && blanks == body[LeadingRun(body)..]
  {
    ticks, blanks := body[..LeadingRun(body)], body[LeadingRun(body)..];
  }

  lemma SpacesAndRest(line: string) returns (pad: string, body: string)
    ensures line == pad + body && |pad| == LeadingSpaces(line) && body == line[LeadingSpaces(line)..]
    ensures forall i | 0 <= i < |pad| :: pad[i] == ' '
  {
    SpacesLead(line);
    pad, body := line[..LeadingSpaces(line)], line[LeadingSpaces(line)..];
  }

  /** And nothing else closes it. */
  lemma ClosingIs(line: string, fence: nat) returns (pad: string, ticks: string, blanks: string)
    requires Closes(line, fence)
    ensures line == pad + (ticks + blanks) && |pad| <= 3 && (forall i | 0 <= i < |pad| :: pad[i] == ' ')
    ensures AllTicks(ticks) && |ticks| >= fence && OnlySpacesAndTabs(blanks)
  {
    var body;
    pad, body := SpacesAndRest(line);
    ticks, blanks := RunAndRest(body);
  }
}
