/** The line tests of the block parser, and what they mean for fenced code. */
module MarkdownSyntax {
  import opened Wrappers
  import opened Text
  import opened MarkdownInline
  import opened MarkdownBlocks

  /** What `.` does not match; lines hold no other line terminators. */
  predicate NoSeparator(s: string)
  {
    forall i | 0 <= i < |s| :: s[i] != '\U{2028}' && s[i] != '\U{2029}'
  }

  function Rest(s: string): Option<string>
  {
    if NoSeparator(s) then Some(s) else None
  }

  predicate LanguageChar(c: char)
  {
    'a' <= c <= 'z' || 'A' <= c <= 'Z' || '0' <= c <= '9' || c == '_' || c == '+' || c == '-'
  }

  predicate IsLanguage(s: string)
  {
    forall i | 0 <= i < |s| :: LanguageChar(s[i])
  }

  const FENCE := "```"

  function FenceOf(line: string): Option<string>
  {
    var t := Trim(line);
    if StartsWith(t, FENCE) && IsLanguage(t[3..]) then Some(t[3..]) else None
  }

  predicate ClosesFence(line: string)
  {
    Trim(line) == FENCE
  }

  /** The line without its indentation, if that is at most three characters. */
  function Indented(line: string): Option<string>
  {
    var t := TrimStart(line);
    if |line| - |t| <= 3 && t != "" then Some(t) else None
  }

  function Count(s: string, c: char): nat
  {
    if s == "" then 0 else (if s[0] == c then 1 else 0) + Count(s[1..], c)
  }

  predicate IsRule(line: string)
  {
    var t := Indented(line);
    t.Some? && t.value[0] in "-*_" && (forall i | 0 <= i < |t.value| :: t.value[i] == t.value[0] || IsSpace(t.value[i]))
    && Count(t.value, t.value[0]) >= 3
  }

  function Hashes(s: string): (n: nat)
    ensures n <= |s|
  {
    if s == "" || s[0] != '#' then 0 else 1 + Hashes(s[1..])
  }

  function HeadingOf(line: string): Option<HeadingParts>
  {
    var t := Trim(line);
    var n := Hashes(t);
    if 1 <= n <= 6 && n < |t| && IsSpace(t[n]) && NoSeparator(TrimStart(t[n..])) then Some(HeadingParts(n, TrimStart(t[n..]))) else None
  }

  /** White space, then the rest of the line. */
  function Spaced(s: string): Option<string>
  {
    if s == "" || !IsSpace(s[0]) then None else Rest(TrimStart(s))
  }

  function BulletOf(line: string): Option<string>
  {
    match Indented(line)
    case None => None
    case Some(t) => if t[0] in "-*+" then Spaced(t[1..]) else None
  }

  /** A number of one to nine digits, a point or parenthesis, white space, the rest. */
  function NumberedAt(t: string): Option<NumberedParts>
  {
    var n := LeadingDigits(t);
    if 1 <= n <= 9 && n < |t| && t[n] in ".)" then Numbered(t[..n], Spaced(t[n + 1..])) else None
  }

  function Numbered(digits: string, text: Option<string>): Option<NumberedParts>
    requires AllDigits(digits)
  {
    match text case None => None case Some(rest) => Some(NumberedParts(ValueOf(digits), rest))
  }

  function OrderedOf(line: string): Option<NumberedParts>
  {
    match Indented(line) case None => None case Some(t) => NumberedAt(t)
  }

  function QuoteOf(line: string): Option<string>
  {
    match Indented(line)
    case None => None
    case Some(t) =>
      if t[0] != '>' then None else Rest(if |t| > 1 && IsSpace(t[1]) then t[2..] else t[1..])
  }

  /** A trimmed row with one pipe at either end left out. */
  function Unpipe(trimmed: string): string
  {
    var inside := if trimmed != "" && trimmed[0] == '|' then trimmed[1..] else trimmed;
    if inside != "" && inside[|inside| - 1] == '|' then inside[..|inside| - 1] else inside
  }

  function TrimCells(cells: seq<string>): (trimmed: seq<string>)
    ensures |trimmed| == |cells| && forall i | 0 <= i < |cells| :: trimmed[i] == Trim(cells[i])
  {
    seq(|cells|, i requires 0 <= i < |cells| => Trim(cells[i]))
  }

  /** Cells between pipes. */
  function SplitRow(line: string): seq<string>
  {
    TrimCells(Split(Unpipe(Trim(line)), '|'))
  }

  /** Dashes, with a colon or none at either end. */
  predicate DashCell(cell: string)
  {
    var from := if cell != "" && cell[0] == ':' then 1 else 0;
    var to := if |cell| > from && cell[|cell| - 1] == ':' then |cell| - 1 else |cell|;
    from < to && forall i | from <= i < to :: cell[i] == '-'
  }

  predicate IsDivider(line: string)
  {
    var cells := SplitRow(line);
    |cells| >= 2 && forall i | 0 <= i < |cells| :: DashCell(cells[i])
  }

  predicate IsBlank(line: string)
  {
    Trim(line) == ""
  }

  function Markdown(): Syntax
  {
    Syntax(IsBlank, Trim, FenceOf, ClosesFence, IsRule, HeadingOf, IsDivider, SplitRow, BulletOf, OrderedOf, QuoteOf)
  }

  // -------------------------------------------------------------------- fenced code

  lemma {:induction false} BreaksAreUnified(s: string)
    requires '\r' !in s
    ensures UnifyBreaks(s) == s
  {
    if s != "" {
      BreaksAreUnified(s[1..]);
      assert s == [s[0]] + s[1..];
    }
  }

  lemma FenceIsFence(open: string, language: string)
    requires IsLanguage(language) && open == FENCE + language
    ensures FenceOf(open) == Some(language) && !IsBlank(open)
  {
    if language != "" {
      assert open[|open| - 1] == language[|language| - 1];
    }
    TrimKeeps(open);
    assert open[3..] == language;
  }

  lemma FenceCloses()
    ensures ClosesFence(FENCE)
  {
    TrimKeeps(FENCE);
  }

  /** No line of the body is a closing fence. */
  predicate StaysInside(x: Syntax, body: seq<string>)
  {
    forall i | 0 <= i < |body| :: !x.closes(body[i])
  }

  function CodeOf(language: string, value: string): Block
  {
    CodeBlock(if language != "" then Some(language) else None, value)
  }

  lemma RunToClose(x: Syntax, body: seq<string>, rest: seq<string>)
    requires StaysInside(x, body) && (rest != [] ==> x.closes(rest[0]))
    ensures Run(BodyLine(x), body + rest) == |body|
  {
    var lines := body + rest;
    assert forall i | 0 <= i < |body| :: BodyLine(x)(lines[i]);
    assert rest != [] ==> !BodyLine(x)(lines[|body|]);
  }

  /** Code that stays inside its fence is one block, whether or not the closing fence has arrived. */
  lemma LinesOfCode(x: Syntax, inline: InlineParser, open: string, language: string, body: seq<string>, close: seq<string>)
    requires !x.blank(open) && x.fence(open) == Some(language) && |close| <= 1 && (close != [] ==> x.closes(close[0]))
    requires StaysInside(x, body)
    ensures ParseLines(x, inline, [open] + body + close) == [CodeOf(language, Join(body, "\n"))]
  {
    var lines := [open] + body + close;
    assert lines[1..] == body + close;
    RunToClose(x, body, close);
    assert (body + close)[..|body|] == body;
    var t := TakeBlock(x, inline, lines);
    assert t == Taken(CodeOf(language, Join(body, "\n")), |lines|);
    assert lines[t.count..] == [];
  }

  /** Code with a closing line in it is cut there. */
  lemma LinesOfBrokenCode(x: Syntax, inline: InlineParser, open: string, language: string, body: seq<string>, rest: seq<string>)
    requires !x.blank(open) && x.fence(open) == Some(language) && !StaysInside(x, body)
    ensures var n := Run(BodyLine(x), body);
            n < |body| && ParseLines(x, inline, [open] + body + rest) != []
            && ParseLines(x, inline, [open] + body + rest)[0] == CodeOf(language, Join(body[..n], "\n"))
  {
    var lines, n := [open] + body + rest, Run(BodyLine(x), body);
    assert lines[1..] == body + rest;
    assert n < |body| by {
      var i :| 0 <= i < |body| && x.closes(body[i]);
      assert !BodyLine(x)(body[i]);
    }
    assert forall i | 0 <= i < n :: (body + rest)[i] == body[i];
    assert (body + rest)[n] == body[n];
    assert Run(BodyLine(x), body + rest) == n;
    assert (body + rest)[..n] == body[..n];
  }

  /** The text of a fenced block. */
  function Fenced(language: string, body: string): string
  {
    FENCE + language + "\n" + body + "\n" + FENCE
  }

  lemma FencedIsOver(open: string, body: string, close: string)
    ensures open + "\n" + body + "\n" + close == Over(open, Over(body, close))
  {
  }

  lemma LinesOfFenced(language: string, body: string)
    requires IsLanguage(language) && '\r' !in body
    ensures LinesOf(Fenced(language, body)) == [FENCE + language] + Split(body, '\n') + [FENCE]
  {
    var open := FENCE + language;
    BreaksAreUnified(Fenced(language, body));
    FencedIsOver(open, body, FENCE);
    SplitAppend(body, FENCE);
    SplitAppend(open, Over(body, FENCE));
    SplitOneLine(open);
    SplitOneLine(FENCE);
    ConsAssoc(open, Split(body, '\n'), [FENCE]);
  }

  /** What the line tests say of an opening and of a closing fence. */
  lemma ReadsFence(open: string, language: string)
    requires IsLanguage(language) && open == FENCE + language
    ensures var x := Markdown();
            !x.blank(open) && x.fence(open) == Some(language) && !x.closes("") && x.closes(FENCE)
  {
    FenceIsFence(open, language);
    FenceCloses();
  }

  lemma FencedOnLines(x: Syntax, inline: InlineParser, language: string, body: string)
    requires LinesOf(Fenced(language, body)) == [FENCE + language] + Split(body, '\n') + [FENCE]
    requires !x.blank(FENCE + language) && x.fence(FENCE + language) == Some(language) && !x.closes("") && x.closes(FENCE)
    ensures ParseLines(x, inline, LinesOf(Fenced(language, body))) == [CodeOf(language, body)]
       <==> StaysInside(x, Split(body, '\n'))
  {
    CodeOnLines(x, inline, FENCE + language, language, body, [FENCE]);
  }

  lemma UnclosedOnLines(x: Syntax, inline: InlineParser, language: string, body: string)
    requires LinesOf(FENCE + language + "\n" + body) == [FENCE + language] + Split(body, '\n') + []
    requires !x.blank(FENCE + language) && x.fence(FENCE + language) == Some(language) && !x.closes("")
    ensures ParseLines(x, inline, LinesOf(FENCE + language + "\n" + body)) == [CodeOf(language, body)]
       <==> StaysInside(x, Split(body, '\n'))
  {
    CodeOnLines(x, inline, FENCE + language, language, body, []);
  }

  /** Fenced text comes back as one code block with exactly that text if, and only if, none of its lines is a closing fence. */
  lemma CodeReadsBackExactlyIfInside(inline: InlineParser, language: string, body: string)
    requires IsLanguage(language) && '\r' !in body
    ensures ParseLines(Markdown(), inline, LinesOf(Fenced(language, body))) == [CodeOf(language, body)]
       <==> StaysInside(Markdown(), Split(body, '\n'))
  {
    LinesOfFenced(language, body);
    ReadsFence(FENCE + language, language);
    FencedOnLines(Markdown(), inline, language, body);
  }

  /** A fence that has not closed yet shows what it has: the same holds without the closing fence. */
  lemma UnclosedCodeReadsBackExactlyIfInside(inline: InlineParser, language: string, body: string)
    requires IsLanguage(language) && '\r' !in body
    ensures ParseLines(Markdown(), inline, LinesOf(FENCE + language + "\n" + body)) == [CodeOf(language, body)]
       <==> StaysInside(Markdown(), Split(body, '\n'))
  {
    LinesOfUnclosed(language, body);
    ReadsFence(FENCE + language, language);
    UnclosedOnLines(Markdown(), inline, language, body);
  }

  lemma LinesOfUnclosed(language: string, body: string)
    requires IsLanguage(language) && '\r' !in body
    ensures LinesOf(FENCE + language + "\n" + body) == [FENCE + language] + Split(body, '\n') + []
  {
    var open := FENCE + language;
    assert '\n' !in open && '\r' !in open;
    LinesOfOver(open, body);
    assert [open] + Split(body, '\n') + [] == [open] + Split(body, '\n');
  }

  lemma LinesOfOver(open: string, body: string)
    requires '\n' !in open && '\r' !in open && '\r' !in body
    ensures LinesOf(open + "\n" + body) == [open] + Split(body, '\n')
  {
    BreaksAreUnified(open + "\n" + body);
    assert open + "\n" + body == Over(open, body);
    SplitAppend(open, body);
    SplitOneLine(open);
  }

  lemma CodeOnLines(x: Syntax, inline: InlineParser, open: string, language: string, body: string, close: seq<string>)
    requires !x.blank(open) && x.fence(open) == Some(language) && !x.closes("")
    requires |close| <= 1 && (close != [] ==> x.closes(close[0]))
    ensures ParseLines(x, inline, [open] + Split(body, '\n') + close) == [CodeOf(language, body)]
       <==> StaysInside(x, Split(body, '\n'))
  {
    var lines := Split(body, '\n');
    JoinSplit(body, '\n');
    if StaysInside(x, lines) {
      LinesOfCode(x, inline, open, language, lines, close);
    } else {
      LinesOfBrokenCode(x, inline, open, language, lines, close);
      FewerLines(body, Run(BodyLine(x), lines), x);
    }
  }

  lemma FewerLines(body: string, n: nat, x: Syntax)
    requires n < |Split(body, '\n')| && x.closes(Split(body, '\n')[n]) && !x.closes("")
    ensures Join(Split(body, '\n')[..n], "\n") != body
  {
    var lines := Split(body, '\n');
    if n > 0 {
      SplitJoin(lines[..n], '\n');
    } else {
      assert lines[..0] == [];
      assert body == "" ==> lines == [""];
    }
  }

  // ------------------------------------------------------------- links in a whole reply

  /** The test that every link in a piece of inline text has an accepted address. */
  function SafeText(): seq<Inline> -> bool
  {
    (nodes: seq<Inline>) => ShownLinksAreSafe(nodes)
  }

  /** In whatever a model answers, every link in every block has an address the filter accepts. */
  lemma EveryLinkOfAReplyIsSafe(input: string)
    ensures forall block | block in ParseLines(Markdown(), Inlines, LinesOf(input)) :: Holds(SafeText(), block)
  {
    forall s ensures SafeText()(Inlines(s)) {
      InlinesAreSafe(s);
    }
    EveryBlockHolds(Markdown(), Inlines, SafeText(), LinesOf(input));
  }

  // ------------------------------------------------------ the lines each test accepts

  /** A text does not go on past a line or paragraph separator. */
  lemma SeparatorsAreThese(s: string)
    ensures NoSeparator(s) <==> '\U{2028}' !in s && '\U{2029}' !in s
  {
    if NoSeparator(s) {
      assert forall c | c in s :: c != '\U{2028}' && c != '\U{2029}';
    } else {
      var i :| 0 <= i < |s| && (s[i] == '\U{2028}' || s[i] == '\U{2029}');
      assert s[i] in s;
    }
  }

  predicate StartsOut(t: string)
  {
    t == "" || !IsSpace(t[0])
  }

  /** White space of at most three characters. */
  ghost predicate Indent(pad: string)
  {
    |pad| <= 3 && AllSpaces(pad)
  }

  ghost predicate Gap(pad: string)
  {
    pad != "" && AllSpaces(pad)
  }

  lemma IndentedReads(pad: string, t: string)
    requires Indent(pad) && t != "" && !IsSpace(t[0])
    ensures Indented(pad + t) == Some(t)
  {
    TrimStartDrops(pad, t);
  }

  lemma IndentedIs(line: string) returns (pad: string)
    requires Indented(line).Some?
    ensures Indent(pad) && line == pad + Indented(line).value && !IsSpace(Indented(line).value[0])
  {
    pad := TrimStartLeaves(line);
  }

  lemma SpacedReads(pad: string, text: string)
    requires Gap(pad) && StartsOut(text) && NoSeparator(text)
    ensures Spaced(pad + text) == Some(text)
  {
    assert pad[0] in pad;
    TrimStartDrops(pad, text);
  }

  lemma SpacedIs(s: string) returns (pad: string)
    requires Spaced(s).Some?
    ensures Gap(pad) && s == pad + Spaced(s).value && StartsOut(Spaced(s).value) && NoSeparator(Spaced(s).value)
  {
    pad := TrimStartLeaves(s);
  }

  /** A bullet: an indent, one of three marks, white space, and the text of the item on this line. */
  ghost predicate BulletLine(line: string, pad: string, mark: char, space: string, text: string)
  {
    line == pad + ([mark] + (space + text)) && Indent(pad) && mark in "-*+" && Gap(space) && StartsOut(text) && NoSeparator(text)
  }

  lemma BulletReads(line: string, pad: string, mark: char, space: string, text: string)
    requires BulletLine(line, pad, mark, space, text)
    ensures BulletOf(line) == Some(text)
  {
    var t := [mark] + (space + text);
    assert !IsSpace(mark);
    IndentedReads(pad, t);
    assert t[1..] == space + text;
    SpacedReads(space, text);
  }

  lemma BulletIs(line: string) returns (pad: string, mark: char, space: string)
    requires BulletOf(line).Some?
    ensures BulletLine(line, pad, mark, space, BulletOf(line).value)
  {
    pad := IndentedIs(line);
    var t := Indented(line).value;
    mark := t[0];
    space := SpacedIs(t[1..]);
    assert t == [mark] + t[1..];
  }

  /** A numbered item: an indent, up to nine digits, a point or a parenthesis, white space, the text. */
  ghost predicate NumberedLine(line: string, pad: string, digits: string, mark: char, space: string, text: string)
  {
    && line == pad + (digits + ([mark] + (space + text))) && Indent(pad) && 1 <= |digits| <= 9 && AllDigits(digits) && mark in ".)"
    && Gap(space) && StartsOut(text) && NoSeparator(text)
  }

  lemma {:induction false} DigitsEnd(digits: string, rest: string)
    requires AllDigits(digits) && (rest == "" || !('0' <= rest[0] <= '9'))
    ensures LeadingDigits(digits + rest) == |digits|
  {
    if digits == "" {
      assert digits + rest == rest;
    } else {
      assert (digits + rest)[1..] == digits[1..] + rest;
      DigitsEnd(digits[1..], rest);
    }
  }

  lemma NumberedReads(line: string, pad: string, digits: string, mark: char, space: string, text: string)
    requires NumberedLine(line, pad, digits, mark, space, text)
    ensures OrderedOf(line) == Some(NumberedParts(ValueOf(digits), text))
  {
    var t := digits + ([mark] + (space + text));
    assert !IsSpace(digits[0]) && t[0] == digits[0];
    IndentedReads(pad, t);
    DigitsEnd(digits, [mark] + (space + text));
    assert t[..|digits|] == digits && t[|digits|] == mark && t[|digits| + 1..] == space + text;
    SpacedReads(space, text);
  }

  lemma NumberedPieces(t: string) returns (digits: string, mark: char, space: string)
    requires NumberedAt(t).Some?
    ensures t == digits + ([mark] + (space + NumberedAt(t).value.text)) && mark in ".)"
    ensures 1 <= |digits| <= 9 && AllDigits(digits) && NumberedAt(t).value.number == ValueOf(digits)
    ensures Gap(space) && StartsOut(NumberedAt(t).value.text) && NoSeparator(NumberedAt(t).value.text)
  {
    var n := LeadingDigits(t);
    digits, mark := t[..n], t[n];
    space := SpacedIs(t[n + 1..]);
    assert t == digits + ([mark] + t[n + 1..]);
  }

  lemma NumberedIs(line: string) returns (pad: string, digits: string, mark: char, space: string)
    requires OrderedOf(line).Some?
    ensures NumberedLine(line, pad, digits, mark, space, OrderedOf(line).value.text) && OrderedOf(line).value.number == ValueOf(digits)
  {
    pad := IndentedIs(line);
    digits, mark, space := NumberedPieces(Indented(line).value);
  }

  /** A quoted line: an indent, the angle, at most one white space, the text; a white space behind the angle is never part of the text. */
  ghost predicate QuotedLine(line: string, pad: string, space: string, text: string)
  {
    && line == pad + (">" + (space + text)) && Indent(pad) && |space| <= 1 && AllSpaces(space)
    && (space == "" ==> StartsOut(text)) && NoSeparator(text)
  }

  lemma QuoteReads(line: string, pad: string, space: string, text: string)
    requires QuotedLine(line, pad, space, text)
    ensures QuoteOf(line) == Some(text)
  {
    var t := ">" + (space + text);
    IndentedReads(pad, t);
    if space != "" {
      assert t[1] == space[0] && space[0] in space && t[2..] == text;
    } else {
      assert t[1..] == text;
    }
  }

  lemma QuoteIs(line: string) returns (pad: string, space: string)
    requires QuoteOf(line).Some?
    ensures QuotedLine(line, pad, space, QuoteOf(line).value)
  {
    pad := IndentedIs(line);
    var t := Indented(line).value;
    space := if |t| > 1 && IsSpace(t[1]) then [t[1]] else "";
    assert t == ">" + (space + QuoteOf(line).value);
  }

  /** A heading: one to six hashes, white space, the text. */
  ghost predicate HeadingLine(trimmed: string, level: nat, space: string, text: string)
  {
    && 1 <= level <= 6 && level <= |trimmed| && (forall i | 0 <= i < level :: trimmed[i] == '#')
    && trimmed[level..] == space + text && Gap(space) && StartsOut(text) && NoSeparator(text)
  }

  lemma {:induction false} HashesEnd(s: string, n: nat)
    requires n <= |s| && (forall i | 0 <= i < n :: s[i] == '#') && (n < |s| ==> s[n] != '#')
    ensures Hashes(s) == n
  {
    if n > 0 {
      HashesEnd(s[1..], n - 1);
    }
  }

  lemma {:induction false} HashesAre(s: string)
    ensures forall i | 0 <= i < Hashes(s) :: s[i] == '#'
    ensures Hashes(s) < |s| ==> s[Hashes(s)] != '#'
  {
    if s != "" && s[0] == '#' {
      HashesAre(s[1..]);
    }
  }

  lemma HeadingReads(line: string, level: nat, space: string, text: string)
    requires HeadingLine(Trim(line), level, space, text)
    ensures HeadingOf(line) == Some(HeadingParts(level, text))
  {
    var t := Trim(line);
    assert t[level] == (space + text)[0] == space[0] && space[0] in space;
    HashesEnd(t, level);
    TrimStartDrops(space, text);
  }

  lemma HeadingIs(line: string) returns (space: string)
    requires HeadingOf(line).Some?
    ensures HeadingLine(Trim(line), HeadingOf(line).value.level, space, HeadingOf(line).value.text)
  {
    var t := Trim(line);
    HashesAre(t);
    space := TrimStartLeaves(t[Hashes(t)..]);
  }

  /** A rule: an indent and three or more of one mark, with white space between and behind them. */
  ghost predicate RuleLine(line: string, pad: string, t: string)
  {
    && line == pad + t && Indent(pad) && t != "" && t[0] in "-*_" && (forall c | c in t :: c == t[0] || IsSpace(c))
    && exists j, k :: 0 < j < k < |t| && t[j] == t[0] && t[k] == t[0]
  }

  lemma {:induction false} CountAtLeast(s: string, c: char)
    ensures Count(s, c) >= 1 <==> exists i :: 0 <= i < |s| && s[i] == c
    ensures Count(s, c) >= 2 <==> exists i, j :: 0 <= i < j < |s| && s[i] == c && s[j] == c
  {
    if s != "" {
      var tail := s[1..];
      CountAtLeast(tail, c);
      if i :| 0 <= i < |tail| && tail[i] == c {
        assert s[i + 1] == c;
      }
      if i, j :| 0 <= i < j < |tail| && tail[i] == c && tail[j] == c {
        assert s[i + 1] == c && s[j + 1] == c;
      }
      if i, j :| 0 <= i < j < |s| && s[i] == c && s[j] == c {
        assert tail[j - 1] == c;
        assert i > 0 ==> tail[i - 1] == c;
      }
    }
  }

  lemma RuleMarks(t: string)
    requires t != ""
    ensures Count(t, t[0]) >= 3 <==> exists j, k :: 0 < j < k < |t| && t[j] == t[0] && t[k] == t[0]
  {
    var tail := t[1..];
    CountAtLeast(tail, t[0]);
    if j, k :| 0 < j < k < |t| && t[j] == t[0] && t[k] == t[0] {
      assert tail[j - 1] == t[0] && tail[k - 1] == t[0];
    }
    if i, j :| 0 <= i < j < |tail| && tail[i] == t[0] && tail[j] == t[0] {
      assert t[i + 1] == t[0] && t[j + 1] == t[0];
    }
  }

  lemma RuleReads(line: string, pad: string, t: string)
    requires RuleLine(line, pad, t)
    ensures IsRule(line)
  {
    IndentedReads(pad, t);
    RuleMarks(t);
    assert forall i | 0 <= i < |t| :: t[i] in t;
  }

  lemma RuleIs(line: string) returns (pad: string, t: string)
    requires IsRule(line)
    ensures RuleLine(line, pad, t)
  {
    pad := IndentedIs(line);
    t := Indented(line).value;
    RuleMarks(t);
  }

  /** A character of a word, by code point: a digit, a letter, or one of three others. */
  predicate WordChar(c: char)
  {
    48 <= c as int <= 57 || 65 <= c as int <= 90 || 97 <= c as int <= 122 || c in "_+-"
  }

  /** A fence: three backticks and a word that may be empty. A closing one has no word. */
  lemma FencesExactly(line: string, language: string)
    ensures FenceOf(line) == Some(language) <==> Trim(line) == "```" + language && forall c | c in language :: WordChar(c)
    ensures ClosesFence(line) <==> Trim(line) == "```"
  {
    assert forall c :: LanguageChar(c) <==> WordChar(c);
    assert IsLanguage(language) <==> forall c | c in language :: WordChar(c) by {
      assert forall i | 0 <= i < |language| :: language[i] in language;
    }
    var t := Trim(line);
    assert t == "```" + language <==> StartsWith(t, FENCE) && t[3..] == language;
  }

  /** A blank line is white space. */
  lemma BlankExactly(line: string)
    ensures IsBlank(line) <==> AllSpaces(line)
  {
    var lead, trail := TrimCuts(line);
    if AllSpaces(line) {
      TrimStartDrops(line, "");
      assert line + "" == line;
    }
  }

  // ------------------------------------------------------------------------ tables

  /** What is left of a trimmed row without one pipe at either end. */
  ghost predicate Unpiped(trimmed: string, inside: string)
  {
    || (trimmed == "|" + inside + "|")
    || (trimmed == "|" + inside && (inside == "" || inside[|inside| - 1] != '|'))
    || (trimmed == inside + "|" && trimmed[0] != '|')
    || (trimmed == inside && (trimmed == "" || (trimmed[0] != '|' && trimmed[|trimmed| - 1] != '|')))
  }

  /** The cells of a row are what stands between its pipes, trimmed. */
  lemma RowExactly(line: string) returns (inside: string, raw: seq<string>)
    ensures Unpiped(Trim(line), inside) && Join(raw, "|") == inside && forall cell | cell in raw :: '|' !in cell
    ensures |SplitRow(line)| == |raw| && forall i | 0 <= i < |raw| :: SplitRow(line)[i] == Trim(raw[i])
  {
    inside := Unpipe(Trim(line));
    raw := Split(inside, '|');
    JoinSplit(inside, '|');
    UnpipedIs(Trim(line));
  }

  lemma UnpipedIs(t: string)
    ensures Unpiped(t, Unpipe(t))
  {
    var inside, piped := Unpipe(t), if t != "" && t[0] == '|' then t[1..] else t;
    assert piped == inside || piped == inside + "|";
    assert t == piped || t == "|" + piped;
    assert "|" + (inside + "|") == "|" + inside + "|";
  }

  /** A divider cell: dashes, at least one, with a colon or none at either end. */
  ghost predicate DashesWithin(cell: string, left: string, dashes: string, right: string)
  {
    cell == left + dashes + right && left in {"", ":"} && right in {"", ":"} && dashes != "" && forall c | c in dashes :: c == '-'
  }

  lemma DashCellReads(cell: string, left: string, dashes: string, right: string)
    requires DashesWithin(cell, left, dashes, right)
    ensures DashCell(cell)
  {
    assert forall i | 0 <= i < |dashes| :: dashes[i] in dashes;
    assert forall i | |left| <= i < |left| + |dashes| :: cell[i] == dashes[i - |left|] == '-';
  }

  lemma DashCellIs(cell: string) returns (left: string, dashes: string, right: string)
    requires DashCell(cell)
    ensures DashesWithin(cell, left, dashes, right)
  {
    var from := if cell[0] == ':' then 1 else 0;
    var to := if |cell| > from && cell[|cell| - 1] == ':' then |cell| - 1 else |cell|;
    left, dashes, right := cell[..from], cell[from..to], cell[to..];
    assert cell == cell[..from] + cell[from..to] + cell[to..];
    assert from == 1 ==> cell[..1] == [cell[0]];
    assert to < |cell| ==> cell[to..] == [cell[to]];
  }

  /** A divider is a row of two or more such cells. */
  lemma DividerExactly(line: string)
    ensures IsDivider(line) <==>
              |SplitRow(line)| >= 2 && forall cell | cell in SplitRow(line) :: exists left, dashes, right :: DashesWithin(cell, left, dashes, right)
  {
    forall cell ensures DashCell(cell) <==> exists left, dashes, right :: DashesWithin(cell, left, dashes, right) {
      if left, dashes, right :| DashesWithin(cell, left, dashes, right) {
        DashCellReads(cell, left, dashes, right);
      }
      if DashCell(cell) {
        var left, dashes, right := DashCellIs(cell);
      }
    }
    assert (forall i | 0 <= i < |SplitRow(line)| :: DashCell(SplitRow(line)[i])) <==> forall cell | cell in SplitRow(line) :: DashCell(cell);
  }

  // -------------------------------------------------------------- one line by itself

  lemma OneLeft(line: string)
    ensures [line][1..] == [] && [line][..1] == [line] && Join([line], " ") == line
  {
  }

  /** A line by itself becomes the block its test asks for, with its own text in it. */
  lemma OneLineBecomes(inline: InlineParser, line: string)
    requires !IsBlank(line)
    ensures ParseLines(Markdown(), inline, [line]) ==
            [if FenceOf(line).Some? then CodeBlock(if FenceOf(line).value == "" then None else FenceOf(line), "")
             else if IsRule(line) then Rule
             else if HeadingOf(line).Some? then Heading(HeadingOf(line).value.level, inline(Trim(HeadingOf(line).value.text)))
             else if BulletOf(line).Some? then List(false, 1, [inline(BulletOf(line).value)])
             else if OrderedOf(line).Some? then List(true, OrderedOf(line).value.number, [inline(OrderedOf(line).value.text)])
             else if QuoteOf(line).Some? then Quote(inline(Trim(QuoteOf(line).value)))
             else Paragraph(inline(Trim(line)))]
  {
    var x, lines := Markdown(), [line];
    var t := TakeBlock(x, inline, lines);
    OneLeft(line);
    BlocksFollow(x, inline, lines);
    BlockKind(x, inline, lines);
    assert lines[t.count..] == [];
    if FenceOf(line).None? && !IsRule(line) && HeadingOf(line).None? {
      if BulletOf(line).Some? || OrderedOf(line).Some? {
        OneItem(x, inline, BulletOf(line).None?, line);
      } else if QuoteOf(line).Some? {
        OneQuote(x, inline, line);
      } else {
        OneParagraph(x, inline, line);
      }
    }
  }

  lemma OneItem(x: Syntax, inline: InlineParser, ordered: bool, line: string)
    requires OwnText(x, ordered, line).Some?
    ensures ItemsOf(x, inline, ordered, [line]) == Items([inline(OwnText(x, ordered, line).value)], 1)
  {
    var text := OwnText(x, ordered, line).value;
    OneLeft(line);
    ItemsExactly(x, inline, ordered, [line], 1);
    ItemsExactly(x, inline, ordered, [], 0);
    assert [text] + TrimAll(x, []) == [text];
    OneLeft(text);
  }

  lemma OneQuote(x: Syntax, inline: InlineParser, line: string)
    requires x.quote(line).Some?
    ensures TakeQuote(x, inline, [line]) == Taken(Quote(inline(x.trim(x.quote(line).value))), 1)
  {
    OneLeft(line);
    assert Run(QuoteLine(x), [line]) == 1;
    assert QuoteTexts(x, [line]) == [x.quote(line).value];
    OneLeft(x.quote(line).value);
  }

  lemma OneParagraph(x: Syntax, inline: InlineParser, line: string)
    requires ParagraphLine(x)(line)
    ensures TakeParagraph(x, inline, [line]) == Taken(Paragraph(inline(x.trim(line))), 1)
  {
    OneLeft(line);
    assert Run(ParagraphLine(x), [line]) == 1;
    assert TrimAll(x, [line]) == [x.trim(line)];
    OneLeft(x.trim(line));
  }

  /** A line with a pipe above a divider becomes the head of a table. */
  lemma HeadBecomes(inline: InlineParser, head: string, divider: string)
    requires !IsBlank(head) && FenceOf(head).None? && !IsRule(head) && HeadingOf(head).None? && '|' in head && IsDivider(divider)
    ensures ParseLines(Markdown(), inline, [head, divider]) == [Table(InlineAll(inline, SplitRow(head)), [])]
  {
    var x, lines := Markdown(), [head, divider];
    BlocksFollow(x, inline, lines);
    assert lines[2..] == [];
    assert RowsOf(x, inline, []) == [];
  }

  /** Somewhere in the block stands a link to this address. */
  ghost predicate BlockLinksTo(block: Block, href: string)
  {
    match block
    case Heading(_, children) => LinksTo(children, href)
    case Paragraph(children) => LinksTo(children, href)
    case Quote(children) => LinksTo(children, href)
    case List(_, _, items) => exists i | 0 <= i < |items| :: LinksTo(items[i], href)
    case Table(head, rows) =>
      || (exists i | 0 <= i < |head| :: LinksTo(head[i], href))
      || exists i, j | 0 <= i < |rows| && 0 <= j < |rows[i]| :: LinksTo(rows[i][j], href)
    case CodeBlock(_, _) => false
    case Rule => false
  }

  /** Every address a reply links to, anywhere, is one `safeHref` accepts as it stands. */
  lemma EveryAddressOfAReplyIsSafe(input: string, block: Block, href: string)
    requires block in ParseLines(Markdown(), Inlines, LinesOf(input)) && BlockLinksTo(block, href)
    ensures SafeHref(href) == Some(href)
  {
    EveryLinkOfAReplyIsSafe(input);
    HeldBlockLinksSafely(block, href);
  }

  lemma HeldBlockLinksSafely(block: Block, href: string)
    requires Holds(SafeText(), block) && BlockLinksTo(block, href)
    ensures SafeHref(href) == Some(href)
  {
    match block {
      case Heading(_, children) => SafeNodesLinkSafely(children, href);
      case Paragraph(children) => SafeNodesLinkSafely(children, href);
      case Quote(children) => SafeNodesLinkSafely(children, href);
      case List(_, _, items) =>
        var i :| 0 <= i < |items| && LinksTo(items[i], href);
        SafeNodesLinkSafely(items[i], href);
      case Table(head, rows) =>
        if i :| 0 <= i < |head| && LinksTo(head[i], href) {
          SafeNodesLinkSafely(head[i], href);
        } else {
          var i, j :| 0 <= i < |rows| && 0 <= j < |rows[i]| && LinksTo(rows[i][j], href);
          SafeNodesLinkSafely(rows[i][j], href);
        }
    }
  }
}
