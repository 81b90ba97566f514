/**
 * Block Markdown: headings, code fences, rules, tables, lists, quotes and
 * paragraphs, taken from the lines of a reply one block at a time. What each
 * line looks like is decided by the tests gathered in a `Syntax`; the inline
 * parser is given as a function.
 */
module MarkdownBlocks {
  import opened Wrappers
  import opened Text
  import opened MarkdownInline

  datatype Block =
    | Heading(level: nat, children: seq<Inline>)
    | Paragraph(children: seq<Inline>)
    | List(ordered: bool, start: nat, items: seq<seq<Inline>>)
    | CodeBlock(language: Option<string>, value: string)
    | Quote(children: seq<Inline>)
    | Table(head: seq<seq<Inline>>, rows: seq<seq<seq<Inline>>>)
    | Rule

  datatype HeadingParts = HeadingParts(level: nat, text: string)
  datatype NumberedParts = NumberedParts(number: nat, text: string)

  /** What a line is, by its own text. */
  datatype Syntax = Syntax(
    blank: string -> bool, trim: string -> string, fence: string -> Option<string>, closes: string -> bool, rule: string -> bool,
    heading: string -> Option<HeadingParts>, divider: string -> bool, cells: string -> seq<string>,
    bullet: string -> Option<string>, ordered: string -> Option<NumberedParts>, quote: string -> Option<string>)

  type InlineParser = string -> seq<Inline>

  function TrimAll(x: Syntax, lines: seq<string>): (r: seq<string>)
    ensures |r| == |lines| && forall i | 0 <= i < |lines| :: r[i] == x.trim(lines[i])
  {
    seq(|lines|, i requires 0 <= i < |lines| => x.trim(lines[i]))
  }

  function InlineAll(inline: InlineParser, texts: seq<string>): seq<seq<Inline>>
  {
    seq(|texts|, i requires 0 <= i < |texts| => inline(texts[i]))
  }

  // ------------------------------------------------------------------- line runs

  /** How many lines at the front pass a test. */
  function Run(test: string -> bool, lines: seq<string>): (n: nat)
    ensures n <= |lines| && (forall i | 0 <= i < n :: test(lines[i]))
    ensures n < |lines| ==> !test(lines[n])
  {
    if lines == [] || !test(lines[0]) then 0 else 1 + Run(test, lines[1..])
  }

  function BodyLine(x: Syntax): string -> bool
  {
    (line: string) => !x.closes(line)
  }

  function RowLine(x: Syntax): string -> bool
  {
    (line: string) => '|' in line && !x.blank(line)
  }

  /** A line wrapped under the list item above it. */
  function WrappedLine(x: Syntax): string -> bool
  {
    (line: string) => !x.blank(line) && x.bullet(line).None? && x.ordered(line).None? && x.heading(line).None? && x.fence(line).None?
  }

  function QuoteLine(x: Syntax): string -> bool
  {
    (line: string) => x.quote(line).Some?
  }

  function ParagraphLine(x: Syntax): string -> bool
  {
    (line: string) =>
      !x.blank(line) && x.heading(line).None? && x.fence(line).None? && x.bullet(line).None? && x.ordered(line).None?
      && x.quote(line).None? && !x.rule(line)
  }

  // ------------------------------------------------------------------- one block

  /** A block and the number of lines it takes. */
  datatype Taken = Taken(block: Block, count: nat)

  function TakeCode(x: Syntax, language: string, lines: seq<string>): Taken
    requires lines != []
  {
    var n := Run(BodyLine(x), lines[1..]);
    Taken(CodeBlock(if language != "" then Some(language) else None, Join(lines[1..][..n], "\n")),
          if n < |lines[1..]| then n + 2 else n + 1)
  }

  function RowsOf(x: Syntax, inline: InlineParser, lines: seq<string>): seq<seq<seq<Inline>>>
  {
    seq(|lines|, i requires 0 <= i < |lines| => InlineAll(inline, x.cells(lines[i])))
  }

  predicate StartsTable(x: Syntax, lines: seq<string>)
  {
    |lines| > 1 && '|' in lines[0] && x.divider(lines[1])
  }

  function TakeTable(x: Syntax, inline: InlineParser, lines: seq<string>): Taken
    requires |lines| > 1
  {
    var n := Run(RowLine(x), lines[2..]);
    Taken(Table(InlineAll(inline, x.cells(lines[0])), RowsOf(x, inline, lines[2..][..n])), n + 2)
  }

  /** The text of a list item of one kind, if the line is one. */
  function ItemText(x: Syntax, ordered: bool): string -> Option<string>
  {
    if ordered then (line: string) => (match x.ordered(line) case None => None case Some(parts) => Some(parts.text)) else x.bullet
  }

  datatype Items = Items(items: seq<seq<Inline>>, count: nat)

  /** Items one after the other: a line that is one, then the lines wrapped under it. */
  function TakeItems(text: string -> Option<string>, wrapped: string -> bool, make: ItemMaker, lines: seq<string>): (r: Items)
    ensures r.count <= |lines|
    ensures lines != [] && text(lines[0]).Some? ==> r.count > 0
    decreases |lines|
  {
    if lines == [] || text(lines[0]).None? then Items([], 0)
    else
      var n := Run(wrapped, lines[1..]);
      var later := TakeItems(text, wrapped, make, lines[n + 1..]);
      Items([make(text(lines[0]).value, lines[1..n + 1])] + later.items, n + 1 + later.count)
  }

  type ItemMaker = (string, seq<string>) -> seq<Inline>

  /** An item's text is its own and that of the lines wrapped under it. */
  function ItemBy(x: Syntax, inline: InlineParser): ItemMaker
  {
    (text: string, wrapped: seq<string>) => inline(Join([text] + TrimAll(x, wrapped), " "))
  }

  function ItemsOf(x: Syntax, inline: InlineParser, ordered: bool, lines: seq<string>): Items
  {
    TakeItems(ItemText(x, ordered), WrappedLine(x), ItemBy(x, inline), lines)
  }

  function TakeList(x: Syntax, inline: InlineParser, lines: seq<string>): (t: Taken)
    requires lines != [] && (x.bullet(lines[0]).Some? || x.ordered(lines[0]).Some?)
    ensures 0 < t.count <= |lines|
  {
    var ordered := x.bullet(lines[0]).None?;
    var items := ItemsOf(x, inline, ordered, lines);
    Taken(List(ordered, if ordered then x.ordered(lines[0]).value.number else 1, items.items), items.count)
  }

  function QuoteTexts(x: Syntax, lines: seq<string>): seq<string>
    requires forall i | 0 <= i < |lines| :: x.quote(lines[i]).Some?
  {
    seq(|lines|, i requires 0 <= i < |lines| => x.quote(lines[i]).value)
  }

  function TakeQuote(x: Syntax, inline: InlineParser, lines: seq<string>): Taken
  {
    var n := Run(QuoteLine(x), lines);
    Taken(Quote(inline(x.trim(Join(QuoteTexts(x, lines[..n]), " ")))), n)
  }

  function TakeParagraph(x: Syntax, inline: InlineParser, lines: seq<string>): Taken
  {
    var n := Run(ParagraphLine(x), lines);
    Taken(Paragraph(inline(Join(TrimAll(x, lines[..n]), " "))), n)
  }

  /** The tests in the order of the code, each on the first line or two. */
  function TakeBlock(x: Syntax, inline: InlineParser, lines: seq<string>): (t: Taken)
    requires lines != [] && !x.blank(lines[0])
    ensures 0 < t.count <= |lines|
  {
    var line := lines[0];
    if x.fence(line).Some? then TakeCode(x, x.fence(line).value, lines)
    else if x.rule(line) then Taken(Rule, 1)
    else if x.heading(line).Some? then
      Taken(Heading(x.heading(line).value.level, inline(x.trim(x.heading(line).value.text))), 1)
    else if StartsTable(x, lines) then TakeTable(x, inline, lines)
    else if x.bullet(line).Some? || x.ordered(line).Some? then TakeList(x, inline, lines)
    else if x.quote(line).Some? then TakeQuote(x, inline, lines)
    else TakeParagraph(x, inline, lines)
  }

  function ParseLines(x: Syntax, inline: InlineParser, lines: seq<string>): seq<Block>
    decreases |lines|
  {
    if lines == [] then []
    else if x.blank(lines[0]) then ParseLines(x, inline, lines[1..])
    else
      var t := TakeBlock(x, inline, lines);
      [t.block] + ParseLines(x, inline, lines[t.count..])
  }

  /** `\r\n` and lone `\r` become `\n`. */
  function UnifyBreaks(s: string): string
  {
    if s == "" then ""
    else if s[0] == '\r' then
      if |s| > 1 && s[1] == '\n' then "\n" + UnifyBreaks(s[2..]) else "\n" + UnifyBreaks(s[1..])
    else [s[0]] + UnifyBreaks(s[1..])
  }

  function LinesOf(input: string): seq<string>
  {
    Split(UnifyBreaks(input), '\n')
  }

  // ------------------------------------------------------------------- the loops

  /** An inner loop: move past the lines that pass a test. */
  method Skip(test: string -> bool, lines: seq<string>, from: nat) returns (index: nat)
    requires from <= |lines|
    ensures from <= index <= |lines| && index == from + Run(test, lines[from..])
  {
    index := from;
    while index < |lines| && test(lines[index])
      invariant from <= index <= |lines|
      invariant index + Run(test, lines[index..]) == from + Run(test, lines[from..])
    {
      assert lines[index..][1..] == lines[index + 1..];
      index := index + 1;
    }
  }

  lemma TakeItemsAt(text: string -> Option<string>, wrapped: string -> bool, make: ItemMaker, lines: seq<string>, n: nat, head: seq<string>, tail: seq<string>)
    requires lines != [] && text(lines[0]).Some? && n == Run(wrapped, lines[1..])
    requires head == lines[1..n + 1] && tail == lines[n + 1..]
    ensures var later := TakeItems(text, wrapped, make, tail);
            TakeItems(text, wrapped, make, lines) == Items([make(text(lines[0]).value, head)] + later.items, n + 1 + later.count)
  {
  }

  lemma TakeItemsStep(text: string -> Option<string>, wrapped: string -> bool, make: ItemMaker, lines: seq<string>, index: nat, end: nat)
    requires index < |lines| && text(lines[index]).Some?
    requires end == index + 1 + Run(wrapped, lines[index + 1..])
    ensures var later := TakeItems(text, wrapped, make, lines[end..]);
            TakeItems(text, wrapped, make, lines[index..]) ==
            Items([make(text(lines[index]).value, lines[index + 1..end])] + later.items, end - index + later.count)
  {
    DropSlices(lines, index, end);
    TakeItemsAt(text, wrapped, make, lines[index..], end - index - 1, lines[index + 1..end], lines[end..]);
  }

  lemma DropSlices(lines: seq<string>, index: nat, end: nat)
    requires index < end <= |lines|
    ensures lines[index..][1..] == lines[index + 1..] && lines[index..][1..end - index] == lines[index + 1..end]
    ensures lines[index..][end - index..] == lines[end..]
  {
  }

  method CollectItems(text: string -> Option<string>, wrapped: string -> bool, make: ItemMaker, lines: seq<string>, from: nat)
    returns (items: seq<seq<Inline>>, index: nat)
    requires from <= |lines|
    ensures from <= index <= |lines| && Items(items, index - from) == TakeItems(text, wrapped, make, lines[from..])
  {
    index, items := from, [];
    while index < |lines| && text(lines[index]).Some?
      invariant from <= index <= |lines|
      invariant TakeItems(text, wrapped, make, lines[from..]) == Shifted(items, index - from, TakeItems(text, wrapped, make, lines[index..]))
      decreases |lines| - index
    {
      var end := Skip(wrapped, lines, index + 1);
      TakeItemsStep(text, wrapped, make, lines, index, end);
      var item := make(text(lines[index]).value, lines[index + 1..end]);
      ShiftOne(items, index - from, item, end - index, TakeItems(text, wrapped, make, lines[end..]));
      items := items + [item];
      index := end;
    }
  }

  function Shifted(items: seq<seq<Inline>>, count: nat, later: Items): Items
  {
    Items(items + later.items, count + later.count)
  }

  lemma ShiftOne(items: seq<seq<Inline>>, count: nat, item: seq<Inline>, lines: nat, later: Items)
    ensures Shifted(items, count, Items([item] + later.items, lines + later.count)) == Shifted(items + [item], count + lines, later)
  {
  }

  method ParseCode(x: Syntax, language: string, lines: seq<string>, from: nat) returns (block: Block, index: nat)
    requires from < |lines|
    ensures from < index <= |lines| && Taken(block, index - from) == TakeCode(x, language, lines[from..])
  {
    var end := Skip(BodyLine(x), lines, from + 1);
    assert lines[from..][1..] == lines[from + 1..];
    assert lines[from..][1..][..end - from - 1] == lines[from + 1..end];
    block := CodeBlock(if language != "" then Some(language) else None, Join(lines[from + 1..end], "\n"));
    index := if end < |lines| then end + 1 else end;
  }

  method ParseTable(x: Syntax, inline: InlineParser, lines: seq<string>, from: nat) returns (block: Block, index: nat)
    requires from + 1 < |lines|
    ensures from < index <= |lines| && Taken(block, index - from) == TakeTable(x, inline, lines[from..])
  {
    index := Skip(RowLine(x), lines, from + 2);
    assert lines[from..][2..] == lines[from + 2..];
    assert lines[from..][2..][..index - from - 2] == lines[from + 2..index];
    block := Table(InlineAll(inline, x.cells(lines[from])), RowsOf(x, inline, lines[from + 2..index]));
  }

  method ParseList(x: Syntax, inline: InlineParser, lines: seq<string>, from: nat) returns (block: Block, index: nat)
    requires from < |lines| && (x.bullet(lines[from]).Some? || x.ordered(lines[from]).Some?)
    ensures from < index <= |lines| && Taken(block, index - from) == TakeList(x, inline, lines[from..])
  {
    var ordered := x.bullet(lines[from]).None?;
    var items: seq<seq<Inline>>;
    items, index := CollectItems(ItemText(x, ordered), WrappedLine(x), ItemBy(x, inline), lines, from);
    block := List(ordered, if ordered then x.ordered(lines[from]).value.number else 1, items);
  }

  /** The block at a line that is not blank, and the line behind it. */
  method ParseBlock(x: Syntax, inline: InlineParser, lines: seq<string>, from: nat) returns (block: Block, index: nat)
    requires from < |lines| && !x.blank(lines[from])
    ensures from < index <= |lines| && Taken(block, index - from) == TakeBlock(x, inline, lines[from..])
  {
    var line := lines[from];
    var rest := lines[from..];
    assert |lines| > from + 1 ==> rest[1] == lines[from + 1];
    if x.fence(line).Some? {
      block, index := ParseCode(x, x.fence(line).value, lines, from);
    } else if x.rule(line) {
      block, index := Rule, from + 1;
    } else if x.heading(line).Some? {
      var parts := x.heading(line).value;
      block, index := Heading(parts.level, inline(x.trim(parts.text))), from + 1;
    } else if '|' in line && from + 1 < |lines| && x.divider(lines[from + 1]) {
      block, index := ParseTable(x, inline, lines, from);
    } else if x.bullet(line).Some? || x.ordered(line).Some? {
      block, index := ParseList(x, inline, lines, from);
    } else if x.quote(line).Some? {
      index := Skip(QuoteLine(x), lines, from);
      assert rest[..index - from] == lines[from..index];
      block := Quote(inline(x.trim(Join(QuoteTexts(x, lines[from..index]), " "))));
    } else {
      index := Skip(ParagraphLine(x), lines, from);
      assert rest[..index - from] == lines[from..index];
      block := Paragraph(inline(Join(TrimAll(x, lines[from..index]), " ")));
    }
  }

  method ParseNext(x: Syntax, inline: InlineParser, lines: seq<string>, index: nat) returns (block: Block, next: nat)
    requires index < |lines| && !x.blank(lines[index])
    ensures index < next <= |lines|
    ensures ParseLines(x, inline, lines[index..]) == [block] + ParseLines(x, inline, lines[next..])
  {
    block, next := ParseBlock(x, inline, lines, index);
    assert lines[index..][next - index..] == lines[next..];
  }

  lemma BlankIsSkipped(x: Syntax, inline: InlineParser, lines: seq<string>, index: nat)
    requires index < |lines| && x.blank(lines[index])
    ensures ParseLines(x, inline, lines[index..]) == ParseLines(x, inline, lines[index + 1..])
  {
    assert lines[index..][1..] == lines[index + 1..];
  }

  lemma BlocksAssoc(blocks: seq<Block>, block: Block, later: seq<Block>)
    ensures blocks + ([block] + later) == blocks + [block] + later
  {
  }

  method ParseMarkdown(x: Syntax, inline: InlineParser, input: string) returns (blocks: seq<Block>)
    ensures blocks == ParseLines(x, inline, LinesOf(input))
  {
    var lines := LinesOf(input);
    blocks := [];
    var index := 0;
    while index < |lines|
      invariant index <= |lines|
      invariant ParseLines(x, inline, lines) == blocks + ParseLines(x, inline, lines[index..])
      decreases |lines| - index
    {
      if x.blank(lines[index]) {
        BlankIsSkipped(x, inline, lines, index);
        index := index + 1;
      } else {
        var block, next := ParseNext(x, inline, lines, index);
        BlocksAssoc(blocks, block, ParseLines(x, inline, lines[next..]));
        blocks := blocks + [block];
        index := next;
      }
    }
  }

  // ---------------------------------------------------------------- the partition

  /** A blank line between blocks, or a block with the lines it was made from. */
  datatype Piece = Gap(line: string) | Part(block: Block, lines: seq<string>)

  function LinesOfPiece(p: Piece): seq<string>
  {
    match p case Gap(line) => [line] case Part(_, lines) => lines
  }

  function AllLines(ps: seq<Piece>): seq<string>
  {
    if ps == [] then [] else LinesOfPiece(ps[0]) + AllLines(ps[1..])
  }

  function AllBlocks(ps: seq<Piece>): seq<Block>
  {
    if ps == [] then [] else (match ps[0] case Gap(_) => [] case Part(block, _) => [block]) + AllBlocks(ps[1..])
  }

  /** What a block says of its lines, kind by kind. */
  ghost predicate Renders(x: Syntax, inline: InlineParser, block: Block, lines: seq<string>)
  {
    && lines != [] && !x.blank(lines[0])
    && match block
       case CodeBlock(language, value) =>
         && x.fence(lines[0]).Some? && language == (if x.fence(lines[0]).value != "" then x.fence(lines[0]) else None)
         && exists n | 0 <= n < |lines| ::
           && value == Join(lines[1..][..n], "\n") && (forall i | 1 <= i <= n :: !x.closes(lines[i]))
           && (|lines| == n + 1 || (|lines| == n + 2 && x.closes(lines[n + 1])))
       case Rule => |lines| == 1 && x.rule(lines[0])
       case Heading(level, children) =>
         |lines| == 1 && x.heading(lines[0]).Some? && level == x.heading(lines[0]).value.level
         && children == inline(x.trim(x.heading(lines[0]).value.text))
       case Table(head, rows) =>
         |lines| == |rows| + 2 && '|' in lines[0] && x.divider(lines[1]) && head == InlineAll(inline, x.cells(lines[0]))
         && forall i | 0 <= i < |rows| :: !x.blank(lines[i + 2]) && rows[i] == InlineAll(inline, x.cells(lines[i + 2]))
       case List(ordered, start, items) =>
         && ordered == x.bullet(lines[0]).None? && (ordered ==> x.ordered(lines[0]).Some?)
         && start == (if ordered then x.ordered(lines[0]).value.number else 1)
         && ItemsOf(x, inline, ordered, lines) == Items(items, |lines|)
       case Quote(children) =>
         (forall i | 0 <= i < |lines| :: x.quote(lines[i]).Some?) && children == inline(x.trim(Join(QuoteTexts(x, lines), " ")))
       case Paragraph(children) =>
         (forall i | 0 <= i < |lines| :: ParagraphLine(x)(lines[i])) && children == inline(Join(TrimAll(x, lines), " "))
  }

  /** A gap is blank, and a block renders its own lines. */
  ghost function Sound(x: Syntax, inline: InlineParser): Piece -> bool
  {
    (p: Piece) => match p case Gap(line) => x.blank(line) case Part(block, part) => Renders(x, inline, block, part)
  }

  /** The pieces lie end to end, and each is sound. */
  ghost predicate Partitions(sound: Piece -> bool, ps: seq<Piece>, lines: seq<string>, blocks: seq<Block>)
  {
    AllLines(ps) == lines && AllBlocks(ps) == blocks && forall i | 0 <= i < |ps| :: sound(ps[i])
  }

  /** Taking items stops where it would stop in a longer text. */
  lemma {:induction false} RunOfPrefix(test: string -> bool, lines: seq<string>, n: nat)
    requires n <= |lines| && Run(test, lines) <= n
    ensures Run(test, lines[..n]) == Run(test, lines)
  {
    assert forall i | 0 <= i < n :: lines[..n][i] == lines[i];
  }

  lemma PartOfRun(test: string -> bool, lines: seq<string>, n: nat, count: nat)
    requires lines != [] && n == Run(test, lines[1..]) && n + count <= |lines[1..]|
    ensures var part := lines[..n + 1 + count];
            && part[0] == lines[0] && Run(test, part[1..]) == n && part[1..n + 1] == lines[1..n + 1]
            && part[n + 1..] == lines[n + 1..][..count]
  {
    assert lines[..n + 1 + count][1..] == lines[1..][..n + count];
    RunOfPrefix(test, lines[1..], n + count);
  }

  lemma TakeItemsCons(text: string -> Option<string>, wrapped: string -> bool, make: ItemMaker, lines: seq<string>, n: nat)
    requires lines != [] && text(lines[0]).Some? && n == Run(wrapped, lines[1..])
    ensures TakeItems(text, wrapped, make, lines) ==
            Shifted([make(text(lines[0]).value, lines[1..n + 1])], n + 1, TakeItems(text, wrapped, make, lines[n + 1..]))
  {
    TakeItemsAt(text, wrapped, make, lines, n, lines[1..n + 1], lines[n + 1..]);
  }

  lemma SameItems(text: string -> Option<string>, wrapped: string -> bool, make: ItemMaker, lines: seq<string>, part: seq<string>, n: nat)
    requires lines != [] && part != [] && part[0] == lines[0] && text(lines[0]).Some?
    requires n == Run(wrapped, lines[1..]) && n == Run(wrapped, part[1..]) && part[1..n + 1] == lines[1..n + 1]
    requires TakeItems(text, wrapped, make, part[n + 1..]) == TakeItems(text, wrapped, make, lines[n + 1..])
    ensures TakeItems(text, wrapped, make, part) == TakeItems(text, wrapped, make, lines)
    ensures TakeItems(text, wrapped, make, lines).count == n + 1 + TakeItems(text, wrapped, make, lines[n + 1..]).count
  {
    TakeItemsCons(text, wrapped, make, lines, n);
    TakeItemsCons(text, wrapped, make, part, n);
  }

  /** Taking items from only the lines that were taken gives the same items. */
  ghost predicate PrefixSuffices(text: string -> Option<string>, wrapped: string -> bool, make: ItemMaker, lines: seq<string>)
  {
    var items := TakeItems(text, wrapped, make, lines);
    items.count <= |lines| && TakeItems(text, wrapped, make, lines[..items.count]) == items
  }

  lemma ItemsCut(text: string -> Option<string>, wrapped: string -> bool, make: ItemMaker, lines: seq<string>, n: nat, count: nat)
    requires lines != [] && text(lines[0]).Some? && n == Run(wrapped, lines[1..])
    requires count == TakeItems(text, wrapped, make, lines[n + 1..]).count
    requires TakeItems(text, wrapped, make, lines[n + 1..][..count]) == TakeItems(text, wrapped, make, lines[n + 1..])
    ensures n + 1 + count <= |lines| && TakeItems(text, wrapped, make, lines).count == n + 1 + count
    ensures TakeItems(text, wrapped, make, lines[..n + 1 + count]) == TakeItems(text, wrapped, make, lines)
  {
    PartOfRun(wrapped, lines, n, count);
    SameItems(text, wrapped, make, lines, lines[..n + 1 + count], n);
  }

  /** Cutting the lines where taking items stopped changes nothing. */
  lemma {:induction false} ItemsOfPrefix(text: string -> Option<string>, wrapped: string -> bool, make: ItemMaker, lines: seq<string>)
    ensures PrefixSuffices(text, wrapped, make, lines)
    decreases |lines|
  {
    if lines != [] && text(lines[0]).Some? {
      var n := Run(wrapped, lines[1..]);
      ItemsOfPrefix(text, wrapped, make, lines[n + 1..]);
      ItemsCut(text, wrapped, make, lines, n, TakeItems(text, wrapped, make, lines[n + 1..]).count);
    } else {
      assert lines[..0] == [];
    }
  }

  lemma CodeRenders(x: Syntax, inline: InlineParser, language: string, lines: seq<string>)
    requires lines != [] && !x.blank(lines[0]) && x.fence(lines[0]) == Some(language)
    ensures var t := TakeCode(x, language, lines); t.count <= |lines| && Renders(x, inline, t.block, lines[..t.count])
  {
    var n, t := Run(BodyLine(x), lines[1..]), TakeCode(x, language, lines);
    var part := lines[..t.count];
    assert part[1..][..n] == lines[1..][..n];
    forall i | 1 <= i <= n ensures !x.closes(part[i]) {
      assert part[i] == lines[1..][i - 1];
    }
    assert t.count == n + 2 ==> part[n + 1] == lines[1..][n];
  }

  lemma TableRenders(x: Syntax, inline: InlineParser, lines: seq<string>)
    requires StartsTable(x, lines) && !x.blank(lines[0])
    ensures var t := TakeTable(x, inline, lines); t.count <= |lines| && Renders(x, inline, t.block, lines[..t.count])
  {
    var n, t := Run(RowLine(x), lines[2..]), TakeTable(x, inline, lines);
    var part := lines[..t.count];
    forall i | 0 <= i < n ensures !x.blank(part[i + 2]) && t.block.rows[i] == InlineAll(inline, x.cells(part[i + 2])) {
      assert part[i + 2] == lines[2..][i];
    }
  }

  lemma ListRenders(x: Syntax, inline: InlineParser, lines: seq<string>)
    requires lines != [] && !x.blank(lines[0]) && (x.bullet(lines[0]).Some? || x.ordered(lines[0]).Some?)
    ensures var t := TakeList(x, inline, lines); 0 < t.count <= |lines| && Renders(x, inline, t.block, lines[..t.count])
  {
    var ordered := x.bullet(lines[0]).None?;
    ItemsOfPrefix(ItemText(x, ordered), WrappedLine(x), ItemBy(x, inline), lines);
  }

  lemma BlockRenders(x: Syntax, inline: InlineParser, lines: seq<string>)
    requires lines != [] && !x.blank(lines[0])
    ensures var t := TakeBlock(x, inline, lines); Renders(x, inline, t.block, lines[..t.count])
  {
    var line := lines[0];
    if x.fence(line).Some? {
      CodeRenders(x, inline, x.fence(line).value, lines);
    } else if !x.rule(line) && x.heading(line).None? {
      if StartsTable(x, lines) {
        TableRenders(x, inline, lines);
      } else if x.bullet(line).Some? || x.ordered(line).Some? {
        ListRenders(x, inline, lines);
      }
    }
  }

  function BlocksOfPiece(p: Piece): seq<Block>
  {
    match p case Gap(_) => [] case Part(block, _) => [block]
  }

  lemma OnePieceMore(sound: Piece -> bool, p: Piece, ps: seq<Piece>, lines: seq<string>, blocks: seq<Block>)
    requires Partitions(sound, ps, lines, blocks) && sound(p)
    ensures Partitions(sound, [p] + ps, LinesOfPiece(p) + lines, BlocksOfPiece(p) + blocks)
  {
    assert ([p] + ps)[1..] == ps;
  }

  lemma GapBefore(x: Syntax, inline: InlineParser, ps: seq<Piece>, lines: seq<string>)
    requires lines != [] && x.blank(lines[0])
    requires Partitions(Sound(x, inline), ps, lines[1..], ParseLines(x, inline, lines[1..]))
    ensures Partitions(Sound(x, inline), [Gap(lines[0])] + ps, lines, ParseLines(x, inline, lines))
  {
    OnePieceMore(Sound(x, inline), Gap(lines[0]), ps, lines[1..], ParseLines(x, inline, lines[1..]));
    assert [lines[0]] + lines[1..] == lines;
    assert [] + ParseLines(x, inline, lines[1..]) == ParseLines(x, inline, lines[1..]);
  }

  lemma BlockBefore(sound: Piece -> bool, t: Taken, lines: seq<string>, ps: seq<Piece>, blocks: seq<Block>)
    requires t.count <= |lines| && sound(Part(t.block, lines[..t.count]))
    requires Partitions(sound, ps, lines[t.count..], blocks)
    ensures Partitions(sound, [Part(t.block, lines[..t.count])] + ps, lines, [t.block] + blocks)
  {
    OnePieceMore(sound, Part(t.block, lines[..t.count]), ps, lines[t.count..], blocks);
    assert lines[..t.count] + lines[t.count..] == lines;
  }

  lemma BlockIsSound(x: Syntax, inline: InlineParser, lines: seq<string>)
    requires lines != [] && !x.blank(lines[0])
    ensures var t := TakeBlock(x, inline, lines); Sound(x, inline)(Part(t.block, lines[..t.count]))
  {
    BlockRenders(x, inline, lines);
  }

  function PartOf(t: Taken, lines: seq<string>): Piece
    requires t.count <= |lines|
  {
    Part(t.block, lines[..t.count])
  }

  lemma ParseStep(x: Syntax, inline: InlineParser, lines: seq<string>) returns (t: Taken)
    requires lines != [] && !x.blank(lines[0])
    ensures 0 < t.count <= |lines| && ParseLines(x, inline, lines) == [t.block] + ParseLines(x, inline, lines[t.count..])
    ensures Sound(x, inline)(PartOf(t, lines))
  {
    t := TakeBlock(x, inline, lines);
    BlockIsSound(x, inline, lines);
  }

  /** Every non-blank line is in exactly one block's segment; the segments follow one another in order. */
  lemma {:induction false} BlocksPartitionLines(x: Syntax, inline: InlineParser, lines: seq<string>) returns (ps: seq<Piece>)
    ensures Partitions(Sound(x, inline), ps, lines, ParseLines(x, inline, lines))
    decreases |lines|
  {
    if lines == [] {
      ps := [];
    } else if x.blank(lines[0]) {
      var later := BlocksPartitionLines(x, inline, lines[1..]);
      ps := [Gap(lines[0])] + later;
      GapBefore(x, inline, later, lines);
    } else {
      var t := ParseStep(x, inline, lines);
      var later := BlocksPartitionLines(x, inline, lines[t.count..]);
      ps := [Part(t.block, lines[..t.count])] + later;
      BlockBefore(Sound(x, inline), t, lines, later, ParseLines(x, inline, lines[t.count..]));
    }
  }

  // ------------------------------------------------- what every inline text keeps

  ghost predicate AllHold(good: seq<Inline> -> bool, texts: seq<seq<Inline>>)
  {
    forall i | 0 <= i < |texts| :: good(texts[i])
  }

  /** Every piece of inline text in a block passes a test. */
  ghost predicate Holds(good: seq<Inline> -> bool, block: Block)
  {
    match block
    case Heading(_, children) => good(children)
    case Paragraph(children) => good(children)
    case Quote(children) => good(children)
    case List(_, _, items) => AllHold(good, items)
    case Table(head, rows) => AllHold(good, head) && forall i | 0 <= i < |rows| :: AllHold(good, rows[i])
    case CodeBlock(_, _) => true
    case Rule => true
  }

  lemma {:induction false} ItemsHold(good: seq<Inline> -> bool, text: string -> Option<string>, wrapped: string -> bool, make: ItemMaker, lines: seq<string>)
    requires forall t, w :: good(make(t, w))
    ensures AllHold(good, TakeItems(text, wrapped, make, lines).items)
    decreases |lines|
  {
    if lines != [] && text(lines[0]).Some? {
      ItemsHold(good, text, wrapped, make, lines[Run(wrapped, lines[1..]) + 1..]);
    }
  }

  lemma MadeItemsHold(x: Syntax, inline: InlineParser, good: seq<Inline> -> bool)
    requires forall s :: good(inline(s))
    ensures forall t, w :: good(ItemBy(x, inline)(t, w))
  {
    forall t, w ensures good(ItemBy(x, inline)(t, w)) {
      assert good(inline(Join([t] + TrimAll(x, w), " ")));
    }
  }

  lemma TakenHolds(x: Syntax, inline: InlineParser, good: seq<Inline> -> bool, lines: seq<string>)
    requires lines != [] && !x.blank(lines[0]) && forall s :: good(inline(s))
    ensures Holds(good, TakeBlock(x, inline, lines).block)
  {
    var line := lines[0];
    if x.fence(line).None? && !x.rule(line) && x.heading(line).None? && !StartsTable(x, lines)
       && (x.bullet(line).Some? || x.ordered(line).Some?) {
      MadeItemsHold(x, inline, good);
      ItemsHold(good, ItemText(x, x.bullet(line).None?), WrappedLine(x), ItemBy(x, inline), lines);
    }
  }

  /** What the inline parser always keeps, every block of every reply keeps. */
  lemma {:induction false} EveryBlockHolds(x: Syntax, inline: InlineParser, good: seq<Inline> -> bool, lines: seq<string>)
    requires forall s :: good(inline(s))
    ensures forall block | block in ParseLines(x, inline, lines) :: Holds(good, block)
    decreases |lines|
  {
    if lines == [] {
    } else if x.blank(lines[0]) {
      EveryBlockHolds(x, inline, good, lines[1..]);
    } else {
      TakenHolds(x, inline, good, lines);
      EveryBlockHolds(x, inline, good, lines[TakeBlock(x, inline, lines).count..]);
    }
  }

  // -------------------------------------------------------- which lines a block takes

  /** The first `n` of these lines pass, and the next one does not. */
  ghost predicate RunsTo(test: string -> bool, lines: seq<string>, from: nat, to: int)
  {
    from <= to <= |lines| && (forall i | from <= i < to :: test(lines[i])) && (to < |lines| ==> !test(lines[to]))
  }

  lemma RunRunsTo(test: string -> bool, lines: seq<string>, from: nat)
    requires from <= |lines|
    ensures RunsTo(test, lines, from, from + Run(test, lines[from..]))
  {
    var tail := lines[from..];
    assert forall i | from <= i < |lines| :: tail[i - from] == lines[i];
  }

  /**
   * Which block starts here: a fence before a rule, a rule before a heading, a
   * heading before a table, a table before a list, a list before a quote, and a
   * paragraph when nothing else does.
   */
  lemma BlockKind(x: Syntax, inline: InlineParser, lines: seq<string>)
    requires lines != [] && !x.blank(lines[0])
    ensures var block, line := TakeBlock(x, inline, lines).block, lines[0];
            var fence, rule, heading := x.fence(line).Some?, x.rule(line), x.heading(line).Some?;
            var table := |lines| > 1 && '|' in line && x.divider(lines[1]);
            var list, quote := x.bullet(line).Some? || x.ordered(line).Some?, x.quote(line).Some?;
            && (block.CodeBlock? <==> fence)
            && (block.Rule? <==> !fence && rule)
            && (block.Heading? <==> !fence && !rule && heading)
            && (block.Table? <==> !fence && !rule && !heading && table)
            && (block.List? <==> !fence && !rule && !heading && !table && list)
            && (block.Quote? <==> !fence && !rule && !heading && !table && !list && quote)
            && (block.Paragraph? <==> !fence && !rule && !heading && !table && !list && !quote)
  {
  }

  /** Up to where each block goes on: code to its closing fence and with it, a table over its rows, a quote and a paragraph over their lines. */
  lemma BlockExtent(x: Syntax, inline: InlineParser, lines: seq<string>)
    requires lines != [] && !x.blank(lines[0])
    ensures var t := TakeBlock(x, inline, lines);
            match t.block
            case CodeBlock(_, value) =>
              exists to :: RunsTo((line: string) => !x.closes(line), lines, 1, to) && value == Join(lines[1..to], "\n")
                           && t.count == if to < |lines| then to + 1 else to
            case Rule => t.count == 1
            case Heading(_, _) => t.count == 1
            case Table(_, rows) => RunsTo((line: string) => '|' in line && !x.blank(line), lines, 2, t.count) && |rows| == t.count - 2
            case Quote(_) => RunsTo((line: string) => x.quote(line).Some?, lines, 0, t.count)
            case Paragraph(_) =>
              RunsTo((line: string) => !x.blank(line) && x.fence(line).None? && !x.rule(line) && x.heading(line).None? && x.bullet(line).None?
                                       && x.ordered(line).None? && x.quote(line).None?, lines, 0, t.count)
            case List(ordered, _, items) => ItemsOf(x, inline, ordered, lines) == Items(items, t.count)
  {
    var t := TakeBlock(x, inline, lines);
    match t.block {
      case CodeBlock(_, value) => CodeExtent(x, inline, lines);
      case Table(_, _) => TableExtent(x, inline, lines);
      case Quote(_) => QuoteExtent(x, inline, lines);
      case Paragraph(_) => ParagraphExtent(x, inline, lines);
      case _ =>
    }
  }

  lemma SameRun(test: string -> bool, same: string -> bool, lines: seq<string>, from: nat, to: int)
    requires RunsTo(test, lines, from, to) && forall line :: test(line) == same(line)
    ensures RunsTo(same, lines, from, to)
  {
  }

  lemma CodeExtent(x: Syntax, inline: InlineParser, lines: seq<string>)
    requires lines != [] && x.fence(lines[0]).Some?
    ensures var t := TakeCode(x, x.fence(lines[0]).value, lines);
            exists to :: RunsTo((line: string) => !x.closes(line), lines, 1, to) && t.block.value == Join(lines[1..to], "\n")
                         && t.count == if to < |lines| then to + 1 else to
  {
    var n := Run(BodyLine(x), lines[1..]);
    RunRunsTo(BodyLine(x), lines, 1);
    SameRun(BodyLine(x), (line: string) => !x.closes(line), lines, 1, 1 + n);
    assert lines[1..][..n] == lines[1..1 + n];
  }

  lemma TableExtent(x: Syntax, inline: InlineParser, lines: seq<string>)
    requires |lines| > 1
    ensures var t := TakeTable(x, inline, lines);
            RunsTo((line: string) => '|' in line && !x.blank(line), lines, 2, t.count) && |t.block.rows| == t.count - 2
  {
    RunRunsTo(RowLine(x), lines, 2);
    SameRun(RowLine(x), (line: string) => '|' in line && !x.blank(line), lines, 2, 2 + Run(RowLine(x), lines[2..]));
  }

  lemma QuoteExtent(x: Syntax, inline: InlineParser, lines: seq<string>)
    ensures RunsTo((line: string) => x.quote(line).Some?, lines, 0, TakeQuote(x, inline, lines).count)
  {
    RunRunsTo(QuoteLine(x), lines, 0);
    assert lines[0..] == lines;
    SameRun(QuoteLine(x), (line: string) => x.quote(line).Some?, lines, 0, Run(QuoteLine(x), lines));
  }

  lemma ParagraphExtent(x: Syntax, inline: InlineParser, lines: seq<string>)
    ensures RunsTo((line: string) => !x.blank(line) && x.fence(line).None? && !x.rule(line) && x.heading(line).None? && x.bullet(line).None?
                                     && x.ordered(line).None? && x.quote(line).None?, lines, 0, TakeParagraph(x, inline, lines).count)
  {
    RunRunsTo(ParagraphLine(x), lines, 0);
    assert lines[0..] == lines;
    SameRun(ParagraphLine(x),
            (line: string) => !x.blank(line) && x.fence(line).None? && !x.rule(line) && x.heading(line).None? && x.bullet(line).None?
                              && x.ordered(line).None? && x.quote(line).None?, lines, 0, Run(ParagraphLine(x), lines));
  }

  /** The text of an item of the list's own kind. */
  function OwnText(x: Syntax, ordered: bool, line: string): Option<string>
  {
    if !ordered then x.bullet(line)
    else if x.ordered(line).Some? then Some(x.ordered(line).value.text)
    else None
  }

  /**
   * A list goes on as long as a line opens an item of its own kind. An item is its
   * text and the trimmed lines wrapped below it, joined by single spaces: up to the
   * next blank line, item of either kind, heading or fence.
   */
  lemma ItemsExactly(x: Syntax, inline: InlineParser, ordered: bool, lines: seq<string>, to: int)
    ensures lines == [] || OwnText(x, ordered, lines[0]).None? ==> ItemsOf(x, inline, ordered, lines) == Items([], 0)
    ensures lines != [] && OwnText(x, ordered, lines[0]).Some?
            && RunsTo((line: string) => !x.blank(line) && x.bullet(line).None? && x.ordered(line).None? && x.heading(line).None?
                                        && x.fence(line).None?, lines, 1, to) ==>
              var later := ItemsOf(x, inline, ordered, lines[to..]);
              ItemsOf(x, inline, ordered, lines) ==
              Items([inline(Join([OwnText(x, ordered, lines[0]).value] + TrimAll(x, lines[1..to]), " "))] + later.items, to + later.count)
  {
    if lines != [] {
      var wrapped := (line: string) => !x.blank(line) && x.bullet(line).None? && x.ordered(line).None? && x.heading(line).None? && x.fence(line).None?;
      assert ItemText(x, ordered)(lines[0]) == OwnText(x, ordered, lines[0]);
      RunRunsTo(WrappedLine(x), lines, 1);
      if RunsTo(wrapped, lines, 1, to) {
        SameRun(WrappedLine(x), wrapped, lines, 1, 1 + Run(WrappedLine(x), lines[1..]));
        RunIsOne(wrapped, lines, 1, to, 1 + Run(WrappedLine(x), lines[1..]));
      }
    }
  }

  lemma RunIsOne(test: string -> bool, lines: seq<string>, from: nat, a: int, b: int)
    requires RunsTo(test, lines, from, a) && RunsTo(test, lines, from, b)
    ensures a == b
  {
  }

  /** Blank lines are skipped, and any other line starts a block that is followed by what comes after it. */
  lemma BlocksFollow(x: Syntax, inline: InlineParser, lines: seq<string>)
    ensures ParseLines(x, inline, []) == []
    ensures lines != [] && x.blank(lines[0]) ==> ParseLines(x, inline, lines) == ParseLines(x, inline, lines[1..])
    ensures lines != [] && !x.blank(lines[0]) ==>
              var t := TakeBlock(x, inline, lines);
              0 < t.count <= |lines| && ParseLines(x, inline, lines) == [t.block] + ParseLines(x, inline, lines[t.count..])
  {
  }

  /** Carriage returns: one, with or without a line feed behind it, is one line end; all else stays. */
  lemma {:induction false} BreaksAreUnified(a: string, b: string)
    requires '\r' !in a
    ensures UnifyBreaks(a) == a
    ensures UnifyBreaks(a + "\r\n" + b) == a + "\n" + UnifyBreaks(b)
    ensures b == "" || b[0] != '\n' ==> UnifyBreaks(a + "\r" + b) == a + "\n" + UnifyBreaks(b)
  {
    if a == "" {
      assert ("" + "\r\n" + b)[2..] == b && ("" + "\r" + b)[1..] == b;
    } else {
      BreaksAreUnified(a[1..], b);
      assert (a + "\r\n" + b)[1..] == a[1..] + "\r\n" + b && (a + "\r" + b)[1..] == a[1..] + "\r" + b;
    }
  }
}
