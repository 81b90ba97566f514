/**
 * Inline Markdown: code spans, links, strong and emphasis; everything else is
 * text. The parser is stated with the delimiters it read, so that it can be
 * compared with a printer; what the code returns is that tree without them.
 */
module MarkdownInline {
  import opened Wrappers
  import opened Text

  datatype Inline =
    | Text(value: string)
    | Strong(children: seq<Inline>)
    | Em(children: seq<Inline>)
    | Code(value: string)
    | Link(href: string, children: seq<Inline>)

  /** The same tree with the delimiter of each strong and emphasis node. */
  datatype Marked =
    | MText(value: string)
    | MStrong(mark: char, children: seq<Marked>)
    | MEm(mark: char, children: seq<Marked>)
    | MCode(value: string)
    | MLink(href: string, children: seq<Marked>)

  function Erase(m: Marked): Inline
    decreases m
  {
    match m
    case MText(v) => Text(v)
    case MStrong(_, children) => Strong(EraseAll(children))
    case MEm(_, children) => Em(EraseAll(children))
    case MCode(v) => Code(v)
    case MLink(href, children) => Link(href, EraseAll(children))
  }

  function EraseAll(ms: seq<Marked>): (r: seq<Inline>)
    ensures |r| == |ms|
    decreases ms
  {
    if ms == [] then [] else [Erase(ms[0])] + EraseAll(ms[1..])
  }

  function Print(m: Marked): string
    decreases m
  {
    match m
    case MText(v) => v
    case MStrong(mark, children) => [mark, mark] + PrintAll(children) + [mark, mark]
    case MEm(mark, children) => [mark] + PrintAll(children) + [mark]
    case MCode(v) => "`" + v + "`"
    case MLink(href, children) => "[" + PrintAll(children) + "](" + href + ")"
  }

  function PrintAll(ms: seq<Marked>): string
    decreases ms
  {
    if ms == [] then "" else Print(ms[0]) + PrintAll(ms[1..])
  }

  // --------------------------------------------------------------------- safe links

  function LowerAscii(c: char): char
  {
    if 'A' <= c <= 'Z' then c - 'A' + 'a' else c
  }

  /** `prefix`, in lower case, starts `s` whatever the case of its letters. */
  predicate StartsWithAnyCase(s: string, prefix: string)
  {
    |prefix| <= |s| && forall i | 0 <= i < |prefix| :: LowerAscii(s[i]) == prefix[i]
  }

  predicate HasScheme(s: string)
  {
    StartsWithAnyCase(s, "http:") || StartsWithAnyCase(s, "https:") || StartsWithAnyCase(s, "mailto:")
  }

  predicate PlainAddress(s: string)
  {
    forall i | 0 <= i < |s| :: !IsSpace(s[i]) && s[i] != '<' && s[i] != '>' && s[i] != '"'
  }

  /** Web and mail addresses, and paths on this site; anything else is no link. */
  function SafeHref(href: string): Option<string>
  {
    var trimmed := Trim(href);
    if HasScheme(trimmed) && PlainAddress(trimmed) then Some(trimmed)
    else if StartsWith(trimmed, "/") && !StartsWith(trimmed, "//") then Some(trimmed)
    else None
  }

  // -------------------------------------------------------------- the four patterns

  datatype Span =
    | CodeSpan(value: string)
    | LinkSpan(label_: string, href: string)
    | StrongSpan(mark: char, inner: string)
    | EmSpan(mark: char, inner: string)

  /** A backtick, anything but backticks, a backtick. */
  function CodeAt(s: string): Option<Span>
  {
    if s != "" && s[0] == '`' && '`' in s[1..] && IndexOfChar(s[1..], '`') > 0
    then Some(CodeSpan(s[1..][..IndexOfChar(s[1..], '`')])) else None
  }

  /** Characters before the first closing parenthesis or white space. */
  function HrefRun(s: string): (n: nat)
    ensures n <= |s|
    ensures forall i | 0 <= i < n :: s[i] != ')' && !IsSpace(s[i])
    ensures n < |s| ==> s[n] == ')' || IsSpace(s[n])
  {
    if s == "" || s[0] == ')' || IsSpace(s[0]) then 0 else 1 + HrefRun(s[1..])
  }

  /** `](`, an address, `)`. */
  function TargetAt(s: string): Option<string>
  {
    if !StartsWith(s, "](") then None
    else
      var n := HrefRun(s[2..]);
      if n > 0 && n < |s[2..]| && s[2..][n] == ')' then Some(s[2..][..n]) else None
  }

  function LinkAt(s: string): Option<Span>
  {
    if s == "" || s[0] != '[' || ']' !in s[1..] then None
    else
      var k := IndexOfChar(s[1..], ']');
      match TargetAt(s[1..][k..])
      case None => None
      case Some(href) => if SafeHref(href).Some? then Some(LinkSpan(s[1..][..k], SafeHref(href).value)) else None
  }

  predicate IsMark(c: char)
  {
    c == '*' || c == '_'
  }

  /** Two marks, as little as possible but something, the same two marks. */
  function StrongAt(s: string): Option<Span>
  {
    if |s| < 2 || !IsMark(s[0]) || s[1] != s[0] then None
    else
      match IndexFrom(s, s[..2], 3)
      case None => None
      case Some(j) => Some(StrongSpan(s[0], s[2..j]))
  }

  /** The first place from `from` on where a mark stands behind something that is no white space. */
  function ClosingMark(s: string, mark: char, from: nat): (r: Option<nat>)
    requires from > 0
    ensures r.Some? ==> from <= r.value < |s| && s[r.value] == mark && !IsSpace(s[r.value - 1])
    ensures forall i | from <= i < |s| && s[i] == mark && !IsSpace(s[i - 1]) :: r.Some? && r.value <= i
    decreases |s| - from
  {
    if from >= |s| then None
    else if s[from] == mark && !IsSpace(s[from - 1]) then Some(from)
    else ClosingMark(s, mark, from + 1)
  }

  /** A mark, as little as possible that neither starts nor ends with white space, the same mark. */
  function EmAt(s: string): Option<Span>
  {
    if |s| < 2 || !IsMark(s[0]) || IsSpace(s[1]) then None
    else
      match ClosingMark(s, s[0], 2)
      case None => None
      case Some(j) => Some(EmSpan(s[0], s[1..j]))
  }

  /** The first of the four patterns that matches at the start. */
  function SpanAt(s: string): Option<Span>
  {
    if CodeAt(s).Some? then CodeAt(s)
    else if LinkAt(s).Some? then LinkAt(s)
    else if StrongAt(s).Some? then StrongAt(s)
    else EmAt(s)
  }

  /** The text a span was read from. */
  function Source(span: Span): string
  {
    match span
    case CodeSpan(v) => "`" + v + "`"
    case LinkSpan(text, href) => "[" + text + "](" + href + ")"
    case StrongSpan(mark, inner) => [mark, mark] + inner + [mark, mark]
    case EmSpan(mark, inner) => [mark] + inner + [mark]
  }

  /** The text inside a span that is parsed in turn. */
  function Inner(span: Span): string
  {
    match span
    case CodeSpan(_) => ""
    case LinkSpan(text, _) => text
    case StrongSpan(_, inner) => inner
    case EmSpan(_, inner) => inner
  }

  /** `span` was read from the start of `s`. */
  predicate ReadFrom(span: Span, s: string)
  {
    |Source(span)| <= |s| && s[..|Source(span)|] == Source(span) && |Inner(span)| < |Source(span)|
  }

  lemma TargetIsRead(s: string)
    requires TargetAt(s).Some?
    ensures var href := TargetAt(s).value;
            |href| + 3 <= |s| && s[..|href| + 3] == "](" + href + ")" && Trim(href) == href
  {
    var href := TargetAt(s).value;
    assert s[2..][..|href|] == href && s[2..][|href|] == ')';
  }

  lemma SafeIsTrimmed(href: string)
    requires Trim(href) == href && SafeHref(href).Some?
    ensures SafeHref(href) == Some(href)
  {
  }

  /** What makes up a link that was found. */
  lemma LinkParts(s: string) returns (text: string, href: string)
    requires LinkAt(s).Some?
    ensures |s| > 1 && s[0] == '[' && text < s[1..] && TargetAt(s[1..][|text|..]) == Some(href)
    ensures LinkAt(s) == Some(LinkSpan(text, href)) && SafeHref(href) == Some(href)
  {
    var k := IndexOfChar(s[1..], ']');
    text := s[1..][..k];
    href := TargetAt(s[1..][k..]).value;
    TargetIsRead(s[1..][k..]);
    SafeIsTrimmed(href);
  }

  lemma PartsAreRead(s: string, k: nat, href: string)
    requires |s| > 1 && s[0] == '[' && k < |s[1..]| && TargetAt(s[1..][k..]) == Some(href)
    ensures ReadFrom(LinkSpan(s[1..][..k], href), s)
  {
    TargetIsRead(s[1..][k..]);
    LinkPieces(s, k, href);
  }

  lemma LinkIsRead(s: string)
    requires LinkAt(s).Some?
    ensures ReadFrom(LinkAt(s).value, s) && SafeHref(LinkAt(s).value.href) == Some(LinkAt(s).value.href)
  {
    var text, href := LinkParts(s);
    PartsAreRead(s, |text|, href);
  }

  lemma LinkPieces(s: string, k: nat, href: string)
    requires |s| > 1 && k < |s[1..]| && s[0] == '[' && |href| + 3 <= |s[1..][k..]| && s[1..][k..][..|href| + 3] == "](" + href + ")"
    ensures |s| >= k + |href| + 4 && s[..k + |href| + 4] == "[" + s[1..][..k] + "](" + href + ")"
  {
    assert s[1 + k..k + |href| + 4] == s[1..][k..][..|href| + 3];
    assert s[..k + |href| + 4] == [s[0]] + s[1..][..k] + s[1 + k..k + |href| + 4];
  }

  lemma StrongIsRead(s: string)
    requires StrongAt(s).Some?
    ensures ReadFrom(StrongAt(s).value, s)
  {
    var j := IndexFrom(s, s[..2], 3).value;
    assert s[j..j + 2] == s[..2];
    assert s[..j + 2] == [s[0], s[0]] + s[2..j] + [s[0], s[0]];
  }

  lemma EmIsRead(s: string)
    requires EmAt(s).Some?
    ensures ReadFrom(EmAt(s).value, s)
  {
    var j := ClosingMark(s, s[0], 2).value;
    assert s[..j + 1] == [s[0]] + s[1..j] + [s[0]];
  }

  lemma SpanIsRead(s: string)
    requires SpanAt(s).Some?
    ensures ReadFrom(SpanAt(s).value, s)
  {
    if CodeAt(s).None? {
      if LinkAt(s).Some? {
        LinkIsRead(s);
      } else if StrongAt(s).Some? {
        StrongIsRead(s);
      } else {
        EmIsRead(s);
      }
    }
  }

  // -------------------------------------------------------------------- the parser

  function Flush(plain: string): seq<Marked>
  {
    if plain == "" then [] else [MText(plain)]
  }

  function NodeOf(span: Span, children: seq<Marked>): Marked
  {
    match span
    case CodeSpan(v) => MCode(v)
    case LinkSpan(_, href) => MLink(href, children)
    case StrongSpan(mark, _) => MStrong(mark, children)
    case EmSpan(mark, _) => MEm(mark, children)
  }

  /** What is read at the start of a text. */
  type SpanReader = string -> Option<Span>

  ghost predicate Sound(read: SpanReader)
  {
    forall s {:trigger read(s)} :: s != "" && read(s).Some? ==> ReadFrom(read(s).value, s)
  }

  lemma SpansAreRead()
    ensures Sound(SpanAt)
  {
    forall s | s != "" && SpanAt(s).Some? ensures ReadFrom(SpanAt(s).value, s) {
      SpanIsRead(s);
    }
  }

  /** Parsing `rest` with `plain` characters collected before it. */
  function ParseFrom(read: SpanReader, plain: string, rest: string): seq<Marked>
    requires Sound(read)
    decreases |rest|
  {
    if rest == "" then Flush(plain)
    else
      match read(rest)
      case None => ParseFrom(read, plain + [rest[0]], rest[1..])
      case Some(span) =>
        Flush(plain) + ([NodeOf(span, ParseFrom(read, "", Inner(span)))] + ParseFrom(read, "", rest[|Source(span)|..]))
  }

  function Parse(input: string): seq<Marked>
  {
    SpansAreRead();
    ParseFrom(SpanAt, "", input)
  }

  /** The loop: a flushed text node, then a node for the span, or one more plain character. */
  method ParseInline(read: SpanReader, input: string) returns (out: seq<Inline>)
    requires Sound(read)
    ensures out == EraseAll(ParseFrom(read, "", input))
    decreases |input|
  {
    out := [];
    var rest, plain := input, "";
    while |rest| > 0
      invariant |rest| <= |input|
      invariant EraseAll(ParseFrom(read, "", input)) == out + EraseAll(ParseFrom(read, plain, rest))
      decreases |rest|
    {
      var span := read(rest);
      if span.Some? {
        EraseSpan(read, plain, rest, span.value);
        var node := ParseSpan(read, span.value, |rest|);
        ghost var later := EraseAll(ParseFrom(read, "", rest[|Source(span.value)|..]));
        Regroup(out, if plain == "" then [] else [Text(plain)], node, later);
        if plain != "" {
          out := out + [Text(plain)];
          plain := "";
        }
        out := out + [node];
        rest := rest[|Source(span.value)|..];
      } else {
        plain := plain + [rest[0]];
        rest := rest[1..];
      }
    }
    if plain != "" {
      out := out + [Text(plain)];
    }
  }

  lemma Regroup(out: seq<Inline>, flushed: seq<Inline>, node: Inline, later: seq<Inline>)
    ensures out + (flushed + ([node] + later)) == out + flushed + [node] + later
    ensures out + [] == out
  {
  }

  method ParseSpan(read: SpanReader, span: Span, bound: nat) returns (node: Inline)
    requires Sound(read) && |Inner(span)| < bound
    ensures node == Erase(NodeOf(span, ParseFrom(read, "", Inner(span))))
    decreases bound, 0
  {
    match span
    case CodeSpan(v) =>
      node := Code(v);
    case LinkSpan(text, href) =>
      var children := ParseInline(read, text);
      node := Link(href, children);
    case StrongSpan(_, inner) =>
      var children := ParseInline(read, inner);
      node := Strong(children);
    case EmSpan(_, inner) =>
      var children := ParseInline(read, inner);
      node := Em(children);
  }

  lemma {:induction false} EraseConcat(a: seq<Marked>, b: seq<Marked>)
    ensures EraseAll(a + b) == EraseAll(a) + EraseAll(b)
  {
    if a == [] {
      assert a + b == b;
    } else {
      assert (a + b)[1..] == a[1..] + b;
      EraseConcat(a[1..], b);
    }
  }

  lemma EraseSpan(read: SpanReader, plain: string, rest: string, span: Span)
    requires Sound(read) && rest != "" && read(rest) == Some(span)
    ensures EraseAll(ParseFrom(read, plain, rest)) ==
            (if plain == "" then [] else [Text(plain)])
            + ([Erase(NodeOf(span, ParseFrom(read, "", Inner(span))))] + EraseAll(ParseFrom(read, "", rest[|Source(span)|..])))
  {
    var node, later := NodeOf(span, ParseFrom(read, "", Inner(span))), ParseFrom(read, "", rest[|Source(span)|..]);
    EraseConcat(Flush(plain), [node] + later);
    assert ([node] + later)[1..] == later;
  }

  // ----------------------------------------------------------------- nothing is lost

  lemma {:induction false} PrintConcat(a: seq<Marked>, b: seq<Marked>)
    ensures PrintAll(a + b) == PrintAll(a) + PrintAll(b)
  {
    if a == [] {
      assert a + b == b;
    } else {
      assert (a + b)[1..] == a[1..] + b;
      PrintConcat(a[1..], b);
    }
  }

  lemma PrintFlush(plain: string)
    ensures PrintAll(Flush(plain)) == plain
  {
    if plain != "" {
      assert [MText(plain)][1..] == [];
    }
  }

  lemma PrintNode(span: Span, children: seq<Marked>)
    requires PrintAll(children) == Inner(span)
    ensures Print(NodeOf(span, children)) == Source(span)
  {
  }

  /** Printing what was parsed, with the delimiters that were read, gives back the input. */
  lemma {:induction false} PrintOfParse(read: SpanReader, plain: string, rest: string)
    requires Sound(read)
    ensures PrintAll(ParseFrom(read, plain, rest)) == plain + rest
    decreases |rest|
  {
    if rest == "" {
      PrintFlush(plain);
    } else if read(rest).None? {
      PrintOfParse(read, plain + [rest[0]], rest[1..]);
      assert plain + [rest[0]] + rest[1..] == plain + rest;
    } else {
      var span := read(rest).value;
      PrintOfParse(read, "", Inner(span));
      PrintOfParse(read, "", rest[|Source(span)|..]);
      PrintBack(plain, span, rest, ParseFrom(read, "", Inner(span)), ParseFrom(read, "", rest[|Source(span)|..]));
    }
  }

  lemma PrintBack(plain: string, span: Span, rest: string, children: seq<Marked>, later: seq<Marked>)
    requires ReadFrom(span, rest)
    requires PrintAll(children) == "" + Inner(span) && PrintAll(later) == "" + rest[|Source(span)|..]
    ensures PrintAll(Flush(plain) + ([NodeOf(span, children)] + later)) == plain + rest
  {
    NothingBefore(Inner(span));
    NothingBefore(rest[|Source(span)|..]);
    PrintNode(span, children);
    PrintSpan(plain, span, children, later);
  }

  lemma NothingBefore(s: string)
    ensures "" + s == s
  {
  }

  lemma PrintSpan(plain: string, span: Span, children: seq<Marked>, later: seq<Marked>)
    ensures PrintAll(Flush(plain) + ([NodeOf(span, children)] + later)) == plain + (Print(NodeOf(span, children)) + PrintAll(later))
  {
    PrintFlush(plain);
    PrintConcat(Flush(plain), [NodeOf(span, children)] + later);
    assert ([NodeOf(span, children)] + later)[1..] == later;
  }

  /** For every input the tree can be printed, choosing a delimiter per node, so that nothing is lost. */
  lemma NothingIsLost(input: string)
    ensures PrintAll(Parse(input)) == input
  {
    SpansAreRead();
    PrintOfParse(SpanAt, "", input);
    assert "" + input == input;
  }

  // -------------------------------------------------------------- every link is safe

  predicate NodeIsSafe(m: Marked)
    decreases m
  {
    match m
    case MText(_) => true
    case MCode(_) => true
    case MStrong(_, children) => LinksAreSafe(children)
    case MEm(_, children) => LinksAreSafe(children)
    case MLink(href, children) => SafeHref(href) == Some(href) && LinksAreSafe(children)
  }

  /** Every link, at any depth, has an address that is accepted. */
  predicate LinksAreSafe(ms: seq<Marked>)
    decreases ms
  {
    ms == [] || (NodeIsSafe(ms[0]) && LinksAreSafe(ms[1..]))
  }

  ghost predicate ReadsSafeLinks(read: SpanReader)
  {
    forall s {:trigger read(s)} ::
      s != "" && read(s).Some? && read(s).value.LinkSpan? ==> SafeHref(read(s).value.href) == Some(read(s).value.href)
  }

  lemma {:induction false} SafeConcat(a: seq<Marked>, b: seq<Marked>)
    ensures LinksAreSafe(a + b) <==> LinksAreSafe(a) && LinksAreSafe(b)
  {
    if a == [] {
      assert a + b == b;
    } else {
      assert (a + b)[1..] == a[1..] + b;
      SafeConcat(a[1..], b);
    }
  }

  lemma SafeSpan(plain: string, span: Span, children: seq<Marked>, later: seq<Marked>)
    requires span.LinkSpan? ==> SafeHref(span.href) == Some(span.href)
    requires LinksAreSafe(children) && LinksAreSafe(later)
    ensures LinksAreSafe(Flush(plain) + ([NodeOf(span, children)] + later))
  {
    FlushIsSafe(plain);
    SafeConcat(Flush(plain), [NodeOf(span, children)] + later);
    assert ([NodeOf(span, children)] + later)[1..] == later;
  }

  lemma FlushIsSafe(plain: string)
    ensures LinksAreSafe(Flush(plain))
  {
    OneIsSafe(MText(plain));
  }

  lemma OneIsSafe(m: Marked)
    requires NodeIsSafe(m)
    ensures LinksAreSafe([m])
  {
    assert [m][1..] == [];
  }

  lemma {:induction false} ParsedLinksAreSafe(read: SpanReader, plain: string, rest: string)
    requires Sound(read) && ReadsSafeLinks(read)
    ensures LinksAreSafe(ParseFrom(read, plain, rest))
    decreases |rest|
  {
    if rest == "" {
      FlushIsSafe(plain);
    } else if read(rest).None? {
      ParsedLinksAreSafe(read, plain + [rest[0]], rest[1..]);
    } else {
      var span := read(rest).value;
      ParsedLinksAreSafe(read, "", Inner(span));
      ParsedLinksAreSafe(read, "", rest[|Source(span)|..]);
      SafeSpan(plain, span, ParseFrom(read, "", Inner(span)), ParseFrom(read, "", rest[|Source(span)|..]));
    }
  }

  /**
   * Whatever is parsed, every link carries an address the filter accepts as it
   * stands: a web or mail scheme, or a text that starts with one slash.
   */
  lemma EveryLinkIsSafe(input: string)
    ensures LinksAreSafe(Parse(input))
  {
    SpansAreRead();
    forall s | s != "" && SpanAt(s).Some? && SpanAt(s).value.LinkSpan?
      ensures SafeHref(SpanAt(s).value.href) == Some(SpanAt(s).value.href)
    {
      LinkIsRead(s);
    }
    ParsedLinksAreSafe(SpanAt, "", input);
  }

  /** What the code makes of one piece of text. */
  function Inlines(input: string): seq<Inline>
  {
    EraseAll(Parse(input))
  }

  predicate ShownNodeIsSafe(node: Inline)
    decreases node
  {
    match node
    case Text(_) => true
    case Code(_) => true
    case Strong(children) => ShownLinksAreSafe(children)
    case Em(children) => ShownLinksAreSafe(children)
    case Link(href, children) => SafeHref(href) == Some(href) && ShownLinksAreSafe(children)
  }

  predicate ShownLinksAreSafe(nodes: seq<Inline>)
    decreases nodes
  {
    nodes == [] || (ShownNodeIsSafe(nodes[0]) && ShownLinksAreSafe(nodes[1..]))
  }

  lemma {:induction false} ErasingKeepsNode(m: Marked)
    requires NodeIsSafe(m)
    ensures ShownNodeIsSafe(Erase(m))
    decreases m
  {
    match m {
      case MText(_) =>
      case MCode(_) =>
      case MStrong(_, children) => ErasingKeepsLinks(children);
      case MEm(_, children) => ErasingKeepsLinks(children);
      case MLink(_, children) => ErasingKeepsLinks(children);
    }
  }

  lemma {:induction false} ErasingKeepsLinks(ms: seq<Marked>)
    requires LinksAreSafe(ms)
    ensures ShownLinksAreSafe(EraseAll(ms))
    decreases ms
  {
    if ms != [] {
      ErasingKeepsNode(ms[0]);
      ErasingKeepsLinks(ms[1..]);
      assert EraseAll(ms)[1..] == EraseAll(ms[1..]);
    }
  }

  lemma InlinesAreSafe(input: string)
    ensures ShownLinksAreSafe(Inlines(input))
  {
    EveryLinkIsSafe(input);
    ErasingKeepsLinks(Parse(input));
  }

  // --------------------------------------------------------- printed trees read back

  /** A character that starts no span. */
  predicate Ordinary(c: char)
  {
    c != '`' && c != '[' && !IsMark(c)
  }

  /** Nothing inside the span would end it early or start another kind of span. */
  predicate SpanOk(span: Span)
  {
    match span
    case CodeSpan(v) => v != "" && '`' !in v
    case LinkSpan(text, href) =>
      ']' !in text && href != "" && (forall i | 0 <= i < |href| :: href[i] != ')' && !IsSpace(href[i])) && SafeHref(href).Some?
    case StrongSpan(mark, inner) =>
      IsMark(mark) && inner != "" && IndexFrom(inner + [mark, mark], [mark, mark], 1) == Some(|inner|)
    case EmSpan(mark, inner) =>
      IsMark(mark) && inner != "" && inner[0] != mark && !IsSpace(inner[0]) && !IsSpace(inner[|inner| - 1])
      && forall j | 1 <= j < |inner| :: !(inner[j] == mark && !IsSpace(inner[j - 1]))
  }

  lemma CodeReadsBack(v: string, tail: string)
    requires SpanOk(CodeSpan(v))
    ensures SpanAt(Source(CodeSpan(v)) + tail) == Some(CodeSpan(v))
  {
    var s := Source(CodeSpan(v)) + tail;
    assert s[1..] == v + "`" + tail;
    FirstChar(v, tail, '`');
  }

  lemma {:induction false} HrefRunOf(href: string, tail: string)
    requires forall i | 0 <= i < |href| :: href[i] != ')' && !IsSpace(href[i])
    ensures HrefRun(href + ")" + tail) == |href|
  {
    var s := href + ")" + tail;
    assert forall i | 0 <= i < |href| :: s[i] == href[i];
    assert s[|href|] == ')';
  }

  lemma TargetReadsBack(href: string, tail: string)
    requires href != "" && forall i | 0 <= i < |href| :: href[i] != ')' && !IsSpace(href[i])
    ensures TargetAt("](" + href + ")" + tail) == Some(href)
  {
    var s := "](" + href + ")" + tail;
    assert s[2..] == href + ")" + tail;
    HrefRunOf(href, tail);
    assert s[2..][..|href|] == href && s[2..][|href|] == ')';
  }

  lemma LabelEnds(s: string, text: string, rest: string)
    requires s == "[" + text + rest && ']' !in text && rest != "" && rest[0] == ']'
    ensures s[0] == '[' && ']' in s[1..] && IndexOfChar(s[1..], ']') == |text|
    ensures s[1..][..|text|] == text && s[1..][|text|..] == rest
  {
    assert s[1..] == text + "]" + rest[1..];
    FirstChar(text, rest[1..], ']');
  }

  /** A label, a target and an accepted address make a link. */
  lemma LinkAssembles(s: string, text: string, rest: string, href: string)
    requires s != "" && s[0] == '[' && ']' in s[1..] && IndexOfChar(s[1..], ']') == |text|
    requires s[1..][..|text|] == text && s[1..][|text|..] == rest && TargetAt(rest) == Some(href) && SafeHref(href) == Some(href)
    ensures SpanAt(s) == Some(LinkSpan(text, href))
  {
    assert CodeAt(s).None?;
    assert LinkAt(s) == Some(LinkSpan(text, href));
  }

  lemma AddressIsTrimmed(href: string)
    requires href != "" && (forall i | 0 <= i < |href| :: !IsSpace(href[i])) && SafeHref(href).Some?
    ensures SafeHref(href) == Some(href)
  {
    TrimKeeps(href);
    SafeIsTrimmed(href);
  }

  lemma LinkReadsBack(text: string, href: string, tail: string)
    requires SpanOk(LinkSpan(text, href))
    ensures SpanAt("[" + text + "](" + href + ")" + tail) == Some(LinkSpan(text, href))
  {
    var s, rest := "[" + text + "](" + href + ")" + tail, "](" + href + ")" + tail;
    LabelEnds(s, text, rest);
    TargetReadsBack(href, tail);
    AddressIsTrimmed(href);
    LinkAssembles(s, text, rest, href);
  }

  /** The first occurrence is no later in a longer text, and no earlier. */
  lemma FirstStays(s: string, pattern: string, from: nat, tail: string)
    requires IndexFrom(s, pattern, from).Some?
    ensures IndexFrom(s + tail, pattern, from) == IndexFrom(s, pattern, from)
  {
    var i, t := IndexFrom(s, pattern, from).value, s + tail;
    assert t[i..i + |pattern|] == s[i..i + |pattern|];
    assert OccursAt(t, pattern, i);
    var j := IndexFrom(t, pattern, from).value;
    assert j <= i;
    assert s[j..j + |pattern|] == t[j..j + |pattern|];
    assert OccursAt(s, pattern, j);
  }

  lemma OccursShifted(head: string, s: string, pattern: string, k: nat)
    ensures OccursAt(head + s, pattern, |head| + k) <==> OccursAt(s, pattern, k)
  {
    if k <= |s| - |pattern| {
      assert (head + s)[|head| + k..|head| + k + |pattern|] == s[k..k + |pattern|];
    }
  }

  lemma FirstShifts(s: string, pattern: string, from: nat, head: string)
    requires IndexFrom(s, pattern, from).Some?
    ensures IndexFrom(head + s, pattern, |head| + from) == Some(|head| + IndexFrom(s, pattern, from).value)
  {
    var i, t := IndexFrom(s, pattern, from).value, head + s;
    OccursShifted(head, s, pattern, i);
    var j := IndexFrom(t, pattern, |head| + from).value;
    OccursShifted(head, s, pattern, j - |head|);
  }

  lemma MarksCloseBehind(marks: string, inner: string, tail: string)
    requires |marks| == 2 && IndexFrom(inner + marks, marks, 1) == Some(|inner|)
    ensures IndexFrom(marks + inner + marks + tail, marks, 3) == Some(|inner| + 2)
  {
    FirstStays(inner + marks, marks, 1, tail);
    FirstShifts(inner + marks + tail, marks, 1, marks);
    assert marks + inner + marks + tail == marks + (inner + marks + tail);
  }

  lemma StrongReadsBack(mark: char, inner: string, tail: string)
    requires SpanOk(StrongSpan(mark, inner))
    ensures SpanAt(Source(StrongSpan(mark, inner)) + tail) == Some(StrongSpan(mark, inner))
  {
    var marks := [mark, mark];
    var s := marks + inner + marks + tail;
    MarksCloseBehind(marks, inner, tail);
    assert s[..2] == marks && s[2..|inner| + 2] == inner;
    StrongFound(s, marks, |inner| + 2);
  }

  lemma StrongFound(s: string, marks: string, j: nat)
    requires |s| >= 2 && IsMark(s[0]) && s[..2] == marks && s[1] == s[0] && IndexFrom(s, marks, 3) == Some(j)
    ensures SpanAt(s) == Some(StrongSpan(s[0], s[2..j]))
  {
  }

  /** The mark behind `inner` is the first that can close. */
  lemma ClosesBehind(mark: char, inner: string, rest: string)
    requires SpanOk(EmSpan(mark, inner))
    ensures ClosingMark([mark] + inner + [mark] + rest, mark, 2) == Some(|inner| + 1)
  {
    var s, n := [mark] + inner + [mark] + rest, |inner|;
    assert s[n] == inner[n - 1] && s[n + 1] == mark;
    forall i | 2 <= i < n + 1 ensures !(s[i] == mark && !IsSpace(s[i - 1])) {
      assert s[i] == inner[i - 1];
      assert s[i - 1] == inner[i - 2];
    }
  }

  lemma EmReadsBack(mark: char, inner: string, tail: string)
    requires SpanOk(EmSpan(mark, inner))
    ensures SpanAt(Source(EmSpan(mark, inner)) + tail) == Some(EmSpan(mark, inner))
  {
    var s := Source(EmSpan(mark, inner)) + tail;
    ClosesBehind(mark, inner, tail);
    assert s[1] == inner[0];
    assert s[1..|inner| + 1] == inner;
  }

  lemma SpanReadsBack(span: Span, tail: string)
    requires SpanOk(span)
    ensures SpanAt(Source(span) + tail) == Some(span)
  {
    match span
    case CodeSpan(v) => CodeReadsBack(v, tail);
    case LinkSpan(text, href) => LinkReadsBack(text, href, tail);
    case StrongSpan(mark, inner) => StrongReadsBack(mark, inner, tail);
    case EmSpan(mark, inner) => EmReadsBack(mark, inner, tail);
  }

  /** The span a node prints as; text nodes are none. */
  function SpanOf(m: Marked): Option<Span>
  {
    match m
    case MText(_) => None
    case MCode(v) => Some(CodeSpan(v))
    case MStrong(mark, children) => Some(StrongSpan(mark, PrintAll(children)))
    case MEm(mark, children) => Some(EmSpan(mark, PrintAll(children)))
    case MLink(href, children) => Some(LinkSpan(PrintAll(children), href))
  }

  function ChildrenOf(m: Marked): seq<Marked>
  {
    if m.MStrong? || m.MEm? || m.MLink? then m.children else []
  }

  /** Text nodes hold ordinary characters and never stand side by side; every other node can be read back. */
  predicate WellFormed(ms: seq<Marked>, afterText: bool)
    decreases ms, 1
  {
    ms == [] ||
    if ms[0].MText? then
      !afterText && ms[0].value != "" && (forall i | 0 <= i < |ms[0].value| :: Ordinary(ms[0].value[i])) && WellFormed(ms[1..], true)
    else NodeOk(ms[0]) && WellFormed(ms[1..], false)
  }

  predicate NodeOk(m: Marked)
    decreases m, 0
  {
    match m
    case MText(_) => true
    case MCode(_) => SpanOk(SpanOf(m).value)
    case MStrong(_, children) => SpanOk(SpanOf(m).value) && WellFormed(children, false)
    case MEm(_, children) => SpanOk(SpanOf(m).value) && WellFormed(children, false)
    case MLink(_, children) => SpanOk(SpanOf(m).value) && WellFormed(children, false)
  }

  ghost predicate ReadsBack(read: SpanReader)
  {
    && (forall span, tail {:trigger read(Source(span) + tail)} :: SpanOk(span) ==> read(Source(span) + tail) == Some(span))
    && (forall s {:trigger read(s)} :: s != "" && Ordinary(s[0]) ==> read(s).None?)
  }

  lemma {:induction false} CollectsText(read: SpanReader, plain: string, v: string, rest: string)
    requires Sound(read) && ReadsBack(read) && forall i | 0 <= i < |v| :: Ordinary(v[i])
    ensures ParseFrom(read, plain, v + rest) == ParseFrom(read, plain + v, rest)
    decreases |v|
  {
    if v == "" {
      assert v + rest == rest && plain + v == plain;
    } else {
      assert (v + rest)[1..] == v[1..] + rest;
      assert plain + v == (plain + [v[0]]) + v[1..];
      CollectsText(read, plain + [v[0]], v[1..], rest);
    }
  }

  /** A node that can be read back is read back, whatever is printed behind it. */
  lemma NodeReadsBack(read: SpanReader, plain: string, m: Marked, later: seq<Marked>)
    requires Sound(read) && ReadsBack(read) && !m.MText? && NodeOk(m)
    requires ParseFrom(read, "", PrintAll(ChildrenOf(m))) == ChildrenOf(m)
    requires ParseFrom(read, "", PrintAll(later)) == later
    ensures ParseFrom(read, plain, Print(m) + PrintAll(later)) == Flush(plain) + ([m] + later)
  {
    var span, rest := SpanOf(m).value, Print(m) + PrintAll(later);
    assert Source(span) == Print(m);
    assert read(Source(span) + PrintAll(later)) == Some(span);
    assert rest[|Source(span)|..] == PrintAll(later);
    assert span.CodeSpan? || Inner(span) == PrintAll(ChildrenOf(m));
    assert NodeOf(span, ParseFrom(read, "", Inner(span))) == m;
  }

  lemma {:induction false} ParseOfPrintFrom(read: SpanReader, plain: string, ms: seq<Marked>)
    requires Sound(read) && ReadsBack(read) && WellFormed(ms, plain != "")
    ensures ParseFrom(read, plain, PrintAll(ms)) == Flush(plain) + ms
    decreases ms, 1
  {
    if ms == [] {
      assert Flush(plain) + [] == Flush(plain);
    } else if ms[0].MText? {
      var v := ms[0].value;
      CollectsText(read, "", v, PrintAll(ms[1..]));
      ParseOfPrintFrom(read, v, ms[1..]);
      assert "" + v == v;
      assert ms == [ms[0]] + ms[1..];
    } else {
      ParseOfPrintFrom(read, "", ms[1..]);
      ChildrenReadBack(read, ms[0]);
      assert Flush("") + ms[1..] == ms[1..];
      NodeReadsBack(read, plain, ms[0], ms[1..]);
      assert ms == [ms[0]] + ms[1..];
    }
  }

  lemma ChildrenReadBack(read: SpanReader, m: Marked)
    requires Sound(read) && ReadsBack(read) && !m.MText? && NodeOk(m)
    ensures ParseFrom(read, "", PrintAll(ChildrenOf(m))) == ChildrenOf(m)
    decreases m, 0
  {
    match m
    case MCode(_) =>
    case MStrong(_, children) =>
      ParseOfPrintFrom(read, "", children);
      assert Flush("") + children == children;
    case MEm(_, children) =>
      ParseOfPrintFrom(read, "", children);
      assert Flush("") + children == children;
    case MLink(_, children) =>
      ParseOfPrintFrom(read, "", children);
      assert Flush("") + children == children;
  }

  /** A well-formed tree, printed and parsed, is itself. */
  lemma ParseOfPrint(ms: seq<Marked>)
    requires WellFormed(ms, false)
    ensures Parse(PrintAll(ms)) == ms
  {
    SpansAreRead();
    forall span, tail | SpanOk(span) ensures SpanAt(Source(span) + tail) == Some(span) {
      SpanReadsBack(span, tail);
    }
    assert ReadsBack(SpanAt);
    ParseOfPrintFrom(SpanAt, "", ms);
    assert Flush("") + ms == ms;
  }

  // ------------------------------------------------------------ what each span must look like

  /** The text starts with these characters, in lower or upper case. */
  predicate StartsEitherCase(s: string, lower: string, upper: string)
    requires |lower| == |upper|
  {
    |lower| <= |s| && forall i | 0 <= i < |lower| :: s[i] == lower[i] || s[i] == upper[i]
  }

  predicate WebOrMail(s: string)
  {
    StartsEitherCase(s, "http:", "HTTP:") || StartsEitherCase(s, "https:", "HTTPS:") || StartsEitherCase(s, "mailto:", "MAILTO:")
  }

  lemma SchemesAreThese(s: string)
    ensures HasScheme(s) <==> WebOrMail(s)
  {
    EitherCase(s, "http:", "HTTP:");
    EitherCase(s, "https:", "HTTPS:");
    EitherCase(s, "mailto:", "MAILTO:");
  }

  lemma EitherCase(s: string, lower: string, upper: string)
    requires |lower| == |upper|
    requires forall i | 0 <= i < |lower| ::
      if 'a' <= lower[i] <= 'z' then upper[i] == lower[i] - 'a' + 'A' else upper[i] == lower[i] && !('A' <= lower[i] <= 'Z')
    ensures StartsWithAnyCase(s, lower) <==> StartsEitherCase(s, lower, upper)
  {
    if |lower| <= |s| {
      forall i | 0 <= i < |lower| ensures LowerAscii(s[i]) == lower[i] <==> s[i] == lower[i] || s[i] == upper[i] {
      }
    }
  }

  /** An address is accepted, trimmed, if it names web or mail and holds no space, angle or quote, or if it is a path of this site. */
  lemma SafeHrefExactly(href: string)
    ensures var t := Trim(href);
            SafeHref(href) ==
            if WebOrMail(t) && (forall c | c in t :: !IsSpace(c) && c !in "<>\"") then Some(t)
            else if t != "" && t[0] == '/' && (|t| == 1 || t[1] != '/') then Some(t)
            else None
  {
    SchemesAreThese(Trim(href));
    PlainExactly(Trim(href));
  }

  lemma PlainExactly(s: string)
    ensures PlainAddress(s) <==> forall c | c in s :: !IsSpace(c) && c !in "<>\""
  {
    assert forall c :: c in "<>\"" <==> c == '<' || c == '>' || c == '"';
    if PlainAddress(s) {
      forall c | c in s ensures !IsSpace(c) && c !in "<>\"" {
        var i :| 0 <= i < |s| && s[i] == c;
      }
    } else {
      var i :| 0 <= i < |s| && !(!IsSpace(s[i]) && s[i] != '<' && s[i] != '>' && s[i] != '"');
      assert s[i] in s;
    }
  }

  /** What may stand between the marks of a span, up to where it closes first. */
  ghost predicate MayStand(span: Span)
  {
    match span
    case CodeSpan(v) => v != "" && '`' !in v
    case LinkSpan(text, href) => ']' !in text && href != "" && (forall c | c in href :: c != ')' && !IsSpace(c)) && SafeHref(href) == Some(href)
    case StrongSpan(mark, inner) => mark in "*_" && inner != "" && forall j | 1 <= j < |inner| :: !(inner[j] == mark && (inner + [mark])[j + 1] == mark)
    case EmSpan(mark, inner) =>
      && mark in "*_" && inner != "" && !IsSpace(inner[0]) && !IsSpace(inner[|inner| - 1])
      && forall j | 1 <= j < |inner| :: !(inner[j] == mark && !IsSpace(inner[j - 1]))
  }

  ghost predicate Opens(span: Span, s: string)
  {
    Source(span) <= s && MayStand(span)
  }

  lemma CodeAtExactly(s: string, span: Span)
    ensures CodeAt(s) == Some(span) <==> span.CodeSpan? && Opens(span, s)
  {
    if span.CodeSpan? && Opens(span, s) {
      CodeOpens(s, span.value);
    }
    if CodeAt(s) == Some(span) {
      CodeStands(s, span.value);
    }
  }

  lemma CodeOpens(s: string, v: string)
    requires Opens(CodeSpan(v), s)
    ensures CodeAt(s) == Some(CodeSpan(v))
  {
    var tail := s[|v| + 2..];
    assert s == "`" + v + "`" + tail;
    assert s[1..] == v + "`" + tail;
    FirstChar(v, tail, '`');
  }

  lemma CodeStands(s: string, v: string)
    requires CodeAt(s) == Some(CodeSpan(v))
    ensures Opens(CodeSpan(v), s)
  {
    var tail := s[1..][|v| + 1..];
    assert s[1..] == v + "`" + tail;
    assert s == "`" + v + "`" + tail;
  }

  lemma LinkOpens(s: string, text: string, href: string)
    requires Opens(LinkSpan(text, href), s)
    ensures LinkAt(s) == Some(LinkSpan(text, href))
  {
    var source := Source(LinkSpan(text, href));
    var tail := s[|source|..];
    assert s == source + tail;
    assert s == "[" + text + "](" + href + ")" + tail;
    assert forall i | 0 <= i < |href| :: href[i] in href;
    LinkReadsBack(text, href, tail);
    OnlyLinksAreLinks(s, text, href);
  }

  lemma OnlyLinksAreLinks(s: string, text: string, href: string)
    requires SpanAt(s) == Some(LinkSpan(text, href))
    ensures LinkAt(s) == Some(LinkSpan(text, href))
  {
  }

  lemma LinkAtExactly(s: string, span: Span)
    ensures LinkAt(s) == Some(span) <==> span.LinkSpan? && Opens(span, s)
  {
    if span.LinkSpan? && Opens(span, s) {
      LinkOpens(s, span.label_, span.href);
    }
    if LinkAt(s) == Some(span) {
      LinkIsRead(s);
      LinkStands(s, span);
    }
  }

  lemma LinkStands(s: string, span: Span)
    requires LinkAt(s) == Some(span)
    ensures MayStand(span)
  {
    var text, href := LinkParts(s);
    var rest := s[1..][|text|..];
    TargetIsRead(rest);
    assert href == rest[2..][..|href|] && forall i | 0 <= i < |href| :: rest[2..][i] == href[i];
  }

  lemma StrongAtExactly(s: string, span: Span)
    ensures StrongAt(s) == Some(span) <==> span.StrongSpan? && Opens(span, s)
  {
    if span.StrongSpan? && Opens(span, s) {
      StrongOpens(s, span.mark, span.inner);
    }
    if StrongAt(s) == Some(span) {
      StrongIsRead(s);
      StrongStands(s, span);
    }
  }

  lemma StrongStands(s: string, span: Span)
    requires StrongAt(s) == Some(span)
    ensures MayStand(span)
  {
    var mark, j := s[0], IndexFrom(s, s[..2], 3).value;
    forall i | 1 <= i < |span.inner| ensures !(span.inner[i] == mark && (span.inner + [mark])[i + 1] == mark) {
      assert !OccursAt(s, s[..2], i + 2);
      assert s[j] == s[j..j + 2][0] == mark;
      assert s[i + 2] == span.inner[i] && s[i + 3] == (span.inner + [mark])[i + 1];
      assert s[i + 2..i + 4] == [s[i + 2], s[i + 3]] && s[..2] == [mark, mark];
    }
  }

  lemma StrongOpens(s: string, mark: char, inner: string)
    requires Opens(StrongSpan(mark, inner), s)
    ensures StrongAt(s) == Some(StrongSpan(mark, inner))
  {
    var marks, j := [mark, mark], |inner| + 2;
    var source := Source(StrongSpan(mark, inner));
    assert source == marks + inner + marks;
    assert s[..|source|] == source;
    assert s[..2] == marks && s[2..j] == inner && s[j..j + 2] == marks;
    assert OccursAt(s, marks, j);
    forall i | 3 <= i < j ensures !OccursAt(s, marks, i) {
      assert inner[i - 2] == s[i] && (inner + [mark])[i - 1] == s[i + 1];
      assert s[i..i + 2] == [s[i], s[i + 1]];
    }
  }

  lemma EmAtExactly(s: string, span: Span)
    ensures EmAt(s) == Some(span) <==> span.EmSpan? && Opens(span, s)
  {
    if span.EmSpan? && Opens(span, s) {
      EmOpens(s, span.mark, span.inner);
    }
    if EmAt(s) == Some(span) {
      EmIsRead(s);
      EmStands(s, span);
    }
  }

  lemma EmStands(s: string, span: Span)
    requires EmAt(s) == Some(span)
    ensures MayStand(span)
  {
    var mark, j := s[0], ClosingMark(s, s[0], 2).value;
    var inner := s[1..j];
    assert span == EmSpan(mark, inner);
    assert inner[0] == s[1] && inner[|inner| - 1] == s[j - 1];
    forall i | 1 <= i < |inner| ensures !(inner[i] == mark && !IsSpace(inner[i - 1])) {
      assert inner[i] == s[i + 1] && inner[i - 1] == s[i];
    }
  }

  lemma EmOpens(s: string, mark: char, inner: string)
    requires Opens(EmSpan(mark, inner), s)
    ensures EmAt(s) == Some(EmSpan(mark, inner))
  {
    var j := |inner| + 1;
    var source := Source(EmSpan(mark, inner));
    assert source == [mark] + inner + [mark] && s[..|source|] == source;
    assert s[0] == mark && s[j] == mark && s[1..j] == inner;
    assert forall i | 1 <= i < j :: s[i] == inner[i - 1];
  }

  /** The kinds begin differently, but for strong and emphasis. */
  lemma OneOfFour(s: string, span: Span)
    ensures SpanAt(s) == Some(span) <==>
              CodeAt(s) == Some(span) || LinkAt(s) == Some(span) || StrongAt(s) == Some(span) || (EmAt(s) == Some(span) && StrongAt(s).None?)
  {
    FirstCharOfEach(s);
  }

  lemma FirstCharOfEach(s: string)
    ensures CodeAt(s).Some? ==> s != "" && s[0] == '`'
    ensures LinkAt(s).Some? ==> s != "" && s[0] == '['
    ensures StrongAt(s).Some? || EmAt(s).Some? ==> s != "" && IsMark(s[0])
  {
  }

  /**
   * A span is read at the start of a text exactly if the text starts with its
   * source, written between the right marks and closed where it first can be; and
   * single marks are read only where doubled ones are not.
   */
  lemma SpanAtExactly(s: string, span: Span)
    ensures SpanAt(s) == Some(span) <==> Opens(span, s) && (span.EmSpan? ==> forall other: Span | other.StrongSpan? :: !Opens(other, s))
  {
    OneOfFour(s, span);
    CodeAtExactly(s, span);
    LinkAtExactly(s, span);
    StrongAtExactly(s, span);
    EmAtExactly(s, span);
    assert StrongAt(s).Some? ==> StrongAt(s).value.StrongSpan?;
    forall other: Span ensures other.StrongSpan? && Opens(other, s) <==> StrongAt(s) == Some(other) {
      StrongAtExactly(s, other);
    }
  }

  // ------------------------------------------------------------------- how a text is read

  /** No span is read at any of the first `k` positions. */
  ghost predicate NoSpanBefore(read: SpanReader, s: string, k: int)
  {
    0 <= k <= |s| && forall i | 0 <= i < k :: read(s[i..]).None?
  }

  lemma {:induction false} PlainUpTo(read: SpanReader, plain: string, s: string, k: nat)
    requires NoSpanBefore(read, s, k) && Sound(read)
    ensures ParseFrom(read, plain, s) == ParseFrom(read, plain + s[..k], s[k..])
    decreases k
  {
    if k == 0 {
      assert plain + s[..0] == plain && s[0..] == s;
    } else {
      assert s[0..] == s;
      forall i | 0 <= i < k - 1 ensures read(s[1..][i..]).None? {
        assert s[1..][i..] == s[i + 1..];
      }
      PlainUpTo(read, plain + [s[0]], s[1..], k - 1);
      assert plain + [s[0]] + s[1..][..k - 1] == plain + s[..k] && s[1..][k - 1..] == s[k..];
    }
  }

  /** Reading with any sound reader: the text before the first span, the span with what is inside it, and what comes after. */
  lemma ReadsUpToSpan(read: SpanReader, s: string, k: nat)
    requires NoSpanBefore(read, s, k) && Sound(read)
    ensures k == |s| ==> ParseFrom(read, "", s) == Flush(s)
    ensures k < |s| && read(s[k..]).Some? ==>
              var span := read(s[k..]).value;
              && |Source(span)| <= |s[k..]|
              && ParseFrom(read, "", s) == Flush(s[..k]) + ([NodeOf(span, ParseFrom(read, "", Inner(span)))] + ParseFrom(read, "", s[k..][|Source(span)|..]))
  {
    PlainUpTo(read, "", s, k);
    assert "" + s[..k] == s[..k];
    if k == |s| {
      assert s[..k] == s;
    }
  }

  /** A text without a span is one piece of text. Else what stands before the first span, the span, and the rest read by itself. */
  lemma ParseReads(s: string, k: nat)
    requires NoSpanBefore(SpanAt, s, k)
    ensures k == |s| ==> Parse(s) == if s == "" then [] else [MText(s)]
    ensures k < |s| && SpanAt(s[k..]).Some? ==>
              var span := SpanAt(s[k..]).value;
              && |Source(span)| <= |s[k..]|
              && Parse(s) == (if s[..k] == "" then [] else [MText(s[..k])]) + ([NodeOf(span, Parse(Inner(span)))] + Parse(s[k..][|Source(span)|..]))
  {
    SpansAreRead();
    ReadsUpToSpan(SpanAt, s, k);
  }

  /** What is shown of a span: code as it is, an accepted link, strong for doubled marks, emphasis for single ones. */
  lemma SpanIsShown(span: Span, children: seq<Marked>)
    ensures Erase(NodeOf(span, children)) ==
              match span
              case CodeSpan(v) => Code(v)
              case LinkSpan(_, href) => Link(href, EraseAll(children))
              case StrongSpan(_, _) => Strong(EraseAll(children))
              case EmSpan(_, _) => Em(EraseAll(children))
    ensures forall v :: Erase(MText(v)) == Text(v)
    ensures forall i | 0 <= i < |children| :: EraseAll(children)[i] == Erase(children[i])
  {
    EraseAt(children);
  }

  lemma {:induction false} EraseAt(children: seq<Marked>)
    ensures forall i | 0 <= i < |children| :: EraseAll(children)[i] == Erase(children[i])
  {
    if children != [] {
      EraseAt(children[1..]);
    }
  }

  // --------------------------------------------------------------- the links of a tree

  /** Somewhere among these nodes, at any depth, stands a link to this address. */
  predicate LinksTo(nodes: seq<Inline>, href: string)
    decreases nodes
  {
    nodes != [] && (NodeLinksTo(nodes[0], href) || LinksTo(nodes[1..], href))
  }

  predicate NodeLinksTo(node: Inline, href: string)
    decreases node
  {
    match node
    case Text(_) => false
    case Code(_) => false
    case Strong(children) => LinksTo(children, href)
    case Em(children) => LinksTo(children, href)
    case Link(own, children) => own == href || LinksTo(children, href)
  }

  /** Safe nodes link to accepted addresses only, at every depth. */
  lemma {:induction false} SafeNodesLinkSafely(nodes: seq<Inline>, href: string)
    requires ShownLinksAreSafe(nodes) && LinksTo(nodes, href)
    ensures SafeHref(href) == Some(href)
    decreases nodes
  {
    if NodeLinksTo(nodes[0], href) {
      SafeNodeLinksSafely(nodes[0], href);
    } else {
      SafeNodesLinkSafely(nodes[1..], href);
    }
  }

  lemma {:induction false} SafeNodeLinksSafely(node: Inline, href: string)
    requires ShownNodeIsSafe(node) && NodeLinksTo(node, href)
    ensures SafeHref(href) == Some(href)
    decreases node
  {
    match node {
      case Strong(children) => SafeNodesLinkSafely(children, href);
      case Em(children) => SafeNodesLinkSafely(children, href);
      case Link(own, children) =>
        if own != href {
          SafeNodesLinkSafely(children, href);
        }
    }
  }

  /** Whatever is parsed, every address that is linked to is one `safeHref` accepts as it stands. */
  lemma EveryAddressIsSafe(input: string, href: string)
    requires LinksTo(Inlines(input), href)
    ensures SafeHref(href) == Some(href)
  {
    InlinesAreSafe(input);
    SafeNodesLinkSafely(Inlines(input), href);
  }
}
