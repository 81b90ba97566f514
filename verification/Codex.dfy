/**
 * The managed block in Codex's configuration file: enabling writes it below the
 * user's text and keeps a rollback copy, disabling restores the copy, or cuts
 * the block out when there is none.
 */
module Codex {
  import opened Wrappers
  import opened Text

  const BEGIN_MARKER := "# >>> USAGE Miner (managed) >>>"
  const END_MARKER := "# <<< USAGE Miner (managed) <<<"

  datatype Route = Route(title: string, url: string)

  // -------------------------------------------------------------- the managed block

  const COMMENT := "# Written by USAGE Miner. " + "Remove with: usage disable codex\n"
  const PROVIDER := "model_provider = \"usage\"\n\n"
  const TABLE := "[model_providers.usage]\n"
  const NAME := "name = \"USAGE ("
  const VERSION := "/v1\"\n"
  const BEFORE_TITLE := COMMENT + PROVIDER + TABLE + NAME
  const BEFORE_URL := ")\"\nbase_url = \""
  const WIRE := "wire_api = \"chat\"\n"
  const ENV_KEY := "env_key = \"USAGE_MINER_TOKEN\"\n"
  const AFTER_URL := VERSION + WIRE + ENV_KEY

  /** What lies between the markers. */
  function Inside(r: Route): string
  {
    "\n" + BEFORE_TITLE + r.title + BEFORE_URL + r.url + AFTER_URL
  }

  function ManagedBlock(r: Route): string
  {
    BEGIN_MARKER + Inside(r) + END_MARKER + "\n"
  }

  function LeadingNewlines(s: string): (n: nat)
    ensures n <= |s| && forall i | 0 <= i < n :: s[i] == '\n'
    ensures n < |s| ==> s[n] != '\n'
  {
    if s == "" || s[0] != '\n' then 0 else 1 + LeadingNewlines(s[1..])
  }

  /** Three or more line breaks in a row become two. */
  function Collapse(s: string): string
    decreases |s|
  {
    if s == "" then ""
    else
      var n := LeadingNewlines(s);
      if n == 0 then [s[0]] + Collapse(s[1..])
      else (if n >= 3 then "\n\n" else s[..n]) + Collapse(s[n..])
  }

  /** Cut from the first begin marker to the first end marker. */
  function StripManagedBlock(text: string): string
  {
    StripBetween(text, BEGIN_MARKER, END_MARKER)
  }

  function StripBetween(text: string, open: string, close: string): string
  {
    CutOut(text, IndexOf(text, open), IndexOf(text, close), |close|)
  }

  /** The text without what stands from `begin` on up to `length` characters behind `end`. */
  function CutOut(text: string, begin: Option<nat>, end: Option<nat>, length: nat): string
    requires (begin.Some? ==> begin.value <= |text|) && (end.Some? ==> end.value + length <= |text|)
  {
    if begin.None? || end.None? || end.value < begin.value then text
    else Collapse(text[..begin.value] + text[end.value + length..])
  }

  // ------------------------------------------------------------- somebody's provider

  predicate IsLineBreak(c: char)
  {
    c == '\n' || c == '\r' || c == '\U{2028}' || c == '\U{2029}'
  }

  function AfterLiteral(s: string, literal: string): Option<string>
  {
    if StartsWith(s, literal) then Some(s[|literal|..]) else None
  }

  /** What a non-empty quoted string holds, if the text starts with one. */
  function QuotedOf(s: string): Option<string>
  {
    if s != "" && s[0] == '"' && '"' in s[1..] && IndexOfChar(s[1..], '"') > 0
    then Some(s[1..][..IndexOfChar(s[1..], '"')]) else None
  }

  const SETTING := "model_provider"

  /** What follows a literal behind any white space. */
  function After(s: string, literal: string): Option<string>
  {
    AfterLiteral(TrimStart(s), literal)
  }

  function QuotedAfter(s: string): Option<string>
  {
    QuotedOf(TrimStart(s))
  }

  type Reader = string -> Option<string>

  /** Three readers one behind the other; the last one's result. */
  function InTurn(first: Reader, second: Reader, third: Reader, s: string): Option<string>
  {
    match first(s)
    case None => None
    case Some(rest) => match second(rest) case None => None case Some(value) => third(value)
  }

  function Past(literal: string): Reader
  {
    (s: string) => After(s, literal)
  }

  /** `\s*model_provider\s*=\s*"([^"]+)"` at the start of a text. */
  function SettingAt(s: string): Option<string>
  {
    InTurn(Past(SETTING), Past("="), QuotedAfter, s)
  }

  /** What `read` finds at the first line start where it finds anything. */
  function FirstAtLineStart(read: Reader, s: string, atLineStart: bool): Option<string>
  {
    if atLineStart && read(s).Some? then read(s)
    else if s == "" then None
    else FirstAtLineStart(read, s[1..], IsLineBreak(s[0]))
  }

  /** The provider the text names once the managed block is cut out: somebody else's choice. */
  function ForeignProvider(text: string): Option<string>
  {
    FirstAtLineStart(SettingAt, StripManagedBlock(text), true)
  }

  // ------------------------------------------------------------- enable and disable

  datatype Backup = Backup(existed: bool, text: string)

  function TextOf(config: Option<string>): string
  {
    if config.Some? then config.value else ""
  }

  /** The user's text with a block below it. */
  function Above(body: string, r: Route): string
  {
    if body != "" then body + "\n\n" + ManagedBlock(r) else ManagedBlock(r)
  }

  function EnabledText(text: string, r: Route): string
  {
    Above(TrimEnd(StripManagedBlock(text)), r)
  }

  /** Disabling without a rollback copy. */
  function Unmanaged(config: Option<string>): Option<string>
  {
    if config.Some? && Contains(config.value, BEGIN_MARKER) then Some(TrimEnd(StripManagedBlock(config.value)) + "\n") else config
  }

  lemma EnableAllStep(text: string, routes: seq<Route>, i: nat)
    requires i < |routes|
    ensures EnableAll(text, routes[..i + 1]) == EnabledText(EnableAll(text, routes[..i]), routes[i])
  {
    assert routes[..i + 1][..i] == routes[..i];
  }

  class CodexAdapter {
    var config: Option<string>
    var backup: Option<Backup>

    constructor (config: Option<string>, backup: Option<Backup>)
      ensures this.config == config && this.backup == backup
    {
      this.config, this.backup := config, backup;
    }

    /** Refused, and nothing written, exactly when a foreign provider is set and no force is given. */
    method EnableMining(r: Route, force: bool) returns (ok: bool)
      modifies this
      ensures ok <==> force || ForeignProvider(TextOf(old(config))).None?
      ensures ok ==> config == Some(EnabledText(TextOf(old(config)), r))
                     && backup == Some(Backup(old(config).Some?, TextOf(old(config))))
      ensures !ok ==> config == old(config) && backup == old(backup)
    {
      var text := if config.Some? then config.value else "";
      if ForeignProvider(text).Some? && !force {
        return false;
      }
      backup := Some(Backup(config.Some?, text));
      var body := TrimEnd(StripManagedBlock(text));
      var next := if body != "" then body + "\n\n" + ManagedBlock(r) else ManagedBlock(r);
      config := Some(next);
      return true;
    }

    method DisableMining()
      modifies this
      ensures backup == None
      ensures old(backup).Some? ==> config == if old(backup).value.existed then Some(old(backup).value.text) else None
      ensures old(backup).None? ==> config == Unmanaged(old(config))
    {
      if backup.Some? {
        if !backup.value.existed {
          config := None;
        } else {
          config := Some(backup.value.text);
        }
        backup := None;
      } else if config.Some? && Contains(config.value, BEGIN_MARKER) {
        config := Some(TrimEnd(StripManagedBlock(config.value)) + "\n");
      }
    }

    method EnableNext(start: string, routes: seq<Route>, i: nat)
      requires i < |routes| && TextOf(config) == EnableAll(start, routes[..i])
      modifies this
      ensures config == Some(EnableAll(start, routes[..i + 1]))
      ensures backup == Some(Backup(old(config).Some?, EnableAll(start, routes[..i])))
    {
      var _ := EnableMining(routes[i], true);
      EnableAllStep(start, routes, i);
    }

    /** Several enables, each of which goes through, and one disable: the file as it was before the last of them. */
    method EnableTimesThenDisable(routes: seq<Route>)
      requires routes != []
      modifies this
      ensures backup == None
      ensures config == if |routes| == 1 then old(config)
                        else Some(EnableAll(TextOf(old(config)), routes[..|routes| - 1]))
    {
      var start := TextOf(config);
      for i := 0 to |routes|
        invariant TextOf(config) == EnableAll(start, routes[..i])
        invariant i == 0 ==> config == old(config)
        invariant i > 0 ==> config.Some?
        invariant i == 1 ==> backup == Some(Backup(old(config).Some?, start))
        invariant i > 1 ==> backup == Some(Backup(true, EnableAll(start, routes[..i - 1])))
      {
        EnableNext(start, routes, i);
      }
      DisableMining();
      assert old(config).Some? ==> Some(TextOf(old(config))) == old(config);
    }
  }

  function EnableAll(text: string, routes: seq<Route>): string
  {
    if routes == [] then text else EnabledText(EnableAll(text, routes[..|routes| - 1]), routes[|routes| - 1])
  }

  // --------------------------------------------------------------- collapsing twice

  lemma {:induction false} NewlinesThen(n: nat, rest: string)
    requires rest == "" || rest[0] != '\n'
    ensures LeadingNewlines(Breaks(n) + rest) == n && (Breaks(n) + rest)[n..] == rest && (Breaks(n) + rest)[..n] == Breaks(n)
  {
    var s := Breaks(n) + rest;
    assert forall i | 0 <= i < n :: s[i] == '\n';
    assert n < |s| ==> s[n] == rest[0];
  }

  function Breaks(n: nat): (s: string)
    ensures |s| == n && forall i | 0 <= i < n :: s[i] == '\n'
  {
    seq(n, _ => '\n')
  }

  function Fewer(n: nat): nat
  {
    if n >= 3 then 2 else n
  }

  /** Collapsing a run and what follows it. */
  lemma CollapseRun(n: nat, rest: string)
    requires rest == "" || rest[0] != '\n'
    ensures Collapse(Breaks(n) + rest) == Breaks(Fewer(n)) + Collapse(rest)
  {
    NewlinesThen(n, rest);
    if n == 0 {
      assert Breaks(0) + rest == rest;
      assert Breaks(0) + Collapse(rest) == Collapse(rest);
    } else if n >= 3 {
      assert Breaks(2) == "\n\n";
    }
  }

  /** A text is a run of breaks, then something that starts otherwise. */
  lemma SplitRun(s: string) returns (n: nat, rest: string)
    ensures s == Breaks(n) + rest && (rest == "" || rest[0] != '\n')
    ensures n == LeadingNewlines(s) && rest == s[n..]
  {
    n := LeadingNewlines(s);
    rest := s[n..];
    assert s[..n] == Breaks(n);
  }

  lemma {:induction false} CollapseIsIdempotent(s: string)
    ensures Collapse(Collapse(s)) == Collapse(s)
    decreases |s|
  {
    if s != "" {
      var n, rest := SplitRun(s);
      if n == 0 {
        assert s == rest;
        CollapseIsIdempotent(s[1..]);
        CollapseCons(s[0], s[1..]);
        CollapseCons(s[0], Collapse(s[1..]));
        assert s == [s[0]] + s[1..];
      } else {
        CollapseIsIdempotent(rest);
        CollapseRun(n, rest);
        CollapseRun(Fewer(n), Collapse(rest));
      }
    }
  }

  lemma CollapseCons(c: char, s: string)
    requires c != '\n'
    ensures Collapse([c] + s) == [c] + Collapse(s)
  {
    assert ([c] + s)[1..] == s;
  }

  /** Breaks at the end of a text that ends otherwise collapse by themselves. */
  ghost predicate BreaksCollapseBehind(s: string)
  {
    && Collapse(s + Breaks(3)) == Collapse(s) + Breaks(2)
    && Collapse(s) != "" && Collapse(s)[|Collapse(s)| - 1] == s[|s| - 1]
  }

  lemma {:induction false} CollapseBreaksBehind(s: string)
    requires s != "" && s[|s| - 1] != '\n'
    ensures BreaksCollapseBehind(s)
    decreases |s|
  {
    var n, rest := SplitRun(s);
    if n > 0 {
      CollapseBreaksBehind(rest);
      BreaksBehindRun(n, rest);
    } else if |s| > 1 {
      CollapseBreaksBehind(s[1..]);
      BreaksBehindCons(s[0], s[1..]);
      assert s == [s[0]] + s[1..];
    } else {
      BreaksBehindOne(s[0]);
      assert s == [s[0]];
    }
  }

  lemma BreaksBehindOne(c: char)
    requires c != '\n'
    ensures BreaksCollapseBehind([c])
  {
    CollapseCons(c, "");
    CollapseCons(c, Breaks(3));
    CollapseRun(3, "");
    assert [c] + "" == [c] && Breaks(3) + "" == Breaks(3) && Breaks(2) + "" == Breaks(2);
  }

  lemma BreaksBehindCons(c: char, s: string)
    requires c != '\n' && s != "" && BreaksCollapseBehind(s)
    ensures BreaksCollapseBehind([c] + s)
  {
    CollapseCons(c, s);
    CollapseCons(c, s + Breaks(3));
    assert ([c] + s) + Breaks(3) == [c] + (s + Breaks(3));
    assert ([c] + Collapse(s)) + Breaks(2) == [c] + (Collapse(s) + Breaks(2));
  }

  lemma BreaksBehindRun(n: nat, rest: string)
    requires rest != "" && rest[0] != '\n' && BreaksCollapseBehind(rest)
    ensures BreaksCollapseBehind(Breaks(n) + rest)
  {
    CollapseRun(n, rest);
    CollapseRun(n, rest + Breaks(3));
    assert (Breaks(n) + rest) + Breaks(3) == Breaks(n) + (rest + Breaks(3));
    assert (Breaks(Fewer(n)) + Collapse(rest)) + Breaks(2) == Breaks(Fewer(n)) + (Collapse(rest) + Breaks(2));
  }

  // ------------------------------------------------------------ markers in a text

  predicate OneLine(m: string)
  {
    m != "" && '\n' !in m
  }

  lemma {:induction false} PrefixOfCollapsed(s: string, m: string)
    requires '\n' !in m
    ensures m <= Collapse(s) <==> m <= s
    ensures m <= s ==> Collapse(s)[|m|..] == Collapse(s[|m|..])
    decreases |m|
  {
    if m != "" && s != "" {
      if s[0] == m[0] {
        assert s == [s[0]] + s[1..] && m == [m[0]] + m[1..];
        CollapseCons(s[0], s[1..]);
        PrefixOfCollapsed(s[1..], m[1..]);
        assert Collapse(s)[1..] == Collapse(s[1..]);
        assert m <= s <==> m[1..] <= s[1..];
        assert m <= Collapse(s) <==> m[1..] <= Collapse(s)[1..];
        if m <= s {
          assert s[|m|..] == s[1..][|m| - 1..];
          assert Collapse(s)[|m|..] == Collapse(s)[1..][|m| - 1..];
        }
      }
    } else if m == "" {
      assert s[0..] == s && Collapse(s)[0..] == Collapse(s);
    }
  }

  ghost predicate Occurs(s: string, m: string)
  {
    exists i :: OccursAt(s, m, i)
  }

  lemma OccursCons(s: string, m: string)
    requires m != "" && s != ""
    ensures Occurs(s, m) <==> m <= s || Occurs(s[1..], m)
  {
    if Occurs(s[1..], m) {
      var i :| OccursAt(s[1..], m, i);
      assert s[i + 1..i + 1 + |m|] == s[1..][i..i + |m|];
      assert OccursAt(s, m, i + 1);
    }
    if m <= s {
      assert OccursAt(s, m, 0);
    }
    if Occurs(s, m) {
      var i :| OccursAt(s, m, i);
      if i > 0 {
        assert s[1..][i - 1..i - 1 + |m|] == s[i..i + |m|];
        assert OccursAt(s[1..], m, i - 1);
      } else {
        assert s[0..|m|] == s[..|m|];
      }
    }
  }

  lemma {:induction false} OccursAfterBreaks(n: nat, rest: string, m: string)
    requires OneLine(m)
    ensures Occurs(Breaks(n) + rest, m) <==> Occurs(rest, m)
  {
    if n == 0 {
      assert Breaks(0) + rest == rest;
    } else {
      var s := Breaks(n) + rest;
      assert s[1..] == Breaks(n - 1) + rest;
      OccursCons(s, m);
      OccursAfterBreaks(n - 1, rest, m);
      assert s[0] != m[0];
    }
  }

  /** Collapsing blank lines makes no marker and breaks none. */
  lemma {:induction false} CollapseKeepsMarkers(s: string, m: string)
    requires OneLine(m)
    ensures Occurs(Collapse(s), m) <==> Occurs(s, m)
    decreases |s|
  {
    if s != "" {
      var n, rest := SplitRun(s);
      if n == 0 {
        CollapseKeepsMarkers(s[1..], m);
        OccursCons(s, m);
        OccursCons(Collapse(s), m);
        PrefixOfCollapsed(s, m);
        assert Collapse(s)[1..] == Collapse(s[1..]);
      } else {
        CollapseKeepsMarkers(rest, m);
        CollapseRun(n, rest);
        OccursAfterBreaks(n, rest, m);
        OccursAfterBreaks(Fewer(n), Collapse(rest), m);
      }
    }
  }

  /** No occurrence of `m` straddles the seam between the two texts. */
  ghost predicate Seamless(a: string, b: string, m: string)
  {
    forall k | 0 < k < |m| && k <= |a| && |m| - k <= |b| :: a[|a| - k..] != m[..k] || b[..|m| - k] != m[k..]
  }

  /** Two texts side by side hold what either holds, unless an occurrence straddles the seam. */
  lemma OccursInParts(a: string, b: string, m: string)
    requires m != "" && Seamless(a, b, m)
    ensures Occurs(a + b, m) <==> Occurs(a, m) || Occurs(b, m)
  {
    var s := a + b;
    if Occurs(a, m) {
      var i :| OccursAt(a, m, i);
      assert s[i..i + |m|] == a[i..i + |m|];
      assert OccursAt(s, m, i);
    }
    if Occurs(b, m) {
      OccursInSuffix(a, b, m);
    }
    if Occurs(s, m) {
      var i :| OccursAt(s, m, i);
      if i + |m| <= |a| {
        assert a[i..i + |m|] == s[i..i + |m|];
        assert OccursAt(a, m, i);
      } else if i >= |a| {
        assert b[i - |a|..i - |a| + |m|] == s[i..i + |m|];
        assert OccursAt(b, m, i - |a|);
      } else {
        SeamPieces(a, b, m, i);
      }
    }
  }

  lemma SeamPieces(a: string, b: string, m: string, i: nat)
    requires OccursAt(a + b, m, i) && i < |a| < i + |m|
    ensures a[i..] == m[..|a| - i] && |m| - (|a| - i) <= |b| && b[..|m| - (|a| - i)] == m[|a| - i..]
  {
    var k := |a| - i;
    assert (a + b)[i..i + |m|][..k] == a[|a| - k..];
    assert (a + b)[i..i + |m|][k..] == b[..|m| - k];
  }

  /** A character outside the marker on either side of the seam keeps them apart. */
  lemma SeamApart(a: string, b: string, m: string)
    requires (a != "" && a[|a| - 1] !in m) || (b != "" && b[0] !in m)
    ensures Seamless(a, b, m)
  {
    forall k | 0 < k < |m| && k <= |a| && |m| - k <= |b|
      ensures a[|a| - k..] != m[..k] || b[..|m| - k] != m[k..]
    {
      assert a[|a| - k..][k - 1] == a[|a| - 1] && m[..k][k - 1] == m[k - 1];
      assert b[..|m| - k][0] == b[0] && m[k..][0] == m[k];
    }
  }

  lemma OccursApart(a: string, b: string, m: string)
    requires m != "" && ((a != "" && a[|a| - 1] !in m) || (b != "" && b[0] !in m))
    ensures Occurs(a + b, m) <==> Occurs(a, m) || Occurs(b, m)
  {
    SeamApart(a, b, m);
    OccursInParts(a, b, m);
  }

  lemma CharOfOccurrence(s: string, m: string, i: int, j: nat)
    requires OccursAt(s, m, i) && j < |m|
    ensures i + j < |s| && s[i + j] == m[j]
  {
    assert s[i..i + |m|][j] == s[i + j];
  }

  lemma NoOccurrence(s: string, m: string, c: char)
    requires c in m && c !in s
    ensures !Occurs(s, m)
  {
    var j :| 0 <= j < |m| && m[j] == c;
    if Occurs(s, m) {
      var i :| OccursAt(s, m, i);
      CharOfOccurrence(s, m, i, j);
    }
  }

  /** An occurrence that starts before a line break ends before it. */
  lemma EndsBeforeBreak(prefix: string, rest: string, m: string, i: int)
    requires OneLine(m) && prefix != "" && prefix[|prefix| - 1] == '\n'
    requires OccursAt(prefix + rest, m, i) && i < |prefix|
    ensures OccursAt(prefix, m, i)
  {
    var s := prefix + rest;
    assert forall j | i <= j < i + |m| :: s[j] == s[i..i + |m|][j - i];
    assert forall j | i <= j < i + |m| :: s[j] != '\n';
    assert s[|prefix| - 1] == '\n';
    assert prefix[i..i + |m|] == s[i..i + |m|];
  }

  /** A marker behind a line break is found where it stands if it occurs no earlier. */
  lemma FirstAfter(prefix: string, m: string, suffix: string)
    requires OneLine(m) && (prefix == "" || prefix[|prefix| - 1] == '\n') && !Occurs(prefix, m)
    ensures IndexOf(prefix + m + suffix, m) == Some(|prefix|)
  {
    var s := prefix + m + suffix;
    assert s == prefix + (m + suffix);
    assert s[|prefix|..|prefix| + |m|] == m;
    assert OccursAt(s, m, |prefix|);
    var first := IndexOf(s, m).value;
    if first < |prefix| {
      EndsBeforeBreak(prefix, m + suffix, m, first);
    }
  }

  lemma IndexOfOccurs(s: string, m: string)
    ensures IndexOf(s, m).Some? <==> Occurs(s, m)
  {
    if IndexOf(s, m).Some? {
      assert OccursAt(s, m, IndexOf(s, m).value);
    }
  }

  // --------------------------------------------------------- the end marker inside

  /** Neither name nor address of a route holds the end marker. */
  ghost predicate Clean(r: Route)
  {
    !Occurs(r.title, END_MARKER) && !Occurs(r.url, END_MARKER)
  }

  lemma MarkerFacts()
    ensures OneLine(BEGIN_MARKER) && OneLine(END_MARKER)
    ensures '<' in END_MARKER && '"' !in END_MARKER && '/' !in END_MARKER
  {
    assert END_MARKER[2] == '<';
  }

  lemma NoAngles()
    ensures '<' !in BEGIN_MARKER && '<' !in BEFORE_URL
  {
  }

  lemma StillLacks(a: string, b: string, c: char)
    requires c !in a && c !in b
    ensures c !in a + b
  {
  }

  lemma NoAnglesComment()
    ensures '<' !in COMMENT
  {
    assert '<' !in "# Written by USAGE Miner. ";
    assert '<' !in "Remove with: usage disable codex\n";
  }

  lemma NoAnglesTable()
    ensures '<' !in PROVIDER && '<' !in TABLE && '<' !in "name = \"USAGE ("
  {
  }

  lemma NoAnglesBefore()
    ensures '<' !in BEFORE_TITLE
  {
    NoAnglesComment();
    NoAnglesTable();
    StillLacks(COMMENT, PROVIDER, '<');
    StillLacks(COMMENT + PROVIDER, TABLE, '<');
    StillLacks(COMMENT + PROVIDER + TABLE, "name = \"USAGE (", '<');
  }

  /** The end marker cannot start in front of the title and end in it. */
  lemma SeamBeforeTitle(rest: string)
    ensures Seamless(BEFORE_TITLE, rest, END_MARKER)
  {
    assert END_MARKER[16] == 'r' && END_MARKER[18] == '(';
    forall k | 0 < k < |END_MARKER| && k <= |BEFORE_TITLE| && |END_MARKER| - k <= |rest|
      ensures BEFORE_TITLE[|BEFORE_TITLE| - k..] != END_MARKER[..k]
    {
      var tail := BEFORE_TITLE[|BEFORE_TITLE| - k..];
      assert tail[k - 1] == '(';
      if k >= 3 {
        assert tail[k - 3] == 'E';
      }
    }
  }

  /** Nor start in the title and end behind it. */
  lemma SeamAfterTitle(title: string, rest: string)
    ensures Seamless(title, BEFORE_URL + rest, END_MARKER)
  {
    forall k | 0 < k < |END_MARKER| && k <= |title| && |END_MARKER| - k <= |BEFORE_URL + rest|
      ensures (BEFORE_URL + rest)[..|END_MARKER| - k] != END_MARKER[k..]
    {
      var head := (BEFORE_URL + rest)[..|END_MARKER| - k];
      assert head[0] == ')';
      if |head| >= 2 {
        assert head[1] == '"';
      }
    }
  }

  /** Six texts in a row of which only the third and the fifth may hold the marker. */
  lemma OccursInSix(p0: string, p1: string, a: string, p2: string, b: string, p3: string, m: string)
    requires m != "" && !Occurs(p0, m) && !Occurs(p1, m) && !Occurs(p2, m) && !Occurs(p3, m)
    requires Seamless(b, p3, m) && Seamless(p2, b + p3, m) && Seamless(a, p2 + (b + p3), m)
    requires Seamless(p1, a + (p2 + (b + p3)), m) && Seamless(p0, p1 + (a + (p2 + (b + p3))), m)
    ensures Occurs(p0 + (p1 + (a + (p2 + (b + p3)))), m) <==> Occurs(a, m) || Occurs(b, m)
  {
    OccursInParts(b, p3, m);
    OccursInParts(p2, b + p3, m);
    OccursInParts(a, p2 + (b + p3), m);
    OccursInParts(p1, a + (p2 + (b + p3)), m);
    OccursInParts(p0, p1 + (a + (p2 + (b + p3))), m);
  }

  lemma SixParts(p0: string, p1: string, a: string, p2: string, b: string, p3: string)
    ensures p0 + p1 + a + p2 + b + p3 == p0 + (p1 + (a + (p2 + (b + p3))))
  {
  }

  lemma FixedPartsAreFree()
    ensures !Occurs("\n", END_MARKER) && !Occurs(BEFORE_TITLE, END_MARKER)
    ensures !Occurs(BEFORE_URL, END_MARKER) && !Occurs(AFTER_URL, END_MARKER)
  {
    MarkerFacts();
    NoAngles();
    NoAnglesBefore();
    NoOccurrence("\n", END_MARKER, '<');
    NoOccurrence(BEFORE_TITLE, END_MARKER, '<');
    NoOccurrence(BEFORE_URL, END_MARKER, '<');
    NoOccurrence(AFTER_URL, END_MARKER, '<');
  }

  lemma OtherSeams(url: string, rest: string, all: string)
    ensures Seamless(url, AFTER_URL, END_MARKER) && Seamless(BEFORE_URL, rest, END_MARKER) && Seamless("\n", all, END_MARKER)
  {
    MarkerFacts();
    SeamApart(url, AFTER_URL, END_MARKER);
    SeamApart(BEFORE_URL, rest, END_MARKER);
    SeamApart("\n", all, END_MARKER);
  }

  /** The end marker occurs inside a block exactly if the route brings it there. */
  lemma EndInside(r: Route)
    ensures Occurs(Inside(r), END_MARKER) <==> !Clean(r)
  {
    var tail := r.url + AFTER_URL;
    FixedPartsAreFree();
    OtherSeams(r.url, tail, BEFORE_TITLE + (r.title + (BEFORE_URL + tail)));
    SeamAfterTitle(r.title, tail);
    SeamBeforeTitle(r.title + (BEFORE_URL + tail));
    OccursInSix("\n", BEFORE_TITLE, r.title, BEFORE_URL, r.url, AFTER_URL, END_MARKER);
    SixParts("\n", BEFORE_TITLE, r.title, BEFORE_URL, r.url, AFTER_URL);
  }

  // -------------------------------------------------------- one block, text kept

  ghost predicate MarkerFree(text: string)
  {
    !Occurs(text, BEGIN_MARKER) && !Occurs(text, END_MARKER)
  }

  predicate EndTrimmed(s: string)
  {
    s == "" || !IsSpace(s[|s| - 1])
  }

  /** What stands before a block. */
  function Lead(body: string): string
  {
    if body == "" then "" else body + "\n\n"
  }

  function UpToEnd(body: string, r: Route): string
  {
    Lead(body) + BEGIN_MARKER + Inside(r)
  }

  lemma FourParts(lead: string, begin: string, inside: string, end: string)
    ensures lead + (begin + inside + end + "\n") == (lead + begin + inside) + end + "\n"
    ensures lead + (begin + inside + end + "\n") == lead + begin + (inside + end + "\n")
  {
  }

  lemma AboveLead(body: string, r: Route)
    ensures Above(body, r) == Lead(body) + ManagedBlock(r)
  {
    assert "" + ManagedBlock(r) == ManagedBlock(r);
  }

  lemma AboveParts(body: string, r: Route)
    ensures Above(body, r) == UpToEnd(body, r) + END_MARKER + "\n"
    ensures Above(body, r) == Lead(body) + BEGIN_MARKER + (Inside(r) + END_MARKER + "\n")
  {
    AboveLead(body, r);
    FourParts(Lead(body), BEGIN_MARKER, Inside(r), END_MARKER);
  }

  lemma LeadIsFree(body: string, m: string)
    requires OneLine(m) && !Occurs(body, m)
    ensures !Occurs(Lead(body), m)
  {
    NoBreakIn("\n\n", m);
    OccursApart(body, "\n\n", m);
  }

  lemma NoBreakIn(breaks: string, m: string)
    requires OneLine(m) && forall i | 0 <= i < |breaks| :: breaks[i] == '\n'
    ensures !Occurs(breaks, m)
  {
    assert m[0] != '\n';
    NoOccurrence(breaks, m, m[0]);
  }

  lemma BeginIsFound(body: string, r: Route)
    requires MarkerFree(body)
    ensures IndexOf(Above(body, r), BEGIN_MARKER) == Some(|Lead(body)|)
  {
    MarkerFacts();
    LeadIsFree(body, BEGIN_MARKER);
    AboveParts(body, r);
    FirstAfter(Lead(body), BEGIN_MARKER, Inside(r) + END_MARKER + "\n");
  }

  lemma UpToEndIsFree(body: string, r: Route)
    requires MarkerFree(body)
    ensures Occurs(UpToEnd(body, r), END_MARKER) <==> !Clean(r)
    ensures UpToEnd(body, r)[|UpToEnd(body, r)| - 1] == '\n'
  {
    MarkerFacts();
    NoAngles();
    LeadIsFree(body, END_MARKER);
    NoOccurrence(BEGIN_MARKER, END_MARKER, '<');
    EndInside(r);
    assert Inside(r)[0] == '\n' && Inside(r)[|Inside(r)| - 1] == '\n';
    OccursApart(BEGIN_MARKER, Inside(r), END_MARKER);
    assert UpToEnd(body, r) == Lead(body) + (BEGIN_MARKER + Inside(r));
    if Lead(body) == "" {
      assert "" + (BEGIN_MARKER + Inside(r)) == BEGIN_MARKER + Inside(r);
    } else {
      OccursApart(Lead(body), BEGIN_MARKER + Inside(r), END_MARKER);
    }
  }

  /** With a clean route the whole block is cut, and one line break is left of it. */
  lemma StripsTheBlock(body: string, r: Route)
    requires MarkerFree(body) && Clean(r)
    ensures StripManagedBlock(Above(body, r)) == Collapse(Lead(body) + "\n")
  {
    var text, end := Above(body, r), |UpToEnd(body, r)|;
    MarkerFacts();
    BeginIsFound(body, r);
    UpToEndIsFree(body, r);
    AboveParts(body, r);
    FirstAfter(UpToEnd(body, r), END_MARKER, "\n");
    assert text[..|Lead(body)|] == Lead(body);
    assert text[end + |END_MARKER|..] == "\n";
  }

  lemma {:induction false} TrimEndBreaks(s: string, n: nat)
    requires EndTrimmed(s)
    ensures TrimEnd(s + Breaks(n)) == s
  {
    if n == 0 {
      assert s + Breaks(0) == s;
    } else {
      var t := s + Breaks(n);
      assert t[..|t| - 1] == s + Breaks(n - 1);
      assert t[|t| - 1] == '\n';
      TrimEndBreaks(s, n - 1);
    }
  }

  /** What is left of the user's text around a cut block. */
  lemma LeftAroundBlock(body: string)
    requires EndTrimmed(body)
    ensures TrimEnd(Collapse(Lead(body) + "\n")) == Collapse(body)
    ensures EndTrimmed(Collapse(body))
  {
    assert Breaks(1) == "\n" && Breaks(3) == "\n\n\n";
    if body == "" {
      assert Lead("") + "\n" == Breaks(1) + "";
      CollapseRun(1, "");
      assert Breaks(1) + Collapse("") == "" + Breaks(1);
      TrimEndBreaks("", 1);
    } else {
      assert Lead(body) + "\n" == body + Breaks(3);
      CollapseBreaksBehind(body);
      TrimEndBreaks(Collapse(body), 2);
    }
  }

  /** Enabling again replaces the block and collapses the blank lines of the text above it. */
  lemma EnabledAgain(body: string, r: Route, next: Route)
    requires MarkerFree(body) && EndTrimmed(body) && Clean(r)
    ensures EnabledText(Above(body, r), next) == Above(Collapse(body), next)
  {
    StripsTheBlock(body, r);
    LeftAroundBlock(body);
  }

  lemma OccursInPrefix(s: string, n: nat, m: string)
    requires n <= |s|
    ensures Occurs(s[..n], m) ==> Occurs(s, m)
  {
    if Occurs(s[..n], m) {
      var i :| OccursAt(s[..n], m, i);
      assert s[i..i + |m|] == s[..n][i..i + |m|];
      assert OccursAt(s, m, i);
    }
  }

  lemma CollapsedIsFree(body: string)
    requires MarkerFree(body)
    ensures MarkerFree(Collapse(body))
  {
    MarkerFacts();
    CollapseKeepsMarkers(body, BEGIN_MARKER);
    CollapseKeepsMarkers(body, END_MARKER);
  }

  /** The user's text after so many enables. */
  function KeptText(text: string, enables: nat): string
  {
    if enables <= 1 then TrimEnd(text) else Collapse(TrimEnd(text))
  }

  lemma KeptIsFree(text: string, enables: nat)
    requires MarkerFree(text)
    ensures MarkerFree(KeptText(text, enables)) && EndTrimmed(KeptText(text, enables))
    ensures enables >= 1 ==> Collapse(KeptText(text, enables)) == KeptText(text, enables + 1)
  {
    TrimEndIsPrefix(text);
    OccursInPrefix(text, |TrimEnd(text)|, BEGIN_MARKER);
    OccursInPrefix(text, |TrimEnd(text)|, END_MARKER);
    CollapsedIsFree(TrimEnd(text));
    LeftAroundBlock(TrimEnd(text));
    CollapseIsIdempotent(TrimEnd(text));
  }

  /** Any number of enables leaves exactly one block, the last one, below the user's text, of which
      only trailing space and surplus blank lines are gone. */
  lemma {:induction false} EnablesLeaveOneBlock(text: string, routes: seq<Route>)
    requires routes != [] && MarkerFree(text) && forall i | 0 <= i < |routes| - 1 :: Clean(routes[i])
    ensures EnableAll(text, routes) == Above(KeptText(text, |routes|), routes[|routes| - 1])
  {
    var before, last := routes[..|routes| - 1], routes[|routes| - 1];
    KeptIsFree(text, |before|);
    if before == [] {
      IndexOfOccurs(text, BEGIN_MARKER);
      assert EnableAll(text, before) == text;
    } else {
      EnablesLeaveOneBlock(text, before);
      EnabledAgain(KeptText(text, |before|), before[|before| - 1], last);
    }
  }

  /** Without a rollback copy, disabling leaves the user's text and one line break. */
  lemma DisableWithoutCopy(text: string, routes: seq<Route>)
    requires routes != [] && MarkerFree(text) && forall i | 0 <= i < |routes| :: Clean(routes[i])
    ensures Unmanaged(Some(EnableAll(text, routes))) == Some(Collapse(TrimEnd(text)) + "\n")
  {
    var kept, last := KeptText(text, |routes|), routes[|routes| - 1];
    EnablesLeaveOneBlock(text, routes);
    KeptIsFree(text, |routes|);
    BeginIsFound(kept, last);
    StripsTheBlock(kept, last);
    LeftAroundBlock(kept);
  }

  // --------------------------------------------------------------- unclean routes

  lemma OccursInSuffix(a: string, b: string, m: string)
    requires Occurs(b, m)
    ensures Occurs(a + b, m)
  {
    var i :| OccursAt(b, m, i);
    assert (a + b)[|a| + i..|a| + i + |m|] == b[i..i + |m|];
    assert OccursAt(a + b, m, |a| + i);
  }

  /** A marker has no space at its end, so trimming leaves it whole. */
  lemma TrimEndKeepsMarker(s: string, m: string)
    requires m != "" && !IsSpace(m[|m| - 1]) && Occurs(s, m)
    ensures Occurs(TrimEnd(s), m)
  {
    var i :| OccursAt(s, m, i);
    var t := TrimEnd(s);
    CharOfOccurrence(s, m, i, |m| - 1);
    TrimEndIsPrefix(s);
    assert t[i..i + |m|] == s[i..i + |m|];
    assert OccursAt(t, m, i);
  }

  lemma FirstInHead(head: string, rest: string, m: string)
    requires m != "" && Occurs(head, m)
    ensures IndexOf(head + rest, m).Some? && IndexOf(head + rest, m).value < |head|
  {
    var i :| OccursAt(head, m, i);
    assert (head + rest)[i..i + |m|] == head[i..i + |m|];
    assert OccursAt(head + rest, m, i);
  }

  lemma NotBeforeLead(lead: string, rest: string, m: string, i: int)
    requires OneLine(m) && (lead == "" || lead[|lead| - 1] == '\n') && !Occurs(lead, m) && OccursAt(lead + rest, m, i)
    ensures i >= |lead|
  {
    if i < |lead| {
      EndsBeforeBreak(lead, rest, m, i);
    }
  }

  lemma HeadAndRest(head: string, end: string)
    ensures head + end + "\n" == head + (end + "\n")
  {
  }

  /** Where the first end marker is found when the route brings one. */
  lemma EarlyEnd(body: string, r: Route) returns (end: nat)
    requires MarkerFree(body) && !Clean(r)
    ensures IndexOf(Above(body, r), END_MARKER) == Some(end)
    ensures |Lead(body)| <= end < |UpToEnd(body, r)|
  {
    UpToEndIsFree(body, r);
    AboveParts(body, r);
    HeadAndRest(UpToEnd(body, r), END_MARKER);
    FirstInHead(UpToEnd(body, r), END_MARKER + "\n", END_MARKER);
    end := IndexOf(Above(body, r), END_MARKER).value;
    MarkerFacts();
    LeadIsFree(body, END_MARKER);
    AboveLead(body, r);
    NotBeforeLead(Lead(body), ManagedBlock(r), END_MARKER, end);
  }

  /** If a route carries the end marker, the cut ends early and the block's own end marker stays. */
  lemma UncleanLeavesMarker(body: string, r: Route)
    requires MarkerFree(body) && !Clean(r)
    ensures Occurs(TrimEnd(StripManagedBlock(Above(body, r))), END_MARKER)
  {
    var text := Above(body, r);
    var end := EarlyEnd(body, r);
    BeginIsFound(body, r);
    UpToEndIsFree(body, r);
    AboveParts(body, r);
    OwnEndStays(text, UpToEnd(body, r), end);
    CutKeepsMarker(text, |Lead(body)|, end);
  }

  lemma CutKeepsMarker(text: string, begin: nat, end: nat)
    requires IndexOf(text, BEGIN_MARKER) == Some(begin) && IndexOf(text, END_MARKER) == Some(end) && begin <= end
    requires Occurs(text[end + |END_MARKER|..], END_MARKER)
    ensures Occurs(TrimEnd(StripManagedBlock(text)), END_MARKER)
  {
    EndMarkerEnds();
    StripCuts(text, BEGIN_MARKER, END_MARKER, begin, end);
    RestKeepsMarker(text[..begin], text[end + |END_MARKER|..], END_MARKER);
  }

  lemma StripCuts(text: string, open: string, close: string, begin: nat, end: nat)
    requires IndexOf(text, open) == Some(begin) && IndexOf(text, close) == Some(end) && begin <= end
    ensures StripBetween(text, open, close) == Collapse(text[..begin] + text[end + |close|..])
  {
  }

  lemma RestKeepsMarker(a: string, b: string, m: string)
    requires OneLine(m) && !IsSpace(m[|m| - 1]) && Occurs(b, m)
    ensures Occurs(TrimEnd(Collapse(a + b)), m)
  {
    OccursInSuffix(a, b, m);
    CollapseKeepsMarkers(a + b, m);
    TrimEndKeepsMarker(Collapse(a + b), m);
  }

  lemma EndMarkerEnds()
    ensures OneLine(END_MARKER) && !IsSpace(END_MARKER[|END_MARKER| - 1])
  {
    MarkerFacts();
    assert END_MARKER[|END_MARKER| - 1] == '<';
  }

  lemma OwnEndStays(text: string, head: string, end: nat)
    requires text == head + END_MARKER + "\n" && head != "" && head[|head| - 1] == '\n'
    requires OccursAt(text, END_MARKER, end) && end < |head|
    ensures end + |END_MARKER| <= |text| && Occurs(text[end + |END_MARKER|..], END_MARKER)
  {
    MarkerFacts();
    assert text == head + (END_MARKER + "\n");
    EndsBeforeBreak(head, END_MARKER + "\n", END_MARKER, end);
    var rest := text[end + |END_MARKER|..];
    assert rest == head[end + |END_MARKER|..] + (END_MARKER + "\n");
    assert (END_MARKER + "\n")[0..|END_MARKER|] == END_MARKER;
    assert OccursAt(END_MARKER + "\n", END_MARKER, 0);
    OccursInSuffix(head[end + |END_MARKER|..], END_MARKER + "\n", END_MARKER);
  }

  /** A second enable replaces the block and keeps the text above it exactly when the first route is clean. */
  lemma ReEnableIsExactWhenClean(body: string, r: Route, next: Route)
    requires MarkerFree(body) && EndTrimmed(body)
    ensures EnabledText(Above(body, r), next) == Above(Collapse(body), next) <==> Clean(r)
  {
    if Clean(r) {
      EnabledAgain(body, r, next);
    } else {
      UncleanLeavesMarker(body, r);
      CollapsedIsFree(body);
      AboveIsInjective(TrimEnd(StripManagedBlock(Above(body, r))), Collapse(body), next);
    }
  }

  /** The end marker as a label: enabling over an empty file and enabling again is not exact. */
  lemma MarkerAsLabelSpoilsReEnable(url: string, next: Route)
    ensures EnabledText(Above("", Route(END_MARKER, url)), next) != Above(Collapse(""), next)
  {
    var r := Route(END_MARKER, url);
    assert END_MARKER[0..|END_MARKER|] == END_MARKER;
    assert OccursAt(r.title, END_MARKER, 0);
    assert !Clean(r);
    MarkerFacts();
    assert MarkerFree("") && EndTrimmed("");
    ReEnableIsExactWhenClean("", r, next);
  }

  lemma AboveIsInjective(a: string, b: string, r: Route)
    ensures Above(a, r) == Above(b, r) ==> a == b
  {
    if Above(a, r) == Above(b, r) {
      assert |Above(a, r)| == |Lead(a)| + |ManagedBlock(r)| && |Above(b, r)| == |Lead(b)| + |ManagedBlock(r)|;
      assert Above(a, r)[..|a|] == a;
      assert Above(b, r)[..|b|] == b;
    }
  }

  // --------------------------------------------------- our block is not foreign

  lemma {:induction false} TrimStartBreaks(n: nat, rest: string)
    ensures TrimStart(Breaks(n) + rest) == TrimStart(rest)
  {
    if n == 0 {
      assert Breaks(0) + rest == rest;
    } else {
      assert (Breaks(n) + rest)[1..] == Breaks(n - 1) + rest;
      TrimStartBreaks(n - 1, rest);
    }
  }

  lemma {:induction false} TrimStartCollapsed(s: string)
    ensures TrimStart(Collapse(s)) == Collapse(TrimStart(s))
    decreases |s|
  {
    if s != "" {
      var n, rest := SplitRun(s);
      if n > 0 {
        TrimStartCollapsed(rest);
        CollapseRun(n, rest);
        TrimStartBreaks(n, rest);
        TrimStartBreaks(Fewer(n), Collapse(rest));
      } else {
        TrimStartCollapsed(s[1..]);
        assert Collapse(s)[1..] == Collapse(s[1..]);
      }
    }
  }

  lemma {:induction false} CollapseKeepsChar(s: string, c: char)
    requires c != '\n'
    ensures c in Collapse(s) <==> c in s
    decreases |s|
  {
    if s != "" {
      var n, rest := SplitRun(s);
      if n > 0 {
        CollapseKeepsChar(rest, c);
        CollapseRun(n, rest);
        assert c in s <==> c in rest;
        assert c in Breaks(Fewer(n)) + Collapse(rest) <==> c in Collapse(rest);
      } else {
        CollapseKeepsChar(s[1..], c);
        assert c in s <==> c == s[0] || c in s[1..];
      }
    }
  }

  lemma QuotedCollapsed(s: string)
    ensures QuotedOf(Collapse(s)).Some? <==> QuotedOf(s).Some?
  {
    if s != "" && s[0] == '"' {
      assert Collapse(s)[1..] == Collapse(s[1..]);
      CollapseKeepsChar(s[1..], '"');
    }
  }

  lemma LiteralCollapsed(s: string, literal: string)
    requires '\n' !in literal
    ensures AfterLiteral(Collapse(s), literal) ==
            (match AfterLiteral(s, literal) case None => None case Some(rest) => Some(Collapse(rest)))
  {
    PrefixOfCollapsed(s, literal);
  }

  /** Changing a text by `change` changes what `read` leaves in the same way. */
  ghost predicate CarriesAt(change: string -> string, read: Reader, s: string)
  {
    read(change(s)) == (match read(s) case None => None case Some(rest) => Some(change(rest)))
  }

  ghost predicate SucceedsAlike(change: string -> string, read: Reader, s: string)
  {
    read(change(s)).Some? <==> read(s).Some?
  }

  lemma InTurnCarriesOver(change: string -> string, first: Reader, second: Reader, third: Reader, s: string)
    requires forall t :: CarriesAt(change, first, t)
    requires forall t :: CarriesAt(change, second, t)
    requires forall t :: SucceedsAlike(change, third, t)
    ensures InTurn(first, second, third, change(s)).Some? <==> InTurn(first, second, third, s).Some?
  {
    assert CarriesAt(change, first, s);
    if first(s).Some? {
      var rest := first(s).value;
      assert CarriesAt(change, second, rest);
      if second(rest).Some? {
        assert SucceedsAlike(change, third, second(rest).value);
      }
    }
  }

  function Collapsing(): string -> string
  {
    (s: string) => Collapse(s)
  }

  lemma PastCollapsed(literal: string)
    requires '\n' !in literal
    ensures forall s :: CarriesAt(Collapsing(), Past(literal), s)
  {
    forall s ensures CarriesAt(Collapsing(), Past(literal), s) {
      TrimStartCollapsed(s);
      LiteralCollapsed(TrimStart(s), literal);
    }
  }

  lemma QuotedAfterCollapsed()
    ensures forall s :: SucceedsAlike(Collapsing(), QuotedAfter, s)
  {
    forall s ensures SucceedsAlike(Collapsing(), QuotedAfter, s) {
      TrimStartCollapsed(s);
      QuotedCollapsed(TrimStart(s));
    }
  }

  /** Where a line starts with a setting, it still does with blank lines collapsed. */
  lemma SettingCollapsed()
    ensures forall s :: SucceedsAlike(Collapsing(), SettingAt, s)
  {
    PastCollapsed(SETTING);
    PastCollapsed("=");
    QuotedAfterCollapsed();
    forall s ensures SucceedsAlike(Collapsing(), SettingAt, s) {
      InTurnCarriesOver(Collapsing(), Past(SETTING), Past("="), QuotedAfter, s);
    }
  }

  /** Line breaks before a text do not change what is read. */
  ghost predicate SkipsBreaks(read: Reader)
  {
    forall n, s :: read(Breaks(n) + s) == read(s)
  }

  lemma PastSkips(literal: string, n: nat, s: string)
    ensures Past(literal)(Breaks(n) + s) == Past(literal)(s)
  {
    TrimStartBreaks(n, s);
  }

  lemma SettingSkipsBreaks()
    ensures SkipsBreaks(SettingAt)
  {
    forall n, s ensures SettingAt(Breaks(n) + s) == SettingAt(s) {
      PastSkips(SETTING, n, s);
    }
  }

  lemma {:induction false} FoundAfterBreaks(read: Reader, n: nat, rest: string, b: bool)
    requires n > 0 && SkipsBreaks(read)
    ensures FirstAtLineStart(read, Breaks(n) + rest, b).Some? <==> FirstAtLineStart(read, rest, true).Some?
  {
    var s := Breaks(n) + rest;
    assert read(s) == read(rest);
    assert s[1..] == Breaks(n - 1) + rest;
    if n == 1 {
      assert Breaks(0) + rest == rest;
    } else {
      FoundAfterBreaks(read, n - 1, rest, true);
    }
  }

  lemma {:induction false} FoundCollapsed(read: Reader, s: string, b: bool)
    requires SkipsBreaks(read) && forall t :: SucceedsAlike(Collapsing(), read, t)
    ensures FirstAtLineStart(read, Collapse(s), b).Some? <==> FirstAtLineStart(read, s, b).Some?
    decreases |s|
  {
    assert SucceedsAlike(Collapsing(), read, s);
    if s != "" {
      var n, rest := SplitRun(s);
      if n > 0 {
        FoundCollapsed(read, rest, true);
        CollapseRun(n, rest);
        FoundAfterBreaks(read, n, rest, b);
        FoundAfterBreaks(read, Fewer(n), Collapse(rest), b);
      } else {
        FoundCollapsed(read, s[1..], IsLineBreak(s[0]));
        assert Collapse(s)[1..] == Collapse(s[1..]);
      }
    }
  }

  lemma {:induction false} TrimStartBehind(s: string, n: nat)
    ensures TrimStart(s + Breaks(n)) == if TrimStart(s) == "" then "" else TrimStart(s) + Breaks(n)
  {
    if s == "" {
      assert "" + Breaks(n) == Breaks(n) + "";
      TrimStartBreaks(n, "");
    } else if IsSpace(s[0]) {
      assert (s + Breaks(n))[1..] == s[1..] + Breaks(n);
      TrimStartBehind(s[1..], n);
    }
  }

  lemma LiteralBehind(s: string, n: nat, literal: string)
    requires '\n' !in literal
    ensures AfterLiteral(s + Breaks(n), literal) ==
            (match AfterLiteral(s, literal) case None => None case Some(rest) => Some(rest + Breaks(n)))
  {
    var t := s + Breaks(n);
    if |literal| <= |s| {
      assert t[..|literal|] == s[..|literal|];
      assert t[|literal|..] == s[|literal|..] + Breaks(n);
    } else if n > 0 {
      assert t[|s|] == '\n' && literal[|s|] != '\n';
    }
  }

  lemma QuotedBehind(s: string, n: nat)
    ensures QuotedOf(s + Breaks(n)).Some? <==> QuotedOf(s).Some?
  {
    if s != "" {
      var t, rest := s + Breaks(n), s[1..];
      assert t[1..] == rest + Breaks(n);
      assert '"' in t[1..] <==> '"' in rest;
    }
  }

  function WithBreaks(n: nat): string -> string
  {
    (s: string) => s + Breaks(n)
  }

  lemma PastBehind(n: nat, literal: string)
    requires '\n' !in literal && literal != ""
    ensures forall s :: CarriesAt(WithBreaks(n), Past(literal), s)
  {
    forall s ensures CarriesAt(WithBreaks(n), Past(literal), s) {
      TrimStartBehind(s, n);
      LiteralBehind(TrimStart(s), n, literal);
    }
  }

  lemma QuotedAfterBehind(n: nat)
    ensures forall s :: SucceedsAlike(WithBreaks(n), QuotedAfter, s)
  {
    forall s ensures SucceedsAlike(WithBreaks(n), QuotedAfter, s) {
      TrimStartBehind(s, n);
      QuotedBehind(TrimStart(s), n);
    }
  }

  lemma SettingBehind(n: nat)
    ensures forall s :: SucceedsAlike(WithBreaks(n), SettingAt, s)
  {
    PastBehind(n, SETTING);
    PastBehind(n, "=");
    QuotedAfterBehind(n);
    forall s ensures SucceedsAlike(WithBreaks(n), SettingAt, s) {
      InTurnCarriesOver(WithBreaks(n), Past(SETTING), Past("="), QuotedAfter, s);
    }
  }

  lemma {:induction false} FoundBehind(read: Reader, s: string, n: nat, b: bool)
    requires SkipsBreaks(read) && read("").None? && forall t :: SucceedsAlike(WithBreaks(n), read, t)
    ensures FirstAtLineStart(read, s + Breaks(n), b).Some? <==> FirstAtLineStart(read, s, b).Some?
  {
    assert SucceedsAlike(WithBreaks(n), read, s);
    if s == "" {
      assert "" + Breaks(n) == Breaks(n) + "";
      if n > 0 {
        FoundAfterBreaks(read, n, "", b);
        assert read(Breaks(n) + "") == read("");
      }
    } else {
      assert (s + Breaks(n))[1..] == s[1..] + Breaks(n);
      FoundBehind(read, s[1..], n, IsLineBreak(s[0]));
    }
  }

  /** With our block in the file, a provider counts as foreign exactly if the user's own text sets one. */
  lemma OwnBlockIsNotForeign(body: string, r: Route)
    requires MarkerFree(body) && Clean(r)
    ensures ForeignProvider(Above(body, r)).Some? <==> ForeignProvider(body).Some?
  {
    StripsTheBlock(body, r);
    IndexOfOccurs(body, BEGIN_MARKER);
    SettingCollapsed();
    SettingSkipsBreaks();
    SettingBehind(1);
    SettingBehind(3);
    NothingInNothing();
    LeadIsNotForeign(SettingAt, body);
  }

  lemma NothingInNothing()
    ensures SettingAt("").None?
  {
    assert TrimStart("") == "";
    assert SETTING != "";
    assert Past(SETTING)("").None?;
  }

  lemma LeadIsNotForeign(read: Reader, body: string)
    requires SkipsBreaks(read) && read("").None? && forall t :: SucceedsAlike(Collapsing(), read, t)
    requires forall t :: SucceedsAlike(WithBreaks(1), read, t)
    requires forall t :: SucceedsAlike(WithBreaks(3), read, t)
    ensures FirstAtLineStart(read, Collapse(Lead(body) + "\n"), true).Some? <==> FirstAtLineStart(read, body, true).Some?
  {
    FoundCollapsed(read, Lead(body) + "\n", true);
    if body == "" {
      assert Lead("") + "\n" == "" + Breaks(1);
      FoundBehind(read, "", 1, true);
    } else {
      assert Lead(body) + "\n" == body + Breaks(3);
      FoundBehind(read, body, 3, true);
    }
  }

  // ------------------------------------------------------------- what is written and read

  /** Pieces in a row, taken together another way. */
  lemma Pieces(a: string, n: string, c: string, d: string, e: string, x: string, f: string, y: string, g: string, h: string, i: string, z: string)
    ensures a + (n + (c + d + e + x) + f + y + g + (h + i)) + z + n == (a + n + c + d + e) + (x + f + y + g + h) + (i + z + n)
  {
  }

  /** What stands before the name of the provider in a block, and after its address. */
  function BlockHead(): string
  {
    BEGIN_MARKER + "\n" + COMMENT + PROVIDER + TABLE
  }

  function BlockTail(): string
  {
    WIRE + ENV_KEY + END_MARKER + "\n"
  }

  /** In the block the label stands in the name of the provider and the address below it. */
  lemma BlockReads(r: Route)
    ensures ManagedBlock(r) == BlockHead() + (NAME + r.title + BEFORE_URL + r.url + VERSION) + BlockTail()
  {
    Pieces(BEGIN_MARKER, "\n", COMMENT, PROVIDER, TABLE, NAME, r.title, BEFORE_URL, r.url, VERSION, WIRE + ENV_KEY, END_MARKER);
    Tails(VERSION, WIRE, ENV_KEY);
  }

  lemma Tails(a: string, b: string, c: string)
    ensures a + b + c == a + (b + c)
  {
  }

  /** Three or more line breaks in a row become two; any other run stays. */
  lemma BreaksCollapse(n: nat, rest: string)
    requires rest == "" || rest[0] != '\n'
    ensures Collapse(Breaks(n) + rest) == Breaks(if n > 2 then 2 else n) + Collapse(rest)
    ensures rest != "" ==> Collapse(rest) == [rest[0]] + Collapse(rest[1..])
    ensures Collapse("") == ""
  {
    CollapseRun(n, rest);
  }

  /** What is cut out reaches from the first opening marker to the end of the first closing one, if that does not come first. */
  lemma CutExactly(text: string, begin: int, end: int)
    requires OccursAt(text, BEGIN_MARKER, begin) && forall i | OccursAt(text, BEGIN_MARKER, i) :: begin <= i
    requires OccursAt(text, END_MARKER, end) && forall i | OccursAt(text, END_MARKER, i) :: end <= i
    ensures StripManagedBlock(text) == if begin <= end then Collapse(text[..begin] + text[end + |END_MARKER|..]) else text
  {
    FirstIs(text, BEGIN_MARKER, begin);
    FirstIs(text, END_MARKER, end);
  }

  lemma FirstIs(text: string, pattern: string, k: int)
    requires OccursAt(text, pattern, k) && forall i | OccursAt(text, pattern, i) :: k <= i
    ensures IndexOf(text, pattern) == Some(k)
  {
  }

  lemma NothingToCut(text: string)
    requires (forall i :: !OccursAt(text, BEGIN_MARKER, i)) || (forall i :: !OccursAt(text, END_MARKER, i))
    ensures StripManagedBlock(text) == text
  {
  }

  /** A setting: the word, an equals sign and a quoted value that is not empty, with white space before each of them or none. */
  ghost predicate SettingReads(s: string, p: string, q: string, u: string, value: string, rest: string)
  {
    && s == p + (SETTING + (q + ("=" + (u + ("\"" + (value + ("\"" + rest)))))))
    && AllSpaces(p) && AllSpaces(q) && AllSpaces(u) && value != "" && '"' !in value
  }

  lemma PastReads(pad: string, literal: string, rest: string)
    requires AllSpaces(pad) && literal != "" && !IsSpace(literal[0])
    ensures Past(literal)(pad + (literal + rest)) == Some(rest)
  {
    TrimStartDrops(pad, literal + rest);
    assert (literal + rest)[|literal|..] == rest && literal <= literal + rest;
  }

  lemma PastIs(s: string, literal: string) returns (pad: string)
    requires Past(literal)(s).Some?
    ensures AllSpaces(pad) && s == pad + (literal + Past(literal)(s).value)
  {
    pad := TrimStartLeaves(s);
    var t := TrimStart(s);
    assert t == literal + t[|literal|..];
  }

  lemma QuotedReads(pad: string, value: string, rest: string)
    requires AllSpaces(pad) && value != "" && '"' !in value
    ensures QuotedAfter(pad + ("\"" + (value + ("\"" + rest)))) == Some(value)
  {
    var t := "\"" + (value + ("\"" + rest));
    TrimStartDrops(pad, t);
    assert t[1..] == value + "\"" + rest;
    FirstChar(value, rest, '"');
  }

  lemma QuotedIs(s: string) returns (pad: string, rest: string)
    requires QuotedAfter(s).Some?
    ensures var value := QuotedAfter(s).value;
            AllSpaces(pad) && s == pad + ("\"" + (value + ("\"" + rest))) && value != "" && '"' !in value
  {
    pad := TrimStartLeaves(s);
    var t := TrimStart(s);
    var k := IndexOfChar(t[1..], '"');
    rest := t[1..][k + 1..];
    assert t == "\"" + (t[1..][..k] + ("\"" + rest));
  }

  lemma SettingIsRead(s: string, p: string, q: string, u: string, value: string, rest: string)
    requires SettingReads(s, p, q, u, value, rest)
    ensures SettingAt(s) == Some(value)
  {
    PastReads(p, SETTING, q + ("=" + (u + ("\"" + (value + ("\"" + rest))))));
    PastReads(q, "=", u + ("\"" + (value + ("\"" + rest))));
    QuotedReads(u, value, rest);
  }

  lemma SettingIs(s: string) returns (p: string, q: string, u: string, rest: string)
    requires SettingAt(s).Some?
    ensures SettingReads(s, p, q, u, SettingAt(s).value, rest)
  {
    p := PastIs(s, SETTING);
    var a := Past(SETTING)(s).value;
    q := PastIs(a, "=");
    var b := Past("=")(a).value;
    u, rest := QuotedIs(b);
  }

  /** Position `k` is the start of a line. */
  predicate LineStart(s: string, k: int)
  {
    0 <= k <= |s| && (k == 0 || s[k - 1] in "\n\r\U{2028}\U{2029}")
  }

  lemma LineStartsAre(c: char)
    ensures IsLineBreak(c) <==> c in "\n\r\U{2028}\U{2029}"
  {
    var breaks := "\n\r\U{2028}\U{2029}";
    assert breaks[0] == '\n' && breaks[1] == '\r' && breaks[2] == '\U{2028}' && breaks[3] == '\U{2029}';
  }

  lemma {:induction false} FoundAtFirst(read: Reader, s: string, atStart: bool, k: nat)
    requires k <= |s| && read(s[k..]).Some? && (if k == 0 then atStart else IsLineBreak(s[k - 1]))
    requires forall j | 0 <= j < k && (if j == 0 then atStart else IsLineBreak(s[j - 1])) :: read(s[j..]).None?
    ensures FirstAtLineStart(read, s, atStart) == read(s[k..])
    decreases k
  {
    assert s[0..] == s;
    if k > 0 {
      var tail, next := s[1..], IsLineBreak(s[0]);
      assert tail[k - 1..] == s[k..];
      forall j | 0 <= j < k - 1 && (if j == 0 then next else IsLineBreak(tail[j - 1])) ensures read(tail[j..]).None? {
        assert tail[j..] == s[j + 1..];
        assert if j + 1 == 0 then atStart else IsLineBreak(s[j]);
      }
      assert atStart ==> read(s[0..]).None?;
      FoundAtFirst(read, tail, next, k - 1);
    }
  }

  lemma {:induction false} FoundSomewhere(read: Reader, s: string, atStart: bool) returns (k: nat)
    requires FirstAtLineStart(read, s, atStart).Some?
    ensures k <= |s| && read(s[k..]).Some? && (if k == 0 then atStart else IsLineBreak(s[k - 1]))
  {
    assert s[0..] == s;
    if atStart && read(s).Some? {
      k := 0;
    } else {
      var j := FoundSomewhere(read, s[1..], IsLineBreak(s[0]));
      assert s[1..][j..] == s[j + 1..];
      k := j + 1;
    }
  }

  /** The provider that counts is that of the first line start, outside the block, where a setting stands. */
  lemma ForeignIsFirst(text: string, k: int)
    requires var rest := StripManagedBlock(text);
             && LineStart(rest, k) && SettingAt(rest[k..]).Some?
             && forall j | 0 <= j < k && LineStart(rest, j) :: SettingAt(rest[j..]).None?
    ensures ForeignProvider(text) == SettingAt(StripManagedBlock(text)[k..])
  {
    var rest := StripManagedBlock(text);
    forall c ensures IsLineBreak(c) <==> c in "\n\r\U{2028}\U{2029}" {
      LineStartsAre(c);
    }
    FoundAtFirst(SettingAt, rest, true, k);
  }

  lemma NoForeignProvider(text: string)
    requires var rest := StripManagedBlock(text); forall k | LineStart(rest, k) :: SettingAt(rest[k..]).None?
    ensures ForeignProvider(text).None?
  {
    var rest := StripManagedBlock(text);
    if ForeignProvider(text).Some? {
      var k := FoundSomewhere(SettingAt, rest, true);
      LineStartsAre(if k == 0 then '\n' else rest[k - 1]);
    }
  }
}
