/** The JavaScript string operations the modelled code relies on. */
module Text {
  import opened Wrappers

  // ---------------------------------------------------------------- ordering

  /** `a < b` on strings: lexicographic, a proper prefix is smaller. */
  predicate StrLess(a: string, b: string)
  {
    if b == "" then false
    else if a == "" then true
    else if a[0] != b[0] then a[0] < b[0]
    else StrLess(a[1..], b[1..])
  }

  lemma {:induction false} StrLessIsTotal(a: string, b: string)
    ensures StrLess(a, b) || StrLess(b, a) || a == b
    ensures !(StrLess(a, b) && StrLess(b, a))
    ensures !StrLess(a, a)
  {
    if a != "" {
      StrLessIsTotal(a[1..], a[1..]);
      if b != "" && a[0] == b[0] {
        StrLessIsTotal(a[1..], b[1..]);
        assert a == [a[0]] + a[1..] && b == [b[0]] + b[1..];
      }
    }
  }

  lemma {:induction false} StrLessIsTransitive(a: string, b: string, c: string)
    requires StrLess(a, b) && StrLess(b, c)
    ensures StrLess(a, c)
  {
    if a != "" && b != "" && c != "" && a[0] == b[0] == c[0] {
      StrLessIsTransitive(a[1..], b[1..], c[1..]);
    }
  }

  // -------------------------------------------------------------- whitespace

  /** The characters `\s` matches and `trim` removes. */
  predicate IsSpace(c: char)
  {
    || c == ' ' || c == '\t' || c == '\n' || c == '\r' || c == '\U{000B}' || c == '\U{000C}'
    || c == '\U{00A0}' || c == '\U{FEFF}' || c == '\U{1680}' || c == '\U{2028}' || c == '\U{2029}'
    || c == '\U{202F}' || c == '\U{205F}' || c == '\U{3000}' || '\U{2000}' <= c <= '\U{200A}'
  }

  function TrimStart(s: string): (t: string)
    ensures |t| <= |s|
    ensures forall i | 0 <= i < |s| - |t| :: IsSpace(s[i])
    ensures t != "" ==> !IsSpace(t[0])
  {
    if s != "" && IsSpace(s[0]) then TrimStart(s[1..]) else s
  }

  function TrimEnd(s: string): (t: string)
    ensures |t| <= |s|
    ensures forall i | |t| <= i < |s| :: IsSpace(s[i])
    ensures t != "" ==> t[0] == s[0] && !IsSpace(t[|t| - 1])
  {
    if s != "" && IsSpace(s[|s| - 1]) then TrimEnd(s[..|s| - 1]) else s
  }

  function Trim(s: string): (t: string)
    ensures t != "" ==> !IsSpace(t[0]) && !IsSpace(t[|t| - 1])
  {
    TrimEnd(TrimStart(s))
  }

  /** What trimming leaves is the end, or the beginning, of the text. */
  lemma {:induction false} TrimStartIsSuffix(s: string)
    ensures TrimStart(s) == s[|s| - |TrimStart(s)|..]
  {
    if s != "" && IsSpace(s[0]) {
      TrimStartIsSuffix(s[1..]);
    }
  }

  lemma {:induction false} TrimEndIsPrefix(s: string)
    ensures TrimEnd(s) == s[..|TrimEnd(s)|]
  {
    if s != "" && IsSpace(s[|s| - 1]) {
      TrimEndIsPrefix(s[..|s| - 1]);
    }
  }

  /** A string whose ends are not whitespace is its own trimmed form. */
  lemma TrimKeeps(s: string)
    requires s == "" || (!IsSpace(s[0]) && !IsSpace(s[|s| - 1]))
    ensures TrimStart(s) == s && TrimEnd(s) == s && Trim(s) == s
  {
  }

  // ------------------------------------------------------- searching, slicing

  predicate OccursAt(s: string, pattern: string, i: int)
  {
    0 <= i <= |s| - |pattern| && s[i..i + |pattern|] == pattern
  }

  /** The first index at or after `from` where `pattern` occurs. */
  function IndexFrom(s: string, pattern: string, from: nat): (r: Option<nat>)
    ensures r.Some? ==> from <= r.value && OccursAt(s, pattern, r.value)
    ensures forall i | from <= i && OccursAt(s, pattern, i) :: r.Some? && r.value <= i
    decreases |s| - from
  {
    if from + |pattern| > |s| then None
    else if OccursAt(s, pattern, from) then Some(from)
    else IndexFrom(s, pattern, from + 1)
  }

  function IndexOf(s: string, pattern: string): (r: Option<nat>)
    ensures r.Some? ==> OccursAt(s, pattern, r.value)
    ensures forall i | OccursAt(s, pattern, i) :: r.Some? && r.value <= i
  {
    IndexFrom(s, pattern, 0)
  }

  predicate Contains(s: string, pattern: string)
  {
    IndexOf(s, pattern).Some?
  }

  predicate StartsWith(s: string, prefix: string)
  {
    prefix <= s
  }

  // -------------------------------------------------------------------- lines

  /** `s.split(c)`: the pieces between the separators, always at least one. */
  function Split(s: string, c: char): (parts: seq<string>)
    ensures |parts| >= 1
    ensures forall p | p in parts :: c !in p
    decreases |s|
  {
    if c !in s then [s]
    else
      var k := IndexOfChar(s, c);
      [s[..k]] + Split(s[k + 1..], c)
  }

  function IndexOfChar(s: string, c: char): (k: nat)
    requires c in s
    ensures k < |s| && s[k] == c && forall i | 0 <= i < k :: s[i] != c
  {
    if s[0] == c then 0 else 1 + IndexOfChar(s[1..], c)
  }

  function Join(parts: seq<string>, sep: string): string
  {
    if parts == [] then ""
    else if |parts| == 1 then parts[0]
    else parts[0] + sep + Join(parts[1..], sep)
  }

  /** Joining separator-free pieces and splitting again gives the pieces back. */
  lemma {:induction false} SplitJoin(parts: seq<string>, c: char)
    requires parts != [] && forall p | p in parts :: c !in p
    ensures Split(Join(parts, [c]), c) == parts
  {
    if |parts| > 1 {
      var s := Join(parts, [c]);
      var tail := Join(parts[1..], [c]);
      assert s == parts[0] + ([c] + tail);
      assert s[|parts[0]|] == c;
      FirstChar(parts[0], tail, c);
      SplitJoin(parts[1..], c);
    }
  }

  lemma FirstChar(p: string, tail: string, c: char)
    requires c !in p
    ensures c in p + [c] + tail && IndexOfChar(p + [c] + tail, c) == |p|
    ensures (p + [c] + tail)[..|p|] == p && (p + [c] + tail)[|p| + 1..] == tail
  {
    var s := p + [c] + tail;
    assert s[|p|] == c;
  }

  lemma JoinCons(first: string, later: seq<string>, sep: string)
    requires later != []
    ensures Join([first] + later, sep) == first + sep + Join(later, sep)
  {
    assert ([first] + later)[1..] == later;
  }

  lemma SplitHead(p: string, tail: string, c: char)
    requires c !in p
    ensures Split(p + [c] + tail, c) == [p] + Split(tail, c)
  {
    FirstChar(p, tail, c);
  }

  lemma CutAt(s: string, c: char) returns (p: string, tail: string)
    requires c in s
    ensures s == p + [c] + tail && c !in p && |tail| < |s|
  {
    var k := IndexOfChar(s, c);
    p, tail := s[..k], s[k + 1..];
  }

  lemma JoinSplitStep(p: string, tail: string, c: char)
    requires c !in p && Join(Split(tail, c), [c]) == tail
    ensures Join(Split(p + [c] + tail, c), [c]) == p + [c] + tail
  {
    SplitHead(p, tail, c);
    JoinCons(p, Split(tail, c), [c]);
  }

  /** Splitting loses nothing. */
  lemma {:induction false} JoinSplit(s: string, c: char)
    ensures Join(Split(s, c), [c]) == s
    decreases |s|
  {
    if c in s {
      var p, tail := CutAt(s, c);
      JoinSplit(tail, c);
      JoinSplitStep(p, tail, c);
    }
  }

  lemma SplitOneLine(a: string)
    requires '\n' !in a
    ensures Split(a, '\n') == [a]
  {
  }

  /** One text above another. */
  function Over(a: string, b: string): string
  {
    a + "\n" + b
  }

  lemma SplitFirst(line: string, rest: string)
    requires '\n' !in line
    ensures Split(Over(line, rest), '\n') == [line] + Split(rest, '\n')
  {
    SplitHead(line, rest, '\n');
  }

  lemma FirstLine(a: string) returns (line: string, rest: string)
    requires '\n' in a
    ensures a == Over(line, rest) && '\n' !in line && |rest| < |a|
  {
    line, rest := CutAt(a, '\n');
  }

  lemma OverAssoc(a: string, b: string, c: string)
    ensures Over(Over(a, b), c) == Over(a, Over(b, c))
  {
  }

  ghost predicate Splits(a: string, b: string)
  {
    Split(Over(a, b), '\n') == Split(a, '\n') + Split(b, '\n')
  }

  lemma SplitsStep(line: string, rest: string, b: string)
    requires '\n' !in line
    requires Split(Over(rest, b), '\n') == Split(rest, '\n') + Split(b, '\n')
    ensures Split(Over(Over(line, rest), b), '\n') == Split(Over(line, rest), '\n') + Split(b, '\n')
  {
    SplitFirst(line, rest);
    OverAssoc(line, rest, b);
    SplitFirst(line, Over(rest, b));
    ConsAssoc(line, Split(rest, '\n'), Split(b, '\n'));
  }

  lemma ConsAssoc(first: string, a: seq<string>, b: seq<string>)
    ensures [first] + (a + b) == ([first] + a) + b
  {
  }

  lemma SplitsBase(a: string, b: string)
    requires '\n' !in a
    ensures Splits(a, b)
  {
    SplitFirst(a, b);
    SplitOneLine(a);
  }

  lemma {:induction false} SplitAppend(a: string, b: string)
    ensures Splits(a, b)
    decreases |a|
  {
    if '\n' !in a {
      SplitsBase(a, b);
    } else {
      var line, rest := FirstLine(a);
      SplitAppend(rest, b);
      SplitsStep(line, rest, b);
    }
  }

  // ------------------------------------------------------------------ decimals

  predicate AllDigits(s: string)
  {
    forall i | 0 <= i < |s| :: '0' <= s[i] <= '9'
  }

  /** How many digits a string starts with. */
  function LeadingDigits(s: string): (n: nat)
    ensures n <= |s| && forall i | 0 <= i < n :: '0' <= s[i] <= '9'
    ensures n < |s| ==> !('0' <= s[n] <= '9')
  {
    if s == "" || !('0' <= s[0] <= '9') then 0 else 1 + LeadingDigits(s[1..])
  }

  function Digits(n: nat): (s: string)
    ensures s != "" && AllDigits(s)
  {
    if n < 10 then [Digit(n)] else Digits(n / 10) + [Digit(n % 10)]
  }

  function Digit(n: nat): (c: char)
    requires n < 10
    ensures '0' <= c <= '9'
  {
    '0' + n as char
  }

  function ValueOf(digits: string): nat
    requires AllDigits(digits)
  {
    if digits == "" then 0 else ValueOf(digits[..|digits| - 1]) * 10 + (digits[|digits| - 1] - '0') as nat
  }

  lemma {:induction false} DigitsRoundTrip(n: nat)
    ensures ValueOf(Digits(n)) == n
  {
    if n >= 10 {
      DigitsRoundTrip(n / 10);
      assert Digits(n)[..|Digits(n)| - 1] == Digits(n / 10);
    } else {
      assert [Digit(n)][..0] == "";
    }
  }

  function Pow10(n: nat): (p: nat)
    ensures p > 0
  {
    if n == 0 then 1 else 10 * Pow10(n - 1)
  }

  /** So many digits spell less than that power of ten. */
  lemma {:induction false} DigitsBound(s: string, n: nat)
    requires AllDigits(s) && |s| <= n
    ensures ValueOf(s) < Pow10(n)
  {
    if s != "" {
      DigitsBound(s[..|s| - 1], n - 1);
    }
  }

  // -------------------------------------------------------------- what the words mean

  /** The texts agree up to `k`, where `a` ends or has the smaller character. */
  predicate LessAt(a: string, b: string, k: int)
  {
    0 <= k <= |a| && k < |b| && a[..k] == b[..k] && (k == |a| || a[k] < b[k])
  }

  lemma LessAtTail(a: string, b: string, k: nat)
    requires a != "" && b != "" && a[0] == b[0]
    ensures LessAt(a[1..], b[1..], k) <==> LessAt(a, b, k + 1)
  {
    if k < |a| && k + 1 < |b| {
      assert a[..k + 1] == [a[0]] + a[1..][..k] && b[..k + 1] == [b[0]] + b[1..][..k];
    }
  }

  lemma SameHead(a: string, b: string, k: int)
    ensures LessAt(a, b, k) && k > 0 ==> a[0] == b[0]
  {
    if LessAt(a, b, k) && k > 0 {
      assert a[0] == a[..k][0] == b[..k][0] == b[0];
    }
  }

  /** The order of texts is that of their first difference. */
  lemma {:induction false} StrLessExactly(a: string, b: string)
    ensures StrLess(a, b) <==> exists k :: LessAt(a, b, k)
  {
    if a != "" && b != "" && a[0] == b[0] {
      StrLessExactly(a[1..], b[1..]);
      if k :| LessAt(a[1..], b[1..], k) {
        LessAtTail(a, b, k);
      }
      if k :| LessAt(a, b, k) {
        LessAtTail(a, b, k - 1);
      }
    } else if b != "" && (a == "" || a[0] < b[0]) {
      assert LessAt(a, b, 0);
    } else {
      forall k {
        SameHead(a, b, k);
      }
    }
  }

  /** White space and line terminators, by code point. */
  lemma SpacesAreThese(c: char)
    ensures IsSpace(c) <==> c as int in {9, 10, 11, 12, 13, 32, 160, 5760, 8232, 8233, 8239, 8287, 12288, 65279} || 8192 <= c as int <= 8202
  {
  }

  ghost predicate AllSpaces(s: string)
  {
    forall c | c in s :: IsSpace(c)
  }

  /** Trimming cuts off white space on both sides, and all of it. */
  lemma TrimCuts(s: string) returns (lead: string, trail: string)
    ensures s == lead + Trim(s) + trail && AllSpaces(lead) && AllSpaces(trail)
    ensures Trim(s) != "" ==> !IsSpace(Trim(s)[0]) && !IsSpace(Trim(s)[|Trim(s)| - 1])
  {
    var t := TrimStart(s);
    TrimStartIsSuffix(s);
    TrimEndIsPrefix(t);
    lead, trail := s[..|s| - |t|], t[|TrimEnd(t)|..];
    assert s == lead + t && t == TrimEnd(t) + trail;
  }

  lemma DigitsAreThese(s: string)
    ensures AllDigits(s) <==> forall c | c in s :: c in "0123456789"
  {
    forall c ensures '0' <= c <= '9' <==> c in "0123456789" {
      assert "0123456789"[0] == '0' && "0123456789"[9] == '9';
      if '0' <= c <= '9' {
        assert "0123456789"[c as int - '0' as int] == c;
      }
    }
    if forall c | c in s :: c in "0123456789" {
      forall i | 0 <= i < |s| ensures '0' <= s[i] <= '9' {
        assert s[i] in s;
      }
    }
  }

  /** In front of a text that does not start with white space, exactly the white space goes. */
  lemma {:induction false} TrimStartDrops(pad: string, t: string)
    requires AllSpaces(pad) && (t == "" || !IsSpace(t[0]))
    ensures TrimStart(pad + t) == t
  {
    if pad == "" {
      assert pad + t == t;
    } else {
      assert (pad + t)[1..] == pad[1..] + t && pad[0] in pad;
      TrimStartDrops(pad[1..], t);
    }
  }

  lemma TrimStartLeaves(s: string) returns (pad: string)
    ensures s == pad + TrimStart(s) && AllSpaces(pad) && |pad| == |s| - |TrimStart(s)|
  {
    TrimStartIsSuffix(s);
    pad := s[..|s| - |TrimStart(s)|];
    forall c | c in pad ensures IsSpace(c) {
      var i :| 0 <= i < |pad| && pad[i] == c;
      assert s[i] == c;
    }
  }
}
