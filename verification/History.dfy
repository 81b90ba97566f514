/**
 * The conversation history kept in browser storage: the newest conversations and
 * messages, within a byte budget.
 */
module History {
  import opened Wrappers
  import opened Text
  import opened Sorting

  datatype ChatMessage = ChatMessage(id: string, role: string, content: string, at: string)

  datatype Conversation = Conversation(id: string, title: string, startedAt: string, messages: seq<ChatMessage>)

  /** The stored document; its version is always 1. */
  datatype ChatHistory = ChatHistory(conversations: seq<Conversation>)

  const EMPTY := ChatHistory([])

  const MAX_CONVERSATIONS: nat := 30
  const MAX_MESSAGES_PER_CONVERSATION: nat := 200
  const MAX_HISTORY_BYTES: nat := 400_000

  /** The encoded size of a history, and its text. */
  type Size = ChatHistory -> nat
  type Encoder = ChatHistory -> string

  // --------------------------------------------------------------------- trimming

  predicate NewerFirst(a: Conversation, b: Conversation)
  {
    StrLess(b.startedAt, a.startedAt)
  }

  /** `slice(0, n)`. */
  function First<T>(s: seq<T>, n: nat): (r: seq<T>)
    ensures |r| <= n && r <= s
  {
    if |s| <= n then s else s[..n]
  }

  /** `slice(-n)`. */
  function Last<T>(s: seq<T>, n: nat): (r: seq<T>)
    ensures |r| <= n
    ensures |s| <= n ==> r == s
  {
    if |s| <= n then s else s[|s| - n..]
  }

  function TrimMessages(c: Conversation): Conversation
  {
    c.(messages := Last(c.messages, MAX_MESSAGES_PER_CONVERSATION))
  }

  function TrimEach(cs: seq<Conversation>): (r: seq<Conversation>)
    ensures |r| == |cs| && forall i | 0 <= i < |cs| :: r[i] == TrimMessages(cs[i])
  {
    seq(|cs|, i requires 0 <= i < |cs| => TrimMessages(cs[i]))
  }

  /** The newest thirty conversations, newest first, each with its newest messages. */
  function Candidates(h: ChatHistory): seq<Conversation>
  {
    TrimEach(First(Sort(h.conversations, NewerFirst), MAX_CONVERSATIONS))
  }

  predicate Fits(cs: seq<Conversation>, size: Size)
  {
    size(ChatHistory(cs)) <= MAX_HISTORY_BYTES
  }

  /** Leave out conversations from the old end until the rest fits. */
  function DropUntilFits(cs: seq<Conversation>, size: Size): seq<Conversation>
  {
    if cs != [] && !Fits(cs, size) then DropUntilFits(cs[..|cs| - 1], size) else cs
  }

  function TrimHistory(h: ChatHistory, size: Size): ChatHistory
  {
    ChatHistory(DropUntilFits(Candidates(h), size))
  }

  method TrimStored(h: ChatHistory, size: Size) returns (r: ChatHistory)
    ensures r == TrimHistory(h, size)
  {
    var conversations := TrimEach(First(Sort(h.conversations, NewerFirst), MAX_CONVERSATIONS));
    while |conversations| > 0 && size(ChatHistory(conversations)) > MAX_HISTORY_BYTES
      invariant DropUntilFits(conversations, size) == DropUntilFits(Candidates(h), size)
    {
      conversations := conversations[..|conversations| - 1];
    }
    r := ChatHistory(conversations);
  }

  // ---------------------------------------------------------------- what is kept

  /** The kept conversations are the longest prefix that fits: it fits or is empty, and none longer fits. */
  lemma {:induction false} LongestPrefixThatFits(cs: seq<Conversation>, size: Size)
    ensures var kept := DropUntilFits(cs, size);
            && kept <= cs && (kept == [] || Fits(kept, size))
            && forall k | |kept| < k <= |cs| :: !Fits(cs[..k], size)
  {
    if cs != [] && !Fits(cs, size) {
      var shorter := cs[..|cs| - 1];
      LongestPrefixThatFits(shorter, size);
      forall k | |DropUntilFits(shorter, size)| < k <= |cs| ensures !Fits(cs[..k], size) {
        if k == |cs| {
          assert cs[..k] == cs;
        } else {
          assert cs[..k] == shorter[..k];
        }
      }
    }
  }

  lemma OrderOfDates()
    ensures StrictWeakOrder(NewerFirst)
  {
    forall x: Conversation, y: Conversation ensures NewerFirst(x, y) ==> !NewerFirst(y, x) {
      StrLessIsTotal(x.startedAt, y.startedAt);
    }
    forall x: Conversation, y: Conversation, z: Conversation
      ensures NewerFirst(x, z) ==> NewerFirst(x, y) || NewerFirst(y, z)
    {
      StrLessIsTotal(y.startedAt, x.startedAt);
      StrLessIsTotal(z.startedAt, y.startedAt);
      if StrLess(z.startedAt, x.startedAt) && !StrLess(y.startedAt, x.startedAt) && x.startedAt != y.startedAt {
        StrLessIsTransitive(z.startedAt, x.startedAt, y.startedAt);
      }
    }
  }

  /** A trimmed history fits all three limits and stands newest first. */
  ghost predicate WithinLimits(h: ChatHistory, size: Size)
  {
    && |h.conversations| <= MAX_CONVERSATIONS
    && (forall c | c in h.conversations :: |c.messages| <= MAX_MESSAGES_PER_CONVERSATION)
    && (h.conversations == [] || Fits(h.conversations, size))
    && Ordered(h.conversations, NewerFirst)
  }

  /** Nothing dropped is newer than anything kept, and what is kept loses old messages only. */
  lemma TrimKeepsTheNewest(h: ChatHistory, size: Size)
    ensures WithinLimits(TrimHistory(h, size), size)
    ensures var kept, all := TrimHistory(h, size).conversations, Sort(h.conversations, NewerFirst);
            && multiset(all) == multiset(h.conversations) && Ordered(all, NewerFirst) && |kept| <= |all|
            && forall i | 0 <= i < |kept| :: kept[i] == TrimMessages(all[i])
  {
    var all, cs := Sort(h.conversations, NewerFirst), Candidates(h);
    OrderOfDates();
    SortIsOrdered(h.conversations, NewerFirst);
    LongestPrefixThatFits(cs, size);
    var kept := DropUntilFits(cs, size);
    forall i | 0 <= i < |kept| ensures kept[i] == TrimMessages(all[i]) {
      assert kept[i] == cs[i];
    }
    forall c | c in kept ensures |c.messages| <= MAX_MESSAGES_PER_CONVERSATION {
      var i :| 0 <= i < |kept| && kept[i] == c;
    }
  }

  /** A history within the limits is left as it is. */
  lemma WithinLimitsIsKept(h: ChatHistory, size: Size)
    requires WithinLimits(h, size)
    ensures TrimHistory(h, size) == h
  {
    SortOfOrdered(h.conversations, NewerFirst);
    assert TrimEach(h.conversations) == h.conversations;
  }

  /** Trimming again changes nothing. */
  lemma TrimIsIdempotent(h: ChatHistory, size: Size)
    ensures TrimHistory(TrimHistory(h, size), size) == TrimHistory(h, size)
  {
    TrimKeepsTheNewest(h, size);
    WithinLimitsIsKept(TrimHistory(h, size), size);
  }

  // -------------------------------------------------------------- stored and read

  /** What stored text parses to: an element is a conversation if it has the members of one. */
  datatype Parsed = Unreadable | Document(version: Option<int>, conversations: Option<seq<Option<Conversation>>>)

  type Parser = string -> Parsed

  function Serialize(h: ChatHistory, size: Size, encode: Encoder): string
  {
    encode(TrimHistory(h, size))
  }

  function OnlyConversations(elements: seq<Option<Conversation>>): seq<Conversation>
  {
    if elements == [] then []
    else (if elements[0].Some? then [elements[0].value] else []) + OnlyConversations(elements[1..])
  }

  function Deserialize(raw: Option<string>, size: Size, parse: Parser): ChatHistory
  {
    if raw.None? || raw.value == "" then EMPTY
    else
      match parse(raw.value)
      case Unreadable => EMPTY
      case Document(version, conversations) =>
        if version != Some(1) || conversations.None? then EMPTY
        else TrimHistory(ChatHistory(OnlyConversations(conversations.value)), size)
  }

  function AllSome(cs: seq<Conversation>): seq<Option<Conversation>>
  {
    seq(|cs|, i requires 0 <= i < |cs| => Some(cs[i]))
  }

  /** Encoding and parsing give a history back: it holds nothing JSON drops or changes. */
  ghost predicate JsonStable(h: ChatHistory, encode: Encoder, parse: Parser)
  {
    encode(h) != "" && parse(encode(h)) == Document(Some(1), Some(AllSome(h.conversations)))
  }

  lemma {:induction false} AllAreConversations(cs: seq<Conversation>)
    ensures OnlyConversations(AllSome(cs)) == cs
  {
    if cs != [] {
      assert AllSome(cs)[1..] == AllSome(cs[1..]);
      AllAreConversations(cs[1..]);
    }
  }

  /** What is stored reads back as the trimmed history. */
  lemma StoredReadsBack(h: ChatHistory, size: Size, encode: Encoder, parse: Parser)
    requires JsonStable(TrimHistory(h, size), encode, parse)
    ensures Deserialize(Some(Serialize(h, size, encode)), size, parse) == TrimHistory(h, size)
  {
    AllAreConversations(TrimHistory(h, size).conversations);
    TrimIsIdempotent(h, size);
  }

  /** Whatever is stored, what is read is within the limits. */
  lemma AnythingReadsWithinLimits(raw: Option<string>, size: Size, parse: Parser)
    ensures WithinLimits(Deserialize(raw, size, parse), size)
  {
    if raw.Some? && raw.value != "" && parse(raw.value).Document? && parse(raw.value).conversations.Some? {
      TrimKeepsTheNewest(ChatHistory(OnlyConversations(parse(raw.value).conversations.value)), size);
    }
  }

  // ------------------------------------------------------------------ what is kept, in full

  /** The conversation with the last two hundred of its messages, or all of them. */
  ghost predicate CutFrom(cut: Conversation, c: Conversation)
  {
    && cut.id == c.id && cut.title == c.title && cut.startedAt == c.startedAt
    && |cut.messages| == (if |c.messages| < 200 then |c.messages| else 200)
    && cut.messages == c.messages[|c.messages| - |cut.messages|..]
  }

  ghost predicate FirstCut(cut: seq<Conversation>, all: seq<Conversation>)
  {
    |cut| <= |all| && forall i | 0 <= i < |cut| :: CutFrom(cut[i], all[i])
  }

  lemma MessagesAreCut(c: Conversation)
    ensures CutFrom(TrimMessages(c), c)
  {
    assert c.messages[0..] == c.messages;
  }

  /** There is one way to cut the first so many conversations. */
  lemma CutIsUnique(a: seq<Conversation>, b: seq<Conversation>, all: seq<Conversation>)
    requires FirstCut(a, all) && FirstCut(b, all) && |a| == |b|
    ensures a == b
  {
    forall i | 0 <= i < |a| ensures a[i] == b[i] {
      assert CutFrom(a[i], all[i]) && CutFrom(b[i], all[i]);
    }
  }

  lemma CandidatesAreCut(h: ChatHistory)
    ensures var all := Sort(h.conversations, NewerFirst);
            FirstCut(Candidates(h), all) && |Candidates(h)| == if |all| < 30 then |all| else 30
  {
    var all, cs := Sort(h.conversations, NewerFirst), Candidates(h);
    forall i | 0 <= i < |cs| ensures CutFrom(cs[i], all[i]) {
      MessagesAreCut(all[i]);
    }
  }

  /**
   * All conversations, none before a newer one; of them the first are kept, thirty
   * at most, with their last two hundred messages, and as many as four hundred
   * thousand bytes hold.
   */
  lemma KeepsAsManyAsFit(h: ChatHistory, size: Size) returns (all: seq<Conversation>)
    ensures multiset(all) == multiset(h.conversations) && forall i, j | 0 <= i < j < |all| :: !StrLess(all[i].startedAt, all[j].startedAt)
    ensures var kept := TrimHistory(h, size).conversations;
            && FirstCut(kept, all) && |kept| <= 30 && (kept != [] ==> size(ChatHistory(kept)) <= 400_000)
            && forall more | FirstCut(more, all) && |kept| < |more| <= 30 :: size(ChatHistory(more)) > 400_000
  {
    all := Sort(h.conversations, NewerFirst);
    var cs, kept := Candidates(h), TrimHistory(h, size).conversations;
    OrderOfDates();
    SortIsOrdered(h.conversations, NewerFirst);
    forall i, j | 0 <= i < j < |all| ensures !StrLess(all[i].startedAt, all[j].startedAt) {
      assert !NewerFirst(all[j], all[i]);
    }
    CandidatesAreCut(h);
    LongestPrefixThatFits(cs, size);
    forall more | FirstCut(more, all) && |kept| < |more| <= 30 ensures size(ChatHistory(more)) > 400_000 {
      CutIsUnique(more, cs[..|more|], all);
      assert !Fits(cs[..|more|], size);
    }
  }

  lemma {:induction false} OneMoreElement(elements: seq<Option<Conversation>>, element: Option<Conversation>)
    ensures OnlyConversations([]) == []
    ensures OnlyConversations(elements + [element]) == OnlyConversations(elements) + if element.Some? then [element.value] else []
  {
    if elements == [] {
      assert [] + [element] == [element] && [element][1..] == [];
    } else {
      var first := if elements[0].Some? then [elements[0].value] else [];
      var last := if element.Some? then [element.value] else [];
      assert (elements + [element])[1..] == elements[1..] + [element];
      OneMoreElement(elements[1..], element);
      assert first + (OnlyConversations(elements[1..]) + last) == (first + OnlyConversations(elements[1..])) + last;
    }
  }

  /** Nothing stored, text that does not parse, another version or no list of conversations read as no history. */
  lemma ReadsExactly(raw: Option<string>, size: Size, parse: Parser)
    ensures var history := Deserialize(raw, size, parse);
            if raw in {None, Some("")} || parse(raw.value).Unreadable? || parse(raw.value).version != Some(1) || parse(raw.value).conversations.None?
            then history == ChatHistory([])
            else history == TrimHistory(ChatHistory(OnlyConversations(parse(raw.value).conversations.value)), size)
  {
  }
}
