/**
 * From flat log records to the observations that may leave the machine, through
 * a table of attribute keys. Formatting a date, the fallback date and the digest
 * are given as functions.
 */
module Observations {
  import opened Wrappers
  import opened Text
  import opened Otlp

  /** Which attribute supplies which field; an absent or empty key supplies nothing. */
  datatype FieldMap = FieldMap(
    model: string, upstreamRequestId: string, inputTokens: string, outputTokens: string, cacheReadTokens: string,
    cacheWriteTokens: string, reasoningTokens: string, toolTokens: string, estimatedCostMicros: string, estimatedCostUsd: string)

  type Attributes = map<string, Scalar>

  datatype Mapping = Mapping(
    adapter: string, tool: string, provider: string, eventNames: seq<string>, accept: Option<Attributes -> bool>, fields: FieldMap)

  datatype Context = Context(toolVersion: Option<string>, localSessionId: string)

  datatype Observation = Observation(
    adapter: string, tool: string, toolVersion: Option<string>, provider: string, model: Option<string>,
    upstreamRequestId: Option<string>, inputTokens: Option<nat>, outputTokens: Option<nat>, cacheReadTokens: Option<nat>,
    cacheWriteTokens: Option<nat>, reasoningTokens: Option<nat>, toolTokens: Option<nat>, estimatedCostMicros: Option<nat>,
    occurredAt: string, localSessionId: string, localEventId: string)

  datatype DateError = InvalidTime

  /** `now` gives the fallback date by the position of a record; `digest` sees the nine fields the id is made of. */
  datatype Environment = Environment(
    iso: nat -> string, now: nat -> string,
    digest: (string, string, string, Option<string>, Option<string>, Option<nat>, Option<nat>, Option<nat>, Option<nat>) -> string)

  // ------------------------------------------------------------------- one field

  function Read(a: Attributes, key: string): Option<Scalar>
  {
    if key != "" && key in a then Some(a[key]) else None
  }

  function Integer(value: Option<Scalar>): Option<nat>
  {
    match value
    case Some(Number(n)) => if n >= 0.0 then Some(n.Floor) else None
    case Some(Text(s)) => if 1 <= |s| <= 15 && AllDigits(s) then Some(ValueOf(s)) else None
    case _ => None
  }

  function TextOf(value: Option<Scalar>, max: nat): Option<string>
  {
    match value
    case Some(Text(s)) => if Trim(s) == "" then None else Some(First(Trim(s), max))
    case _ => None
  }

  /** Micro-dollars, rounded half up. */
  function UsdToMicros(value: Option<Scalar>): Option<nat>
  {
    match value
    case Some(Number(n)) => if n >= 0.0 then Some((n * 1_000_000.0 + 0.5).Floor) else None
    case _ => None
  }

  /** The last millisecond a date can show. */
  const MAX_DATE_MS: nat := 8_640_000_000_000_000

  function IsoFromNano(nano: Option<nat>, fallback: string, iso: nat -> string): Result<string, DateError>
  {
    if nano.None? || nano.value / 1_000_000 == 0 then Ok(fallback)
    else if nano.value / 1_000_000 > MAX_DATE_MS then Err(InvalidTime)
    else Ok(iso(nano.value / 1_000_000))
  }

  // ------------------------------------------------------------------ one record

  /** The record is one the mapping is about, and has a token count. */
  predicate Considered(m: Mapping, a: Attributes)
  {
    && "event.name" in a && a["event.name"].Text? && a["event.name"].s in m.eventNames
    && (m.accept.None? || m.accept.value(a))
    && (Integer(Read(a, m.fields.inputTokens)).Some? || Integer(Read(a, m.fields.outputTokens)).Some?)
  }

  function CostOf(m: Mapping, a: Attributes): Option<nat>
  {
    var micros := Integer(Read(a, m.fields.estimatedCostMicros));
    if micros.Some? then micros else UsdToMicros(Read(a, m.fields.estimatedCostUsd))
  }

  function Observed(m: Mapping, c: Context, env: Environment, a: Attributes, occurredAt: string): Observation
  {
    var f := m.fields;
    var model, request := TextOf(Read(a, f.model), 128), TextOf(Read(a, f.upstreamRequestId), 200);
    var input, output := Integer(Read(a, f.inputTokens)), Integer(Read(a, f.outputTokens));
    var cacheRead, cacheWrite := Integer(Read(a, f.cacheReadTokens)), Integer(Read(a, f.cacheWriteTokens));
    Observation(m.adapter, m.tool, c.toolVersion, m.provider, model, request, input, output, cacheRead, cacheWrite,
                Integer(Read(a, f.reasoningTokens)), Integer(Read(a, f.toolTokens)), CostOf(m, a), occurredAt, c.localSessionId,
                env.digest(m.tool, c.localSessionId, occurredAt, model, request, input, output, cacheRead, cacheWrite))
  }

  /** What one record adds; a date out of range is thrown. */
  function Normalize(m: Mapping, c: Context, env: Environment, record: FlatLogRecord, i: nat): Result<seq<Observation>, DateError>
  {
    if !Considered(m, record.attributes) then Ok([])
    else
      match IsoFromNano(record.timeUnixNano, env.now(i), env.iso)
      case Err(e) => Err(e)
      case Ok(occurredAt) => Ok([Observed(m, c, env, record.attributes, occurredAt)])
  }

  // ----------------------------------------------------------------- all records

  type Normalizer = (FlatLogRecord, nat) -> Result<seq<Observation>, DateError>

  function NormalizeBy(m: Mapping, c: Context, env: Environment): Normalizer
  {
    (record: FlatLogRecord, i: nat) => Normalize(m, c, env, record, i)
  }

  function NormalizeAll(one: Normalizer, records: seq<FlatLogRecord>): Result<seq<Observation>, DateError>
  {
    if records == [] then Ok([])
    else
      match NormalizeAll(one, records[..|records| - 1])
      case Err(e) => Err(e)
      case Ok(earlier) =>
        match one(records[|records| - 1], |records| - 1)
        case Err(e) => Err(e)
        case Ok(more) => Ok(earlier + more)
  }

  method NormalizeRecords(one: Normalizer, records: seq<FlatLogRecord>) returns (r: Result<seq<Observation>, DateError>)
    ensures r == NormalizeAll(one, records)
  {
    var observations: seq<Observation> := [];
    for i := 0 to |records|
      invariant NormalizeAll(one, records[..i]) == Ok(observations)
    {
      assert records[..i + 1][..i] == records[..i];
      var next := one(records[i], i);
      if next.Err? {
        ThrowsFrom(one, records, i + 1);
        return Err(next.error);
      }
      observations := observations + next.value;
    }
    assert records[..|records|] == records;
    return Ok(observations);
  }

  lemma {:induction false} ThrowsFrom(one: Normalizer, records: seq<FlatLogRecord>, i: nat)
    requires i <= |records| && NormalizeAll(one, records[..i]).Err?
    ensures NormalizeAll(one, records) == NormalizeAll(one, records[..i])
    decreases |records|
  {
    if i < |records| {
      assert records[..|records| - 1][..i] == records[..i];
      ThrowsFrom(one, records[..|records| - 1], i);
    } else {
      assert records[..i] == records;
    }
  }

  /** A record whose date is too late to show. */
  predicate TooLate(m: Mapping, record: FlatLogRecord)
  {
    Considered(m, record.attributes) && record.timeUnixNano.Some? && record.timeUnixNano.value / 1_000_000 > MAX_DATE_MS
  }

  lemma {:induction false} ThrowsWhereOneDoes(one: Normalizer, records: seq<FlatLogRecord>)
    ensures NormalizeAll(one, records).Err? <==> exists i | 0 <= i < |records| :: one(records[i], i).Err?
  {
    if records != [] {
      var n := |records| - 1;
      ThrowsWhereOneDoes(one, records[..n]);
      forall i | 0 <= i < n ensures one(records[..n][i], i) == one(records[i], i) {
      }
    }
  }

  /** The whole batch is lost to a thrown error exactly if some considered record is dated too late. */
  lemma ThrowsExactlyOnLateDates(m: Mapping, c: Context, env: Environment, records: seq<FlatLogRecord>)
    ensures NormalizeAll(NormalizeBy(m, c, env), records).Err? <==> exists i | 0 <= i < |records| :: TooLate(m, records[i])
  {
    ThrowsWhereOneDoes(NormalizeBy(m, c, env), records);
    forall i | 0 <= i < |records| ensures NormalizeBy(m, c, env)(records[i], i).Err? <==> TooLate(m, records[i]) {
    }
  }

  /** A mapping that wants one event and one token count, and a record of it with a numeric time of 10^22. */
  function PlainMapping(): Mapping
  {
    Mapping("adapter", "tool", "provider", ["request"], None, FieldMap("", "", "tokens", "", "", "", "", "", "", ""))
  }

  function LateRecord(): FlatLogRecord
  {
    FlatLogRecord(ParseNano(Some(Num(10_000_000_000_000_000_000_000.0))), map["event.name" := Text("request"), "tokens" := Number(1.0)], 0)
  }

  /** Such a record loses whatever is normalized with it. */
  lemma LateNumberLosesTheBatch(c: Context, env: Environment, before: seq<FlatLogRecord>, after: seq<FlatLogRecord>)
    ensures NormalizeAll(NormalizeBy(PlainMapping(), c, env), before + [LateRecord()] + after).Err?
  {
    var m, late := PlainMapping(), LateRecord();
    assert late.timeUnixNano == Some(10_000_000_000_000_000_000_000);
    assert Read(late.attributes, "tokens") == Some(Number(1.0)) && Integer(Some(Number(1.0))).Some?;
    assert m.eventNames[0] == "request" && "request" in m.eventNames;
    assert TooLate(m, late);
    assert (before + [late] + after)[|before|] == late;
    ThrowsExactlyOnLateDates(m, c, env, before + [late] + after);
  }

  /** A time written as digits is never too late: at most twenty of them are read. */
  lemma DigitsAreNeverLate(s: string)
    ensures var nano := ParseNano(Some(Str(s)));
            nano.Some? ==> nano.value / 1_000_000 <= MAX_DATE_MS
  {
    if 1 <= |s| <= 20 && AllDigits(s) {
      DigitsBound(s, 20);
      assert Pow10(20) == 10_000_000_000 * Pow10(10);
      assert Pow10(10) == 10_000_000_000;
    }
  }

  // ------------------------------------------------------------- non-interference

  /** The attributes an observation may depend on. */
  function Visible(m: Mapping, acceptKeys: set<string>): set<string>
  {
    var f := m.fields;
    {"event.name", f.model, f.upstreamRequestId, f.inputTokens, f.outputTokens, f.cacheReadTokens, f.cacheWriteTokens,
     f.reasoningTokens, f.toolTokens, f.estimatedCostMicros, f.estimatedCostUsd} + acceptKeys
  }

  ghost predicate AgreeOn(a: Attributes, b: Attributes, keys: set<string>)
  {
    forall k | k in keys :: Lookup(a, k) == Lookup(b, k)
  }

  /** The filter looks at these keys and no others. */
  ghost predicate ReadsOnly(accept: Option<Attributes -> bool>, keys: set<string>)
  {
    accept.None? || forall a, b | AgreeOn(a, b, keys) :: accept.value(a) == accept.value(b)
  }

  lemma ObservedAlike(m: Mapping, c: Context, env: Environment, acceptKeys: set<string>, a: Attributes, b: Attributes, at: string)
    requires AgreeOn(a, b, Visible(m, acceptKeys))
    ensures Observed(m, c, env, a, at) == Observed(m, c, env, b, at)
  {
  }

  /** Two entries with the same key, and the same value if the key is visible. */
  predicate EntriesAlike(x: Json, y: Json, visible: set<string>)
  {
    && Get(x, "key") == Get(y, "key")
    && (ValidKey(Get(x, "key")) && Get(x, "key").value.s in visible ==> ValueAt(x) == ValueAt(y))
  }

  ghost predicate ListsAlike(xs: seq<Json>, ys: seq<Json>, visible: set<string>)
  {
    |xs| == |ys| && forall i | 0 <= i < |xs| :: EntriesAlike(xs[i], ys[i], visible)
  }

  /** Two log records that differ in body and invisible values only. */
  ghost predicate LogsAlike(x: Json, y: Json, visible: set<string>)
  {
    && IsObject(x) == IsObject(y)
    && Get(x, "timeUnixNano") == Get(y, "timeUnixNano") && Get(x, "observedTimeUnixNano") == Get(y, "observedTimeUnixNano")
    && ListsAlike(Items(Get(x, "attributes")), Items(Get(y, "attributes")), visible)
  }

  ghost predicate GatheredAlike(g: Gathered, h: Gathered, visible: set<string>)
  {
    g.count == h.count && AgreeOn(g.attributes, h.attributes, visible)
  }

  lemma GatherAlike(toNumber: ToNumber, g: Gathered, h: Gathered, x: Json, y: Json, visible: set<string>)
    requires GatheredAlike(g, h, visible) && EntriesAlike(x, y, visible)
    ensures GatheredAlike(Gather(toNumber, g, x), Gather(toNumber, h, y), visible)
  {
  }

  lemma {:induction false} GatherAllAlike(toNumber: ToNumber, g: Gathered, h: Gathered, xs: seq<Json>, ys: seq<Json>, visible: set<string>)
    requires GatheredAlike(g, h, visible) && ListsAlike(xs, ys, visible)
    ensures GatheredAlike(GatherAll(toNumber, g, xs), GatherAll(toNumber, h, ys), visible)
    decreases |xs|
  {
    if xs != [] {
      var n := |xs| - 1;
      GatherAllAlike(toNumber, g, h, xs[..n], ys[..n], visible);
      GatherAlike(toNumber, GatherAll(toNumber, g, xs[..n]), GatherAll(toNumber, h, ys[..n]), xs[n], ys[n], visible);
    }
  }

  ghost predicate RecordsAlike(r: FlatLogRecord, s: FlatLogRecord, visible: set<string>)
  {
    r.timeUnixNano == s.timeUnixNano && AgreeOn(r.attributes, s.attributes, visible)
  }

  lemma FlatAlike(toNumber: ToNumber, x: Json, y: Json, visible: set<string>)
    requires LogsAlike(x, y, visible)
    ensures RecordsAlike(FlatOf(toNumber, x), FlatOf(toNumber, y), visible)
  {
    var g := Gathered(map[], 0, if Get(x, "body").Some? then 1 else 0);
    var h := Gathered(map[], 0, if Get(y, "body").Some? then 1 else 0);
    GatherAllAlike(toNumber, g, h, Items(Get(x, "attributes")), Items(Get(y, "attributes")), visible);
  }

  ghost predicate AllAlike(xs: seq<Json>, ys: seq<Json>, visible: set<string>)
  {
    |xs| == |ys| && forall i | 0 <= i < |xs| :: LogsAlike(xs[i], ys[i], visible)
  }

  ghost predicate AllRecordsAlike(rs: seq<FlatLogRecord>, ss: seq<FlatLogRecord>, visible: set<string>)
  {
    |rs| == |ss| && forall i | 0 <= i < |rs| :: RecordsAlike(rs[i], ss[i], visible)
  }

  /** Two log records that are both taken or both left, and if taken look alike. */
  ghost predicate PairAlike(flat: Flattener, x: Json, y: Json, visible: set<string>)
  {
    IsObject(x) == IsObject(y) && RecordsAlike(flat(x), flat(y), visible)
  }

  lemma OneMoreAlike(flat: Flattener, rs: seq<FlatLogRecord>, ss: seq<FlatLogRecord>, x: Json, y: Json, visible: set<string>)
    requires AllRecordsAlike(rs, ss, visible) && PairAlike(flat, x, y, visible)
    ensures AllRecordsAlike(Take(flat, rs, x), Take(flat, ss, y), visible)
  {
  }

  lemma {:induction false} TakenAlike(flat: Flattener, xs: seq<Json>, ys: seq<Json>, visible: set<string>)
    requires |xs| == |ys| && forall i | 0 <= i < |xs| :: PairAlike(flat, xs[i], ys[i], visible)
    ensures AllRecordsAlike(TakeAll(flat, xs), TakeAll(flat, ys), visible)
    decreases |xs|
  {
    if xs != [] {
      var n := |xs| - 1;
      TakenAlike(flat, xs[..n], ys[..n], visible);
      OneMoreAlike(flat, TakeAll(flat, xs[..n]), TakeAll(flat, ys[..n]), xs[n], ys[n], visible);
    }
  }

  lemma PairsAlike(toNumber: ToNumber, xs: seq<Json>, ys: seq<Json>, visible: set<string>)
    requires AllAlike(xs, ys, visible)
    ensures forall i | 0 <= i < |xs| :: PairAlike(FlatBy(toNumber), xs[i], ys[i], visible)
  {
    forall i | 0 <= i < |xs| ensures PairAlike(FlatBy(toNumber), xs[i], ys[i], visible) {
      assert LogsAlike(xs[i], ys[i], visible);
      FlatAlike(toNumber, xs[i], ys[i], visible);
    }
  }

  lemma NormalizedAlike(m: Mapping, c: Context, env: Environment, acceptKeys: set<string>, r: FlatLogRecord, s: FlatLogRecord, i: nat)
    requires RecordsAlike(r, s, Visible(m, acceptKeys)) && ReadsOnly(m.accept, acceptKeys)
    ensures Normalize(m, c, env, r, i) == Normalize(m, c, env, s, i)
  {
    match IsoFromNano(r.timeUnixNano, env.now(i), env.iso)
    case Err(_) =>
    case Ok(at) => ObservedAlike(m, c, env, acceptKeys, r.attributes, s.attributes, at);
  }

  lemma {:induction false} NormalizedAllAlike(m: Mapping, c: Context, env: Environment, acceptKeys: set<string>,
                                              rs: seq<FlatLogRecord>, ss: seq<FlatLogRecord>)
    requires AllRecordsAlike(rs, ss, Visible(m, acceptKeys)) && ReadsOnly(m.accept, acceptKeys)
    ensures NormalizeAll(NormalizeBy(m, c, env), rs) == NormalizeAll(NormalizeBy(m, c, env), ss)
    decreases |rs|
  {
    if rs != [] {
      var n := |rs| - 1;
      NormalizedAllAlike(m, c, env, acceptKeys, rs[..n], ss[..n]);
      NormalizedAlike(m, c, env, acceptKeys, rs[n], ss[n], n);
    }
  }

  /**
   * Non-interference: two envelopes whose log records agree on times, attribute
   * keys and the values of visible keys give the same observations, whatever
   * their bodies, complex values and other attribute values are.
   */
  lemma InvisibleContentDoesNotLeave(toNumber: ToNumber, m: Mapping, c: Context, env: Environment, acceptKeys: set<string>,
                                     p: Json, q: Json)
    requires ReadsOnly(m.accept, acceptKeys) && AllAlike(AllLogs(p), AllLogs(q), Visible(m, acceptKeys))
    ensures NormalizeAll(NormalizeBy(m, c, env), Flatten(toNumber, p)) == NormalizeAll(NormalizeBy(m, c, env), Flatten(toNumber, q))
  {
    PairsAlike(toNumber, AllLogs(p), AllLogs(q), Visible(m, acceptKeys));
    TakenAlike(FlatBy(toNumber), AllLogs(p), AllLogs(q), Visible(m, acceptKeys));
    NormalizedAllAlike(m, c, env, acceptKeys, Flatten(toNumber, p), Flatten(toNumber, q));
  }

  // -------------------------------------------------------------- what each field holds

  /** A field without a key is never read. */
  lemma ReadExactly(a: Attributes, key: string, v: Scalar)
    ensures Read(a, key) == Some(v) <==> key != "" && key in a && a[key] == v
  {
  }

  /** A count: a number that is not negative without its fraction, or up to fifteen digits. */
  lemma IntegerExactly(value: Option<Scalar>, n: nat)
    ensures Integer(value) == Some(n) <==>
              value.Some? && if value.value.Number? then n as real <= value.value.value < n as real + 1.0
                             else value.value.Text? && 1 <= |value.value.s| <= 15 && AllDigits(value.value.s) && ValueOf(value.value.s) == n
  {
  }

  /** A text: trimmed, not empty, and cut at the limit. */
  lemma TextExactly(value: Option<Scalar>, max: nat, t: string)
    ensures TextOf(value, max) == Some(t) <==>
              && value.Some? && value.value.Text? && Trim(value.value.s) != ""
              && t <= Trim(value.value.s) && |t| == if |Trim(value.value.s)| < max then |Trim(value.value.s)| else max
  {
    if value.Some? && value.value.Text? {
      FirstExactly(Trim(value.value.s), max, t);
    }
  }

  lemma FirstExactly(s: string, n: nat, t: string)
    ensures First(s, n) == t <==> t <= s && |t| == if |s| < n then |s| else n
  {
    if t <= s && |t| == |First(s, n)| {
      assert t == s[..|t|] && First(s, n) == s[..|t|];
    }
  }

  /** Micro-dollars are dollars times a million, rounded half up. */
  lemma UsdExactly(value: Option<Scalar>, micros: nat)
    ensures UsdToMicros(value) == Some(micros) <==>
              && value.Some? && value.value.Number? && value.value.value >= 0.0
              && micros as real - 0.5 <= value.value.value * 1_000_000.0 < micros as real + 0.5
  {
  }

  /** A cost stated in micro-dollars goes before one in dollars. */
  lemma CostExactly(m: Mapping, a: Attributes)
    ensures var micros := Integer(Read(a, m.fields.estimatedCostMicros));
            && (micros.Some? ==> CostOf(m, a) == micros)
            && (micros.None? ==> CostOf(m, a) == UsdToMicros(Read(a, m.fields.estimatedCostUsd)))
  {
  }

  /** Whole milliseconds are dated; none, or none that can be read, take the time of reading; too many throw. */
  lemma DateExactly(nano: Option<nat>, fallback: string, iso: nat -> string)
    ensures var date := IsoFromNano(nano, fallback, iso);
            if nano.None? || nano.value < 1_000_000 then date == Ok(fallback)
            else if nano.value < 8_640_000_000_000_001_000_000 then date == Ok(iso(nano.value / 1_000_000))
            else date == Err(InvalidTime)
  {
  }

  /** A record is considered exactly if it is an event of the tool's, is accepted, and counts tokens in or out. */
  lemma ConsideredExactly(m: Mapping, a: Attributes)
    ensures Considered(m, a) <==>
              && (exists name :: name in m.eventNames && "event.name" in a && a["event.name"] == Text(name))
              && (m.accept.Some? ==> m.accept.value(a))
              && !(Integer(Read(a, m.fields.inputTokens)).None? && Integer(Read(a, m.fields.outputTokens)).None?)
  {
  }

  /** Every field of an observation comes from the attribute the mapping names for it, or from the call. */
  lemma FieldsExactly(m: Mapping, c: Context, env: Environment, a: Attributes, at: string)
    ensures var o := Observed(m, c, env, a, at);
            && o.adapter == m.adapter && o.tool == m.tool && o.provider == m.provider
            && o.toolVersion == c.toolVersion && o.localSessionId == c.localSessionId && o.occurredAt == at
            && o.model == TextOf(Read(a, m.fields.model), 128) && o.upstreamRequestId == TextOf(Read(a, m.fields.upstreamRequestId), 200)
            && o.inputTokens == Integer(Read(a, m.fields.inputTokens)) && o.outputTokens == Integer(Read(a, m.fields.outputTokens))
            && o.cacheReadTokens == Integer(Read(a, m.fields.cacheReadTokens)) && o.cacheWriteTokens == Integer(Read(a, m.fields.cacheWriteTokens))
            && o.reasoningTokens == Integer(Read(a, m.fields.reasoningTokens)) && o.toolTokens == Integer(Read(a, m.fields.toolTokens))
            && o.estimatedCostMicros == CostOf(m, a)
            && o.localEventId == env.digest(o.tool, o.localSessionId, o.occurredAt, o.model, o.upstreamRequestId,
                                            o.inputTokens, o.outputTokens, o.cacheReadTokens, o.cacheWriteTokens)
  {
  }

  /**
   * One more record: a considered one adds its observation, at its own time or at
   * the time it is read, and any other adds nothing; a throw loses all of them.
   */
  lemma OneMoreRecord(m: Mapping, c: Context, env: Environment, records: seq<FlatLogRecord>, record: FlatLogRecord)
    ensures NormalizeAll(NormalizeBy(m, c, env), []) == Ok([])
    ensures var before, after := NormalizeAll(NormalizeBy(m, c, env), records), NormalizeAll(NormalizeBy(m, c, env), records + [record]);
            var date := IsoFromNano(record.timeUnixNano, env.now(|records|), env.iso);
            if before.Err? then after == before
            else if !Considered(m, record.attributes) then after == before
            else if date.Err? then after == Err(InvalidTime)
            else after == Ok(before.value + [Observed(m, c, env, record.attributes, date.value)])
  {
    assert (records + [record])[..|records|] == records;
    var before := NormalizeAll(NormalizeBy(m, c, env), records);
    if before.Ok? {
      assert before.value + [] == before.value;
    }
  }
}
