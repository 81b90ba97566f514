/**
 * OTLP/HTTP logs in the JSON Protobuf Encoding, flattened to scalar attributes
 * within hard limits. Text that spells a number is read by `toNumber`.
 */
module Otlp {
  import opened Wrappers
  import opened Text

  /** What `JSON.parse` can yield; a number too large for a double is infinite. */
  datatype Json =
    | Null
    | Bool(b: bool)
    | Num(value: real)
    | Infinite
    | Str(s: string)
    | Arr(items: seq<Json>)
    | Obj(fields: map<string, Json>)

  datatype Scalar = Text(s: string) | Number(value: real) | Flag(b: bool)

  datatype FlatLogRecord = FlatLogRecord(timeUnixNano: Option<nat>, attributes: map<string, Scalar>, droppedComplexValues: nat)

  const MAX_RECORDS_PER_ENVELOPE: nat := 500
  const MAX_ATTRIBUTES_PER_RECORD: nat := 128
  const MAX_STRING_ATTRIBUTE_LENGTH: nat := 512
  const MAX_KEY_LENGTH: nat := 128

  /** A finite number, or nothing where JavaScript has `NaN` or an infinity. */
  type ToNumber = string -> Option<real>

  // ------------------------------------------------------------------- one value

  /** Reading a member of anything; only objects have the members asked for here. */
  function Get(j: Json, key: string): Option<Json>
  {
    if j.Obj? && key in j.fields then Some(j.fields[key]) else None
  }

  predicate IsObject(j: Json)
  {
    j.Obj? || j.Arr?
  }

  predicate Truthy(j: Option<Json>)
  {
    match j
    case None => false
    case Some(v) => !(v.Null? || v == Bool(false) || v == Num(0.0) || v == Str(""))
  }

  function First<T>(s: seq<T>, n: nat): (r: seq<T>)
    ensures |r| <= n && r <= s
  {
    if |s| <= n then s else s[..n]
  }

  function ScalarOf(toNumber: ToNumber, value: Json): Option<Scalar>
  {
    var text, whole := Get(value, "stringValue"), Get(value, "intValue");
    var fraction, flag := Get(value, "doubleValue"), Get(value, "boolValue");
    if text.Some? && text.value.Str? then Some(Text(First(text.value.s, MAX_STRING_ATTRIBUTE_LENGTH)))
    else if whole.Some? && whole.value.Str? then
      (match toNumber(whole.value.s) case None => None case Some(n) => Some(Number(n)))
    else if whole.Some? && whole.value.Num? then Some(Number(whole.value.value))
    else if whole.Some? && whole.value.Infinite? then None
    else if fraction.Some? && fraction.value.Num? then Some(Number(fraction.value.value))
    else if flag.Some? && flag.value.Bool? then Some(Flag(flag.value.b))
    else None
  }

  predicate IsComplex(value: Json)
  {
    Truthy(Get(value, "arrayValue")) || Truthy(Get(value, "kvlistValue")) || Truthy(Get(value, "bytesValue"))
  }

  function ParseNano(value: Option<Json>): Option<nat>
  {
    match value
    case None => None
    case Some(v) =>
      if v.Str? then (if 1 <= |v.s| <= 20 && AllDigits(v.s) then Some(ValueOf(v.s)) else None)
      else if v.Num? && v.value >= 0.0 then Some(v.value.Floor)
      else None
  }

  // --------------------------------------------------------------- the attributes

  datatype Gathered = Gathered(attributes: map<string, Scalar>, count: nat, dropped: nat)

  predicate ValidKey(key: Option<Json>)
  {
    key.Some? && key.value.Str? && 0 < |key.value.s| <= MAX_KEY_LENGTH
  }

  /** Assigning a scalar to `__proto__` has no effect. */
  function SetAttribute(attributes: map<string, Scalar>, key: string, value: Scalar): map<string, Scalar>
  {
    if key == "__proto__" then attributes else attributes[key := value]
  }

  function ValueAt(entry: Json): Json
  {
    match Get(entry, "value") case None => Null case Some(v) => v
  }

  /** Take in one entry of the attribute list. */
  function Gather(toNumber: ToNumber, g: Gathered, entry: Json): Gathered
  {
    var key := Get(entry, "key");
    if g.count >= MAX_ATTRIBUTES_PER_RECORD || !ValidKey(key) then g
    else if IsComplex(ValueAt(entry)) then Gathered(g.attributes, g.count + 1, g.dropped + 1)
    else
      match ScalarOf(toNumber, ValueAt(entry))
      case None => Gathered(g.attributes, g.count + 1, g.dropped)
      case Some(flat) => Gathered(SetAttribute(g.attributes, key.value.s, flat), g.count + 1, g.dropped)
  }

  function GatherAll(toNumber: ToNumber, start: Gathered, entries: seq<Json>): Gathered
  {
    if entries == [] then start
    else Gather(toNumber, GatherAll(toNumber, start, entries[..|entries| - 1]), entries[|entries| - 1])
  }

  function Items(j: Option<Json>): seq<Json>
  {
    if j.Some? && j.value.Arr? then j.value.items else []
  }

  function FlatOf(toNumber: ToNumber, raw: Json): FlatLogRecord
  {
    var g := GatherAll(toNumber, Gathered(map[], 0, if Get(raw, "body").Some? then 1 else 0), Items(Get(raw, "attributes")));
    var time := ParseNano(Get(raw, "timeUnixNano"));
    FlatLogRecord(if time.Some? then time else ParseNano(Get(raw, "observedTimeUnixNano")), g.attributes, g.dropped)
  }

  /** The attribute loop, which stops at the limit. */
  method GatherAttributes(toNumber: ToNumber, raw: Json) returns (g: Gathered)
    ensures g == GatherAll(toNumber, Gathered(map[], 0, if Get(raw, "body").Some? then 1 else 0), Items(Get(raw, "attributes")))
  {
    ghost var start := Gathered(map[], 0, if Get(raw, "body").Some? then 1 else 0);
    var attributes: map<string, Scalar> := map[];
    var count, dropped := 0, 0;
    if Get(raw, "body").Some? {
      dropped := dropped + 1;
    }
    var entries := Items(Get(raw, "attributes"));
    for i := 0 to |entries|
      invariant Gathered(attributes, count, dropped) == GatherAll(toNumber, start, entries[..i])
    {
      assert entries[..i + 1][..i] == entries[..i];
      if count >= MAX_ATTRIBUTES_PER_RECORD {
        GatheringStops(toNumber, start, entries, i);
        break;
      }
      var key := Get(entries[i], "key");
      if ValidKey(key) {
        count := count + 1;
        if IsComplex(ValueAt(entries[i])) {
          dropped := dropped + 1;
        } else {
          var flat := ScalarOf(toNumber, ValueAt(entries[i]));
          if flat.Some? {
            attributes := SetAttribute(attributes, key.value.s, flat.value);
          }
        }
      }
    }
    assert entries[..|entries|] == entries;
    return Gathered(attributes, count, dropped);
  }

  /** Past the limit nothing more is gathered. */
  lemma {:induction false} GatheringStops(toNumber: ToNumber, start: Gathered, entries: seq<Json>, i: nat)
    requires i <= |entries| && GatherAll(toNumber, start, entries[..i]).count >= MAX_ATTRIBUTES_PER_RECORD
    ensures GatherAll(toNumber, start, entries) == GatherAll(toNumber, start, entries[..i])
    decreases |entries|
  {
    if i < |entries| {
      var shorter := entries[..|entries| - 1];
      assert shorter[..i] == entries[..i];
      GatheringStops(toNumber, start, shorter, i);
    } else {
      assert entries[..i] == entries;
    }
  }

  // ----------------------------------------------------------------- the envelope

  /** The lists that `inner` finds in some elements, one after the other. */
  function Joined(inner: Json -> seq<Json>, elements: seq<Json>): seq<Json>
  {
    if elements == [] then [] else Joined(inner, elements[..|elements| - 1]) + inner(elements[|elements| - 1])
  }

  function LogsOfScope(scope: Json): seq<Json>
  {
    Items(Get(scope, "logRecords"))
  }

  function LogsOfResource(resource: Json): seq<Json>
  {
    Joined(LogsOfScope, Items(Get(resource, "scopeLogs")))
  }

  /** Every log record of an envelope, in order. */
  function AllLogs(payload: Json): seq<Json>
  {
    Joined(LogsOfResource, Items(Get(payload, "resourceLogs")))
  }

  type Flattener = Json -> FlatLogRecord

  function FlatBy(toNumber: ToNumber): Flattener
  {
    (raw: Json) => FlatOf(toNumber, raw)
  }

  /** Take in one log record, up to the limit. */
  function Take(flat: Flattener, records: seq<FlatLogRecord>, raw: Json): seq<FlatLogRecord>
  {
    if |records| >= MAX_RECORDS_PER_ENVELOPE || !IsObject(raw) then records else records + [flat(raw)]
  }

  function TakeAll(flat: Flattener, logs: seq<Json>): seq<FlatLogRecord>
  {
    if logs == [] then [] else Take(flat, TakeAll(flat, logs[..|logs| - 1]), logs[|logs| - 1])
  }

  function Flatten(toNumber: ToNumber, payload: Json): seq<FlatLogRecord>
  {
    TakeAll(FlatBy(toNumber), AllLogs(payload))
  }

  lemma TakeSnoc(flat: Flattener, seen: seq<Json>, raw: Json)
    ensures TakeAll(flat, seen + [raw]) == Take(flat, TakeAll(flat, seen), raw)
  {
    assert (seen + [raw])[..|seen|] == seen;
  }

  lemma {:induction false} TakingStops(flat: Flattener, seen: seq<Json>, logs: seq<Json>)
    requires seen <= logs && |TakeAll(flat, seen)| >= MAX_RECORDS_PER_ENVELOPE
    ensures TakeAll(flat, logs) == TakeAll(flat, seen)
    decreases |logs|
  {
    if |seen| < |logs| {
      TakingStops(flat, seen, logs[..|logs| - 1]);
    } else {
      assert seen == logs;
    }
  }

  lemma {:induction false} JoinedPrefix(inner: Json -> seq<Json>, elements: seq<Json>, i: nat)
    requires i <= |elements|
    ensures Joined(inner, elements[..i]) <= Joined(inner, elements)
    decreases |elements|
  {
    if i < |elements| {
      var shorter := elements[..|elements| - 1];
      assert shorter[..i] == elements[..i];
      JoinedPrefix(inner, shorter, i);
    } else {
      assert elements[..i] == elements;
    }
  }

  lemma JoinedStep(inner: Json -> seq<Json>, elements: seq<Json>, i: nat)
    requires i < |elements|
    ensures Joined(inner, elements[..i + 1]) == Joined(inner, elements[..i]) + inner(elements[i])
  {
    assert elements[..i + 1][..i] == elements[..i];
  }

  /** Records seen part of the way through resource `i`, scope `j`, record `k`. */
  function Seen(resources: seq<Json>, i: nat, scopes: seq<Json>, j: nat, logs: seq<Json>, k: nat): seq<Json>
    requires i <= |resources| && j <= |scopes| && k <= |logs|
  {
    Joined(LogsOfResource, resources[..i]) + Joined(LogsOfScope, scopes[..j]) + logs[..k]
  }

  lemma SeenIsPrefix(resources: seq<Json>, i: nat, scopes: seq<Json>, j: nat, logs: seq<Json>, k: nat)
    requires i < |resources| && j < |scopes| && k <= |logs|
    requires scopes == Items(Get(resources[i], "scopeLogs")) && logs == LogsOfScope(scopes[j])
    ensures Seen(resources, i, scopes, j, logs, k) <= Joined(LogsOfResource, resources)
  {
    var before := Joined(LogsOfResource, resources[..i]);
    JoinedStep(LogsOfResource, resources, i);
    JoinedPrefix(LogsOfResource, resources, i + 1);
    JoinedStep(LogsOfScope, scopes, j);
    JoinedPrefix(LogsOfScope, scopes, j + 1);
    PrefixChain(before, Joined(LogsOfScope, scopes[..j]), logs, k, LogsOfResource(resources[i]), Joined(LogsOfResource, resources));
  }

  lemma PrefixChain<T>(a: seq<T>, b: seq<T>, c: seq<T>, k: nat, whole: seq<T>, all: seq<T>)
    requires k <= |c| && b + c <= whole && a + whole <= all
    ensures a + b + c[..k] <= all
  {
    assert whole[..|b| + k] == b + c[..k];
    assert all[..|a| + |b| + k] == a + whole[..|b| + k];
  }

  /** The three nested loops, left at once when the limit is reached. */
  method FlattenOtlpLogs(flat: Flattener, payload: Json) returns (records: seq<FlatLogRecord>)
    ensures records == TakeAll(flat, AllLogs(payload))
  {
    records := [];
    var resources := Items(Get(payload, "resourceLogs"));
    for i := 0 to |resources|
      invariant records == TakeAll(flat, Joined(LogsOfResource, resources[..i]))
    {
      var scopes := Items(Get(resources[i], "scopeLogs"));
      StartOfResource(resources, i, scopes);
      for j := 0 to |scopes|
        invariant records == TakeAll(flat, Seen(resources, i, scopes, j, [], 0))
      {
        var logs := LogsOfScope(scopes[j]);
        StartOfScope(resources, i, scopes, j, logs);
        for k := 0 to |logs|
          invariant records == TakeAll(flat, Seen(resources, i, scopes, j, logs, k))
        {
          if |records| >= MAX_RECORDS_PER_ENVELOPE {
            StopsHere(flat, payload, resources, i, scopes, j, logs, k);
            return;
          }
          TakesNext(flat, resources, i, scopes, j, logs, k);
          if IsObject(logs[k]) {
            records := records + [flat(logs[k])];
          }
        }
        EndOfScope(resources, i, scopes, j, logs);
      }
      EndOfResource(resources, i, scopes);
    }
    assert resources[..|resources|] == resources;
  }

  /** Once the records are full nothing behind this log is taken. */
  lemma StopsHere(flat: Flattener, payload: Json, resources: seq<Json>, i: nat, scopes: seq<Json>, j: nat, logs: seq<Json>, k: nat)
    requires resources == Items(Get(payload, "resourceLogs")) && i < |resources| && j < |scopes| && k <= |logs|
    requires scopes == Items(Get(resources[i], "scopeLogs")) && logs == LogsOfScope(scopes[j])
    requires |TakeAll(flat, Seen(resources, i, scopes, j, logs, k))| >= MAX_RECORDS_PER_ENVELOPE
    ensures TakeAll(flat, AllLogs(payload)) == TakeAll(flat, Seen(resources, i, scopes, j, logs, k))
  {
    SeenIsPrefix(resources, i, scopes, j, logs, k);
    TakingStops(flat, Seen(resources, i, scopes, j, logs, k), AllLogs(payload));
  }

  lemma TakesNext(flat: Flattener, resources: seq<Json>, i: nat, scopes: seq<Json>, j: nat, logs: seq<Json>, k: nat)
    requires i < |resources| && j < |scopes| && k < |logs|
    ensures TakeAll(flat, Seen(resources, i, scopes, j, logs, k + 1)) == Take(flat, TakeAll(flat, Seen(resources, i, scopes, j, logs, k)), logs[k])
  {
    SeenStep(resources, i, scopes, j, logs, k);
    TakeSnoc(flat, Seen(resources, i, scopes, j, logs, k), logs[k]);
  }

  lemma StartOfResource(resources: seq<Json>, i: nat, scopes: seq<Json>)
    requires i < |resources|
    ensures Seen(resources, i, scopes, 0, [], 0) == Joined(LogsOfResource, resources[..i])
  {
  }

  lemma StartOfScope(resources: seq<Json>, i: nat, scopes: seq<Json>, j: nat, logs: seq<Json>)
    requires i < |resources| && j < |scopes|
    ensures Seen(resources, i, scopes, j, logs, 0) == Seen(resources, i, scopes, j, [], 0)
  {
  }

  lemma EndOfScope(resources: seq<Json>, i: nat, scopes: seq<Json>, j: nat, logs: seq<Json>)
    requires i < |resources| && j < |scopes| && logs == LogsOfScope(scopes[j])
    ensures Seen(resources, i, scopes, j, logs, |logs|) == Seen(resources, i, scopes, j + 1, [], 0)
  {
    JoinedStep(LogsOfScope, scopes, j);
    assert logs[..|logs|] == logs;
    AssocAll(Joined(LogsOfResource, resources[..i]), Joined(LogsOfScope, scopes[..j]), logs);
  }

  lemma EndOfResource(resources: seq<Json>, i: nat, scopes: seq<Json>)
    requires i < |resources| && scopes == Items(Get(resources[i], "scopeLogs"))
    ensures Seen(resources, i, scopes, |scopes|, [], 0) == Joined(LogsOfResource, resources[..i + 1])
  {
    JoinedStep(LogsOfResource, resources, i);
    assert scopes[..|scopes|] == scopes;
    AssocAll(Joined(LogsOfResource, resources[..i]), Joined(LogsOfScope, scopes), []);
  }

  lemma AssocAll<T>(a: seq<T>, b: seq<T>, c: seq<T>)
    ensures a + b + c == a + (b + c) && a + b + [] == a + b && c[..|c|] == c && b + [] == b
  {
  }

  lemma SeenStep(resources: seq<Json>, i: nat, scopes: seq<Json>, j: nat, logs: seq<Json>, k: nat)
    requires i < |resources| && j < |scopes| && k < |logs|
    ensures Seen(resources, i, scopes, j, logs, k + 1) == Seen(resources, i, scopes, j, logs, k) + [logs[k]]
  {
    assert logs[..k + 1] == logs[..k] + [logs[k]];
  }

  // ------------------------------------------------------------ what comes through

  function Objects(logs: seq<Json>): seq<Json>
  {
    if logs == [] then []
    else Objects(logs[..|logs| - 1]) + (if IsObject(logs[|logs| - 1]) then [logs[|logs| - 1]] else [])
  }

  /** The result is one flat record for each of the first 500 objects, in order. */
  lemma {:induction false} FirstObjectsAreTaken(flat: Flattener, logs: seq<Json>)
    ensures |TakeAll(flat, logs)| == |First(Objects(logs), MAX_RECORDS_PER_ENVELOPE)|
    ensures forall i | 0 <= i < |TakeAll(flat, logs)| :: TakeAll(flat, logs)[i] == flat(Objects(logs)[i])
  {
    if logs != [] {
      FirstObjectsAreTaken(flat, logs[..|logs| - 1]);
    }
  }

  predicate ValidEntry(entry: Json)
  {
    ValidKey(Get(entry, "key"))
  }

  function CountValid(entries: seq<Json>): nat
  {
    if entries == [] then 0 else CountValid(entries[..|entries| - 1]) + (if ValidEntry(entries[|entries| - 1]) then 1 else 0)
  }

  /** Entry `i` is among the first 128 with a valid key. */
  predicate Within(entries: seq<Json>, i: nat)
    requires i <= |entries|
  {
    CountValid(entries[..i]) < MAX_ATTRIBUTES_PER_RECORD
  }

  /** The scalar an entry supplies for `key`, if it does. */
  function SuppliedBy(toNumber: ToNumber, key: string): Json -> Option<Scalar>
  {
    (entry: Json) =>
      if Get(entry, "key") == Some(Str(key)) && !IsComplex(ValueAt(entry)) then ScalarOf(toNumber, ValueAt(entry)) else None
  }

  function Lookup(attributes: map<string, Scalar>, key: string): Option<Scalar>
  {
    if key in attributes then Some(attributes[key]) else None
  }

  /** `r` is what the last entry within the limit that supplies anything supplies. */
  ghost predicate LastSupplied(supplied: Json -> Option<Scalar>, entries: seq<Json>, r: Option<Scalar>)
  {
    if r.None? then forall j | 0 <= j < |entries| && Within(entries, j) :: supplied(entries[j]).None?
    else exists i | 0 <= i < |entries| && Within(entries, i) ::
           supplied(entries[i]) == r && forall j | i < j < |entries| && Within(entries, j) :: supplied(entries[j]).None?
  }

  lemma {:induction false} CountIsLimited(toNumber: ToNumber, dropped: nat, entries: seq<Json>)
    ensures GatherAll(toNumber, Gathered(map[], 0, dropped), entries).count ==
            if CountValid(entries) < MAX_ATTRIBUTES_PER_RECORD then CountValid(entries) else MAX_ATTRIBUTES_PER_RECORD
  {
    if entries != [] {
      CountIsLimited(toNumber, dropped, entries[..|entries| - 1]);
    }
  }

  lemma GatherOne(toNumber: ToNumber, g: Gathered, entry: Json, key: string)
    requires 0 < |key| <= MAX_KEY_LENGTH && key != "__proto__"
    ensures Lookup(Gather(toNumber, g, entry).attributes, key) ==
            if g.count < MAX_ATTRIBUTES_PER_RECORD && SuppliedBy(toNumber, key)(entry).Some? then SuppliedBy(toNumber, key)(entry)
            else Lookup(g.attributes, key)
  {
  }

  /** An attribute is the scalar of the last entry, within the limit, that supplies its key. */
  lemma {:induction false} AttributeIsLastSupplied(toNumber: ToNumber, dropped: nat, entries: seq<Json>, key: string)
    requires 0 < |key| <= MAX_KEY_LENGTH && key != "__proto__"
    ensures LastSupplied(SuppliedBy(toNumber, key), entries,
                         Lookup(GatherAll(toNumber, Gathered(map[], 0, dropped), entries).attributes, key))
  {
    if entries != [] {
      var before, entry := entries[..|entries| - 1], entries[|entries| - 1];
      var g := GatherAll(toNumber, Gathered(map[], 0, dropped), before);
      AttributeIsLastSupplied(toNumber, dropped, before, key);
      CountIsLimited(toNumber, dropped, before);
      GatherOne(toNumber, g, entry, key);
      LastOfOneMore(SuppliedBy(toNumber, key), entries, Lookup(g.attributes, key));
    }
  }

  lemma LastOfOneMore(supplied: Json -> Option<Scalar>, entries: seq<Json>, r: Option<Scalar>)
    requires entries != [] && LastSupplied(supplied, entries[..|entries| - 1], r)
    ensures var n := |entries| - 1;
            LastSupplied(supplied, entries, if Within(entries, n) && supplied(entries[n]).Some? then supplied(entries[n]) else r)
  {
    var n := |entries| - 1;
    var before := entries[..n];
    WithinPrefix(entries, n);
    if Within(entries, n) && supplied(entries[n]).Some? {
      NewestIsLast(supplied, entries);
    } else if r.Some? {
      var i :| 0 <= i < n && Within(before, i) && supplied(before[i]) == r
               && forall j | i < j < n && Within(before, j) :: supplied(before[j]).None?;
      forall j | i < j < n && Within(entries, j) ensures supplied(entries[j]).None? {
        assert before[j] == entries[j];
      }
      OneMoreAfter(supplied, entries, i);
    } else {
      forall j | 0 <= j < |entries| && Within(entries, j) ensures supplied(entries[j]).None? {
        if j < n {
          assert before[j] == entries[j];
        }
      }
    }
  }

  lemma WithinPrefix(entries: seq<Json>, n: nat)
    requires n <= |entries|
    ensures forall j | 0 <= j < n :: Within(entries[..n], j) <==> Within(entries, j)
  {
    forall j | 0 <= j < n ensures Within(entries[..n], j) <==> Within(entries, j) {
      assert entries[..n][..j] == entries[..j];
    }
  }

  lemma NewestIsLast(supplied: Json -> Option<Scalar>, entries: seq<Json>)
    requires entries != [] && Within(entries, |entries| - 1) && supplied(entries[|entries| - 1]).Some?
    ensures LastSupplied(supplied, entries, supplied(entries[|entries| - 1]))
  {
    var n := |entries| - 1;
    assert 0 <= n < |entries| && Within(entries, n) && supplied(entries[n]) == supplied(entries[|entries| - 1]);
  }

  lemma OneMoreAfter(supplied: Json -> Option<Scalar>, entries: seq<Json>, i: nat)
    requires i < |entries| - 1 && Within(entries, i) && supplied(entries[i]).Some?
    requires forall j | i < j < |entries| - 1 && Within(entries, j) :: supplied(entries[j]).None?
    requires !(Within(entries, |entries| - 1) && supplied(entries[|entries| - 1]).Some?)
    ensures LastSupplied(supplied, entries, supplied(entries[i]))
  {
    forall j | i < j < |entries| && Within(entries, j) ensures supplied(entries[j]).None? {
    }
  }

  // ------------------------------------------------------------- what each part reads

  /** A member is there only on an object that has it; a list only if the member is one. */
  lemma MembersExactly(fields: map<string, Json>, key: string, v: Json, other: Json)
    ensures Get(Obj(fields), key) == Some(v) <==> key in fields && fields[key] == v
    ensures !other.Obj? ==> Get(other, key).None?
    ensures Items(None) == [] && (v.Arr? ==> Items(Some(v)) == v.items) && (!v.Arr? ==> Items(Some(v)) == [])
  {
  }

  /**
   * A text is taken first, cut at 512 characters; then a whole number, as text or
   * as a number; then a fraction; then a flag. A whole number that is no number
   * ends the search.
   */
  lemma ScalarExactly(toNumber: ToNumber, fields: map<string, Json>, other: Json)
    ensures !other.Obj? ==> ScalarOf(toNumber, other).None?
    ensures var out := ScalarOf(toNumber, Obj(fields));
            var has := (key: string, want: Json -> bool) => key in fields && want(fields[key]);
            if "stringValue" in fields && fields["stringValue"].Str? then
              var s := fields["stringValue"].s;
              out.Some? && out.value.Text? && out.value.s <= s && |out.value.s| == if |s| < 512 then |s| else 512
            else if "intValue" in fields && fields["intValue"].Str? then
              (var n := toNumber(fields["intValue"].s); if n.Some? then out == Some(Number(n.value)) else out.None?)
            else if "intValue" in fields && fields["intValue"].Num? then out == Some(Number(fields["intValue"].value))
            else if "intValue" in fields && fields["intValue"].Infinite? then out.None?
            else if "doubleValue" in fields && fields["doubleValue"].Num? then out == Some(Number(fields["doubleValue"].value))
            else if "boolValue" in fields && fields["boolValue"].Bool? then out == Some(Flag(fields["boolValue"].b))
            else out.None?
  {
  }

  /** A value is complex if one of three members is there and is not null, false, zero or the empty text. */
  lemma ComplexExactly(fields: map<string, Json>, other: Json)
    ensures !other.Obj? ==> !IsComplex(other)
    ensures IsComplex(Obj(fields)) <==>
              exists key :: key in {"arrayValue", "kvlistValue", "bytesValue"} && key in fields
                            && fields[key] !in {Null, Bool(false), Num(0.0), Str("")}
  {
    var filled := (key: string) => key in fields && fields[key] !in {Null, Bool(false), Num(0.0), Str("")};
    assert IsComplex(Obj(fields)) <==> filled("arrayValue") || filled("kvlistValue") || filled("bytesValue");
  }

  /** A time is up to twenty digits or a number that is not negative, without its fraction. */
  lemma NanoExactly(value: Option<Json>, n: nat)
    ensures ParseNano(value) == Some(n) <==>
              value.Some? && if value.value.Str? then 1 <= |value.value.s| <= 20 && AllDigits(value.value.s) && ValueOf(value.value.s) == n
                             else value.value.Num? && n as real <= value.value.value < n as real + 1.0
  {
  }

  /** The time of a record is the first of two that can be read; a body counts as one value dropped. */
  lemma FlatExactly(toNumber: ToNumber, raw: Json)
    ensures var flat := FlatOf(toNumber, raw);
            var time, observed := ParseNano(Get(raw, "timeUnixNano")), ParseNano(Get(raw, "observedTimeUnixNano"));
            var g := GatherAll(toNumber, Gathered(map[], 0, if raw.Obj? && "body" in raw.fields then 1 else 0), Items(Get(raw, "attributes")));
            && (time.Some? ==> flat.timeUnixNano == time) && (time.None? ==> flat.timeUnixNano == observed)
            && flat.attributes == g.attributes && flat.droppedComplexValues == g.dropped
  {
  }

  /** An entry counts exactly if its key is a text of one to 128 characters. */
  lemma CountsExactly(entries: seq<Json>, entry: Json)
    ensures CountValid([]) == 0
    ensures CountValid(entries + [entry]) == CountValid(entries)
              + if entry.Obj? && "key" in entry.fields && entry.fields["key"].Str? && 0 < |entry.fields["key"].s| <= 128 then 1 else 0
  {
    assert (entries + [entry])[..|entries|] == entries;
  }

  /** One more entry drops a value exactly if it counts, comes before the limit, and is complex. */
  lemma DroppedExactly(toNumber: ToNumber, dropped: nat, entries: seq<Json>, entry: Json)
    ensures GatherAll(toNumber, Gathered(map[], 0, dropped), []).dropped == dropped
    ensures var before := GatherAll(toNumber, Gathered(map[], 0, dropped), entries);
            GatherAll(toNumber, Gathered(map[], 0, dropped), entries + [entry]).dropped == before.dropped
              + if CountValid(entries) < 128 && ValidEntry(entry) && IsComplex(ValueAt(entry)) then 1 else 0
  {
    CountIsLimited(toNumber, dropped, entries);
    assert (entries + [entry])[..|entries|] == entries;
  }

  /** Only such keys become attributes, and never the one that names a prototype. */
  lemma {:induction false} KeysAreValid(toNumber: ToNumber, dropped: nat, entries: seq<Json>)
    ensures forall key | key in GatherAll(toNumber, Gathered(map[], 0, dropped), entries).attributes :: 0 < |key| <= 128 && key != "__proto__"
  {
    if entries != [] {
      KeysAreValid(toNumber, dropped, entries[..|entries| - 1]);
    }
  }

  /** The value of an entry, and what supplies an attribute: an entry with its key and a value that is not complex. */
  lemma SuppliesExactly(toNumber: ToNumber, key: string, fields: map<string, Json>)
    ensures ValueAt(Obj(fields)) == if "value" in fields then fields["value"] else Null
    ensures var value := if "value" in fields then fields["value"] else Null;
            SuppliedBy(toNumber, key)(Obj(fields)) ==
            if "key" in fields && fields["key"] == Str(key) && !IsComplex(value) then ScalarOf(toNumber, value) else None
  {
  }

  lemma ObjectsOfOneMore(logs: seq<Json>, log: Json)
    ensures Objects([]) == [] && Objects(logs + [log]) == Objects(logs) + if log.Obj? || log.Arr? then [log] else []
  {
    assert (logs + [log])[..|logs|] == logs;
  }

  /** Logs stand in scopes and scopes in resources. */
  lemma LogsStandInside(logs: seq<Json>)
    ensures AllLogs(Obj(map["resourceLogs" := Arr([Obj(map["scopeLogs" := Arr([Obj(map["logRecords" := Arr(logs)])])])])])) == logs
  {
    var scope := Obj(map["logRecords" := Arr(logs)]);
    var resource := Obj(map["scopeLogs" := Arr([scope])]);
    assert [scope][..0] == [] && [resource][..0] == [];
    assert Joined(LogsOfScope, [scope]) == [] + LogsOfScope(scope) == logs;
    assert Joined(LogsOfResource, [resource]) == [] + LogsOfResource(resource) == logs;
  }
}
