/**
 * Inserting deduplicated batches, over any sequence of runs by any users: the
 * first stored event of an economic key is the only one that can earn.
 */
module OneUnit {
  import opened Wrappers
  import opened Text
  import opened Database
  import opened Dedupe

  predicate Stored(events: seq<Event>, key: NaturalKey)
  {
    exists e :: e in events && EventKey(e) == key
  }

  /** One row of an insert that ignores natural-key conflicts. */
  function InsertOne(events: seq<Event>, userId: string, record: UsageRecord): seq<Event>
  {
    if Stored(events, KeyOf(userId, record)) then events else events + [Event(|events|, userId, record)]
  }

  function InsertAll(events: seq<Event>, userId: string, records: seq<UsageRecord>): (out: seq<Event>)
    ensures events <= out
    decreases |records|
  {
    if records == [] then events
    else InsertOne(InsertAll(events, userId, records[..|records| - 1]), userId, records[|records| - 1])
  }

  /** Inserting in chunks inserts the same rows. */
  lemma {:induction false} InsertInChunks(events: seq<Event>, userId: string, a: seq<UsageRecord>, b: seq<UsageRecord>)
    ensures InsertAll(events, userId, a + b) == InsertAll(InsertAll(events, userId, a), userId, b)
    decreases |b|
  {
    if b == [] {
      assert a + b == a;
    } else {
      assert (a + b)[..|a + b| - 1] == a + b[..|b| - 1];
      InsertInChunks(events, userId, a, b[..|b| - 1]);
    }
  }

  /** What one ingest run does to the event table. */
  function RunEvents(events: seq<Event>, userId: string, records: seq<UsageRecord>): (out: seq<Event>)
    ensures events <= out
  {
    InsertAll(events, userId, Deduped(events, userId, records))
  }

  // ------------------------------------------------------------ which rows are new

  /** The first record of the batch with this natural key: the one an insert stores. */
  function FirstWith(records: seq<UsageRecord>, userId: string, key: NaturalKey): (r: Option<UsageRecord>)
    ensures r.Some? <==> exists x :: x in records && KeyOf(userId, x) == key
    ensures r.Some? ==> r.value in records && KeyOf(userId, r.value) == key
  {
    if records == [] then None
    else
      var earlier := FirstWith(records[..|records| - 1], userId, key);
      var last := records[|records| - 1];
      if earlier.Some? then earlier else if KeyOf(userId, last) == key then Some(last) else None
  }

  /** Each new row is the first record with its natural key. */
  ghost predicate RowsAreFirst(events: seq<Event>, now: seq<Event>, userId: string, records: seq<UsageRecord>)
  {
    && events <= now
    && (forall i | |events| <= i < |now| :: RowIsFirst(now, i, userId, records) && !Stored(events, EventKey(now[i])))
  }

  ghost predicate RowIsFirst(now: seq<Event>, i: nat, userId: string, records: seq<UsageRecord>)
    requires i < |now|
  {
    now[i].id == i && now[i].userId == userId && FirstWith(records, userId, EventKey(now[i])) == Some(now[i].record)
  }

  /** Each natural key that was not stored before has its row. */
  ghost predicate NoneIsMissing(events: seq<Event>, now: seq<Event>, userId: string, records: seq<UsageRecord>)
  {
    forall r | r in records && !Stored(events, KeyOf(userId, r)) :: FirstRowOf(now, |events|, FirstWith(records, userId, KeyOf(userId, r)))
  }

  ghost predicate FirstRowOf(now: seq<Event>, from: nat, record: Option<UsageRecord>)
  {
    record.Some? && exists i :: from <= i < |now| && now[i].record == record.value
  }

  lemma FirstWithSnoc(shorter: seq<UsageRecord>, last: UsageRecord, userId: string, key: NaturalKey)
    ensures FirstWith(shorter + [last], userId, key) ==
            if FirstWith(shorter, userId, key).Some? then FirstWith(shorter, userId, key)
            else if KeyOf(userId, last) == key then Some(last) else None
  {
    assert (shorter + [last])[..|shorter + [last]| - 1] == shorter;
  }

  lemma {:induction false} FirstRowsAreStored(events: seq<Event>, userId: string, records: seq<UsageRecord>)
    ensures RowsAreFirst(events, InsertAll(events, userId, records), userId, records)
    ensures NoneIsMissing(events, InsertAll(events, userId, records), userId, records)
    decreases |records|
  {
    if records != [] {
      var shorter, last := records[..|records| - 1], records[|records| - 1];
      var before := InsertAll(events, userId, shorter);
      assert records == shorter + [last];
      FirstRowsAreStored(events, userId, shorter);
      AddedRowIsFirst(events, before, userId, shorter, last);
      AddedRowIsNotMissing(events, before, userId, shorter, last);
    }
  }

  lemma AddedRowIsFirst(events: seq<Event>, before: seq<Event>, userId: string, shorter: seq<UsageRecord>, last: UsageRecord)
    requires RowsAreFirst(events, before, userId, shorter) && NoneIsMissing(events, before, userId, shorter)
    ensures RowsAreFirst(events, InsertOne(before, userId, last), userId, shorter + [last])
  {
    var now := InsertOne(before, userId, last);
    forall i | |events| <= i < |now|
      ensures RowIsFirst(now, i, userId, shorter + [last]) && !Stored(events, EventKey(now[i]))
    {
      FirstWithSnoc(shorter, last, userId, EventKey(now[i]));
      if i < |before| {
        assert now[i] == before[i] && RowIsFirst(before, i, userId, shorter);
      } else {
        StoredExactlyIfBrought(events, before, userId, shorter, KeyOf(userId, last));
      }
    }
  }

  /** After the first part of a batch a key is stored exactly if it was before or a record brought it. */
  lemma StoredExactlyIfBrought(events: seq<Event>, before: seq<Event>, userId: string, shorter: seq<UsageRecord>, key: NaturalKey)
    requires RowsAreFirst(events, before, userId, shorter) && NoneIsMissing(events, before, userId, shorter)
    ensures Stored(before, key) <==> Stored(events, key) || FirstWith(shorter, userId, key).Some?
  {
    if e :| e in before && EventKey(e) == key {
      var i :| 0 <= i < |before| && before[i] == e;
      if i < |events| {
        assert e == events[i];
      } else {
        assert RowIsFirst(before, i, userId, shorter);
      }
    }
    if e :| e in events && EventKey(e) == key {
      assert e in before;
    }
    if !Stored(events, key) && FirstWith(shorter, userId, key).Some? {
      var r := FirstWith(shorter, userId, key).value;
      assert FirstRowOf(before, |events|, FirstWith(shorter, userId, KeyOf(userId, r)));
      var i :| |events| <= i < |before| && before[i].record == r;
      assert RowIsFirst(before, i, userId, shorter) && before[i] in before;
    }
  }

  lemma AddedRowIsNotMissing(events: seq<Event>, before: seq<Event>, userId: string, shorter: seq<UsageRecord>, last: UsageRecord)
    requires RowsAreFirst(events, before, userId, shorter) && NoneIsMissing(events, before, userId, shorter)
    ensures NoneIsMissing(events, InsertOne(before, userId, last), userId, shorter + [last])
  {
    var records, now := shorter + [last], InsertOne(before, userId, last);
    forall r | r in records && !Stored(events, KeyOf(userId, r))
      ensures FirstRowOf(now, |events|, FirstWith(records, userId, KeyOf(userId, r)))
    {
      var key := KeyOf(userId, r);
      FirstWithSnoc(shorter, last, userId, key);
      if FirstWith(shorter, userId, key).Some? {
        var first := FirstWith(shorter, userId, key).value;
        assert FirstRowOf(before, |events|, FirstWith(shorter, userId, KeyOf(userId, first)));
        var i :| |events| <= i < |before| && before[i].record == first;
        assert now[i] == before[i];
      } else {
        assert r == last;
        StoredExactlyIfBrought(events, before, userId, shorter, key);
        assert now[|before|].record == last;
      }
    }
  }

  // -------------------------------------------------------------------- invariants

  /** Every event that is not the first with its key is marked, held and worth nothing. */
  ghost predicate FirstEarnsOnly(events: seq<Event>)
  {
    forall i, j | 0 <= i < j < |events| ::
      events[i].record.economicKey.Some? && events[i].record.economicKey == events[j].record.economicKey
      ==> IsMarked(events[j].record)
  }

  ghost predicate UniqueNaturalKeys(events: seq<Event>)
  {
    forall i, j | 0 <= i < j < |events| :: EventKey(events[i]) != EventKey(events[j])
  }

  /** On this set of natural keys the joined texts tell keys apart. */
  ghost predicate NoClash(keys: set<NaturalKey>)
  {
    forall a, b | a in keys && b in keys && KeyText(a) == KeyText(b) :: a == b
  }

  ghost predicate KeysWithin(events: seq<Event>, keys: set<NaturalKey>)
  {
    forall e | e in events :: EventKey(e) in keys
  }

  ghost predicate BatchWithin(userId: string, records: seq<UsageRecord>, keys: set<NaturalKey>)
  {
    forall r | r in records :: KeyOf(userId, r) in keys
  }

  /** `out` is `records` up to marking: same natural and economic keys, position by position. */
  ghost predicate Shadows(records: seq<UsageRecord>, out: seq<UsageRecord>)
  {
    |out| == |records| && forall m | 0 <= m < |out| ::
      && out[m].provider == records[m].provider && out[m].source == records[m].source
      && out[m].externalReference == records[m].externalReference && out[m].economicKey == records[m].economicKey
  }

  lemma DedupeKeepsKeys(events: seq<Event>, userId: string, records: seq<UsageRecord>)
    ensures Shadows(records, Deduped(events, userId, records))
  {
  }

  /** Every record that does not own its key is marked in `out`. */
  ghost predicate OthersMarked(events: seq<Event>, userId: string, records: seq<UsageRecord>, out: seq<UsageRecord>)
  {
    |out| == |records| && forall n | 0 <= n < |out| && records[n].economicKey.Some?
      && OwnerText(events, userId, records, records[n].economicKey.value) != Some(KeyText(KeyOf(userId, records[n]))) :: IsMarked(out[n])
  }

  /** After the first `n` rows of `out`: nothing old changed, new rows come from `out`, each of its keys is stored. */
  ghost predicate Partial(events: seq<Event>, userId: string, out: seq<UsageRecord>, n: nat, now: seq<Event>)
    requires n <= |out|
  {
    && events <= now
    && FirstEarnsOnly(now) && UniqueNaturalKeys(now)
    && (forall i | |events| <= i < |now| :: now[i].userId == userId && now[i].record in out[..n])
    && (forall m | 0 <= m < n :: Stored(now, KeyOf(userId, out[m])))
  }

  lemma InsertKeepsPartial(events: seq<Event>, userId: string, out: seq<UsageRecord>, n: nat, now: seq<Event>)
    requires n < |out| && Partial(events, userId, out, n, now)
    requires forall i | 0 <= i < |now| && now[i].record.economicKey.Some? && now[i].record.economicKey == out[n].economicKey ::
               Stored(now, KeyOf(userId, out[n])) || IsMarked(out[n])
    ensures Partial(events, userId, out, n + 1, InsertOne(now, userId, out[n]))
  {
    var next, key := InsertOne(now, userId, out[n]), KeyOf(userId, out[n]);
    assert out[..n + 1] == out[..n] + [out[n]];
    if !Stored(now, key) {
      assert next[|now|] in next && EventKey(next[|now|]) == key;
    }
    forall m | 0 <= m < n + 1 ensures Stored(next, KeyOf(userId, out[m])) {
      if m < n {
        assert Stored(now, KeyOf(userId, out[m]));
        var e :| e in now && EventKey(e) == KeyOf(userId, out[m]);
        assert e in next;
      }
    }
  }

  lemma InsertAllStep(events: seq<Event>, userId: string, out: seq<UsageRecord>, n: nat)
    requires 0 < n <= |out|
    ensures InsertAll(events, userId, out[..n]) == InsertOne(InsertAll(events, userId, out[..n - 1]), userId, out[n - 1])
  {
    assert out[..n][..n - 1] == out[..n - 1];
  }

  lemma NextRowIsRight(events: seq<Event>, userId: string, records: seq<UsageRecord>, out: seq<UsageRecord>, n: nat, now: seq<Event>, keys: set<NaturalKey>)
    requires Shadows(records, out) && OthersMarked(events, userId, records, out)
    requires n < |out| && Partial(events, userId, out, n, now)
    requires NoClash(keys) && KeysWithin(events, keys) && BatchWithin(userId, records, keys)
    ensures forall i | 0 <= i < |now| && now[i].record.economicKey.Some? && now[i].record.economicKey == out[n].economicKey ::
              Stored(now, KeyOf(userId, out[n])) || IsMarked(out[n])
  {
    assert KeyOf(userId, out[n]) == KeyOf(userId, records[n]);
  }

  /** What a run over one prepared batch starts from. */
  ghost predicate RunReady(events: seq<Event>, userId: string, records: seq<UsageRecord>, out: seq<UsageRecord>, keys: set<NaturalKey>)
  {
    && Shadows(records, out) && OthersMarked(events, userId, records, out)
    && FirstEarnsOnly(events) && UniqueNaturalKeys(events)
    && NoClash(keys) && KeysWithin(events, keys) && BatchWithin(userId, records, keys)
  }

  lemma OneMoreRow(events: seq<Event>, userId: string, records: seq<UsageRecord>, out: seq<UsageRecord>, n: nat, keys: set<NaturalKey>)
    requires RunReady(events, userId, records, out, keys) && 0 < n <= |out|
    requires Partial(events, userId, out, n - 1, InsertAll(events, userId, out[..n - 1]))
    ensures Partial(events, userId, out, n, InsertAll(events, userId, out[..n]))
  {
    var now := InsertAll(events, userId, out[..n - 1]);
    InsertAllStep(events, userId, out, n);
    NextRowIsRight(events, userId, records, out, n - 1, now, keys);
    InsertKeepsPartial(events, userId, out, n - 1, now);
  }

  lemma {:induction false} RunReaches(events: seq<Event>, userId: string, records: seq<UsageRecord>, out: seq<UsageRecord>, n: nat, keys: set<NaturalKey>)
    requires n <= |out| && RunReady(events, userId, records, out, keys)
    ensures Partial(events, userId, out, n, InsertAll(events, userId, out[..n]))
    decreases n
  {
    if n == 0 {
    } else {
      RunReaches(events, userId, records, out, n - 1, keys);
      OneMoreRow(events, userId, records, out, n, keys);
    }
  }

  /** One run keeps the rule, changes no stored event and stores every key it was given. */
  lemma RunKeepsOneUnit(events: seq<Event>, userId: string, records: seq<UsageRecord>, keys: set<NaturalKey>)
    requires FirstEarnsOnly(events) && UniqueNaturalKeys(events)
    requires NoClash(keys) && KeysWithin(events, keys) && BatchWithin(userId, records, keys)
    ensures var now := RunEvents(events, userId, records);
            && events <= now
            && FirstEarnsOnly(now) && UniqueNaturalKeys(now) && KeysWithin(now, keys)
            && (forall r | r in records :: Stored(now, KeyOf(userId, r)))
  {
    var out, now := Deduped(events, userId, records), RunEvents(events, userId, records);
    DedupeKeepsKeys(events, userId, records);
    RunReaches(events, userId, records, out, |out|, keys);
    assert out[..|out|] == out;
    forall r | r in records ensures Stored(now, KeyOf(userId, r)) {
      var m :| 0 <= m < |records| && records[m] == r;
      assert Stored(now, KeyOf(userId, out[m]));
    }
    forall e | e in now ensures EventKey(e) in keys {
      var i :| 0 <= i < |now| && now[i] == e;
      if i < |events| {
        assert e == events[i];
      } else {
        var m :| 0 <= m < |records| && out[m] == e.record;
        assert records[m] in records;
      }
    }
  }

  // --------------------------------------------------------------------- histories

  datatype Batch = Batch(userId: string, records: seq<UsageRecord>)

  function RunBatches(events: seq<Event>, batches: seq<Batch>): seq<Event>
    decreases |batches|
  {
    if batches == [] then events
    else RunBatches(RunEvents(events, batches[0].userId, batches[0].records), batches[1..])
  }

  ghost predicate BatchesWithin(batches: seq<Batch>, keys: set<NaturalKey>)
  {
    forall b | b in batches :: BatchWithin(b.userId, b.records, keys)
  }

  lemma {:induction false} HistoryKeepsOneUnit(events: seq<Event>, batches: seq<Batch>, keys: set<NaturalKey>)
    requires FirstEarnsOnly(events) && UniqueNaturalKeys(events) && KeysWithin(events, keys)
    requires NoClash(keys) && BatchesWithin(batches, keys)
    ensures events <= RunBatches(events, batches)
    ensures FirstEarnsOnly(RunBatches(events, batches)) && UniqueNaturalKeys(RunBatches(events, batches))
    decreases |batches|
  {
    if batches != [] {
      var b := batches[0];
      assert b in batches;
      RunKeepsOneUnit(events, b.userId, b.records, keys);
      HistoryKeepsOneUnit(RunEvents(events, b.userId, b.records), batches[1..], keys);
    }
  }

  lemma SplitAtBar(p: string, t: string, q: string, u: string)
    requires '|' !in p && '|' !in q && p + "|" + t == q + "|" + u
    ensures p == q && t == u
  {
    FirstChar(p, t, '|');
    FirstChar(q, u, '|');
  }

  lemma KeyTextNests(key: NaturalKey)
    ensures KeyText(key) == key.userId + "|" + (key.provider + "|" + (key.source + "|" + key.externalReference))
  {
  }

  /** Natural keys whose first three parts contain no bar never clash. */
  lemma BarFreeKeysDoNotClash(keys: set<NaturalKey>)
    requires forall k | k in keys :: '|' !in k.userId && '|' !in k.provider && '|' !in k.source
    ensures NoClash(keys)
  {
    forall a, b | a in keys && b in keys && KeyText(a) == KeyText(b) ensures a == b {
      KeyTextNests(a);
      KeyTextNests(b);
      SplitAtBar(a.userId, a.provider + "|" + (a.source + "|" + a.externalReference),
                 b.userId, b.provider + "|" + (b.source + "|" + b.externalReference));
      SplitAtBar(a.provider, a.source + "|" + a.externalReference, b.provider, b.source + "|" + b.externalReference);
      SplitAtBar(a.source, a.externalReference, b.source, b.externalReference);
    }
  }

  function KeyedRecord(key: NaturalKey, economicKey: string): UsageRecord
  {
    UsageRecord(key.provider, key.source, key.externalReference, "m", Routed, "d", Totals(1, 1, 0, 1, 1),
                Some(economicKey), Unique, None, 1, 1, None, RewardEligible, false, "", EconomicEligible, None, "epoch-d", false)
  }

  /** One record for each of two users, with natural keys `a` and `b` and one economic key. */
  function OneComputeTwice(a: NaturalKey, b: NaturalKey): seq<Batch>
  {
    [Batch(a.userId, [KeyedRecord(a, "ecu1:x")]), Batch(b.userId, [KeyedRecord(b, "ecu1:x")])]
  }

  lemma ClashStoresBoth(a: NaturalKey, b: NaturalKey)
    requires a != b && KeyText(a) == KeyText(b)
    ensures RunBatches([], OneComputeTwice(a, b)) == [Event(0, a.userId, KeyedRecord(a, "ecu1:x")), Event(1, b.userId, KeyedRecord(b, "ecu1:x"))]
  {
    var ra, rb := KeyedRecord(a, "ecu1:x"), KeyedRecord(b, "ecu1:x");
    var stored, end := Event(0, a.userId, ra), [Event(0, a.userId, ra), Event(1, b.userId, rb)];
    assert RunEvents([], a.userId, [ra]) == [stored] by {
      OneRecordRun([], a.userId, ra);
      assert DedupeOne([], a.userId, [ra], ra) == ra;
    }
    assert RunEvents([stored], b.userId, [rb]) == end by {
      OneRecordRun([stored], b.userId, rb);
      assert PrimaryOf([stored], "ecu1:x") == Some(stored);
      assert DedupeOne([stored], b.userId, [rb], rb) == rb;
      assert EventKey(stored) == a && KeyOf(b.userId, rb) == b;
      assert !Stored([stored], b);
    }
    TwoBatches([], Batch(a.userId, [ra]), Batch(b.userId, [rb]));
  }

  lemma TwoBatches(events: seq<Event>, first: Batch, second: Batch)
    ensures RunBatches(events, [first, second]) == RunEvents(RunEvents(events, first.userId, first.records), second.userId, second.records)
  {
    var one := RunEvents(events, first.userId, first.records);
    var two := RunEvents(one, second.userId, second.records);
    assert [first, second][1..] == [second] && [second][1..] == [];
    assert RunBatches(two, []) == two && RunBatches(one, [second]) == two;
  }

  /** Two natural keys with one text let two runs pay one compute twice. */
  lemma ClashPaysTwice(a: NaturalKey, b: NaturalKey)
    requires a != b && KeyText(a) == KeyText(b)
    ensures BatchesWithin(OneComputeTwice(a, b), {a, b}) && !FirstEarnsOnly(RunBatches([], OneComputeTwice(a, b)))
  {
    var end := [Event(0, a.userId, KeyedRecord(a, "ecu1:x")), Event(1, b.userId, KeyedRecord(b, "ecu1:x"))];
    ClashStoresBoth(a, b);
    assert end[0].record.economicKey == end[1].record.economicKey == Some("ecu1:x") && !IsMarked(end[1].record);
    assert !FirstEarnsOnly(end);
    KeyedRecordHasKey(a);
    KeyedRecordHasKey(b);
  }

  lemma KeyedRecordHasKey(key: NaturalKey)
    ensures KeyOf(key.userId, KeyedRecord(key, "ecu1:x")) == key
  {
  }

  /**
   * A bar in the provider is enough: these two keys clash for any user, provider,
   * source and reference, so user and source may be what the tables demand.
   */
  lemma BarInProviderPaysTwice(user: string, provider: string, source: string, reference: string)
    ensures var a, b := NaturalKey(user, provider, source, source + "|" + reference),
                        NaturalKey(user, provider + "|" + source, source, reference);
            a != b && KeyText(a) == KeyText(b) && !FirstEarnsOnly(RunBatches([], OneComputeTwice(a, b)))
  {
    var a, b := NaturalKey(user, provider, source, source + "|" + reference),
                NaturalKey(user, provider + "|" + source, source, reference);
    BarsAssociate(user + "|", provider, source, reference);
    assert KeyText(a) == KeyText(b);
    assert |a.provider| < |b.provider|;
    ClashPaysTwice(a, b);
  }

  lemma BarsAssociate(head: string, provider: string, source: string, reference: string)
    ensures head + provider + "|" + source + "|" + (source + "|" + reference)
         == head + (provider + "|" + source) + "|" + source + "|" + reference
  {
  }

  lemma OneRecordRun(events: seq<Event>, userId: string, record: UsageRecord)
    ensures RunEvents(events, userId, [record]) == InsertOne(events, userId, DedupeOne(events, userId, [record], record))
  {
    var out := Deduped(events, userId, [record]);
    assert out == [DedupeOne(events, userId, [record], record)];
    assert out[..|out| - 1] == [];
    assert InsertAll(events, userId, []) == events;
  }

  /**
   * Exactly when the joined texts tell the natural keys of the accounts apart
   * does every sequence of runs leave one earning event per economic key.
   */
  lemma OneUnitExactlyWithoutClash(keys: set<NaturalKey>)
    ensures NoClash(keys) <==> forall batches | BatchesWithin(batches, keys) :: FirstEarnsOnly(RunBatches([], batches))
  {
    if NoClash(keys) {
      forall batches | BatchesWithin(batches, keys) ensures FirstEarnsOnly(RunBatches([], batches)) {
        HistoryKeepsOneUnit([], batches, keys);
      }
    } else {
      var a, b :| a in keys && b in keys && KeyText(a) == KeyText(b) && a != b;
      ClashPaysTwice(a, b);
      assert BatchesWithin(OneComputeTwice(a, b), keys);
      assert !FirstEarnsOnly(RunBatches([], OneComputeTwice(a, b)));
    }
  }

  // ------------------------------------------------------------------ consequences

  /** At most one event of a key earns, and only one row is the unit the database index guards. */
  lemma AtMostOneEarns(events: seq<Event>, i: nat, j: nat)
    requires FirstEarnsOnly(events) && i < j < |events|
    requires events[i].record.economicKey.Some? && events[i].record.economicKey == events[j].record.economicKey
    ensures events[j].record.rewardHold && events[j].record.rewardStatus == RewardHeld && events[j].record.eligibleMicros == 0
    ensures !(events[i].record.dedupe == Unique && events[j].record.dedupe == Unique)
  {
  }

  // --------------------------------------------------- when a key has a unit at all

  /** Some stored event of the key is not marked as a duplicate. */
  ghost predicate HasUnit(events: seq<Event>, key: string)
  {
    exists e :: e in events && e.record.economicKey == Some(key) && !IsMarked(e.record)
  }

  /**
   * Nothing stored carries the key, the batch's first record that does is stored,
   * because neither the table nor an earlier record has its natural key, and it
   * did not come marked.
   */
  ghost predicate ClaimIsStored(events: seq<Event>, userId: string, records: seq<UsageRecord>, key: string)
  {
    var f := FirstOf(records, key);
    && PrimaryOf(events, key).None? && f < |records| && !IsMarked(records[f])
    && !Stored(events, KeyOf(userId, records[f]))
    && forall j | 0 <= j < f :: KeyOf(userId, records[j]) != KeyOf(userId, records[f])
  }

  /** The first record with a natural key stands at an index before which there is none. */
  lemma {:induction false} FirstWithAt(records: seq<UsageRecord>, userId: string, key: NaturalKey) returns (m: nat)
    requires FirstWith(records, userId, key).Some?
    ensures m < |records| && FirstWith(records, userId, key) == Some(records[m]) && KeyOf(userId, records[m]) == key
    ensures forall j | 0 <= j < m :: KeyOf(userId, records[j]) != key
    decreases |records|
  {
    var shorter := records[..|records| - 1];
    if FirstWith(shorter, userId, key).Some? {
      m := FirstWithAt(shorter, userId, key);
      assert forall j | 0 <= j <= m :: records[j] == shorter[j];
    } else {
      m := |records| - 1;
      forall j | 0 <= j < m ensures KeyOf(userId, records[j]) != key {
        assert records[j] == shorter[j] && shorter[j] in shorter;
      }
    }
  }

  /** What the run leaves unmarked it took as it was, and its text is the owner's. */
  lemma UnmarkedIsOwner(events: seq<Event>, userId: string, records: seq<UsageRecord>, n: nat, key: string)
    requires n < |records| && records[n].economicKey == Some(key) && !IsMarked(Deduped(events, userId, records)[n])
    ensures Deduped(events, userId, records)[n] == records[n]
    ensures OwnerText(events, userId, records, key) == Some(KeyText(KeyOf(userId, records[n])))
  {
  }

  /** A new unmarked row of a key is the batch's claim on it. */
  lemma NewUnitIsClaim(events: seq<Event>, userId: string, records: seq<UsageRecord>, keys: set<NaturalKey>, key: string, i: nat)
    requires NoClash(keys) && KeysWithin(events, keys) && BatchWithin(userId, records, keys)
    requires |events| <= i < |RunEvents(events, userId, records)|
    requires var e := RunEvents(events, userId, records)[i]; e.record.economicKey == Some(key) && !IsMarked(e.record)
    ensures ClaimIsStored(events, userId, records, key)
  {
    var out, now := Deduped(events, userId, records), RunEvents(events, userId, records);
    DedupeKeepsKeys(events, userId, records);
    FirstRowsAreStored(events, userId, out);
    assert RowIsFirst(now, i, userId, out) && !Stored(events, EventKey(now[i]));
    var own := EventKey(now[i]);
    var m := FirstWithAt(out, userId, own);
    UnmarkedIsOwner(events, userId, records, m, key);
    var f := FirstOf(records, key);
    assert f <= m && records[f] in records && records[m] in records;
    OwnerIsNew(events, userId, records, keys, key, m);
    assert KeyOf(userId, out[f]) == own;
    assert f == m;
    assert forall j | 0 <= j < f :: KeyOf(userId, records[j]) == KeyOf(userId, out[j]);
  }

  /** A record that owns its key and is not stored yet: nothing stored has the key, and it is a copy of the first that has. */
  lemma OwnerIsNew(events: seq<Event>, userId: string, records: seq<UsageRecord>, keys: set<NaturalKey>, key: string, m: nat)
    requires NoClash(keys) && KeysWithin(events, keys) && BatchWithin(userId, records, keys)
    requires m < |records| && records[m].economicKey == Some(key) && !Stored(events, KeyOf(userId, records[m]))
    requires OwnerText(events, userId, records, key) == Some(KeyText(KeyOf(userId, records[m])))
    ensures PrimaryOf(events, key).None?
    ensures FirstOf(records, key) < |records| && KeyOf(userId, records[FirstOf(records, key)]) == KeyOf(userId, records[m])
  {
    assert records[m] in records;
    var f := FirstOf(records, key);
    if PrimaryOf(events, key).None? {
      assert f <= m && records[f] in records;
    }
  }

  lemma ClaimBecomesUnit(events: seq<Event>, userId: string, records: seq<UsageRecord>, key: string)
    requires ClaimIsStored(events, userId, records, key)
    ensures HasUnit(RunEvents(events, userId, records), key)
  {
    var out, now, f := Deduped(events, userId, records), RunEvents(events, userId, records), FirstOf(records, key);
    DedupeKeepsKeys(events, userId, records);
    FirstRowsAreStored(events, userId, out);
    var own := KeyOf(userId, records[f]);
    assert out[f] == records[f] && out[f] in out && KeyOf(userId, out[f]) == own;
    assert FirstRowOf(now, |events|, FirstWith(out, userId, KeyOf(userId, out[f])));
    assert forall j | 0 <= j < f :: KeyOf(userId, out[j]) != own;
    var m := FirstWithAt(out, userId, own);
    assert m == f;
    var i :| |events| <= i < |now| && now[i].record == records[f];
    assert now[i] in now;
  }

  /**
   * After a run a key has a unit exactly if it had one, or the batch's claim on
   * it is stored. A key whose claim is a replay of something stored without it
   * has none: all its events are held.
   */
  lemma KeyHasUnitExactlyIf(events: seq<Event>, userId: string, records: seq<UsageRecord>, keys: set<NaturalKey>, key: string)
    requires NoClash(keys) && KeysWithin(events, keys) && BatchWithin(userId, records, keys)
    ensures HasUnit(RunEvents(events, userId, records), key) <==> HasUnit(events, key) || ClaimIsStored(events, userId, records, key)
  {
    var now := RunEvents(events, userId, records);
    if e :| e in now && e.record.economicKey == Some(key) && !IsMarked(e.record) {
      var i :| 0 <= i < |now| && now[i] == e;
      if i < |events| {
        assert e == events[i];
      } else {
        NewUnitIsClaim(events, userId, records, keys, key, i);
      }
    }
    if e :| e in events && e.record.economicKey == Some(key) && !IsMarked(e.record) {
      assert e in now;
    }
    if ClaimIsStored(events, userId, records, key) {
      ClaimBecomesUnit(events, userId, records, key);
    }
  }

  /** A key that is stored without a unit never gets one. */
  lemma {:induction false} HeldKeyStaysHeld(events: seq<Event>, batches: seq<Batch>, keys: set<NaturalKey>, key: string)
    requires FirstEarnsOnly(events) && UniqueNaturalKeys(events) && KeysWithin(events, keys)
    requires NoClash(keys) && BatchesWithin(batches, keys)
    requires PrimaryOf(events, key).Some? && !HasUnit(events, key)
    ensures !HasUnit(RunBatches(events, batches), key)
    decreases |batches|
  {
    if batches != [] {
      var b := batches[0];
      var now := RunEvents(events, b.userId, b.records);
      assert b in batches;
      RunKeepsOneUnit(events, b.userId, b.records, keys);
      KeyHasUnitExactlyIf(events, b.userId, b.records, keys, key);
      assert now == events + now[|events|..];
      PrimaryOfConcat(events, now[|events|..], key);
      HeldKeyStaysHeld(now, batches[1..], keys, key);
    }
  }

  /**
   * A user's record is stored without an economic key; later it comes again with
   * one, together with somebody else's view of the compute: the key is stored,
   * and held for good.
   */
  lemma ReplayLeavesKeyHeld(a: NaturalKey, b: NaturalKey, later: seq<Batch>)
    requires a.userId == b.userId && KeyText(a) != KeyText(b) && BatchesWithin(later, {a, b})
    ensures var events := [Event(0, a.userId, KeyedRecord(a, "ecu1:x").(economicKey := None))];
            var now := RunEvents(events, a.userId, [KeyedRecord(a, "ecu1:x"), KeyedRecord(b, "ecu1:x")]);
            PrimaryOf(now, "ecu1:x").Some? && !HasUnit(RunBatches(now, later), "ecu1:x")
  {
    var events := [Event(0, a.userId, KeyedRecord(a, "ecu1:x").(economicKey := None))];
    var records := [KeyedRecord(a, "ecu1:x"), KeyedRecord(b, "ecu1:x")];
    var now := RunEvents(events, a.userId, records);
    KeyedRecordHasKey(a);
    KeyedRecordHasKey(b);
    assert EventKey(events[0]) == a && events[0] in events;
    RunKeepsOneUnit(events, a.userId, records, {a, b});
    KeyHasUnitExactlyIf(events, a.userId, records, {a, b}, "ecu1:x");
    assert FirstOf(records, "ecu1:x") == 0;
    SecondIsStored(events, a, b);
    HeldKeyStaysHeld(now, later, {a, b}, "ecu1:x");
  }

  lemma SecondIsStored(events: seq<Event>, a: NaturalKey, b: NaturalKey)
    requires a.userId == b.userId && !Stored(events, b) && a != b
    ensures PrimaryOf(RunEvents(events, a.userId, [KeyedRecord(a, "ecu1:x"), KeyedRecord(b, "ecu1:x")]), "ecu1:x").Some?
  {
    var records := [KeyedRecord(a, "ecu1:x"), KeyedRecord(b, "ecu1:x")];
    var out, now := Deduped(events, a.userId, records), RunEvents(events, a.userId, records);
    DedupeKeepsKeys(events, a.userId, records);
    FirstRowsAreStored(events, a.userId, out);
    assert out[1] in out && KeyOf(a.userId, out[1]) == b;
    assert FirstRowOf(now, |events|, FirstWith(out, a.userId, KeyOf(a.userId, out[1])));
    var m := FirstWithAt(out, a.userId, b);
    assert KeyOf(a.userId, out[0]) == a;
    var i :| |events| <= i < |now| && now[i].record == out[1];
    assert now[i] in now;
  }
}
