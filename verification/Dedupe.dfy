/**
 * One authoritative compute earns at most once.
 *
 * A record whose economic key already belongs to another event is stored as
 * evidence, marked and held. The natural key, compared as joined text, tells a
 * replay of the unit from somebody else's view of it.
 */
module Dedupe {
  import opened Wrappers
  import opened Database

  /** The natural key of the event table: unique on these four. */
  datatype NaturalKey = NaturalKey(userId: string, provider: string, source: string, externalReference: string)

  function KeyOf(userId: string, record: UsageRecord): NaturalKey
  {
    NaturalKey(userId, record.provider, record.source, record.externalReference)
  }

  function EventKey(e: Event): NaturalKey
  {
    KeyOf(e.userId, e.record)
  }

  /** The text the code compares natural keys by. */
  function KeyText(key: NaturalKey): string
  {
    key.userId + "|" + key.provider + "|" + key.source + "|" + key.externalReference
  }

  function MarkDuplicate(record: UsageRecord, primary: Option<nat>): UsageRecord
  {
    record.(rewardHold := true, eligibleMicros := 0, rewardStatus := RewardHeld,
            rewardReason := "duplicate_evidence", dedupe := Duplicate, duplicateOf := primary)
  }

  predicate IsMarked(record: UsageRecord)
  {
    && record.rewardHold && record.eligibleMicros == 0 && record.rewardStatus == RewardHeld
    && record.rewardReason == "duplicate_evidence" && record.dedupe == Duplicate
  }

  /** The first stored event carrying a key is the unit. */
  function PrimaryOf(events: seq<Event>, key: string): (p: Option<Event>)
    ensures p.Some? ==> p.value in events && p.value.record.economicKey == Some(key)
    ensures p.None? ==> forall e | e in events :: e.record.economicKey != Some(key)
  {
    if events == [] then None
    else if events[0].record.economicKey == Some(key) then Some(events[0])
    else PrimaryOf(events[1..], key)
  }

  /** The first record of the batch carrying a key. */
  function FirstOf(records: seq<UsageRecord>, key: string): (f: nat)
    ensures f <= |records|
    ensures f < |records| ==> records[f].economicKey == Some(key)
    ensures forall j | 0 <= j < f :: records[j].economicKey != Some(key)
  {
    if records == [] || records[0].economicKey == Some(key) then 0 else 1 + FirstOf(records[1..], key)
  }

  /** Who owns the reward of a key: the stored unit, else the first record of the batch. */
  function OwnerText(events: seq<Event>, userId: string, records: seq<UsageRecord>, key: string): Option<string>
  {
    var prior := PrimaryOf(events, key);
    if prior.Some? then Some(KeyText(EventKey(prior.value)))
    else
      var f := FirstOf(records, key);
      if f < |records| then Some(KeyText(KeyOf(userId, records[f]))) else None
  }

  function DedupeOne(events: seq<Event>, userId: string, records: seq<UsageRecord>, record: UsageRecord): UsageRecord
  {
    if record.economicKey.None? then record
    else
      var key := record.economicKey.value;
      var prior := PrimaryOf(events, key);
      if OwnerText(events, userId, records, key) == Some(KeyText(KeyOf(userId, record))) then record
      else MarkDuplicate(record, if prior.Some? then Some(prior.value.id) else None)
  }

  function Deduped(events: seq<Event>, userId: string, records: seq<UsageRecord>): (out: seq<UsageRecord>)
    ensures |out| == |records|
  {
    seq(|records|, i requires 0 <= i < |records| => DedupeOne(events, userId, records, records[i]))
  }

  /** Each key keeps the first event found for it. */
  method LoadPrimaries(events: seq<Event>, keys: set<string>) returns (primaryByKey: map<string, Event>)
    ensures forall k :: k in primaryByKey <==> k in keys && PrimaryOf(events, k).Some?
    ensures forall k | k in primaryByKey :: PrimaryOf(events, k) == Some(primaryByKey[k])
  {
    primaryByKey := map[];
    for i := 0 to |events|
      invariant forall k :: k in primaryByKey <==> k in keys && PrimaryOf(events[..i], k).Some?
      invariant forall k | k in primaryByKey :: PrimaryOf(events[..i], k) == Some(primaryByKey[k])
    {
      var key := events[i].record.economicKey;
      PrimarySnoc(events, i);
      if key.Some? && key.value in keys && key.value !in primaryByKey {
        primaryByKey := primaryByKey[key.value := events[i]];
      }
    }
    assert events[..|events|] == events;
  }

  /** What the code decides for one record, given the two maps. */
  function Decide(primaryByKey: map<string, Event>, seenInBatch: map<string, string>, userId: string, record: UsageRecord): UsageRecord
  {
    if record.economicKey.None? then record
    else
      var key, own := record.economicKey.value, KeyText(KeyOf(userId, record));
      if key in primaryByKey then
        if KeyText(EventKey(primaryByKey[key])) == own then record else MarkDuplicate(record, Some(primaryByKey[key].id))
      else if key in seenInBatch && seenInBatch[key] != own then MarkDuplicate(record, None)
      else record
  }

  ghost predicate PrimariesOk(events: seq<Event>, keys: set<string>, primaryByKey: map<string, Event>)
  {
    && (forall k :: k in primaryByKey <==> k in keys && PrimaryOf(events, k).Some?)
    && (forall k | k in primaryByKey :: PrimaryOf(events, k) == Some(primaryByKey[k]))
  }

  /** The keys the batch has claimed before position `i`, and for whom. */
  ghost predicate SeenOk(events: seq<Event>, userId: string, records: seq<UsageRecord>, seenInBatch: map<string, string>, i: nat)
  {
    && (forall k :: k in seenInBatch <==> PrimaryOf(events, k).None? && FirstOf(records, k) < |records| && FirstOf(records, k) < i)
    && (forall k | k in seenInBatch :: seenInBatch[k] == KeyText(KeyOf(userId, records[FirstOf(records, k)])))
  }

  lemma DecisionIsRight(events: seq<Event>, userId: string, records: seq<UsageRecord>, i: nat,
                        keys: set<string>, primaryByKey: map<string, Event>, seenInBatch: map<string, string>)
    requires i < |records| && PrimariesOk(events, keys, primaryByKey) && SeenOk(events, userId, records, seenInBatch, i)
    requires records[i].economicKey.Some? ==> records[i].economicKey.value in keys
    ensures Decide(primaryByKey, seenInBatch, userId, records[i]) == DedupeOne(events, userId, records, records[i])
  {
    if records[i].economicKey.Some? {
      var key := records[i].economicKey.value;
      assert FirstOf(records, key) <= i;
      if key !in primaryByKey && key !in seenInBatch {
        assert FirstOf(records, key) == i;
      }
    }
  }

  /** The two maps the code fills as it goes pick the owner of every key. */
  method ApplyEconomicDedupe(events: seq<Event>, userId: string, records: seq<UsageRecord>) returns (out: seq<UsageRecord>)
    ensures out == Deduped(events, userId, records)
  {
    var keys := set r | r in records && r.economicKey.Some? :: r.economicKey.value;
    var primaryByKey := LoadPrimaries(events, keys);
    var seenInBatch: map<string, string> := map[];
    out := [];
    for i := 0 to |records|
      invariant |out| == i && forall j | 0 <= j < i :: out[j] == DedupeOne(events, userId, records, records[j])
      invariant SeenOk(events, userId, records, seenInBatch, i)
    {
      var record := records[i];
      DecisionIsRight(events, userId, records, i, keys, primaryByKey, seenInBatch);
      out := out + [Decide(primaryByKey, seenInBatch, userId, record)];
      ClaimIsSeen(events, userId, records, i, keys, primaryByKey, seenInBatch);
      if record.economicKey.Some? && record.economicKey.value !in primaryByKey && record.economicKey.value !in seenInBatch {
        seenInBatch := seenInBatch[record.economicKey.value := KeyText(KeyOf(userId, record))];
      }
    }
  }

  /** The first record of a key nobody owns claims it. */
  lemma ClaimIsSeen(events: seq<Event>, userId: string, records: seq<UsageRecord>, i: nat,
                    keys: set<string>, primaryByKey: map<string, Event>, seenInBatch: map<string, string>)
    requires i < |records| && PrimariesOk(events, keys, primaryByKey) && SeenOk(events, userId, records, seenInBatch, i)
    requires records[i].economicKey.Some? ==> records[i].economicKey.value in keys
    ensures var key := records[i].economicKey;
            var claims := key.Some? && key.value !in primaryByKey && key.value !in seenInBatch;
            SeenOk(events, userId, records, if claims then seenInBatch[key.value := KeyText(KeyOf(userId, records[i]))] else seenInBatch, i + 1)
  {
    var key := records[i].economicKey;
    assert key.Some? ==> FirstOf(records, key.value) <= i;
    forall k: string | FirstOf(records, k) == i ensures key == Some(k) {
    }
  }

  lemma {:induction false} PrimaryOfConcat(a: seq<Event>, b: seq<Event>, key: string)
    ensures PrimaryOf(a + b, key) == if PrimaryOf(a, key).Some? then PrimaryOf(a, key) else PrimaryOf(b, key)
  {
    if a == [] {
      assert a + b == b;
    } else {
      assert (a + b)[1..] == a[1..] + b;
      PrimaryOfConcat(a[1..], b, key);
    }
  }

  lemma PrimarySnoc(events: seq<Event>, i: nat)
    requires i < |events|
    ensures forall key :: PrimaryOf(events[..i + 1], key) ==
              if PrimaryOf(events[..i], key).Some? then PrimaryOf(events[..i], key)
              else if events[i].record.economicKey == Some(key) then Some(events[i]) else None
  {
    assert events[..i + 1] == events[..i] + [events[i]];
    forall key
      ensures PrimaryOf(events[..i + 1], key) ==
              if PrimaryOf(events[..i], key).Some? then PrimaryOf(events[..i], key)
              else if events[i].record.economicKey == Some(key) then Some(events[i]) else None
    {
      PrimaryOfConcat(events[..i], [events[i]], key);
    }
  }

  // ------------------------------------------------------------------ who keeps a reward

  /** Event `k` is the earliest stored one with this economic key. */
  ghost predicate FirstStored(events: seq<Event>, key: string, k: int)
  {
    0 <= k < |events| && events[k].record.economicKey == Some(key) && forall j | 0 <= j < k :: events[j].record.economicKey != Some(key)
  }

  ghost predicate FirstClaimed(records: seq<UsageRecord>, key: string, f: int)
  {
    0 <= f < |records| && records[f].economicKey == Some(key) && forall j | 0 <= j < f :: records[j].economicKey != Some(key)
  }

  /** The natural keys are written alike, whether or not they are the same. */
  predicate WrittenAlike(u: string, a: UsageRecord, v: string, b: UsageRecord)
  {
    u + "|" + a.provider + "|" + a.source + "|" + a.externalReference == v + "|" + b.provider + "|" + b.source + "|" + b.externalReference
  }

  lemma {:induction false} PrimaryIsFirstStored(events: seq<Event>, key: string, k: int)
    requires FirstStored(events, key, k)
    ensures PrimaryOf(events, key) == Some(events[k])
  {
    if events[0].record.economicKey != Some(key) {
      assert FirstStored(events[1..], key, k - 1) by {
        forall j | 0 <= j < k - 1 ensures events[1..][j].record.economicKey != Some(key) {
          assert events[1..][j] == events[j + 1];
        }
      }
      PrimaryIsFirstStored(events[1..], key, k - 1);
    }
  }

  /** Stored as evidence: held, worth nothing, named a duplicate of the stored unit if there is one; the rest as it was. */
  predicate BecomesEvidence(was: UsageRecord, now: UsageRecord, unit: Option<nat>)
  {
    && now.rewardHold && now.eligibleMicros == 0 && now.rewardStatus == RewardHeld && now.rewardReason == "duplicate_evidence"
    && now.dedupe == Duplicate && now.duplicateOf == unit
    && now == was.(rewardHold := now.rewardHold, eligibleMicros := now.eligibleMicros, rewardStatus := now.rewardStatus,
                   rewardReason := now.rewardReason, dedupe := now.dedupe, duplicateOf := now.duplicateOf)
  }

  /**
   * A record without a key is taken as it is. With one it is taken as it is if its
   * natural key is written like that of the earliest stored event with the key,
   * or, when none is stored, like that of the first record of the batch with it;
   * else it becomes evidence.
   */
  lemma RewardGoesToTheFirst(events: seq<Event>, userId: string, records: seq<UsageRecord>, i: nat)
    requires i < |records|
    ensures var r, out := records[i], Deduped(events, userId, records)[i];
            && (r.economicKey.None? ==> out == r)
            && (forall k | r.economicKey.Some? && FirstStored(events, r.economicKey.value, k) ::
                  if WrittenAlike(events[k].userId, events[k].record, userId, r) then out == r else BecomesEvidence(r, out, Some(events[k].id)))
            && (forall f | r.economicKey.Some? && (forall e | e in events :: e.record.economicKey != r.economicKey)
                           && FirstClaimed(records, r.economicKey.value, f) ::
                  if WrittenAlike(userId, records[f], userId, r) then out == r else BecomesEvidence(r, out, None))
  {
    var r := records[i];
    if r.economicKey.Some? {
      var key := r.economicKey.value;
      forall k | FirstStored(events, key, k) ensures PrimaryOf(events, key) == Some(events[k]) {
        PrimaryIsFirstStored(events, key, k);
      }
      assert forall f | FirstClaimed(records, key, f) :: FirstOf(records, key) == f;
      assert (forall e | e in events :: e.record.economicKey != r.economicKey) ==> PrimaryOf(events, key).None?;
    }
  }
}
