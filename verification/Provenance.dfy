/**
 * A proof takes its verification type from the last record of the batch with
 * the event's reference, compared as joined text, while the event row is the
 * first record with its natural key. Proofs are truthful exactly when these two
 * records agree in type for every natural key that is new.
 */
module Provenance {
  import opened Wrappers
  import opened Database
  import opened Dedupe
  import opened OneUnit
  import opened Ingest

  lemma {:induction false} LastWithFinds(records: seq<UsageRecord>, text: string)
    ensures LastWith(records, text).Some? <==> exists x :: x in records && RefText(x) == text
    ensures LastWith(records, text).Some? ==> RefText(LastWith(records, text).value) == text
  {
    if records != [] {
      LastWithFinds(records[..|records| - 1], text);
      assert records == records[..|records| - 1] + [records[|records| - 1]];
    }
  }

  ghost predicate ProofFits(proof: ProofRow, e: Event, records: seq<UsageRecord>)
  {
    proof.eventId == e.id && !proof.signed && Some((proof.kind, proof.verification)) == KindAndType(LastWith(records, RefText(e.record)))
  }

  ghost predicate ProofsFit(proofs: seq<ProofRow>, now: seq<Event>, from: nat, records: seq<UsageRecord>)
  {
    from <= |now| && |proofs| == |now| - from && forall k | 0 <= k < |proofs| :: ProofFits(proofs[k], now[from + k], records)
  }

  lemma OneProof(e: Event, records: seq<UsageRecord>)
    requires LastWith(records, RefText(e.record)).Some?
    ensures |ProofOf(e, records)| == 1 && ProofFits(ProofOf(e, records)[0], e, records)
  {
  }

  /** One proof per inserted event, in order, carrying the type of the last record with its reference. */
  lemma {:induction false} ProofsFollowRows(now: seq<Event>, from: nat, records: seq<UsageRecord>)
    requires from <= |now|
    requires forall i | from <= i < |now| :: LastWith(records, RefText(now[i].record)).Some?
    ensures ProofsFit(ProofsFor(now, from, records), now, from, records)
    decreases |now| - from
  {
    if from < |now| {
      ProofsFollowRows(now, from + 1, records);
      OneProof(now[from], records);
      var proof := ProofOf(now[from], records)[0];
      assert ProofOf(now[from], records) == [proof];
      OneProofMore(proof, ProofsFor(now, from + 1, records), now, from, records);
    }
  }

  lemma OneProofMore(proof: ProofRow, proofs: seq<ProofRow>, now: seq<Event>, from: nat, records: seq<UsageRecord>)
    requires from < |now| && ProofFits(proof, now[from], records) && ProofsFit(proofs, now, from + 1, records)
    ensures ProofsFit([proof] + proofs, now, from, records)
  {
    var all := [proof] + proofs;
    forall k | 0 <= k < |all| ensures ProofFits(all[k], now[from + k], records) {
      if k > 0 {
        assert ProofFits(proofs[k - 1], now[from + 1 + (k - 1)], records);
      }
    }
  }

  /** What a proof says: how the usage was observed, and what vouches for it. */
  function KindAndType(record: Option<UsageRecord>): Option<(string, Verification)>
  {
    match record case None => None case Some(r) => Some((r.source, r.verification))
  }

  function TypeOf(record: Option<UsageRecord>): Option<Verification>
  {
    match record case None => None case Some(r) => Some(r.verification)
  }

  /** Every new proof carries the verification type of its event. */
  ghost predicate ProofsAreTruthful(db: Db, db': Db)
  {
    forall j | |db.proofs| <= j < |db'.proofs| ::
      db'.proofs[j].eventId < |db'.events| && db'.events[db'.proofs[j].eventId].record.verification == db'.proofs[j].verification
  }

  /** For each natural key that is new to the table, the record stored for it has the type of the last
      record whose joined text is the same. */
  ghost predicate TypesAgree(db: Db, userId: string, records: seq<UsageRecord>)
  {
    forall r | r in records && !Stored(db.events, KeyOf(userId, r)) ::
      TypeOf(FirstWith(records, userId, KeyOf(userId, r))) == TypeOf(LastWith(records, RefText(r)))
  }

  /** What the `i`-th event and its proof say. */
  ghost predicate RowAndProof(db: Db, db': Db, userId: string, records: seq<UsageRecord>, i: nat)
  {
    && |db.events| <= i < |db'.events| && |db'.proofs| == |db.proofs| + (|db'.events| - |db.events|)
    && ProofFits(db'.proofs[|db.proofs| + (i - |db.events|)], db'.events[i], records)
    && RowIsFirst(db'.events, i, userId, records)
  }

  lemma ProofOfRow(db: Db, userId: string, records: seq<UsageRecord>, i: nat)
    requires |db.events| <= i < |WithBatch(db, userId, records).events|
    ensures RowAndProof(db, WithBatch(db, userId, records), userId, records, i)
    ensures !Stored(db.events, EventKey(WithBatch(db, userId, records).events[i]))
  {
    var now, from := InsertAll(db.events, userId, records), |db.events|;
    FirstRowsAreStored(db.events, userId, records);
    forall k | from <= k < |now| ensures LastWith(records, RefText(now[k].record)).Some? {
      assert RowIsFirst(now, k, userId, records);
      LastWithFinds(records, RefText(now[k].record));
    }
    ProofsFollowRows(now, from, records);
    ProofInTable(db, now, records, i);
  }

  lemma ProofInTable(db: Db, now: seq<Event>, records: seq<UsageRecord>, i: nat)
    requires |db.events| <= i < |now| && ProofsFit(ProofsFor(now, |db.events|, records), now, |db.events|, records)
    ensures var proofs := db.proofs + ProofsFor(now, |db.events|, records);
            |proofs| == |db.proofs| + (|now| - |db.events|) && ProofFits(proofs[|db.proofs| + (i - |db.events|)], now[i], records)
  {
    var k := i - |db.events|;
    assert ProofFits(ProofsFor(now, |db.events|, records)[k], now[|db.events| + k], records);
  }

  /** Without new events there are no new proofs. */
  lemma NoRowNoProof(db: Db, userId: string, records: seq<UsageRecord>)
    requires |WithBatch(db, userId, records).events| == |db.events|
    ensures |WithBatch(db, userId, records).proofs| == |db.proofs|
  {
  }

  lemma AgreeingTypesGiveTrueProofs(db: Db, userId: string, records: seq<UsageRecord>)
    requires TypesAgree(db, userId, records)
    ensures ProofsAreTruthful(db, WithBatch(db, userId, records))
  {
    var db' := WithBatch(db, userId, records);
    if |db'.events| == |db.events| {
      NoRowNoProof(db, userId, records);
    } else {
      ProofOfRow(db, userId, records, |db.events|);
      forall j | |db.proofs| <= j < |db'.proofs|
        ensures db'.proofs[j].eventId < |db'.events|
        ensures db'.events[db'.proofs[j].eventId].record.verification == db'.proofs[j].verification
      {
        ProofOfRow(db, userId, records, |db.events| + (j - |db.proofs|));
      }
    }
  }

  lemma TrueProofsNeedAgreeingTypes(db: Db, userId: string, records: seq<UsageRecord>)
    requires ProofsAreTruthful(db, WithBatch(db, userId, records))
    ensures TypesAgree(db, userId, records)
  {
    var now := WithBatch(db, userId, records).events;
    FirstRowsAreStored(db.events, userId, records);
    forall r | r in records && !Stored(db.events, KeyOf(userId, r))
      ensures TypeOf(FirstWith(records, userId, KeyOf(userId, r))) == TypeOf(LastWith(records, RefText(r)))
    {
      var first := FirstWith(records, userId, KeyOf(userId, r));
      assert FirstRowOf(now, |db.events|, first);
      var i :| |db.events| <= i < |now| && now[i].record == first.value;
      ProofOfRow(db, userId, records, i);
    }
  }

  lemma ProofsAreTruthfulExactlyWhenTypesAgree(db: Db, userId: string, records: seq<UsageRecord>)
    ensures ProofsAreTruthful(db, WithBatch(db, userId, records)) <==> TypesAgree(db, userId, records)
  {
    if TypesAgree(db, userId, records) {
      AgreeingTypesGiveTrueProofs(db, userId, records);
    }
    if ProofsAreTruthful(db, WithBatch(db, userId, records)) {
      TrueProofsNeedAgreeingTypes(db, userId, records);
    }
  }

  /** One batch that repeats a reference as stronger evidence gives a reported event a routed proof. */
  lemma RepeatedReferenceUpgradesProof(record: UsageRecord)
    requires record.verification == Reported && record.economicKey.None?
    ensures var db := Db(map[], [], [], [], [], [], map[], true);
            var batch := [record, record.(verification := Routed)];
            !ProofsAreTruthful(db, WithBatch(db, "u", batch))
  {
    var db := Db(map[], [], [], [], [], [], map[], true);
    var stronger := record.(verification := Routed);
    var batch := [record, stronger];
    ProofsAreTruthfulExactlyWhenTypesAgree(db, "u", batch);
    assert batch[..1] == [record] && [record][..0] == [];
    assert FirstWith([record], "u", KeyOf("u", record)) == Some(record);
    assert FirstWith(batch, "u", KeyOf("u", record)) == Some(record);
    assert LastWith(batch, RefText(record)) == Some(stronger);
    assert record in batch && !Stored(db.events, KeyOf("u", record));
  }

  /**
   * Without any repetition: two records whose natural keys differ and whose
   * joined texts are one, as a bar in the provider makes them. Both are stored,
   * and the reported event gets the proof of the routed one.
   */
  lemma BarInProviderUpgradesProof(record: UsageRecord)
    requires record.verification == Reported
    ensures var db := Db(map[], [], [], [], [], [], map[], true);
            var reported := record.(externalReference := record.source + "|" + record.externalReference);
            var routed := record.(provider := record.provider + "|" + record.source, verification := Routed);
            && KeyOf("u", reported) != KeyOf("u", routed) && RefText(reported) == RefText(routed)
            && |WithBatch(db, "u", [reported, routed]).events| == 2
            && !ProofsAreTruthful(db, WithBatch(db, "u", [reported, routed]))
  {
    var db := Db(map[], [], [], [], [], [], map[], true);
    var reported := record.(externalReference := record.source + "|" + record.externalReference);
    var routed := record.(provider := record.provider + "|" + record.source, verification := Routed);
    var batch := [reported, routed];
    BarsAssociate("", record.provider, record.source, record.externalReference);
    assert RefText(reported) == RefText(routed);
    assert |reported.provider| < |routed.provider|;
    assert batch[..1] == [reported] && [reported][..0] == [];
    assert InsertAll([], "u", [reported]) == [Event(0, "u", reported)];
    assert !Stored([Event(0, "u", reported)], KeyOf("u", routed));
    assert FirstWith([reported], "u", KeyOf("u", reported)) == Some(reported);
    assert FirstWith(batch, "u", KeyOf("u", reported)) == Some(reported);
    assert LastWith(batch, RefText(reported)) == Some(routed);
    assert reported in batch && !Stored(db.events, KeyOf("u", reported));
    ProofsAreTruthfulExactlyWhenTypesAgree(db, "u", batch);
  }
}
