/**
 * What one ingest run writes, table by table: in terms of the batch and of the
 * tables before, on any tables, exact or not.
 */
module IngestRun {
  import opened Wrappers
  import opened Text
  import opened Database
  import opened Dedupe
  import opened OneUnit
  import opened Epochs
  import opened Scoring
  import opened Ingest
  import opened Provenance
  import opened Pipeline

  // ------------------------------------------------------------------------- aggregates

  /** A day of the user's that lies between the first and the last day of the batch, in text order. */
  ghost predicate Spanned(records: seq<UsageRecord>, day: string)
  {
    && (exists r :: r in records && (r.day == day || StrLess(r.day, day)))
    && (exists r :: r in records && (r.day == day || StrLess(day, r.day)))
  }

  lemma SpannedIsInRange(records: seq<UsageRecord>, day: string)
    ensures InRange(day, DaysOf(records)) <==> Spanned(records, day)
  {
    forall a ensures !StrLess(day, a) <==> a == day || StrLess(a, day) {
      StrLessIsTotal(a, day);
    }
    forall b ensures !StrLess(b, day) <==> b == day || StrLess(day, b) {
      StrLessIsTotal(b, day);
    }
    if Spanned(records, day) {
      var r :| r in records && (r.day == day || StrLess(r.day, day));
      var s :| s in records && (s.day == day || StrLess(day, s.day));
      assert r.day in DaysOf(records) && s.day in DaysOf(records);
    }
  }

  /**
   * Between the first and the last day of the batch the user's buckets become what
   * the events say, in between days included; a bucket of a batch day without
   * events goes; every other bucket stays.
   */
  lemma BucketAfterRun(rules: Rules, db: Db, userId: string, records: seq<UsageRecord>, key: AggregateKey)
    ensures var before, after := db.aggregates, Derive(rules, db, userId, records).aggregates;
            var derived := AggregateDaily(db.events);
            if key.userId == userId && Spanned(records, key.day) && key in derived then key in after && after[key] == derived[key]
            else if key.userId == userId && exists r :: r in records && r.day == key.day then key !in after
            else (key in after <==> key in before) && (key in before ==> after[key] == before[key])
  {
    var days := DaysOf(records);
    SpannedIsInRange(records, key.day);
    LoadedBucketsAreInRange(db.events, userId, days);
    if key.userId == userId && InRange(key.day, days) {
      DaysHoldTheirBuckets(db.events, userId, days, key);
    } else if key.day in days {
      DayIsInRange(key.day, days);
    }
  }

  // ----------------------------------------------------------------------------- scores

  lemma {:induction false} OtherVersionsStand(rules: Rules, rows: seq<ScoreRow>, events: seq<Event>, userId: string, ids: seq<string>,
                                              u: string, day: string, version: string)
    requires forall id | id in ids :: !(EpochDay(id) == day && rules.scoringFor(id) == version)
    ensures FindScore(WriteScores(rules, rows, events, userId, ids), u, day, version) == FindScore(rows, u, day, version)
    decreases |ids|
  {
    if ids != [] {
      var row := ScoreRowFor(rules, events, userId, ids[0]);
      assert ids[0] in ids;
      OtherVersionsStand(rules, UpsertScore(rows, row), events, userId, ids[1..], u, day, version);
      UpsertThenFind(rows, row, u, day, version);
    }
  }

  /**
   * The user's score under the version of an epoch the batch went to becomes the
   * score of the user's events in that epoch; every other score stays.
   */
  lemma ScoreAfterRun(rules: Rules, db: Db, userId: string, records: seq<UsageRecord>, u: string, day: string, version: string)
    requires forall r | r in records :: r.epochId == EpochId(EpochDay(r.epochId))
    ensures var before, after := db.scores, Derive(rules, db, userId, records).scores;
            var id := EpochId(day);
            FindScore(after, u, day, version) ==
            if u == userId && version == rules.scoringFor(id) && exists r :: r in records && r.epochId == id
            then Some(ScoreOf(rules, EventsOfEpoch(db.events, userId, id), version)) else FindScore(before, u, day, version)
  {
    var ids := EpochIdsOf(records);
    EpochIdsAreThoseOfTheBatch(records);
    EpochDayOfId(day);
    assert WellFormedIds(ids);
    if version == rules.scoringFor(EpochId(day)) {
      WriteScoresFinds(rules, db.scores, db.events, userId, ids, u, day);
    } else {
      OtherVersionsStand(rules, db.scores, db.events, userId, ids, u, day, version);
    }
  }

  // ----------------------------------------------------------------------------- proofs

  /** Record `m` is the last of the batch whose provider, source and reference, joined, read like this one's. */
  ghost predicate LastReadingLike(records: seq<UsageRecord>, like: UsageRecord, m: int)
  {
    && 0 <= m < |records|
    && ReadsLike(records[m], like)
    && forall n | m < n < |records| :: !ReadsLike(records[n], like)
  }

  predicate ReadsLike(a: UsageRecord, b: UsageRecord)
  {
    a.provider + "|" + a.source + "|" + a.externalReference == b.provider + "|" + b.source + "|" + b.externalReference
  }

  lemma {:induction false} LastWithIsLast(records: seq<UsageRecord>, like: UsageRecord, m: int)
    requires LastReadingLike(records, like, m)
    ensures LastWith(records, RefText(like)) == Some(records[m])
  {
    if m < |records| - 1 {
      var shorter := records[..|records| - 1];
      assert ReadsLike(records[|records| - 1], like) <==> RefText(records[|records| - 1]) == RefText(like);
      assert forall n | 0 <= n < |shorter| :: shorter[n] == records[n];
      LastWithIsLast(shorter, like, m);
    }
  }

  /** The proof of a new event: unsigned, with the source and the type of the last record that reads like it. */
  lemma ProofAfterRun(db: Db, userId: string, records: seq<UsageRecord>, i: nat, m: int)
    requires |db.events| <= i < |WithBatch(db, userId, records).events|
    requires LastReadingLike(records, WithBatch(db, userId, records).events[i].record, m)
    ensures var db' := WithBatch(db, userId, records);
            && db.proofs <= db'.proofs && |db'.proofs| - |db.proofs| == |db'.events| - |db.events|
            && db'.proofs[|db.proofs| + (i - |db.events|)] == ProofRow(i, records[m].source, records[m].verification, false)
  {
    ProofOfRow(db, userId, records, i);
    LastWithIsLast(records, WithBatch(db, userId, records).events[i].record, m);
  }

  // ---------------------------------------------------------------------------- the run

  predicate RecordedClosed(db: Db, id: string)
  {
    id in db.epochs && (db.epochs[id].state == Finalizing || db.epochs[id].state == Settled)
  }

  lemma ClosedAreRecorded(db: Db, id: string)
    ensures id in LoadClosedEpochs(db) <==> RecordedClosed(db, id)
  {
  }

  lemma DaysAreKept(rules: Rules, closed: map<string, EpochState>, input: seq<UsageRecord>, calendar: seq<string>, events: seq<Event>, userId: string)
    requires AssignAll(rules, closed, input, calendar).Ok?
    ensures DaysOf(Deduped(events, userId, AssignAll(rules, closed, input, calendar).value)) == set r | r in input :: r.day
  {
    var taken := AssignAll(rules, closed, input, calendar).value;
    var records := Deduped(events, userId, taken);
    assert forall i | 0 <= i < |input| :: records[i].day == input[i].day;
    forall day ensures day in DaysOf(records) <==> exists r :: r in input && r.day == day {
      if day in DaysOf(records) {
        var i :| 0 <= i < |records| && records[i].day == day;
        assert input[i] in input;
      }
      if r :| r in input && r.day == day {
        var i :| 0 <= i < |input| && input[i] == r;
        assert records[i] in records;
      }
    }
  }

  /**
   * An empty batch does nothing. A run is refused, and writes nothing, exactly if
   * some record finds its epoch closed and no day of the calendar open. Else the
   * report counts the new events, the other records and the days, and only events,
   * proofs, aggregates and scores are written.
   */
  lemma RunReports(rules: Rules, db: Db, userId: string, input: seq<UsageRecord>, calendar: seq<string>)
    ensures var (r, db') := Outcome(rules, db, userId, input, calendar);
            && (r.Err? <==> (exists x :: x in input && RecordedClosed(db, EpochId(x.day))) && forall day | day in calendar :: RecordedClosed(db, EpochId(day)))
            && (r.Err? ==> db' == db)
            && (r.Ok? ==>
                  && db' == db.(events := db'.events, proofs := db'.proofs, aggregates := db'.aggregates, scores := db'.scores)
                  && db.events <= db'.events && r.value.inserted == |db'.events| - |db.events|
                  && r.value.inserted + r.value.duplicates == |input|
                  && r.value.daysRecomputed == |set x | x in input :: x.day|)
            && (input == [] ==> db' == db)
  {
    var closed := LoadClosedEpochs(db);
    forall id {
      ClosedAreRecorded(db, id);
    }
    BatchIsTaken(rules, closed, input, calendar);
    if input == [] {
      assert (set x | x in input :: x.day) == {};
    } else if AssignAll(rules, closed, input, calendar).Ok? {
      DaysAreKept(rules, closed, input, calendar, db.events, userId);
    }
  }

  /** Every record is taken into an epoch first, then decided on, and the whole batch is stored before anything is derived. */
  lemma RunWrites(rules: Rules, db: Db, userId: string, input: seq<UsageRecord>, calendar: seq<string>)
    returns (taken: seq<UsageRecord>, records: seq<UsageRecord>)
    requires input != [] && Outcome(rules, db, userId, input, calendar).0.Ok?
    ensures |taken| == |input| && forall i | 0 <= i < |input| :: Taken(rules, LoadClosedEpochs(db), calendar, input[i], taken[i])
    ensures records == Deduped(db.events, userId, taken)
    ensures Outcome(rules, db, userId, input, calendar).1 == Derive(rules, WithBatch(db, userId, records), userId, records)
    ensures WithBatch(db, userId, records).events == InsertAll(db.events, userId, records)
  {
    BatchIsTaken(rules, LoadClosedEpochs(db), input, calendar);
    taken := AssignAll(rules, LoadClosedEpochs(db), input, calendar).value;
    records := Deduped(db.events, userId, taken);
  }
}
