/**
 * What whole histories of ingest, finalize and settle runs keep: derived tables
 * equal a derivation from scratch, closed epochs stay what they were, and what
 * is settled is what was finalized.
 */
module Pipeline {
  import opened Wrappers
  import opened Text
  import opened Allocation
  import opened Database
  import opened Dedupe
  import opened OneUnit
  import opened Epochs
  import opened Scoring
  import opened Ingest
  import opened Settlement
  import Protocol

  // ------------------------------------------------------------ rows an insert adds

  /** Every row from position `from` on is the user's and comes from the batch. */
  ghost predicate AddedRows(now: seq<Event>, from: nat, userId: string, records: seq<UsageRecord>)
  {
    forall i | from <= i < |now| :: now[i].userId == userId && now[i].record in records
  }

  lemma {:induction false} InsertAllAdds(events: seq<Event>, userId: string, records: seq<UsageRecord>)
    ensures AddedRows(InsertAll(events, userId, records), |events|, userId, records)
    decreases |records|
  {
    if records != [] {
      var shorter := records[..|records| - 1];
      var before, now := InsertAll(events, userId, shorter), InsertAll(events, userId, records);
      InsertAllAdds(events, userId, shorter);
      forall i | |events| <= i < |now| ensures now[i].userId == userId && now[i].record in records {
        if i < |before| {
          assert before[i].userId == userId && before[i].record in shorter;
        }
      }
    }
  }

  lemma {:induction false} InsertAllStores(events: seq<Event>, userId: string, records: seq<UsageRecord>)
    ensures forall r | r in records :: Stored(InsertAll(events, userId, records), KeyOf(userId, r))
    decreases |records|
  {
    if records != [] {
      var before, last := InsertAll(events, userId, records[..|records| - 1]), records[|records| - 1];
      var now := InsertAll(events, userId, records);
      InsertAllStores(events, userId, records[..|records| - 1]);
      forall r | r in records ensures Stored(now, KeyOf(userId, r)) {
        if r in records[..|records| - 1] {
        } else if !Stored(before, KeyOf(userId, last)) {
          assert now[|before|] in now;
        }
      }
    }
  }

  /** A batch whose natural keys are all stored inserts nothing. */
  lemma {:induction false} InsertAllOfStored(events: seq<Event>, userId: string, records: seq<UsageRecord>)
    requires forall r | r in records :: Stored(events, KeyOf(userId, r))
    ensures InsertAll(events, userId, records) == events
    decreases |records|
  {
    if records != [] {
      InsertAllOfStored(events, userId, records[..|records| - 1]);
    }
  }

  // ------------------------------------------------------------------- aggregates

  lemma {:induction false} OtherBucketsStand(old_: seq<Event>, now: seq<Event>, key: AggregateKey)
    requires old_ <= now && forall i | |old_| <= i < |now| :: BucketOf(now[i]) != key
    ensures TotalFor(now, key) == TotalFor(old_, key)
    ensures key in BucketsOf(now) <==> key in BucketsOf(old_)
    decreases |now|
  {
    if |now| > |old_| {
      var shorter, last := now[..|now| - 1], now[|now| - 1];
      OtherBucketsStand(old_, shorter, key);
      assert now == shorter + [last];
    } else {
      assert now == old_;
    }
  }

  lemma {:induction false} DaysHoldTheirBuckets(events: seq<Event>, userId: string, days: set<string>, key: AggregateKey)
    requires key.userId == userId && InRange(key.day, days)
    ensures TotalFor(EventsForDays(events, userId, days), key) == TotalFor(events, key)
    ensures key in BucketsOf(EventsForDays(events, userId, days)) <==> key in BucketsOf(events)
  {
    if events != [] {
      var shorter, last := events[..|events| - 1], events[|events| - 1];
      DaysHoldTheirBuckets(shorter, userId, days, key);
      assert events == shorter + [last];
      OneEventMore(shorter, last, EventsForDays(shorter, userId, days), key, last.userId == userId && InRange(last.record.day, days));
    }
  }

  lemma BucketSnoc(events: seq<Event>, e: Event, key: AggregateKey)
    ensures TotalFor(events + [e], key) == if BucketOf(e) == key then Add(TotalFor(events, key), e.record.totals) else TotalFor(events, key)
    ensures key in BucketsOf(events + [e]) <==> key in BucketsOf(events) || BucketOf(e) == key
  {
    assert (events + [e])[..|events|] == events;
    assert forall x :: x in events + [e] <==> x in events || x == e;
  }

  /** An event that is left out of the loaded ones is not in the bucket. */
  lemma OneEventMore(shorter: seq<Event>, last: Event, rest: seq<Event>, key: AggregateKey, hit: bool)
    requires TotalFor(rest, key) == TotalFor(shorter, key) && (key in BucketsOf(rest) <==> key in BucketsOf(shorter))
    requires BucketOf(last) == key ==> hit
    ensures var loaded := if hit then rest + [last] else rest;
            && TotalFor(loaded, key) == TotalFor(shorter + [last], key)
            && (key in BucketsOf(loaded) <==> key in BucketsOf(shorter + [last]))
  {
    BucketSnoc(shorter, last, key);
    BucketSnoc(rest, last, key);
  }

  lemma {:induction false} LoadedBucketsAreInRange(events: seq<Event>, userId: string, days: set<string>)
    ensures forall e | e in EventsForDays(events, userId, days) :: e.userId == userId && InRange(e.record.day, days)
  {
    if events != [] {
      LoadedBucketsAreInRange(events[..|events| - 1], userId, days);
    }
  }

  lemma DayIsInRange(day: string, days: set<string>)
    requires day in days
    ensures InRange(day, days)
  {
    StrLessIsTotal(day, day);
  }

  lemma OneBucketIsExact(old_: seq<Event>, now: seq<Event>, userId: string, days: set<string>, key: AggregateKey)
    requires old_ <= now && AddedOn(now, |old_|, userId, days)
    ensures var result := ReplaceAggregates(AggregateDaily(old_), userId, days, AggregateDaily(EventsForDays(now, userId, days)));
            (key in result <==> key in BucketsOf(now)) && (key in result ==> result[key] == TotalFor(now, key))
  {
    LoadedBucketsAreInRange(now, userId, days);
    if key.userId == userId && InRange(key.day, days) {
      DaysHoldTheirBuckets(now, userId, days, key);
      if key.day !in days {
        OtherBucketsStand(old_, now, key);
      }
    } else {
      if key.userId == userId && key.day in days {
        DayIsInRange(key.day, days);
      }
      OtherBucketsStand(old_, now, key);
    }
  }

  ghost predicate AddedOn(now: seq<Event>, from: nat, userId: string, days: set<string>)
  {
    forall i | from <= i < |now| :: now[i].userId == userId && now[i].record.day in days
  }

  /** Recomputing the batch's days is enough: the table equals an aggregation of everything. */
  lemma DerivedAggregatesAreExact(old_: seq<Event>, now: seq<Event>, userId: string, days: set<string>)
    requires old_ <= now && AddedOn(now, |old_|, userId, days)
    ensures ReplaceAggregates(AggregateDaily(old_), userId, days, AggregateDaily(EventsForDays(now, userId, days))) == AggregateDaily(now)
  {
    var result := ReplaceAggregates(AggregateDaily(old_), userId, days, AggregateDaily(EventsForDays(now, userId, days)));
    forall key: AggregateKey
      ensures key in result <==> key in AggregateDaily(now)
      ensures key in result ==> result[key] == AggregateDaily(now)[key]
    {
      OneBucketIsExact(old_, now, userId, days, key);
    }
  }

  // ----------------------------------------------------------------------- scores

  lemma {:induction false} OtherEpochsStand(old_: seq<Event>, now: seq<Event>, userId: string, epochId: string)
    requires old_ <= now
    requires forall i | |old_| <= i < |now| :: !(now[i].userId == userId && now[i].record.epochId == epochId)
    ensures EventsOfEpoch(now, userId, epochId) == EventsOfEpoch(old_, userId, epochId)
    decreases |now|
  {
    if |now| > |old_| {
      OtherEpochsStand(old_, now[..|now| - 1], userId, epochId);
    } else {
      assert now == old_;
    }
  }

  ghost predicate WellFormedIds(ids: seq<string>)
  {
    forall id | id in ids :: id == EpochId(EpochDay(id))
  }

  lemma {:induction false} WriteScoresFinds(rules: Rules, rows: seq<ScoreRow>, events: seq<Event>, userId: string, ids: seq<string>, u: string, day: string)
    requires WellFormedIds(ids)
    ensures var id := EpochId(day);
            FindScore(WriteScores(rules, rows, events, userId, ids), u, day, rules.scoringFor(id))
              == if u == userId && id in ids then Some(ScoreRowFor(rules, events, userId, id).score)
                 else FindScore(rows, u, day, rules.scoringFor(id))
    decreases |ids|
  {
    if ids != [] {
      var row, id := ScoreRowFor(rules, events, userId, ids[0]), EpochId(day);
      EpochDayOfId(day);
      assert ids[0] in ids;
      WriteScoresFinds(rules, UpsertScore(rows, row), events, userId, ids[1..], u, day);
      UpsertThenFind(rows, row, u, day, rules.scoringFor(id));
      assert ids == [ids[0]] + ids[1..];
    }
  }

  lemma {:induction false} WriteScoresKeeps(rules: Rules, rows: seq<ScoreRow>, events: seq<Event>, userId: string, ids: seq<string>)
    requires UniqueScores(rows)
    ensures UniqueScores(WriteScores(rules, rows, events, userId, ids))
    decreases |ids|
  {
    if ids != [] {
      var row := ScoreRowFor(rules, events, userId, ids[0]);
      UpsertKeepsUnique(rows, row);
      WriteScoresKeeps(rules, UpsertScore(rows, row), events, userId, ids[1..]);
    }
  }

  lemma {:induction false} WriteScoresKeepsDay(rules: Rules, rows: seq<ScoreRow>, events: seq<Event>, userId: string, ids: seq<string>, day: string, version: string)
    requires forall id | id in ids :: EpochDay(id) != day
    ensures EpochScores(WriteScores(rules, rows, events, userId, ids), day, version) == EpochScores(rows, day, version)
    decreases |ids|
  {
    if ids != [] {
      var row := ScoreRowFor(rules, events, userId, ids[0]);
      assert ids[0] in ids;
      UpsertKeepsOtherDays(rows, row, day, version);
      WriteScoresKeepsDay(rules, UpsertScore(rows, row), events, userId, ids[1..], day, version);
    }
  }

  // -------------------------------------------------------------------- exactness

  function ScratchScore(rules: Rules, events: seq<Event>, userId: string, day: string): Score
  {
    ScoreOf(rules, EventsOfEpoch(events, userId, EpochId(day)), rules.scoringFor(EpochId(day)))
  }

  function StoredScore(rules: Rules, db: Db, userId: string, day: string): Score
  {
    ReadScore(rules, db.scores, userId, day, rules.scoringFor(EpochId(day)))
  }

  /** The stored aggregates, and the stored score of every open epoch, are what the events say. */
  ghost predicate Exact(rules: Rules, db: Db)
  {
    && UniqueScores(db.scores)
    && db.aggregates == AggregateDaily(db.events)
    && forall userId, day | !Closed(db, EpochId(day)) :: StoredScore(rules, db, userId, day) == ScratchScore(rules, db.events, userId, day)
  }

  /** What a run is given once epochs are assigned and duplicates marked. */
  ghost predicate Prepared(db: Db, records: seq<UsageRecord>)
  {
    forall r | r in records :: r.epochId == EpochId(EpochDay(r.epochId)) && !Closed(db, r.epochId)
  }

  lemma BatchIsPrepared(rules: Rules, db: Db, userId: string, input: seq<UsageRecord>, calendar: seq<string>)
    requires AssignAll(rules, LoadClosedEpochs(db), input, calendar).Ok?
    ensures Prepared(db, Deduped(db.events, userId, AssignAll(rules, LoadClosedEpochs(db), input, calendar).value))
  {
    var taken := AssignAll(rules, LoadClosedEpochs(db), input, calendar).value;
    var records := Deduped(db.events, userId, taken);
    forall r | r in records ensures r.epochId == EpochId(EpochDay(r.epochId)) && !Closed(db, r.epochId) {
      var i :| 0 <= i < |records| && records[i] == r;
      assert r.epochId == taken[i].epochId;
      var day :| taken[i].epochId == EpochId(day);
      EpochDayOfId(day);
    }
  }

  lemma AggregatesOfBatch(db: Db, userId: string, records: seq<UsageRecord>)
    requires db.aggregates == AggregateDaily(db.events)
    ensures var now := InsertAll(db.events, userId, records);
            ReplaceAggregates(db.aggregates, userId, DaysOf(records), AggregateDaily(EventsForDays(now, userId, DaysOf(records)))) == AggregateDaily(now)
  {
    var now := InsertAll(db.events, userId, records);
    InsertAllAdds(db.events, userId, records);
    forall i | |db.events| <= i < |now| ensures now[i].userId == userId && now[i].record.day in DaysOf(records) {
      assert now[i].record in records;
    }
    DerivedAggregatesAreExact(db.events, now, userId, DaysOf(records));
  }

  /** One (user, day) after the batch: rewritten from its events, or untouched with untouched events. */
  lemma ScoreOfBatch(rules: Rules, db: Db, userId: string, records: seq<UsageRecord>, u: string, day: string)
    requires Prepared(db, records)
    requires StoredScore(rules, db, u, day) == ScratchScore(rules, db.events, u, day)
    ensures var db' := Derive(rules, WithBatch(db, userId, records), userId, records);
            StoredScore(rules, db', u, day) == ScratchScore(rules, db'.events, u, day)
  {
    var now, ids := InsertAll(db.events, userId, records), EpochIdsOf(records);
    EpochIdsAreThoseOfTheBatch(records);
    InsertAllAdds(db.events, userId, records);
    WriteScoresFinds(rules, db.scores, now, userId, ids, u, day);
    EpochDayOfId(day);
    if !(u == userId && EpochId(day) in ids) {
      OtherEpochsStand(db.events, now, u, EpochId(day));
    }
  }

  lemma ExactDerivation(rules: Rules, db: Db, userId: string, records: seq<UsageRecord>)
    requires Exact(rules, db) && Prepared(db, records)
    ensures Exact(rules, Derive(rules, WithBatch(db, userId, records), userId, records))
  {
    var mid := WithBatch(db, userId, records);
    var db' := Derive(rules, mid, userId, records);
    AggregatesOfBatch(db, userId, records);
    WriteScoresKeeps(rules, db.scores, mid.events, userId, EpochIdsOf(records));
    forall u, day | !Closed(db', EpochId(day)) ensures StoredScore(rules, db', u, day) == ScratchScore(rules, db'.events, u, day) {
      assert !Closed(db, EpochId(day));
      ScoreOfBatch(rules, db, userId, records, u, day);
    }
  }

  /** After every completed run the derived tables equal a derivation from scratch. */
  lemma IngestKeepsExact(rules: Rules, db: Db, userId: string, input: seq<UsageRecord>, calendar: seq<string>)
    requires Exact(rules, db)
    ensures Exact(rules, Outcome(rules, db, userId, input, calendar).1)
  {
    var taken := AssignAll(rules, LoadClosedEpochs(db), input, calendar);
    if input != [] && taken.Ok? {
      BatchIsPrepared(rules, db, userId, input, calendar);
      ExactDerivation(rules, db, userId, Deduped(db.events, userId, taken.value));
    }
  }

  /** Running a batch again changes no event, no proof, no aggregate and no score of an open epoch. */
  lemma IngestAgainChangesNothing(rules: Rules, db: Db, userId: string, input: seq<UsageRecord>, calendar: seq<string>, later: seq<string>)
    requires Exact(rules, db) && Outcome(rules, db, userId, input, calendar).0.Ok?
    ensures var once := Outcome(rules, db, userId, input, calendar).1;
            var twice := Outcome(rules, once, userId, input, later).1;
            && twice.events == once.events && twice.proofs == once.proofs && twice.aggregates == once.aggregates
            && forall u, day | !Closed(once, EpochId(day)) :: StoredScore(rules, twice, u, day) == StoredScore(rules, once, u, day)
  {
    var once := Outcome(rules, db, userId, input, calendar).1;
    var twice := Outcome(rules, once, userId, input, later).1;
    IngestKeepsExact(rules, db, userId, input, calendar);
    IngestKeepsExact(rules, once, userId, input, later);
    var again := AssignAll(rules, LoadClosedEpochs(once), input, later);
    if input != [] && again.Ok? {
      var taken := AssignAll(rules, LoadClosedEpochs(db), input, calendar).value;
      var first, second := Deduped(db.events, userId, taken), Deduped(once.events, userId, again.value);
      InsertAllStores(db.events, userId, first);
      DedupeKeepsKeys(db.events, userId, taken);
      DedupeKeepsKeys(once.events, userId, again.value);
      forall r | r in second ensures Stored(once.events, KeyOf(userId, r)) {
        var i :| 0 <= i < |second| && second[i] == r;
        assert KeyOf(userId, first[i]) == KeyOf(userId, r) && first[i] in first;
      }
      InsertAllOfStored(once.events, userId, second);
    }
    assert twice.events == once.events;
    forall u, day | !Closed(once, EpochId(day)) ensures StoredScore(rules, twice, u, day) == StoredScore(rules, once, u, day) {
      assert !Closed(twice, EpochId(day));
    }
  }

  // ------------------------------------------------------------- epochs are of dates

  /** The days a batch and the calendar name are dates, as the clock writes them. */
  ghost predicate RealDays(dates: Dates, records: seq<UsageRecord>, calendar: seq<string>)
  {
    && (forall r | r in records :: dates(r.day) == Some(r.day))
    && (forall day | day in calendar :: dates(day) == Some(day))
  }

  lemma {:induction false} AssignedAreDated(dates: Dates, rules: Rules, closed: map<string, EpochState>, records: seq<UsageRecord>, calendar: seq<string>)
    requires RealDays(dates, records, calendar) && AssignAll(rules, closed, records, calendar).Ok?
    ensures forall r | r in AssignAll(rules, closed, records, calendar).value :: Dated(dates, r.epochId)
  {
    if records != [] {
      var a := AssignEpoch(closed, records[0].day, calendar).value;
      assert records[0] in records;
      if EpochId(records[0].day) !in closed {
        EpochDayOfId(records[0].day);
      } else {
        EpochDayOfId(FirstOpen(closed, calendar).value);
      }
      assert Dated(dates, a.epochId);
      AssignedAreDated(dates, rules, closed, records[1..], calendar);
    }
  }

  /** No run stores an event in an epoch that is not of a date. */
  lemma IngestKeepsDates(dates: Dates, rules: Rules, db: Db, userId: string, input: seq<UsageRecord>, calendar: seq<string>)
    requires DatedEvents(dates, db.events) && RealDays(dates, input, calendar)
    ensures DatedEvents(dates, Outcome(rules, db, userId, input, calendar).1.events)
  {
    var assignment := AssignAll(rules, LoadClosedEpochs(db), input, calendar);
    if input != [] && assignment.Ok? {
      AssignedAreDated(dates, rules, LoadClosedEpochs(db), input, calendar);
      RunKeepsEpochs(id => Dated(dates, id), db.events, userId, assignment.value);
    }
  }

  /** What every stored and every new epoch id passes, every id passes after the run. */
  lemma RunKeepsEpochs(good: string -> bool, events: seq<Event>, userId: string, taken: seq<UsageRecord>)
    requires (forall e | e in events :: good(e.record.epochId)) && (forall r | r in taken :: good(r.epochId))
    ensures forall e | e in RunEvents(events, userId, taken) :: good(e.record.epochId)
  {
    var records, now := Deduped(events, userId, taken), RunEvents(events, userId, taken);
    InsertAllAdds(events, userId, records);
    forall r | r in records ensures good(r.epochId) {
      var k :| 0 <= k < |records| && records[k] == r;
      assert r.epochId == taken[k].epochId && taken[k] in taken;
    }
    forall e | e in now ensures good(e.record.epochId) {
      var i :| 0 <= i < |now| && now[i] == e;
      if i < |events| {
        assert e == events[i];
      }
    }
  }

  // --------------------------------------------------------- closed epochs stand still

  /** An epoch of the schedule: its id is made of the day it scores. */
  ghost predicate DayTerms(terms: Protocol.Terms)
  {
    terms.epoch.id == EpochId(terms.epoch.day)
  }

  /** What ingestion must leave alone in an epoch that stopped collecting. */
  ghost predicate ClosedEpochStands(db: Db, db': Db, day: string)
  {
    && (forall userId :: EventsOfEpoch(db'.events, userId, EpochId(day)) == EventsOfEpoch(db.events, userId, EpochId(day)))
    && (forall version :: EpochScores(db'.scores, day, version) == EpochScores(db.scores, day, version))
  }

  lemma BatchLeavesClosedEpochs(rules: Rules, db: Db, userId: string, records: seq<UsageRecord>, day: string)
    requires Prepared(db, records) && Closed(db, EpochId(day))
    ensures ClosedEpochStands(db, Derive(rules, WithBatch(db, userId, records), userId, records), day)
  {
    var now, ids := InsertAll(db.events, userId, records), EpochIdsOf(records);
    InsertAllAdds(db.events, userId, records);
    EpochIdsAreThoseOfTheBatch(records);
    EpochDayOfId(day);
    forall u ensures EventsOfEpoch(now, u, EpochId(day)) == EventsOfEpoch(db.events, u, EpochId(day)) {
      OtherEpochsStand(db.events, now, u, EpochId(day));
    }
    forall version ensures EpochScores(WriteScores(rules, db.scores, now, userId, ids), day, version) == EpochScores(db.scores, day, version) {
      WriteScoresKeepsDay(rules, db.scores, now, userId, ids, day, version);
    }
  }

  /** No run adds an event to a closed epoch or writes a score of its day. */
  lemma IngestLeavesClosedEpochs(rules: Rules, db: Db, userId: string, input: seq<UsageRecord>, calendar: seq<string>, day: string)
    requires Closed(db, EpochId(day))
    ensures ClosedEpochStands(db, Outcome(rules, db, userId, input, calendar).1, day)
  {
    var taken := AssignAll(rules, LoadClosedEpochs(db), input, calendar);
    if input != [] && taken.Ok? {
      BatchIsPrepared(rules, db, userId, input, calendar);
      BatchLeavesClosedEpochs(rules, db, userId, Deduped(db.events, userId, taken.value), day);
    }
  }

  /** Ingestion writes neither epochs nor allocations nor the ledger, and only adds events. */
  lemma IngestOnlyAddsEvents(rules: Rules, db: Db, userId: string, input: seq<UsageRecord>, calendar: seq<string>)
    ensures var db' := Outcome(rules, db, userId, input, calendar).1;
            && db'.epochs == db.epochs && db'.allocations == db.allocations && db'.ledger == db.ledger && db'.frozen == db.frozen
            && db.events <= db'.events && db.proofs <= db'.proofs
  {
  }

  /** An ingest run between two settlement calls is a rescoring the protocol allows. */
  lemma IngestIsALegalRescore(rules: Rules, plan: Protocol.Plan, s: Protocol.System, userId: string, input: seq<UsageRecord>, calendar: seq<string>)
    requires Exact(rules, s.db) && Protocol.WellFormedPlan(plan) && forall id | id in plan :: DayTerms(plan[id])
    ensures var db' := Outcome(rules, s.db, userId, input, calendar).1;
            Protocol.Legal(plan, s, Protocol.Rescore(db'.scores, db'.events))
  {
    var db' := Outcome(rules, s.db, userId, input, calendar).1;
    IngestKeepsExact(rules, s.db, userId, input, calendar);
    forall id | id in plan && Closed(s.db, id)
      ensures Protocol.ScoresOf(s.db.(scores := db'.scores), plan[id]) == Protocol.ScoresOf(s.db, plan[id])
    {
      IngestLeavesClosedEpochs(rules, s.db, userId, input, calendar, plan[id].epoch.day);
    }
  }

  // --------------------------------------------------------------- whole histories

  datatype Op =
    | IngestOp(userId: string, records: seq<UsageRecord>, calendar: seq<string>)
    | FinalizeOp(id: string)
    | SettleOp(id: string)

  function Perform(rules: Rules, plan: Protocol.Plan, db: Db, op: Op): Db
  {
    match op
    case IngestOp(userId, records, calendar) => Outcome(rules, db, userId, records, calendar).1
    case FinalizeOp(id) =>
      if id in plan then FinalizeOutcome(db, plan[id].epoch, plan[id].version, plan[id].kind).1 else db
    case SettleOp(id) =>
      if id in plan then SettleOutcome(db, plan[id].epoch, plan[id].version, plan[id].kind).1 else db
  }

  function PerformAll(rules: Rules, plan: Protocol.Plan, db: Db, ops: seq<Op>): Db
    decreases |ops|
  {
    if ops == [] then db else PerformAll(rules, plan, Perform(rules, plan, db, ops[0]), ops[1..])
  }

  lemma {:induction false} MarkingKeepsBuckets(events: seq<Event>, epochId: string, users: set<string>)
    ensures AggregateDaily(MarkSettled(events, epochId, users)) == AggregateDaily(events)
  {
    var out := MarkSettled(events, epochId, users);
    forall key ensures TotalFor(out, key) == TotalFor(events, key) {
      MarkingKeepsTotal(events, epochId, users, key);
    }
    forall key ensures key in BucketsOf(out) <==> key in BucketsOf(events) {
      if key in BucketsOf(events) {
        var i :| 0 <= i < |events| && BucketOf(events[i]) == key;
        assert BucketOf(out[i]) == key && out[i] in out;
      }
      if key in BucketsOf(out) {
        var i :| 0 <= i < |out| && BucketOf(out[i]) == key;
        assert BucketOf(events[i]) == key && events[i] in events;
      }
    }
  }

  lemma {:induction false} MarkingKeepsTotal(events: seq<Event>, epochId: string, users: set<string>, key: AggregateKey)
    ensures TotalFor(MarkSettled(events, epochId, users), key) == TotalFor(events, key)
  {
    if events != [] {
      var n := |events| - 1;
      MarkingKeepsTotal(events[..n], epochId, users, key);
      assert MarkSettled(events, epochId, users)[..n] == MarkSettled(events[..n], epochId, users);
    }
  }

  lemma {:induction false} MarkingKeepsOtherEpochs(events: seq<Event>, epochId: string, users: set<string>, userId: string, other: string)
    requires other != epochId
    ensures EventsOfEpoch(MarkSettled(events, epochId, users), userId, other) == EventsOfEpoch(events, userId, other)
  {
    if events != [] {
      var n := |events| - 1;
      MarkingKeepsOtherEpochs(events[..n], epochId, users, userId, other);
      assert MarkSettled(events, epochId, users)[..n] == MarkSettled(events[..n], epochId, users);
    }
  }

  lemma SettleKeepsExact(rules: Rules, db: Db, terms: Protocol.Terms)
    requires Exact(rules, db)
    ensures Exact(rules, SettleOutcome(db, terms.epoch, terms.version, terms.kind).1)
  {
    var (r, db') := SettleOutcome(db, terms.epoch, terms.version, terms.kind);
    if r.Ok? {
      var users := Users(EpochScores(db.scores, terms.epoch.day, terms.version));
      MarkingKeepsBuckets(db.events, terms.epoch.id, users);
      forall u, day | !Closed(db', EpochId(day)) ensures StoredScore(rules, db', u, day) == ScratchScore(rules, db'.events, u, day) {
        assert !Closed(db, EpochId(day)) && Closed(db', terms.epoch.id);
        MarkingKeepsOtherEpochs(db.events, terms.epoch.id, users, u, EpochId(day));
        assert StoredScore(rules, db, u, day) == ScratchScore(rules, db.events, u, day);
      }
    }
  }

  /** Every closed epoch of the plan still records the network score its scores add up to. */
  ghost predicate FinalizedStands(plan: Protocol.Plan, db: Db)
  {
    forall id | id in plan && Closed(db, id) ::
      db.epochs[id].networkScore == NetworkScore(Protocol.ScoresOf(db, plan[id]))
  }

  ghost predicate GoodPlan(plan: Protocol.Plan)
  {
    Protocol.WellFormedPlan(plan) && forall id | id in plan :: DayTerms(plan[id])
  }

  /** Closed epochs of the plan keep their participants, and no epoch goes back. */
  ghost predicate OnlyForward(plan: Protocol.Plan, db: Db, db': Db)
  {
    && (forall id :: Protocol.StateRank(StateOf(db, id)) <= Protocol.StateRank(StateOf(db', id)))
    && (forall id | id in plan && Closed(db, id) :: Protocol.ScoresOf(db', plan[id]) == Protocol.ScoresOf(db, plan[id]))
    && db.ledger <= db'.ledger
  }

  lemma IngestOpKeeps(rules: Rules, plan: Protocol.Plan, db: Db, op: Op)
    requires GoodPlan(plan) && Exact(rules, db) && FinalizedStands(plan, db) && op.IngestOp?
    ensures var db' := Perform(rules, plan, db, op);
            Exact(rules, db') && FinalizedStands(plan, db') && OnlyForward(plan, db, db')
  {
    var db' := Perform(rules, plan, db, op);
    IngestKeepsExact(rules, db, op.userId, op.records, op.calendar);
    IngestOnlyAddsEvents(rules, db, op.userId, op.records, op.calendar);
    forall id | id in plan && Closed(db, id) ensures Protocol.ScoresOf(db', plan[id]) == Protocol.ScoresOf(db, plan[id]) {
      IngestLeavesClosedEpochs(rules, db, op.userId, op.records, op.calendar, plan[id].epoch.day);
    }
  }

  lemma FinalizeOpKeeps(rules: Rules, plan: Protocol.Plan, db: Db, id: string)
    requires GoodPlan(plan) && Exact(rules, db) && FinalizedStands(plan, db) && id in plan
    ensures var db' := FinalizeOutcome(db, plan[id].epoch, plan[id].version, plan[id].kind).1;
            Exact(rules, db') && FinalizedStands(plan, db') && OnlyForward(plan, db, db')
  {
    var db' := FinalizeOutcome(db, plan[id].epoch, plan[id].version, plan[id].kind).1;
    forall u, day | !Closed(db', EpochId(day)) ensures StoredScore(rules, db', u, day) == ScratchScore(rules, db'.events, u, day) {
      assert !Closed(db, EpochId(day));
      assert StoredScore(rules, db, u, day) == ScratchScore(rules, db.events, u, day);
    }
  }

  lemma SettleOpKeeps(rules: Rules, plan: Protocol.Plan, db: Db, id: string)
    requires GoodPlan(plan) && FinalizedStands(plan, db) && id in plan
    ensures var db' := SettleOutcome(db, plan[id].epoch, plan[id].version, plan[id].kind).1;
            FinalizedStands(plan, db') && OnlyForward(plan, db, db')
  {
    var (r, db') := SettleOutcome(db, plan[id].epoch, plan[id].version, plan[id].kind);
    assert db'.scores == db.scores && db.ledger <= db'.ledger;
    forall other ensures Protocol.StateRank(StateOf(db, other)) <= Protocol.StateRank(StateOf(db', other)) {
    }
  }

  lemma PerformKeeps(rules: Rules, plan: Protocol.Plan, db: Db, op: Op)
    requires GoodPlan(plan) && Exact(rules, db) && FinalizedStands(plan, db)
    ensures var db' := Perform(rules, plan, db, op);
            Exact(rules, db') && FinalizedStands(plan, db') && OnlyForward(plan, db, db')
  {
    match op {
      case IngestOp(_, _, _) =>
        IngestOpKeeps(rules, plan, db, op);
      case FinalizeOp(id) =>
        if id in plan {
          FinalizeOpKeeps(rules, plan, db, id);
        }
      case SettleOp(id) =>
        if id in plan {
          SettleKeepsExact(rules, db, plan[id]);
          SettleOpKeeps(rules, plan, db, id);
        }
    }
  }

  /**
   * Over every sequential history: derived tables are exact, states only move
   * forward, and a closed epoch keeps its scores and its network score, so what
   * a later settlement pays is what finalization saw.
   */
  lemma {:induction false} HistoryKeepsEverything(rules: Rules, plan: Protocol.Plan, db: Db, ops: seq<Op>)
    requires GoodPlan(plan) && Exact(rules, db) && FinalizedStands(plan, db)
    ensures var db' := PerformAll(rules, plan, db, ops);
            Exact(rules, db') && FinalizedStands(plan, db') && OnlyForward(plan, db, db')
    decreases |ops|
  {
    if ops != [] {
      PerformKeeps(rules, plan, db, ops[0]);
      HistoryKeepsEverything(rules, plan, Perform(rules, plan, db, ops[0]), ops[1..]);
    }
  }

  /** Whatever happens between finalizing and settling, the settlement divides the finalized score. */
  lemma SettledIsWhatWasFinalized(rules: Rules, plan: Protocol.Plan, db: Db, id: string, ops: seq<Op>)
    requires GoodPlan(plan) && Exact(rules, db) && FinalizedStands(plan, db) && id in plan
    requires FinalizeOutcome(db, plan[id].epoch, plan[id].version, plan[id].kind).0.Ok?
    ensures var finalized := Perform(rules, plan, db, FinalizeOp(id));
            var later := PerformAll(rules, plan, finalized, ops);
            var (result, _) := SettleOutcome(later, plan[id].epoch, plan[id].version, plan[id].kind);
            && (result.Ok? <==> StateOf(later, id) == Finalizing)
            && (result.Ok? ==>
                  && result.value.networkScore == FinalizeOutcome(db, plan[id].epoch, plan[id].version, plan[id].kind).0.value.networkScore
                  && result.value.allocations == Allocate(Protocol.ScoresOf(finalized, plan[id]), plan[id].epoch.pool))
  {
    var finalized := Perform(rules, plan, db, FinalizeOp(id));
    PerformKeeps(rules, plan, db, FinalizeOp(id));
    HistoryKeepsEverything(rules, plan, finalized, ops);
    assert Closed(finalized, id);
  }

  // --------------------------------------------------- one unit over whole histories

  ghost predicate UnitRule(events: seq<Event>, keys: set<NaturalKey>)
  {
    FirstEarnsOnly(events) && UniqueNaturalKeys(events) && KeysWithin(events, keys)
  }

  /** Every batch ingested along the way is made of these natural keys. */
  ghost predicate OpsWithin(ops: seq<Op>, keys: set<NaturalKey>)
  {
    forall op | op in ops && op.IngestOp? :: BatchWithin(op.userId, op.records, keys)
  }

  /** Marking events settled changes neither their keys nor whether they are held as duplicates. */
  lemma MarkingKeepsUnitRule(events: seq<Event>, epochId: string, users: set<string>, keys: set<NaturalKey>)
    requires UnitRule(events, keys)
    ensures UnitRule(MarkSettled(events, epochId, users), keys)
  {
    var out := MarkSettled(events, epochId, users);
    assert forall i | 0 <= i < |events| ::
        EventKey(out[i]) == EventKey(events[i]) && out[i].record.economicKey == events[i].record.economicKey
        && IsMarked(out[i].record) == IsMarked(events[i].record);
    forall e | e in out ensures EventKey(e) in keys {
      var i :| 0 <= i < |out| && out[i] == e;
      assert events[i] in events;
    }
  }

  /** A batch with its epochs assigned carries the natural keys it came with. */
  lemma AssignedKeepsKeys(rules: Rules, closed: map<string, EpochState>, userId: string, input: seq<UsageRecord>, calendar: seq<string>, keys: set<NaturalKey>)
    requires AssignAll(rules, closed, input, calendar).Ok? && BatchWithin(userId, input, keys)
    ensures BatchWithin(userId, AssignAll(rules, closed, input, calendar).value, keys)
  {
    var taken := AssignAll(rules, closed, input, calendar).value;
    forall r | r in taken ensures KeyOf(userId, r) in keys {
      var i :| 0 <= i < |taken| && taken[i] == r;
      assert KeyOf(userId, r) == KeyOf(userId, input[i]) && input[i] in input;
    }
  }

  lemma PerformKeepsUnitRule(rules: Rules, plan: Protocol.Plan, db: Db, op: Op, keys: set<NaturalKey>)
    requires NoClash(keys) && UnitRule(db.events, keys)
    requires op.IngestOp? ==> BatchWithin(op.userId, op.records, keys)
    ensures UnitRule(Perform(rules, plan, db, op).events, keys)
  {
    match op {
      case IngestOp(userId, input, calendar) =>
        var taken := AssignAll(rules, LoadClosedEpochs(db), input, calendar);
        if input != [] && taken.Ok? {
          AssignedKeepsKeys(rules, LoadClosedEpochs(db), userId, input, calendar, keys);
          RunKeepsOneUnit(db.events, userId, taken.value, keys);
        }
      case FinalizeOp(id) =>
      case SettleOp(id) =>
        if id in plan {
          MarkingKeepsUnitRule(db.events, plan[id].epoch.id, Users(Protocol.ScoresOf(db, plan[id])), keys);
        }
    }
  }

  lemma {:induction false} HistoryKeepsUnitRule(rules: Rules, plan: Protocol.Plan, db: Db, ops: seq<Op>, keys: set<NaturalKey>)
    requires NoClash(keys) && UnitRule(db.events, keys) && OpsWithin(ops, keys)
    ensures UnitRule(PerformAll(rules, plan, db, ops).events, keys)
    decreases |ops|
  {
    if ops != [] {
      assert ops[0] in ops;
      PerformKeepsUnitRule(rules, plan, db, ops[0], keys);
      HistoryKeepsUnitRule(rules, plan, Perform(rules, plan, db, ops[0]), ops[1..], keys);
    }
  }

  function EmptyDb(frozen: bool): Db
  {
    Db(map[], [], [], [], [], [], map[], frozen)
  }

  /** Ingesting one record into tables without closed epochs stores what the bare run stores. */
  lemma OpenIngestIsARun(rules: Rules, plan: Protocol.Plan, db: Db, key: NaturalKey)
    requires db.epochs == map[]
    ensures var db' := Perform(rules, plan, db, IngestOp(key.userId, [KeyedRecord(key, "ecu1:x")], []));
            db'.epochs == map[] && db'.events == RunEvents(db.events, key.userId, [KeyedRecord(key, "ecu1:x")])
  {
    var record := KeyedRecord(key, "ecu1:x");
    var closed := LoadClosedEpochs(db);
    assert EpochId("d") == "epoch-d" && EpochId("d") !in closed;
    assert AssignEpoch(closed, "d", []) == Ok(Assignment("epoch-d", false));
    assert Assigned(rules, record, Assignment("epoch-d", false)) == record;
    assert [record][1..] == [] && AssignAll(rules, closed, [], []) == Ok([]);
    assert AssignAll(rules, closed, [record], []) == Ok([record] + []);
    assert [record] + [] == [record];
  }

  lemma TwoOps(rules: Rules, plan: Protocol.Plan, db: Db, first: Op, second: Op)
    ensures PerformAll(rules, plan, db, [first, second]) == Perform(rules, plan, Perform(rules, plan, db, first), second)
  {
    var one := Perform(rules, plan, db, first);
    var two := Perform(rules, plan, one, second);
    assert [first, second][1..] == [second] && [second][1..] == [];
    assert PerformAll(rules, plan, two, []) == two && PerformAll(rules, plan, one, [second]) == two;
  }

  function ClashingOps(a: NaturalKey, b: NaturalKey): seq<Op>
  {
    [IngestOp(a.userId, [KeyedRecord(a, "ecu1:x")], []), IngestOp(b.userId, [KeyedRecord(b, "ecu1:x")], [])]
  }

  lemma ClashingOpsPayTwice(rules: Rules, plan: Protocol.Plan, frozen: bool, a: NaturalKey, b: NaturalKey)
    requires a != b && KeyText(a) == KeyText(b)
    ensures OpsWithin(ClashingOps(a, b), {a, b})
    ensures !FirstEarnsOnly(PerformAll(rules, plan, EmptyDb(frozen), ClashingOps(a, b)).events)
  {
    var ops, db := ClashingOps(a, b), EmptyDb(frozen);
    var one := Perform(rules, plan, db, ops[0]);
    OpenIngestIsARun(rules, plan, db, a);
    OpenIngestIsARun(rules, plan, one, b);
    TwoOps(rules, plan, db, ops[0], ops[1]);
    TwoBatches([], OneComputeTwice(a, b)[0], OneComputeTwice(a, b)[1]);
    ClashPaysTwice(a, b);
    KeyedRecordHasKey(a);
    KeyedRecordHasKey(b);
  }

  /**
   * Over every history of ingests (epochs assigned, late records held), finalizations
   * and settlements from empty tables, one event per economic key earns: exactly when
   * the joined texts tell the natural keys of the batches apart.
   */
  lemma PipelinePaysOnceExactlyWithoutClash(rules: Rules, plan: Protocol.Plan, frozen: bool, keys: set<NaturalKey>)
    ensures NoClash(keys) <==>
            forall ops | OpsWithin(ops, keys) :: FirstEarnsOnly(PerformAll(rules, plan, EmptyDb(frozen), ops).events)
  {
    if NoClash(keys) {
      forall ops | OpsWithin(ops, keys) ensures FirstEarnsOnly(PerformAll(rules, plan, EmptyDb(frozen), ops).events) {
        HistoryKeepsUnitRule(rules, plan, EmptyDb(frozen), ops, keys);
      }
    } else {
      var a, b :| a in keys && b in keys && KeyText(a) == KeyText(b) && a != b;
      ClashingOpsPayTwice(rules, plan, frozen, a, b);
      assert OpsWithin(ClashingOps(a, b), keys);
    }
  }
}
