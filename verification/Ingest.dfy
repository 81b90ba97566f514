/**
 * Trusted ingestion: assign, dedupe, insert, then re-derive only the days and
 * epochs the batch touches.
 */
module Ingest {
  import opened Wrappers
  import opened Text
  import opened Sorting
  import opened Database
  import opened Dedupe
  import opened OneUnit
  import opened Epochs
  import opened Scoring

  const INSERT_CHUNK := 400

  function DaysOf(records: seq<UsageRecord>): set<string>
  {
    set r | r in records :: r.day
  }

  /** The user's events from the first to the last of these days, days in between included. */
  function EventsForDays(events: seq<Event>, userId: string, days: set<string>): seq<Event>
  {
    if events == [] then []
    else
      var rest, last := EventsForDays(events[..|events| - 1], userId, days), events[|events| - 1];
      if last.userId == userId && InRange(last.record.day, days) then rest + [last] else rest
  }

  /** Delete the user's rows of these days, then write the fresh ones. */
  function ReplaceAggregates(rows: map<AggregateKey, Totals>, userId: string, days: set<string>, derived: map<AggregateKey, Totals>): map<AggregateKey, Totals>
  {
    (map k | k in rows && !(k.userId == userId && k.day in days) :: rows[k]) + derived
  }

  function Unique(ids: seq<string>): (out: seq<string>)
    ensures forall id :: id in out <==> id in ids
  {
    if ids == [] then []
    else if ids[0] in ids[1..] then Unique(ids[1..])
    else [ids[0]] + Unique(ids[1..])
  }

  function EpochIdsOf(records: seq<UsageRecord>): seq<string>
  {
    Sort(Unique(seq(|records|, i requires 0 <= i < |records| => records[i].epochId)), (a, b) => StrLess(a, b))
  }

  lemma EpochIdsAreThoseOfTheBatch(records: seq<UsageRecord>)
    ensures forall id :: id in EpochIdsOf(records) <==> exists r :: r in records && r.epochId == id
    ensures forall i, j | 0 <= i < j < |EpochIdsOf(records)| :: StrLess(EpochIdsOf(records)[i], EpochIdsOf(records)[j])
  {
    EpochIdsRise(records);
    var ids := seq(|records|, i requires 0 <= i < |records| => records[i].epochId);
    var less := (a: string, b: string) => StrLess(a, b);
    StringOrderIsStrictWeak(less);
    SortIsOrdered(Unique(ids), less);
    forall id ensures id in EpochIdsOf(records) <==> exists r :: r in records && r.epochId == id {
      assert id in EpochIdsOf(records) <==> id in multiset(EpochIdsOf(records));
      assert id in Unique(ids) <==> id in multiset(Unique(ids));
      if id in ids {
        var i :| 0 <= i < |ids| && ids[i] == id;
        assert records[i] in records;
      }
      if r :| r in records && r.epochId == id {
        var i :| 0 <= i < |records| && records[i] == r;
        assert ids[i] == id;
      }
    }
  }

  lemma StringOrderIsStrictWeak(less: (string, string) -> bool)
    requires forall a, b :: less(a, b) == StrLess(a, b)
    ensures StrictWeakOrder(less)
  {
    forall x, y ensures less(x, y) ==> !less(y, x) {
      StrLessIsTotal(x, y);
    }
    forall x, y, z ensures less(x, z) ==> less(x, y) || less(y, z) {
      StrLessIsTotal(x, y);
      StrLessIsTotal(y, z);
      if StrLess(y, x) && StrLess(x, z) {
        StrLessIsTransitive(y, x, z);
      }
    }
  }

  lemma {:induction false} UniqueHasNoRepeats(ids: seq<string>)
    ensures forall i, j | 0 <= i < j < |Unique(ids)| :: Unique(ids)[i] != Unique(ids)[j]
  {
    if ids != [] {
      UniqueHasNoRepeats(ids[1..]);
    }
  }

  lemma NoRepeatsUnderPermutation(a: seq<string>, b: seq<string>)
    requires multiset(a) == multiset(b) && forall i, j | 0 <= i < j < |a| :: a[i] != a[j]
    ensures forall i, j | 0 <= i < j < |b| :: b[i] != b[j]
  {
    forall i, j | 0 <= i < j < |b| ensures b[i] != b[j] {
      if b[i] == b[j] {
        assert b == b[..i] + [b[i]] + b[i + 1..j] + [b[j]] + b[j + 1..];
        assert multiset(b)[b[i]] >= 2;
        AtMostOnce(a, b[i]);
      }
    }
  }

  lemma {:induction false} AtMostOnce(a: seq<string>, x: string)
    requires forall i, j | 0 <= i < j < |a| :: a[i] != a[j]
    ensures multiset(a)[x] <= 1
  {
    if a != [] {
      AtMostOnce(a[1..], x);
      assert a == [a[0]] + a[1..];
      if a[0] == x {
        assert x !in a[1..];
      }
    }
  }

  lemma EpochIdsRise(records: seq<UsageRecord>)
    ensures forall i, j | 0 <= i < j < |EpochIdsOf(records)| :: StrLess(EpochIdsOf(records)[i], EpochIdsOf(records)[j])
  {
    var ids := Unique(seq(|records|, i requires 0 <= i < |records| => records[i].epochId));
    var less := (a: string, b: string) => StrLess(a, b);
    StringOrderIsStrictWeak(less);
    SortIsOrdered(ids, less);
    UniqueHasNoRepeats(seq(|records|, i requires 0 <= i < |records| => records[i].epochId));
    NoRepeatsUnderPermutation(ids, EpochIdsOf(records));
    forall i, j | 0 <= i < j < |EpochIdsOf(records)| ensures StrLess(EpochIdsOf(records)[i], EpochIdsOf(records)[j]) {
      StrLessIsTotal(EpochIdsOf(records)[i], EpochIdsOf(records)[j]);
    }
  }

  function ScoreRowFor(rules: Rules, events: seq<Event>, userId: string, epochId: string): ScoreRow
  {
    var version := rules.scoringFor(epochId);
    ScoreRow(userId, EpochDay(epochId), version, ScoreOf(rules, EventsOfEpoch(events, userId, epochId), version))
  }

  function WriteScores(rules: Rules, rows: seq<ScoreRow>, events: seq<Event>, userId: string, ids: seq<string>): seq<ScoreRow>
    decreases |ids|
  {
    if ids == [] then rows
    else WriteScores(rules, UpsertScore(rows, ScoreRowFor(rules, events, userId, ids[0])), events, userId, ids[1..])
  }

  function Derive(rules: Rules, db: Db, userId: string, records: seq<UsageRecord>): Db
  {
    var days := DaysOf(records);
    db.(aggregates := ReplaceAggregates(db.aggregates, userId, days, AggregateDaily(EventsForDays(db.events, userId, days))),
        scores := WriteScores(rules, db.scores, db.events, userId, EpochIdsOf(records)))
  }

  datatype Summary = Summary(inserted: nat, duplicates: int, daysRecomputed: nat)

  function Outcome(rules: Rules, db: Db, userId: string, input: seq<UsageRecord>, calendar: seq<string>): (Result<Summary, AssignError>, Db)
  {
    if input == [] then (Ok(Summary(0, 0, 0)), db)
    else
      match AssignAll(rules, LoadClosedEpochs(db), input, calendar)
      case Err(e) => (Err(e), db)
      case Ok(taken) =>
        var (summary, db') := Processed(rules, db, userId, Deduped(db.events, userId, taken));
        (Ok(summary), db')
  }

  /** Insert the prepared records, then derive again what they touch. */
  function Processed(rules: Rules, db: Db, userId: string, records: seq<UsageRecord>): (Summary, Db)
  {
    var db' := WithBatch(db, userId, records);
    var inserted := |db'.events| - |db.events|;
    (Summary(inserted, |records| - inserted, |DaysOf(records)|), Derive(rules, db', userId, records))
  }

  /** The event and proof tables once the rows are in. */
  function WithBatch(db: Db, userId: string, records: seq<UsageRecord>): (db': Db)
    ensures db.events <= db'.events
  {
    var events := InsertAll(db.events, userId, records);
    db.(events := events, proofs := db.proofs + ProofsFor(events, |db.events|, records))
  }

  // -------------------------------------------------------------------- provenance

  /** Within one user's batch the code looks records up by this text. */
  function RefText(record: UsageRecord): string
  {
    record.provider + "|" + record.source + "|" + record.externalReference
  }

  /** `new Map(...)`: the last record with a text is the one the map holds. */
  function LastWith(records: seq<UsageRecord>, text: string): Option<UsageRecord>
  {
    if records == [] then None
    else if RefText(records[|records| - 1]) == text then Some(records[|records| - 1])
    else LastWith(records[..|records| - 1], text)
  }

  function ProofOf(e: Event, records: seq<UsageRecord>): seq<ProofRow>
  {
    match LastWith(records, RefText(e.record))
    case None => []
    case Some(record) => [ProofRow(e.id, record.source, record.verification, false)]
  }

  /** One proof for each event that was really inserted. */
  function ProofsFor(events: seq<Event>, from: nat, records: seq<UsageRecord>): seq<ProofRow>
    requires from <= |events|
    decreases |events| - from
  {
    if from == |events| then [] else ProofOf(events[from], records) + ProofsFor(events, from + 1, records)
  }

  lemma ChunkGoesIn(events: seq<Event>, userId: string, rows: seq<UsageRecord>, i: nat, next: nat)
    requires i <= next <= |rows|
    ensures InsertAll(events, userId, rows[..next]) == InsertAll(InsertAll(events, userId, rows[..i]), userId, rows[i..next])
  {
    InsertInChunks(events, userId, rows[..i], rows[i..next]);
    assert rows[..next] == rows[..i] + rows[i..next];
  }

  // ------------------------------------------------------------------ the run itself

  class IngestStore {
    var db: Db

    constructor (db: Db)
      ensures this.db == db
    {
      this.db := db;
    }

    method InsertEvents(userId: string, rows: seq<UsageRecord>) returns (from: nat)
      modifies this
      ensures db == old(db).(events := InsertAll(old(db).events, userId, rows))
      ensures from == |old(db).events|
    {
      from := |db.events|;
      db := db.(events := InsertAll(db.events, userId, rows));
    }

    /** The chunk loop: the table ends up as if the batch had gone in at once. */
    method InsertChunks(userId: string, rows: seq<UsageRecord>) returns (inserted: nat)
      modifies this
      ensures db == old(db).(events := InsertAll(old(db).events, userId, rows))
      ensures inserted == |db.events| - |old(db).events|
    {
      inserted := 0;
      var i := 0;
      while i < |rows|
        invariant 0 <= i <= |rows|
        invariant db == old(db).(events := InsertAll(old(db).events, userId, rows[..i]))
        invariant inserted == |db.events| - |old(db).events|
      {
        var next := if i + INSERT_CHUNK <= |rows| then i + INSERT_CHUNK else |rows|;
        ChunkGoesIn(old(db).events, userId, rows, i, next);
        var from := InsertEvents(userId, rows[i..next]);
        inserted := inserted + (|db.events| - from);
        i := next;
      }
      assert rows[..|rows|] == rows;
    }

    method WriteScoresOf(rules: Rules, userId: string, ids: seq<string>)
      modifies this
      ensures db == old(db).(scores := WriteScores(rules, old(db).scores, old(db).events, userId, ids))
    {
      ghost var rows := db.scores;
      for i := 0 to |ids|
        invariant db == old(db).(scores := db.scores)
        invariant WriteScores(rules, db.scores, old(db).events, userId, ids[i..])
               == WriteScores(rules, rows, old(db).events, userId, ids)
      {
        assert ids[i..][1..] == ids[i + 1..];
        db := db.(scores := UpsertScore(db.scores, ScoreRowFor(rules, db.events, userId, ids[i])));
      }
    }

    method StoreBatch(userId: string, records: seq<UsageRecord>) returns (inserted: nat)
      modifies this
      ensures db == WithBatch(old(db), userId, records)
      ensures inserted == |db.events| - |old(db).events|
    {
      var before := |db.events|;
      inserted := InsertChunks(userId, records);
      db := db.(proofs := db.proofs + ProofsFor(db.events, before, records));
    }

    method Rederive(rules: Rules, userId: string, records: seq<UsageRecord>) returns (days: nat)
      modifies this
      ensures db == Derive(rules, old(db), userId, records)
      ensures days == |DaysOf(records)|
    {
      var batchDays := DaysOf(records);
      var aggregates := FillBuckets(EventsForDays(db.events, userId, batchDays));
      db := db.(aggregates := ReplaceAggregates(db.aggregates, userId, batchDays, aggregates));
      WriteScoresOf(rules, userId, EpochIdsOf(records));
      days := |batchDays|;
    }

    method Process(rules: Rules, userId: string, records: seq<UsageRecord>) returns (summary: Summary)
      modifies this
      ensures (summary, db) == Processed(rules, old(db), userId, records)
    {
      var inserted := StoreBatch(userId, records);
      var days := Rederive(rules, userId, records);
      summary := Summary(inserted, |records| - inserted, days);
    }

    method IngestRecords(rules: Rules, userId: string, input: seq<UsageRecord>, calendar: seq<string>) returns (r: Result<Summary, AssignError>)
      modifies this
      ensures (r, db) == Outcome(rules, old(db), userId, input, calendar)
    {
      if input == [] {
        return Ok(Summary(0, 0, 0));
      }
      var taken := AssignAll(rules, LoadClosedEpochs(db), input, calendar);
      if taken.Err? {
        return Err(taken.error);
      }
      var records := ApplyEconomicDedupe(db.events, userId, taken.value);
      var summary := Process(rules, userId, records);
      return Ok(summary);
    }
  }
}
