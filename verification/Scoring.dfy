/** Daily aggregates and epoch scores, derived from stored events. */
module Scoring {
  import opened Wrappers
  import opened Text
  import opened Database
  import opened Epochs

  // ------------------------------------------------------------------ aggregates

  function BucketOf(e: Event): AggregateKey
  {
    AggregateKey(e.userId, e.record.day, e.record.provider, e.record.model, e.record.verification)
  }

  function Add(a: Totals, b: Totals): Totals
  {
    Totals(a.requests + b.requests, a.inputTokens + b.inputTokens, a.cachedInputTokens + b.cachedInputTokens,
           a.outputTokens + b.outputTokens, a.costMicros + b.costMicros)
  }

  const ZERO_TOTALS := Totals(0, 0, 0, 0, 0)

  /** What one bucket holds: the sum over its events. */
  function TotalFor(events: seq<Event>, key: AggregateKey): Totals
  {
    if events == [] then ZERO_TOTALS
    else
      var rest := TotalFor(events[..|events| - 1], key);
      var last := events[|events| - 1];
      if BucketOf(last) == key then Add(rest, last.record.totals) else rest
  }

  function BucketsOf(events: seq<Event>): set<AggregateKey>
  {
    set e | e in events :: BucketOf(e)
  }

  function AggregateDaily(events: seq<Event>): map<AggregateKey, Totals>
  {
    map key | key in BucketsOf(events) :: TotalFor(events, key)
  }

  method FillBuckets(events: seq<Event>) returns (buckets: map<AggregateKey, Totals>)
    ensures buckets == AggregateDaily(events)
  {
    buckets := map[];
    for i := 0 to |events|
      invariant buckets.Keys == BucketsOf(events[..i])
      invariant forall key | key in buckets :: buckets[key] == TotalFor(events[..i], key)
    {
      var key := BucketOf(events[i]);
      var prior := if key in buckets then buckets[key] else ZERO_TOTALS;
      assert events[..i + 1][..i] == events[..i];
      assert events[..i + 1] == events[..i] + [events[i]];
      if key !in buckets {
        NoEventNoTotal(events[..i], key);
      }
      buckets := buckets[key := Add(prior, events[i].record.totals)];
    }
    assert events[..|events|] == events;
  }

  lemma {:induction false} NoEventNoTotal(events: seq<Event>, key: AggregateKey)
    requires key !in BucketsOf(events)
    ensures TotalFor(events, key) == ZERO_TOTALS
  {
    if events != [] {
      var last := events[|events| - 1];
      assert last in events;
      NoEventNoTotal(events[..|events| - 1], key);
    }
  }

  /** A day lies between the first and the last of some days. */
  predicate InRange(day: string, days: set<string>)
  {
    (exists a :: a in days && !StrLess(day, a)) && (exists b :: b in days && !StrLess(b, day))
  }

  // ---------------------------------------------------------------------- scores

  const EXACT_SCORING := "usage_score_v2"

  /** A reward hold outranks the reward status. */
  predicate EconomicallyEligible(record: UsageRecord)
  {
    !record.rewardHold && record.rewardStatus == RewardEligible
  }

  predicate Weighs(record: UsageRecord)
  {
    !record.verification.Reported?
  }

  function WeightedMicros(records: seq<UsageRecord>): int
  {
    if records == [] then 0
    else WeightedMicros(records[1..]) + if Weighs(records[0]) && EconomicallyEligible(records[0]) then records[0].eligibleMicros else 0
  }

  function ExcludedMicros(records: seq<UsageRecord>): int
  {
    if records == [] then 0 else ExcludedMicros(records[1..]) + if Weighs(records[0]) then 0 else records[0].measuredMicros
  }

  function PendingMicros(records: seq<UsageRecord>): int
  {
    if records == [] then 0
    else PendingMicros(records[1..]) + if Weighs(records[0]) && !EconomicallyEligible(records[0]) then records[0].measuredMicros else 0
  }

  function PicoOf(record: UsageRecord): int
  {
    if EconomicallyEligible(record) && record.eligiblePico.Some? then record.eligiblePico.value else 0
  }

  function EligiblePico(records: seq<UsageRecord>): int
  {
    if records == [] then 0
    else EligiblePico(records[1..]) + PicoOf(records[0])
  }

  /** The score of one bucket of events under the version of its epoch. */
  function ScoreOf(rules: Rules, records: seq<UsageRecord>, version: string): Score
  {
    var weighted := WeightedMicros(records);
    if version == EXACT_SCORING then
      var pico := EligiblePico(records);
      Score(weighted, ExcludedMicros(records), PendingMicros(records), 10_000 * ((pico + 500_000) / 1_000_000), Some(pico))
    else
      Score(weighted, ExcludedMicros(records), PendingMicros(records), rules.curve(weighted), None)
  }

  function EventsOfEpoch(events: seq<Event>, userId: string, epochId: string): seq<UsageRecord>
  {
    if events == [] then []
    else
      var rest := EventsOfEpoch(events[..|events| - 1], userId, epochId);
      var last := events[|events| - 1];
      if last.userId == userId && last.record.epochId == epochId then rest + [last.record] else rest
  }

  function SameScoreKey(row: ScoreRow, userId: string, day: string, version: string): bool
  {
    row.userId == userId && row.day == day && row.version == version
  }

  /** Replace the row with this key, or append it. */
  function UpsertScore(rows: seq<ScoreRow>, row: ScoreRow): seq<ScoreRow>
  {
    if rows == [] then [row]
    else if SameScoreKey(rows[0], row.userId, row.day, row.version) then [row] + rows[1..]
    else [rows[0]] + UpsertScore(rows[1..], row)
  }

  function FindScore(rows: seq<ScoreRow>, userId: string, day: string, version: string): Option<Score>
  {
    if rows == [] then None
    else if SameScoreKey(rows[0], userId, day, version) then Some(rows[0].score)
    else FindScore(rows[1..], userId, day, version)
  }

  /** The stored score; no row means nothing was scored yet. */
  function ReadScore(rules: Rules, rows: seq<ScoreRow>, userId: string, day: string, version: string): Score
  {
    match FindScore(rows, userId, day, version)
    case Some(score) => score
    case None => ScoreOf(rules, [], version)
  }

  lemma {:induction false} UpsertThenFind(rows: seq<ScoreRow>, row: ScoreRow, userId: string, day: string, version: string)
    ensures FindScore(UpsertScore(rows, row), userId, day, version) ==
            if SameScoreKey(row, userId, day, version) then Some(row.score) else FindScore(rows, userId, day, version)
  {
    if rows != [] && !SameScoreKey(rows[0], row.userId, row.day, row.version) {
      UpsertThenFind(rows[1..], row, userId, day, version);
    }
  }

  lemma {:induction false} UpsertKeepsUnique(rows: seq<ScoreRow>, row: ScoreRow)
    requires UniqueScores(rows)
    ensures UniqueScores(UpsertScore(rows, row))
    ensures forall r | r in UpsertScore(rows, row) :: r == row || r in rows
  {
    if rows != [] {
      if SameScoreKey(rows[0], row.userId, row.day, row.version) {
        assert rows == [rows[0]] + rows[1..];
      } else {
        UpsertKeepsUnique(rows[1..], row);
        var rest := UpsertScore(rows[1..], row);
        forall j | 0 <= j < |rest| ensures !SameScoreKey(rest[j], rows[0].userId, rows[0].day, rows[0].version) {
          if rest[j] != row {
            assert rest[j] in rows[1..];
            var k :| 0 <= k < |rows| - 1 && rows[1..][k] == rest[j];
            assert rows[k + 1] == rest[j];
          }
        }
      }
    }
  }

  /** Writing the score of one day leaves the participants of every other day alone. */
  lemma {:induction false} UpsertKeepsOtherDays(rows: seq<ScoreRow>, row: ScoreRow, day: string, version: string)
    requires row.day != day
    ensures EpochScores(UpsertScore(rows, row), day, version) == EpochScores(rows, day, version)
  {
    if rows != [] && !SameScoreKey(rows[0], row.userId, row.day, row.version) {
      UpsertKeepsOtherDays(rows[1..], row, day, version);
    }
  }

  /** A held event adds nothing to a score, so a marked duplicate can never raise one. */
  lemma {:induction false} HeldEventsScoreNothing(records: seq<UsageRecord>)
    requires forall r | r in records :: !EconomicallyEligible(r)
    ensures WeightedMicros(records) == 0 && EligiblePico(records) == 0
  {
    if records != [] {
      HeldEventsScoreNothing(records[1..]);
    }
  }

  // ---------------------------------------------------- what one more record does to a score

  lemma {:induction false} OneMoreSum(records: seq<UsageRecord>, r: UsageRecord)
    ensures WeightedMicros(records + [r]) == WeightedMicros(records) + WeightedMicros([r])
    ensures ExcludedMicros(records + [r]) == ExcludedMicros(records) + ExcludedMicros([r])
    ensures PendingMicros(records + [r]) == PendingMicros(records) + PendingMicros([r])
    ensures EligiblePico(records + [r]) == EligiblePico(records) + EligiblePico([r])
  {
    if records == [] {
      assert [] + [r] == [r];
    } else {
      assert (records + [r])[1..] == records[1..] + [r];
      OneMoreSum(records[1..], r);
    }
  }

  /**
   * A reported record adds its measured micro-USD to the excluded sum alone. One
   * that is verified or routed adds them to the pending sum alone while it is held
   * or not eligible, and else its eligible micro-USD to the weighted sum alone.
   * Nothing is scored of no records.
   */
  lemma ScoreOfOneMore(rules: Rules, records: seq<UsageRecord>, r: UsageRecord, version: string)
    ensures var zero := ScoreOf(rules, [], version); zero.weighted == zero.excluded == zero.pending == 0
    ensures var before, after := ScoreOf(rules, records, version), ScoreOf(rules, records + [r], version);
            var earns := !r.rewardHold && r.rewardStatus == RewardEligible;
            && after.excluded - before.excluded == (if r.verification == Reported then r.measuredMicros else 0)
            && after.pending - before.pending == (if r.verification != Reported && !earns then r.measuredMicros else 0)
            && after.weighted - before.weighted == (if r.verification != Reported && earns then r.eligibleMicros else 0)
  {
    OneMoreSum(records, r);
    assert [r][1..] == [];
  }

  /**
   * Exact scoring adds up the pico-USD of eligible records, whatever vouches for
   * them; the points are that sum in whole micro-USD, rounded half up. Any other
   * version takes its points from the curve and keeps no pico-USD.
   */
  lemma PointsOfOneMore(rules: Rules, records: seq<UsageRecord>, r: UsageRecord, version: string)
    ensures var before, after := ScoreOf(rules, records, version), ScoreOf(rules, records + [r], version);
            if version == "usage_score_v2" then
              && ScoreOf(rules, [], version).pico == Some(0) && before.pico.Some? && after.pico.Some?
              && after.pico.value - before.pico.value ==
                   (if !r.rewardHold && r.rewardStatus == RewardEligible && r.eligiblePico.Some? then r.eligiblePico.value else 0)
              && after.points % 10_000 == 0
              && 2 * after.pico.value - 1_000_000 < 2 * 1_000_000 * (after.points / 10_000) <= 2 * after.pico.value + 1_000_000
            else after.pico.None? && after.points == rules.curve(after.weighted)
  {
    OneMoreSum(records, r);
    assert [r][1..] == [];
  }

  /** One more event of a bucket adds its five totals to that bucket; every other bucket stays. */
  lemma AggregateOfOneMore(events: seq<Event>, e: Event, key: AggregateKey)
    ensures AggregateDaily([]) == map[]
    ensures var before, after := AggregateDaily(events), AggregateDaily(events + [e]);
            var prior := if key in before then before[key] else Totals(0, 0, 0, 0, 0);
            if key.userId == e.userId && key.day == e.record.day && key.provider == e.record.provider
               && key.model == e.record.model && key.verification == e.record.verification then
              && key in after
              && after[key].requests == prior.requests + e.record.totals.requests
              && after[key].inputTokens == prior.inputTokens + e.record.totals.inputTokens
              && after[key].cachedInputTokens == prior.cachedInputTokens + e.record.totals.cachedInputTokens
              && after[key].outputTokens == prior.outputTokens + e.record.totals.outputTokens
              && after[key].costMicros == prior.costMicros + e.record.totals.costMicros
            else (key in after <==> key in before) && (key in before ==> after[key] == before[key])
  {
    var all := events + [e];
    assert all[..|events|] == events && e in all;
    assert key in BucketsOf(all) <==> key == BucketOf(e) || key in BucketsOf(events) by {
      assert forall x | x in events :: x in all;
    }
    if key !in BucketsOf(events) {
      NoEventNoTotal(events, key);
    }
  }

  /** The records a score is made of: those of the user's events in the epoch, in stored order. */
  lemma EventsOfOneMore(events: seq<Event>, e: Event, userId: string, epochId: string)
    ensures EventsOfEpoch([], userId, epochId) == []
    ensures EventsOfEpoch(events + [e], userId, epochId) == EventsOfEpoch(events, userId, epochId)
              + if e.userId == userId && e.record.epochId == epochId then [e.record] else []
  {
    assert (events + [e])[..|events|] == events;
  }

  /** The stored score is that of a row with the user, the day and the version, if there is one. */
  lemma {:induction false} FindScoreExactly(rows: seq<ScoreRow>, userId: string, day: string, version: string)
    ensures var found := FindScore(rows, userId, day, version);
            && (found.None? <==> forall r | r in rows :: !(r.userId == userId && r.day == day && r.version == version))
            && (found.Some? ==> exists r :: r in rows && r.userId == userId && r.day == day && r.version == version && r.score == found.value)
  {
    if rows != [] && !SameScoreKey(rows[0], userId, day, version) {
      FindScoreExactly(rows[1..], userId, day, version);
      assert forall r | r in rows :: r == rows[0] || r in rows[1..];
    }
  }
}
