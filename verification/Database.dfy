/**
 * The tables the economic pipeline shares, and what each store call does to
 * them. One store call is one atomic step.
 */
module Database {
  import opened Wrappers
  import opened Allocation

  datatype EpochState = Open | Finalizing | Settled

  /** The part of an epoch a settlement run is given. `day` is the date of its start. */
  datatype RewardEpoch = RewardEpoch(
    id: string, day: string, pool: nat, scoringVersion: string,
    protocolVersion: Option<string>, claimable: Option<bool>)

  datatype EpochRow = EpochRow(
    state: EpochState, pool: nat, scoringVersion: string, networkScore: int, kind: string,
    protocolVersion: Option<string>, claimable: Option<bool>)

  /** Sums in micro-USD; `points` in ten-thousandths; `pico` for exact scoring only. */
  datatype Score = Score(weighted: int, excluded: int, pending: int, points: int, pico: Option<int>)

  /** Unique on (user, day, version). */
  datatype ScoreRow = ScoreRow(userId: string, day: string, version: string, score: Score)

  /** Unique on (epoch, user). */
  datatype AllocationRow = AllocationRow(epochId: string, userId: string, points: int)

  /** Unique on the allocation id. */
  datatype LedgerRow = LedgerRow(allocationId: string, userId: string, epochId: string, amount: int)

  datatype Verification = Verified | Routed | Reported
  datatype Dedupe = Unique | Duplicate | Conflict | Unkeyed
  datatype RewardStatus = RewardEligible | RewardHeld | RewardIneligible
  datatype EconomicStatus = EconomicEligible | PendingCost | PendingPricing | EconomicIneligible | EconomicSettled

  datatype Totals = Totals(requests: int, inputTokens: int, cachedInputTokens: int, outputTokens: int, costMicros: int)

  /** A normalized usage record; `day` is the UTC day it occurred on. */
  datatype UsageRecord = UsageRecord(
    provider: string, source: string, externalReference: string, model: string,
    verification: Verification, day: string, totals: Totals,
    economicKey: Option<string>, dedupe: Dedupe,
    pricingVersion: Option<string>, measuredMicros: int, eligibleMicros: int, eligiblePico: Option<int>,
    rewardStatus: RewardStatus, rewardHold: bool, rewardReason: string, economicStatus: EconomicStatus,
    duplicateOf: Option<nat>, epochId: string, carriedForward: bool)

  /** Unique on (user, provider, source, external reference); ids number the inserts. */
  datatype Event = Event(id: nat, userId: string, record: UsageRecord)

  /** Provenance of a stored event, unique on (event, kind). Ingestion as modelled writes it unsigned:
      a signature comes with a proof override, which is left out. */
  datatype ProofRow = ProofRow(eventId: nat, kind: string, verification: Verification, signed: bool)

  datatype AggregateKey = AggregateKey(userId: string, day: string, provider: string, model: string, verification: Verification)

  /** `frozen` says whether the trigger that makes a settled epoch row immutable is installed. */
  datatype Db = Db(
    epochs: map<string, EpochRow>, scores: seq<ScoreRow>, allocations: seq<AllocationRow>,
    ledger: seq<LedgerRow>, events: seq<Event>, proofs: seq<ProofRow>,
    aggregates: map<AggregateKey, Totals>, frozen: bool)

  /** An epoch nobody has recorded is open. */
  function StateOf(db: Db, epochId: string): EpochState
  {
    if epochId in db.epochs then db.epochs[epochId].state else Open
  }

  predicate Closed(db: Db, epochId: string)
  {
    StateOf(db, epochId) != Open
  }

  predicate ScoresFor(row: ScoreRow, day: string, version: string)
  {
    row.day == day && row.version == version && row.score.points > 0
  }

  /** The participants of a day under one scoring version: positive scores only. */
  function EpochScores(scores: seq<ScoreRow>, day: string, version: string): (ps: seq<Participant>)
    ensures forall p | p in ps :: (
      Eligible(p) && exists row :: row in scores && ScoresFor(row, day, version) && row.userId == p.userId && row.score.points == p.score)
  {
    if scores == [] then []
    else if ScoresFor(scores[0], day, version) then
      [Participant(scores[0].userId, scores[0].score.points)] + EpochScores(scores[1..], day, version)
    else EpochScores(scores[1..], day, version)
  }

  ghost predicate UniqueScores(scores: seq<ScoreRow>)
  {
    forall i, j | 0 <= i < j < |scores| ::
      !(scores[i].userId == scores[j].userId && scores[i].day == scores[j].day && scores[i].version == scores[j].version)
  }

  /** The key of the score table leaves one participant per user. */
  lemma {:induction false} OneScorePerUser(scores: seq<ScoreRow>, day: string, version: string)
    requires UniqueScores(scores)
    ensures DistinctUsers(EpochScores(scores, day, version))
  {
    if scores != [] {
      OneScorePerUser(scores[1..], day, version);
      var rest := EpochScores(scores[1..], day, version);
      if ScoresFor(scores[0], day, version) {
        forall p | p in rest ensures p.userId != scores[0].userId {
          var row :| row in scores[1..] && ScoresFor(row, day, version) && row.userId == p.userId;
          var k :| 0 <= k < |scores| - 1 && scores[1..][k] == row;
          assert scores[k + 1] == row;
        }
      }
    }
  }

  datatype StoreError = SettledRowIsImmutable

  /** Insert or overwrite the epoch row; binding columns are written only when given. */
  function UpsertEpoch(db: Db, epoch: RewardEpoch, state: EpochState, networkScore: int, kind: string): Result<Db, StoreError>
  {
    if db.frozen && StateOf(db, epoch.id) == Settled then Err(SettledRowIsImmutable)
    else
      var known := epoch.id in db.epochs;
      var row := EpochRow(
        state, epoch.pool, epoch.scoringVersion, networkScore, kind,
        if epoch.protocolVersion.None? && known then db.epochs[epoch.id].protocolVersion else epoch.protocolVersion,
        if epoch.claimable.None? && known then db.epochs[epoch.id].claimable else epoch.claimable);
      Ok(db.(epochs := db.epochs[epoch.id := row]))
  }

  /** Insert, ignoring a row whose (epoch, user) is already there. */
  function InsertAllocations(rows: seq<AllocationRow>, epochId: string, shares: seq<Share>): seq<AllocationRow>
    decreases |shares|
  {
    if shares == [] then rows
    else
      var known := exists r :: r in rows && r.epochId == epochId && r.userId == shares[0].userId;
      InsertAllocations(
        if known then rows else rows + [AllocationRow(epochId, shares[0].userId, shares[0].points)],
        epochId, shares[1..])
  }

  function AllocationId(epochId: string, userId: string): string
  {
    epochId + ":" + userId
  }

  predicate Credited(rows: seq<LedgerRow>, allocationId: string)
  {
    exists r :: r in rows && r.allocationId == allocationId
  }

  function CreditOne(rows: seq<LedgerRow>, epochId: string, share: Share): seq<LedgerRow>
  {
    var id := AllocationId(epochId, share.userId);
    if share.points <= 0 || Credited(rows, id) then rows
    else rows + [LedgerRow(id, share.userId, epochId, share.points)]
  }

  /** Credit positive shares, ignoring an allocation id that is already in the ledger. */
  function InsertLedger(rows: seq<LedgerRow>, epochId: string, shares: seq<Share>): (out: seq<LedgerRow>)
    ensures rows <= out
    decreases |shares|
  {
    if shares == [] then rows else InsertLedger(CreditOne(rows, epochId, shares[0]), epochId, shares[1..])
  }

  /** Eligible events of these users in this epoch become settled; nothing else moves. */
  function MarkSettled(events: seq<Event>, epochId: string, users: set<string>): (out: seq<Event>)
    ensures |out| == |events|
  {
    seq(|events|, i requires 0 <= i < |events| =>
      var e := events[i];
      if e.userId in users && e.record.economicStatus == EconomicEligible && e.record.epochId == epochId
      then e.(record := e.record.(economicStatus := EconomicSettled))
      else e)
  }

  function Users(ps: seq<Participant>): set<string>
  {
    set p | p in ps :: p.userId
  }

  // ------------------------------------------------------ what each call does to a row

  /** A day's participants: one for each row of that day and version whose points are positive. */
  lemma {:induction false} EpochScoresOfOneMore(scores: seq<ScoreRow>, row: ScoreRow, day: string, version: string)
    ensures EpochScores([], day, version) == []
    ensures EpochScores(scores + [row], day, version) == EpochScores(scores, day, version)
              + if row.day == day && row.version == version && row.score.points > 0 then [Participant(row.userId, row.score.points)] else []
  {
    if scores == [] {
      assert ([] + [row])[1..] == [];
    } else {
      assert (scores + [row])[1..] == scores[1..] + [row];
      EpochScoresOfOneMore(scores[1..], row, day, version);
    }
  }

  /** Between these tables of epochs one row was written, whole; a binding that was not given was kept. */
  predicate RowWritten(epochs: map<string, EpochRow>, epochs': map<string, EpochRow>, epoch: RewardEpoch, state: EpochState, networkScore: int, kind: string)
  {
    && epochs'.Keys == epochs.Keys + {epoch.id}
    && (forall id | id in epochs && id != epoch.id :: epochs'[id] == epochs[id])
    && var row := epochs'[epoch.id];
       && row.state == state && row.pool == epoch.pool && row.scoringVersion == epoch.scoringVersion
       && row.networkScore == networkScore && row.kind == kind
       && (epoch.protocolVersion.Some? ==> row.protocolVersion == epoch.protocolVersion)
       && (epoch.claimable.Some? ==> row.claimable == epoch.claimable)
       && (epoch.protocolVersion.None? ==> row.protocolVersion == if epoch.id in epochs then epochs[epoch.id].protocolVersion else None)
       && (epoch.claimable.None? ==> row.claimable == if epoch.id in epochs then epochs[epoch.id].claimable else None)
  }

  /** An upsert writes the whole row, keeps a binding it is not given, and touches nothing else. */
  lemma UpsertWritesRow(db: Db, epoch: RewardEpoch, state: EpochState, networkScore: int, kind: string)
    requires UpsertEpoch(db, epoch, state, networkScore, kind).Ok?
    ensures var db' := UpsertEpoch(db, epoch, state, networkScore, kind).value;
            db' == db.(epochs := db'.epochs) && RowWritten(db.epochs, db'.epochs, epoch, state, networkScore, kind)
  {
  }

  /** Refused exactly if the trigger is there and the row stands settled. */
  lemma UpsertRefusedExactlyIf(db: Db, epoch: RewardEpoch, state: EpochState, networkScore: int, kind: string)
    ensures UpsertEpoch(db, epoch, state, networkScore, kind).Err? <==>
              db.frozen && epoch.id in db.epochs && db.epochs[epoch.id].state == Settled
  {
  }

  /** One more share: its row is appended exactly if the epoch had none for the user. */
  lemma {:induction false} InsertOneAllocation(rows: seq<AllocationRow>, epochId: string, shares: seq<Share>, share: Share)
    ensures InsertAllocations(rows, epochId, []) == rows
    ensures var before := InsertAllocations(rows, epochId, shares);
            InsertAllocations(rows, epochId, shares + [share]) ==
            if exists r :: r in before && r.epochId == epochId && r.userId == share.userId then before
            else before + [AllocationRow(epochId, share.userId, share.points)]
    decreases |shares|
  {
    if shares == [] {
      assert [] + [share] == [share] && [share][1..] == [];
    } else {
      assert (shares + [share])[1..] == shares[1..] + [share];
      var known := exists r :: r in rows && r.epochId == epochId && r.userId == shares[0].userId;
      InsertOneAllocation(if known then rows else rows + [AllocationRow(epochId, shares[0].userId, shares[0].points)],
                          epochId, shares[1..], share);
    }
  }

  /** One more share: its credit is appended exactly if it is positive and its id is not in the ledger. */
  lemma {:induction false} InsertOneCredit(rows: seq<LedgerRow>, epochId: string, shares: seq<Share>, share: Share)
    ensures InsertLedger(rows, epochId, []) == rows
    ensures var before, id := InsertLedger(rows, epochId, shares), epochId + ":" + share.userId;
            InsertLedger(rows, epochId, shares + [share]) ==
            if share.points > 0 && !(exists r :: r in before && r.allocationId == id)
            then before + [LedgerRow(id, share.userId, epochId, share.points)] else before
    decreases |shares|
  {
    if shares == [] {
      assert [] + [share] == [share] && [share][1..] == [];
    } else {
      assert (shares + [share])[1..] == shares[1..] + [share];
      InsertOneCredit(CreditOne(rows, epochId, shares[0]), epochId, shares[1..], share);
    }
  }

  /** Exactly the eligible events of these users in this epoch change, in their status alone; all others stay. */
  lemma MarkedExactly(events: seq<Event>, epochId: string, users: set<string>, i: nat)
    requires i < |events|
    ensures var was, now := events[i], MarkSettled(events, epochId, users)[i];
            && now == was.(record := was.record.(economicStatus := now.record.economicStatus))
            && now.record.economicStatus == (
                 if was.userId in users && was.record.epochId == epochId && was.record.economicStatus == EconomicEligible
                 then EconomicSettled else was.record.economicStatus)
  {
  }
}
