/**
 * Closing an approved calibration epoch with nothing to pay: ordinary
 * two-phase settlement between a checker of facts before and after.
 */
module Calibration {
  import opened Wrappers
  import opened Sums
  import opened Allocation
  import opened Database
  import opened Epochs
  import opened Scoring
  import opened Settlement

  const CALIBRATION_VERSION := "mining-dev-calibration-v1"
  const CALIBRATION_SCORING := "usage_score_v1"
  const CALIBRATION_PRICING := "usage-pricing-v2"
  const CALIBRATION_POOL: nat := 0

  datatype Approved = Approved(
    epochId: string, eventId: nat, economicKey: string, userId: string, eligibleMicros: int, expectedScore: int, proofId: nat)

  datatype ProtocolRow = ProtocolRow(status: string, role: string, emission: int, claimable: bool)

  function ApprovedClose(epochId: string, approvals: seq<Approved>): (r: Option<Approved>)
    ensures r.Some? ==> r.value in approvals && r.value.epochId == epochId
    ensures r.None? ==> forall a | a in approvals :: a.epochId != epochId
  {
    if approvals == [] then None
    else if approvals[0].epochId == epochId then Some(approvals[0])
    else ApprovedClose(epochId, approvals[1..])
  }

  // --------------------------------------------------------------------- snapshots

  function LoadEvent(events: seq<Event>, id: nat): (r: Option<Event>)
    ensures r.Some? ==> r.value in events && r.value.id == id
    ensures r.None? ==> forall e | e in events :: e.id != id
  {
    if events == [] then None else if events[0].id == id then Some(events[0]) else LoadEvent(events[1..], id)
  }

  function LoadProof(db: Db, id: nat): Option<ProofRow>
  {
    if id < |db.proofs| then Some(db.proofs[id]) else None
  }

  function PositiveAllocations(rows: seq<AllocationRow>, epochId: string): nat
  {
    if rows == [] then 0
    else (if rows[0].epochId == epochId && rows[0].points > 0 then 1 else 0) + PositiveAllocations(rows[1..], epochId)
  }

  function LedgerAmount(): LedgerRow -> int
  {
    (row: LedgerRow) => row.amount
  }

  function BalanceTerm(userId: string): LedgerRow -> int
  {
    (row: LedgerRow) => if row.userId == userId then row.amount else 0
  }

  /** A missing event reads as one with no id, no key, no compute, no status and no pricing. */
  datatype EventView = EventView(id: Option<nat>, economicKey: Option<string>, eligibleMicros: int, status: Option<EconomicStatus>, pricing: Option<string>)

  datatype ProofView = ProofView(id: Option<nat>, signed: bool)

  /** An epoch without a row has no state, kind, binding or flag. */
  datatype EpochView = EpochView(state: Option<EpochState>, kind: Option<string>, protocolVersion: Option<string>, claimable: Option<bool>)

  datatype Snapshot = Snapshot(
    event: EventView, proof: ProofView, score: Option<int>, epoch: EpochView,
    ledgerRows: nat, ledgerTotal: int, positive: nat, balance: int)

  function ViewEvent(event: Option<Event>): EventView
  {
    match event
    case None => EventView(None, None, 0, None, None)
    case Some(e) => EventView(Some(e.id), e.record.economicKey, e.record.eligibleMicros, Some(e.record.economicStatus), e.record.pricingVersion)
  }

  function ViewEpoch(db: Db, id: string): EpochView
  {
    if id !in db.epochs then EpochView(None, None, None, None)
    else var row := db.epochs[id]; EpochView(Some(row.state), Some(row.kind), row.protocolVersion, row.claimable)
  }

  function StoredPoints(score: Option<Score>): Option<int>
  {
    match score case None => None case Some(s) => Some(s.points)
  }

  function SnapshotOf(db: Db, a: Approved): Snapshot
  {
    var proof := LoadProof(db, a.proofId);
    Snapshot(
      ViewEvent(LoadEvent(db.events, a.eventId)),
      if proof.None? then ProofView(None, false) else ProofView(Some(a.proofId), proof.value.signed),
      StoredPoints(FindScore(db.scores, a.userId, EpochDay(a.epochId), CALIBRATION_SCORING)),
      ViewEpoch(db, a.epochId), |db.ledger|, Sum(db.ledger, LedgerAmount()),
      PositiveAllocations(db.allocations, a.epochId), Sum(db.ledger, BalanceTerm(a.userId)))
  }

  // ------------------------------------------------------------------------ checks

  datatype Reason =
    | NoEvent | WrongOwner | WrongEpoch | WrongKey | WrongCompute | NotEligible | RewardNotEligible | WrongPricing
    | BadProof | WrongScore | EpochSettled | WrongKind | AlreadyAllocated
    | NoProtocol | WrongRole | EmitsPoints | ProtocolClaimable | ProtocolInactive
    | IdentityChanged | EconomicsChanged | PricingChanged | EventNotSettled | ProofChanged | ScoreChanged
    | EpochNotSettled | KindChanged | NotBound | NotMarkedUnclaimable | Allocated | LedgerRowsChanged | LedgerTotalChanged | BalanceChanged

  /** A check, with whether it fails, and the reason it pushes when it does. */
  datatype Check = Check(failed: bool, reason: Reason)

  /** Every failing check is listed, in order; none is skipped. */
  function Listed(checks: seq<Check>): seq<Reason>
  {
    if checks == [] then [] else (if checks[0].failed then [checks[0].reason] else []) + Listed(checks[1..])
  }

  lemma {:induction false} ListedHas(checks: seq<Check>, reason: Reason)
    ensures reason in Listed(checks) <==> Check(true, reason) in checks
  {
    if checks != [] {
      ListedHas(checks[1..], reason);
      assert checks == [checks[0]] + checks[1..];
    }
  }

  function EventChecks(a: Approved, event: Option<Event>): seq<Check>
  {
    if event.None? then [Check(true, NoEvent)]
    else
      var e, r := event.value, event.value.record;
      [Check(e.userId != a.userId, WrongOwner), Check(r.epochId != a.epochId, WrongEpoch),
       Check(r.economicKey != Some(a.economicKey), WrongKey), Check(r.eligibleMicros != a.eligibleMicros, WrongCompute),
       Check(r.economicStatus != EconomicEligible, NotEligible), Check(r.rewardStatus != RewardEligible, RewardNotEligible),
       Check(r.pricingVersion != Some(CALIBRATION_PRICING), WrongPricing)]
  }

  function TableChecks(a: Approved, proof: Option<ProofRow>, before: Snapshot): seq<Check>
  {
    [Check(proof.None? || proof.value.eventId != a.eventId || !proof.value.signed, BadProof),
     Check(before.score != Some(a.expectedScore), WrongScore),
     Check(before.epoch.state == Some(Settled), EpochSettled),
     Check(before.epoch.kind.Some? && before.epoch.kind != Some("development"), WrongKind),
     Check(before.positive != 0, AlreadyAllocated)]
  }

  function ProtocolChecks(protocol: Option<ProtocolRow>): seq<Check>
  {
    if protocol.None? then [Check(true, NoProtocol)]
    else
      var p := protocol.value;
      [Check(p.role != "calibration", WrongRole), Check(p.emission != 0, EmitsPoints),
       Check(p.claimable, ProtocolClaimable), Check(p.status != "active", ProtocolInactive)]
  }

  function Preconditions(db: Db, protocol: Option<ProtocolRow>, a: Approved, before: Snapshot): seq<Check>
  {
    EventChecks(a, LoadEvent(db.events, a.eventId)) + TableChecks(a, LoadProof(db, a.proofId), before) + ProtocolChecks(protocol)
  }

  function PreconditionReasons(db: Db, protocol: Option<ProtocolRow>, a: Approved, before: Snapshot): seq<Reason>
  {
    Listed(Preconditions(db, protocol, a, before))
  }

  function EventChanges(before: EventView, after: EventView, a: Approved): seq<Check>
  {
    [Check(after.id != Some(a.eventId) || after.economicKey != Some(a.economicKey), IdentityChanged),
     Check(after.eligibleMicros != before.eligibleMicros, EconomicsChanged),
     Check(after.pricing != before.pricing, PricingChanged),
     Check(after.status != Some(EconomicSettled), EventNotSettled)]
  }

  function EpochChanges(after: EpochView): seq<Check>
  {
    [Check(after.state != Some(Settled), EpochNotSettled), Check(after.kind != Some("development"), KindChanged),
     Check(after.protocolVersion != Some(CALIBRATION_VERSION), NotBound), Check(after.claimable != Some(false), NotMarkedUnclaimable)]
  }

  function ValueChanges(before: Snapshot, after: Snapshot): seq<Check>
  {
    [Check(!after.proof.signed || after.proof.id != before.proof.id, ProofChanged), Check(after.score != before.score, ScoreChanged),
     Check(after.positive != 0, Allocated), Check(after.ledgerRows != before.ledgerRows, LedgerRowsChanged),
     Check(after.ledgerTotal != before.ledgerTotal, LedgerTotalChanged), Check(after.balance != before.balance, BalanceChanged)]
  }

  function Postconditions(before: Snapshot, after: Snapshot, a: Approved): seq<Check>
  {
    EventChanges(before.event, after.event, a) + EpochChanges(after.epoch) + ValueChanges(before, after)
  }

  function PostconditionReasons(before: Snapshot, after: Snapshot, a: Approved): seq<Reason>
  {
    Listed(Postconditions(before, after, a))
  }

  datatype CloseError = NotApproved | Refused(reasons: seq<Reason>) | NoSuchDate | Lifecycle(cause: LifecycleError) | Distributed

  /**
   * The epoch the close works on is rebuilt from the day in the approved id, by
   * reading it as a date and writing the date back. A text that is no date throws.
   */
  function CalibrationEpoch(dates: Dates, a: Approved): Option<RewardEpoch>
  {
    match dates(EpochDay(a.epochId))
    case None => None
    case Some(day) =>
      Some(RewardEpoch(EpochId(day), day, CALIBRATION_POOL, CALIBRATION_SCORING, Some(CALIBRATION_VERSION), Some(false)))
  }

  /** `protocol` is the persisted calibration protocol row. */
  function CloseOutcome(dates: Dates, db: Db, protocol: Option<ProtocolRow>, epochId: string, approvals: seq<Approved>): (Result<SettlementResult, CloseError>, Db)
  {
    match ApprovedClose(epochId, approvals)
    case None => (Err(NotApproved), db)
    case Some(a) =>
      var before := SnapshotOf(db, a);
      var reasons := PreconditionReasons(db, protocol, a, before);
      if reasons != [] then (Err(Refused(reasons)), db)
      else
        match CalibrationEpoch(dates, a)
        case None => (Err(NoSuchDate), db)
        case Some(epoch) => CloseChecked(db, epoch, a, before)
  }

  function FirstPhase(db: Db, epoch: RewardEpoch, before: Snapshot): (Result<Finalized, LifecycleError>, Db)
  {
    if before.epoch.state == Some(Finalizing) then (Ok(Finalized(epoch.id, 0)), db)
    else FinalizeOutcome(db, epoch, CALIBRATION_SCORING, "development")
  }

  function SecondPhase(db: Db, epoch: RewardEpoch): (Result<SettlementResult, LifecycleError>, Db)
  {
    SettleOutcome(db, epoch, CALIBRATION_SCORING, "development")
  }

  function Verdict(settled: Result<SettlementResult, LifecycleError>, before: Snapshot, after: Snapshot, a: Approved): Result<SettlementResult, CloseError>
  {
    if settled.Err? then Err(Lifecycle(settled.error))
    else if settled.value.distributed != 0 || settled.value.credited != 0 then Err(Distributed)
    else
      var reasons := PostconditionReasons(before, after, a);
      if reasons != [] then Err(Refused(reasons)) else Ok(settled.value)
  }

  function CloseChecked(db: Db, epoch: RewardEpoch, a: Approved, before: Snapshot): (Result<SettlementResult, CloseError>, Db)
  {
    var (finalized, db1) := FirstPhase(db, epoch, before);
    if finalized.Err? then (Err(Lifecycle(finalized.error)), db1)
    else
      var (settled, db2) := SecondPhase(db1, epoch);
      (Verdict(settled, before, SnapshotOf(db2, a), a), db2)
  }

  method CloseCalibrationEpoch(dates: Dates, store: SettlementStore, protocol: Option<ProtocolRow>, epochId: string, approvals: seq<Approved>)
    returns (r: Result<SettlementResult, CloseError>)
    modifies store
    ensures (r, store.db) == CloseOutcome(dates, old(store.db), protocol, epochId, approvals)
  {
    var found := ApprovedClose(epochId, approvals);
    if found.None? {
      return Err(NotApproved);
    }
    var a := found.value;
    var before := SnapshotOf(store.db, a);
    var reasons := PreconditionReasons(store.db, protocol, a, before);
    if reasons != [] {
      return Err(Refused(reasons));
    }
    var epoch := CalibrationEpoch(dates, a);
    if epoch.None? {
      return Err(NoSuchDate);
    }
    r := SettleBetweenChecks(store, epoch.value, a, before);
  }

  method SettleBetweenChecks(store: SettlementStore, epoch: RewardEpoch, a: Approved, before: Snapshot) returns (r: Result<SettlementResult, CloseError>)
    modifies store
    ensures (r, store.db) == CloseChecked(old(store.db), epoch, a, before)
  {
    if !(before.epoch.state == Some(Finalizing)) {
      var finalized := store.FinalizeEpoch(epoch, CALIBRATION_SCORING, "development");
      if finalized.Err? {
        return Err(Lifecycle(finalized.error));
      }
    }
    var settled := store.SettleEpoch(epoch, CALIBRATION_SCORING, "development");
    r := Verdict(settled, before, SnapshotOf(store.db, a), a);
  }

  // ------------------------------------------------------------ a pool of nothing

  /** Dividing nothing gives everybody nothing. */
  lemma {:induction false} EmptyPoolPaysNothing(ps: seq<Participant>)
    ensures forall share | share in Allocate(ps, 0) :: share.points == 0
  {
    var network := NetworkScore(ps);
    forall p ensures Floor(p, network, 0) == 0 {
      if network > 0 && Eligible(p) {
        FloorAndRemainder(p, network, 0);
      }
    }
    SumOfZeros(ps, FloorTerm(network, 0));
    assert Leftover(ps, 0) == 0;
    assert BonusUsers(ps, 0) == {};
  }

  lemma {:induction false} SumOfZeros<T>(s: seq<T>, f: T -> int)
    requires forall x | x in s :: f(x) == 0
    ensures Sum(s, f) == 0
  {
    if s != [] {
      SumOfZeros(s[1..], f);
    }
  }

  lemma {:induction false} NothingIsCredited(rows: seq<LedgerRow>, epochId: string, shares: seq<Share>)
    requires forall share | share in shares :: share.points == 0
    ensures InsertLedger(rows, epochId, shares) == rows
    decreases |shares|
  {
    if shares != [] {
      assert shares[0] in shares;
      NothingIsCredited(rows, epochId, shares[1..]);
    }
  }

  lemma {:induction false} PositiveOfConcat(a: seq<AllocationRow>, b: seq<AllocationRow>, epochId: string)
    ensures PositiveAllocations(a + b, epochId) == PositiveAllocations(a, epochId) + PositiveAllocations(b, epochId)
  {
    if a == [] {
      assert a + b == b;
    } else {
      assert (a + b)[1..] == a[1..] + b;
      PositiveOfConcat(a[1..], b, epochId);
    }
  }

  lemma {:induction false} NoPositiveAllocationAdded(rows: seq<AllocationRow>, epochId: string, shares: seq<Share>, id: string)
    requires forall share | share in shares :: share.points == 0
    ensures PositiveAllocations(InsertAllocations(rows, epochId, shares), id) == PositiveAllocations(rows, id)
    decreases |shares|
  {
    if shares != [] {
      var row := AllocationRow(epochId, shares[0].userId, shares[0].points);
      assert shares[0] in shares;
      PositiveOfConcat(rows, [row], id);
      assert [row][1..] == [];
      var known := exists r :: r in rows && r.epochId == epochId && r.userId == shares[0].userId;
      NoPositiveAllocationAdded(if known then rows else rows + [row], epochId, shares[1..], id);
    }
  }

  // -------------------------------------------------------- what the close reads

  /** With a positive stored score the user is a participant; without one it is not. */
  lemma {:induction false} ParticipantByScore(scores: seq<ScoreRow>, userId: string, day: string, version: string)
    requires UniqueScores(scores)
    ensures userId in Users(EpochScores(scores, day, version)) <==>
              FindScore(scores, userId, day, version).Some? && FindScore(scores, userId, day, version).value.points > 0
  {
    if scores != [] {
      ParticipantByScore(scores[1..], userId, day, version);
      var rest := EpochScores(scores[1..], day, version);
      if SameScoreKey(scores[0], userId, day, version) {
        forall p | p in rest ensures p.userId != userId {
          var row :| row in scores[1..] && ScoresFor(row, day, version) && row.userId == p.userId;
          var k :| 0 <= k < |scores| - 1 && scores[1..][k] == row;
          assert scores[k + 1] == row;
        }
      }
      if ScoresFor(scores[0], day, version) {
        var head := Participant(scores[0].userId, scores[0].score.points);
        assert Users(EpochScores(scores, day, version)) == {head.userId} + Users(rest);
      }
    }
  }

  /** Marking finds the event where it was and changes its status at most. */
  lemma {:induction false} LoadAfterMarking(events: seq<Event>, epochId: string, users: set<string>, id: nat)
    ensures var was, now := LoadEvent(events, id), LoadEvent(MarkSettled(events, epochId, users), id);
            && (was.None? <==> now.None?)
            && (was.Some? ==> now == Some(MarkSettled([was.value], epochId, users)[0]))
  {
    if events != [] {
      assert MarkSettled(events, epochId, users)[1..] == MarkSettled(events[1..], epochId, users);
      LoadAfterMarking(events[1..], epochId, users, id);
    }
  }

  // ------------------------------------------------------------------- the theorem

  /** The facts the pre-check establishes. */
  ghost predicate Ready(db: Db, protocol: Option<ProtocolRow>, a: Approved)
  {
    PreconditionReasons(db, protocol, a, SnapshotOf(db, a)) == []
  }

  /** The day of the approved id is a date, written as the code writes it. */
  predicate NamesItsDay(dates: Dates, a: Approved)
  {
    var day := dates(EpochDay(a.epochId));
    day.Some? && a.epochId == EpochId(day.value)
  }

  /** What a caller can check before calling: there is score to settle, and the id is a day's. */
  predicate CanComplete(dates: Dates, a: Approved)
  {
    a.expectedScore > 0 && NamesItsDay(dates, a)
  }

  lemma ReadyFacts(db: Db, protocol: Option<ProtocolRow>, a: Approved)
    requires Ready(db, protocol, a)
    ensures var e := LoadEvent(db.events, a.eventId);
            && e.Some? && e.value.userId == a.userId && e.value.record.epochId == a.epochId
            && e.value.record.economicKey == Some(a.economicKey) && e.value.record.economicStatus == EconomicEligible
    ensures LoadProof(db, a.proofId).Some? && LoadProof(db, a.proofId).value.signed
    ensures StoredPoints(FindScore(db.scores, a.userId, EpochDay(a.epochId), CALIBRATION_SCORING)) == Some(a.expectedScore)
    ensures StateOf(db, a.epochId) != Settled && PositiveAllocations(db.allocations, a.epochId) == 0
  {
    ReadyExactlyIf(db, protocol, a);
  }

  /** The pool, the day and the binding of the epoch a close works on. */
  ghost predicate ClosesDay(epoch: RewardEpoch, a: Approved)
  {
    && epoch.id == a.epochId && epoch.day == EpochDay(a.epochId) && epoch.pool == CALIBRATION_POOL
    && epoch.scoringVersion == CALIBRATION_SCORING && epoch.protocolVersion == Some(CALIBRATION_VERSION) && epoch.claimable == Some(false)
  }

  function ParticipantsOf(db: Db, a: Approved): seq<Participant>
  {
    EpochScores(db.scores, EpochDay(a.epochId), CALIBRATION_SCORING)
  }

  /** Settling a finalizing epoch with an empty pool pays nothing and marks the participants' events. */
  lemma SecondPhaseSettles(db: Db, epoch: RewardEpoch, a: Approved)
    requires StateOf(db, a.epochId) == Finalizing && ClosesDay(epoch, a)
    ensures var (r, db2) := SecondPhase(db, epoch);
            && r.Ok? && r.value.distributed == 0 && r.value.credited == 0
            && db2.ledger == db.ledger && db2.scores == db.scores && db2.proofs == db.proofs
            && db2.events == MarkSettled(db.events, a.epochId, Users(ParticipantsOf(db, a)))
            && PositiveAllocations(db2.allocations, a.epochId) == PositiveAllocations(db.allocations, a.epochId)
            && ViewEpoch(db2, a.epochId) == EpochView(Some(Settled), Some("development"), Some(CALIBRATION_VERSION), Some(false))
  {
    var shares := Allocate(ParticipantsOf(db, a), 0);
    EmptyPoolPaysNothing(ParticipantsOf(db, a));
    NothingIsCredited(db.ledger, a.epochId, shares);
    NoPositiveAllocationAdded(db.allocations, a.epochId, shares, a.epochId);
    ZeroShares(shares);
  }

  /** The tables after both phases, and what the verdict hangs on. */
  lemma CloseWrites(db: Db, epoch: RewardEpoch, a: Approved) returns (db2: Db)
    requires StateOf(db, a.epochId) != Settled && ClosesDay(epoch, a)
    ensures CloseChecked(db, epoch, a, SnapshotOf(db, a)).1 == db2
    ensures CloseChecked(db, epoch, a, SnapshotOf(db, a)).0.Ok? <==> PostconditionReasons(SnapshotOf(db, a), SnapshotOf(db2, a), a) == []
    ensures db2.ledger == db.ledger && db2.scores == db.scores && db2.proofs == db.proofs
    ensures RowWritten(db.epochs, db2.epochs, epoch, Settled, NetworkScore(ParticipantsOf(db, a)), "development")
    ensures db2.events == MarkSettled(db.events, a.epochId, Users(ParticipantsOf(db, a)))
    ensures PositiveAllocations(db2.allocations, a.epochId) == PositiveAllocations(db.allocations, a.epochId)
    ensures ViewEpoch(db2, a.epochId) == EpochView(Some(Settled), Some("development"), Some(CALIBRATION_VERSION), Some(false))
  {
    var db1 := FirstPhase(db, epoch, SnapshotOf(db, a)).1;
    SecondPhaseSettles(db1, epoch, a);
    db2 := SecondPhase(db1, epoch).1;
  }

  lemma {:induction false} ZeroShares(shares: seq<Share>)
    requires forall share | share in shares :: share.points == 0
    ensures Sum(shares, PointsTerm()) == 0
  {
    SumOfZeros(shares, PointsTerm());
  }

  /** A completed close: epoch settled and not claimable, approved event settled, nothing paid. */
  ghost predicate Completed(db: Db, db': Db, a: Approved)
  {
    && a.epochId in db'.epochs && db'.epochs[a.epochId].state == Settled && db'.epochs[a.epochId].claimable == Some(false)
    && db'.epochs[a.epochId].pool == 0 && db'.epochs[a.epochId].scoringVersion == "usage_score_v1" && db'.epochs[a.epochId].kind == "development"
    && db'.epochs[a.epochId].protocolVersion == Some("mining-dev-calibration-v1")
    && db'.epochs[a.epochId].networkScore == NetworkScore(EpochScores(db.scores, EpochDay(a.epochId), "usage_score_v1"))
    && (forall id | id in db.epochs && id != a.epochId :: id in db'.epochs && db'.epochs[id] == db.epochs[id])
    && db'.events == MarkSettled(db.events, a.epochId, Users(ParticipantsOf(db, a)))
    && LoadEvent(db'.events, a.eventId).Some? && LoadEvent(db'.events, a.eventId).value.record.economicStatus == EconomicSettled
    && db'.ledger == db.ledger && db'.scores == db.scores && PositiveAllocations(db'.allocations, a.epochId) == 0
  }

  /**
   * Once the pre-check passes, and nobody else writes, the close goes through
   * exactly when the approved score is positive and the id is that of a day.
   * Then the epoch is settled and not claimable, the approved event is settled,
   * and ledger, balance, scores and positive allocations are what they were.
   * With a well-formed id the epoch ends settled even when the close refuses.
   */
  lemma CloseCompletesExactlyWhen(dates: Dates, db: Db, protocol: Option<ProtocolRow>, epochId: string, approvals: seq<Approved>, a: Approved)
    requires UniqueScores(db.scores) && ApprovedClose(epochId, approvals) == Some(a) && Ready(db, protocol, a)
    ensures CloseOutcome(dates, db, protocol, epochId, approvals).0.Ok? <==> CanComplete(dates, a)
    ensures CanComplete(dates, a) ==> Completed(db, CloseOutcome(dates, db, protocol, epochId, approvals).1, a)
    ensures NamesItsDay(dates, a) ==> StateOf(CloseOutcome(dates, db, protocol, epochId, approvals).1, a.epochId) == Settled
    ensures dates(EpochDay(a.epochId)).None? ==> CloseOutcome(dates, db, protocol, epochId, approvals) == (Err(NoSuchDate), db)
  {
    ReadyFacts(db, protocol, a);
    match CalibrationEpoch(dates, a) {
      case None =>
      case Some(epoch) =>
        if a.epochId == epoch.id {
          EpochDayOfId(epoch.day);
          NamedEpochIsClosed(db, protocol, epoch, a);
        } else {
          MisnamedEpochIsRefused(db, epoch, a);
        }
    }
  }

  lemma NamedEpochIsClosed(db: Db, protocol: Option<ProtocolRow>, epoch: RewardEpoch, a: Approved)
    requires UniqueScores(db.scores) && Ready(db, protocol, a) && ClosesDay(epoch, a)
    ensures CloseChecked(db, epoch, a, SnapshotOf(db, a)).0.Ok? <==> a.expectedScore > 0
    ensures a.expectedScore > 0 ==> Completed(db, CloseChecked(db, epoch, a, SnapshotOf(db, a)).1, a)
    ensures StateOf(CloseChecked(db, epoch, a, SnapshotOf(db, a)).1, a.epochId) == Settled
  {
    ReadyFacts(db, protocol, a);
    var db2 := CloseWrites(db, epoch, a);
    NothingChangedExactlyIf(SnapshotOf(db, a), SnapshotOf(db2, a), a);
    ParticipantByScore(db.scores, a.userId, EpochDay(a.epochId), CALIBRATION_SCORING);
    LoadAfterMarking(db.events, a.epochId, Users(ParticipantsOf(db, a)), a.eventId);
  }

  /**
   * With an id that is not that of its day the close refuses afterwards: the
   * approved epoch is left as it was, and the epoch of the day ends settled
   * unless the approved one was already finalizing and the other one was not.
   */
  lemma MisnamedEpochIsRefused(db: Db, epoch: RewardEpoch, a: Approved)
    requires a.epochId != epoch.id && StateOf(db, a.epochId) != Settled
    ensures var (r, db') := CloseChecked(db, epoch, a, SnapshotOf(db, a));
            && r.Err? && StateOf(db', a.epochId) == StateOf(db, a.epochId)
            && (StateOf(db', epoch.id) == Settled <==>
                  StateOf(db, epoch.id) != Open || StateOf(db, a.epochId) != Finalizing)
  {
    var before := SnapshotOf(db, a);
    var (finalized, db1) := FirstPhase(db, epoch, before);
    var (settled, db2) := SecondPhase(db1, epoch);
    SnapshotState(db, a);
    FirstPhaseStates(db, epoch, before);
    if finalized.Ok? {
      SecondPhaseStates(db1, epoch);
      SnapshotState(db2, a);
      NotSettledIsAReason(before, SnapshotOf(db2, a), a);
    }
  }

  lemma SnapshotState(db: Db, a: Approved)
    ensures forall state | state != Open :: SnapshotOf(db, a).epoch.state == Some(state) <==> StateOf(db, a.epochId) == state
  {
  }

  lemma FirstPhaseStates(db: Db, epoch: RewardEpoch, before: Snapshot)
    ensures var (finalized, db1) := FirstPhase(db, epoch, before);
            && (forall other | other != epoch.id :: StateOf(db1, other) == StateOf(db, other))
            && (finalized.Err? <==> before.epoch.state != Some(Finalizing) && StateOf(db, epoch.id) == Settled)
            && StateOf(db1, epoch.id) == if before.epoch.state == Some(Finalizing) || finalized.Err? then StateOf(db, epoch.id) else Finalizing
  {
  }

  lemma SecondPhaseStates(db: Db, epoch: RewardEpoch)
    ensures var db2 := SecondPhase(db, epoch).1;
            && (forall other | other != epoch.id :: StateOf(db2, other) == StateOf(db, other))
            && StateOf(db2, epoch.id) == if StateOf(db, epoch.id) == Finalizing then Settled else StateOf(db, epoch.id)
  {
  }

  lemma NotSettledIsAReason(before: Snapshot, after: Snapshot, a: Approved)
    requires after.epoch.state != Some(Settled)
    ensures PostconditionReasons(before, after, a) != []
  {
    ChangesExactly(before, after, a, EpochNotSettled);
  }

  /** Over events in epochs of dates, which is where ingestion puts them, an approval that passes the pre-check names its day. */
  lemma IngestedApprovalNamesItsDay(dates: Dates, db: Db, protocol: Option<ProtocolRow>, a: Approved)
    requires Ready(db, protocol, a) && DatedEvents(dates, db.events)
    ensures NamesItsDay(dates, a)
  {
    ReadyFacts(db, protocol, a);
  }

  /** Tables and an approval that pass the pre-check with a score of nothing. */
  function ScorelessApproval(): Approved
  {
    Approved("epoch-d", 0, "ecu1:x", "u", 0, 0, 0)
  }

  function ScorelessTables(): Db
  {
    var record := UsageRecord("p", "gateway", "r", "m", Routed, "d", Totals(1, 0, 0, 0, 0), Some("ecu1:x"), Unique,
                              Some(CALIBRATION_PRICING), 0, 0, None, RewardEligible, false, "", EconomicEligible, None, "epoch-d", false);
    Db(map[], [ScoreRow("u", "d", CALIBRATION_SCORING, Score(0, 0, 0, 0, None))], [], [],
       [Event(0, "u", record)], [ProofRow(0, "gateway", Routed, true)], map[], true)
  }

  function CalibrationProtocol(): ProtocolRow
  {
    ProtocolRow("active", "calibration", 0, false)
  }

  lemma ScorelessIsReady()
    ensures Ready(ScorelessTables(), Some(CalibrationProtocol()), ScorelessApproval())
  {
    var db, a := ScorelessTables(), ScorelessApproval();
    var before := SnapshotOf(db, a);
    assert EpochDay("epoch-d") == "d";
    assert SameScoreKey(db.scores[0], "u", "d", CALIBRATION_SCORING);
    assert before.score == Some(0) && before.positive == 0;
    ReadyExactlyIf(db, Some(CalibrationProtocol()), a);
  }

  /** A scoreless approval passes the pre-check, settles its epoch and is refused afterwards. */
  lemma ScorelessCloseSettlesAndRefuses(dates: Dates)
    requires dates("d") == Some("d")
    ensures var (r, db') := CloseOutcome(dates, ScorelessTables(), Some(CalibrationProtocol()), "epoch-d", [ScorelessApproval()]);
            r.Err? && StateOf(db', "epoch-d") == Settled
  {
    ScorelessIsReady();
    assert EpochDay("epoch-d") == "d" && EpochId("d") == "epoch-d";
    CloseCompletesExactlyWhen(dates, ScorelessTables(), Some(CalibrationProtocol()), "epoch-d", [ScorelessApproval()], ScorelessApproval());
  }

  // ------------------------------------------------------------ what each check looks at

  /** The first approval listed for an epoch is the one that counts. */
  lemma {:induction false} FirstApprovalCounts(epochId: string, approvals: seq<Approved>, k: int)
    requires 0 <= k < |approvals| && approvals[k].epochId == epochId && forall j | 0 <= j < k :: approvals[j].epochId != epochId
    ensures ApprovedClose(epochId, approvals) == Some(approvals[k])
  {
    if k > 0 {
      assert forall j | 0 <= j < k - 1 :: approvals[1..][j] == approvals[j + 1];
      FirstApprovalCounts(epochId, approvals[1..], k - 1);
    }
  }

  /** The event found is the earliest with the id. */
  lemma {:induction false} EarliestEventIsLoaded(events: seq<Event>, id: nat, k: int)
    requires 0 <= k < |events| && events[k].id == id && forall j | 0 <= j < k :: events[j].id != id
    ensures LoadEvent(events, id) == Some(events[k])
  {
    if k > 0 {
      assert forall j | 0 <= j < k - 1 :: events[1..][j] == events[j + 1];
      EarliestEventIsLoaded(events[1..], id, k - 1);
    }
  }

  lemma {:induction false} NoneIsPositive(rows: seq<AllocationRow>, epochId: string)
    ensures PositiveAllocations(rows, epochId) == 0 <==> forall row | row in rows && row.epochId == epochId :: row.points <= 0
  {
    if rows != [] {
      NoneIsPositive(rows[1..], epochId);
      assert forall row | row in rows :: row == rows[0] || row in rows[1..];
    }
  }

  /** What a snapshot reads: event, proof, points, the epoch row, and three sums of the ledger. */
  lemma SnapshotReads(db: Db, a: Approved)
    ensures var s := SnapshotOf(db, a);
            && (s.score.None? <==> forall r | r in db.scores :: !(r.userId == a.userId && r.day == EpochDay(a.epochId) && r.version == "usage_score_v1"))
            && (s.score.Some? ==> exists r :: r in db.scores && r.userId == a.userId && r.day == EpochDay(a.epochId)
                                              && r.version == "usage_score_v1" && r.score.points == s.score.value)
            && s.epoch == (if a.epochId in db.epochs then
                 EpochView(Some(db.epochs[a.epochId].state), Some(db.epochs[a.epochId].kind), db.epochs[a.epochId].protocolVersion, db.epochs[a.epochId].claimable)
                 else EpochView(None, None, None, None))
            && (var event := LoadEvent(db.events, a.eventId);
                s.event == if event.None? then EventView(None, None, 0, None, None)
                           else EventView(Some(a.eventId), event.value.record.economicKey, event.value.record.eligibleMicros,
                                          Some(event.value.record.economicStatus), event.value.record.pricingVersion))
            && s.proof == (if a.proofId < |db.proofs| then ProofView(Some(a.proofId), db.proofs[a.proofId].signed) else ProofView(None, false))
            && s.ledgerRows == |db.ledger|
            && s.ledgerTotal == Sum(db.ledger, (row: LedgerRow) => row.amount)
            && s.balance == Sum(db.ledger, (row: LedgerRow) => if row.userId == a.userId then row.amount else 0)
            && (s.positive == 0 <==> forall row | row in db.allocations && row.epochId == a.epochId :: row.points <= 0)
  {
    FindScoreExactly(db.scores, a.userId, EpochDay(a.epochId), CALIBRATION_SCORING);
    NoneIsPositive(db.allocations, a.epochId);
    SumOfSame(db.ledger, LedgerAmount(), (row: LedgerRow) => row.amount);
    SumOfSame(db.ledger, BalanceTerm(a.userId), (row: LedgerRow) => if row.userId == a.userId then row.amount else 0);
  }

  /** What the reasons of the pre-check say about the approved event. */
  predicate EventFails(a: Approved, event: Option<Event>, reason: Reason)
  {
    match reason
    case NoEvent => event.None?
    case WrongOwner => event.Some? && event.value.userId != a.userId
    case WrongEpoch => event.Some? && event.value.record.epochId != a.epochId
    case WrongKey => event.Some? && event.value.record.economicKey != Some(a.economicKey)
    case WrongCompute => event.Some? && event.value.record.eligibleMicros != a.eligibleMicros
    case NotEligible => event.Some? && event.value.record.economicStatus != EconomicEligible
    case RewardNotEligible => event.Some? && event.value.record.rewardStatus != RewardEligible
    case WrongPricing => event.Some? && event.value.record.pricingVersion != Some("usage-pricing-v2")
    case _ => false
  }

  /** About its proof and the tables. */
  predicate TablesFail(a: Approved, proof: Option<ProofRow>, before: Snapshot, reason: Reason)
  {
    match reason
    case BadProof => !(proof.Some? && proof.value.eventId == a.eventId && proof.value.signed)
    case WrongScore => before.score != Some(a.expectedScore)
    case EpochSettled => before.epoch.state == Some(Settled)
    case WrongKind => before.epoch.kind !in {None, Some("development")}
    case AlreadyAllocated => before.positive > 0
    case _ => false
  }

  /** About the protocol. */
  predicate ProtocolFails(protocol: Option<ProtocolRow>, reason: Reason)
  {
    match reason
    case NoProtocol => protocol.None?
    case WrongRole => protocol.Some? && protocol.value.role != "calibration"
    case EmitsPoints => protocol.Some? && protocol.value.emission != 0
    case ProtocolClaimable => protocol.Some? && protocol.value.claimable
    case ProtocolInactive => protocol.Some? && protocol.value.status != "active"
    case _ => false
  }

  lemma EventChecksHave(a: Approved, event: Option<Event>, reason: Reason)
    ensures Check(true, reason) in EventChecks(a, event) <==> EventFails(a, event, reason)
  {
  }

  lemma TableChecksHave(a: Approved, proof: Option<ProofRow>, before: Snapshot, reason: Reason)
    ensures Check(true, reason) in TableChecks(a, proof, before) <==> TablesFail(a, proof, before, reason)
  {
  }

  lemma ProtocolChecksHave(protocol: Option<ProtocolRow>, reason: Reason)
    ensures Check(true, reason) in ProtocolChecks(protocol) <==> ProtocolFails(protocol, reason)
  {
  }

  lemma InThree(a: seq<Check>, b: seq<Check>, c: seq<Check>, check: Check)
    ensures check in a + b + c <==> check in a || check in b || check in c
  {
  }

  /** The pre-check lists a reason exactly if what the reason says is so. */
  lemma ReasonsExactly(db: Db, protocol: Option<ProtocolRow>, a: Approved, before: Snapshot, reason: Reason)
    ensures reason in PreconditionReasons(db, protocol, a, before) <==>
              || EventFails(a, LoadEvent(db.events, a.eventId), reason)
              || TablesFail(a, LoadProof(db, a.proofId), before, reason) || ProtocolFails(protocol, reason)
  {
    var event, proof := LoadEvent(db.events, a.eventId), LoadProof(db, a.proofId);
    ListedHas(Preconditions(db, protocol, a, before), reason);
    EventChecksHave(a, event, reason);
    TableChecksHave(a, proof, before, reason);
    ProtocolChecksHave(protocol, reason);
    InThree(EventChecks(a, event), TableChecks(a, proof, before), ProtocolChecks(protocol), Check(true, reason));
  }

  predicate EventFits(a: Approved, event: Option<Event>)
  {
    && event.Some? && event.value.userId == a.userId && event.value.record.epochId == a.epochId
    && event.value.record.economicKey == Some(a.economicKey) && event.value.record.eligibleMicros == a.eligibleMicros
    && event.value.record.economicStatus == EconomicEligible && event.value.record.rewardStatus == RewardEligible
    && event.value.record.pricingVersion == Some("usage-pricing-v2")
  }

  predicate TablesFit(a: Approved, proof: Option<ProofRow>, before: Snapshot)
  {
    && proof.Some? && proof.value.eventId == a.eventId && proof.value.signed
    && before.score == Some(a.expectedScore) && before.epoch.state != Some(Settled)
    && before.epoch.kind in {None, Some("development")} && before.positive == 0
  }

  predicate ProtocolFits(protocol: Option<ProtocolRow>)
  {
    && protocol.Some? && protocol.value.role == "calibration" && protocol.value.emission == 0
    && !protocol.value.claimable && protocol.value.status == "active"
  }

  lemma EventFitsExactlyIf(a: Approved, event: Option<Event>)
    ensures EventFits(a, event) <==> forall reason :: !EventFails(a, event, reason)
  {
    if forall reason :: !EventFails(a, event, reason) {
      assert !EventFails(a, event, NoEvent) && !EventFails(a, event, WrongOwner) && !EventFails(a, event, WrongEpoch) && !EventFails(a, event, WrongKey);
      assert !EventFails(a, event, WrongCompute) && !EventFails(a, event, NotEligible) && !EventFails(a, event, RewardNotEligible)
          && !EventFails(a, event, WrongPricing);
    }
  }

  lemma TablesFitExactlyIf(a: Approved, proof: Option<ProofRow>, before: Snapshot)
    ensures TablesFit(a, proof, before) <==> forall reason :: !TablesFail(a, proof, before, reason)
  {
    if forall reason :: !TablesFail(a, proof, before, reason) {
      assert !TablesFail(a, proof, before, BadProof) && !TablesFail(a, proof, before, WrongScore) && !TablesFail(a, proof, before, EpochSettled)
          && !TablesFail(a, proof, before, WrongKind) && !TablesFail(a, proof, before, AlreadyAllocated);
    }
  }

  lemma ProtocolFitsExactlyIf(protocol: Option<ProtocolRow>)
    ensures ProtocolFits(protocol) <==> forall reason :: !ProtocolFails(protocol, reason)
  {
    if forall reason :: !ProtocolFails(protocol, reason) {
      assert !ProtocolFails(protocol, NoProtocol) && !ProtocolFails(protocol, WrongRole) && !ProtocolFails(protocol, EmitsPoints)
          && !ProtocolFails(protocol, ProtocolClaimable) && !ProtocolFails(protocol, ProtocolInactive);
    }
  }

  /** The pre-check passes exactly on these facts about the event, its proof, the score, the epoch and the protocol. */
  lemma ReadyExactlyIf(db: Db, protocol: Option<ProtocolRow>, a: Approved)
    ensures Ready(db, protocol, a) <==>
              && EventFits(a, LoadEvent(db.events, a.eventId))
              && TablesFit(a, LoadProof(db, a.proofId), SnapshotOf(db, a)) && ProtocolFits(protocol)
  {
    var event, proof, before := LoadEvent(db.events, a.eventId), LoadProof(db, a.proofId), SnapshotOf(db, a);
    var reasons := PreconditionReasons(db, protocol, a, before);
    forall reason
      ensures reason in reasons <==> EventFails(a, event, reason) || TablesFail(a, proof, before, reason) || ProtocolFails(protocol, reason)
    {
      ReasonsExactly(db, protocol, a, before, reason);
    }
    assert reasons != [] ==> reasons[0] in reasons;
    EventFitsExactlyIf(a, event);
    TablesFitExactlyIf(a, proof, before);
    ProtocolFitsExactlyIf(protocol);
  }

  /** What the reasons of the post-check say about the event. */
  predicate EventChanged(a: Approved, before: EventView, after: EventView, reason: Reason)
  {
    match reason
    case IdentityChanged => !(after.id == Some(a.eventId) && after.economicKey == Some(a.economicKey))
    case EconomicsChanged => after.eligibleMicros != before.eligibleMicros
    case PricingChanged => after.pricing != before.pricing
    case EventNotSettled => after.status != Some(EconomicSettled)
    case _ => false
  }

  /** About the epoch row. */
  predicate EpochChanged(after: EpochView, reason: Reason)
  {
    match reason
    case EpochNotSettled => after.state != Some(Settled)
    case KindChanged => after.kind != Some("development")
    case NotBound => after.protocolVersion != Some("mining-dev-calibration-v1")
    case NotMarkedUnclaimable => after.claimable != Some(false)
    case _ => false
  }

  /** About proof, score, allocations and ledger. */
  predicate ValueChanged(before: Snapshot, after: Snapshot, reason: Reason)
  {
    match reason
    case ProofChanged => !(after.proof.signed && after.proof.id == before.proof.id)
    case ScoreChanged => after.score != before.score
    case Allocated => after.positive > 0
    case LedgerRowsChanged => after.ledgerRows != before.ledgerRows
    case LedgerTotalChanged => after.ledgerTotal != before.ledgerTotal
    case BalanceChanged => after.balance != before.balance
    case _ => false
  }

  lemma EventChangesHave(a: Approved, before: EventView, after: EventView, reason: Reason)
    ensures Check(true, reason) in EventChanges(before, after, a) <==> EventChanged(a, before, after, reason)
  {
  }

  lemma EpochChangesHave(after: EpochView, reason: Reason)
    ensures Check(true, reason) in EpochChanges(after) <==> EpochChanged(after, reason)
  {
  }

  lemma ValueChangesHave(before: Snapshot, after: Snapshot, reason: Reason)
    ensures Check(true, reason) in ValueChanges(before, after) <==> ValueChanged(before, after, reason)
  {
  }

  /** The post-check lists a reason exactly if what the reason says is so. */
  lemma ChangesExactly(before: Snapshot, after: Snapshot, a: Approved, reason: Reason)
    ensures reason in PostconditionReasons(before, after, a) <==>
              EventChanged(a, before.event, after.event, reason) || EpochChanged(after.epoch, reason) || ValueChanged(before, after, reason)
  {
    ListedHas(Postconditions(before, after, a), reason);
    EventChangesHave(a, before.event, after.event, reason);
    EpochChangesHave(after.epoch, reason);
    ValueChangesHave(before, after, reason);
    InThree(EventChanges(before.event, after.event, a), EpochChanges(after.epoch), ValueChanges(before, after), Check(true, reason));
  }

  /** The event is the approved one, worth and priced as before, and settled now. */
  predicate EventSettles(a: Approved, before: EventView, after: EventView)
  {
    && after.id == Some(a.eventId) && after.economicKey == Some(a.economicKey)
    && after.eligibleMicros == before.eligibleMicros && after.pricing == before.pricing && after.status == Some(EconomicSettled)
  }

  predicate EpochCloses(after: EpochView)
  {
    after == EpochView(Some(Settled), Some("development"), Some("mining-dev-calibration-v1"), Some(false))
  }

  predicate ValuesStand(before: Snapshot, after: Snapshot)
  {
    && after.proof.signed && after.proof.id == before.proof.id && after.score == before.score && after.positive == 0
    && after.ledgerRows == before.ledgerRows && after.ledgerTotal == before.ledgerTotal && after.balance == before.balance
  }

  lemma EventSettlesExactlyIf(a: Approved, before: EventView, after: EventView)
    ensures EventSettles(a, before, after) <==> forall reason :: !EventChanged(a, before, after, reason)
  {
    if forall reason :: !EventChanged(a, before, after, reason) {
      assert !EventChanged(a, before, after, IdentityChanged) && !EventChanged(a, before, after, EconomicsChanged)
          && !EventChanged(a, before, after, PricingChanged) && !EventChanged(a, before, after, EventNotSettled);
    }
  }

  lemma EpochClosesExactlyIf(after: EpochView)
    ensures EpochCloses(after) <==> forall reason :: !EpochChanged(after, reason)
  {
    if forall reason :: !EpochChanged(after, reason) {
      assert !EpochChanged(after, EpochNotSettled) && !EpochChanged(after, KindChanged) && !EpochChanged(after, NotBound)
          && !EpochChanged(after, NotMarkedUnclaimable);
    }
  }

  lemma ValuesStandExactlyIf(before: Snapshot, after: Snapshot)
    ensures ValuesStand(before, after) <==> forall reason :: !ValueChanged(before, after, reason)
  {
    if forall reason :: !ValueChanged(before, after, reason) {
      assert !ValueChanged(before, after, ProofChanged) && !ValueChanged(before, after, ScoreChanged) && !ValueChanged(before, after, Allocated)
          && !ValueChanged(before, after, LedgerRowsChanged) && !ValueChanged(before, after, LedgerTotalChanged) && !ValueChanged(before, after, BalanceChanged);
    }
  }

  /** The post-check passes exactly if the event is the approved one, now settled, and epoch, proof, score and ledger are as they must be. */
  lemma NothingChangedExactlyIf(before: Snapshot, after: Snapshot, a: Approved)
    ensures PostconditionReasons(before, after, a) == [] <==>
              EventSettles(a, before.event, after.event) && EpochCloses(after.epoch) && ValuesStand(before, after)
  {
    var reasons := PostconditionReasons(before, after, a);
    forall reason
      ensures reason in reasons <==>
                EventChanged(a, before.event, after.event, reason) || EpochChanged(after.epoch, reason) || ValueChanged(before, after, reason)
    {
      ChangesExactly(before, after, a, reason);
    }
    assert reasons != [] ==> reasons[0] in reasons;
    EventSettlesExactlyIf(a, before.event, after.event);
    EpochClosesExactlyIf(after.epoch);
    ValuesStandExactlyIf(before, after);
  }

  /** Without an approval, and on a failing pre-check, the close is refused before it writes. */
  lemma RefusedBeforeWriting(dates: Dates, db: Db, protocol: Option<ProtocolRow>, epochId: string, approvals: seq<Approved>)
    ensures (forall a | a in approvals :: a.epochId != epochId) ==> CloseOutcome(dates, db, protocol, epochId, approvals) == (Err(NotApproved), db)
    ensures forall a | ApprovedClose(epochId, approvals) == Some(a) && !Ready(db, protocol, a) ::
              CloseOutcome(dates, db, protocol, epochId, approvals) == (Err(Refused(PreconditionReasons(db, protocol, a, SnapshotOf(db, a)))), db)
  {
  }
}
