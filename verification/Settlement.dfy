/**
 * Epoch settlement, one run at a time.
 *
 * `FinalizeOutcome` and `SettleOutcome` say what a run that is not interrupted
 * returns and leaves behind; the store class carries the steps out. Runs that
 * interleave or stop half way are in module Protocol.
 */
module Settlement {
  import opened Wrappers
  import opened Sums
  import opened Allocation
  import opened Database

  datatype LifecycleError = NotActiveScoring | NotFinalizing | AlreadySettled

  datatype Finalized = Finalized(epochId: string, networkScore: int)

  datatype SettlementResult = SettlementResult(
    epochId: string, participants: nat, networkScore: int, pool: nat, distributed: int, credited: nat,
    allocations: seq<Share>)

  /** Draft scoring versions never settle. */
  predicate IsActiveScoringVersion(version: string)
  {
    version == "usage_score_v1"
  }

  function AssertSettleable(state: EpochState): Result<(), LifecycleError>
  {
    match state
    case Settled => Err(AlreadySettled)
    case Open => Err(NotFinalizing)
    case Finalizing => Ok(())
  }

  function FinalizeOutcome(db: Db, epoch: RewardEpoch, version: string, kind: string): (Result<Finalized, LifecycleError>, Db)
  {
    if !IsActiveScoringVersion(version) then (Err(NotActiveScoring), db)
    else if StateOf(db, epoch.id) == Settled then (Err(AlreadySettled), db)
    else
      var network := NetworkScore(EpochScores(db.scores, epoch.day, version));
      (Ok(Finalized(epoch.id, network)), UpsertEpoch(db, epoch, Finalizing, network, kind).value)
  }

  function SettleOutcome(db: Db, epoch: RewardEpoch, version: string, kind: string): (Result<SettlementResult, LifecycleError>, Db)
  {
    if !IsActiveScoringVersion(version) then (Err(NotActiveScoring), db)
    else
      match AssertSettleable(StateOf(db, epoch.id))
      case Err(error) => (Err(error), db)
      case Ok(_) =>
        var ps := EpochScores(db.scores, epoch.day, version);
        var db' := UpsertEpoch(db, epoch, Settled, NetworkScore(ps), kind).value;
        (Ok(ResultOf(db'.ledger, epoch, ps)), Paid(db', epoch, ps))
  }

  /** The tables once a settled epoch has been credited and its events marked. */
  function Paid(db: Db, epoch: RewardEpoch, ps: seq<Participant>): Db
  {
    var shares := Allocate(ps, epoch.pool);
    db.(allocations := InsertAllocations(db.allocations, epoch.id, shares),
        ledger := InsertLedger(db.ledger, epoch.id, shares),
        events := MarkSettled(db.events, epoch.id, Users(ps)))
  }

  function ResultOf(ledger: seq<LedgerRow>, epoch: RewardEpoch, ps: seq<Participant>): SettlementResult
  {
    var shares := Allocate(ps, epoch.pool);
    SettlementResult(
      epoch.id, |ps|, NetworkScore(ps), epoch.pool, Sum(shares, PointsTerm()),
      |InsertLedger(ledger, epoch.id, shares)| - |ledger|, shares)
  }

  class SettlementStore {
    var db: Db

    constructor (db: Db)
      ensures this.db == db
    {
      this.db := db;
    }

    method CreditAllocations(epochId: string, shares: seq<Share>) returns (credited: nat)
      modifies this
      ensures db == old(db).(allocations := InsertAllocations(old(db).allocations, epochId, shares),
                             ledger := InsertLedger(old(db).ledger, epochId, shares))
      ensures credited == |db.ledger| - |old(db).ledger|
    {
      var before := |db.ledger|;
      db := db.(allocations := InsertAllocations(db.allocations, epochId, shares));
      db := db.(ledger := InsertLedger(db.ledger, epochId, shares));
      credited := |db.ledger| - before;
    }

    method FinalizeEpoch(epoch: RewardEpoch, version: string, kind: string) returns (r: Result<Finalized, LifecycleError>)
      modifies this
      ensures (r, db) == FinalizeOutcome(old(db), epoch, version, kind)
    {
      if !IsActiveScoringVersion(version) {
        return Err(NotActiveScoring);
      }
      if StateOf(db, epoch.id) == Settled {
        return Err(AlreadySettled);
      }
      var participants := EpochScores(db.scores, epoch.day, version);
      var network := NetworkScore(participants);
      db := UpsertEpoch(db, epoch, Finalizing, network, kind).value;
      return Ok(Finalized(epoch.id, network));
    }

    method SettleEpoch(epoch: RewardEpoch, version: string, kind: string) returns (r: Result<SettlementResult, LifecycleError>)
      modifies this
      ensures (r, db) == SettleOutcome(old(db), epoch, version, kind)
    {
      if !IsActiveScoringVersion(version) {
        return Err(NotActiveScoring);
      }
      var settleable := AssertSettleable(StateOf(db, epoch.id));
      if settleable.Err? {
        return Err(settleable.error);
      }
      var participants := EpochScores(db.scores, epoch.day, version);
      var network := NetworkScore(participants);
      db := UpsertEpoch(db, epoch, Settled, network, kind).value;
      var result := PayOut(epoch, participants);
      return Ok(result);
    }

    /** The part of settlement after the epoch row: allocate, credit, mark. */
    method PayOut(epoch: RewardEpoch, participants: seq<Participant>) returns (result: SettlementResult)
      modifies this
      ensures db == Paid(old(db), epoch, participants)
      ensures result == ResultOf(old(db).ledger, epoch, participants)
    {
      var shares := AllocateEpochRewards(participants, epoch.pool);
      var distributed := Sum(shares, PointsTerm());
      var credited := CreditAllocations(epoch.id, shares);
      db := db.(events := MarkSettled(db.events, epoch.id, Users(participants)));
      result := SettlementResult(
        epoch.id, |participants|, NetworkScore(participants), epoch.pool, distributed, credited, shares);
    }
  }

  // ------------------------------------------------------------- allocation ids

  /** Some users make two different epochs share an allocation id. */
  ghost predicate CanCollide(e1: string, e2: string)
  {
    e1 != e2 && exists u1, u2 :: AllocationId(e1, u1) == AllocationId(e2, u2)
  }

  /** Equal allocation ids put the shorter epoch id, and its colon, in front of the longer one. */
  lemma EqualIdsNest(e1: string, u1: string, e2: string, u2: string)
    requires AllocationId(e1, u1) == AllocationId(e2, u2) && |e1| <= |e2|
    ensures |e1| < |e2| ==> e1 + ":" <= e2
    ensures |e1| == |e2| ==> e1 == e2 && u1 == u2
  {
    var id := AllocationId(e1, u1);
    assert id == e1 + (":" + u1) == e2 + (":" + u2);
    assert e1 == id[..|e1|] && e2 == id[..|e2|] && id[|e1|] == ':';
    assert u1 == id[|e1| + 1..] && u2 == id[|e2| + 1..];
    if |e1| < |e2| {
      assert e2[..|e1|] == e1 && e2[|e1|] == ':';
    }
  }

  lemma PrefixCollides(e1: string, e2: string)
    requires e1 + ":" <= e2
    ensures CanCollide(e1, e2)
  {
    var rest := e2[|e1| + 1..];
    assert e2 == e1 + ":" + rest;
    assert AllocationId(e1, rest + ":") == AllocationId(e2, "");
  }

  /** Allocation ids of two epochs can meet exactly when one epoch id is the other, a colon and more. */
  lemma AllocationIdCollisions(e1: string, e2: string)
    ensures CanCollide(e1, e2) <==> e1 + ":" <= e2 || e2 + ":" <= e1
  {
    if CanCollide(e1, e2) {
      var u1, u2 :| AllocationId(e1, u1) == AllocationId(e2, u2);
      if |e1| <= |e2| {
        EqualIdsNest(e1, u1, e2, u2);
      } else {
        EqualIdsNest(e2, u2, e1, u1);
      }
    }
    if e1 + ":" <= e2 {
      PrefixCollides(e1, e2);
    }
    if e2 + ":" <= e1 {
      PrefixCollides(e2, e1);
    }
  }

  /** Among epochs that cannot collide an allocation id names one epoch and one user. */
  lemma AllocationIdIsInjective(e1: string, u1: string, e2: string, u2: string)
    requires !CanCollide(e1, e2)
    requires AllocationId(e1, u1) == AllocationId(e2, u2)
    ensures e1 == e2 && u1 == u2
  {
    EqualIdsNest(e1, u1, e1, u2);
  }

  lemma ColonIsKept(e: string, long: string)
    ensures e + ":" <= long ==> ':' in long
  {
    if e + ":" <= long {
      assert long[|e|] == ':';
    }
  }

  /** Epoch ids without a colon never collide. */
  lemma ColonFreeIdsAreApart(e1: string, e2: string)
    requires ':' !in e1 && ':' !in e2
    ensures !CanCollide(e1, e2)
  {
    AllocationIdCollisions(e1, e2);
    ColonIsKept(e1, e2);
    ColonIsKept(e2, e1);
  }

  // ------------------------------------------------------- what the two phases write

  predicate Recorded(db: Db, id: string, state: EpochState)
  {
    id in db.epochs && db.epochs[id].state == state
  }

  /**
   * Finalizing is refused, and writes nothing, exactly for another scoring version
   * or a settled row. Else it reports the network score of the day and writes the
   * epoch row, and no other, as finalizing.
   */
  lemma FinalizeWrites(db: Db, epoch: RewardEpoch, version: string, kind: string)
    ensures var (r, db') := FinalizeOutcome(db, epoch, version, kind);
            var network := NetworkScore(EpochScores(db.scores, epoch.day, version));
            if version != "usage_score_v1" then r == Err(NotActiveScoring) && db' == db
            else if Recorded(db, epoch.id, Settled) then r == Err(AlreadySettled) && db' == db
            else
              && r.Ok? && r.value.epochId == epoch.id && r.value.networkScore == network
              && db' == db.(epochs := db'.epochs) && RowWritten(db.epochs, db'.epochs, epoch, Finalizing, network, kind)
  {
    if version == "usage_score_v1" && !Recorded(db, epoch.id, Settled) {
      UpsertWritesRow(db, epoch, Finalizing, NetworkScore(EpochScores(db.scores, epoch.day, version)), kind);
    }
  }

  /**
   * Settling is refused, and writes nothing, for another scoring version and
   * unless the row says finalizing. Else the row is written as settled and
   * nothing but the row, the allocations, the ledger and the events changes.
   */
  lemma SettleWrites(db: Db, epoch: RewardEpoch, version: string, kind: string)
    ensures var (r, db') := SettleOutcome(db, epoch, version, kind);
            var network := NetworkScore(EpochScores(db.scores, epoch.day, version));
            if version != "usage_score_v1" then r == Err(NotActiveScoring) && db' == db
            else if Recorded(db, epoch.id, Settled) then r == Err(AlreadySettled) && db' == db
            else if !Recorded(db, epoch.id, Finalizing) then r == Err(NotFinalizing) && db' == db
            else
              && r.Ok? && RowWritten(db.epochs, db'.epochs, epoch, Settled, network, kind)
              && db' == db.(epochs := db'.epochs, allocations := db'.allocations, ledger := db'.ledger, events := db'.events)
  {
    if version == "usage_score_v1" && Recorded(db, epoch.id, Finalizing) {
      UpsertWritesRow(db, epoch, Settled, NetworkScore(EpochScores(db.scores, epoch.day, version)), kind);
    }
  }

  /**
   * What a settlement that goes through reports and pays: the shares of the day's
   * participants in the pool of the epoch, recorded, credited and marked.
   */
  lemma SettlePays(db: Db, epoch: RewardEpoch, version: string, kind: string)
    requires SettleOutcome(db, epoch, version, kind).0.Ok?
    ensures var (r, db') := SettleOutcome(db, epoch, version, kind);
            var ps := EpochScores(db.scores, epoch.day, version);
            && r.value.allocations == Allocate(ps, epoch.pool)
            && db'.allocations == InsertAllocations(db.allocations, epoch.id, r.value.allocations)
            && db'.ledger == InsertLedger(db.ledger, epoch.id, r.value.allocations)
            && r.value.epochId == epoch.id && r.value.participants == |ps| && r.value.networkScore == NetworkScore(ps)
            && r.value.pool == epoch.pool && r.value.credited == |db'.ledger| - |db.ledger|
            && r.value.distributed == Sum(r.value.allocations, (s: Share) => s.points)
  {
    var shares := Allocate(EpochScores(db.scores, epoch.day, version), epoch.pool);
    SumOfSame(shares, PointsTerm(), (s: Share) => s.points);
  }

  lemma {:induction false} SumOfSame<T>(s: seq<T>, f: T -> int, g: T -> int)
    requires forall x | x in s :: f(x) == g(x)
    ensures Sum(s, f) == Sum(s, g)
  {
    if s != [] {
      SumOfSame(s[1..], f, g);
    }
  }

  /** It settles exactly the eligible events of the day's participants in this epoch, and changes nothing else of any event. */
  lemma SettleMarks(db: Db, epoch: RewardEpoch, version: string, kind: string, i: nat)
    requires SettleOutcome(db, epoch, version, kind).0.Ok? && i < |db.events|
    ensures var db' := SettleOutcome(db, epoch, version, kind).1;
            && |db'.events| == |db.events|
            && var was, now := db.events[i], db'.events[i];
               var marked := was.record.epochId == epoch.id && was.record.economicStatus == EconomicEligible
                          && exists p :: p in EpochScores(db.scores, epoch.day, version) && p.userId == was.userId;
               now == if marked then was.(record := was.record.(economicStatus := EconomicSettled)) else was
  {
    MarkedExactly(db.events, epoch.id, Users(EpochScores(db.scores, epoch.day, version)), i);
  }
}
