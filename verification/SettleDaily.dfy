/** Settle one day's epoch, once: every refusal is a refusal to write. */
module SettleDaily {
  import opened Wrappers
  import opened Allocation
  import opened Database
  import opened Epochs
  import opened Settlement
  import opened Calibration

  datatype Emission = FixedPool | BaselineLinear | ZeroCalibration

  /** The protocol that governs an epoch, resolved from its id. */
  datatype Governing = Governing(version: string, emission: Emission, pool: nat, scoringVersion: string)

  /** How days and epoch ids are read; `governs` throws on a text that is no epoch id. */
  datatype Schedule = Schedule(dates: Dates, governs: string -> Option<Governing>)

  datatype DailyResult =
    | PaidOut(result: SettlementResult)
    | Skipped
    | Declined
    | LeftToTheDatabase   // the call of the function that settles inside the database; its effect is not modelled
    | Thrown

  /** The epoch is rebuilt from the day: its date, written back, names epoch, scoring and binding. */
  function DailyEpoch(schedule: Schedule, day: string, pool: nat): Option<RewardEpoch>
  {
    match schedule.dates(day)
    case None => None
    case Some(written) =>
      match schedule.governs(EpochId(written))
      case None => None
      case Some(g) => Some(RewardEpoch(EpochId(written), written, pool, g.scoringVersion, Some(g.version), None))
  }

  /** `dayIsOver` is the clock's answer for the day. */
  function DailyOutcome(schedule: Schedule, db: Db, day: string, dayIsOver: bool, allowIncomplete: bool, approvals: seq<Approved>): (DailyResult, Db)
  {
    var id := EpochId(day);
    if !allowIncomplete && !dayIsOver then (Declined, db)
    else if StateOf(db, id) == Settled then (Skipped, db)
    else
      match schedule.governs(id)
      case None => (Thrown, db)
      case Some(g) =>
        if g.emission == BaselineLinear then (LeftToTheDatabase, db)
        else if g.emission != FixedPool then (Declined, db)
        else if ApprovedClose(id, approvals).Some? then (Declined, db)
        else
          match DailyEpoch(schedule, day, g.pool)
          case None => (Thrown, db)
          case Some(epoch) => SettledByRequests(db, epoch, g.scoringVersion)
  }

  /** The two phases; an epoch that is settled already is skipped. */
  function SettledByRequests(db: Db, epoch: RewardEpoch, version: string): (DailyResult, Db)
  {
    var (finalized, db1) := FinalizeOutcome(db, epoch, version, "development");
    if finalized.Err? then (Skipped, db1)
    else
      var (settled, db2) := SettleOutcome(db1, epoch, version, "development");
      if settled.Err? then (Skipped, db2) else (Report(settled.value), db2)
  }

  /** An allocation that does not add up to its pool is reported as unsound. */
  function Report(result: SettlementResult): DailyResult
  {
    if result.participants > 0 && result.distributed != result.pool then Declined
    else if result.participants == 0 then Skipped
    else PaidOut(result)
  }

  method SettleDailyEpoch(schedule: Schedule, store: SettlementStore, day: string, dayIsOver: bool, allowIncomplete: bool, approvals: seq<Approved>)
    returns (r: DailyResult)
    modifies store
    ensures (r, store.db) == DailyOutcome(schedule, old(store.db), day, dayIsOver, allowIncomplete, approvals)
  {
    if !allowIncomplete && !dayIsOver {
      return Declined;
    }
    if StateOf(store.db, EpochId(day)) == Settled {
      return Skipped;
    }
    var governing := schedule.governs(EpochId(day));
    if governing.None? {
      return Thrown;
    }
    if governing.value.emission == BaselineLinear {
      return LeftToTheDatabase;
    }
    if governing.value.emission != FixedPool || ApprovedClose(EpochId(day), approvals).Some? {
      return Declined;
    }
    var epoch := DailyEpoch(schedule, day, governing.value.pool);
    if epoch.None? {
      return Thrown;
    }
    var finalized := store.FinalizeEpoch(epoch.value, governing.value.scoringVersion, "development");
    if finalized.Err? {
      return Skipped;
    }
    var settled := store.SettleEpoch(epoch.value, governing.value.scoringVersion, "development");
    if settled.Err? {
      return Skipped;
    }
    r := Report(settled.value);
  }

  /** A settlement that runs is never unsound: with participants it distributes the pool exactly. */
  lemma SettlementIsSound(db: Db, epoch: RewardEpoch, version: string, kind: string)
    requires UniqueScores(db.scores) && SettleOutcome(db, epoch, version, kind).0.Ok?
    ensures var r := SettleOutcome(db, epoch, version, kind).0.value;
            (r.participants > 0 ==> r.distributed == r.pool) && (r.participants == 0 ==> r.distributed == 0)
  {
    OneScorePerUser(db.scores, epoch.day, version);
    DistributedEqualsPool(EpochScores(db.scores, epoch.day, version), epoch.pool);
  }

  /** The job may settle the day: it is over or need not be, and not settled yet. */
  predicate Due(db: Db, day: string, dayIsOver: bool, allowIncomplete: bool)
  {
    (allowIncomplete || dayIsOver) && !Recorded(db, EpochId(day), Settled)
  }

  /** The day is governed by a fixed pool, and nobody approved a calibration close of it. */
  predicate Fixed(schedule: Schedule, day: string, approvals: seq<Approved>)
  {
    && schedule.governs(EpochId(day)).Some? && schedule.governs(EpochId(day)).value.emission == FixedPool
    && forall a | a in approvals :: a.epochId != EpochId(day)
  }

  /** The day is a date, and the epoch of that date is governed too. */
  predicate WrittenDown(schedule: Schedule, day: string)
  {
    schedule.dates(day).Some? && schedule.governs(EpochId(schedule.dates(day).value)).Some?
  }

  /** Every guard on the day as given lets the job go on, and both phases go through on the date it is. */
  predicate TakesFixedPath(schedule: Schedule, db: Db, day: string, dayIsOver: bool, allowIncomplete: bool, approvals: seq<Approved>)
  {
    && Due(db, day, dayIsOver, allowIncomplete) && Fixed(schedule, day, approvals) && WrittenDown(schedule, day)
    && !Recorded(db, EpochId(schedule.dates(day).value), Settled)
    && schedule.governs(EpochId(day)).value.scoringVersion == "usage_score_v1"
  }

  lemma BothPhasesRun(db: Db, epoch: RewardEpoch)
    requires UniqueScores(db.scores) && !Recorded(db, epoch.id, Settled)
    ensures var (r, db') := SettledByRequests(db, epoch, "usage_score_v1");
            var ps := EpochScores(db.scores, epoch.day, "usage_score_v1");
            && RowWritten(db.epochs, db'.epochs, epoch, Settled, NetworkScore(ps), "development")
            && db'.allocations == InsertAllocations(db.allocations, epoch.id, Allocate(ps, epoch.pool))
            && db'.ledger == InsertLedger(db.ledger, epoch.id, Allocate(ps, epoch.pool))
            && (if ps == [] then r == Skipped else r.PaidOut? && r.result.distributed == r.result.pool == epoch.pool)
  {
    var db1 := FinalizeOutcome(db, epoch, "usage_score_v1", "development").1;
    FinalizeWrites(db, epoch, "usage_score_v1", "development");
    SettleWrites(db1, epoch, "usage_score_v1", "development");
    SettlePays(db1, epoch, "usage_score_v1", "development");
    SettlementIsSound(db1, epoch, "usage_score_v1", "development");
  }

  /** What the job answers, case by case; a settlement is never reported as unsound. */
  lemma DailyAnswer(schedule: Schedule, db: Db, day: string, dayIsOver: bool, allowIncomplete: bool, approvals: seq<Approved>)
    requires UniqueScores(db.scores)
    ensures var (r, db') := DailyOutcome(schedule, db, day, dayIsOver, allowIncomplete, approvals);
            var g := schedule.governs(EpochId(day));
            if !allowIncomplete && !dayIsOver then (r, db') == (Declined, db)
            else if Recorded(db, EpochId(day), Settled) then (r, db') == (Skipped, db)
            else if g.None? then (r, db') == (Thrown, db)
            else if g.value.emission == BaselineLinear then (r, db') == (LeftToTheDatabase, db)
            else if !Fixed(schedule, day, approvals) then (r, db') == (Declined, db)
            else if !WrittenDown(schedule, day) then (r, db') == (Thrown, db)
            else if Recorded(db, EpochId(schedule.dates(day).value), Settled) || g.value.scoringVersion != "usage_score_v1" then (r, db') == (Skipped, db)
            else r.PaidOut? || r.Skipped?
  {
    if TakesFixedPath(schedule, db, day, dayIsOver, allowIncomplete, approvals) {
      BothPhasesRun(db, DailyEpoch(schedule, day, schedule.governs(EpochId(day)).value.pool).value);
    }
  }

  /**
   * On the fixed-pool path the epoch of the date ends settled, with the pool that
   * governs the day, the scoring and the binding that govern the date, and the
   * network score of the date's participants; every other row stands. The job says
   * paid exactly when somebody scored, and then the whole pool was distributed. A
   * run that takes another path writes nothing, and does not say paid.
   */
  lemma DailyOutcomeIsHonest(schedule: Schedule, db: Db, day: string, dayIsOver: bool, allowIncomplete: bool, approvals: seq<Approved>)
    requires UniqueScores(db.scores)
    ensures var (r, db') := DailyOutcome(schedule, db, day, dayIsOver, allowIncomplete, approvals);
            if TakesFixedPath(schedule, db, day, dayIsOver, allowIncomplete, approvals) then
              var written, pool := schedule.dates(day).value, schedule.governs(EpochId(day)).value.pool;
              var id := EpochId(written);
              var g, ps := schedule.governs(id).value, EpochScores(db.scores, written, "usage_score_v1");
              && db'.epochs.Keys == db.epochs.Keys + {id}
              && (forall other | other in db.epochs && other != id :: db'.epochs[other] == db.epochs[other])
              && db'.epochs[id].state == Settled && db'.epochs[id].pool == pool
              && db'.epochs[id].scoringVersion == g.scoringVersion && db'.epochs[id].protocolVersion == Some(g.version)
              && db'.epochs[id].networkScore == NetworkScore(ps) && db'.epochs[id].kind == "development"
              && db'.allocations == InsertAllocations(db.allocations, id, Allocate(ps, pool))
              && db'.ledger == InsertLedger(db.ledger, id, Allocate(ps, pool))
              && (if ps == [] then r == Skipped else r.PaidOut? && r.result.distributed == r.result.pool == pool)
            else db' == db && !r.PaidOut?
  {
    DailyAnswer(schedule, db, day, dayIsOver, allowIncomplete, approvals);
    if TakesFixedPath(schedule, db, day, dayIsOver, allowIncomplete, approvals) {
      BothPhasesRun(db, DailyEpoch(schedule, day, schedule.governs(EpochId(day)).value.pool).value);
    }
  }

  /**
   * The guards read the day as given and the settlement works on the date it is:
   * the epoch that was asked for is settled exactly when the two are one.
   */
  lemma SettlesTheDayExactlyIfWrittenSo(schedule: Schedule, db: Db, day: string, dayIsOver: bool, allowIncomplete: bool, approvals: seq<Approved>)
    requires UniqueScores(db.scores) && TakesFixedPath(schedule, db, day, dayIsOver, allowIncomplete, approvals)
    ensures StateOf(DailyOutcome(schedule, db, day, dayIsOver, allowIncomplete, approvals).1, EpochId(day)) == Settled
            <==> schedule.dates(day) == Some(day)
  {
    DailyOutcomeIsHonest(schedule, db, day, dayIsOver, allowIncomplete, approvals);
    EpochDayOfId(day);
    EpochDayOfId(schedule.dates(day).value);
  }

  /** Reads the last days that February lacks as days of March. */
  function RollingSchedule(): Schedule
  {
    Schedule((day: string) => if day == "2026-02-31" then Some("2026-03-03") else Some(day),
             (id: string) => Some(Governing("mining-dev-v1", FixedPool, 1, "usage_score_v1")))
  }

  /** Asked for a day that February lacks, the job settles an epoch of March and leaves the one it was asked for. */
  lemma MissingDaySettlesAnother()
    ensures var db := Db(map[], [], [], [], [], [], map[], true);
            var db' := DailyOutcome(RollingSchedule(), db, "2026-02-31", true, false, []).1;
            StateOf(db', EpochId("2026-02-31")) == Open && StateOf(db', EpochId("2026-03-03")) == Settled
  {
    var db := Db(map[], [], [], [], [], [], map[], true);
    EpochDayOfId("2026-02-31");
    assert "2026-02-31"[6] != "2026-03-03"[6];
    DailyOutcomeIsHonest(RollingSchedule(), db, "2026-02-31", true, false, []);
  }

  /** The job may look back at a finished day as often as it likes. */
  lemma SecondRunSkips(schedule: Schedule, db: Db, day: string, dayIsOver: bool, allowIncomplete: bool, approvals: seq<Approved>)
    requires UniqueScores(db.scores) && TakesFixedPath(schedule, db, day, dayIsOver, allowIncomplete, approvals)
    ensures var db' := DailyOutcome(schedule, db, day, dayIsOver, allowIncomplete, approvals).1;
            DailyOutcome(schedule, db', day, dayIsOver, allowIncomplete, approvals) == (Skipped, db')
  {
    DailyOutcomeIsHonest(schedule, db, day, dayIsOver, allowIncomplete, approvals);
  }

  /** A settlement that does not add up is declined, one without participants skipped, and any other reported as it is. */
  lemma ReportedAsItIs(result: SettlementResult)
    ensures Report(result).Declined? <==> result.participants > 0 && result.distributed != result.pool
    ensures Report(result).Skipped? <==> result.participants == 0
    ensures result.participants > 0 && result.distributed == result.pool ==> Report(result) == PaidOut(result)
  {
  }
}
