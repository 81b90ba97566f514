/**
 * Settlement runs that interleave.
 *
 * Any number of finalize and settle runs share the tables. Each advances one
 * store call at a time, in any order, and may stop for good between two calls.
 * Meanwhile anybody may rewrite scores, except those of an epoch that has
 * stopped collecting.
 */
module Protocol {
  import opened Wrappers
  import opened Sums
  import opened Allocation
  import opened Database
  import opened Settlement

  datatype Kind = FinalizeRun | SettleRun

  /** The next store call of a run; `Finished` and `Stopped` have none. */
  datatype Pc = ReadState | ReadScores | WriteEpoch | WriteAllocations | WriteLedger | MarkEvents | Finished | Stopped

  /** What governs an epoch: it is fixed by the epoch, not chosen by the run. */
  datatype Terms = Terms(epoch: RewardEpoch, version: string, kind: string)

  datatype Run = Run(kind: Kind, terms: Terms, pc: Pc, rows: seq<Participant>)

  datatype System = System(db: Db, runs: seq<Run>)

  datatype Action =
    | Start(kind: Kind, epochId: string)
    | Advance(run: nat, rows: seq<Participant>)   // `rows`: the order the score rows happened to come back in
    | Stop(run: nat)
    | Rescore(scores: seq<ScoreRow>, events: seq<Event>)

  type Plan = map<string, Terms>

  function ScoresOf(db: Db, terms: Terms): seq<Participant>
  {
    EpochScores(db.scores, terms.epoch.day, terms.version)
  }

  /** One store call of one run. */
  function Call(db: Db, run: Run, rows: seq<Participant>): (Db, Run)
  {
    var epoch := run.terms.epoch;
    match run.pc
    case ReadState =>
      if !IsActiveScoringVersion(run.terms.version) then (db, run.(pc := Stopped))
      else
        var state := StateOf(db, epoch.id);
        var refused := if run.kind.FinalizeRun? then state == Settled else AssertSettleable(state).Err?;
        (db, run.(pc := if refused then Stopped else ReadScores))
    case ReadScores => (db, run.(pc := WriteEpoch, rows := rows))
    case WriteEpoch =>
      var state := if run.kind.FinalizeRun? then Finalizing else Settled;
      (match UpsertEpoch(db, epoch, state, NetworkScore(run.rows), run.terms.kind)
       case Err(_) => (db, run.(pc := Stopped))
       case Ok(db') => (db', run.(pc := if run.kind.FinalizeRun? then Finished else WriteAllocations)))
    case WriteAllocations =>
      (db.(allocations := InsertAllocations(db.allocations, epoch.id, Allocate(run.rows, epoch.pool))),
       run.(pc := WriteLedger))
    case WriteLedger =>
      (db.(ledger := InsertLedger(db.ledger, epoch.id, Allocate(run.rows, epoch.pool))), run.(pc := MarkEvents))
    case MarkEvents =>
      (db.(events := MarkSettled(db.events, epoch.id, Users(run.rows))), run.(pc := Finished))
    case Finished => (db, run)
    case Stopped => (db, run)
  }

  /** Scores of an epoch that stopped collecting stay what they were, up to row order. */
  ghost predicate ClosedScoresKept(plan: Plan, db: Db, scores: seq<ScoreRow>)
  {
    forall id | id in plan && Closed(db, id) ::
      multiset(ScoresOf(db.(scores := scores), plan[id])) == multiset(ScoresOf(db, plan[id]))
  }

  ghost predicate Legal(plan: Plan, s: System, a: Action)
  {
    match a
    case Start(_, id) => id in plan
    case Advance(i, rows) => i < |s.runs| && multiset(rows) == multiset(ScoresOf(s.db, s.runs[i].terms))
    case Stop(i) => i < |s.runs|
    case Rescore(scores, _) => UniqueScores(scores) && ClosedScoresKept(plan, s.db, scores)
  }

  function Apply(plan: Plan, s: System, a: Action): System
  {
    match a
    case Start(kind, id) =>
      if id in plan then s.(runs := s.runs + [Run(kind, plan[id], ReadState, [])]) else s
    case Advance(i, rows) =>
      if i < |s.runs| then
        var (db, run) := Call(s.db, s.runs[i], rows);
        System(db, s.runs[i := run])
      else s
    case Stop(i) => if i < |s.runs| then s.(runs := s.runs[i := s.runs[i].(pc := Stopped)]) else s
    case Rescore(scores, events) => s.(db := s.db.(scores := scores, events := events))
  }

  ghost predicate LegalHistory(plan: Plan, s: System, history: seq<Action>)
    decreases |history|
  {
    history == [] || (Legal(plan, s, history[0]) && LegalHistory(plan, Apply(plan, s, history[0]), history[1..]))
  }

  function Replay(plan: Plan, s: System, history: seq<Action>): System
    decreases |history|
  {
    if history == [] then s else Replay(plan, Apply(plan, s, history[0]), history[1..])
  }

  ghost predicate WellFormedPlan(plan: Plan)
  {
    forall id | id in plan :: plan[id].epoch.id == id
  }

  /** No two epochs of the plan can share an allocation id. */
  ghost predicate IdsApart(plan: Plan)
  {
    forall e1, e2 | e1 in plan && e2 in plan :: !CanCollide(e1, e2)
  }

  // ---------------------------------------------------------------- the invariant

  function Due(db: Db, terms: Terms): Participant -> int
  {
    Points(ScoresOf(db, terms), terms.epoch.pool)
  }

  /** A ledger row pays one participant of a closed epoch exactly what is due. */
  ghost predicate RowPays(db: Db, terms: Terms, row: LedgerRow, p: Participant)
  {
    p in ScoresOf(db, terms) && p.userId == row.userId && row.amount == Due(db, terms)(p)
  }

  ghost predicate RowOk(plan: Plan, db: Db, row: LedgerRow)
  {
    && row.epochId in plan && Closed(db, row.epochId)
    && row.allocationId == AllocationId(row.epochId, row.userId)
    && row.amount > 0
    && exists p :: RowPays(db, plan[row.epochId], row, p)
  }

  ghost predicate DistinctIds(rows: seq<LedgerRow>)
  {
    forall i, j | 0 <= i < j < |rows| :: rows[i].allocationId != rows[j].allocationId
  }

  ghost predicate LedgerOk(plan: Plan, db: Db)
  {
    DistinctIds(db.ledger) && forall row | row in db.ledger :: RowOk(plan, db, row)
  }

  /** Every participant with something due has its row. */
  ghost predicate FullyCredited(db: Db, terms: Terms)
  {
    forall p | p in ScoresOf(db, terms) && Due(db, terms)(p) > 0 ::
      Credited(db.ledger, AllocationId(terms.epoch.id, p.userId))
  }

  predicate Settling(run: Run)
  {
    run.kind.SettleRun? && !run.pc.ReadState? && !run.pc.Stopped?
  }

  ghost predicate RunOk(plan: Plan, db: Db, run: Run)
  {
    && run.terms.epoch.id in plan && plan[run.terms.epoch.id] == run.terms
    && (run.kind.FinalizeRun? ==> !run.pc.WriteAllocations? && !run.pc.WriteLedger? && !run.pc.MarkEvents?)
    && (Settling(run) ==> Closed(db, run.terms.epoch.id))
    && (Settling(run) && !run.pc.ReadScores? ==> multiset(run.rows) == multiset(ScoresOf(db, run.terms)))
    && (Settling(run) && (run.pc.MarkEvents? || run.pc.Finished?) ==> FullyCredited(db, run.terms))
  }

  ghost predicate Inv(plan: Plan, s: System)
  {
    && WellFormedPlan(plan) && IdsApart(plan)
    && UniqueScores(s.db.scores)
    && LedgerOk(plan, s.db)
    && forall run | run in s.runs :: RunOk(plan, s.db, run)
  }

  /** Nothing recorded, nobody running. */
  ghost predicate Fresh(s: System)
  {
    s.runs == [] && s.db.epochs == map[] && s.db.ledger == [] && s.db.allocations == [] && UniqueScores(s.db.scores)
  }

  // ------------------------------------------- what a step leaves as it was

  /** Closed epochs stay closed and keep their scores. */
  ghost predicate ClosedKept(plan: Plan, db: Db, db': Db)
  {
    forall id | id in plan && Closed(db, id) ::
      Closed(db', id) && multiset(ScoresOf(db', plan[id])) == multiset(ScoresOf(db, plan[id]))
  }

  lemma DueIsKept(db: Db, db': Db, terms: Terms)
    requires multiset(ScoresOf(db', terms)) == multiset(ScoresOf(db, terms))
    ensures forall p :: Due(db', terms)(p) == Due(db, terms)(p)
    ensures forall p :: p in ScoresOf(db', terms) <==> p in ScoresOf(db, terms)
  {
    forall p ensures Due(db', terms)(p) == Due(db, terms)(p) {
      AllocationIgnoresRowOrder(ScoresOf(db', terms), ScoresOf(db, terms), terms.epoch.pool, p);
    }
    forall p ensures p in ScoresOf(db', terms) <==> p in ScoresOf(db, terms) {
      assert p in multiset(ScoresOf(db', terms)) <==> p in multiset(ScoresOf(db, terms));
    }
  }

  lemma RowStaysOk(plan: Plan, db: Db, db': Db, row: LedgerRow)
    requires ClosedKept(plan, db, db') && RowOk(plan, db, row)
    ensures RowOk(plan, db', row)
  {
    DueIsKept(db, db', plan[row.epochId]);
    var p :| RowPays(db, plan[row.epochId], row, p);
    assert RowPays(db', plan[row.epochId], row, p);
  }

  lemma RunStaysOk(plan: Plan, db: Db, db': Db, run: Run)
    requires ClosedKept(plan, db, db') && RunOk(plan, db, run) && db.ledger <= db'.ledger
    ensures RunOk(plan, db', run)
  {
    if Settling(run) {
      DueIsKept(db, db', run.terms);
      if run.pc.MarkEvents? || run.pc.Finished? {
        forall p | p in ScoresOf(db', run.terms) && Due(db', run.terms)(p) > 0
          ensures Credited(db'.ledger, AllocationId(run.terms.epoch.id, p.userId))
        {
          assert Credited(db.ledger, AllocationId(run.terms.epoch.id, p.userId));
        }
      }
    }
  }

  // ---------------------------------------------------------- crediting the ledger

  /** Shares that may be credited: what is due to participants of one closed epoch. */
  ghost predicate ShareOk(db: Db, terms: Terms, share: Share)
  {
    exists p :: p in ScoresOf(db, terms) && p.userId == share.userId && share.points == Due(db, terms)(p)
  }

  /** The closed epoch a run credits. */
  ghost predicate Payable(plan: Plan, db: Db, terms: Terms)
  {
    WellFormedPlan(plan) && terms.epoch.id in plan && plan[terms.epoch.id] == terms && Closed(db, terms.epoch.id)
  }

  lemma CreditOneKeepsLedger(plan: Plan, db: Db, terms: Terms, share: Share)
    requires LedgerOk(plan, db) && Payable(plan, db, terms) && ShareOk(db, terms, share)
    ensures LedgerOk(plan, db.(ledger := CreditOne(db.ledger, terms.epoch.id, share)))
    ensures share.points > 0 ==> Credited(CreditOne(db.ledger, terms.epoch.id, share), AllocationId(terms.epoch.id, share.userId))
  {
    var id := terms.epoch.id;
    var rows := CreditOne(db.ledger, id, share);
    var db' := db.(ledger := rows);
    forall row | row in rows ensures RowOk(plan, db', row) {
      if row in db.ledger {
        RowStaysOk(plan, db, db', row);
      } else {
        var p :| p in ScoresOf(db, terms) && p.userId == share.userId && share.points == Due(db, terms)(p);
        assert RowPays(db', terms, row, p);
      }
    }
    if share.points > 0 && !Credited(db.ledger, AllocationId(id, share.userId)) {
      assert rows[|rows| - 1].allocationId == AllocationId(id, share.userId);
    }
  }

  lemma CreditStays(rows: seq<LedgerRow>, rows': seq<LedgerRow>, allocationId: string)
    requires rows <= rows' && Credited(rows, allocationId)
    ensures Credited(rows', allocationId)
  {
    var row :| row in rows && row.allocationId == allocationId;
    assert row in rows';
  }

  lemma {:induction false} CreditingKeepsLedger(plan: Plan, db: Db, terms: Terms, shares: seq<Share>)
    requires LedgerOk(plan, db) && Payable(plan, db, terms)
    requires forall share | share in shares :: ShareOk(db, terms, share)
    ensures LedgerOk(plan, db.(ledger := InsertLedger(db.ledger, terms.epoch.id, shares)))
    ensures forall share | share in shares && share.points > 0 ::
              Credited(InsertLedger(db.ledger, terms.epoch.id, shares), AllocationId(terms.epoch.id, share.userId))
    decreases |shares|
  {
    if shares != [] {
      var id, rest := terms.epoch.id, shares[1..];
      var db' := db.(ledger := CreditOne(db.ledger, id, shares[0]));
      assert shares[0] in shares;
      CreditOneKeepsLedger(plan, db, terms, shares[0]);
      forall s | s in rest ensures ShareOk(db', terms, s) {
        assert ShareOk(db, terms, s);
      }
      CreditingKeepsLedger(plan, db', terms, rest);
      var out := InsertLedger(db'.ledger, id, rest);
      assert db'.(ledger := out) == db.(ledger := out);
      forall share | share in shares && share.points > 0 ensures Credited(out, AllocationId(id, share.userId)) {
        if share !in rest {
          assert share == shares[0];
          CreditStays(db'.ledger, out, AllocationId(id, share.userId));
        }
      }
    }
  }

  /** A run that read the rows in its own order computes the same shares. */
  lemma ShareAtIsDue(db: Db, terms: Terms, rows: seq<Participant>, i: nat)
    requires UniqueScores(db.scores) && multiset(rows) == multiset(ScoresOf(db, terms)) && i < |rows|
    ensures rows[i] in ScoresOf(db, terms)
    ensures Allocate(rows, terms.epoch.pool)[i] == Share(rows[i].userId, rows[i].score, Due(db, terms)(rows[i]))
  {
    var ps, pool := ScoresOf(db, terms), terms.epoch.pool;
    OneScorePerUser(db.scores, terms.epoch.day, terms.version);
    DistinctUnderPermutation(ps, rows);
    AllocatePaysWhatIsOwed(rows, pool, i);
    AllocationIgnoresRowOrder(rows, ps, pool, rows[i]);
    assert rows[i] in multiset(ps);
  }

  lemma SharesAreDue(db: Db, terms: Terms, rows: seq<Participant>)
    requires UniqueScores(db.scores) && multiset(rows) == multiset(ScoresOf(db, terms))
    ensures forall share | share in Allocate(rows, terms.epoch.pool) :: ShareOk(db, terms, share)
  {
    var shares := Allocate(rows, terms.epoch.pool);
    forall share | share in shares ensures ShareOk(db, terms, share) {
      var i :| 0 <= i < |shares| && shares[i] == share;
      ShareAtIsDue(db, terms, rows, i);
    }
  }

  lemma ShareOfParticipant(db: Db, terms: Terms, rows: seq<Participant>, p: Participant)
    requires UniqueScores(db.scores) && multiset(rows) == multiset(ScoresOf(db, terms))
    requires p in ScoresOf(db, terms)
    ensures Share(p.userId, p.score, Due(db, terms)(p)) in Allocate(rows, terms.epoch.pool)
  {
    assert p in multiset(rows);
    var i :| 0 <= i < |rows| && rows[i] == p;
    ShareAtIsDue(db, terms, rows, i);
  }

  /** What one store call may write, which state refuses it, and which call comes next. */
  lemma CallWrites(db: Db, run: Run, rows: seq<Participant>)
    ensures var (db', run') := Call(db, run, rows);
            var id := run.terms.epoch.id;
            && run' == run.(pc := run'.pc, rows := run'.rows)
            && match run.pc
               case ReadState =>
                 && db' == db && run'.rows == run.rows
                 && run'.pc == if run.terms.version == "usage_score_v1"
                                  && (if run.kind.FinalizeRun? then !Recorded(db, id, Settled) else Recorded(db, id, Finalizing))
                               then ReadScores else Stopped
               case ReadScores => db' == db && run'.rows == rows && run'.pc == WriteEpoch
               case WriteEpoch =>
                 && run'.rows == run.rows
                 && if db.frozen && Recorded(db, id, Settled) then db' == db && run'.pc == Stopped
                    else
                      && db' == db.(epochs := db'.epochs)
                      && RowWritten(db.epochs, db'.epochs, run.terms.epoch, if run.kind.FinalizeRun? then Finalizing else Settled,
                                    NetworkScore(run.rows), run.terms.kind)
                      && run'.pc == if run.kind.FinalizeRun? then Finished else WriteAllocations
               case WriteAllocations => db' == db.(allocations := db'.allocations) && run'.rows == run.rows && run'.pc == WriteLedger
               case WriteLedger => db' == db.(ledger := db'.ledger) && run'.rows == run.rows && run'.pc == MarkEvents
               case MarkEvents => db' == db.(events := db'.events) && run'.rows == run.rows && run'.pc == Finished
               case Finished => db' == db && run' == run
               case Stopped => db' == db && run' == run
  {
  }

  // ------------------------------------------------------------ every step keeps it

  lemma CallKeepsClosed(plan: Plan, db: Db, run: Run, rows: seq<Participant>)
    ensures ClosedKept(plan, db, Call(db, run, rows).0)
    ensures db.ledger <= Call(db, run, rows).0.ledger
    ensures Call(db, run, rows).0.scores == db.scores
  {
  }

  lemma LedgerStaysOk(plan: Plan, db: Db, db': Db)
    requires LedgerOk(plan, db) && ClosedKept(plan, db, db') && db'.ledger == db.ledger
    ensures LedgerOk(plan, db')
  {
    forall row | row in db'.ledger ensures RowOk(plan, db', row) {
      RowStaysOk(plan, db, db', row);
    }
  }

  /** The crediting step pays what is due, all of it, and nothing twice. */
  lemma WriteLedgerKeepsInv(plan: Plan, db: Db, run: Run, rows: seq<Participant>)
    requires WellFormedPlan(plan) && UniqueScores(db.scores) && LedgerOk(plan, db) && RunOk(plan, db, run)
    requires run.pc.WriteLedger?
    ensures LedgerOk(plan, Call(db, run, rows).0)
    ensures RunOk(plan, Call(db, run, rows).0, Call(db, run, rows).1)
  {
    var (db', run') := Call(db, run, rows);
    var terms := run.terms;
    SharesAreDue(db, terms, run.rows);
    CreditingKeepsLedger(plan, db, terms, Allocate(run.rows, terms.epoch.pool));
    forall p | p in ScoresOf(db', terms) && Due(db', terms)(p) > 0
      ensures Credited(db'.ledger, AllocationId(terms.epoch.id, p.userId))
    {
      ShareOfParticipant(db, terms, run.rows, p);
    }
  }

  /** Reading and writing the epoch row keep what the run has established. */
  lemma EarlyCallKeepsRun(plan: Plan, db: Db, run: Run, rows: seq<Participant>)
    requires RunOk(plan, db, run) && (run.pc.ReadState? || run.pc.ReadScores? || run.pc.WriteEpoch?)
    requires multiset(rows) == multiset(ScoresOf(db, run.terms))
    ensures RunOk(plan, Call(db, run, rows).0, Call(db, run, rows).1)
  {
  }

  lemma CallKeepsItsRun(plan: Plan, db: Db, run: Run, rows: seq<Participant>)
    requires WellFormedPlan(plan) && UniqueScores(db.scores) && LedgerOk(plan, db) && RunOk(plan, db, run)
    requires multiset(rows) == multiset(ScoresOf(db, run.terms))
    ensures LedgerOk(plan, Call(db, run, rows).0)
    ensures RunOk(plan, Call(db, run, rows).0, Call(db, run, rows).1)
  {
    if run.pc.WriteLedger? {
      WriteLedgerKeepsInv(plan, db, run, rows);
    } else {
      CallKeepsClosed(plan, db, run, rows);
      LedgerStaysOk(plan, db, Call(db, run, rows).0);
      if run.pc.ReadState? || run.pc.ReadScores? || run.pc.WriteEpoch? {
        EarlyCallKeepsRun(plan, db, run, rows);
      }
    }
  }

  lemma StepKeepsInv(plan: Plan, s: System, a: Action)
    requires Inv(plan, s) && Legal(plan, s, a)
    ensures Inv(plan, Apply(plan, s, a))
    ensures ClosedKept(plan, s.db, Apply(plan, s, a).db)
    ensures s.db.ledger <= Apply(plan, s, a).db.ledger
  {
    var s' := Apply(plan, s, a);
    match a {
      case Start(kind, id) =>
        RunListKept(plan, s.db, s'.db, s.runs, s'.runs);
      case Advance(i, rows) =>
        CallKeepsClosed(plan, s.db, s.runs[i], rows);
        CallKeepsItsRun(plan, s.db, s.runs[i], rows);
        RunListKept(plan, s.db, s'.db, s.runs, s'.runs);
      case Stop(i) =>
        assert RunOk(plan, s.db, s.runs[i]);
        RunListKept(plan, s.db, s'.db, s.runs, s'.runs);
      case Rescore(scores, events) =>
        forall id | id in plan && Closed(s.db, id)
          ensures multiset(ScoresOf(s'.db, plan[id])) == multiset(ScoresOf(s.db, plan[id]))
        {
          assert ScoresOf(s'.db, plan[id]) == ScoresOf(s.db.(scores := scores), plan[id]);
        }
        LedgerStaysOk(plan, s.db, s'.db);
        RunListKept(plan, s.db, s'.db, s.runs, s'.runs);
    }
  }

  /** Runs that are in the old list stay in order; the others must be shown in order. */
  lemma RunListKept(plan: Plan, db: Db, db': Db, runs: seq<Run>, runs': seq<Run>)
    requires ClosedKept(plan, db, db') && db.ledger <= db'.ledger
    requires forall run | run in runs :: RunOk(plan, db, run)
    requires forall run | run in runs' :: run in runs || RunOk(plan, db', run)
    ensures forall run | run in runs' :: RunOk(plan, db', run)
  {
    forall run | run in runs' ensures RunOk(plan, db', run) {
      if run in runs {
        RunStaysOk(plan, db, db', run);
      }
    }
  }

  // ------------------------------------------------------------------- over runs

  lemma {:induction false} HistoryKeepsInv(plan: Plan, s: System, history: seq<Action>)
    requires Inv(plan, s) && LegalHistory(plan, s, history)
    ensures Inv(plan, Replay(plan, s, history))
    ensures ClosedKept(plan, s.db, Replay(plan, s, history).db)
    ensures s.db.ledger <= Replay(plan, s, history).db.ledger
    decreases |history|
  {
    if history != [] {
      var s' := Apply(plan, s, history[0]);
      StepKeepsInv(plan, s, history[0]);
      HistoryKeepsInv(plan, s', history[1..]);
    }
  }

  /** The ledger rows of one epoch. */
  function RowsOf(rows: seq<LedgerRow>, epochId: string): (out: seq<LedgerRow>)
    ensures forall row :: row in out <==> row in rows && row.epochId == epochId
  {
    if rows == [] then []
    else if rows[0].epochId == epochId then [rows[0]] + RowsOf(rows[1..], epochId)
    else RowsOf(rows[1..], epochId)
  }

  function AmountTerm(): LedgerRow -> int
  {
    (row: LedgerRow) => row.amount
  }

  function LedgerTotal(rows: seq<LedgerRow>, epochId: string): int
  {
    Sum(RowsOf(rows, epochId), AmountTerm())
  }

  lemma {:induction false} RowsOfDistinct(rows: seq<LedgerRow>, epochId: string)
    requires DistinctIds(rows)
    ensures DistinctIds(RowsOf(rows, epochId))
  {
    if rows != [] {
      RowsOfDistinct(rows[1..], epochId);
    }
  }

  lemma RowsOfPay(plan: Plan, db: Db, id: string)
    requires LedgerOk(plan, db) && id in plan
    ensures DistinctIds(RowsOf(db.ledger, id))
    ensures forall row | row in RowsOf(db.ledger, id) ::
              row.allocationId == AllocationId(id, row.userId) && exists p :: RowPays(db, plan[id], row, p)
  {
    RowsOfDistinct(db.ledger, id);
    forall row | row in RowsOf(db.ledger, id)
      ensures row.allocationId == AllocationId(id, row.userId) && exists p :: RowPays(db, plan[id], row, p)
    {
      assert RowOk(plan, db, row);
    }
  }

  /** The participants the rows of an epoch pay, in ledger order. */
  lemma {:induction false} PaidParticipants(db: Db, terms: Terms, rows: seq<LedgerRow>) returns (paid: seq<Participant>)
    requires DistinctIds(rows)
    requires forall row | row in rows ::
      row.allocationId == AllocationId(terms.epoch.id, row.userId) && exists p :: RowPays(db, terms, row, p)
    ensures |paid| == |rows| && forall i | 0 <= i < |rows| :: RowPays(db, terms, rows[i], paid[i])
    ensures NoRepeats(paid)
    ensures Sum(rows, AmountTerm()) == Sum(paid, Due(db, terms))
  {
    if rows == [] {
      paid := [];
    } else {
      assert rows[0] in rows;
      var p :| RowPays(db, terms, rows[0], p);
      var rest := PaidParticipants(db, terms, rows[1..]);
      paid := [p] + rest;
      assert paid[1..] == rest;
      forall i | 0 <= i < |rows| ensures RowPays(db, terms, rows[i], paid[i]) {
        if i > 0 {
          assert RowPays(db, terms, rows[1..][i - 1], rest[i - 1]);
        }
      }
      PaidDiffer(db, terms, rows, paid);
    }
  }

  /** Rows with different allocation ids of one epoch pay different participants. */
  lemma PaidDiffer(db: Db, terms: Terms, rows: seq<LedgerRow>, paid: seq<Participant>)
    requires DistinctIds(rows) && forall row | row in rows :: row.allocationId == AllocationId(terms.epoch.id, row.userId)
    requires |paid| == |rows| && forall i | 0 <= i < |rows| :: RowPays(db, terms, rows[i], paid[i])
    ensures NoRepeats(paid)
  {
    forall i, j | 0 <= i < j < |paid| ensures paid[i] != paid[j] {
      assert RowPays(db, terms, rows[i], paid[i]) && RowPays(db, terms, rows[j], paid[j]);
      assert rows[i] in rows && rows[j] in rows;
    }
  }

  /**
   * Whatever the interleaving and wherever runs stopped: the ledger holds every
   * allocation id once, pays only what the closed scores determine, and never
   * more than the pool in one epoch.
   */
  lemma LedgerIsSafe(plan: Plan, s: System, history: seq<Action>, id: string)
    requires Inv(plan, s) && LegalHistory(plan, s, history) && id in plan
    ensures var db := Replay(plan, s, history).db;
            LedgerOk(plan, db) && LedgerTotal(db.ledger, id) <= plan[id].epoch.pool
  {
    HistoryKeepsInv(plan, s, history);
    PoolIsNotExceeded(plan, Replay(plan, s, history).db, id);
  }

  lemma PoolIsNotExceeded(plan: Plan, db: Db, id: string)
    requires WellFormedPlan(plan) && UniqueScores(db.scores) && LedgerOk(plan, db) && id in plan
    ensures LedgerTotal(db.ledger, id) <= plan[id].epoch.pool
  {
    var terms, rows := plan[id], RowsOf(db.ledger, id);
    var ps := ScoresOf(db, terms);
    RowsOfPay(plan, db, id);
    var paid := PaidParticipants(db, terms, rows);
    OneScorePerUser(db.scores, terms.epoch.day, terms.version);
    OwedSumsToPool(ps, terms.epoch.pool);
    DueIsNatural(db, terms);
    SumOfPart(paid, ps, Due(db, terms));
  }

  lemma DueIsNatural(db: Db, terms: Terms)
    ensures forall p :: Due(db, terms)(p) >= 0
  {
    forall p ensures Due(db, terms)(p) >= 0 {
      if NetworkScore(ScoresOf(db, terms)) > 0 {
        QuotaIsRespected(ScoresOf(db, terms), terms.epoch.pool, p);
      }
    }
  }

  /** A participant the ledger credits is among those its rows pay. */
  lemma CreditReachesRow(plan: Plan, db: Db, terms: Terms, rows: seq<LedgerRow>, paid: seq<Participant>, p: Participant)
    requires WellFormedPlan(plan) && IdsApart(plan) && UniqueScores(db.scores) && LedgerOk(plan, db)
    requires terms.epoch.id in plan && plan[terms.epoch.id] == terms && rows == RowsOf(db.ledger, terms.epoch.id)
    requires |paid| == |rows| && forall i | 0 <= i < |rows| :: RowPays(db, terms, rows[i], paid[i])
    requires p in ScoresOf(db, terms) && Credited(db.ledger, AllocationId(terms.epoch.id, p.userId))
    ensures p in paid
  {
    var row := RowOfCredit(plan, db, terms, p.userId);
    var i :| 0 <= i < |rows| && rows[i] == row;
    assert RowPays(db, terms, rows[i], paid[i]);
    OneScorePerUser(db.scores, terms.epoch.day, terms.version);
    SameUserSameRow(ScoresOf(db, terms), paid[i], p);
    assert paid[i] in paid;
  }

  /** The row behind a credited allocation id is one of its epoch, for its user. */
  lemma RowOfCredit(plan: Plan, db: Db, terms: Terms, userId: string) returns (row: LedgerRow)
    requires IdsApart(plan) && LedgerOk(plan, db) && terms.epoch.id in plan
    requires Credited(db.ledger, AllocationId(terms.epoch.id, userId))
    ensures row in RowsOf(db.ledger, terms.epoch.id) && row.userId == userId
  {
    row :| row in db.ledger && row.allocationId == AllocationId(terms.epoch.id, userId);
    assert RowOk(plan, db, row);
    AllocationIdIsInjective(row.epochId, row.userId, terms.epoch.id, userId);
  }

  /**
   * Once any settle run has been through its ledger call the epoch is paid in
   * full: its rows sum to the pool exactly when anybody scored.
   */
  lemma FinishedSettlementPaysPool(plan: Plan, s: System, history: seq<Action>, run: Run)
    requires Inv(plan, s) && LegalHistory(plan, s, history)
    requires run in Replay(plan, s, history).runs && run.kind.SettleRun? && (run.pc.MarkEvents? || run.pc.Finished?)
    ensures var db := Replay(plan, s, history).db;
            LedgerTotal(db.ledger, run.terms.epoch.id)
              == if NetworkScore(ScoresOf(db, run.terms)) > 0 then run.terms.epoch.pool else 0
  {
    var db := Replay(plan, s, history).db;
    HistoryKeepsInv(plan, s, history);
    assert RunOk(plan, db, run);
    FullCreditIsPool(plan, db, run.terms);
  }

  lemma FullCreditIsPool(plan: Plan, db: Db, terms: Terms)
    requires WellFormedPlan(plan) && IdsApart(plan) && UniqueScores(db.scores) && LedgerOk(plan, db)
    requires terms.epoch.id in plan && plan[terms.epoch.id] == terms && FullyCredited(db, terms)
    ensures LedgerTotal(db.ledger, terms.epoch.id) == if NetworkScore(ScoresOf(db, terms)) > 0 then terms.epoch.pool else 0
  {
    var id, ps := terms.epoch.id, ScoresOf(db, terms);
    var rows := RowsOf(db.ledger, id);
    RowsOfPay(plan, db, id);
    var paid := PaidParticipants(db, terms, rows);
    forall p | p in ps && Due(db, terms)(p) > 0 ensures p in paid {
      CreditReachesRow(plan, db, terms, rows, paid, p);
    }
    OneScorePerUser(db.scores, terms.epoch.day, terms.version);
    OwedSumsToPool(ps, terms.epoch.pool);
    DueIsNatural(db, terms);
    SumOfPart(paid, ps, Due(db, terms));
  }

  /**
   * From a store in which nothing is recorded no assumption about its state is
   * left: under any interleaving the ledger is sound and within the pool, and
   * every settlement that got past its ledger call has paid the pool exactly.
   */
  lemma FreshStoreIsSafe(plan: Plan, s: System, history: seq<Action>, id: string)
    requires Fresh(s) && WellFormedPlan(plan) && IdsApart(plan) && LegalHistory(plan, s, history) && id in plan
    ensures var t := Replay(plan, s, history);
            && LedgerOk(plan, t.db) && LedgerTotal(t.db.ledger, id) <= plan[id].epoch.pool
            && forall run | run in t.runs && run.kind.SettleRun? && (run.pc.MarkEvents? || run.pc.Finished?) ::
                 LedgerTotal(t.db.ledger, run.terms.epoch.id)
                   == if NetworkScore(ScoresOf(t.db, run.terms)) > 0 then run.terms.epoch.pool else 0
  {
    var t := Replay(plan, s, history);
    assert Inv(plan, s);
    LedgerIsSafe(plan, s, history, id);
    forall run | run in t.runs && run.kind.SettleRun? && (run.pc.MarkEvents? || run.pc.Finished?)
      ensures LedgerTotal(t.db.ledger, run.terms.epoch.id)
                == if NetworkScore(ScoresOf(t.db, run.terms)) > 0 then run.terms.epoch.pool else 0
    {
      FinishedSettlementPaysPool(plan, s, history, run);
    }
  }

  // --------------------------------------------------------- closed stays closed

  function StateRank(state: EpochState): nat
  {
    match state case Open => 0 case Finalizing => 1 case Settled => 2
  }

  /** No epoch goes back, and a settled row is never written again. */
  ghost predicate Forward(db: Db, db': Db)
  {
    && (forall id :: StateRank(StateOf(db, id)) <= StateRank(StateOf(db', id)))
    && (forall id | id in db.epochs && StateOf(db, id) == Settled :: id in db'.epochs && db'.epochs[id] == db.epochs[id])
  }

  lemma {:induction false} FrozenHistoryMovesForward(plan: Plan, s: System, history: seq<Action>)
    requires s.db.frozen
    ensures Forward(s.db, Replay(plan, s, history).db)
    decreases |history|
  {
    if history != [] {
      var s' := Apply(plan, s, history[0]);
      FrozenStepMovesForward(plan, s, history[0]);
      FrozenHistoryMovesForward(plan, s', history[1..]);
    }
  }

  lemma FrozenCallMovesForward(db: Db, run: Run, rows: seq<Participant>)
    requires db.frozen
    ensures Forward(db, Call(db, run, rows).0) && Call(db, run, rows).0.frozen
  {
    var db' := Call(db, run, rows).0;
    if !run.pc.WriteEpoch? {
      assert db'.epochs == db.epochs;
    }
  }

  lemma FrozenStepMovesForward(plan: Plan, s: System, a: Action)
    requires s.db.frozen
    ensures Forward(s.db, Apply(plan, s, a).db) && Apply(plan, s, a).db.frozen
  {
    if a.Advance? && a.run < |s.runs| {
      FrozenCallMovesForward(s.db, s.runs[a.run], a.rows);
    }
  }

  ghost predicate Reachable(plan: Plan, s: System, t: System)
  {
    exists history :: LegalHistory(plan, s, history) && Replay(plan, s, history) == t
  }

  lemma {:induction false} HistoryExtends(plan: Plan, s: System, history: seq<Action>, a: Action)
    requires LegalHistory(plan, s, history) && Legal(plan, Replay(plan, s, history), a)
    ensures LegalHistory(plan, s, history + [a])
    ensures Replay(plan, s, history + [a]) == Apply(plan, Replay(plan, s, history), a)
    decreases |history|
  {
    if history == [] {
      assert history + [a] == [a];
      assert [a][1..] == [];
    } else {
      HistoryExtends(plan, Apply(plan, s, history[0]), history[1..], a);
      assert (history + [a])[1..] == history[1..] + [a];
    }
  }

  lemma ReachStep(plan: Plan, s: System, t: System, a: Action)
    requires Reachable(plan, s, t) && Legal(plan, t, a)
    ensures Reachable(plan, s, Apply(plan, t, a))
  {
    var history :| LegalHistory(plan, s, history) && Replay(plan, s, history) == t;
    HistoryExtends(plan, s, history, a);
  }

  function EmptySystem(frozen: bool): System
  {
    System(Db(map[], [], [], [], [], [], map[], frozen), [])
  }

  /** Let run `i` make one more call on tables without scores. */
  lemma Advanced(plan: Plan, s: System, t: System, i: nat) returns (u: System)
    requires Reachable(plan, s, t) && t.db.scores == [] && i < |t.runs|
    ensures Reachable(plan, s, u) && u == System(Call(t.db, t.runs[i], []).0, t.runs[i := Call(t.db, t.runs[i], []).1])
  {
    ReachStep(plan, s, t, Advance(i, []));
    u := Apply(plan, t, Advance(i, []));
  }

  lemma Started(plan: Plan, s: System, t: System, kind: Kind, id: string) returns (u: System)
    requires Reachable(plan, s, t) && id in plan
    ensures Reachable(plan, s, u) && u == System(t.db, t.runs + [Run(kind, plan[id], ReadState, [])])
  {
    ReachStep(plan, s, t, Start(kind, id));
    u := Apply(plan, t, Start(kind, id));
  }

  /**
   * Without the trigger a finalize run that read the state early and writes it
   * late takes a settled epoch back to finalizing.
   */
  lemma UnfrozenRowMovesBack(plan: Plan, id: string) returns (t: System)
    requires WellFormedPlan(plan) && id in plan && IsActiveScoringVersion(plan[id].version)
    ensures Reachable(plan, EmptySystem(false), t) && StateOf(t.db, id) == Settled
    ensures |t.runs| > 0 && Legal(plan, t, Advance(0, [])) && StateOf(Apply(plan, t, Advance(0, [])).db, id) == Finalizing
  {
    var s := EmptySystem(false);
    assert LegalHistory(plan, s, []) && Replay(plan, s, []) == s;
    t := Started(plan, s, s, FinalizeRun, id);   // run 0 reads the state and the scores, then waits
    t := Advanced(plan, s, t, 0);
    t := Advanced(plan, s, t, 0);
    t := Started(plan, s, t, FinalizeRun, id);   // run 1 finalizes
    t := Advanced(plan, s, t, 1);
    t := Advanced(plan, s, t, 1);
    t := Advanced(plan, s, t, 1);
    t := Started(plan, s, t, SettleRun, id);     // run 2 settles
    t := Advanced(plan, s, t, 2);
    t := Advanced(plan, s, t, 2);
    t := Advanced(plan, s, t, 2);
  }

  /** Epochs only move forward under every interleaving exactly when settled rows are frozen. */
  lemma ForwardExactlyWhenFrozen(plan: Plan, id: string, frozen: bool)
    requires WellFormedPlan(plan) && id in plan && IsActiveScoringVersion(plan[id].version)
    ensures frozen <==> forall t, a :: Reachable(plan, EmptySystem(frozen), t) && Legal(plan, t, a)
                                 ==> Forward(t.db, Apply(plan, t, a).db)
  {
    if frozen {
      forall t, a | Reachable(plan, EmptySystem(frozen), t) && Legal(plan, t, a)
        ensures Forward(t.db, Apply(plan, t, a).db)
      {
        var history :| LegalHistory(plan, EmptySystem(true), history) && Replay(plan, EmptySystem(true), history) == t;
        ReplayKeepsFrozen(plan, EmptySystem(true), history);
        FrozenStepMovesForward(plan, t, a);
      }
    } else {
      var t := UnfrozenRowMovesBack(plan, id);
      var db' := Apply(plan, t, Advance(0, [])).db;
      assert StateRank(StateOf(t.db, id)) > StateRank(StateOf(db', id));
      assert !Forward(t.db, db');
    }
  }

  lemma {:induction false} ReplayKeepsFrozen(plan: Plan, s: System, history: seq<Action>)
    ensures Replay(plan, s, history).db.frozen == s.db.frozen
    decreases |history|
  {
    if history != [] {
      ReplayKeepsFrozen(plan, Apply(plan, s, history[0]), history[1..]);
    }
  }

  /** A settled row records the network score its ledger rows were computed from. */
  ghost predicate SettledRowsAgree(plan: Plan, db: Db)
  {
    forall id | id in plan && StateOf(db, id) == Settled ::
      db.epochs[id].networkScore == NetworkScore(ScoresOf(db, plan[id])) && db.epochs[id].pool == plan[id].epoch.pool
  }

  lemma {:induction false} SettledRowIsWhatWasPaid(plan: Plan, s: System, history: seq<Action>)
    requires s.db.frozen && Inv(plan, s) && SettledRowsAgree(plan, s.db) && LegalHistory(plan, s, history)
    ensures SettledRowsAgree(plan, Replay(plan, s, history).db)
    decreases |history|
  {
    if history != [] {
      StepKeepsInv(plan, s, history[0]);
      FrozenStepMovesForward(plan, s, history[0]);
      SettledRowStep(plan, s, history[0]);
      SettledRowIsWhatWasPaid(plan, Apply(plan, s, history[0]), history[1..]);
    }
  }

  lemma NetworkIsKept(db: Db, db': Db, terms: Terms)
    requires multiset(ScoresOf(db', terms)) == multiset(ScoresOf(db, terms))
    ensures NetworkScore(ScoresOf(db', terms)) == NetworkScore(ScoresOf(db, terms))
  {
    AllocationIgnoresRowOrder(ScoresOf(db', terms), ScoresOf(db, terms), 0, Participant("", 0));
  }

  /** The call that settles an epoch writes the score of the rows it pays. */
  lemma SettlingCallAgrees(plan: Plan, db: Db, run: Run, rows: seq<Participant>, id: string)
    requires WellFormedPlan(plan) && RunOk(plan, db, run) && id in plan
    requires StateOf(db, id) != Settled && StateOf(Call(db, run, rows).0, id) == Settled
    ensures var db' := Call(db, run, rows).0;
            db'.epochs[id].networkScore == NetworkScore(ScoresOf(db, plan[id])) && db'.epochs[id].pool == plan[id].epoch.pool
  {
    assert run.pc.WriteEpoch? && run.kind.SettleRun? && run.terms.epoch.id == id;
    AllocationIgnoresRowOrder(run.rows, ScoresOf(db, run.terms), 0, Participant("", 0));
  }

  lemma SettledRowStep(plan: Plan, s: System, a: Action)
    requires s.db.frozen && Inv(plan, s) && SettledRowsAgree(plan, s.db) && Legal(plan, s, a)
    ensures SettledRowsAgree(plan, Apply(plan, s, a).db)
  {
    var db' := Apply(plan, s, a).db;
    StepKeepsInv(plan, s, a);
    FrozenStepMovesForward(plan, s, a);
    forall id | id in plan && StateOf(db', id) == Settled
      ensures db'.epochs[id].networkScore == NetworkScore(ScoresOf(db', plan[id]))
      ensures db'.epochs[id].pool == plan[id].epoch.pool
    {
      if StateOf(s.db, id) == Settled {
        NetworkIsKept(s.db, db', plan[id]);
      } else {
        assert a.Advance? && RunOk(plan, s.db, s.runs[a.run]);
        SettlingCallAgrees(plan, s.db, s.runs[a.run], a.rows, id);
        CallKeepsTerms(s.db, s.runs[a.run], a.rows);
      }
    }
  }

  // ------------------------------------------------ a settlement that stops half way

  /** No run of the epoch is on its way to the ledger. */
  ghost predicate NobodyCredits(runs: seq<Run>, id: string)
  {
    forall run | run in runs && run.terms.epoch.id == id :: !run.pc.WriteAllocations? && !run.pc.WriteLedger?
  }

  lemma {:induction false} RowsOfConcat(a: seq<LedgerRow>, b: seq<LedgerRow>, id: string)
    ensures RowsOf(a + b, id) == RowsOf(a, id) + RowsOf(b, id)
  {
    if a == [] {
      assert a + b == b;
    } else {
      assert (a + b)[1..] == a[1..] + b;
      RowsOfConcat(a[1..], b, id);
    }
  }

  /** Crediting one epoch leaves the rows of every other alone. */
  lemma {:induction false} CreditingLeavesOthers(rows: seq<LedgerRow>, epochId: string, shares: seq<Share>, id: string)
    requires epochId != id
    ensures RowsOf(InsertLedger(rows, epochId, shares), id) == RowsOf(rows, id)
    decreases |shares|
  {
    if shares != [] {
      var next := CreditOne(rows, epochId, shares[0]);
      if next != rows {
        var row := next[|rows|];
        assert next == rows + [row] && row.epochId == epochId;
        RowsOfConcat(rows, [row], id);
        assert [row][1..] == [];
      }
      CreditingLeavesOthers(next, epochId, shares[1..], id);
    }
  }

  /** Only the ledger call of one of its own runs changes the rows of an epoch. */
  lemma OnlyItsCreditsChangeRows(plan: Plan, s: System, a: Action, id: string)
    requires Legal(plan, s, a)
    requires !(a.Advance? && s.runs[a.run].pc.WriteLedger? && s.runs[a.run].terms.epoch.id == id)
    ensures RowsOf(Apply(plan, s, a).db.ledger, id) == RowsOf(s.db.ledger, id)
  {
    if a.Advance? {
      CallWrites(s.db, s.runs[a.run], a.rows);
    }
    if a.Advance? && s.runs[a.run].pc.WriteLedger? {
      var run := s.runs[a.run];
      CreditingLeavesOthers(s.db.ledger, run.terms.epoch.id, Allocate(run.rows, run.terms.epoch.pool), id);
    }
  }

  /** Past a frozen settled row no run gets on its way to the ledger. */
  lemma CallStaysAway(db: Db, run: Run, rows: seq<Participant>)
    requires db.frozen && StateOf(db, run.terms.epoch.id) == Settled && !run.pc.WriteAllocations? && !run.pc.WriteLedger?
    ensures var run' := Call(db, run, rows).1;
            run'.terms == run.terms && !run'.pc.WriteAllocations? && !run'.pc.WriteLedger?
  {
  }

  lemma StepKeepsAway(plan: Plan, s: System, a: Action, id: string)
    requires Legal(plan, s, a) && s.db.frozen && StateOf(s.db, id) == Settled && NobodyCredits(s.runs, id)
    ensures NobodyCredits(Apply(plan, s, a).runs, id)
  {
    var s' := Apply(plan, s, a);
    forall run' | run' in s'.runs && run'.terms.epoch.id == id ensures !run'.pc.WriteAllocations? && !run'.pc.WriteLedger? {
      if run' !in s.runs && a.Advance? {
        CallKeepsTerms(s.db, s.runs[a.run], a.rows);
        assert s.runs[a.run] in s.runs;
        CallStaysAway(s.db, s.runs[a.run], a.rows);
      } else if run' !in s.runs && a.Stop? {
        assert run' == s.runs[a.run].(pc := Stopped);
      }
    }
  }

  /**
   * Once a settled row is frozen and no run of its epoch is on its way to the
   * ledger, nothing that may happen later changes the rows of the epoch.
   */
  lemma {:induction false} SettledRowsStand(plan: Plan, s: System, history: seq<Action>, id: string)
    requires LegalHistory(plan, s, history) && s.db.frozen && StateOf(s.db, id) == Settled && NobodyCredits(s.runs, id)
    ensures RowsOf(Replay(plan, s, history).db.ledger, id) == RowsOf(s.db.ledger, id)
    decreases |history|
  {
    if history != [] {
      var a := history[0];
      if a.Advance? {
        assert s.runs[a.run] in s.runs;
      }
      OnlyItsCreditsChangeRows(plan, s, a, id);
      StepKeepsAway(plan, s, a, id);
      FrozenStepMovesForward(plan, s, a);
      SettledRowsStand(plan, Apply(plan, s, a), history[1..], id);
    }
  }

  /** An epoch has no rows at all, or a row for everything that is due. */
  ghost predicate AllOrNothing(plan: Plan, db: Db, id: string)
  {
    id in plan && (RowsOf(db.ledger, id) == [] || FullyCredited(db, plan[id]))
  }

  lemma RowsNeedClosing(plan: Plan, db: Db, id: string)
    requires LedgerOk(plan, db) && RowsOf(db.ledger, id) != []
    ensures id in plan && Closed(db, id)
  {
    var row := RowsOf(db.ledger, id)[0];
    assert row in RowsOf(db.ledger, id);
    assert RowOk(plan, db, row);
  }

  lemma FullCreditStays(plan: Plan, db: Db, db': Db, id: string)
    requires ClosedKept(plan, db, db') && db.ledger <= db'.ledger && id in plan && Closed(db, id) && FullyCredited(db, plan[id])
    ensures FullyCredited(db', plan[id])
  {
    var terms := plan[id];
    DueIsKept(db, db', terms);
    forall p | p in ScoresOf(db', terms) && Due(db', terms)(p) > 0
      ensures Credited(db'.ledger, AllocationId(terms.epoch.id, p.userId))
    {
      CreditStays(db.ledger, db'.ledger, AllocationId(terms.epoch.id, p.userId));
    }
  }

  lemma StepKeepsAllOrNothing(plan: Plan, s: System, a: Action, id: string)
    requires Inv(plan, s) && Legal(plan, s, a) && AllOrNothing(plan, s.db, id)
    ensures AllOrNothing(plan, Apply(plan, s, a).db, id)
  {
    if a.Advance? && s.runs[a.run].pc.WriteLedger? && s.runs[a.run].terms.epoch.id == id {
      assert s.runs[a.run] in s.runs;
      CreditCallCredits(plan, s.db, s.runs[a.run], a.rows);
    } else {
      OtherStepKeepsAllOrNothing(plan, s, a, id);
    }
  }

  lemma CreditCallCredits(plan: Plan, db: Db, run: Run, rows: seq<Participant>)
    requires WellFormedPlan(plan) && UniqueScores(db.scores) && LedgerOk(plan, db) && RunOk(plan, db, run) && run.pc.WriteLedger?
    ensures AllOrNothing(plan, Call(db, run, rows).0, run.terms.epoch.id)
  {
    WriteLedgerKeepsInv(plan, db, run, rows);
    CallWrites(db, run, rows);
    assert Settling(Call(db, run, rows).1);
  }

  lemma OtherStepKeepsAllOrNothing(plan: Plan, s: System, a: Action, id: string)
    requires Inv(plan, s) && Legal(plan, s, a) && AllOrNothing(plan, s.db, id)
    requires !(a.Advance? && s.runs[a.run].pc.WriteLedger? && s.runs[a.run].terms.epoch.id == id)
    ensures AllOrNothing(plan, Apply(plan, s, a).db, id)
  {
    OnlyItsCreditsChangeRows(plan, s, a, id);
    if RowsOf(s.db.ledger, id) != [] {
      StepKeepsInv(plan, s, a);
      RowsNeedClosing(plan, s.db, id);
      FullCreditStays(plan, s.db, Apply(plan, s, a).db, id);
    }
  }

  lemma {:induction false} HistoryKeepsAllOrNothing(plan: Plan, s: System, history: seq<Action>, id: string)
    requires Inv(plan, s) && LegalHistory(plan, s, history) && AllOrNothing(plan, s.db, id)
    ensures AllOrNothing(plan, Replay(plan, s, history).db, id)
    decreases |history|
  {
    if history != [] {
      StepKeepsAllOrNothing(plan, s, history[0], id);
      StepKeepsInv(plan, s, history[0]);
      HistoryKeepsAllOrNothing(plan, Apply(plan, s, history[0]), history[1..], id);
    }
  }

  /**
   * A settled epoch is paid whole or not at all. With settled rows frozen, and no
   * run of it on its way to the ledger, that is final: it is paid, now and after
   * whatever may happen later, exactly if it has a ledger row.
   */
  lemma SettledIsPaidWholeOrNever(plan: Plan, s: System, history: seq<Action>, later: seq<Action>, id: string)
    requires Fresh(s) && s.db.frozen && WellFormedPlan(plan) && IdsApart(plan) && id in plan
    requires LegalHistory(plan, s, history) && LegalHistory(plan, Replay(plan, s, history), later)
    requires StateOf(Replay(plan, s, history).db, id) == Settled && NobodyCredits(Replay(plan, s, history).runs, id)
    ensures var t := Replay(plan, s, history);
            var end, owed := Replay(plan, t, later).db, NetworkScore(ScoresOf(t.db, plan[id])) > 0 && plan[id].epoch.pool > 0;
            && RowsOf(end.ledger, id) == RowsOf(t.db.ledger, id)
            && LedgerTotal(end.ledger, id) == (if owed && RowsOf(t.db.ledger, id) != [] then plan[id].epoch.pool else 0)
  {
    var t := Replay(plan, s, history);
    assert Inv(plan, s);
    HistoryKeepsInv(plan, s, history);
    HistoryKeepsAllOrNothing(plan, s, history, id);
    ReplayKeepsFrozen(plan, s, history);
    SettledRowsStand(plan, t, later, id);
    if RowsOf(t.db.ledger, id) != [] {
      FullCreditIsPool(plan, t.db, plan[id]);
    }
  }

  /** One row of score for the epoch. */
  function OneScore(terms: Terms): seq<ScoreRow>
  {
    [ScoreRow("u", terms.epoch.day, terms.version, Score(0, 0, 0, 1, None))]
  }

  /** Let run `i` make one more call, on the scores as they are. */
  lemma Called(plan: Plan, s: System, t: System, i: nat) returns (u: System)
    requires Reachable(plan, s, t) && i < |t.runs|
    ensures var rows := ScoresOf(t.db, t.runs[i].terms);
            Reachable(plan, s, u) && u == System(Call(t.db, t.runs[i], rows).0, t.runs[i := Call(t.db, t.runs[i], rows).1])
  {
    ReachStep(plan, s, t, Advance(i, ScoresOf(t.db, t.runs[i].terms)));
    u := Apply(plan, t, Advance(i, ScoresOf(t.db, t.runs[i].terms)));
  }

  /** A store with one row of score for an epoch, which is finalizing, and nothing credited. */
  ghost predicate Awaits(plan: Plan, t: System, id: string)
  {
    && id in plan && Reachable(plan, EmptySystem(true), t) && t.db.frozen && t.db.scores == OneScore(plan[id]) && t.db.ledger == []
    && StateOf(t.db, id) == Finalizing && |t.runs| == 1 && t.runs[0].pc.Finished?
  }

  lemma Finalizes(plan: Plan, id: string) returns (t: System)
    requires WellFormedPlan(plan) && id in plan && IsActiveScoringVersion(plan[id].version)
    ensures Awaits(plan, t, id)
  {
    var s := EmptySystem(true);
    assert LegalHistory(plan, s, []) && Replay(plan, s, []) == s;
    ReachStep(plan, s, s, Rescore(OneScore(plan[id]), []));
    t := Apply(plan, s, Rescore(OneScore(plan[id]), []));
    t := Started(plan, s, t, FinalizeRun, id);
    t := Called(plan, s, t, 0);
    assert t.runs[0] == Run(FinalizeRun, plan[id], ReadScores, []);
    t := Called(plan, s, t, 0);
    assert t.runs[0].pc == WriteEpoch && t.runs[0].kind == FinalizeRun && t.runs[0].terms == plan[id];
    t := Called(plan, s, t, 0);
  }

  /** A run settles its row and stops. */
  lemma StopsBeforeCrediting(plan: Plan, s: System, id: string) returns (t: System)
    requires WellFormedPlan(plan) && Awaits(plan, s, id) && IsActiveScoringVersion(plan[id].version)
    ensures Reachable(plan, EmptySystem(true), t) && t.db.frozen && StateOf(t.db, id) == Settled && NobodyCredits(t.runs, id)
    ensures t.db.ledger == [] && t.db.scores == OneScore(plan[id])
  {
    var empty := EmptySystem(true);
    t := Started(plan, empty, s, SettleRun, id);
    assert t.runs == [s.runs[0], Run(SettleRun, plan[id], ReadState, [])];
    t := Called(plan, empty, t, 1);
    assert t.runs == [s.runs[0], Run(SettleRun, plan[id], ReadScores, [])] && t.db == s.db;
    t := Called(plan, empty, t, 1);
    var rows := t.runs[1].rows;
    assert t.runs == [s.runs[0], Run(SettleRun, plan[id], WriteEpoch, rows)] && t.db == s.db;
    t := Called(plan, empty, t, 1);
    assert t.runs == [s.runs[0], Run(SettleRun, plan[id], WriteAllocations, rows)];
    ReachStep(plan, empty, t, Stop(1));
    t := Apply(plan, t, Stop(1));
    assert t.runs == [s.runs[0], Run(SettleRun, plan[id], Stopped, rows)];
  }

  lemma OneScoreIsRead(db: Db, terms: Terms)
    requires db.scores == OneScore(terms)
    ensures ScoresOf(db, terms) == [Participant("u", 1)] && NetworkScore(ScoresOf(db, terms)) == 1
  {
    var ps := [Participant("u", 1)];
    assert db.scores[1..] == [] && ps[1..] == [];
    assert ScoresFor(db.scores[0], terms.epoch.day, terms.version);
    assert EpochScores([], terms.epoch.day, terms.version) == [];
    assert EpochScores(db.scores, terms.epoch.day, terms.version) == ps + [];
    assert NetworkScore([]) == 0 && NetworkScore(ps) == 1;
  }

  /** It is owed the pool, and whatever happens later it is never paid a point of it. */
  lemma StoppedSettlementStaysUnpaid(plan: Plan, id: string) returns (t: System)
    requires WellFormedPlan(plan) && id in plan && IsActiveScoringVersion(plan[id].version) && plan[id].epoch.pool > 0
    ensures Reachable(plan, EmptySystem(true), t) && StateOf(t.db, id) == Settled
    ensures Sum(ScoresOf(t.db, plan[id]), Due(t.db, plan[id])) == plan[id].epoch.pool
    ensures forall later | LegalHistory(plan, t, later) :: LedgerTotal(Replay(plan, t, later).db.ledger, id) == 0
  {
    var awaiting := Finalizes(plan, id);
    t := StopsBeforeCrediting(plan, awaiting, id);
    OneScoreIsRead(t.db, plan[id]);
    OwedSumsToPool(ScoresOf(t.db, plan[id]), plan[id].epoch.pool);
    forall later | LegalHistory(plan, t, later) ensures LedgerTotal(Replay(plan, t, later).db.ledger, id) == 0 {
      SettledRowsStand(plan, t, later, id);
    }
  }

  // -------------------------------------------- the uninterrupted run is one history

  /** `n` calls of one run with nobody in between. */
  function Alone(db: Db, run: Run, rows: seq<Participant>, n: nat): (Db, Run)
    decreases n
  {
    if n == 0 then (db, run) else
      var (db', run') := Call(db, run, rows);
      Alone(db', run', rows, n - 1)
  }

  /** Calls of a lone run touch neither its terms nor the scores. */
  lemma CallKeepsTerms(db: Db, run: Run, rows: seq<Participant>)
    ensures Call(db, run, rows).1.terms == run.terms && Call(db, run, rows).0.scores == db.scores
  {
  }

  /** A run advancing alone is a history like any other. */
  lemma {:induction false} AloneIsAHistory(plan: Plan, s: System, db: Db, run: Run, rows: seq<Participant>, n: nat)
    requires Reachable(plan, s, System(db, [run])) && multiset(rows) == multiset(ScoresOf(db, run.terms))
    ensures Reachable(plan, s, System(Alone(db, run, rows, n).0, [Alone(db, run, rows, n).1]))
    decreases n
  {
    if n > 0 {
      var t, a := System(db, [run]), Advance(0, rows);
      var (db', run') := Call(db, run, rows);
      ReachStep(plan, s, t, a);
      assert Apply(plan, t, a) == System(db', [run']) by {
        assert [run][0 := run'] == [run'];
      }
      CallKeepsTerms(db, run, rows);
      AloneIsAHistory(plan, s, db', run', rows, n - 1);
    }
  }

  /** Left alone, a finalize run does what `FinalizeOutcome` says. */
  lemma AloneFinalizeIsSequential(db: Db, terms: Terms)
    ensures var (result, db') := FinalizeOutcome(db, terms.epoch, terms.version, terms.kind);
            var (db'', run) := Alone(db, Run(FinalizeRun, terms, ReadState, []), ScoresOf(db, terms), 3);
            db'' == db' && run.pc == if result.Ok? then Finished else Stopped
  {
    var rows := ScoresOf(db, terms);
    var (db1, run1) := Call(db, Run(FinalizeRun, terms, ReadState, []), rows);
    var (db2, run2) := Call(db1, run1, rows);
    var (db3, run3) := Call(db2, run2, rows);
    assert Alone(db3, run3, rows, 0) == Alone(db2, run2, rows, 1) == Alone(db1, run1, rows, 2);
  }

  lemma {:induction false} AloneInTwo(db: Db, run: Run, rows: seq<Participant>, m: nat, n: nat)
    ensures Alone(db, run, rows, m + n) == Alone(Alone(db, run, rows, m).0, Alone(db, run, rows, m).1, rows, n)
    decreases m
  {
    if m > 0 {
      var (db', run') := Call(db, run, rows);
      AloneInTwo(db', run', rows, m - 1, n);
    }
  }

  lemma LateCallsPay(db: Db, run: Run, rows: seq<Participant>)
    requires run.pc.WriteAllocations?
    ensures Alone(db, run, rows, 3) == (Paid(db, run.terms.epoch, run.rows), run.(pc := Finished))
  {
  }

  /** Left alone, a settle run does what `SettleOutcome` says. */
  lemma AloneSettleIsSequential(db: Db, terms: Terms)
    ensures var (result, db') := SettleOutcome(db, terms.epoch, terms.version, terms.kind);
            var (db'', run) := Alone(db, Run(SettleRun, terms, ReadState, []), ScoresOf(db, terms), 6);
            db'' == db' && run.pc == if result.Ok? then Finished else Stopped
  {
    var rows, run := ScoresOf(db, terms), Run(SettleRun, terms, ReadState, []);
    AloneInTwo(db, run, rows, 3, 3);
    var (db3, run3) := Alone(db, run, rows, 3);
    if !run3.pc.Stopped? {
      LateCallsPay(db3, run3, rows);
    }
  }

  /** So a settlement nobody interrupts is a history, and pays the pool exactly. */
  lemma SequentialSettlementPaysPool(plan: Plan, s: System, id: string)
    requires Inv(plan, s) && s.runs == [] && id in plan
    requires SettleOutcome(s.db, plan[id].epoch, plan[id].version, plan[id].kind).0.Ok?
    ensures var db' := SettleOutcome(s.db, plan[id].epoch, plan[id].version, plan[id].kind).1;
            && LedgerOk(plan, db')
            && LedgerTotal(db'.ledger, id) == if NetworkScore(ScoresOf(s.db, plan[id])) > 0 then plan[id].epoch.pool else 0
  {
    var terms := plan[id];
    var rows, run := ScoresOf(s.db, terms), Run(SettleRun, terms, ReadState, []);
    var (db', run') := Alone(s.db, run, rows, 6);
    AloneSettleIsSequential(s.db, terms);
    assert LegalHistory(plan, s, []) && Replay(plan, s, []) == s;
    var started := Started(plan, s, s, SettleRun, id);
    assert [] + [run] == [run];
    AloneIsAHistory(plan, s, s.db, run, rows, 6);
    AloneKeepsTerms(s.db, run, rows, 6);
    var history :| LegalHistory(plan, s, history) && Replay(plan, s, history) == System(db', [run']);
    FinishedSettlementPaysPool(plan, s, history, run');
    HistoryKeepsInv(plan, s, history);
  }

  lemma {:induction false} AloneKeepsTerms(db: Db, run: Run, rows: seq<Participant>, n: nat)
    ensures var (db', run') := Alone(db, run, rows, n);
            run'.terms == run.terms && run'.kind == run.kind && db'.scores == db.scores
    decreases n
  {
    if n > 0 {
      var (db', run') := Call(db, run, rows);
      AloneKeepsTerms(db', run', rows, n - 1);
    }
  }
}
