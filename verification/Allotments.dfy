/**
 * The allocation table under interleaved runs: one row per epoch and user, saying
 * what is due, and written before the credit that pays it.
 */
module Allotments {
  import opened Allocation
  import opened Database
  import opened Protocol

  /** An allocation row gives one participant of a closed epoch exactly what is due. */
  ghost predicate Grants(db: Db, terms: Terms, row: AllocationRow, p: Participant)
  {
    p in ScoresOf(db, terms) && p.userId == row.userId && row.points == Due(db, terms)(p)
  }

  ghost predicate GrantOk(plan: Plan, db: Db, row: AllocationRow)
  {
    row.epochId in plan && Closed(db, row.epochId) && exists p :: Grants(db, plan[row.epochId], row, p)
  }

  ghost predicate GrantsOk(plan: Plan, db: Db)
  {
    forall row | row in db.allocations :: GrantOk(plan, db, row)
  }

  ghost predicate OneGrantEach(rows: seq<AllocationRow>)
  {
    forall i, j | 0 <= i < j < |rows| :: !(rows[i].epochId == rows[j].epochId && rows[i].userId == rows[j].userId)
  }

  /** Every credit stands beside an allocation of the same amount to the same user. */
  ghost predicate CreditsAreGranted(db: Db)
  {
    forall row | row in db.ledger :: AllocationRow(row.epochId, row.userId, row.amount) in db.allocations
  }

  /** Every participant has its allocation, of nothing too. */
  ghost predicate FullyGranted(db: Db, terms: Terms)
  {
    forall p | p in ScoresOf(db, terms) :: AllocationRow(terms.epoch.id, p.userId, Due(db, terms)(p)) in db.allocations
  }

  ghost predicate RunGranted(db: Db, run: Run)
  {
    Settling(run) && (run.pc.WriteLedger? || run.pc.MarkEvents? || run.pc.Finished?) ==> FullyGranted(db, run.terms)
  }

  ghost predicate GrantInv(plan: Plan, s: System)
  {
    && Inv(plan, s) && GrantsOk(plan, s.db) && OneGrantEach(s.db.allocations) && CreditsAreGranted(s.db)
    && forall run | run in s.runs :: RunGranted(s.db, run)
  }

  // ---------------------------------------------------------- what a step leaves as it was

  lemma GrantStaysOk(plan: Plan, db: Db, db': Db, row: AllocationRow)
    requires ClosedKept(plan, db, db') && GrantOk(plan, db, row)
    ensures GrantOk(plan, db', row)
  {
    DueIsKept(db, db', plan[row.epochId]);
    var p :| Grants(db, plan[row.epochId], row, p);
    assert Grants(db', plan[row.epochId], row, p);
  }

  lemma RunStaysGranted(plan: Plan, db: Db, db': Db, run: Run)
    requires ClosedKept(plan, db, db') && RunOk(plan, db, run) && RunGranted(db, run) && db.allocations <= db'.allocations
    ensures RunGranted(db', run)
  {
    if Settling(run) {
      DueIsKept(db, db', run.terms);
    }
  }

  lemma OthersStayGranted(plan: Plan, db: Db, db': Db, runs: seq<Run>, runs': seq<Run>)
    requires ClosedKept(plan, db, db') && db.allocations <= db'.allocations
    requires forall run | run in runs :: RunOk(plan, db, run) && RunGranted(db, run)
    requires forall run | run in runs' :: run in runs || RunGranted(db', run)
    ensures forall run | run in runs' :: RunGranted(db', run)
  {
    forall run | run in runs' ensures RunGranted(db', run) {
      if run in runs {
        RunStaysGranted(plan, db, db', run);
      }
    }
  }

  lemma GrantsStayOk(plan: Plan, db: Db, db': Db)
    requires GrantsOk(plan, db) && ClosedKept(plan, db, db') && db'.allocations == db.allocations
    ensures GrantsOk(plan, db')
  {
    forall row | row in db'.allocations ensures GrantOk(plan, db', row) {
      GrantStaysOk(plan, db, db', row);
    }
  }

  // --------------------------------------------------------------- the allocating step

  /** A row that is there for a user already says what is due. */
  lemma KnownGrantIsDue(plan: Plan, db: Db, terms: Terms, share: Share, row: AllocationRow)
    requires GrantsOk(plan, db) && Payable(plan, db, terms) && UniqueScores(db.scores) && ShareOk(db, terms, share)
    requires row in db.allocations && row.epochId == terms.epoch.id && row.userId == share.userId
    ensures row == AllocationRow(terms.epoch.id, share.userId, share.points)
  {
    var p :| p in ScoresOf(db, terms) && p.userId == share.userId && share.points == Due(db, terms)(p);
    assert GrantOk(plan, db, row);
    var q :| Grants(db, terms, row, q);
    OneScorePerUser(db.scores, terms.epoch.day, terms.version);
    SameUserSameRow(ScoresOf(db, terms), p, q);
  }

  lemma NewGrantIsOk(plan: Plan, db: Db, terms: Terms, share: Share)
    requires Payable(plan, db, terms) && ShareOk(db, terms, share)
    ensures GrantOk(plan, db, AllocationRow(terms.epoch.id, share.userId, share.points))
  {
    var p :| p in ScoresOf(db, terms) && p.userId == share.userId && share.points == Due(db, terms)(p);
    assert Grants(db, terms, AllocationRow(terms.epoch.id, share.userId, share.points), p);
  }

  lemma RowsStayOk(plan: Plan, db: Db, rows: seq<AllocationRow>, row: AllocationRow)
    requires GrantsOk(plan, db) && GrantOk(plan, db, row) && rows == db.allocations + [row]
    ensures GrantsOk(plan, db.(allocations := rows))
  {
    var db' := db.(allocations := rows);
    forall r | r in rows ensures GrantOk(plan, db', r) {
      assert r in db.allocations || r == row;
      GrantStaysOk(plan, db, db', r);
    }
  }

  lemma InsertedOnce(rows: seq<AllocationRow>, epochId: string, share: Share)
    ensures InsertAllocations(rows, epochId, [share]) ==
              if exists r :: r in rows && r.epochId == epochId && r.userId == share.userId then rows
              else rows + [AllocationRow(epochId, share.userId, share.points)]
  {
    InsertOneAllocation(rows, epochId, [], share);
    assert [] + [share] == [share];
  }

  lemma OneMoreIsOneEach(rows: seq<AllocationRow>, row: AllocationRow)
    requires OneGrantEach(rows) && forall r | r in rows :: !(r.epochId == row.epochId && r.userId == row.userId)
    ensures OneGrantEach(rows + [row]) && row in rows + [row]
  {
  }

  /** Inserting a share that is due keeps all of this, and the share is there. */
  lemma OneGrantMore(plan: Plan, db: Db, terms: Terms, share: Share)
    requires GrantsOk(plan, db) && OneGrantEach(db.allocations) && Payable(plan, db, terms) && UniqueScores(db.scores)
    requires ShareOk(db, terms, share)
    ensures var id := terms.epoch.id;
            var rows := InsertAllocations(db.allocations, id, [share]);
            && GrantsOk(plan, db.(allocations := rows)) && OneGrantEach(rows) && db.allocations <= rows
            && AllocationRow(id, share.userId, share.points) in rows
  {
    var id := terms.epoch.id;
    var row := AllocationRow(id, share.userId, share.points);
    InsertedOnce(db.allocations, id, share);
    if r :| r in db.allocations && r.epochId == id && r.userId == share.userId {
      KnownGrantIsDue(plan, db, terms, share, r);
      assert db.(allocations := db.allocations) == db;
    } else {
      NewGrantIsOk(plan, db, terms, share);
      RowsStayOk(plan, db, db.allocations + [row], row);
      OneMoreIsOneEach(db.allocations, row);
    }
  }

  lemma InsertCons(rows: seq<AllocationRow>, epochId: string, shares: seq<Share>)
    requires shares != []
    ensures InsertAllocations(rows, epochId, shares) == InsertAllocations(InsertAllocations(rows, epochId, [shares[0]]), epochId, shares[1..])
  {
    assert [shares[0]][1..] == [];
  }

  lemma {:induction false} AllocatingKeepsGrants(plan: Plan, db: Db, terms: Terms, shares: seq<Share>)
    requires GrantsOk(plan, db) && OneGrantEach(db.allocations) && Payable(plan, db, terms) && UniqueScores(db.scores)
    requires forall share | share in shares :: ShareOk(db, terms, share)
    ensures var rows := InsertAllocations(db.allocations, terms.epoch.id, shares);
            && GrantsOk(plan, db.(allocations := rows)) && OneGrantEach(rows) && db.allocations <= rows
            && forall share | share in shares :: AllocationRow(terms.epoch.id, share.userId, share.points) in rows
    decreases |shares|
  {
    if shares != [] {
      var id, rest := terms.epoch.id, shares[1..];
      var db' := db.(allocations := InsertAllocations(db.allocations, id, [shares[0]]));
      assert shares[0] in shares;
      OneGrantMore(plan, db, terms, shares[0]);
      forall s | s in rest ensures ShareOk(db', terms, s) {
        assert ShareOk(db, terms, s);
      }
      AllocatingKeepsGrants(plan, db', terms, rest);
      InsertCons(db.allocations, id, shares);
      var rows := InsertAllocations(db'.allocations, id, rest);
      assert db'.(allocations := rows) == db.(allocations := rows);
      assert forall share | share in shares :: share == shares[0] || share in rest;
    }
  }

  lemma AllocatingStepGrants(plan: Plan, db: Db, run: Run, rows: seq<Participant>)
    requires WellFormedPlan(plan) && UniqueScores(db.scores) && RunOk(plan, db, run) && run.pc.WriteAllocations?
    requires GrantsOk(plan, db) && OneGrantEach(db.allocations)
    ensures var (db', run') := Call(db, run, rows);
            GrantsOk(plan, db') && OneGrantEach(db'.allocations) && db.allocations <= db'.allocations && RunGranted(db', run')
  {
    var (db', run') := Call(db, run, rows);
    var terms := run.terms;
    SharesAreDue(db, terms, run.rows);
    AllocatingKeepsGrants(plan, db, terms, Allocate(run.rows, terms.epoch.pool));
    forall p | p in ScoresOf(db', terms) ensures AllocationRow(terms.epoch.id, p.userId, Due(db', terms)(p)) in db'.allocations {
      ShareOfParticipant(db, terms, run.rows, p);
    }
  }

  // ---------------------------------------------------------------- the crediting step

  /** A new credit is one of the shares. */
  lemma {:induction false} CreditsComeFromShares(rows: seq<LedgerRow>, epochId: string, shares: seq<Share>)
    ensures forall row | row in InsertLedger(rows, epochId, shares) && row !in rows ::
              row.epochId == epochId && exists share :: share in shares && share.userId == row.userId && share.points == row.amount
    decreases |shares|
  {
    if shares != [] {
      var more := CreditOne(rows, epochId, shares[0]);
      CreditsComeFromShares(more, epochId, shares[1..]);
      forall row | row in InsertLedger(rows, epochId, shares) && row !in rows
        ensures row.epochId == epochId && exists share :: share in shares && share.userId == row.userId && share.points == row.amount
      {
        if row in more {
          assert shares[0] in shares;
        } else {
          var share :| share in shares[1..] && share.userId == row.userId && share.points == row.amount;
          assert share in shares;
        }
      }
    }
  }

  lemma CreditingStepIsGranted(plan: Plan, db: Db, run: Run, rows: seq<Participant>)
    requires UniqueScores(db.scores) && RunOk(plan, db, run) && run.pc.WriteLedger?
    requires RunGranted(db, run) && CreditsAreGranted(db)
    ensures CreditsAreGranted(Call(db, run, rows).0)
  {
    var db', terms := Call(db, run, rows).0, run.terms;
    var shares := Allocate(run.rows, terms.epoch.pool);
    SharesAreDue(db, terms, run.rows);
    CreditsComeFromShares(db.ledger, terms.epoch.id, shares);
    forall row | row in db'.ledger ensures AllocationRow(row.epochId, row.userId, row.amount) in db'.allocations {
      if row !in db.ledger {
        var share :| share in shares && share.userId == row.userId && share.points == row.amount;
        assert ShareOk(db, terms, share);
      }
    }
  }

  // ------------------------------------------------------------------ every step keeps it

  lemma OtherCallKeepsGrants(plan: Plan, db: Db, run: Run, rows: seq<Participant>)
    requires WellFormedPlan(plan) && UniqueScores(db.scores) && RunOk(plan, db, run) && !run.pc.WriteAllocations?
    requires GrantsOk(plan, db) && RunGranted(db, run)
    ensures var (db', run') := Call(db, run, rows);
            GrantsOk(plan, db') && db'.allocations == db.allocations && RunGranted(db', run')
  {
    var (db', run') := Call(db, run, rows);
    CallKeepsClosed(plan, db, run, rows);
    CallWrites(db, run, rows);
    assert db'.allocations == db.allocations;
    GrantsStayOk(plan, db, db');
    RunStaysGranted(plan, db, db', run);
  }

  lemma CallKeepsGrants(plan: Plan, db: Db, run: Run, rows: seq<Participant>)
    requires WellFormedPlan(plan) && UniqueScores(db.scores) && RunOk(plan, db, run)
    requires GrantsOk(plan, db) && OneGrantEach(db.allocations) && CreditsAreGranted(db) && RunGranted(db, run)
    ensures var (db', run') := Call(db, run, rows);
            && GrantsOk(plan, db') && OneGrantEach(db'.allocations) && CreditsAreGranted(db')
            && db.allocations <= db'.allocations && RunGranted(db', run')
  {
    CallWrites(db, run, rows);
    if run.pc.WriteAllocations? {
      AllocatingStepGrants(plan, db, run, rows);
    } else {
      OtherCallKeepsGrants(plan, db, run, rows);
      if run.pc.WriteLedger? {
        CreditingStepIsGranted(plan, db, run, rows);
      }
    }
  }

  lemma StepKeepsGrants(plan: Plan, s: System, a: Action)
    requires GrantInv(plan, s) && Legal(plan, s, a)
    ensures GrantInv(plan, Apply(plan, s, a))
  {
    var s' := Apply(plan, s, a);
    StepKeepsInv(plan, s, a);
    if a.Advance? {
      assert s.runs[a.run] in s.runs;
      CallKeepsGrants(plan, s.db, s.runs[a.run], a.rows);
    } else {
      GrantsStayOk(plan, s.db, s'.db);
    }
    OthersStayGranted(plan, s.db, s'.db, s.runs, s'.runs);
  }

  lemma {:induction false} HistoryKeepsGrants(plan: Plan, s: System, history: seq<Action>)
    requires GrantInv(plan, s) && LegalHistory(plan, s, history)
    ensures GrantInv(plan, Replay(plan, s, history))
    decreases |history|
  {
    if history != [] {
      StepKeepsGrants(plan, s, history[0]);
      HistoryKeepsGrants(plan, Apply(plan, s, history[0]), history[1..]);
    }
  }

  /**
   * Whatever the interleaving, and wherever runs stopped: an epoch has one
   * allocation per user, of what is due, and no credit stands in the ledger
   * without the allocation of the same amount.
   */
  lemma CreditsFollowAllocations(plan: Plan, s: System, history: seq<Action>)
    requires Fresh(s) && WellFormedPlan(plan) && IdsApart(plan) && LegalHistory(plan, s, history)
    ensures var db := Replay(plan, s, history).db;
            GrantsOk(plan, db) && OneGrantEach(db.allocations) && CreditsAreGranted(db)
  {
    HistoryKeepsGrants(plan, s, history);
  }
}
