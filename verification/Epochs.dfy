/** Which epoch a record is assigned to, and when a late record is held. */
module Epochs {
  import opened Wrappers
  import opened Database

  function EpochId(day: string): string
  {
    "epoch-" + day
  }

  function EpochDay(epochId: string): string
  {
    if |epochId| >= 6 then epochId[6..] else ""
  }

  lemma EpochDayOfId(day: string)
    ensures EpochDay(EpochId(day)) == day && "epoch-" <= EpochId(day)
    ensures forall other | EpochId(other) == EpochId(day) :: other == day
  {
    assert EpochId(day)[6..] == day;
    forall other | EpochId(other) == EpochId(day) ensures other == day {
      assert EpochId(other)[6..] == other;
    }
  }

  /**
   * Reading a day as a date and writing the date's day back; a text that is no
   * date throws. A day the calendar lacks may come back as another one.
   */
  type Dates = string -> Option<string>

  /** The id is that of a date, written as the code writes it. */
  predicate Dated(dates: Dates, epochId: string)
  {
    dates(EpochDay(epochId)) == Some(EpochDay(epochId)) && epochId == EpochId(EpochDay(epochId))
  }

  ghost predicate DatedEvents(dates: Dates, events: seq<Event>)
  {
    forall e | e in events :: Dated(dates, e.record.epochId)
  }

  datatype Assignment = Assignment(epochId: string, carriedForward: bool)
  datatype AssignError = NoOpenEpoch

  /** Every recorded epoch that is not open, with its state. */
  function LoadClosedEpochs(db: Db): map<string, EpochState>
  {
    map id | id in db.epochs && db.epochs[id].state != Open :: db.epochs[id].state
  }

  /** The first day of the calendar whose epoch still accepts usage. */
  function FirstOpen(closed: map<string, EpochState>, calendar: seq<string>): (r: Option<string>)
    ensures r.Some? ==> r.value in calendar && EpochId(r.value) !in closed
    ensures r.None? ==> forall day | day in calendar :: EpochId(day) in closed
  {
    if calendar == [] then None
    else if EpochId(calendar[0]) !in closed then Some(calendar[0])
    else FirstOpen(closed, calendar[1..])
  }

  const MAX_LOOKAHEAD_DAYS: nat := 400

  /** The days the walk looks at: the ingestion day and the four hundred after it. Days are
      numbered, and `dayText` writes one down. */
  function Calendar(dayText: int -> string, ingested: int): (days: seq<string>)
    ensures |days| == MAX_LOOKAHEAD_DAYS + 1 && forall i | 0 <= i < |days| :: days[i] == dayText(ingested + i)
  {
    seq(MAX_LOOKAHEAD_DAYS + 1, i requires 0 <= i <= MAX_LOOKAHEAD_DAYS => dayText(ingested + i))
  }

  /** `calendar` lists the days to look at, the ingestion day first. */
  function AssignEpoch(closed: map<string, EpochState>, occurred: string, calendar: seq<string>): (r: Result<Assignment, AssignError>)
    ensures r.Ok? ==> r.value.epochId !in closed && (r.value.carriedForward <==> r.value.epochId != EpochId(occurred))
    ensures r.Ok? && EpochId(occurred) !in closed ==> r.value.epochId == EpochId(occurred)
    ensures r.Ok? ==> exists day :: r.value.epochId == EpochId(day)
    ensures r.Err? <==> EpochId(occurred) in closed && forall day | day in calendar :: EpochId(day) in closed
  {
    if EpochId(occurred) !in closed then Ok(Assignment(EpochId(occurred), false))
    else
      match FirstOpen(closed, calendar)
      case None => Err(NoOpenEpoch)
      case Some(day) => Ok(Assignment(EpochId(day), EpochId(day) != EpochId(occurred)))
  }

  /** Of the days from `from` on, `day` is the first whose epoch accepts usage, and this is its id. */
  ghost predicate FirstOpenOn(closed: map<string, EpochState>, dayText: int -> string, from: int, day: int, epochId: string)
  {
    epochId == EpochId(dayText(day)) && epochId !in closed && forall d | from <= d < day :: EpochId(dayText(d)) in closed
  }

  method WalkForward(closed: map<string, EpochState>, occurred: string, dayText: int -> string, ingested: int) returns (r: Result<Assignment, AssignError>)
    ensures EpochId(occurred) !in closed ==> r == Ok(Assignment(EpochId(occurred), false))
    ensures EpochId(occurred) in closed && r.Ok? ==>
              r.value.carriedForward && exists day | ingested <= day <= ingested + 400 :: FirstOpenOn(closed, dayText, ingested, day, r.value.epochId)
    ensures r.Err? <==> EpochId(occurred) in closed && forall day | ingested <= day <= ingested + 400 :: EpochId(dayText(day)) in closed
    ensures r == AssignEpoch(closed, occurred, Calendar(dayText, ingested))
  {
    if EpochId(occurred) !in closed {
      return Ok(Assignment(EpochId(occurred), false));
    }
    ghost var calendar := Calendar(dayText, ingested);
    var cursor := ingested;
    for i := 0 to MAX_LOOKAHEAD_DAYS + 1
      invariant cursor == ingested + i
      invariant forall day | ingested <= day < cursor :: EpochId(dayText(day)) in closed
      invariant FirstOpen(closed, calendar) == FirstOpen(closed, calendar[i..])
    {
      var candidate := EpochId(dayText(cursor));
      assert calendar[i] == dayText(cursor) && calendar[i..][0] == calendar[i] && calendar[i..][1..] == calendar[i + 1..];
      if candidate !in closed {
        assert FirstOpenOn(closed, dayText, ingested, cursor, candidate);
        return Ok(Assignment(candidate, candidate != EpochId(occurred)));
      }
      cursor := cursor + 1;
    }
    return Err(NoOpenEpoch);
  }

  /** A unit carried forward across a change of prices is held. */
  function HoldIfCarriedAcrossPricing(record: UsageRecord, pricing: string): UsageRecord
  {
    if !record.carriedForward then record
    else if record.rewardHold || record.rewardStatus != RewardEligible then record
    else if record.pricingVersion.None? || record.pricingVersion.value == "" || record.pricingVersion.value == pricing then record
    else record.(rewardHold := true, eligibleMicros := 0, rewardStatus := RewardHeld, rewardReason := "carried_across_pricing_boundary")
  }

  /** The rules that depend on the epoch, and the curve from weighted micro-USD to points. */
  datatype Rules = Rules(scoringFor: string -> string, pricingFor: string -> string, curve: int -> int)

  function Assigned(rules: Rules, record: UsageRecord, a: Assignment): UsageRecord
  {
    HoldIfCarriedAcrossPricing(record.(epochId := a.epochId, carriedForward := a.carriedForward), rules.pricingFor(a.epochId))
  }

  function AssignAll(rules: Rules, closed: map<string, EpochState>, records: seq<UsageRecord>, calendar: seq<string>): (r: Result<seq<UsageRecord>, AssignError>)
    ensures r.Ok? ==> |r.value| == |records|
    ensures r.Ok? ==> forall i | 0 <= i < |records| ::
              && r.value[i].epochId !in closed && (exists day :: r.value[i].epochId == EpochId(day))
              && r.value[i].day == records[i].day && r.value[i].verification == records[i].verification
              && r.value[i].provider == records[i].provider && r.value[i].source == records[i].source
              && r.value[i].externalReference == records[i].externalReference && r.value[i].economicKey == records[i].economicKey
  {
    if records == [] then Ok([])
    else
      match AssignEpoch(closed, records[0].day, calendar)
      case Err(e) => Err(e)
      case Ok(a) =>
        match AssignAll(rules, closed, records[1..], calendar)
        case Err(e) => Err(e)
        case Ok(rest) => Ok([Assigned(rules, records[0], a)] + rest)
  }

  // -------------------------------------------------------- where a whole batch goes

  /** Of the days listed the first whose epoch accepts usage is number `k`, and this is its id. */
  ghost predicate FirstOpenIn(closed: map<string, EpochState>, calendar: seq<string>, k: nat, epochId: string)
  {
    && k < |calendar| && epochId == EpochId(calendar[k]) && epochId !in closed
    && forall j | 0 <= j < k :: EpochId(calendar[j]) in closed
  }

  /** Usage goes to the epoch of its day, or else is carried into the first open one. */
  ghost predicate GoesTo(closed: map<string, EpochState>, calendar: seq<string>, day: string, out: UsageRecord)
  {
    if EpochId(day) !in closed then out.epochId == EpochId(day) && !out.carriedForward
    else out.carriedForward && exists k :: FirstOpenIn(closed, calendar, k, out.epochId)
  }

  /** The record was eligible and is priced by another version than its new epoch. */
  predicate CrossesPricing(rules: Rules, record: UsageRecord, epochId: string)
  {
    && !record.rewardHold && record.rewardStatus == RewardEligible
    && record.pricingVersion.Some? && record.pricingVersion.value != "" && record.pricingVersion.value != rules.pricingFor(epochId)
  }

  /** What an assignment does to a record: its epoch, and a hold if it was carried across a change of prices. */
  predicate RewrittenAs(rules: Rules, record: UsageRecord, out: UsageRecord)
  {
    out == (if out.carriedForward && CrossesPricing(rules, record, out.epochId)
            then record.(rewardHold := true, eligibleMicros := 0, rewardStatus := RewardHeld, rewardReason := "carried_across_pricing_boundary")
            else record).(epochId := out.epochId, carriedForward := out.carriedForward)
  }

  ghost predicate Taken(rules: Rules, closed: map<string, EpochState>, calendar: seq<string>, record: UsageRecord, out: UsageRecord)
  {
    GoesTo(closed, calendar, record.day, out) && RewrittenAs(rules, record, out)
  }

  lemma {:induction false} FirstOpenExactly(closed: map<string, EpochState>, calendar: seq<string>)
    ensures FirstOpen(closed, calendar).Some? ==> exists k :: FirstOpenIn(closed, calendar, k, EpochId(FirstOpen(closed, calendar).value))
  {
    if calendar != [] {
      if EpochId(calendar[0]) !in closed {
        assert FirstOpenIn(closed, calendar, 0, EpochId(calendar[0]));
      } else {
        FirstOpenExactly(closed, calendar[1..]);
        if FirstOpen(closed, calendar).Some? {
          var k: nat :| FirstOpenIn(closed, calendar[1..], k, EpochId(FirstOpen(closed, calendar).value));
          forall j | 0 <= j < k + 1 ensures EpochId(calendar[j]) in closed {
            if j > 0 {
              assert calendar[1..][j - 1] == calendar[j];
            }
          }
          assert FirstOpenIn(closed, calendar, k + 1, EpochId(FirstOpen(closed, calendar).value));
        }
      }
    }
  }

  lemma RewritingIsRight(rules: Rules, record: UsageRecord, a: Assignment)
    ensures RewrittenAs(rules, record, Assigned(rules, record, a))
    ensures Assigned(rules, record, a).epochId == a.epochId && Assigned(rules, record, a).carriedForward == a.carriedForward
  {
  }

  lemma AssignmentGoes(closed: map<string, EpochState>, day: string, calendar: seq<string>, out: UsageRecord)
    requires AssignEpoch(closed, day, calendar) == Ok(Assignment(out.epochId, out.carriedForward))
    ensures GoesTo(closed, calendar, day, out)
  {
    if EpochId(day) in closed {
      FirstOpenExactly(closed, calendar);
      var k :| FirstOpenIn(closed, calendar, k, EpochId(FirstOpen(closed, calendar).value));
      assert FirstOpenIn(closed, calendar, k, out.epochId);
    }
  }

  lemma OneIsTaken(rules: Rules, closed: map<string, EpochState>, record: UsageRecord, calendar: seq<string>, a: Assignment)
    requires AssignEpoch(closed, record.day, calendar) == Ok(a)
    ensures Taken(rules, closed, calendar, record, Assigned(rules, record, a))
  {
    RewritingIsRight(rules, record, a);
    AssignmentGoes(closed, record.day, calendar, Assigned(rules, record, a));
  }

  /** The record at a position is taken as if it were alone. */
  lemma {:induction false} AssignedAt(rules: Rules, closed: map<string, EpochState>, records: seq<UsageRecord>, calendar: seq<string>, i: nat)
    requires AssignAll(rules, closed, records, calendar).Ok? && i < |records|
    ensures var a := AssignEpoch(closed, records[i].day, calendar);
            a.Ok? && AssignAll(rules, closed, records, calendar).value[i] == Assigned(rules, records[i], a.value)
  {
    if i > 0 {
      AssignedAt(rules, closed, records[1..], calendar, i - 1);
    }
  }

  lemma {:induction false} RefusedWhere(rules: Rules, closed: map<string, EpochState>, records: seq<UsageRecord>, calendar: seq<string>)
    ensures AssignAll(rules, closed, records, calendar).Err? <==> exists r :: r in records && AssignEpoch(closed, r.day, calendar).Err?
  {
    if records != [] {
      RefusedWhere(rules, closed, records[1..], calendar);
      assert forall r | r in records :: r == records[0] || r in records[1..];
    }
  }

  /**
   * Every record of a batch goes to the epoch of its day, or else to the first
   * open one of the calendar, and nothing else of it changes but for the hold. The
   * batch is refused exactly if some record finds its epoch closed and no day open.
   */
  lemma BatchIsTaken(rules: Rules, closed: map<string, EpochState>, records: seq<UsageRecord>, calendar: seq<string>)
    ensures var taken := AssignAll(rules, closed, records, calendar);
            && (taken.Ok? ==> forall i | 0 <= i < |records| :: Taken(rules, closed, calendar, records[i], taken.value[i]))
            && (taken.Err? <==> (exists r :: r in records && EpochId(r.day) in closed) && forall day | day in calendar :: EpochId(day) in closed)
  {
    var taken := AssignAll(rules, closed, records, calendar);
    if taken.Ok? {
      forall i | 0 <= i < |records| ensures Taken(rules, closed, calendar, records[i], taken.value[i]) {
        AssignedAt(rules, closed, records, calendar, i);
        OneIsTaken(rules, closed, records[i], calendar, AssignEpoch(closed, records[i].day, calendar).value);
      }
    }
    RefusedWhere(rules, closed, records, calendar);
  }
}
