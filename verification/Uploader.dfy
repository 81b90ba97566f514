/**
 * Uploading with a buffer and a backoff. Clock readings and the fate of each
 * upload are inputs; `Clock` lists the readings of one call in order.
 */
module Uploader {
  import opened Wrappers
  import opened Buffer

  const BACKOFF_SECONDS: seq<int> := [5, 15, 60, 300]

  /** `read` for pending, `check` against the backoff, `fail` after a failure, `store` for enqueue. */
  datatype Clock = Clock(read: int, check: int, fail: int, store: int)

  predicate Monotone(c: Clock)
  {
    c.read <= c.check <= c.fail <= c.store
  }

  datatype State = State(stored: seq<Observation>, failures: nat, notBefore: int)

  /** `sent` is what went out, when a call went out at all. */
  datatype Outcome = Outcome(sent: Option<seq<Observation>>, uploaded: nat, buffered: nat)

  function StepSeconds(failures: nat): (step: int)
    requires failures >= 1
    ensures step > 0
  {
    BACKOFF_SECONDS[(if failures < |BACKOFF_SECONDS| then failures else |BACKOFF_SECONDS|) - 1]
  }

  function Attempted(u: State, batch: seq<Observation>, c: Clock, ok: bool): (State, Outcome)
  {
    if batch == [] then (u, Outcome(None, 0, 0))
    else if c.check < u.notBefore then
      var stored := Enqueued(u.stored, batch, c.store);
      (u.(stored := stored), Outcome(None, 0, |stored|))
    else if ok then
      (State(Without(u.stored, Ids(batch)), 0, 0), Outcome(Some(StripAll(batch)), |batch|, 0))
    else
      var failures := u.failures + 1;
      var stored := Enqueued(u.stored, batch, c.store);
      (State(stored, failures, c.fail + StepSeconds(failures) * 1000), Outcome(Some(StripAll(batch)), 0, |stored|))
  }

  function Unseen(waiting: seq<Observation>, observations: seq<Observation>): seq<Observation>
  {
    Without(observations, Ids(waiting))
  }

  function Pushed(u: State, observations: seq<Observation>, c: Clock, ok: bool): (State, Outcome)
  {
    var waiting := FreshOnly(u.stored, c.read);
    Attempted(u, waiting + Unseen(waiting, observations), c, ok)
  }

  function Flushed(u: State, c: Clock, ok: bool): (State, Outcome)
  {
    Attempted(u, FreshOnly(u.stored, c.read), c, ok)
  }

  // ------------------------------------------------------------- what one call does, in full

  /** The call's batch: what is fresh in the buffer, then what was pushed under ids not among it. */
  ghost predicate Batched(waiting: seq<Observation>, new_: seq<Observation>, stored: seq<Observation>, observations: seq<Observation>, now: int)
  {
    && Selects(waiting, stored, FreshAt(now)) && Selects(new_, observations, NotAmong(Ids(waiting)))
    && forall o | o in observations :: o in new_ <==> forall w | w in waiting :: w.id != o.id
  }

  lemma PushBatches(u: State, observations: seq<Observation>, c: Clock)
    ensures var waiting := FreshOnly(u.stored, c.read);
            Batched(waiting, Unseen(waiting, observations), u.stored, observations, c.read)
  {
    var waiting := FreshOnly(u.stored, c.read);
    FreshOnlySelects(u.stored, c.read);
    WithoutSelects(observations, Ids(waiting));
  }

  /** What a call leaves and reports, given its batch and what is cut from it. */
  ghost predicate CallMoves(u: State, u': State, outcome: Outcome, batch: seq<Observation>, cut: seq<Observation>, c: Clock, ok: bool)
  {
    var waits := c.check < u.notBefore;
    var fails := u.failures + 1;
    if batch == [] then u' == u && outcome == Outcome(None, 0, 0)
    else if !waits && ok then
      && outcome == Outcome(Some(cut), |batch|, 0) && u'.failures == 0 && u'.notBefore == 0
      && (forall o :: o in u'.stored <==> o in u.stored && forall b | b in batch :: b.id != o.id)
    else
      && NewestFresh(u'.stored, u.stored + cut, c.store)
      && outcome == Outcome(if waits then None else Some(cut), 0, |u'.stored|)
      && u'.failures == (if waits then u.failures else fails)
      && u'.notBefore == if waits then u.notBefore else
           c.fail + if fails == 1 then 5_000 else if fails == 2 then 15_000 else if fails == 3 then 60_000 else 300_000
  }

  ghost predicate MovesAs(u: State, u': State, outcome: Outcome, waiting: seq<Observation>, new_: seq<Observation>, cut: seq<Observation>,
                          observations: seq<Observation>, c: Clock, ok: bool)
  {
    && Batched(waiting, new_, u.stored, observations, c.read) && CutsFrom(cut, waiting + new_)
    && CallMoves(u, u', outcome, waiting + new_, cut, c, ok)
  }

  /**
   * One push: what it sends and stores is cut, field by field, from what waited
   * and what is new; what it reports, and when it may go out again, follows from
   * the clock and the fate of the upload.
   */
  lemma PushMoves(u: State, observations: seq<Observation>, c: Clock, ok: bool) returns (waiting: seq<Observation>, new_: seq<Observation>, cut: seq<Observation>)
    ensures MovesAs(u, Pushed(u, observations, c, ok).0, Pushed(u, observations, c, ok).1, waiting, new_, cut, observations, c, ok)
  {
    waiting := FreshOnly(u.stored, c.read);
    new_ := Unseen(waiting, observations);
    cut := StripAll(waiting + new_);
    PushBatches(u, observations, c);
    StripCuts(waiting + new_);
    EnqueueKeepsNewest(u.stored, waiting + new_, c.store);
  }

  /** An observation that was waiting or is pushed now has this one cut from it. */
  ghost predicate HasSource(s: Observation, stored: seq<Observation>, observations: seq<Observation>)
  {
    exists o :: (o in stored || o in observations) && CutFrom(s, o)
  }

  lemma CutHasSource(waiting: seq<Observation>, new_: seq<Observation>, cut: seq<Observation>,
                     stored: seq<Observation>, observations: seq<Observation>, now: int, s: Observation)
    requires Batched(waiting, new_, stored, observations, now) && CutsFrom(cut, waiting + new_) && s in cut
    ensures HasSource(s, stored, observations)
  {
    var i :| 0 <= i < |cut| && cut[i] == s;
    SelectedIsThere(waiting, stored, FreshAt(now));
    SelectedIsThere(new_, observations, NotAmong(Ids(waiting)));
    assert CutFrom(s, (waiting + new_)[i]);
  }

  lemma EndIsThere(kept: seq<Observation>, young: seq<Observation>, s: Observation)
    requires KeepsEnd(kept, young) && s in kept
    ensures s in young
  {
    var i :| 0 <= i < |kept| && kept[i] == s;
    assert young[|young| - |kept| + i] == s;
  }

  lemma NewestCome(kept: seq<Observation>, all: seq<Observation>, now: int, s: Observation)
    requires NewestFresh(kept, all, now) && s in kept
    ensures s in all
  {
    var young :| Selects(young, all, FreshAt(now)) && KeepsEnd(kept, young);
    EndIsThere(kept, young, s);
    SelectedIsThere(young, all, FreshAt(now));
  }

  /**
   * Every observation sent, and every one stored that was not stored before, has
   * the id, the time and the schema fields of one that waited or was pushed.
   */
  lemma WhatLeavesWasPushed(u: State, observations: seq<Observation>, c: Clock, ok: bool)
    ensures var (u', outcome) := Pushed(u, observations, c, ok);
            && (outcome.sent.Some? ==> forall s | s in outcome.sent.value :: HasSource(s, u.stored, observations))
            && (forall s | s in u'.stored && s !in u.stored :: HasSource(s, u.stored, observations))
  {
    var (u', outcome) := Pushed(u, observations, c, ok);
    var waiting, new_, cut := PushMoves(u, observations, c, ok);
    forall s | s in cut ensures HasSource(s, u.stored, observations) {
      CutHasSource(waiting, new_, cut, u.stored, observations, c.read, s);
    }
    forall s | s in u'.stored && s !in u.stored ensures s in cut {
      if NewestFresh(u'.stored, u.stored + cut, c.store) {
        NewestCome(u'.stored, u.stored + cut, c.store, s);
      }
    }
  }

  class UploaderObject {
    const buffer: BufferFile
    var failures: nat
    var notBefore: int

    constructor (buffer: BufferFile)
      ensures this.buffer == buffer && failures == 0 && notBefore == 0
    {
      this.buffer := buffer;
      failures := 0;
      notBefore := 0;
    }

    ghost function Abstract(): State
      reads this, buffer
    {
      State(buffer.stored, failures, notBefore)
    }

    method Attempt(batch: seq<Observation>, c: Clock, ok: bool) returns (outcome: Outcome)
      modifies this, buffer
      ensures (Abstract(), outcome) == Attempted(old(Abstract()), batch, c, ok)
    {
      if batch == [] {
        return Outcome(None, 0, 0);
      }
      if c.check < notBefore {
        var buffered := buffer.Enqueue(batch, c.store);
        return Outcome(None, 0, buffered);
      }
      var signed := StripAll(batch);
      if ok {
        failures := 0;
        notBefore := 0;
        buffer.Acknowledge(Ids(batch));
        return Outcome(Some(signed), |batch|, 0);
      }
      failures := failures + 1;
      notBefore := c.fail + StepSeconds(failures) * 1000;
      var buffered := buffer.Enqueue(batch, c.store);
      return Outcome(Some(signed), 0, buffered);
    }

    method Push(observations: seq<Observation>, c: Clock, ok: bool) returns (outcome: Outcome)
      modifies this, buffer
      ensures (Abstract(), outcome) == Pushed(old(Abstract()), observations, c, ok)
      ensures outcome.sent.Some? ==> forall s | s in outcome.sent.value :: HasSource(s, old(buffer.stored), observations)
      ensures forall s | s in buffer.stored && s !in old(buffer.stored) :: HasSource(s, old(buffer.stored), observations)
    {
      WhatLeavesWasPushed(Abstract(), observations, c, ok);
      var waiting := buffer.Pending(c.read);
      outcome := Attempt(waiting + Unseen(waiting, observations), c, ok);
    }

    method Flush(c: Clock, ok: bool) returns (outcome: Outcome)
      modifies this, buffer
      ensures (Abstract(), outcome) == Flushed(old(Abstract()), c, ok)
    {
      var waiting := buffer.Pending(c.read);
      outcome := Attempt(waiting, c, ok);
    }
  }

  // ---------------------------------------------------------------- the ideal queue

  /** Uploading went through in this call. */
  predicate Succeeds(u: State, c: Clock, ok: bool)
  {
    c.check >= u.notBefore && ok
  }

  /** Append what is new, drop the stale, keep the newest; empty on success. */
  function IdealStep(queue: seq<Observation>, observations: seq<Observation>, c: Clock, success: bool): seq<Observation>
  {
    var fresh_ := FreshOnly(queue, c.read);
    if success then []
    else Last(FreshOnly(fresh_ + StripAll(Unseen(fresh_, observations)), c.store), MAX_OBSERVATIONS)
  }

  ghost predicate IdealMoves(queue: seq<Observation>, queue': seq<Observation>, waiting: seq<Observation>, new_: seq<Observation>,
                             cut: seq<Observation>, observations: seq<Observation>, c: Clock, success: bool)
  {
    && Batched(waiting, new_, queue, observations, c.read) && CutsFrom(cut, new_)
    && if success then queue' == [] else NewestFresh(queue', waiting + cut, c.store)
  }

  /** The ideal queue: emptied by success, else the newest of what was fresh in it and of what is cut from the new ones. */
  lemma QueueMoves(queue: seq<Observation>, observations: seq<Observation>, c: Clock, success: bool)
    returns (waiting: seq<Observation>, new_: seq<Observation>, cut: seq<Observation>)
    ensures IdealMoves(queue, IdealStep(queue, observations, c, success), waiting, new_, cut, observations, c, success)
  {
    waiting := FreshOnly(queue, c.read);
    new_ := Unseen(waiting, observations);
    cut := StripAll(new_);
    PushBatches(State(queue, 0, 0), observations, c);
    StripCuts(new_);
    FreshOnlySelects(waiting + cut, c.store);
    LastKeepsEnd(FreshOnly(waiting + cut, c.store));
  }

  ghost predicate Stripped(s: seq<Observation>)
  {
    forall o | o in s :: Strip(o) == o
  }

  /** Repeats, then a duplicate-free list that contains them all. */
  ghost predicate RepeatsThen(s: seq<Observation>, d: seq<Observation>)
  {
    DistinctIds(d) && |d| <= |s| && s[|s| - |d|..] == d && forall o | o in s :: o in d
  }

  /** From `now` on the stored list is the ideal queue with repeats in front. */
  ghost predicate Represents(stored: seq<Observation>, queue: seq<Observation>, now: int)
  {
    Stripped(stored) && RepeatsThen(FreshOnly(stored, now), FreshOnly(queue, now))
  }

  /** Then the distinct pending observations are the queue. */
  lemma PendingIsTheQueue(stored: seq<Observation>, queue: seq<Observation>, now: int)
    requires Represents(stored, queue, now)
    ensures Distinct(FreshOnly(stored, now)) == FreshOnly(queue, now)
  {
    var s, d := FreshOnly(stored, now), FreshOnly(queue, now);
    assert s == s[..|s| - |d|] + d;
    forall o | o in s[..|s| - |d|] ensures o in d {
      assert o in s;
    }
    DistinctDropsRepeats(s[..|s| - |d|], d);
  }

  lemma RepresentsLater(stored: seq<Observation>, queue: seq<Observation>, now: int, later: int)
    requires Represents(stored, queue, now) && now <= later
    ensures Represents(stored, queue, later)
  {
    FreshLater(stored, now, later);
    FreshLater(queue, now, later);
    FreshIsRepeats(FreshOnly(stored, now), FreshOnly(queue, now), later);
  }

  lemma KeepNewest(s: seq<Observation>, d: seq<Observation>, n: nat)
    requires RepeatsThen(s, d)
    ensures RepeatsThen(Last(s, n), Last(d, n))
  {
    var s', d' := Last(s, n), Last(d, n);
    if |d| <= n {
      forall o | o in s' ensures o in d' {
        assert o in s;
      }
      assert s'[|s'| - |d'|..] == s[|s| - |d|..];
    } else {
      assert s' == s[|s| - n..] && d' == d[|d| - n..];
      assert s[|s| - n..] == s[|s| - |d|..][|d| - n..];
      forall i, j | 0 <= i < j < |d'| ensures d'[i].id != d'[j].id {
        assert d'[i] == d[|d| - n + i] && d'[j] == d[|d| - n + j];
      }
    }
  }

  lemma {:induction false} WithoutKeepsDistinct(s: seq<Observation>, ids: set<string>)
    requires DistinctIds(s)
    ensures DistinctIds(Without(s, ids))
  {
    if s != [] {
      WithoutKeepsDistinct(s[1..], ids);
    }
  }

  // ------------------------------------------------------------- one call refines it

  lemma SameIds(stored: seq<Observation>, queue: seq<Observation>, now: int)
    requires Represents(stored, queue, now)
    ensures Ids(FreshOnly(stored, now)) == Ids(FreshOnly(queue, now))
  {
    RepeatsHaveSameIds(FreshOnly(stored, now), FreshOnly(queue, now));
  }

  lemma RepeatsHaveSameIds(s: seq<Observation>, d: seq<Observation>)
    requires RepeatsThen(s, d)
    ensures Ids(s) == Ids(d)
  {
    forall o | o in d ensures o in s {
      var i :| 0 <= i < |d| && d[i] == o;
      assert s[|s| - |d| + i] == o;
    }
  }

  lemma NewOnesAreDistinct(d: seq<Observation>, observations: seq<Observation>)
    requires DistinctIds(d) && DistinctIds(observations)
    ensures DistinctIds(d + StripAll(Unseen(d, observations)))
  {
    var new_ := Unseen(d, observations);
    WithoutKeepsDistinct(observations, Ids(d));
    var all := d + StripAll(new_);
    forall i, j | 0 <= i < j < |all| ensures all[i].id != all[j].id {
      if i < |d| <= j {
        assert new_[j - |d|] in new_ && d[i] in d;
      }
    }
  }

  lemma StripConcat(a: seq<Observation>, b: seq<Observation>)
    ensures StripAll(a + b) == StripAll(a) + StripAll(b)
  {
  }

  lemma StrippedStays(s: seq<Observation>)
    requires Stripped(s)
    ensures StripAll(s) == s
  {
    assert forall i | 0 <= i < |s| :: s[i] in s;
  }

  /** The merged list of a failed call: what was stored, the same again, then what is new. */
  lemma MergedList(stored: seq<Observation>, observations: seq<Observation>, c: Clock)
    requires Stripped(stored) && c.read <= c.store
    ensures var f := FreshOnly(stored, c.read);
            var n := StripAll(Unseen(f, observations));
            FreshOnly(stored + StripAll(f + Unseen(f, observations)), c.store)
              == FreshOnly(f, c.store) + (FreshOnly(f, c.store) + FreshOnly(n, c.store))
  {
    var f := FreshOnly(stored, c.read);
    var n := StripAll(Unseen(f, observations));
    StripConcat(f, Unseen(f, observations));
    StrippedStays(f);
    FreshConcat(stored, f + n, c.store);
    FreshConcat(f, n, c.store);
    FreshLater(stored, c.read, c.store);
  }

  /** Repeats in front of a list with one more part behind it. */
  lemma RepeatsExtend(f: seq<Observation>, d: seq<Observation>, n: seq<Observation>)
    requires RepeatsThen(f, d) && DistinctIds(d + n)
    ensures RepeatsThen(f + (f + n), d + n)
  {
    var s, e := f + (f + n), d + n;
    assert s[|s| - |e|..] == f[|f| - |d|..] + n;
    forall o | o in s ensures o in e {
      assert o in f || o in n;
    }
  }

  lemma FailedCallRefines(stored: seq<Observation>, queue: seq<Observation>, observations: seq<Observation>, c: Clock)
    requires Represents(stored, queue, c.read) && Monotone(c) && DistinctIds(observations)
    ensures var f := FreshOnly(stored, c.read);
            Represents(Enqueued(stored, f + Unseen(f, observations), c.store), IdealStep(queue, observations, c, false), c.store)
  {
    var f, d := FreshOnly(stored, c.read), FreshOnly(queue, c.read);
    var n := StripAll(Unseen(f, observations));
    SameIds(stored, queue, c.read);
    MergedList(stored, observations, c);
    FreshConcat(d, n, c.store);
    NewOnesAreDistinct(d, observations);
    FreshKeepsDistinct(d + n, c.store);
    FreshIsRepeats(f, d, c.store);
    RepeatsExtend(FreshOnly(f, c.store), FreshOnly(d, c.store), FreshOnly(n, c.store));
    var merged := FreshOnly(stored + StripAll(f + Unseen(f, observations)), c.store);
    NewestRefine(merged, FreshOnly(d + n, c.store), c.store);
    EnqueuedIsStripped(stored, f + Unseen(f, observations), c.store);
    SameUnseen(f, d, observations);
  }

  lemma SameUnseen(f: seq<Observation>, d: seq<Observation>, observations: seq<Observation>)
    requires Ids(f) == Ids(d)
    ensures Unseen(f, observations) == Unseen(d, observations)
  {
  }

  /** Keeping the newest of a list of fresh observations represents keeping the newest of the queue. */
  lemma NewestRefine(merged: seq<Observation>, queue: seq<Observation>, now: int)
    requires RepeatsThen(merged, queue)
    requires (forall o | o in merged :: Fresh(o, now)) && (forall o | o in queue :: Fresh(o, now))
    ensures RepeatsThen(FreshOnly(Last(merged, MAX_OBSERVATIONS), now), FreshOnly(Last(queue, MAX_OBSERVATIONS), now))
  {
    KeepNewest(merged, queue, MAX_OBSERVATIONS);
    AllFresh(Last(merged, MAX_OBSERVATIONS), now);
    AllFresh(Last(queue, MAX_OBSERVATIONS), now);
  }

  lemma EnqueuedIsStripped(stored: seq<Observation>, batch: seq<Observation>, now: int)
    requires Stripped(stored)
    ensures Stripped(Enqueued(stored, batch, now))
  {
    forall o | o in Enqueued(stored, batch, now) ensures Strip(o) == o {
      assert o in FreshOnly(stored + StripAll(batch), now);
      if o !in stored {
        StrippedAlready(batch, o);
      }
    }
  }

  lemma StrippedAlready(batch: seq<Observation>, o: Observation)
    requires o in StripAll(batch)
    ensures Strip(o) == o
  {
    var i :| 0 <= i < |batch| && StripAll(batch)[i] == o;
    StripTwice(batch[i]);
  }

  lemma FreshIsRepeats(f: seq<Observation>, d: seq<Observation>, now: int)
    requires RepeatsThen(f, d)
    ensures RepeatsThen(FreshOnly(f, now), FreshOnly(d, now))
  {
    FreshKeepsDistinct(d, now);
    assert f == f[..|f| - |d|] + d;
    FreshConcat(f[..|f| - |d|], d, now);
  }

  /** One push, whatever happens to its upload, moves the buffer as the ideal queue moves. */
  lemma PushRefines(u: State, queue: seq<Observation>, observations: seq<Observation>, c: Clock, ok: bool)
    requires Represents(u.stored, queue, c.read) && Monotone(c) && DistinctIds(observations)
    ensures Represents(Pushed(u, observations, c, ok).0.stored, IdealStep(queue, observations, c, Succeeds(u, c, ok)), c.store)
  {
    var f := FreshOnly(u.stored, c.read);
    var batch := f + Unseen(f, observations);
    if batch == [] {
      EmptyBatchRefines(u, queue, observations, c, ok);
    } else if Succeeds(u, c, ok) {
      RepresentsLater(Without(u.stored, Ids(batch)), [], c.read, c.store);
    } else {
      FailedCallRefines(u.stored, queue, observations, c);
    }
  }

  lemma EmptyBatchRefines(u: State, queue: seq<Observation>, observations: seq<Observation>, c: Clock, ok: bool)
    requires Represents(u.stored, queue, c.read) && Monotone(c)
    requires FreshOnly(u.stored, c.read) == [] && Unseen([], observations) == []
    ensures Represents(u.stored, IdealStep(queue, observations, c, Succeeds(u, c, ok)), c.store)
  {
    assert FreshOnly(queue, c.read) == [];
    assert StripAll(Unseen([], observations)) == [];
    assert IdealStep(queue, observations, c, Succeeds(u, c, ok)) == [];
    assert Represents(u.stored, [], c.read);
    RepresentsLater(u.stored, [], c.read, c.store);
  }

  // ------------------------------------------------------------------- over histories

  /** A flush is a push of nothing. */
  datatype Call = Call(observations: seq<Observation>, clock: Clock, ok: bool)

  lemma FlushIsAnEmptyPush(u: State, c: Clock, ok: bool)
    ensures Flushed(u, c, ok) == Pushed(u, [], c, ok)
  {
    var waiting := FreshOnly(u.stored, c.read);
    assert waiting + Unseen(waiting, []) == waiting;
  }

  function Run(u: State, calls: seq<Call>): State
    decreases |calls|
  {
    if calls == [] then u else Run(Pushed(u, calls[0].observations, calls[0].clock, calls[0].ok).0, calls[1..])
  }

  function IdealRun(u: State, queue: seq<Observation>, calls: seq<Call>): seq<Observation>
    decreases |calls|
  {
    if calls == [] then queue
    else
      var call := calls[0];
      IdealRun(Pushed(u, call.observations, call.clock, call.ok).0,
               IdealStep(queue, call.observations, call.clock, Succeeds(u, call.clock, call.ok)), calls[1..])
  }

  /** The clock never goes back, and ids are distinct within each push. */
  ghost predicate Orderly(calls: seq<Call>, from: int)
    decreases |calls|
  {
    calls == [] ||
    (Monotone(calls[0].clock) && from <= calls[0].clock.read && DistinctIds(calls[0].observations)
     && Orderly(calls[1..], calls[0].clock.store))
  }

  function EndOf(calls: seq<Call>, from: int): int
    decreases |calls|
  {
    if calls == [] then from else EndOf(calls[1..], calls[0].clock.store)
  }

  /** After any history the distinct pending observations are exactly the ideal queue. */
  lemma {:induction false} BufferRefinesQueue(u: State, queue: seq<Observation>, calls: seq<Call>, from: int)
    requires Represents(u.stored, queue, from) && Orderly(calls, from)
    ensures var end := EndOf(calls, from);
            && Represents(Run(u, calls).stored, IdealRun(u, queue, calls), end)
            && Distinct(FreshOnly(Run(u, calls).stored, end)) == FreshOnly(IdealRun(u, queue, calls), end)
    decreases |calls|
  {
    if calls == [] {
      PendingIsTheQueue(u.stored, queue, from);
    } else {
      var call := calls[0];
      RepresentsLater(u.stored, queue, from, call.clock.read);
      PushRefines(u, queue, call.observations, call.clock, call.ok);
      BufferRefinesQueue(
        Pushed(u, call.observations, call.clock, call.ok).0,
        IdealStep(queue, call.observations, call.clock, Succeeds(u, call.clock, call.ok)), calls[1..], call.clock.store);
    }
  }

  /** A new uploader over an empty buffer: whatever happens, what is pending is the ideal queue. */
  lemma FreshUploaderIsTheQueue(calls: seq<Call>, from: int)
    requires Orderly(calls, from)
    ensures var u, end := State([], 0, 0), EndOf(calls, from);
            Distinct(FreshOnly(Run(u, calls).stored, end)) == FreshOnly(IdealRun(u, [], calls), end)
  {
    EmptyBufferRepresents(from);
    BufferRefinesQueue(State([], 0, 0), [], calls, from);
  }

  lemma EmptyBufferRepresents(now: int)
    ensures Represents([], [], now)
  {
  }

  // ------------------------------------------------------------------------- fates

  datatype Fates = Fates(acknowledged: set<string>, aged: set<string>, evicted: set<string>)

  function Merge(a: Fates, b: Fates): Fates
  {
    Fates(a.acknowledged + b.acknowledged, a.aged + b.aged, a.evicted + b.evicted)
  }

  /** What one call does to the ids that leave the queue. */
  function FatesOf(queue: seq<Observation>, observations: seq<Observation>, c: Clock, success: bool): Fates
  {
    var fresh_ := FreshOnly(queue, c.read);
    var next := fresh_ + StripAll(Unseen(fresh_, observations));
    if success then Fates(Ids(next), Ids(queue) - Ids(next), {})
    else
      var young := Candidates(queue, observations, c);
      Fates({}, Ids(queue) + Ids(next) - Ids(young), Ids(young) - Ids(Last(young, MAX_OBSERVATIONS)))
  }

  /** What a call that uploads nothing would like to keep, in the order it arrived. */
  function Candidates(queue: seq<Observation>, observations: seq<Observation>, c: Clock): seq<Observation>
  {
    var fresh_ := FreshOnly(queue, c.read);
    FreshOnly(fresh_ + StripAll(Unseen(fresh_, observations)), c.store)
  }

  function RunFates(u: State, queue: seq<Observation>, calls: seq<Call>): Fates
    decreases |calls|
  {
    if calls == [] then Fates({}, {}, {})
    else
      var call := calls[0];
      var success := Succeeds(u, call.clock, call.ok);
      Merge(FatesOf(queue, call.observations, call.clock, success),
            RunFates(Pushed(u, call.observations, call.clock, call.ok).0,
                     IdealStep(queue, call.observations, call.clock, success), calls[1..]))
  }

  /** Some call pushed an observation with this id. */
  ghost predicate WasPushed(calls: seq<Call>, id: string)
  {
    exists call, o :: call in calls && o in call.observations && o.id == id
  }

  lemma PushedFirstOrLater(calls: seq<Call>, id: string)
    requires calls != []
    ensures WasPushed(calls, id) ==> id in Ids(calls[0].observations) || WasPushed(calls[1..], id)
  {
    if call, o :| call in calls && o in call.observations && o.id == id {
      assert call == calls[0] || call in calls[1..];
    }
  }

  predicate Accounted(id: string, queue: seq<Observation>, f: Fates)
  {
    id in Ids(queue) || id in f.acknowledged || id in f.aged || id in f.evicted
  }

  /** The queue keeps the newest candidates: whatever is evicted stands in front of all of them. */
  ghost predicate EvictsOldest(young: seq<Observation>, kept: seq<Observation>, evicted: set<string>)
  {
    && |kept| <= |young| && young[|young| - |kept|..] == kept
    && forall i | 0 <= i < |young| && young[i].id in evicted :: i < |young| - |kept|
  }

  /** Each id a call had or was given stays, went out, was too old, or made room for newer ones. */
  lemma CallAccounts(queue: seq<Observation>, observations: seq<Observation>, c: Clock, success: bool)
    requires Monotone(c)
    ensures var f := FatesOf(queue, observations, c, success);
            var queue' := IdealStep(queue, observations, c, success);
            && (forall id | id in Ids(queue) || id in Ids(observations) :: Accounted(id, queue', f))
            && (f.evicted != {} ==> |queue'| == MAX_OBSERVATIONS)
            && (!success ==> EvictsOldest(Candidates(queue, observations, c), queue', f.evicted))
            && (forall id | id in f.aged :: exists o :: (o in queue || o in StripAll(observations)) && o.id == id && !Fresh(o, c.store))
  {
    var fresh_ := FreshOnly(queue, c.read);
    var unseen := Unseen(fresh_, observations);
    var next := fresh_ + StripAll(unseen);
    var f := FatesOf(queue, observations, c, success);
    if !success {
      NewestStay(queue, observations, c);
    }
    forall id | id in Ids(observations) ensures id in Ids(next) {
      var o :| o in observations && o.id == id;
      if id !in Ids(fresh_) {
        var k :| 0 <= k < |unseen| && unseen[k] == o;
        assert StripAll(unseen)[k].id == id && StripAll(unseen)[k] in next;
      } else {
        var w :| w in fresh_ && w.id == id;
        assert w in next;
      }
    }
    forall id | id in f.aged ensures exists o :: (o in queue || o in StripAll(observations)) && o.id == id && !Fresh(o, c.store) {
      AgedIsStale(queue, observations, c, success, id);
    }
  }

  lemma NewestStay(queue: seq<Observation>, observations: seq<Observation>, c: Clock)
    ensures EvictsOldest(Candidates(queue, observations, c), IdealStep(queue, observations, c, false),
                         FatesOf(queue, observations, c, false).evicted)
  {
    var young, kept := Candidates(queue, observations, c), IdealStep(queue, observations, c, false);
    assert kept == Last(young, MAX_OBSERVATIONS);
    forall i | |young| - |kept| <= i < |young| ensures young[i].id in Ids(kept) {
      assert young[i] == kept[i - (|young| - |kept|)];
    }
  }

  lemma AgedIsStale(queue: seq<Observation>, observations: seq<Observation>, c: Clock, success: bool, id: string)
    requires Monotone(c) && id in FatesOf(queue, observations, c, success).aged
    ensures exists o :: (o in queue || o in StripAll(observations)) && o.id == id && !Fresh(o, c.store)
  {
    var fresh_ := FreshOnly(queue, c.read);
    var unseen := Unseen(fresh_, observations);
    var next := fresh_ + StripAll(unseen);
    if id in Ids(next) {
      var o :| o in next && o.id == id;
      assert o !in FreshOnly(next, c.store);
      if o !in queue {
        StrippedIsPushed(fresh_, observations, o);
      }
    } else {
      var o :| o in queue && o.id == id;
      assert forall w | w in fresh_ :: w in next;
    }
  }

  lemma StrippedIsPushed(fresh_: seq<Observation>, observations: seq<Observation>, o: Observation)
    requires o in StripAll(Unseen(fresh_, observations))
    ensures o in StripAll(observations)
  {
    var unseen := Unseen(fresh_, observations);
    var k :| 0 <= k < |unseen| && StripAll(unseen)[k] == o;
    var m :| 0 <= m < |observations| && observations[m] == unseen[k];
    assert StripAll(observations)[m] == o;
  }

  lemma AccountedLater(id: string, next: seq<Observation>, end: seq<Observation>, f: Fates, g: Fates)
    requires Accounted(id, next, f) && (id in Ids(next) ==> Accounted(id, end, g))
    ensures Accounted(id, end, Merge(f, g))
  {
  }

  /** Over any history: every pushed observation is acknowledged, pending, aged out or evicted. */
  lemma {:induction false} NothingIsLost(u: State, queue: seq<Observation>, calls: seq<Call>, from: int, id: string)
    requires Orderly(calls, from) && (id in Ids(queue) || WasPushed(calls, id))
    ensures Accounted(id, IdealRun(u, queue, calls), RunFates(u, queue, calls))
    decreases |calls|
  {
    if calls != [] {
      var call := calls[0];
      var success := Succeeds(u, call.clock, call.ok);
      var u' := Pushed(u, call.observations, call.clock, call.ok).0;
      var queue' := IdealStep(queue, call.observations, call.clock, success);
      var f, g := FatesOf(queue, call.observations, call.clock, success), RunFates(u', queue', calls[1..]);
      CallAccounts(queue, call.observations, call.clock, success);
      PushedFirstOrLater(calls, id);
      if id in Ids(queue') || WasPushed(calls[1..], id) {
        NothingIsLost(u', queue', calls[1..], call.clock.store, id);
      }
      if id in Ids(queue) || id in Ids(call.observations) {
        AccountedLater(id, queue', IdealRun(u', queue', calls[1..]), f, g);
      }
    }
  }

  /** What the queue counts as acknowledged is what the call really sent. */
  lemma AcknowledgedWasSent(u: State, queue: seq<Observation>, observations: seq<Observation>, c: Clock)
    requires Represents(u.stored, queue, c.read) && Succeeds(u, c, true)
    ensures var sent := Pushed(u, observations, c, true).1.sent;
            Ids(if sent.Some? then sent.value else []) == FatesOf(queue, observations, c, true).acknowledged
  {
    var f, d := FreshOnly(u.stored, c.read), FreshOnly(queue, c.read);
    SameIds(u.stored, queue, c.read);
    var unseen := Unseen(f, observations);
    StripConcat(f, unseen);
    StrippedStays(f);
    assert Ids(f + StripAll(unseen)) == Ids(f) + Ids(StripAll(unseen));
    assert Ids(d + StripAll(unseen)) == Ids(d) + Ids(StripAll(unseen));
  }

  /** Nothing leaves, and nothing is kept, outside the schema. */
  lemma OnlySchemaFieldsLeave(u: State, observations: seq<Observation>, c: Clock, ok: bool)
    requires forall o | o in u.stored :: o.fields.Keys <= OBSERVATION_FIELDS
    ensures var (u', outcome) := Pushed(u, observations, c, ok);
            && (forall o | o in u'.stored :: o.fields.Keys <= OBSERVATION_FIELDS)
            && (outcome.sent.Some? ==> forall o | o in outcome.sent.value :: o.fields.Keys <= OBSERVATION_FIELDS)
  {
    var waiting := FreshOnly(u.stored, c.read);
    var batch := waiting + Unseen(waiting, observations);
    forall o | o in StripAll(batch) ensures o.fields.Keys <= OBSERVATION_FIELDS {
      var i :| 0 <= i < |batch| && StripAll(batch)[i] == o;
    }
    forall o | o in Enqueued(u.stored, batch, c.store) ensures o.fields.Keys <= OBSERVATION_FIELDS {
      assert o in FreshOnly(u.stored + StripAll(batch), c.store);
    }
  }

  // ----------------------------------------------------------------------- backoff

  /** How many calls of a history reached the network. */
  function Uploads(u: State, calls: seq<Call>): nat
    decreases |calls|
  {
    if calls == [] then 0
    else
      var (u', outcome) := Pushed(u, calls[0].observations, calls[0].clock, calls[0].ok);
      (if outcome.sent.Some? then 1 else 0) + Uploads(u', calls[1..])
  }

  /** The clock never goes back, every upload fails, and the last reading is at most `end`. */
  ghost predicate FailingUntil(calls: seq<Call>, from: int, end: int)
    decreases |calls|
  {
    if calls == [] then from <= end
    else !calls[0].ok && Monotone(calls[0].clock) && from <= calls[0].clock.read
         && FailingUntil(calls[1..], calls[0].clock.store, end)
  }

  /** Uploads that fit between `start` and `end` when each waits out its backoff and no longer. */
  function Budget(failures: nat, start: int, end: int): nat
    decreases if end - start < 0 then 0 else end - start + 1
  {
    if start > end then 0 else 1 + Budget(failures + 1, start + StepSeconds(failures + 1) * 1000, end)
  }

  lemma StepsGrow(a: nat, b: nat)
    requires 1 <= a <= b
    ensures StepSeconds(a) <= StepSeconds(b)
  {
  }

  /** Starting later or after more failures never allows more uploads. */
  lemma {:induction false} BudgetShrinks(f: nat, g: nat, s: int, t: int, end: int)
    requires f <= g && s <= t
    ensures Budget(g, t, end) <= Budget(f, s, end)
    decreases if end - t < 0 then 0 else end - t + 1
  {
    if t <= end {
      StepsGrow(f + 1, g + 1);
      BudgetShrinks(f + 1, g + 1, s + StepSeconds(f + 1) * 1000, t + StepSeconds(g + 1) * 1000, end);
    }
  }

  function Later(a: int, b: int): int
  {
    if a < b then b else a
  }

  lemma {:induction false} EndIsLater(calls: seq<Call>, from: int, end: int)
    requires FailingUntil(calls, from, end)
    ensures from <= end
    decreases |calls|
  {
    if calls != [] {
      EndIsLater(calls[1..], calls[0].clock.store, end);
    }
  }

  /** A call that fails to go out changes no backoff; one that goes out and fails waits longer. */
  lemma FailedCallBacksOff(u: State, call: Call)
    requires !call.ok
    ensures var (u', outcome) := Pushed(u, call.observations, call.clock, call.ok);
            if outcome.sent.Some? then
              call.clock.check >= u.notBefore && u'.failures == u.failures + 1
              && u'.notBefore == call.clock.fail + StepSeconds(u.failures + 1) * 1000
            else u'.failures == u.failures && u'.notBefore == u.notBefore
  {
  }

  /** One upload costs one unit of budget. */
  lemma UploadCostsOne(failures: nat, notBefore: int, from: int, c: Clock, end: int)
    requires Monotone(c) && from <= c.read && notBefore <= c.check && c.store <= end
    ensures 1 + Budget(failures + 1, Later(c.store, c.fail + StepSeconds(failures + 1) * 1000), end)
              <= Budget(failures, Later(from, notBefore), end)
  {
    var start, step := Later(from, notBefore), StepSeconds(failures + 1) * 1000;
    BudgetShrinks(failures + 1, failures + 1, start + step, Later(c.store, c.fail + step), end);
  }

  lemma {:induction false} UploadsWithinBudget(u: State, calls: seq<Call>, from: int, end: int)
    requires FailingUntil(calls, from, end)
    ensures Uploads(u, calls) <= Budget(u.failures, Later(from, u.notBefore), end)
    decreases |calls|
  {
    if calls != [] {
      var c := calls[0].clock;
      var (u', outcome) := Pushed(u, calls[0].observations, c, calls[0].ok);
      EndIsLater(calls[1..], c.store, end);
      UploadsWithinBudget(u', calls[1..], c.store, end);
      CallWithinBudget(u, calls[0], from, end);
    }
  }

  /** What a failing call spends and what it leaves to spend fit into what there was. */
  lemma CallWithinBudget(u: State, call: Call, from: int, end: int)
    requires !call.ok && Monotone(call.clock) && from <= call.clock.read && call.clock.store <= end
    ensures var (u', outcome) := Pushed(u, call.observations, call.clock, call.ok);
            (if outcome.sent.Some? then 1 else 0) + Budget(u'.failures, Later(call.clock.store, u'.notBefore), end)
              <= Budget(u.failures, Later(from, u.notBefore), end)
  {
    FailedCallBacksOff(u, call);
    if Pushed(u, call.observations, call.clock, call.ok).1.sent.Some? {
      UploadCostsOne(u.failures, u.notBefore, from, call.clock, end);
    } else {
      BudgetShrinks(u.failures, u.failures, Later(from, u.notBefore), Later(call.clock.store, u.notBefore), end);
    }
  }

  /** From the fourth failure on: one upload every five minutes. */
  lemma {:induction false} SteadyBudget(failures: nat, start: int, end: int)
    requires failures >= 3 && start <= end
    ensures Budget(failures, start, end) == 1 + (end - start) / 300_000
    decreases end - start
  {
    var next := start + StepSeconds(failures + 1) * 1000;
    assert next == start + 300_000;
    if next <= end {
      SteadyBudget(failures + 1, next, end);
    } else {
      assert Budget(failures + 1, next, end) == 0;
    }
  }

  /** The budget of a fresh uploader over a window of milliseconds, exactly. */
  function FreshBudget(window: nat): nat
  {
    if window < 5_000 then 1 else if window < 20_000 then 2 else if window < 80_000 then 3 else 4 + (window - 80_000) / 300_000
  }

  lemma BudgetOfFresh(start: int, window: nat)
    ensures Budget(0, start, start + window) == FreshBudget(window)
  {
    var end := start + window;
    assert Budget(0, start, end) == 1 + Budget(1, start + 5_000, end);
    assert Budget(1, start + 5_000, end) == if start + 5_000 > end then 0 else 1 + Budget(2, start + 20_000, end);
    assert Budget(2, start + 20_000, end) == if start + 20_000 > end then 0 else 1 + Budget(3, start + 80_000, end);
    if window >= 80_000 {
      SteadyBudget(3, start + 80_000, end);
    }
  }

  /** However often it is called, a failing uploader makes at most 4 + floor(max(0, T - 80) / 300) uploads in T seconds. */
  lemma BackoffBound(u: State, calls: seq<Call>, from: int, seconds: nat)
    requires FailingUntil(calls, from, from + seconds * 1000)
    ensures Uploads(u, calls) <= 4 + (if seconds > 80 then (seconds - 80) / 300 else 0)
  {
    var end := from + seconds * 1000;
    UploadsWithinBudget(u, calls, from, end);
    BudgetShrinks(0, u.failures, from, Later(from, u.notBefore), end);
    BudgetOfFresh(from, seconds * 1000);
    if seconds >= 80 {
      assert (seconds * 1000 - 80_000) / 300_000 == (seconds - 80) / 300;
    }
  }
}
