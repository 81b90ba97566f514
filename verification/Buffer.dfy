/** Observations waiting to be uploaded: bounded in size, age and content. */
module Buffer {
  import opened Wrappers

  const MAX_OBSERVATIONS: nat := 2000
  const MAX_AGE_MS: int := 72 * 60 * 60 * 1000

  const SCHEMA := "local-usage-observation-v1"

  /** The whole vocabulary an observation may use. */
  const OBSERVATION_FIELDS: set<string> := {
    "schema", "adapter", "tool", "toolVersion", "sourceType", "provider", "model", "upstreamRequestId",
    "inputTokens", "outputTokens", "cacheReadTokens", "cacheWriteTokens", "reasoningTokens", "toolTokens",
    "estimatedCostMicros", "occurredAt", "localSessionId", "localEventId"}

  /**
   * `id` is the local event id and `at` the parsed time of occurrence in
   * milliseconds, absent when it does not parse; both are schema fields and
   * survive stripping. `fields` are the remaining keys.
   */
  datatype Observation = Observation(id: string, at: Option<int>, fields: map<string, string>)

  function Strip(o: Observation): (s: Observation)
    ensures s.id == o.id && s.at == o.at && s.fields.Keys <= OBSERVATION_FIELDS
  {
    o.(fields := (map k | k in o.fields && k in OBSERVATION_FIELDS :: o.fields[k])["schema" := SCHEMA])
  }

  function StripAll(s: seq<Observation>): (t: seq<Observation>)
    ensures |t| == |s| && forall i | 0 <= i < |s| :: t[i] == Strip(s[i])
  {
    seq(|s|, i requires 0 <= i < |s| => Strip(s[i]))
  }

  lemma StripTwice(o: Observation)
    ensures Strip(Strip(o)) == Strip(o)
  {
    assert Strip(Strip(o)).fields == Strip(o).fields;
  }

  predicate Fresh(o: Observation, now: int)
  {
    o.at.Some? && now - o.at.value <= MAX_AGE_MS
  }

  function FreshOnly(s: seq<Observation>, now: int): (t: seq<Observation>)
    ensures forall o :: o in t <==> o in s && Fresh(o, now)
  {
    if s == [] then []
    else if Fresh(s[0], now) then [s[0]] + FreshOnly(s[1..], now)
    else FreshOnly(s[1..], now)
  }

  function Last(s: seq<Observation>, n: nat): (t: seq<Observation>)
    ensures |t| == if |s| <= n then |s| else n
  {
    if |s| <= n then s else s[|s| - n..]
  }

  function Ids(s: seq<Observation>): set<string>
  {
    set o | o in s :: o.id
  }

  function Without(s: seq<Observation>, ids: set<string>): (t: seq<Observation>)
    ensures forall o :: o in t <==> o in s && o.id !in ids
  {
    if s == [] then []
    else if s[0].id in ids then Without(s[1..], ids)
    else [s[0]] + Without(s[1..], ids)
  }

  function Enqueued(stored: seq<Observation>, batch: seq<Observation>, now: int): (kept: seq<Observation>)
    ensures |kept| <= MAX_OBSERVATIONS
  {
    Last(FreshOnly(stored + StripAll(batch), now), MAX_OBSERVATIONS)
  }

  ghost predicate Increasing(at: seq<nat>)
  {
    forall i, j | 0 <= i < j < |at| :: at[i] < at[j]
  }

  /** Element `i` of `t` stands at position `at[i]` of `s` and passes `keep`. */
  ghost predicate StandAt(at: seq<nat>, t: seq<Observation>, s: seq<Observation>, keep: Observation -> bool)
  {
    |at| == |t| && forall i | 0 <= i < |at| :: at[i] < |s| && t[i] == s[at[i]] && keep(t[i])
  }

  ghost predicate AllListed(at: seq<nat>, s: seq<Observation>, keep: Observation -> bool)
  {
    forall k: nat | k < |s| && keep(s[k]) :: k in at
  }

  /** `t` is what passes `keep` in `s`, in order, and `at` says where each element stood. */
  ghost predicate Picks(at: seq<nat>, t: seq<Observation>, s: seq<Observation>, keep: Observation -> bool)
  {
    Increasing(at) && StandAt(at, t, s, keep) && AllListed(at, s, keep)
  }

  /** The elements of `s` that pass `keep`: all of them, no others, each once, in their order. */
  ghost predicate Selects(t: seq<Observation>, s: seq<Observation>, keep: Observation -> bool)
  {
    exists at :: Picks(at, t, s, keep)
  }

  lemma SelectedIsThere(t: seq<Observation>, s: seq<Observation>, keep: Observation -> bool)
    requires Selects(t, s, keep)
    ensures forall o | o in t :: o in s
  {
    var at :| Picks(at, t, s, keep);
    assert StandAt(at, t, s, keep);
    forall i | 0 <= i < |t| ensures t[i] in s {
      assert t[i] == s[at[i]];
    }
  }

  function FreshAt(now: int): Observation -> bool
  {
    (o: Observation) => o.at.Some? && now - o.at.value <= 259_200_000
  }

  function NotAmong(ids: set<string>): Observation -> bool
  {
    (o: Observation) => o.id !in ids
  }

  /** Positions in a tail, as positions in the whole. */
  function Moved(at: seq<nat>): (all: seq<nat>)
    ensures |all| == |at| && forall i | 0 <= i < |at| :: all[i] == at[i] + 1
  {
    seq(|at|, i requires 0 <= i < |at| => at[i] + 1)
  }

  lemma MovedIncreases(at: seq<nat>)
    requires Increasing(at)
    ensures Increasing(Moved(at)) && Increasing([0] + Moved(at))
  {
    var all := [0] + Moved(at);
    forall i, j | 0 <= i < j < |all| ensures all[i] < all[j] {
      assert all[j] == Moved(at)[j - 1];
      if i > 0 {
        assert all[i] == Moved(at)[i - 1];
      }
    }
  }

  lemma MovedStand(at: seq<nat>, t: seq<Observation>, s: seq<Observation>, keep: Observation -> bool)
    requires s != [] && StandAt(at, t, s[1..], keep)
    ensures StandAt(Moved(at), t, s, keep)
    ensures keep(s[0]) ==> StandAt([0] + Moved(at), [s[0]] + t, s, keep)
  {
    assert StandAt(Moved(at), t, s, keep);
    var all, u := [0] + Moved(at), [s[0]] + t;
    if keep(s[0]) {
      forall i | 0 <= i < |all| ensures all[i] < |s| && u[i] == s[all[i]] && keep(u[i]) {
        if i > 0 {
          assert all[i] == Moved(at)[i - 1] && u[i] == t[i - 1];
        }
      }
    }
  }

  lemma MovedListsTail(at: seq<nat>, s: seq<Observation>, keep: Observation -> bool, k: nat)
    requires 0 < k < |s| && AllListed(at, s[1..], keep) && keep(s[k])
    ensures k in Moved(at)
  {
    assert s[1..][k - 1] == s[k];
    var i :| 0 <= i < |at| && at[i] == k - 1;
    assert Moved(at)[i] == k;
  }

  lemma MovedListAll(at: seq<nat>, s: seq<Observation>, keep: Observation -> bool)
    requires s != [] && AllListed(at, s[1..], keep)
    ensures AllListed([0] + Moved(at), s, keep)
    ensures !keep(s[0]) ==> AllListed(Moved(at), s, keep)
  {
    forall k: nat | 0 < k < |s| && keep(s[k]) ensures k in Moved(at) {
      MovedListsTail(at, s, keep, k);
    }
  }

  lemma SelectsCons(t: seq<Observation>, s: seq<Observation>, keep: Observation -> bool)
    requires s != [] && Selects(t, s[1..], keep)
    ensures keep(s[0]) ==> Selects([s[0]] + t, s, keep)
    ensures !keep(s[0]) ==> Selects(t, s, keep)
  {
    var at :| Picks(at, t, s[1..], keep);
    MovedIncreases(at);
    MovedStand(at, t, s, keep);
    MovedListAll(at, s, keep);
    if keep(s[0]) {
      assert Picks([0] + Moved(at), [s[0]] + t, s, keep);
    } else {
      assert Picks(Moved(at), t, s, keep);
    }
  }

  lemma {:induction false} FreshOnlySelects(s: seq<Observation>, now: int)
    ensures Selects(FreshOnly(s, now), s, FreshAt(now))
  {
    if s == [] {
      assert Picks([], [], s, FreshAt(now));
    } else {
      FreshOnlySelects(s[1..], now);
      SelectsCons(FreshOnly(s[1..], now), s, FreshAt(now));
    }
  }

  lemma {:induction false} WithoutSelects(s: seq<Observation>, ids: set<string>)
    ensures Selects(Without(s, ids), s, NotAmong(ids))
  {
    if s == [] {
      assert Picks([], [], s, NotAmong(ids));
    } else {
      WithoutSelects(s[1..], ids);
      SelectsCons(Without(s[1..], ids), s, NotAmong(ids));
    }
  }

  // ------------------------------------------------------------------ what is kept of one

  /** What may leave of `o`: id, time, every schema field as it was, and the schema named; nothing else. */
  ghost predicate CutFrom(s: Observation, o: Observation)
  {
    && s.id == o.id && s.at == o.at
    && "schema" in s.fields && s.fields["schema"] == "local-usage-observation-v1"
    && forall k | k != "schema" ::
         (k in s.fields <==> k in o.fields && k in OBSERVATION_FIELDS) && (k in s.fields ==> s.fields[k] == o.fields[k])
  }

  ghost predicate CutsFrom(t: seq<Observation>, s: seq<Observation>)
  {
    |t| == |s| && forall i | 0 <= i < |s| :: CutFrom(t[i], s[i])
  }

  lemma StripCuts(s: seq<Observation>)
    ensures CutsFrom(StripAll(s), s)
  {
  }

  /** `kept` is the end of the fresh ones in `all`: all of them, or the newest two thousand. */
  ghost predicate NewestFresh(kept: seq<Observation>, all: seq<Observation>, now: int)
  {
    exists young :: Selects(young, all, FreshAt(now)) && KeepsEnd(kept, young)
  }

  ghost predicate KeepsEnd(kept: seq<Observation>, young: seq<Observation>)
  {
    |kept| == (if |young| < 2000 then |young| else 2000) && kept == young[|young| - |kept|..]
  }

  lemma LastKeepsEnd(young: seq<Observation>)
    ensures KeepsEnd(Last(young, MAX_OBSERVATIONS), young)
  {
    assert young[0..] == young;
  }

  /** Enqueueing keeps the newest two thousand of the fresh ones, what was stored and then what was cut from the batch. */
  lemma EnqueueKeepsNewest(stored: seq<Observation>, batch: seq<Observation>, now: int)
    ensures NewestFresh(Enqueued(stored, batch, now), stored + StripAll(batch), now)
  {
    FreshOnlySelects(stored + StripAll(batch), now);
    LastKeepsEnd(FreshOnly(stored + StripAll(batch), now));
  }

  class BufferFile {
    var stored: seq<Observation>

    constructor ()
      ensures stored == []
    {
      stored := [];
    }

    /** Append the stripped observations, drop the stale, keep the newest that fit. */
    method Enqueue(batch: seq<Observation>, now: int) returns (waiting: nat)
      modifies this
      ensures stored == Enqueued(old(stored), batch, now) && waiting == |stored|
    {
      var merged := FreshOnly(stored + StripAll(batch), now);
      stored := Last(merged, MAX_OBSERVATIONS);
      waiting := |stored|;
    }

    /** What can still be uploaded, in stored order; the stored list stays as it is. */
    method Pending(now: int) returns (waiting: seq<Observation>)
      ensures Selects(waiting, stored, FreshAt(now))
      ensures waiting == FreshOnly(stored, now)
    {
      waiting := FreshOnly(stored, now);
      FreshOnlySelects(stored, now);
    }

    /** The named observations leave; the others stay, in order. */
    method Acknowledge(ids: set<string>)
      modifies this
      ensures Selects(stored, old(stored), NotAmong(ids))
      ensures stored == Without(old(stored), ids)
    {
      WithoutSelects(stored, ids);
      stored := Without(stored, ids);
    }

    method Clear()
      modifies this
      ensures stored == []
    {
      stored := [];
    }
  }

  // -------------------------------------------------------------- list properties

  lemma {:induction false} FreshConcat(a: seq<Observation>, b: seq<Observation>, now: int)
    ensures FreshOnly(a + b, now) == FreshOnly(a, now) + FreshOnly(b, now)
  {
    if a == [] {
      assert a + b == b;
    } else {
      assert (a + b)[1..] == a[1..] + b;
      FreshConcat(a[1..], b, now);
    }
  }

  /** What is fresh later was fresh before. */
  lemma {:induction false} FreshLater(s: seq<Observation>, before: int, now: int)
    requires before <= now
    ensures FreshOnly(FreshOnly(s, before), now) == FreshOnly(s, now)
  {
    if s != [] {
      FreshLater(s[1..], before, now);
      if Fresh(s[0], before) {
        assert FreshOnly(s, before)[1..] == FreshOnly(s[1..], before);
      }
    }
  }

  ghost predicate DistinctIds(s: seq<Observation>)
  {
    forall i, j | 0 <= i < j < |s| :: s[i].id != s[j].id
  }

  lemma {:induction false} FreshKeepsDistinct(s: seq<Observation>, now: int)
    requires DistinctIds(s)
    ensures DistinctIds(FreshOnly(s, now))
  {
    if s != [] {
      FreshKeepsDistinct(s[1..], now);
      forall o | o in FreshOnly(s[1..], now) ensures o.id != s[0].id {
        var k :| 0 <= k < |s| - 1 && s[1..][k] == o;
        assert s[k + 1] == o;
      }
    }
  }

  /** The distinct observations in a list, each at its last occurrence. */
  function Distinct(s: seq<Observation>): (t: seq<Observation>)
    ensures forall o | o in t :: o in s
  {
    if s == [] then []
    else if s[0].id in Ids(s[1..]) then Distinct(s[1..])
    else [s[0]] + Distinct(s[1..])
  }

  lemma {:induction false} DistinctOfDistinct(s: seq<Observation>)
    requires DistinctIds(s)
    ensures Distinct(s) == s
  {
    if s != [] {
      DistinctOfDistinct(s[1..]);
    }
  }

  /** Repeats in front of a duplicate-free list are all there is to drop. */
  lemma {:induction false} DistinctDropsRepeats(p: seq<Observation>, d: seq<Observation>)
    requires DistinctIds(d) && forall o | o in p :: o in d
    ensures Distinct(p + d) == d
  {
    if p == [] {
      assert p + d == d;
      DistinctOfDistinct(d);
    } else {
      assert (p + d)[1..] == p[1..] + d;
      DistinctDropsRepeats(p[1..], d);
      assert p[0] in d;
      assert p[0] in p[1..] + d;
    }
  }

  lemma {:induction false} AllFresh(s: seq<Observation>, now: int)
    requires forall o | o in s :: Fresh(o, now)
    ensures FreshOnly(s, now) == s
  {
    if s != [] {
      AllFresh(s[1..], now);
    }
  }

  lemma {:induction false} NoneFresh(s: seq<Observation>, now: int)
    requires forall o | o in s :: !Fresh(o, now)
    ensures FreshOnly(s, now) == []
  {
    if s != [] {
      NoneFresh(s[1..], now);
    }
  }
}
