/**
 * Dividing a pool of whole points by score, with largest remainders.
 *
 * Scores are stored with four decimals; they are integers here, in
 * ten-thousandths of a point, and quotients are exact. The share of a
 * participant in the pool is `score * pool / network`.
 */
module Allocation {
  import opened Sums
  import opened Sorting
  import opened Text

  datatype Participant = Participant(userId: string, score: int)

  datatype Share = Share(userId: string, score: int, points: int)

  predicate Eligible(p: Participant)
  {
    p.score > 0
  }

  function EligibleOf(ps: seq<Participant>): (es: seq<Participant>)
    ensures forall p | p in es :: p in ps && p.score > 0
    ensures forall p | p in ps && p.score > 0 :: p in es
  {
    if ps == [] then []
    else if Eligible(ps[0]) then [ps[0]] + EligibleOf(ps[1..])
    else EligibleOf(ps[1..])
  }

  /** The score of a participant, when it counts. */
  function ScoreTerm(): Participant -> int
  {
    (p: Participant) => if Eligible(p) then p.score else 0
  }

  function NetworkScore(ps: seq<Participant>): (n: int)
    ensures n >= 0
    ensures n == 0 <==> forall p | p in ps :: !Eligible(p)
  {
    if ps == [] then 0 else ScoreTerm()(ps[0]) + NetworkScore(ps[1..])
  }

  /** Whole points of the exact quotient; nothing for a participant without score. */
  function Floor(p: Participant, network: int, pool: nat): int
  {
    if network <= 0 || !Eligible(p) then 0 else p.score * pool / network
  }

  function Remainder(p: Participant, network: int, pool: nat): int
  {
    if network <= 0 || !Eligible(p) then 0 else p.score * pool % network
  }

  /** The order bonus points are handed out in. */
  function Before(network: int, pool: nat): (Participant, Participant) -> bool
  {
    (a: Participant, b: Participant) =>
      var ra, rb := Remainder(a, network, pool), Remainder(b, network, pool);
      ra > rb || (ra == rb && (a.score > b.score || (a.score == b.score && StrLess(a.userId, b.userId))))
  }

  function FloorTerm(network: int, pool: nat): Participant -> int
  {
    (p: Participant) => Floor(p, network, pool)
  }

  function Leftover(ps: seq<Participant>, pool: nat): int
  {
    var network := NetworkScore(ps);
    if network <= 0 then 0 else pool - Sum(ps, FloorTerm(network, pool))
  }

  // ------------------------------------------------------------ specification

  function BeforeTerm(p: Participant, network: int, pool: nat): Participant -> int
  {
    (q: Participant) => if Eligible(q) && Before(network, pool)(q, p) then 1 else 0
  }

  /** How many scoring participants are served before `p`. */
  function Rank(ps: seq<Participant>, p: Participant, pool: nat): int
  {
    Sum(ps, BeforeTerm(p, NetworkScore(ps), pool))
  }

  function Bonus(ps: seq<Participant>, pool: nat, p: Participant): int
  {
    if Eligible(p) && Rank(ps, p, pool) < Leftover(ps, pool) then 1 else 0
  }

  /** What a participant is owed: no list of winners, no order of rows. */
  function Owed(ps: seq<Participant>, pool: nat, p: Participant): int
  {
    Floor(p, NetworkScore(ps), pool) + Bonus(ps, pool, p)
  }

  function Points(ps: seq<Participant>, pool: nat): Participant -> int
  {
    (p: Participant) => Owed(ps, pool, p)
  }

  ghost predicate DistinctUsers(ps: seq<Participant>)
  {
    forall i, j | 0 <= i < j < |ps| :: ps[i].userId != ps[j].userId
  }

  // ------------------------------------------------- the serving order is total

  lemma BeforeIsStrictWeak(network: int, pool: nat)
    ensures StrictWeakOrder(Before(network, pool))
  {
    var less := Before(network, pool);
    forall x, y ensures less(x, y) ==> !less(y, x) {
      StrLessIsTotal(x.userId, y.userId);
    }
    forall x, y, z ensures less(x, z) ==> less(x, y) || less(y, z) {
      StrLessIsTotal(x.userId, y.userId);
      StrLessIsTotal(y.userId, z.userId);
      if StrLess(y.userId, x.userId) && StrLess(x.userId, z.userId) {
        StrLessIsTransitive(y.userId, x.userId, z.userId);
      }
    }
  }

  function Served(ps: seq<Participant>, pool: nat): seq<Participant>
  {
    Sort(EligibleOf(ps), Before(NetworkScore(ps), pool))
  }

  lemma {:induction false} EligibleKeepsDistinct(ps: seq<Participant>)
    requires DistinctUsers(ps)
    ensures DistinctUsers(EligibleOf(ps))
  {
    if ps != [] {
      EligibleKeepsDistinct(ps[1..]);
    }
  }

  /** Distinct users stay distinct under reordering. */
  lemma DistinctUnderPermutation(ps: seq<Participant>, qs: seq<Participant>)
    requires DistinctUsers(ps) && multiset(ps) == multiset(qs)
    ensures DistinctUsers(qs)
  {
    forall i, j | 0 <= i < j < |qs| ensures qs[i].userId != qs[j].userId {
      if qs[i].userId == qs[j].userId {
        assert qs[i] in multiset(ps) && qs[j] in multiset(ps);
        assert qs[i] in ps && qs[j] in ps;
        assert qs[i] == qs[j];
        assert qs == qs[..i] + [qs[i]] + qs[i + 1..j] + [qs[j]] + qs[j + 1..];
        assert multiset(qs)[qs[i]] >= 2;
        AtMostOnce(ps, qs[i]);
      }
    }
  }

  lemma {:induction false} AtMostOnce(ps: seq<Participant>, p: Participant)
    requires DistinctUsers(ps)
    ensures multiset(ps)[p] <= 1
  {
    if ps != [] {
      AtMostOnce(ps[1..], p);
      assert ps == [ps[0]] + ps[1..];
      if ps[0] == p {
        assert p !in ps[1..];
      }
    }
  }

  lemma {:induction false} SumOfEligible(ps: seq<Participant>, f: Participant -> int)
    requires forall p | p in ps && !Eligible(p) :: f(p) == 0
    ensures Sum(EligibleOf(ps), f) == Sum(ps, f)
  {
    if ps != [] {
      SumOfEligible(ps[1..], f);
      if Eligible(ps[0]) {
        assert EligibleOf(ps)[1..] == EligibleOf(ps[1..]);
      }
    }
  }

  /** The rank of a participant is its position in the serving order. */
  lemma RankIsPosition(ps: seq<Participant>, pool: nat, i: nat)
    requires DistinctUsers(ps) && i < |Served(ps, pool)|
    ensures Rank(ps, Served(ps, pool)[i], pool) == i
  {
    var network, order := NetworkScore(ps), Served(ps, pool);
    var less, p := Before(network, pool), order[i];
    var term := BeforeTerm(p, network, pool);
    BeforeIsStrictWeak(network, pool);
    SortIsOrdered(EligibleOf(ps), less);
    EligibleKeepsDistinct(ps);
    DistinctUnderPermutation(EligibleOf(ps), order);
    SumOfEligible(ps, term);
    SumPermutation(EligibleOf(ps), order, term);
    forall k | 0 <= k < |order| ensures term(order[k]) == if k < i then 1 else 0 {
      assert order[k] in multiset(EligibleOf(ps));
      assert order[k] in EligibleOf(ps);
      StrLessIsTotal(order[k].userId, p.userId);
    }
    SumOfLeadingOnes(order, i, term);
  }

  // ------------------------------------------------------- the pool is conserved

  lemma {:induction false} NetworkIsSum(ps: seq<Participant>)
    ensures NetworkScore(ps) == Sum(ps, ScoreTerm())
  {
    if ps != [] {
      NetworkIsSum(ps[1..]);
    }
  }

  lemma Distribute(k: int, a: int, b: int)
    ensures k * (a + b) == k * a + k * b
  {
  }

  /** One quotient: the floor, and a remainder below the divisor. */
  lemma FloorAndRemainder(p: Participant, network: int, pool: nat)
    requires network > 0
    ensures pool * ScoreTerm()(p) == network * Floor(p, network, pool) + Remainder(p, network, pool)
    ensures 0 <= Floor(p, network, pool)
    ensures 0 <= Remainder(p, network, pool) <= if Eligible(p) then network - 1 else 0
  {
    if Eligible(p) {
      var product := p.score * pool;
      assert product >= 0;
      assert product == network * (product / network) + product % network;
    }
  }

  /** One for every participant whose quotient is not whole. */
  function FractionTerm(network: int, pool: nat): Participant -> int
  {
    (p: Participant) => if Remainder(p, network, pool) > 0 then 1 else 0
  }

  lemma AddQuotients(k: int, n: int, s1: int, f1: int, r1: int, s2: int, f2: int, r2: int)
    requires k * s1 == n * f1 + r1 && k * s2 == n * f2 + r2
    ensures k * (s1 + s2) == n * (f1 + f2) + (r1 + r2)
  {
  }

  function RemainderTerm(network: int, pool: nat): Participant -> int
  {
    (p: Participant) => Remainder(p, network, pool)
  }

  /** What the floors leave behind is the sum of the remainders. */
  lemma {:induction false} FloorsFallShort(qs: seq<Participant>, network: int, pool: nat)
    requires network > 0
    ensures pool * NetworkScore(qs)
         == network * Sum(qs, FloorTerm(network, pool)) + Sum(qs, RemainderTerm(network, pool))
  {
    if qs != [] {
      var p, f, r := qs[0], FloorTerm(network, pool), RemainderTerm(network, pool);
      FloorsFallShort(qs[1..], network, pool);
      FloorAndRemainder(p, network, pool);
      AddQuotients(pool, network, ScoreTerm()(p), f(p), r(p), NetworkScore(qs[1..]), Sum(qs[1..], f), Sum(qs[1..], r));
    }
  }

  /** Less than one point for each quotient that is not whole. */
  lemma {:induction false} RemaindersAreSmall(qs: seq<Participant>, network: int, pool: nat)
    requires network > 0
    ensures 0 <= Sum(qs, RemainderTerm(network, pool)) <= (network - 1) * Sum(qs, FractionTerm(network, pool))
    ensures 0 <= Sum(qs, FractionTerm(network, pool)) <= |EligibleOf(qs)|
  {
    if qs != [] {
      RemaindersAreSmall(qs[1..], network, pool);
      FloorAndRemainder(qs[0], network, pool);
      Distribute(network - 1, FractionTerm(network, pool)(qs[0]), Sum(qs[1..], FractionTerm(network, pool)));
    }
  }

  lemma SmallQuotient(network: int, left: int, count: nat)
    requires network > 0 && 0 <= network * left <= (network - 1) * count
    ensures 0 <= left <= count
    ensures count > 0 ==> left < count
  {
    assert left < 0 ==> network * left < 0;
    assert left >= count ==> network * left >= network * count;
    assert network * count == (network - 1) * count + count;
  }

  lemma WhatIsLeft(pool: int, network: int, floors: int, rest: int, left: int)
    requires pool * network == network * floors + rest && left == pool - floors
    ensures rest == network * left
  {
    Distribute(network, floors, left);
  }

  lemma LeftoverIsSmall(ps: seq<Participant>, pool: nat)
    ensures 0 <= Leftover(ps, pool) <= |EligibleOf(ps)|
    ensures Leftover(ps, pool) == 0 || Leftover(ps, pool) < Sum(ps, FractionTerm(NetworkScore(ps), pool))
  {
    var network := NetworkScore(ps);
    if network > 0 {
      FloorsFallShort(ps, network, pool);
      RemaindersAreSmall(ps, network, pool);
      var left, floors := Leftover(ps, pool), Sum(ps, FloorTerm(network, pool));
      WhatIsLeft(pool, network, floors, Sum(ps, RemainderTerm(network, pool)), left);
      SmallQuotient(network, left, Sum(ps, FractionTerm(network, pool)));
    }
  }

  /** The rows may be read in any order: every participant is owed the same. */
  lemma AllocationIgnoresRowOrder(ps: seq<Participant>, qs: seq<Participant>, pool: nat, p: Participant)
    requires multiset(ps) == multiset(qs)
    ensures NetworkScore(ps) == NetworkScore(qs)
    ensures Owed(ps, pool, p) == Owed(qs, pool, p)
  {
    NetworkIsSum(ps);
    NetworkIsSum(qs);
    SumPermutation(ps, qs, ScoreTerm());
    var network := NetworkScore(ps);
    SumPermutation(ps, qs, FloorTerm(network, pool));
    SumPermutation(ps, qs, BeforeTerm(p, network, pool));
    assert Rank(ps, p, pool) == Rank(qs, p, pool) && Leftover(ps, pool) == Leftover(qs, pool);
  }

  lemma {:induction false} ServedNoLater(ps: seq<Participant>, p: Participant, q: Participant, pool: nat)
    requires Before(NetworkScore(ps), pool)(p, q)
    ensures Rank(ps, p, pool) <= Rank(ps, q, pool)
  {
    var network := NetworkScore(ps);
    BeforeIsStrictWeak(network, pool);
    SumAtMost(ps, BeforeTerm(p, network, pool), BeforeTerm(q, network, pool));
  }

  /** A whole quotient is never rounded up. */
  lemma WholeQuotientHasNoBonus(ps: seq<Participant>, pool: nat, p: Participant)
    requires Remainder(p, NetworkScore(ps), pool) == 0
    ensures Bonus(ps, pool, p) == 0
  {
    var network := NetworkScore(ps);
    LeftoverIsSmall(ps, pool);
    forall q | q in ps ensures FractionTerm(network, pool)(q) <= BeforeTerm(p, network, pool)(q) {
      if Remainder(q, network, pool) > 0 {
        assert Eligible(q) && Before(network, pool)(q, p);
      }
    }
    SumAtMost(ps, FractionTerm(network, pool), BeforeTerm(p, network, pool));
    SumZero(ps, BeforeTerm(p, network, pool));
  }

  /** Each participant gets its exact quotient rounded down or up: off by less than a point. */
  lemma QuotaIsRespected(ps: seq<Participant>, pool: nat, p: Participant)
    requires NetworkScore(ps) > 0
    ensures 0 <= Owed(ps, pool, p)
    ensures !Eligible(p) ==> Owed(ps, pool, p) == 0
    ensures var network, exact := NetworkScore(ps), if Eligible(p) then p.score * pool else 0;
            exact - network < network * Owed(ps, pool, p) < exact + network
  {
    var network, bonus := NetworkScore(ps), Bonus(ps, pool, p);
    FloorAndRemainder(p, network, pool);
    if Remainder(p, network, pool) == 0 {
      WholeQuotientHasNoBonus(ps, pool, p);
    }
    Swap(pool, ScoreTerm()(p));
    RoundedIsClose(network, ScoreTerm()(p) * pool, Floor(p, network, pool), Remainder(p, network, pool), bonus);
  }

  lemma Swap(a: int, b: int)
    ensures a * b == b * a
  {
  }

  /** A quotient rounded up only if something remains is off by less than one. */
  lemma RoundedIsClose(network: int, product: int, floor: int, rest: int, bonus: int)
    requires product == network * floor + rest && 0 <= rest < network
    requires 0 <= bonus <= 1 && (rest == 0 ==> bonus == 0)
    ensures product - network < network * (floor + bonus) < product + network
  {
    Distribute(network, floor, bonus);
    if bonus == 1 {
      assert network * bonus == network;
    } else {
      assert network * bonus == 0;
    }
  }

  lemma FloorsFollowProducts(network: int, big: int, small: int, fb: int, rb: int, fs: int, rs: int)
    requires network > 0 && big >= small
    requires big == network * fb + rb && small == network * fs + rs
    requires 0 <= rb < network && 0 <= rs < network
    ensures fb >= fs
    ensures fb == fs ==> rb >= rs
  {
    Distribute(network, fb, fs - fb);
    assert fb < fs ==> network * (fs - fb) >= network;
  }

  /** More score never earns fewer points; equal scores differ by the user order only. */
  lemma AllocationIsMonotone(ps: seq<Participant>, pool: nat, p: Participant, q: Participant)
    requires NetworkScore(ps) > 0
    requires p.score > q.score || (p.score == q.score && StrLess(p.userId, q.userId))
    ensures Owed(ps, pool, p) >= Owed(ps, pool, q)
  {
    FloorAndRemainder(p, NetworkScore(ps), pool);
    if Eligible(q) {
      FloorsFollowScores(p, q, NetworkScore(ps), pool);
      if Floor(p, NetworkScore(ps), pool) == Floor(q, NetworkScore(ps), pool) {
        ServedNoLater(ps, p, q, pool);
      }
    }
  }

  lemma FloorsFollowScores(p: Participant, q: Participant, network: int, pool: nat)
    requires network > 0 && Eligible(q) && p.score >= q.score
    ensures Floor(p, network, pool) >= Floor(q, network, pool)
    ensures Floor(p, network, pool) == Floor(q, network, pool) ==> Remainder(p, network, pool) >= Remainder(q, network, pool)
  {
    FloorAndRemainder(p, network, pool);
    FloorAndRemainder(q, network, pool);
    FloorsFollowProducts(network, pool * p.score, pool * q.score, Floor(p, network, pool), Remainder(p, network, pool),
                         Floor(q, network, pool), Remainder(q, network, pool));
  }

  // ------------------------------------------------------- the allocation as run

  /** The users of the first `left` entries. */
  function FirstUsers(order: seq<Participant>, left: int): set<string>
  {
    set i | 0 <= i < |order| && i < left :: order[i].userId
  }

  /** The users that receive a leftover point: the first ones in serving order. */
  function BonusUsers(ps: seq<Participant>, pool: nat): set<string>
  {
    FirstUsers(Served(ps, pool), Leftover(ps, pool))
  }

  function ShareOf(p: Participant, network: int, pool: nat, bonus: set<string>): Share
  {
    Share(p.userId, p.score, Floor(p, network, pool) + (if p.userId in bonus then 1 else 0))
  }

  /** The rows the allocation returns, one per participant, in input order. */
  function Allocate(ps: seq<Participant>, pool: nat): (shares: seq<Share>)
    ensures |shares| == |ps|
    ensures forall i | 0 <= i < |ps| :: shares[i].userId == ps[i].userId && shares[i].score == ps[i].score
  {
    var network, bonus := NetworkScore(ps), BonusUsers(ps, pool);
    seq(|ps|, i requires 0 <= i < |ps| => ShareOf(ps[i], network, pool, bonus))
  }

  method HandOutLeftover(order: seq<Participant>, leftover: nat) returns (bonus: set<string>)
    ensures bonus == set i | 0 <= i < |order| && i < leftover :: order[i].userId
  {
    bonus := {};
    var remaining, k := leftover, 0;
    while k < |order| && remaining > 0
      invariant 0 <= k <= |order| && remaining == leftover - k && remaining >= 0
      invariant bonus == set i | 0 <= i < k :: order[i].userId
    {
      bonus := bonus + {order[k].userId};
      remaining := remaining - 1;
      k := k + 1;
    }
  }

  method AllocateEpochRewards(ps: seq<Participant>, pool: nat) returns (shares: seq<Share>)
    ensures shares == Allocate(ps, pool)
  {
    var network := NetworkScore(ps);
    LeftoverIsSmall(ps, pool);
    var bonus := HandOutLeftover(Served(ps, pool), Leftover(ps, pool));
    shares := seq(|ps|, i requires 0 <= i < |ps| => ShareOf(ps[i], network, pool, bonus));
  }

  /** With one row per user, the served prefix and the rank say the same. */
  lemma AllocatePaysWhatIsOwed(ps: seq<Participant>, pool: nat, i: nat)
    requires DistinctUsers(ps) && i < |ps|
    ensures Allocate(ps, pool)[i].points == Owed(ps, pool, ps[i])
  {
    var p := ps[i];
    if p.userId in BonusUsers(ps, pool) {
      BonusUserIsRanked(ps, pool, p);
    }
    if Bonus(ps, pool, p) == 1 {
      RankedIsBonusUser(ps, pool, p);
    }
  }

  lemma ServedIsEligible(ps: seq<Participant>, pool: nat, k: nat)
    requires k < |Served(ps, pool)|
    ensures Served(ps, pool)[k] in ps && Eligible(Served(ps, pool)[k])
  {
    ServedIsPermutation(ps, pool);
    assert Served(ps, pool)[k] in multiset(EligibleOf(ps));
    assert Served(ps, pool)[k] in EligibleOf(ps);
  }

  lemma BonusUserIsRanked(ps: seq<Participant>, pool: nat, p: Participant)
    requires DistinctUsers(ps) && p in ps && p.userId in BonusUsers(ps, pool)
    ensures Bonus(ps, pool, p) == 1
  {
    var order, left := Served(ps, pool), Leftover(ps, pool);
    var k :| 0 <= k < |order| && k < left && order[k].userId == p.userId;
    ServedIsEligible(ps, pool, k);
    SameUserSameRow(ps, order[k], p);
    RankIsPosition(ps, pool, k);
  }

  lemma RankedIsBonusUser(ps: seq<Participant>, pool: nat, p: Participant)
    requires DistinctUsers(ps) && p in ps && Bonus(ps, pool, p) == 1
    ensures p.userId in BonusUsers(ps, pool)
  {
    var order := Served(ps, pool);
    ServedIsPermutation(ps, pool);
    assert p in EligibleOf(ps);
    assert p in multiset(order);
    var k :| 0 <= k < |order| && order[k] == p;
    RankIsPosition(ps, pool, k);
  }

  lemma SameUserSameRow(ps: seq<Participant>, p: Participant, q: Participant)
    requires DistinctUsers(ps) && p in ps && q in ps && p.userId == q.userId
    ensures p == q
  {
  }

  function PointsTerm(): Share -> int
  {
    (s: Share) => s.points
  }

  lemma {:induction false} SumOfShares(ps: seq<Participant>, shares: seq<Share>, f: Participant -> int)
    requires |ps| == |shares| && forall i | 0 <= i < |ps| :: shares[i].points == f(ps[i])
    ensures Sum(shares, PointsTerm()) == Sum(ps, f)
  {
    if ps != [] {
      SumOfShares(ps[1..], shares[1..], f);
    }
  }

  // ------------------------------------------- any floors, any order, any rows

  /** A floor, and a point more for the users in the bonus set. */
  function PaidTerm(floors: Participant -> int, bonus: set<string>): Participant -> int
  {
    (p: Participant) => floors(p) + (if p.userId in bonus then 1 else 0)
  }

  /** One for each row of a bonus user. */
  function BonusRow(bonus: set<string>): Participant -> int
  {
    (p: Participant) => if p.userId in bonus then 1 else 0
  }

  function ScoringBonusRow(bonus: set<string>): Participant -> int
  {
    (p: Participant) => if Eligible(p) && p.userId in bonus then 1 else 0
  }

  function IdleBonusRow(bonus: set<string>): Participant -> int
  {
    (p: Participant) => if !Eligible(p) && p.userId in bonus then 1 else 0
  }

  /** Every row of a served user is itself one of the first `left` served. */
  predicate ServesWholeUsers(ps: seq<Participant>, order: seq<Participant>, left: int)
  {
    && (forall k | 0 <= k < |order| && left <= k :: order[k].userId !in FirstUsers(order, left))
    && (forall p | p in ps && !Eligible(p) :: p.userId !in FirstUsers(order, left))
  }

  /** Terms that are not negative sum to zero exactly if all of them are zero. */
  lemma {:induction false} ZeroSum<T>(s: seq<T>, f: T -> int)
    requires forall x | x in s :: f(x) >= 0
    ensures Sum(s, f) >= 0
    ensures Sum(s, f) == 0 <==> forall x | x in s :: f(x) == 0
  {
    if s != [] {
      ZeroSum(s[1..], f);
      assert forall x | x in s :: x == s[0] || x in s[1..];
    }
  }

  lemma {:induction false} SumOfOnes<T>(s: seq<T>, f: T -> int)
    requires forall x | x in s :: f(x) == 1
    ensures Sum(s, f) == |s|
  {
    if s != [] {
      SumOfOnes(s[1..], f);
    }
  }

  /** When the first `left` terms are one and the others not negative, the others decide the sum. */
  lemma SumBeyondOnes(order: seq<Participant>, left: nat, f: Participant -> int)
    requires left <= |order|
    requires (forall i | 0 <= i < left :: f(order[i]) == 1) && (forall i | left <= i < |order| :: f(order[i]) >= 0)
    ensures Sum(order, f) >= left
    ensures Sum(order, f) == left <==> forall k | left <= k < |order| :: f(order[k]) == 0
  {
    var head, tail := order[..left], order[left..];
    assert order == head + tail;
    SumConcat(head, tail, f);
    SumOfOnes(head, f);
    ZeroSum(tail, f);
    if forall p | p in tail :: f(p) == 0 {
      forall k | left <= k < |order| ensures f(order[k]) == 0 {
        assert tail[k - left] == order[k];
      }
    }
  }

  /** Of the served order, the first `left` rows are bonus rows. */
  lemma BonusRowsOfOrder(order: seq<Participant>, left: nat, f: Participant -> int)
    requires left <= |order|
    requires forall i | 0 <= i < |order| :: f(order[i]) == if order[i].userId in FirstUsers(order, left) then 1 else 0
    ensures Sum(order, f) >= left
    ensures Sum(order, f) == left <==> forall k | left <= k < |order| :: order[k].userId !in FirstUsers(order, left)
  {
    forall i | 0 <= i < left ensures f(order[i]) == 1 {
      assert order[i].userId in FirstUsers(order, left);
    }
    SumBeyondOnes(order, left, f);
  }

  /** The bonus rows are at least as many as the points left over, and as many exactly if whole users are served. */
  lemma BonusRowsAreEnough(ps: seq<Participant>, order: seq<Participant>, left: nat)
    requires multiset(order) == multiset(EligibleOf(ps)) && left <= |order|
    ensures Sum(ps, BonusRow(FirstUsers(order, left))) >= left
    ensures Sum(ps, BonusRow(FirstUsers(order, left))) == left <==> ServesWholeUsers(ps, order, left)
  {
    var bonus := FirstUsers(order, left);
    SumAdd(ps, ScoringBonusRow(bonus), IdleBonusRow(bonus), BonusRow(bonus));
    SumOfEligible(ps, ScoringBonusRow(bonus));
    SumPermutation(EligibleOf(ps), order, ScoringBonusRow(bonus));
    forall i | 0 <= i < |order| ensures Eligible(order[i]) {
      assert order[i] in multiset(EligibleOf(ps));
      assert order[i] in EligibleOf(ps);
    }
    BonusRowsOfOrder(order, left, ScoringBonusRow(bonus));
    ZeroSum(ps, IdleBonusRow(bonus));
  }

  /**
   * Whatever the floors are and in whatever order leftover points are handed
   * out: the rows sum to the pool exactly if as many rows belong to bonus users
   * as points were left over. If what is left over is between nothing and one
   * point for each scoring row, the sum is never less than the pool, and it is
   * the pool exactly if every row of a served user is itself served.
   */
  lemma AnyFloorsSumToPoolExactlyIf(ps: seq<Participant>, floors: Participant -> int, order: seq<Participant>, pool: int)
    requires multiset(order) == multiset(EligibleOf(ps))
    ensures var left := pool - Sum(ps, floors);
            var bonus := FirstUsers(order, left);
            var total := Sum(ps, PaidTerm(floors, bonus));
            && (total == pool <==> Sum(ps, BonusRow(bonus)) == left)
            && (0 <= left <= |order| ==> total >= pool && (total == pool <==> ServesWholeUsers(ps, order, left)))
  {
    var left := pool - Sum(ps, floors);
    var bonus := FirstUsers(order, left);
    SumAdd(ps, floors, BonusRow(bonus), PaidTerm(floors, bonus));
    if 0 <= left <= |order| {
      BonusRowsAreEnough(ps, order, left);
    }
  }

  /** Distinct users are served whole. */
  lemma DistinctAreServedWhole(ps: seq<Participant>, order: seq<Participant>, left: int)
    requires DistinctUsers(ps) && multiset(order) == multiset(EligibleOf(ps))
    ensures ServesWholeUsers(ps, order, left)
  {
    EligibleKeepsDistinct(ps);
    DistinctUnderPermutation(EligibleOf(ps), order);
    forall p | p in ps && !Eligible(p) ensures p.userId !in FirstUsers(order, left) {
      forall i | 0 <= i < |order| ensures order[i].userId != p.userId {
        assert order[i] in multiset(EligibleOf(ps));
        assert order[i] in EligibleOf(ps);
        if order[i].userId == p.userId {
          SameUserSameRow(ps, order[i], p);
        }
      }
    }
  }

  /**
   * One row per user: the rows sum to the pool if and only if the floors leave
   * between nothing and one point for each scoring user. Nothing is asked of how
   * quotients are computed or rounded.
   */
  lemma FloorsDecideTheSum(ps: seq<Participant>, floors: Participant -> int, order: seq<Participant>, pool: int)
    requires DistinctUsers(ps) && multiset(order) == multiset(EligibleOf(ps))
    ensures var left := pool - Sum(ps, floors);
            Sum(ps, PaidTerm(floors, FirstUsers(order, left))) == pool <==> 0 <= left <= |EligibleOf(ps)|
  {
    var left := pool - Sum(ps, floors);
    var bonus := FirstUsers(order, left);
    AnyFloorsSumToPoolExactlyIf(ps, floors, order, pool);
    DistinctAreServedWhole(ps, order, left);
    SumAdd(ps, floors, BonusRow(bonus), PaidTerm(floors, bonus));
    assert |order| == |multiset(order)| == |EligibleOf(ps)|;
    if left < 0 {
      ZeroSum(ps, BonusRow(bonus));
    } else if left > |order| {
      EverybodyIsServed(ps, order, left);
    }
  }

  /** With more points than rows every row is served once. */
  lemma EverybodyIsServed(ps: seq<Participant>, order: seq<Participant>, left: int)
    requires DistinctUsers(ps) && multiset(order) == multiset(EligibleOf(ps)) && left > |order|
    ensures Sum(ps, BonusRow(FirstUsers(order, left))) == |order|
  {
    DistinctAreServedWhole(ps, order, |order|);
    assert FirstUsers(order, left) == FirstUsers(order, |order|);
    BonusRowsAreEnough(ps, order, |order|);
  }

  /**
   * The allocation as run, on any rows: nothing when nobody scored; else never
   * less than the pool, and the pool exactly if every row of a served user is
   * itself served.
   */
  lemma AllocationSumsToPool(ps: seq<Participant>, pool: nat)
    ensures var total := Sum(Allocate(ps, pool), PointsTerm());
            if NetworkScore(ps) > 0 then
              && total >= pool
              && (total == pool <==> ServesWholeUsers(ps, Served(ps, pool), Leftover(ps, pool)))
              && (total == pool <==> Sum(ps, BonusRow(BonusUsers(ps, pool))) == Leftover(ps, pool))
            else total == 0
  {
    SharesArePaid(ps, pool);
    if NetworkScore(ps) > 0 {
      LeftoverIsServed(ps, pool);
      PaidWithLeftover(ps, FloorTerm(NetworkScore(ps), pool), Served(ps, pool), Leftover(ps, pool), pool);
    } else {
      NothingIsPaid(ps, pool);
    }
  }

  lemma LeftoverIsServed(ps: seq<Participant>, pool: nat)
    requires NetworkScore(ps) > 0
    ensures multiset(Served(ps, pool)) == multiset(EligibleOf(ps)) && 0 <= Leftover(ps, pool) <= |Served(ps, pool)|
    ensures Leftover(ps, pool) == pool - Sum(ps, FloorTerm(NetworkScore(ps), pool))
  {
    LeftoverIsSmall(ps, pool);
    ServedIsPermutation(ps, pool);
  }

  lemma PaidWithLeftover(ps: seq<Participant>, floors: Participant -> int, order: seq<Participant>, left: int, pool: int)
    requires multiset(order) == multiset(EligibleOf(ps)) && left == pool - Sum(ps, floors) && 0 <= left <= |order|
    ensures var total, bonus := Sum(ps, PaidTerm(floors, FirstUsers(order, left))), FirstUsers(order, left);
            total >= pool && (total == pool <==> ServesWholeUsers(ps, order, left)) && (total == pool <==> Sum(ps, BonusRow(bonus)) == left)
  {
    AnyFloorsSumToPoolExactlyIf(ps, floors, order, pool);
  }

  lemma SharesArePaid(ps: seq<Participant>, pool: nat)
    ensures Sum(Allocate(ps, pool), PointsTerm()) == Sum(ps, PaidTerm(FloorTerm(NetworkScore(ps), pool), BonusUsers(ps, pool)))
  {
    SumOfShares(ps, Allocate(ps, pool), PaidTerm(FloorTerm(NetworkScore(ps), pool), BonusUsers(ps, pool)));
  }

  lemma ServedIsPermutation(ps: seq<Participant>, pool: nat)
    ensures multiset(Served(ps, pool)) == multiset(EligibleOf(ps)) && |Served(ps, pool)| == |EligibleOf(ps)|
  {
    BeforeIsStrictWeak(NetworkScore(ps), pool);
    SortIsOrdered(EligibleOf(ps), Before(NetworkScore(ps), pool));
    assert |Served(ps, pool)| == |multiset(Served(ps, pool))| == |EligibleOf(ps)|;
  }

  lemma NothingIsPaid(ps: seq<Participant>, pool: nat)
    requires NetworkScore(ps) <= 0
    ensures Sum(ps, PaidTerm(FloorTerm(NetworkScore(ps), pool), BonusUsers(ps, pool))) == 0
  {
    var paid := PaidTerm(FloorTerm(NetworkScore(ps), pool), BonusUsers(ps, pool));
    assert BonusUsers(ps, pool) == {};
    assert forall p :: paid(p) == 0;
    SumZero(ps, paid);
  }

  /** Settlement distributes the pool it opened whenever anybody scored, and nothing otherwise. */
  lemma DistributedEqualsPool(ps: seq<Participant>, pool: nat)
    requires DistinctUsers(ps)
    ensures Sum(Allocate(ps, pool), PointsTerm()) == if NetworkScore(ps) > 0 then pool else 0
  {
    ServedIsPermutation(ps, pool);
    DistinctAreServedWhole(ps, Served(ps, pool), Leftover(ps, pool));
    AllocationSumsToPool(ps, pool);
  }

  /** So what distinct users are owed is the pool, or nothing. */
  lemma OwedSumsToPool(ps: seq<Participant>, pool: nat)
    requires DistinctUsers(ps)
    ensures Sum(ps, Points(ps, pool)) == if NetworkScore(ps) > 0 then pool else 0
  {
    forall i | 0 <= i < |ps| ensures Allocate(ps, pool)[i].points == Points(ps, pool)(ps[i]) {
      AllocatePaysWhatIsOwed(ps, pool, i);
    }
    SumOfShares(ps, Allocate(ps, pool), Points(ps, pool));
    DistributedEqualsPool(ps, pool);
  }

  /** Two rows of one user: a pool of one is overspent, a pool of two is not. */
  lemma RepeatedUserOverspends()
    ensures var ps := [Participant("u", 1), Participant("u", 1)];
            !DistinctUsers(ps) && Sum(Allocate(ps, 1), PointsTerm()) > 1 && Sum(Allocate(ps, 2), PointsTerm()) == 2
  {
    var p := Participant("u", 1);
    var ps := [p, p];
    assert ps[1..] == [p];
    assert NetworkScore(ps) == 2;
    assert EligibleOf(ps) == [p, p] by {
      assert EligibleOf([p]) == [p];
    }
    PairIsServed(p, 1);
    PairIsServed(p, 2);
    PairSum(p, p, FloorTerm(2, 1));
    PairSum(p, p, FloorTerm(2, 2));
    assert Served(ps, 1)[0].userId in BonusUsers(ps, 1) && Served(ps, 1)[1].userId in BonusUsers(ps, 1);
    assert BonusUsers(ps, 2) == {};
    AllocationSumsToPool(ps, 1);
    AllocationSumsToPool(ps, 2);
  }

  lemma PairIsServed(p: Participant, pool: nat)
    ensures Sort([p, p], Before(2, pool)) == [p, p]
  {
    StrLessIsTotal(p.userId, p.userId);
    assert [p, p][1..] == [p] && [p][1..] == [];
    assert Sort([p], Before(2, pool)) == [p];
  }

  // ------------------------------------------------- who gets the points left over

  /** The network score is the sum of the positive scores. */
  lemma {:induction false} NetworkScoreOfOneMore(ps: seq<Participant>, p: Participant)
    ensures NetworkScore([]) == 0
    ensures NetworkScore(ps + [p]) == NetworkScore(ps) + if p.score > 0 then p.score else 0
  {
    if ps == [] {
      assert ([] + [p])[1..] == [];
    } else {
      assert (ps + [p])[1..] == ps[1..] + [p];
      NetworkScoreOfOneMore(ps[1..], p);
    }
  }

  /**
   * Of two scoring users of whom one gets its share rounded up and the other its
   * share rounded down, the first has the larger remainder; if the remainders are
   * equal it has the higher score, and if the scores are equal too, the smaller id.
   */
  lemma {:induction false} LargestRemaindersComeFirst(ps: seq<Participant>, pool: nat, i: nat, j: nat)
    requires DistinctUsers(ps) && i < |ps| && j < |ps| && ps[i].score > 0 && ps[j].score > 0 && NetworkScore(ps) > 0
    requires Allocate(ps, pool)[i].points == ps[i].score * pool / NetworkScore(ps) + 1
    requires Allocate(ps, pool)[j].points == ps[j].score * pool / NetworkScore(ps)
    ensures var p, q, n := ps[i], ps[j], NetworkScore(ps);
            var rp, rq := p.score * pool % n, q.score * pool % n;
            && rp >= rq
            && (rp == rq ==> p.score >= q.score)
            && (rp == rq && p.score == q.score ==> StrLess(p.userId, q.userId))
  {
    var p, q := ps[i], ps[j];
    AllocatePaysWhatIsOwed(ps, pool, i);
    AllocatePaysWhatIsOwed(ps, pool, j);
    assert Rank(ps, p, pool) < Rank(ps, q, pool);
    StrLessIsTotal(p.userId, q.userId);
    if Before(NetworkScore(ps), pool)(q, p) {
      ServedNoLater(ps, q, p, pool);
    }
  }
}
