/** Sums of a function over a sequence, and how they ignore order and repetition. */
module Sums {

  function Sum<T>(s: seq<T>, f: T -> int): int
  {
    if s == [] then 0 else f(s[0]) + Sum(s[1..], f)
  }

  lemma {:induction false} SumConcat<T>(s: seq<T>, t: seq<T>, f: T -> int)
    ensures Sum(s + t, f) == Sum(s, f) + Sum(t, f)
  {
    if s == [] {
      assert s + t == t;
    } else {
      assert (s + t)[1..] == s[1..] + t;
      SumConcat(s[1..], t, f);
    }
  }

  /** Taking one occurrence out of a sequence takes exactly its term out of the sum. */
  lemma SumRemove<T>(s: seq<T>, i: nat, f: T -> int)
    requires i < |s|
    ensures Sum(s, f) == f(s[i]) + Sum(s[..i] + s[i + 1..], f)
  {
    assert s == s[..i] + ([s[i]] + s[i + 1..]);
    SumConcat(s[..i], [s[i]] + s[i + 1..], f);
    SumConcat(s[..i], s[i + 1..], f);
  }

  /** A sum depends on the multiset of its terms only. */
  lemma {:induction false} SumPermutation<T>(s: seq<T>, t: seq<T>, f: T -> int)
    requires multiset(s) == multiset(t)
    ensures Sum(s, f) == Sum(t, f)
  {
    if s == [] {
      assert |multiset(t)| == |multiset(s)| == 0;
    } else {
      assert s[0] in multiset(t);
      var i :| 0 <= i < |t| && t[i] == s[0];
      SameWithoutOne(s, t, i);
      SumPermutation(s[1..], t[..i] + t[i + 1..], f);
      SumRemove(t, i, f);
    }
  }

  lemma SameWithoutOne<T>(s: seq<T>, t: seq<T>, i: nat)
    requires s != [] && i < |t| && t[i] == s[0] && multiset(s) == multiset(t)
    ensures multiset(s[1..]) == multiset(t[..i] + t[i + 1..])
  {
    WithoutOne(s, 0);
    WithoutOne(t, i);
    assert s[..0] + s[1..] == s[1..];
  }

  lemma WithoutOne<T>(s: seq<T>, i: nat)
    requires i < |s|
    ensures multiset(s[..i] + s[i + 1..]) == multiset(s) - multiset{s[i]}
  {
    assert s == s[..i] + [s[i]] + s[i + 1..];
  }

  ghost predicate NoRepeats<T(!new)>(s: seq<T>)
  {
    forall i, j | 0 <= i < j < |s| :: s[i] != s[j]
  }

  /** Distinct terms drawn from `t` never sum to more than all of `t`. */
  lemma {:induction false} SumOfPart<T(!new)>(s: seq<T>, t: seq<T>, f: T -> int)
    requires NoRepeats(s)
    requires forall x | x in s :: x in t
    requires forall x | x in t :: f(x) >= 0
    ensures Sum(s, f) <= Sum(t, f)
    ensures (forall x | x in t && f(x) > 0 :: x in s) && NoRepeats(t) ==> Sum(s, f) == Sum(t, f)
  {
    if s == [] {
      SumZero(t, f);
    } else {
      assert s[0] in s;
      var i :| 0 <= i < |t| && t[i] == s[0];
      var t' := t[..i] + t[i + 1..];
      forall x | x in s[1..] ensures x in t' {
        assert x in s;
        var k :| 0 <= k < |t| && t[k] == x;
        assert k != i;
        assert x == if k < i then t'[k] else t'[k - 1];
      }
      SumOfPart(s[1..], t', f);
      SumRemove(t, i, f);
    }
  }

  lemma {:induction false} SumZero<T>(t: seq<T>, f: T -> int)
    requires forall x | x in t :: f(x) >= 0
    ensures Sum(t, f) >= 0
    ensures (forall x | x in t :: f(x) == 0) ==> Sum(t, f) == 0
  {
    if t != [] {
      SumZero(t[1..], f);
    }
  }

  lemma {:induction false} SumAdd<T>(s: seq<T>, f: T -> int, g: T -> int, h: T -> int)
    requires forall x | x in s :: h(x) == f(x) + g(x)
    ensures Sum(s, h) == Sum(s, f) + Sum(s, g)
  {
    if s != [] {
      SumAdd(s[1..], f, g, h);
    }
  }

  /** Two functions that agree on the terms have the same sum. */
  lemma {:induction false} SumAgree<T>(s: seq<T>, f: T -> int, g: T -> int)
    requires forall x | x in s :: f(x) == g(x)
    ensures Sum(s, f) == Sum(s, g)
  {
    if s != [] {
      SumAgree(s[1..], f, g);
    }
  }

  /** When exactly the first `k` terms are one and the rest are zero, the sum is `k`. */
  lemma {:induction false} SumOfLeadingOnes<T>(s: seq<T>, k: int, f: T -> int)
    requires 0 <= k <= |s|
    requires forall i | 0 <= i < |s| :: f(s[i]) == if i < k then 1 else 0
    ensures Sum(s, f) == k
  {
    if s != [] {
      forall i | 0 <= i < |s| - 1 ensures f(s[1..][i]) == if i < k - 1 then 1 else 0 {
        assert s[1..][i] == s[i + 1];
      }
      SumOfLeadingOnes(s[1..], if k > 0 then k - 1 else 0, f);
    }
  }

  lemma {:induction false} SumAtMost<T>(s: seq<T>, f: T -> int, g: T -> int)
    requires forall x | x in s :: f(x) <= g(x)
    ensures Sum(s, f) <= Sum(s, g)
  {
    if s != [] {
      SumAtMost(s[1..], f, g);
    }
  }

  lemma PairSum<T>(x: T, y: T, f: T -> int)
    ensures Sum([x, y], f) == f(x) + f(y)
  {
    assert [x, y][1..] == [y];
    assert [y][1..] == [];
    assert Sum([y], f) == f(y);
  }
}
