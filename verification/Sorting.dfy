/** The stable sort `Array.prototype.sort` performs, for a strict weak order. */
module Sorting {

  ghost predicate StrictWeakOrder<T(!new)>(less: (T, T) -> bool)
  {
    && (forall x, y :: less(x, y) ==> !less(y, x))
    && (forall x, y, z :: less(x, z) ==> less(x, y) || less(y, z))
  }

  ghost predicate Ordered<T(!new)>(s: seq<T>, less: (T, T) -> bool)
  {
    forall i, j | 0 <= i < j < |s| :: !less(s[j], s[i])
  }

  /** Put `x` in front of the first element it does not come after. */
  function Insert<T>(x: T, s: seq<T>, less: (T, T) -> bool): seq<T>
  {
    if s == [] || !less(s[0], x) then [x] + s else [s[0]] + Insert(x, s[1..], less)
  }

  function Sort<T>(s: seq<T>, less: (T, T) -> bool): seq<T>
  {
    if s == [] then [] else Insert(s[0], Sort(s[1..], less), less)
  }

  lemma {:induction false} InsertKeepsElements<T>(x: T, s: seq<T>, less: (T, T) -> bool)
    ensures multiset(Insert(x, s, less)) == multiset{x} + multiset(s)
    ensures forall y | y in Insert(x, s, less) :: y == x || y in s
  {
    if s != [] && less(s[0], x) {
      InsertKeepsElements(x, s[1..], less);
      assert s == [s[0]] + s[1..];
    }
  }

  /** A first element that none of the rest comes before. */
  lemma OrderedCons<T(!new)>(x: T, s: seq<T>, less: (T, T) -> bool)
    requires Ordered(s, less) && forall y | y in s :: !less(y, x)
    ensures Ordered([x] + s, less)
  {
    var t := [x] + s;
    forall i, j | 0 <= i < j < |t| ensures !less(t[j], t[i]) {
      assert t[j] == s[j - 1];
      if i > 0 {
        assert t[i] == s[i - 1];
      }
    }
  }

  lemma OrderedTail<T(!new)>(s: seq<T>, less: (T, T) -> bool)
    requires Ordered(s, less) && s != []
    ensures Ordered(s[1..], less) && forall y | y in s[1..] :: !less(y, s[0])
  {
    var t := s[1..];
    assert forall j | 0 <= j < |t| :: t[j] == s[j + 1];
  }

  lemma {:induction false} InsertIsOrdered<T(!new)>(x: T, s: seq<T>, less: (T, T) -> bool)
    requires StrictWeakOrder(less) && Ordered(s, less)
    ensures Ordered(Insert(x, s, less), less)
  {
    if s != [] {
      OrderedTail(s, less);
    }
    if s != [] && less(s[0], x) {
      InsertKeepsElements(x, s[1..], less);
      InsertIsOrdered(x, s[1..], less);
      OrderedCons(s[0], Insert(x, s[1..], less), less);
    } else {
      forall y | y in s ensures !less(y, x) {
        if y != s[0] {
          assert y in s[1..];
        }
      }
      OrderedCons(x, s, less);
    }
  }

  lemma {:induction false} SortIsOrdered<T(!new)>(s: seq<T>, less: (T, T) -> bool)
    requires StrictWeakOrder(less)
    ensures Ordered(Sort(s, less), less)
    ensures multiset(Sort(s, less)) == multiset(s)
  {
    if s != [] {
      SortIsOrdered(s[1..], less);
      InsertKeepsElements(s[0], Sort(s[1..], less), less);
      InsertIsOrdered(s[0], Sort(s[1..], less), less);
      assert s == [s[0]] + s[1..];
    }
  }

  /** Sorting what is already in order changes nothing. */
  lemma {:induction false} SortOfOrdered<T(!new)>(s: seq<T>, less: (T, T) -> bool)
    requires Ordered(s, less)
    ensures Sort(s, less) == s
  {
    if s != [] {
      SortOfOrdered(s[1..], less);
      assert |s| > 1 ==> !less(s[1], s[0]);
    }
  }
}
