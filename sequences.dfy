/**
 * The meaning of the SQL clauses the query surface uses, over rows held in
 * storage order: WHERE is `Filter`, ORDER BY ... ASC is `SortBy`, COUNT is `Count`.
 */
module Sequences {

  /** Every row's key is at most the key of every later row. */
  ghost predicate SortedBy<T>(s: seq<T>, key: T -> int) {
    forall i, j :: 0 <= i < j < |s| ==> key(s[i]) <= key(s[j])
  }

  /** Puts `x` before the first row of `s` whose key is larger. */
  function InsertBy<T>(x: T, s: seq<T>, key: T -> int): (r: seq<T>)
    decreases |s|
  {
    if s == [] || key(x) <= key(s[0]) then [x] + s
    else [s[0]] + InsertBy(x, s[1..], key)
  }

  /** Insertion sort: ORDER BY key ASC. */
  function SortBy<T>(s: seq<T>, key: T -> int): (r: seq<T>)
    decreases |s|
  {
    if s == [] then [] else InsertBy(s[0], SortBy(s[1..], key), key)
  }

  /** WHERE pred, keeping storage order. */
  function Filter<T>(s: seq<T>, pred: T -> bool): (r: seq<T>)
    ensures |r| <= |s|
    ensures forall i :: 0 <= i < |r| ==> r[i] in s && pred(r[i])
    ensures forall i :: 0 <= i < |s| && pred(s[i]) ==> s[i] in r
    decreases |s|
  {
    if s == [] then []
    else if pred(s[0]) then [s[0]] + Filter(s[1..], pred)
    else Filter(s[1..], pred)
  }

  /** WHERE keeps each matching row as often as it occurs, and no other row. */
  lemma {:induction false} FilterMultiset<T>(s: seq<T>, pred: T -> bool)
    ensures forall x :: multiset(Filter(s, pred))[x] == if pred(x) then multiset(s)[x] else 0
    decreases |s|
  {
    if s != [] {
      FilterMultiset(s[1..], pred);
      assert s == [s[0]] + s[1..];
    }
  }

  /** COUNT(*) ... WHERE pred. */
  function Count<T>(s: seq<T>, pred: T -> bool): (n: nat)
    decreases |s|
  {
    if s == [] then 0 else (if pred(s[0]) then 1 else 0) + Count(s[1..], pred)
  }

  lemma {:induction false} InsertByMultiset<T>(x: T, s: seq<T>, key: T -> int)
    ensures multiset(InsertBy(x, s, key)) == multiset(s) + multiset{x}
    decreases |s|
  {
    if s != [] && key(x) > key(s[0]) {
      InsertByMultiset(x, s[1..], key);
      assert s == [s[0]] + s[1..];
    }
  }

  lemma SortedCons<T>(a: T, t: seq<T>, key: T -> int)
    requires SortedBy(t, key)
    requires forall k :: 0 <= k < |t| ==> key(a) <= key(t[k])
    ensures SortedBy([a] + t, key)
  {
    var r := [a] + t;
    forall i, j | 0 <= i < j < |r| ensures key(r[i]) <= key(r[j]) {
      assert r[j] == t[j - 1];
      if i > 0 { assert r[i] == t[i - 1]; }
    }
  }

  lemma {:induction false} InsertByLowerBound<T>(x: T, s: seq<T>, key: T -> int, b: int)
    requires b <= key(x)
    requires forall k :: 0 <= k < |s| ==> b <= key(s[k])
    ensures forall k :: 0 <= k < |InsertBy(x, s, key)| ==> b <= key(InsertBy(x, s, key)[k])
    decreases |s|
  {
    if s != [] && key(x) > key(s[0]) {
      InsertByLowerBound(x, s[1..], key, b);
    }
  }

  lemma {:induction false} InsertByCorrect<T>(x: T, s: seq<T>, key: T -> int)
    requires SortedBy(s, key)
    ensures SortedBy(InsertBy(x, s, key), key)
    ensures multiset(InsertBy(x, s, key)) == multiset(s) + multiset{x}
    decreases |s|
  {
    InsertByMultiset(x, s, key);
    if s == [] || key(x) <= key(s[0]) {
      SortedCons(x, s, key);
    } else {
      var s' := s[1..];
      assert SortedBy(s', key);
      InsertByCorrect(x, s', key);
      InsertByLowerBound(x, s', key, key(s[0]));
      SortedCons(s[0], InsertBy(x, s', key), key);
    }
  }

  /** ORDER BY returns the same rows, in non-decreasing key order. */
  lemma {:induction false} SortByCorrect<T>(s: seq<T>, key: T -> int)
    ensures SortedBy(SortBy(s, key), key)
    ensures multiset(SortBy(s, key)) == multiset(s)
    decreases |s|
  {
    if s != [] {
      SortByCorrect(s[1..], key);
      InsertByCorrect(s[0], SortBy(s[1..], key), key);
      assert s == [s[0]] + s[1..];
    }
  }

  lemma SortByLength<T>(s: seq<T>, key: T -> int)
    ensures |SortBy(s, key)| == |s|
    ensures forall i :: 0 <= i < |s| ==> s[i] in SortBy(s, key)
    ensures forall i :: 0 <= i < |s| ==> SortBy(s, key)[i] in s
  {
    SortByCorrect(s, key);
    assert |multiset(SortBy(s, key))| == |multiset(s)|;
    forall i | 0 <= i < |s| ensures s[i] in SortBy(s, key) {
      assert s[i] in multiset(s);
    }
    forall i | 0 <= i < |s| ensures SortBy(s, key)[i] in s {
      assert SortBy(s, key)[i] in multiset(SortBy(s, key));
    }
  }

  /** A count never exceeds the number of rows. */
  lemma {:induction false} CountBound<T>(s: seq<T>, pred: T -> bool)
    ensures Count(s, pred) <= |s|
    decreases |s|
  {
    if s != [] { CountBound(s[1..], pred); }
  }

  /** A count depends only on which rows there are, not on their order. */
  lemma {:induction false} CountOfMultiset<T>(s: seq<T>, pred: T -> bool)
    ensures Count(s, pred) == |Filter(s, pred)|
    ensures Count(s, pred) <= |s|
    decreases |s|
  {
    if s != [] { CountOfMultiset(s[1..], pred); }
  }

  lemma {:induction false} CountInsertBy<T>(x: T, s: seq<T>, key: T -> int, pred: T -> bool)
    ensures Count(InsertBy(x, s, key), pred) == Count(s, pred) + (if pred(x) then 1 else 0)
    decreases |s|
  {
    if s != [] && key(x) > key(s[0]) {
      CountInsertBy(x, s[1..], key, pred);
      assert InsertBy(x, s, key)[1..] == InsertBy(x, s[1..], key);
    }
  }

  /** Sorting neither adds nor loses rows matching a predicate. */
  lemma {:induction false} CountSortBy<T>(s: seq<T>, key: T -> int, pred: T -> bool)
    ensures Count(SortBy(s, key), pred) == Count(s, pred)
    decreases |s|
  {
    if s != [] {
      CountSortBy(s[1..], key, pred);
      CountInsertBy(s[0], SortBy(s[1..], key), key, pred);
    }
  }
}
