/** Kotlin's `sortedByDescending { key }` (and `sortedBy`, as the descending sort
    of the negated key): a stable sort, modelled as insertion sort, which keeps
    elements with equal keys in their input order. */
module Sorting {

  /** Non-increasing by `key`. */
  ghost predicate SortedDesc<T>(s: seq<T>, key: T -> int) {
    forall i, j :: 0 <= i < j < |s| ==> key(s[i]) >= key(s[j])
  }

  /** Inserts `x` after every element whose key is at least `key(x)`. */
  function Insert<T>(x: T, s: seq<T>, key: T -> int): seq<T> {
    if |s| == 0 then [x]
    else if key(x) > key(s[0]) then [x] + s
    else [s[0]] + Insert(x, s[1..], key)
  }

  /** The stable descending sort: the elements are inserted in input order. */
  function SortedByDescending<T>(s: seq<T>, key: T -> int): seq<T> {
    if |s| == 0 then [] else Insert(s[|s| - 1], SortedByDescending(s[..|s| - 1], key), key)
  }

  lemma {:induction false} InsertPermutes<T>(x: T, s: seq<T>, key: T -> int)
    ensures multiset(Insert(x, s, key)) == multiset(s) + multiset{x}
  {
    if |s| > 0 && key(x) <= key(s[0]) {
      InsertPermutes(x, s[1..], key);
      assert s == [s[0]] + s[1..];
    }
  }

  lemma {:induction false} InsertSorted<T>(x: T, s: seq<T>, key: T -> int)
    requires SortedDesc(s, key)
    ensures SortedDesc(Insert(x, s, key), key)
  {
    if |s| > 0 && key(x) <= key(s[0]) {
      var rest := Insert(x, s[1..], key);
      InsertSorted(x, s[1..], key);
      InsertPermutes(x, s[1..], key);
      forall j | 0 <= j < |rest| ensures key(s[0]) >= key(rest[j]) {
        assert rest[j] in multiset(rest);
        assert rest[j] == x || rest[j] in s[1..];
      }
    }
  }

  /** The sort returns a non-increasing permutation of its input. */
  lemma {:induction false} SortedByDescendingSpec<T>(s: seq<T>, key: T -> int)
    ensures var r := SortedByDescending(s, key);
      |r| == |s| && multiset(r) == multiset(s) && SortedDesc(r, key)
  {
    if |s| > 0 {
      var init := s[..|s| - 1];
      SortedByDescendingSpec(init, key);
      InsertPermutes(s[|s| - 1], SortedByDescending(init, key), key);
      InsertSorted(s[|s| - 1], SortedByDescending(init, key), key);
      assert s == init + [s[|s| - 1]];
      assert |multiset(SortedByDescending(s, key))| == |multiset(s)|;
    }
  }

  /** Strictly ordered by key, descending, and by value, ascending, among equal
      keys: the order a stable sort gives a list of increasing indices. */
  ghost predicate ByKeyThenIndex(s: seq<int>, key: int -> int) {
    forall i, j :: 0 <= i < j < |s| ==>
      key(s[i]) > key(s[j]) || (key(s[i]) == key(s[j]) && s[i] < s[j])
  }

  ghost predicate Increasing(s: seq<int>) {
    forall i, j :: 0 <= i < j < |s| ==> s[i] < s[j]
  }

  /** Putting an element in front keeps the order when it comes before
      every element of the rest. */
  lemma ConsByKeyThenIndex(h: int, rest: seq<int>, key: int -> int)
    requires ByKeyThenIndex(rest, key)
    requires forall j :: 0 <= j < |rest| ==> key(h) > key(rest[j]) || (key(h) == key(rest[j]) && h < rest[j])
    ensures ByKeyThenIndex([h] + rest, key)
  {
    var r := [h] + rest;
    forall i, j | 0 <= i < j < |r| ensures key(r[i]) > key(r[j]) || (key(r[i]) == key(r[j]) && r[i] < r[j]) {
      assert r[j] == rest[j - 1];
      if i > 0 {
        assert r[i] == rest[i - 1];
      }
    }
  }

  /** An element of `Insert(x, t)` is `x` or an element of `t`. */
  lemma InsertedFrom(x: int, t: seq<int>, key: int -> int, j: int)
    requires 0 <= j < |Insert(x, t, key)|
    ensures Insert(x, t, key)[j] == x || Insert(x, t, key)[j] in t
  {
    InsertPermutes(x, t, key);
    assert Insert(x, t, key)[j] in multiset(Insert(x, t, key));
  }

  lemma {:induction false} InsertStable(x: int, s: seq<int>, key: int -> int)
    requires ByKeyThenIndex(s, key)
    requires forall y :: y in s ==> y < x
    ensures ByKeyThenIndex(Insert(x, s, key), key)
  {
    if |s| > 0 && key(x) <= key(s[0]) {
      var rest := Insert(x, s[1..], key);
      assert forall y :: y in s[1..] ==> y in s;
      InsertStable(x, s[1..], key);
      forall j | 0 <= j < |rest|
        ensures key(s[0]) > key(rest[j]) || (key(s[0]) == key(rest[j]) && s[0] < rest[j])
      {
        InsertedFrom(x, s[1..], key, j);
        if rest[j] == x {
          assert s[0] in s;
        } else {
          var k :| 0 <= k < |s[1..]| && s[1..][k] == rest[j];
          assert s[k + 1] == rest[j];
        }
      }
      ConsByKeyThenIndex(s[0], rest, key);
    }
  }

  /** Stability: sorting increasing indices breaks key ties by index. */
  lemma {:induction false} SortIsStable(s: seq<int>, key: int -> int)
    requires Increasing(s)
    ensures ByKeyThenIndex(SortedByDescending(s, key), key)
  {
    if |s| > 0 {
      var init := s[..|s| - 1];
      var x := s[|s| - 1];
      SortIsStable(init, key);
      SortedByDescendingSpec(init, key);
      forall y | y in SortedByDescending(init, key) ensures y < x {
        assert y in multiset(SortedByDescending(init, key));
        assert y in init;
      }
      InsertStable(x, SortedByDescending(init, key), key);
    }
  }
}
