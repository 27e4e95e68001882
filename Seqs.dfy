/** Summation over integer sequences, the `sumOf { }` and `values.sum()` of the
    Kotlin services, with the algebra the settlement proofs need. */
module Seqs {

  /** Sum of a sequence, accumulated left to right. */
  function Sum(s: seq<int>): int {
    if |s| == 0 then 0 else Sum(s[..|s| - 1]) + s[|s| - 1]
  }

  function Min(a: int, b: int): int {
    if a <= b then a else b
  }

  /** Position of the first element satisfying `p` (Kotlin's `find`, and the
      element a positional `$` update addresses), or `|s|` when there is none. */
  function FindIndex<T>(s: seq<T>, p: T -> bool): (k: nat)
    ensures k <= |s|
    ensures k < |s| ==> p(s[k])
    ensures forall j :: 0 <= j < k ==> !p(s[j])
  {
    if |s| == 0 then 0
    else if p(s[0]) then 0
    else 1 + FindIndex(s[1..], p)
  }

  lemma {:induction false} SumAppend(s: seq<int>, t: seq<int>)
    ensures Sum(s + t) == Sum(s) + Sum(t)
  {
    if |t| == 0 {
      assert s + t == s;
    } else {
      assert (s + t)[..|s + t| - 1] == s + t[..|t| - 1];
      SumAppend(s, t[..|t| - 1]);
    }
  }

  lemma SumSingleton(x: int)
    ensures Sum([x]) == x
  {
    assert [x][..0] == [];
  }

  lemma SumCons(x: int, s: seq<int>)
    ensures Sum([x] + s) == x + Sum(s)
  {
    SumAppend([x], s);
    SumSingleton(x);
  }

  /** Replacing one element changes the sum by the difference. */
  lemma {:induction false} SumUpdate(s: seq<int>, k: int, v: int)
    requires 0 <= k < |s|
    ensures Sum(s[k := v]) == Sum(s) - s[k] + v
  {
    var n := |s| - 1;
    if k == n {
      assert s[k := v][..n] == s[..n];
    } else {
      assert s[k := v][..n] == s[..n][k := v];
      SumUpdate(s[..n], k, v);
    }
  }

  lemma {:induction false} SumNonNegative(s: seq<int>)
    requires forall i :: 0 <= i < |s| ==> s[i] >= 0
    ensures Sum(s) >= 0
  {
    if |s| > 0 {
      SumNonNegative(s[..|s| - 1]);
    }
  }

  lemma {:induction false} SumPositive(s: seq<int>)
    requires |s| > 0
    requires forall i :: 0 <= i < |s| ==> s[i] > 0
    ensures Sum(s) > 0
  {
    SumNonNegative(s[..|s| - 1]);
  }

  /** A sum of terms strictly below `bound` is below `|s| * bound`. */
  lemma {:induction false} SumBelow(s: seq<int>, bound: int)
    requires |s| > 0
    requires forall i :: 0 <= i < |s| ==> s[i] < bound
    ensures Sum(s) < |s| * bound
  {
    if |s| > 1 {
      SumBelow(s[..|s| - 1], bound);
    }
  }

  /** A sum of terms strictly above `bound` is above `|s| * bound`. */
  lemma {:induction false} SumAbove(s: seq<int>, bound: int)
    requires |s| > 0
    requires forall i :: 0 <= i < |s| ==> s[i] > bound
    ensures Sum(s) > |s| * bound
  {
    if |s| > 1 {
      SumAbove(s[..|s| - 1], bound);
    }
  }

  /** All elements distinct. */
  ghost predicate Distinct<T>(s: seq<T>) {
    forall i, j :: 0 <= i < j < |s| ==> s[i] != s[j]
  }

  /** Sum of the values of a map, each key counted once (Kotlin's
      `values.sum()`). */
  ghost function SumValues<K>(m: map<K, int>): int
    decreases |m|
  {
    if |m| == 0 then 0
    else
      var k :| k in m;
      m[k] + SumValues(m - {k})
  }

  lemma RemoveTwo<K>(m: map<K, int>, j: K, k: K)
    requires j in m && k in m && j != k
    ensures k in m - {j} && j in m - {k}
    ensures (m - {j}) - {k} == (m - {k}) - {j}
    ensures |m - {j}| == |m| - 1 && |m - {k}| == |m| - 1
  {
    assert (m - {j}).Keys == m.Keys - {j};
    assert (m - {k}).Keys == m.Keys - {k};
  }

  /** The sum does not depend on the key taken first. */
  lemma SumValuesRemove<K>(m: map<K, int>, k: K)
    requires k in m
    ensures SumValues(m) == m[k] + SumValues(m - {k})
    decreases |m|
  {
    var j :| j in m && SumValues(m) == m[j] + SumValues(m - {j});
    if j != k {
      RemoveTwo(m, j, k);
      SumValuesRemove(m - {j}, k);
      SumValuesRemove(m - {k}, j);
    }
  }
}
