/** Kotlin's `mutableMapOf()` (a LinkedHashMap) as a list of entries in
    insertion order: `m[k] = v` replaces the value of an existing key in place
    and appends a new key at the end, `remove(k)` drops the key's entry, and
    iteration follows the list. */
module AssocList {
  import opened Models
  import opened Seqs

  datatype Entry<K> = Entry(key: K, value: int)

  /** Position of the first entry with key `k`, or `|m|` when there is none. */
  function IndexOf<K(==)>(m: seq<Entry<K>>, k: K): (i: nat)
    ensures i <= |m|
    ensures i < |m| ==> m[i].key == k
    ensures forall j :: 0 <= j < i ==> m[j].key != k
  {
    if |m| == 0 then 0
    else if m[0].key == k then 0
    else 1 + IndexOf(m[1..], k)
  }

  function Keys<K>(m: seq<Entry<K>>): (r: seq<K>)
    ensures |r| == |m| && forall i :: 0 <= i < |m| ==> r[i] == m[i].key
  {
    seq(|m|, i requires 0 <= i < |m| => m[i].key)
  }

  function Values<K>(m: seq<Entry<K>>): (r: seq<int>)
    ensures |r| == |m| && forall i :: 0 <= i < |m| ==> r[i] == m[i].value
  {
    seq(|m|, i requires 0 <= i < |m| => m[i].value)
  }

  /** `containsKey`. */
  predicate HasKey<K(==)>(m: seq<Entry<K>>, k: K) {
    IndexOf(m, k) < |m|
  }

  /** `m[k]`. */
  function Get<K(==)>(m: seq<Entry<K>>, k: K): Option<int> {
    var i := IndexOf(m, k);
    if i < |m| then Some(m[i].value) else None
  }

  /** `m[k] ?: 0`. */
  function GetOrZero<K(==)>(m: seq<Entry<K>>, k: K): int {
    var i := IndexOf(m, k);
    if i < |m| then m[i].value else 0
  }

  /** `m[k] = v`. */
  function Put<K(==)>(m: seq<Entry<K>>, k: K, v: int): seq<Entry<K>> {
    var i := IndexOf(m, k);
    if i < |m| then m[i := Entry(k, v)] else m + [Entry(k, v)]
  }

  /** `m.remove(k)`. */
  function Remove<K(==)>(m: seq<Entry<K>>, k: K): seq<Entry<K>> {
    var i := IndexOf(m, k);
    if i < |m| then m[..i] + m[i + 1..] else m
  }

  ghost predicate DistinctKeys<K>(m: seq<Entry<K>>) {
    Distinct(Keys(m))
  }

  // ---------------------------------------------------------------------------
  // Lookup after an update

  /** The first-match index is determined by its two defining properties. */
  lemma IndexOfIs<K>(m: seq<Entry<K>>, k: K, j: nat)
    requires j <= |m| && (j < |m| ==> m[j].key == k)
    requires forall i :: 0 <= i < j ==> m[i].key != k
    ensures IndexOf(m, k) == j
  {
  }

  /** A key is present exactly when it is among the keys. */
  lemma HasKeyIffInKeys<K>(m: seq<Entry<K>>, k: K)
    ensures HasKey(m, k) <==> k in Keys(m)
  {
    if k in Keys(m) {
      var j :| 0 <= j < |m| && Keys(m)[j] == k;
      assert IndexOf(m, k) <= j;
    }
  }

  /** After `m[k] = v`, `k` maps to `v` and every other key keeps its value. */
  lemma GetPut<K>(m: seq<Entry<K>>, k: K, v: int, k': K)
    ensures Get(Put(m, k, v), k') == if k' == k then Some(v) else Get(m, k')
  {
    var i := IndexOf(m, k);
    var r := Put(m, k, v);
    var j := IndexOf(m, k');
    if k' == k {
      IndexOfIs(r, k, i);
    } else if j < |m| {
      IndexOfIs(r, k', j);
    } else {
      IndexOfIs(r, k', |r|);
    }
  }

  lemma GetOrZeroPut<K>(m: seq<Entry<K>>, k: K, v: int, k': K)
    ensures GetOrZero(Put(m, k, v), k') == if k' == k then v else GetOrZero(m, k')
  {
    GetPut(m, k, v, k');
    GetAndGetOrZero(m, k');
    GetAndGetOrZero(Put(m, k, v), k');
  }

  lemma GetAndGetOrZero<K>(m: seq<Entry<K>>, k: K)
    ensures GetOrZero(m, k) == match Get(m, k) case Some(v) => v case None => 0
    ensures Get(m, k).Some? <==> HasKey(m, k)
  {
  }

  /** `m[k] = v` adds `k` to the keys and no other. */
  lemma HasKeyPut<K>(m: seq<Entry<K>>, k: K, v: int, k': K)
    ensures HasKey(Put(m, k, v), k') <==> HasKey(m, k') || k' == k
  {
    GetPut(m, k, v, k');
    GetAndGetOrZero(m, k');
    GetAndGetOrZero(Put(m, k, v), k');
  }

  /** After `m.remove(k)`, every other key keeps its value. */
  lemma GetRemove<K>(m: seq<Entry<K>>, k: K, k': K)
    requires k' != k
    ensures Get(Remove(m, k), k') == Get(m, k')
  {
    var i := IndexOf(m, k);
    var r := Remove(m, k);
    var j := IndexOf(m, k');
    if i < |m| {
      if j < i {
        IndexOfIs(r, k', j);
      } else if j < |m| {
        assert r[j - 1] == m[j];
        forall x | 0 <= x < j - 1 ensures r[x].key != k' {
          if x >= i { assert r[x] == m[x + 1]; }
        }
        IndexOfIs(r, k', j - 1);
      } else {
        forall x | 0 <= x < |r| ensures r[x].key != k' {
          if x >= i { assert r[x] == m[x + 1]; }
        }
        IndexOfIs(r, k', |r|);
      }
    }
  }

  lemma GetOrZeroRemove<K>(m: seq<Entry<K>>, k: K, k': K)
    requires k' != k
    ensures GetOrZero(Remove(m, k), k') == GetOrZero(m, k')
  {
    GetRemove(m, k, k');
    GetAndGetOrZero(m, k');
    GetAndGetOrZero(Remove(m, k), k');
  }

  lemma HasKeyRemove<K>(m: seq<Entry<K>>, k: K, k': K)
    requires k' != k
    ensures HasKey(Remove(m, k), k') <==> HasKey(m, k')
  {
    GetRemove(m, k, k');
    GetAndGetOrZero(m, k');
    GetAndGetOrZero(Remove(m, k), k');
  }

  /** With distinct keys, a removed key is gone. */
  lemma RemoveGone<K>(m: seq<Entry<K>>, k: K)
    requires DistinctKeys(m)
    ensures !HasKey(Remove(m, k), k)
  {
    var i := IndexOf(m, k);
    var r := Remove(m, k);
    if i < |m| {
      forall x | 0 <= x < |r| ensures r[x].key != k {
        if x < i {
          assert r[x] == m[x];
        } else {
          assert r[x] == m[x + 1];
          assert Keys(m)[x + 1] != Keys(m)[i];
        }
      }
      IndexOfIs(r, k, |r|);
    }
  }

  /** Looking up in a list extended at the end. */
  lemma GetOrZeroSnoc<K>(m: seq<Entry<K>>, e: Entry<K>, k: K)
    ensures GetOrZero(m + [e], k) ==
      if HasKey(m, k) then GetOrZero(m, k) else if e.key == k then e.value else 0
  {
    var i := IndexOf(m, k);
    if i < |m| {
      IndexOfIs(m + [e], k, i);
    } else if e.key == k {
      IndexOfIs(m + [e], k, |m|);
    } else {
      IndexOfIs(m + [e], k, |m| + 1);
    }
  }

  /** With distinct keys, the last key is not among the earlier ones. */
  lemma DistinctSnoc<K>(m: seq<Entry<K>>, e: Entry<K>)
    requires DistinctKeys(m + [e])
    ensures DistinctKeys(m) && !HasKey(m, e.key)
  {
    var ks := Keys(m + [e]);
    assert ks[|m|] == e.key;
    forall i, j | 0 <= i < j < |m| ensures Keys(m)[i] != Keys(m)[j] {
      assert ks[i] == Keys(m)[i] && ks[j] == Keys(m)[j];
    }
    forall j | 0 <= j < |m| ensures Keys(m)[j] != e.key {
      assert ks[j] == Keys(m)[j];
    }
    HasKeyIffInKeys(m, e.key);
  }

  // ---------------------------------------------------------------------------
  // Keys after an update

  /** `m[k] = v` keeps the keys in place and appends `k` if it was new. */
  lemma KeysPut<K>(m: seq<Entry<K>>, k: K, v: int)
    ensures Keys(Put(m, k, v)) == if HasKey(m, k) then Keys(m) else Keys(m) + [k]
  {
    var i := IndexOf(m, k);
    if i < |m| {
      assert Keys(Put(m, k, v)) == Keys(m);
    } else {
      assert Keys(Put(m, k, v)) == Keys(m) + [k];
    }
  }

  lemma PutKeepsDistinct<K>(m: seq<Entry<K>>, k: K, v: int)
    requires DistinctKeys(m)
    ensures DistinctKeys(Put(m, k, v))
  {
    KeysPut(m, k, v);
    HasKeyIffInKeys(m, k);
  }

  /** `m[k] = v` keeps the existing keys in place, adds at most one entry,
      and keeps the keys distinct. */
  lemma PutKeys<K>(m: seq<Entry<K>>, k: K, v: int)
    ensures var r := Put(m, k, v);
      |m| <= |r| <= |m| + 1 && (forall j :: 0 <= j < |m| ==> r[j].key == m[j].key)
      && (DistinctKeys(m) ==> DistinctKeys(r))
  {
    KeysPut(m, k, v);
    HasKeyIffInKeys(m, k);
  }

  /** `m[k] = v` adds `k` to the key set and no other key. */
  lemma InKeysPut<K>(m: seq<Entry<K>>, k: K, v: int, k': K)
    ensures k' in Keys(Put(m, k, v)) <==> k' in Keys(m) || k' == k
  {
    KeysPut(m, k, v);
    HasKeyIffInKeys(m, k);
  }

  lemma RemoveKeepsDistinct<K>(m: seq<Entry<K>>, k: K)
    requires DistinctKeys(m)
    ensures DistinctKeys(Remove(m, k))
    ensures forall x :: x in Keys(Remove(m, k)) ==> x in Keys(m)
  {
    var i := IndexOf(m, k);
    if i < |m| {
      var r := Remove(m, k);
      forall x | 0 <= x < |r| ensures r[x] == (if x < i then m[x] else m[x + 1]) {
      }
      forall a, b | 0 <= a < b < |r| ensures Keys(r)[a] != Keys(r)[b] {
        var a', b' := if a < i then a else a + 1, if b < i then b else b + 1;
        assert Keys(m)[a'] != Keys(m)[b'];
      }
      forall x | x in Keys(r) ensures x in Keys(m) {
        var j :| 0 <= j < |r| && Keys(r)[j] == x;
        assert Keys(m)[if j < i then j else j + 1] == x;
      }
    }
  }

  /** `m.remove(k)` never adds an entry and keeps the keys distinct. */
  lemma RemoveKeys<K>(m: seq<Entry<K>>, k: K)
    ensures |Remove(m, k)| <= |m|
    ensures DistinctKeys(m) ==> DistinctKeys(Remove(m, k))
  {
    if DistinctKeys(m) {
      RemoveKeepsDistinct(m, k);
    }
  }

  // ---------------------------------------------------------------------------
  // Sums over the entries

  /** `f` of each entry, in order. */
  function Terms<K>(m: seq<Entry<K>>, f: Entry<K> -> int): (r: seq<int>)
    ensures |r| == |m| && forall i :: 0 <= i < |m| ==> r[i] == f(m[i])
  {
    seq(|m|, i requires 0 <= i < |m| => f(m[i]))
  }

  /** The sum of `f` over the entries. */
  function SumOf<K>(m: seq<Entry<K>>, f: Entry<K> -> int): int {
    Sum(Terms(m, f))
  }

  lemma SumOfSplit<K>(a: seq<Entry<K>>, b: seq<Entry<K>>, f: Entry<K> -> int)
    ensures SumOf(a + b, f) == SumOf(a, f) + SumOf(b, f)
  {
    assert Terms(a + b, f) == Terms(a, f) + Terms(b, f);
    SumAppend(Terms(a, f), Terms(b, f));
  }

  lemma SumOfSingleton<K>(e: Entry<K>, f: Entry<K> -> int)
    ensures SumOf([e], f) == f(e)
  {
    assert Terms([e], f) == [f(e)];
    SumSingleton(f(e));
  }

  /** `m[k] = v` swaps the old entry's term (if any) for the new one's. */
  lemma SumOfPut<K>(m: seq<Entry<K>>, k: K, v: int, f: Entry<K> -> int)
    ensures SumOf(Put(m, k, v), f) == SumOf(m, f) + f(Entry(k, v))
      - (if HasKey(m, k) then f(Entry(k, GetOrZero(m, k))) else 0)
  {
    var i := IndexOf(m, k);
    if i < |m| {
      assert Terms(m[i := Entry(k, v)], f) == Terms(m, f)[i := f(Entry(k, v))];
      SumUpdate(Terms(m, f), i, f(Entry(k, v)));
      assert m[i] == Entry(k, GetOrZero(m, k));
    } else {
      SumOfSplit(m, [Entry(k, v)], f);
      SumOfSingleton(Entry(k, v), f);
    }
  }

  /** `m.remove(k)` drops the entry's term. */
  lemma SumOfRemove<K>(m: seq<Entry<K>>, k: K, f: Entry<K> -> int)
    ensures SumOf(Remove(m, k), f) == SumOf(m, f) - (if HasKey(m, k) then f(Entry(k, GetOrZero(m, k))) else 0)
  {
    var i := IndexOf(m, k);
    if i < |m| {
      assert m == m[..i] + [m[i]] + m[i + 1..];
      SumOfSplit(m[..i] + [m[i]], m[i + 1..], f);
      SumOfSplit(m[..i], [m[i]], f);
      SumOfSplit(m[..i], m[i + 1..], f);
      SumOfSingleton(m[i], f);
      assert m[i] == Entry(k, GetOrZero(m, k));
    }
  }

  /** The sum of the values. */
  function ValueOf<K>(e: Entry<K>): int {
    e.value
  }

  lemma SumOfValues<K>(m: seq<Entry<K>>)
    ensures SumOf(m, ValueOf) == Sum(Values(m))
  {
    assert Terms(m, ValueOf) == Values(m);
  }
}
