/** What the first two phases of `generateMinimalDebtsWithTransfers` compute:
    the consolidated transfer matrix holds one positive entry per pair of
    players, equal to the net flow between them, and applying it moves each
    player's balance by what that player paid minus what they received. */
module TransferFacts {
  import opened Models
  import opened Seqs
  import opened AssocList
  import opened DebtMinimizer

  /** What `addTransfer` admits: a positive amount between two different players. */
  ghost predicate ValidTransfers(ts: seq<DirectTransfer>) {
    forall i :: 0 <= i < |ts| ==> ts[i].amount > 0 && ts[i].fromPlayerId != ts[i].toPlayerId
  }

  /** One direction per pair: distinct keys, positive amounts, no pair from a
      player to itself and never both (a, b) and (b, a). */
  ghost predicate ValidMatrix(m: Matrix) {
    DistinctKeys(m) &&
    forall x :: HasKey(m, x) ==> GetOrZero(m, x) > 0 && x.0 != x.1 && !HasKey(m, (x.1, x.0))
  }

  /** What one transfer moves from `a` to `b` (negative when it goes the other way). */
  function StepFlow(t: DirectTransfer, a: Id, b: Id): int {
    if t.fromPlayerId == a && t.toPlayerId == b then t.amount
    else if t.fromPlayerId == b && t.toPlayerId == a then -t.amount
    else 0
  }

  /** The net amount the transfers moved from `a` to `b`. */
  function Flow(ts: seq<DirectTransfer>, a: Id, b: Id): int {
    if |ts| == 0 then 0 else Flow(ts[..|ts| - 1], a, b) + StepFlow(ts[|ts| - 1], a, b)
  }

  /** What one transfer changes in the balance of `id`: the payer's rises. */
  function TransferNetOf(t: DirectTransfer, id: Id): int {
    (if t.fromPlayerId == id then t.amount else 0) - (if t.toPlayerId == id then t.amount else 0)
  }

  /** What `id` paid minus what it received over the transfers. */
  function TransferNet(ts: seq<DirectTransfer>, id: Id): int {
    if |ts| == 0 then 0 else TransferNet(ts[..|ts| - 1], id) + TransferNetOf(ts[|ts| - 1], id)
  }

  /** The same for one matrix entry. */
  function EdgeNet(e: Entry<(Id, Id)>, id: Id): int {
    (if e.key.0 == id then e.value else 0) - (if e.key.1 == id then e.value else 0)
  }

  function EdgeNetOf(id: Id): Entry<(Id, Id)> -> int {
    e => EdgeNet(e, id)
  }

  /** What `id` paid minus what it received over the whole matrix. */
  function NetOut(m: Matrix, id: Id): int {
    SumOf(m, EdgeNetOf(id))
  }

  // ---------------------------------------------------------------------------
  // Consolidation

  /** A missing pair reads as 0. */
  lemma AbsentIsZero(m: Matrix, x: (Id, Id))
    requires !HasKey(m, x)
    ensures GetOrZero(m, x) == 0
  {
  }

  /** Removing a pair keeps the matrix one-directional. */
  lemma RemoveValid(m: Matrix, k: (Id, Id))
    requires ValidMatrix(m)
    ensures ValidMatrix(Remove(m, k)) && !HasKey(Remove(m, k), k)
  {
    var r := Remove(m, k);
    RemoveKeepsDistinct(m, k);
    RemoveGone(m, k);
    forall x | HasKey(r, x) ensures GetOrZero(r, x) > 0 && x.0 != x.1 && !HasKey(r, (x.1, x.0)) {
      HasKeyRemove(m, k, x);
      GetOrZeroRemove(m, k, x);
      if (x.1, x.0) != k { HasKeyRemove(m, k, (x.1, x.0)); }
    }
  }

  /** Adding a new pair whose reverse is absent keeps the matrix one-directional. */
  lemma PutNewValid(m: Matrix, k: (Id, Id), v: int)
    requires ValidMatrix(m) && !HasKey(m, k) && !HasKey(m, (k.1, k.0))
    requires v > 0 && k.0 != k.1
    ensures ValidMatrix(Put(m, k, v))
  {
    var r := Put(m, k, v);
    PutKeepsDistinct(m, k, v);
    forall x | HasKey(r, x) ensures GetOrZero(r, x) > 0 && x.0 != x.1 && !HasKey(r, (x.1, x.0)) {
      HasKeyPut(m, k, v, x);
      GetOrZeroPut(m, k, v, x);
      HasKeyPut(m, k, v, (x.1, x.0));
    }
  }

  /** Changing an existing pair to a positive amount keeps the matrix one-directional. */
  lemma PutExistingValid(m: Matrix, k: (Id, Id), v: int)
    requires ValidMatrix(m) && HasKey(m, k) && v > 0
    ensures ValidMatrix(Put(m, k, v))
  {
    var r := Put(m, k, v);
    PutKeepsDistinct(m, k, v);
    forall x | HasKey(r, x) ensures GetOrZero(r, x) > 0 && x.0 != x.1 && !HasKey(r, (x.1, x.0)) {
      HasKeyPut(m, k, v, x);
      GetOrZeroPut(m, k, v, x);
      HasKeyPut(m, k, v, (x.1, x.0));
    }
  }

  /** One consolidation step keeps the matrix one-directional. */
  lemma ConsolidateStepValid(m: Matrix, t: DirectTransfer)
    requires ValidMatrix(m)
    requires t.amount > 0 && t.fromPlayerId != t.toPlayerId
    ensures ValidMatrix(ConsolidateStep(m, t))
  {
    var key := (t.fromPlayerId, t.toPlayerId);
    var reverseKey := (t.toPlayerId, t.fromPlayerId);
    var r := ConsolidateStep(m, t);
    if HasKey(m, reverseKey) {
      var existing := GetOrZero(m, reverseKey);
      if t.amount >= existing {
        RemoveValid(m, reverseKey);
        if t.amount > existing {
          CancelAndReverse(m, t);
        }
      } else {
        PutExistingValid(m, reverseKey, existing - t.amount);
        assert r == Put(m, reverseKey, existing - t.amount);
      }
    } else if HasKey(m, key) {
      PutExistingValid(m, key, GetOrZero(m, key) + t.amount);
      assert r == Put(m, key, GetOrZero(m, key) + t.amount);
    } else {
      AbsentIsZero(m, key);
      PutNewValid(m, key, t.amount);
      assert r == Put(m, key, t.amount);
    }
  }

  /** The branch where a transfer outweighs the opposite entry. */
  lemma CancelAndReverse(m: Matrix, t: DirectTransfer)
    requires ValidMatrix(m)
    requires t.amount > 0 && t.fromPlayerId != t.toPlayerId
    requires HasKey(m, (t.toPlayerId, t.fromPlayerId))
    requires t.amount > GetOrZero(m, (t.toPlayerId, t.fromPlayerId))
    ensures ValidMatrix(ConsolidateStep(m, t))
  {
    var key := (t.fromPlayerId, t.toPlayerId);
    var reverseKey := (t.toPlayerId, t.fromPlayerId);
    var existing := GetOrZero(m, reverseKey);
    var m1 := Remove(m, reverseKey);
    RemoveValid(m, reverseKey);
    assert !HasKey(m, key);
    HasKeyRemove(m, reverseKey, key);
    PutNewValid(m1, key, t.amount - existing);
    assert ConsolidateStep(m, t) == Put(m1, key, t.amount - existing);
  }

  /** One consolidation step moves the difference between (a, b) and (b, a)
      by exactly what the transfer moves from `a` to `b`. */
  lemma ConsolidateStepFlow(m: Matrix, t: DirectTransfer, a: Id, b: Id)
    requires ValidMatrix(m)
    requires t.amount > 0 && t.fromPlayerId != t.toPlayerId && a != b
    ensures var r := ConsolidateStep(m, t);
      GetOrZero(r, (a, b)) - GetOrZero(r, (b, a)) == GetOrZero(m, (a, b)) - GetOrZero(m, (b, a)) + StepFlow(t, a, b)
  {
    var key := (t.fromPlayerId, t.toPlayerId);
    var reverseKey := (t.toPlayerId, t.fromPlayerId);
    var r := ConsolidateStep(m, t);
    forall x | x != key && x != reverseKey ensures GetOrZero(r, x) == GetOrZero(m, x) {
      RestUnchanged(m, t, x);
    }
    if !HasKey(m, key) { AbsentIsZero(m, key); }
    if !HasKey(m, reverseKey) { AbsentIsZero(m, reverseKey); }
    ConsolidateStepAt(m, t);
  }

  /** Only the transfer's own pair and its reverse change. */
  lemma RestUnchanged(m: Matrix, t: DirectTransfer, x: (Id, Id))
    requires x != (t.fromPlayerId, t.toPlayerId) && x != (t.toPlayerId, t.fromPlayerId)
    ensures GetOrZero(ConsolidateStep(m, t), x) == GetOrZero(m, x)
  {
    var key := (t.fromPlayerId, t.toPlayerId);
    var reverseKey := (t.toPlayerId, t.fromPlayerId);
    var r := ConsolidateStep(m, t);
    if HasKey(m, reverseKey) {
      var existing := GetOrZero(m, reverseKey);
      if t.amount >= existing {
        var m1 := Remove(m, reverseKey);
        GetOrZeroRemove(m, reverseKey, x);
        if t.amount > existing {
          assert r == Put(m1, key, t.amount - existing);
          GetOrZeroPut(m1, key, t.amount - existing, x);
        } else {
          assert r == m1;
        }
      } else {
        assert r == Put(m, reverseKey, existing - t.amount);
        GetOrZeroPut(m, reverseKey, existing - t.amount, x);
      }
    } else {
      assert r == Put(m, key, GetOrZero(m, key) + t.amount);
      GetOrZeroPut(m, key, GetOrZero(m, key) + t.amount, x);
    }
  }

  /** The transfer's own pair and its reverse after one step. */
  lemma ConsolidateStepAt(m: Matrix, t: DirectTransfer)
    requires ValidMatrix(m)
    requires t.amount > 0 && t.fromPlayerId != t.toPlayerId
    ensures var key, reverseKey := (t.fromPlayerId, t.toPlayerId), (t.toPlayerId, t.fromPlayerId);
      var r := ConsolidateStep(m, t);
      GetOrZero(r, key) - GetOrZero(r, reverseKey) == GetOrZero(m, key) - GetOrZero(m, reverseKey) + t.amount
  {
    var key := (t.fromPlayerId, t.toPlayerId);
    var reverseKey := (t.toPlayerId, t.fromPlayerId);
    if HasKey(m, reverseKey) {
      var existing := GetOrZero(m, reverseKey);
      assert !HasKey(m, key);
      AbsentIsZero(m, key);
      var m1 := Remove(m, reverseKey);
      if t.amount >= existing {
        RemoveGone(m, reverseKey);
        AbsentIsZero(m1, reverseKey);
        GetOrZeroRemove(m, reverseKey, key);
        if t.amount > existing {
          GetOrZeroPut(m1, key, t.amount - existing, key);
          GetOrZeroPut(m1, key, t.amount - existing, reverseKey);
        }
      } else {
        GetOrZeroPut(m, reverseKey, existing - t.amount, key);
        GetOrZeroPut(m, reverseKey, existing - t.amount, reverseKey);
      }
    } else {
      AbsentIsZero(m, reverseKey);
      GetOrZeroPut(m, key, GetOrZero(m, key) + t.amount, key);
      GetOrZeroPut(m, key, GetOrZero(m, key) + t.amount, reverseKey);
    }
  }

  /** The consolidated matrix is one-directional. */
  lemma {:induction false} ConsolidateValid(ts: seq<DirectTransfer>)
    requires ValidTransfers(ts)
    ensures ValidMatrix(Consolidate(ts))
  {
    if |ts| > 0 {
      ConsolidateValid(ts[..|ts| - 1]);
      ConsolidateStepValid(Consolidate(ts[..|ts| - 1]), ts[|ts| - 1]);
    }
  }

  /** The entries of a pair differ by the net flow between its two players. */
  lemma {:induction false} ConsolidateFlow(ts: seq<DirectTransfer>, a: Id, b: Id)
    requires ValidTransfers(ts) && a != b
    ensures var m := Consolidate(ts); GetOrZero(m, (a, b)) - GetOrZero(m, (b, a)) == Flow(ts, a, b)
  {
    if |ts| > 0 {
      var init := ts[..|ts| - 1];
      ConsolidateFlow(init, a, b);
      ConsolidateValid(init);
      ConsolidateStepFlow(Consolidate(init), ts[|ts| - 1], a, b);
    }
  }

  /** Each pair's entry is the net flow from its payer to its payee when that
      is positive, and absent (zero) otherwise. */
  lemma ConsolidatePair(ts: seq<DirectTransfer>, a: Id, b: Id)
    requires ValidTransfers(ts) && a != b
    ensures var f := Flow(ts, a, b);
      GetOrZero(Consolidate(ts), (a, b)) == if f > 0 then f else 0
  {
    var m := Consolidate(ts);
    ConsolidateFlow(ts, a, b);
    ConsolidateValid(ts);
    if HasKey(m, (a, b)) {
      AbsentIsZero(m, (b, a));
    } else {
      AbsentIsZero(m, (a, b));
      if HasKey(m, (b, a)) {
        assert GetOrZero(m, (b, a)) > 0;
      } else {
        AbsentIsZero(m, (b, a));
      }
    }
  }

  /** A pair of transfers that cancel each other leaves no entry. */
  lemma ConsolidateCancels(t1: DirectTransfer, t2: DirectTransfer)
    requires t1.amount > 0 && t1.fromPlayerId != t1.toPlayerId
    requires t2.fromPlayerId == t1.toPlayerId && t2.toPlayerId == t1.fromPlayerId && t2.amount == t1.amount
    ensures Consolidate([t1, t2]) == []
  {
    var key := (t1.fromPlayerId, t1.toPlayerId);
    assert [t1, t2][..1] == [t1];
    assert [t1][..0] == [];
    var m1 := Consolidate([t1]);
    var empty: seq<DirectTransfer> := [];
    assert Consolidate(empty) == [];
    assert m1 == ConsolidateStep(Consolidate(empty), t1);
    assert m1 == [Entry(key, t1.amount)];
    assert IndexOf(m1, key) == 0;
    assert Consolidate([t1, t2]) == ConsolidateStep(m1, t2);
    assert Remove(m1, key) == [];
  }

  // ---------------------------------------------------------------------------
  // What each player paid and received

  lemma EdgeNetLinear(k: (Id, Id), v: int, w: int, id: Id)
    ensures EdgeNet(Entry(k, v + w), id) == EdgeNet(Entry(k, v), id) + EdgeNet(Entry(k, w), id)
    ensures EdgeNet(Entry((k.1, k.0), v), id) == -EdgeNet(Entry(k, v), id)
  {
  }

  /** One consolidation step adds the transfer's own effect. */
  lemma ConsolidateStepNet(m: Matrix, t: DirectTransfer, id: Id)
    requires ValidMatrix(m)
    requires t.amount > 0 && t.fromPlayerId != t.toPlayerId
    ensures NetOut(ConsolidateStep(m, t), id) == NetOut(m, id) + TransferNetOf(t, id)
  {
    var key := (t.fromPlayerId, t.toPlayerId);
    var reverseKey := (t.toPlayerId, t.fromPlayerId);
    var r := ConsolidateStep(m, t);
    assert TransferNetOf(t, id) == EdgeNet(Entry(key, t.amount), id);
    if HasKey(m, reverseKey) {
      var existing := GetOrZero(m, reverseKey);
      if t.amount >= existing {
        CancelNet(m, t, id);
      } else {
        assert r == Put(m, reverseKey, existing - t.amount);
        SumOfPut(m, reverseKey, existing - t.amount, EdgeNetOf(id));
        EdgeNetLinear(key, existing - t.amount, t.amount, id);
        EdgeNetLinear(key, existing, 0, id);
      }
    } else {
      var g := GetOrZero(m, key);
      assert r == Put(m, key, g + t.amount);
      SumOfPut(m, key, g + t.amount, EdgeNetOf(id));
      if !HasKey(m, key) { AbsentIsZero(m, key); }
      EdgeNetLinear(key, g, t.amount, id);
    }
  }

  /** The branch where a transfer cancels the whole opposite entry. */
  lemma CancelNet(m: Matrix, t: DirectTransfer, id: Id)
    requires ValidMatrix(m)
    requires t.amount > 0 && t.fromPlayerId != t.toPlayerId
    requires HasKey(m, (t.toPlayerId, t.fromPlayerId))
    requires t.amount >= GetOrZero(m, (t.toPlayerId, t.fromPlayerId))
    ensures NetOut(ConsolidateStep(m, t), id) == NetOut(m, id) + TransferNetOf(t, id)
  {
    var key := (t.fromPlayerId, t.toPlayerId);
    var reverseKey := (t.toPlayerId, t.fromPlayerId);
    var existing := GetOrZero(m, reverseKey);
    var m1 := Remove(m, reverseKey);
    SumOfRemove(m, reverseKey, EdgeNetOf(id));
    EdgeNetLinear(key, existing, 0, id);
    assert NetOut(m1, id) == NetOut(m, id) + EdgeNet(Entry(key, existing), id);
    if t.amount > existing {
      assert !HasKey(m, key);
      HasKeyRemove(m, reverseKey, key);
      SumOfPut(m1, key, t.amount - existing, EdgeNetOf(id));
      EdgeNetLinear(key, existing, t.amount - existing, id);
      assert ConsolidateStep(m, t) == Put(m1, key, t.amount - existing);
    } else {
      assert ConsolidateStep(m, t) == m1;
    }
  }

  /** Over the whole matrix, each player's paid-minus-received equals that
      over the transfers it consolidates. */
  lemma {:induction false} ConsolidateNet(ts: seq<DirectTransfer>, id: Id)
    requires ValidTransfers(ts)
    ensures NetOut(Consolidate(ts), id) == TransferNet(ts, id)
  {
    if |ts| > 0 {
      var init := ts[..|ts| - 1];
      ConsolidateNet(init, id);
      ConsolidateValid(init);
      ConsolidateStepNet(Consolidate(init), ts[|ts| - 1], id);
    } else {
      assert Terms(Consolidate(ts), EdgeNetOf(id)) == [];
    }
  }

  // ---------------------------------------------------------------------------
  // Applying the matrix to the balances

  /** One entry moves the payer's balance up and the payee's down by its amount. */
  lemma ApplyEdgeAt(b: Balances, e: Entry<(Id, Id)>, id: Id)
    ensures GetOrZero(ApplyEdge(b, e), id) == GetOrZero(b, id) + EdgeNet(e, id)
  {
    var b1 := Put(b, e.key.0, GetOrZero(b, e.key.0) + e.value);
    GetOrZeroPut(b, e.key.0, GetOrZero(b, e.key.0) + e.value, id);
    GetOrZeroPut(b, e.key.0, GetOrZero(b, e.key.0) + e.value, e.key.1);
    GetOrZeroPut(b1, e.key.1, GetOrZero(b1, e.key.1) - e.value, id);
  }

  lemma NetOutSnoc(m: Matrix, id: Id)
    requires |m| > 0
    ensures NetOut(m, id) == NetOut(m[..|m| - 1], id) + EdgeNet(m[|m| - 1], id)
  {
    assert m == m[..|m| - 1] + [m[|m| - 1]];
    SumOfSplit(m[..|m| - 1], [m[|m| - 1]], EdgeNetOf(id));
    SumOfSingleton(m[|m| - 1], EdgeNetOf(id));
  }

  /** Each balance moves by the entries' paid-minus-received. */
  lemma {:induction false} ApplyEdgesAt(b: Balances, m: Matrix, id: Id)
    ensures GetOrZero(ApplyEdges(b, m), id) == GetOrZero(b, id) + NetOut(m, id)
  {
    if |m| == 0 {
      assert Terms(m, EdgeNetOf(id)) == [];
    } else {
      ApplyEdgesAt(b, m[..|m| - 1], id);
      ApplyEdgeAt(ApplyEdges(b, m[..|m| - 1]), m[|m| - 1], id);
      NetOutSnoc(m, id);
    }
  }

  /** `m[k] = v` on a balance map changes the total by the change at `k`. */
  lemma SumPut(b: Balances, k: Id, v: int)
    ensures Sum(Values(Put(b, k, v))) == Sum(Values(b)) + v - GetOrZero(b, k)
  {
    SumOfPut(b, k, v, ValueOf);
    SumOfValues(b);
    SumOfValues(Put(b, k, v));
  }

  lemma ApplyEdgeTotal(b: Balances, e: Entry<(Id, Id)>)
    ensures Sum(Values(ApplyEdge(b, e))) == Sum(Values(b))
  {
    var b1 := Put(b, e.key.0, GetOrZero(b, e.key.0) + e.value);
    SumPut(b, e.key.0, GetOrZero(b, e.key.0) + e.value);
    SumPut(b1, e.key.1, GetOrZero(b1, e.key.1) - e.value);
  }

  /** Applying the matrix leaves the total balance unchanged. */
  lemma {:induction false} ApplyEdgesTotal(b: Balances, m: Matrix)
    ensures Sum(Values(ApplyEdges(b, m))) == Sum(Values(b))
  {
    if |m| > 0 {
      ApplyEdgesTotal(b, m[..|m| - 1]);
      ApplyEdgeTotal(ApplyEdges(b, m[..|m| - 1]), m[|m| - 1]);
    }
  }

  /** Applying one entry adds its payer and payee to the key set. */
  lemma ApplyEdgeKeySet(b: Balances, e: Entry<(Id, Id)>, k: Id)
    ensures k in Keys(ApplyEdge(b, e)) <==> k in Keys(b) || k == e.key.0 || k == e.key.1
  {
    var b1 := Put(b, e.key.0, GetOrZero(b, e.key.0) + e.value);
    InKeysPut(b, e.key.0, GetOrZero(b, e.key.0) + e.value, k);
    InKeysPut(b1, e.key.1, GetOrZero(b1, e.key.1) - e.value, k);
  }

  /** `k` is the payer or the payee of some matrix entry. */
  ghost predicate IsEndpoint(m: Matrix, k: Id) {
    exists i :: 0 <= i < |m| && (m[i].key.0 == k || m[i].key.1 == k)
  }

  lemma IsEndpointSnoc(m: Matrix, k: Id)
    requires |m| > 0
    ensures IsEndpoint(m, k) <==> IsEndpoint(m[..|m| - 1], k) || m[|m| - 1].key.0 == k || m[|m| - 1].key.1 == k
  {
    var m' := m[..|m| - 1];
    if IsEndpoint(m', k) {
      var i :| 0 <= i < |m'| && (m'[i].key.0 == k || m'[i].key.1 == k);
      assert m[i] == m'[i];
    }
    if IsEndpoint(m, k) {
      var i :| 0 <= i < |m| && (m[i].key.0 == k || m[i].key.1 == k);
      if i < |m'| {
        assert m'[i] == m[i];
      }
    }
  }

  /** The keys after applying the matrix are the old keys and the endpoints. */
  lemma {:induction false} ApplyEdgesKeySet(b: Balances, m: Matrix, k: Id)
    ensures k in Keys(ApplyEdges(b, m)) <==> k in Keys(b) || IsEndpoint(m, k)
  {
    if |m| > 0 {
      ApplyEdgesKeySet(b, m[..|m| - 1], k);
      ApplyEdgeKeySet(ApplyEdges(b, m[..|m| - 1]), m[|m| - 1], k);
      IsEndpointSnoc(m, k);
    }
  }

  /** Applying the matrix keeps one entry per player, keeps the players where
      they were, and appends exactly the endpoints of the matrix that were not
      players yet. */
  lemma ApplyEdgesKeys(b: Balances, m: Matrix)
    requires DistinctKeys(b)
    ensures var r := ApplyEdges(b, m);
      DistinctKeys(r) && |b| <= |r| && (forall j :: 0 <= j < |b| ==> r[j].key == b[j].key) &&
      (forall k :: k in Keys(r) <==> k in Keys(b) || IsEndpoint(m, k)) &&
      forall j :: |b| <= j < |r| ==> r[j].key !in Keys(b) && IsEndpoint(m, r[j].key)
  {
    var r := ApplyEdges(b, m);
    ApplyEdgesKeepsKeys(b, m);
    forall k ensures k in Keys(r) <==> k in Keys(b) || IsEndpoint(m, k) {
      ApplyEdgesKeySet(b, m, k);
    }
    forall j | |b| <= j < |r| ensures r[j].key !in Keys(b) && IsEndpoint(m, r[j].key) {
      var kr := Keys(r);
      assert kr[j] == r[j].key;
      forall i | 0 <= i < |b| ensures Keys(b)[i] != r[j].key {
        assert Keys(b)[i] == kr[i];
      }
      ApplyEdgesKeySet(b, m, r[j].key);
    }
  }
}
