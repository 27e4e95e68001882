/** `generateMinimalDebtsWithTransfers`: the direct transfers already made
    are folded into a matrix holding one direction per pair of players, that
    matrix is applied to the players' balanced nets, and a greedy two-pointer
    sweep over the debtors and creditors (in balance-map order) emits the
    debts still to be paid. The k-th emitted debt takes the k-th fresh
    ObjectId, `ids(k)`. */
module DebtMinimizer {
  import opened Models
  import opened Seqs
  import opened AssocList

  /** `netBalances` / `adjustedBalances`: player id to amount, insertion ordered. */
  type Balances = seq<Entry<Id>>

  /** `transferMatrix`: (payer, payee) to amount, insertion ordered. */
  type Matrix = seq<Entry<(Id, Id)>>

  /** `players.forEach { netBalances[it.id] = it.net }`. */
  function NetBalances(players: seq<Player>): (r: Balances)
    ensures DistinctKeys(r) && |r| <= |players|
  {
    if |players| == 0 then []
    else
      var p := players[|players| - 1];
      var prev := NetBalances(players[..|players| - 1]);
      PutKeys(prev, p.id, p.net);
      Put(prev, p.id, p.net)
  }

  /** One iteration of the consolidation loop: a transfer first cancels
      against an entry in the opposite direction, and only the excess (if
      any) is recorded in its own direction. */
  function ConsolidateStep(m: Matrix, t: DirectTransfer): (r: Matrix)
    ensures |r| <= |m| + 1
    ensures DistinctKeys(m) ==> DistinctKeys(r)
  {
    var key := (t.fromPlayerId, t.toPlayerId);
    var reverseKey := (t.toPlayerId, t.fromPlayerId);
    if HasKey(m, reverseKey) then
      var existing := GetOrZero(m, reverseKey);
      if t.amount >= existing then
        var m1 := Remove(m, reverseKey);
        RemoveKeys(m, reverseKey);
        PutKeys(m1, key, t.amount - existing);
        if t.amount > existing then Put(m1, key, t.amount - existing) else m1
      else PutKeys(m, reverseKey, existing - t.amount); Put(m, reverseKey, existing - t.amount)
    else PutKeys(m, key, GetOrZero(m, key) + t.amount); Put(m, key, GetOrZero(m, key) + t.amount)
  }

  /** The matrix after consolidating the transfers in order: one entry per
      key, and no more entries than transfers. */
  function Consolidate(ts: seq<DirectTransfer>): (r: Matrix)
    ensures DistinctKeys(r) && |r| <= |ts|
  {
    if |ts| == 0 then [] else ConsolidateStep(Consolidate(ts[..|ts| - 1]), ts[|ts| - 1])
  }

  /** One matrix entry applied to the balances: the payer's balance rises, the
      payee's falls, ids not yet present are appended. */
  function ApplyEdge(b: Balances, e: Entry<(Id, Id)>): Balances {
    var b1 := Put(b, e.key.0, GetOrZero(b, e.key.0) + e.value);
    Put(b1, e.key.1, GetOrZero(b1, e.key.1) - e.value)
  }

  /** One entry keeps the existing entries in place and the keys distinct. */
  lemma ApplyEdgeKeys(b: Balances, e: Entry<(Id, Id)>)
    ensures var r := ApplyEdge(b, e);
      |b| <= |r| && (forall j :: 0 <= j < |b| ==> r[j].key == b[j].key)
      && (DistinctKeys(b) ==> DistinctKeys(r))
  {
    var b1 := Put(b, e.key.0, GetOrZero(b, e.key.0) + e.value);
    PutKeys(b, e.key.0, GetOrZero(b, e.key.0) + e.value);
    PutKeys(b1, e.key.1, GetOrZero(b1, e.key.1) - e.value);
  }

  /** The balances after applying the matrix entries in order. */
  function ApplyEdges(b: Balances, m: Matrix): Balances {
    if |m| == 0 then b else ApplyEdge(ApplyEdges(b, m[..|m| - 1]), m[|m| - 1])
  }

  /** Applying the matrix keeps the existing entries in place and the keys
      distinct. */
  lemma {:induction false} ApplyEdgesKeepsKeys(b: Balances, m: Matrix)
    ensures var r := ApplyEdges(b, m);
      |b| <= |r| && (forall j :: 0 <= j < |b| ==> r[j].key == b[j].key)
      && (DistinctKeys(b) ==> DistinctKeys(r))
  {
    if |m| > 0 {
      ApplyEdgesKeepsKeys(b, m[..|m| - 1]);
      ApplyEdgeKeys(ApplyEdges(b, m[..|m| - 1]), m[|m| - 1]);
    }
  }

  /** `adjustedBalances`: one entry per id, the players' entries first and in
      the order of the net-balance map. */
  function AdjustedBalances(players: seq<Player>, ts: seq<DirectTransfer>): (r: Balances)
    ensures DistinctKeys(r)
    ensures var nb := NetBalances(players);
      |nb| <= |r| && forall j :: 0 <= j < |nb| ==> r[j].key == nb[j].key
  {
    ApplyEdgesKeepsKeys(NetBalances(players), Consolidate(ts));
    ApplyEdges(NetBalances(players), Consolidate(ts))
  }

  /** `.filter { it.value < 0 }.map { it.key to abs(it.value) }`. */
  function Debtors(b: Balances): (r: Balances)
    ensures forall j :: 0 <= j < |r| ==> r[j].value > 0
  {
    if |b| == 0 then []
    else
      var e := b[|b| - 1];
      Debtors(b[..|b| - 1]) + (if e.value < 0 then [Entry(e.key, -e.value)] else [])
  }

  /** `.filter { it.value > 0 }.map { it.key to it.value }`. */
  function Creditors(b: Balances): (r: Balances)
    ensures forall j :: 0 <= j < |r| ==> r[j].value > 0
  {
    if |b| == 0 then []
    else
      var e := b[|b| - 1];
      Creditors(b[..|b| - 1]) + (if e.value > 0 then [e] else [])
  }

  /** The greedy sweep from the current debtor and creditor on: pay the
      smaller of the two amounts, emit a debt when it is positive, and move
      past whichever side reached zero (both, when both did). `k` counts the
      debts emitted so far. */
  function Sweep(debtors: Balances, creditors: Balances, ids: nat -> Id, k: nat): (r: seq<Debt>)
    ensures |r| <= |debtors| + |creditors|
    ensures forall j :: 0 <= j < |r| ==> r[j].amount > 0 && !r[j].settled && r[j].settledAmount == 0
    decreases |debtors| + |creditors|
  {
    if |debtors| == 0 || |creditors| == 0 then []
    else
      var d, c := debtors[0], creditors[0];
      var t := Min(d.value, c.value);
      var emitted := if t > 0 then [NewDebt(ids(k), d.key, c.key, t)] else [];
      emitted + Sweep(Rest(debtors, t), Rest(creditors, t), ids, k + |emitted|)
  }

  /** A list of (id, amount) entries after its first entry paid `t`: the entry
      is dropped once paid off, and otherwise holds what is left. */
  function Rest(s: Balances, t: int): (r: Balances)
    requires |s| > 0
    ensures |r| == (if s[0].value - t == 0 then |s| - 1 else |s|)
  {
    if s[0].value - t == 0 then s[1..] else [Entry(s[0].key, s[0].value - t)] + s[1..]
  }

  /** The debts `generateMinimalDebtsWithTransfers` returns. */
  function MinimalDebts(players: seq<Player>, ts: seq<DirectTransfer>, ids: nat -> Id): (r: seq<Debt>)
    ensures var b := AdjustedBalances(players, ts); |r| <= |Debtors(b)| + |Creditors(b)|
    ensures forall j :: 0 <= j < |r| ==> r[j].amount > 0 && !r[j].settled && r[j].settledAmount == 0
  {
    var b := AdjustedBalances(players, ts);
    Sweep(Debtors(b), Creditors(b), ids, 0)
  }

  /** `generateMinimalDebtsWithTransfers`, its three loops and the sweep. */
  method GenerateMinimalDebtsWithTransfers(players: seq<Player>, transfers: seq<DirectTransfer>, ids: nat -> Id)
    returns (debts: seq<Debt>)
    ensures debts == MinimalDebts(players, transfers, ids)
  {
    var netBalances := CollectNetBalances(players);
    var transferMatrix := ConsolidateTransfers(transfers);
    var adjustedBalances := ApplyTransferMatrix(netBalances, transferMatrix);
    var debtors := Debtors(adjustedBalances);
    var creditors := Creditors(adjustedBalances);
    debts := SweepDebts(debtors, creditors, ids);
  }

  method CollectNetBalances(players: seq<Player>) returns (netBalances: Balances)
    ensures netBalances == NetBalances(players)
  {
    netBalances := [];
    var i := 0;
    while i < |players|
      invariant 0 <= i <= |players|
      invariant netBalances == NetBalances(players[..i])
    {
      assert players[..i + 1][..i] == players[..i];
      netBalances := Put(netBalances, players[i].id, players[i].net);
      i := i + 1;
    }
    assert players[..|players|] == players;
  }

  method ConsolidateTransfers(transfers: seq<DirectTransfer>) returns (transferMatrix: Matrix)
    ensures transferMatrix == Consolidate(transfers)
  {
    transferMatrix := [];
    var i := 0;
    while i < |transfers|
      invariant 0 <= i <= |transfers|
      invariant transferMatrix == Consolidate(transfers[..i])
    {
      ConsolidatePrefix(transfers, i);
      transferMatrix := ConsolidateOne(transferMatrix, transfers[i]);
      i := i + 1;
    }
    assert transfers[..|transfers|] == transfers;
  }

  /** The body of the consolidation loop, on the matrix built so far. */
  method ConsolidateOne(m: Matrix, transfer: DirectTransfer) returns (transferMatrix: Matrix)
    ensures transferMatrix == ConsolidateStep(m, transfer)
  {
    transferMatrix := m;
    var key := (transfer.fromPlayerId, transfer.toPlayerId);
    var reverseKey := (transfer.toPlayerId, transfer.fromPlayerId);
    if HasKey(transferMatrix, reverseKey) {
      var existing := GetOrZero(transferMatrix, reverseKey);
      if transfer.amount >= existing {
        transferMatrix := Remove(transferMatrix, reverseKey);
        if transfer.amount > existing {
          transferMatrix := Put(transferMatrix, key, transfer.amount - existing);
        }
      } else {
        transferMatrix := Put(transferMatrix, reverseKey, existing - transfer.amount);
      }
    } else {
      transferMatrix := Put(transferMatrix, key, GetOrZero(transferMatrix, key) + transfer.amount);
    }
  }

  method ApplyTransferMatrix(netBalances: Balances, transferMatrix: Matrix) returns (adjustedBalances: Balances)
    ensures adjustedBalances == ApplyEdges(netBalances, transferMatrix)
  {
    adjustedBalances := netBalances;
    var i := 0;
    while i < |transferMatrix|
      invariant 0 <= i <= |transferMatrix|
      invariant adjustedBalances == ApplyEdges(netBalances, transferMatrix[..i])
    {
      assert transferMatrix[..i + 1][..i] == transferMatrix[..i];
      var from, to, amount := transferMatrix[i].key.0, transferMatrix[i].key.1, transferMatrix[i].value;
      adjustedBalances := Put(adjustedBalances, from, GetOrZero(adjustedBalances, from) + amount);
      adjustedBalances := Put(adjustedBalances, to, GetOrZero(adjustedBalances, to) - amount);
      i := i + 1;
    }
    assert transferMatrix[..|transferMatrix|] == transferMatrix;
  }

  /** The two-pointer loop; `debtors` and `creditors` are overwritten in place
      as amounts are paid off. The ghost lists `rest` and `restCreditors` are
      the parts the cursors have not passed yet. */
  method SweepDebts(debtors0: Balances, creditors0: Balances, ids: nat -> Id) returns (debts: seq<Debt>)
    ensures debts == Sweep(debtors0, creditors0, ids, 0)
  {
    var debtors, creditors := debtors0, creditors0;
    debts := [];
    var debtorIndex, creditorIndex := 0, 0;
    ghost var rest, restCreditors := debtors0, creditors0;
    assert debtors0[0..] == debtors0 && creditors0[0..] == creditors0;
    while debtorIndex < |debtors| && creditorIndex < |creditors|
      invariant |debtors| == |debtors0| && |creditors| == |creditors0|
      invariant 0 <= debtorIndex <= |debtors| && 0 <= creditorIndex <= |creditors|
      invariant rest == debtors[debtorIndex..] && restCreditors == creditors[creditorIndex..]
      invariant debts + Sweep(rest, restCreditors, ids, |debts|) == Sweep(debtors0, creditors0, ids, 0)
      decreases |debtors| - debtorIndex + |creditors| - creditorIndex
    {
      var debtorId, debtorOwes := debtors[debtorIndex].key, debtors[debtorIndex].value;
      var creditorId, creditorOwed := creditors[creditorIndex].key, creditors[creditorIndex].value;
      var transferAmount := Min(debtorOwes, creditorOwed);
      var newDebtorOwes := debtorOwes - transferAmount;
      var newCreditorOwed := creditorOwed - transferAmount;
      ghost var before, debtors1, creditors1, di, ci := debts, debtors, creditors, debtorIndex, creditorIndex;
      var emitted := if transferAmount > 0 then [NewDebt(ids(|debts|), debtorId, creditorId, transferAmount)] else [];
      debts := debts + emitted;
      debtors := debtors[debtorIndex := Entry(debtorId, newDebtorOwes)];
      creditors := creditors[creditorIndex := Entry(creditorId, newCreditorOwed)];
      debtorIndex := if newDebtorOwes == 0 then debtorIndex + 1 else debtorIndex;
      creditorIndex := if newCreditorOwed == 0 then creditorIndex + 1 else creditorIndex;
      AdvanceCursor(debtors1, di, transferAmount, rest, debtors, debtorIndex);
      AdvanceCursor(creditors1, ci, transferAmount, restCreditors, creditors, creditorIndex);
      SweepStep(before, rest, restCreditors, ids, transferAmount, emitted);
      rest, restCreditors := Rest(rest, transferAmount), Rest(restCreditors, transferAmount);
    }
    assert rest == [] || restCreditors == [];
  }

  /** Paying `t` off the entry under a cursor and moving the cursor past it
      once it reaches 0 leaves, from the cursor on, the list `Rest` leaves. */
  lemma AdvanceCursor(s: Balances, i: nat, t: int, rest: Balances, s': Balances, i': nat)
    requires i < |s| && rest == s[i..]
    requires s' == s[i := Entry(s[i].key, s[i].value - t)]
    requires i' == if s[i].value - t == 0 then i + 1 else i
    ensures i' <= |s'| && |s'| == |s| && s'[i'..] == Rest(rest, t)
  {
    SliceAfterUpdate(s, i, Entry(s[i].key, s[i].value - t));
    assert rest[1..] == s[i + 1..];
    assert rest[0] == s[i];
  }

  lemma ConsolidatePrefix(ts: seq<DirectTransfer>, i: nat)
    requires i < |ts|
    ensures Consolidate(ts[..i + 1]) == ConsolidateStep(Consolidate(ts[..i]), ts[i])
  {
    assert ts[..i + 1][..i] == ts[..i];
  }

  lemma Associative<T>(a: seq<T>, b: seq<T>, c: seq<T>)
    ensures a + (b + c) == (a + b) + c
  {
  }

  lemma SliceAfterUpdate<T>(s: seq<T>, i: nat, e: T)
    requires i < |s|
    ensures s[i := e][i..] == [e] + s[i + 1..]
    ensures s[i := e][i + 1..] == s[i + 1..]
  {
  }

  /** One step of the sweep, with the values of the step named, appended to
      the debts `done` emitted before it. */
  lemma SweepStep(done: seq<Debt>, debtors: Balances, creditors: Balances, ids: nat -> Id, t: int, emitted: seq<Debt>)
    requires |debtors| > 0 && |creditors| > 0
    requires t == Min(debtors[0].value, creditors[0].value)
    requires emitted == (if t > 0 then [NewDebt(ids(|done|), debtors[0].key, creditors[0].key, t)] else [])
    ensures done + Sweep(debtors, creditors, ids, |done|)
      == (done + emitted) + Sweep(Rest(debtors, t), Rest(creditors, t), ids, |done + emitted|)
  {
    SweepUnfold(debtors, creditors, ids, |done|, t, emitted);
    var k' := |done + emitted|;
    assert k' == |done| + |emitted|;
    var later := Sweep(Rest(debtors, t), Rest(creditors, t), ids, k');
    Associative(done, emitted, later);
  }

  lemma SweepUnfold(debtors: Balances, creditors: Balances, ids: nat -> Id, k: nat, t: int, emitted: seq<Debt>)
    requires |debtors| > 0 && |creditors| > 0
    requires t == Min(debtors[0].value, creditors[0].value)
    requires emitted == (if t > 0 then [NewDebt(ids(k), debtors[0].key, creditors[0].key, t)] else [])
    ensures Sweep(debtors, creditors, ids, k) == emitted + Sweep(Rest(debtors, t), Rest(creditors, t), ids, k + |emitted|)
  {
  }
}
