/** What `generateMinimalDebtsWithTransfers` achieves as a whole: once the
    debts it returns are paid, every player (and every id that only appears in
    a transfer) has paid in exactly what the balanced nets and the transfers
    already made leave open. */
module DebtFacts {
  import opened Models
  import opened Seqs
  import opened AssocList
  import opened Balancer
  import opened DebtMinimizer
  import opened TransferFacts
  import opened SweepFacts

  /** A player list as a balance map under distinct ids. */
  function PlayerEntries(ps: seq<Player>): (r: Balances)
    ensures |r| == |ps| && forall i :: 0 <= i < |ps| ==> r[i] == Entry(ps[i].id, ps[i].net)
  {
    seq(|ps|, i requires 0 <= i < |ps| => Entry(ps[i].id, ps[i].net))
  }

  // ---------------------------------------------------------------------------
  // The players' balances

  lemma {:induction false} NetBalancesDistinct(players: seq<Player>)
    ensures DistinctKeys(NetBalances(players))
  {
    if |players| > 0 {
      var p := players[|players| - 1];
      NetBalancesDistinct(players[..|players| - 1]);
      PutKeepsDistinct(NetBalances(players[..|players| - 1]), p.id, p.net);
    }
  }

  /** With distinct ids, `netBalances` lists every player once, in order. */
  lemma {:induction false} NetBalancesOfDistinct(players: seq<Player>)
    requires DistinctPlayerIds(players)
    ensures NetBalances(players) == PlayerEntries(players)
  {
    if |players| > 0 {
      var init, p := players[..|players| - 1], players[|players| - 1];
      NetBalancesOfDistinct(init);
      var e := PlayerEntries(init);
      forall j | 0 <= j < |e| ensures e[j].key != p.id {
        assert init[j] == players[j];
      }
      IndexOfIs(e, p.id, |e|);
      assert e + [Entry(p.id, p.net)] == PlayerEntries(players);
    }
  }

  /** Each player's balance is its net, and its nets add up to the players' total. */
  lemma NetBalancesAt(players: seq<Player>, i: nat)
    requires DistinctPlayerIds(players) && i < |players|
    ensures GetOrZero(NetBalances(players), players[i].id) == players[i].net
  {
    NetBalancesOfDistinct(players);
    IndexOfIs(PlayerEntries(players), players[i].id, i);
  }

  /** An id no player has holds no balance. */
  lemma NetBalancesAbsent(players: seq<Player>, id: Id)
    requires DistinctPlayerIds(players) && id !in PlayerIds(players)
    ensures GetOrZero(NetBalances(players), id) == 0
  {
    NetBalancesOfDistinct(players);
    forall j | 0 <= j < |players| ensures PlayerEntries(players)[j].key != id {
      assert PlayerIds(players)[j] == players[j].id;
    }
    IndexOfIs(PlayerEntries(players), id, |players|);
  }

  lemma NetBalancesTotal(players: seq<Player>)
    requires DistinctPlayerIds(players)
    ensures Sum(Values(NetBalances(players))) == Sum(Nets(players))
  {
    NetBalancesOfDistinct(players);
    assert Values(PlayerEntries(players)) == Nets(players);
  }

  // ---------------------------------------------------------------------------
  // The adjusted balances

  /** Each adjusted balance is the player's balance plus what it paid minus
      what it received in direct transfers. */
  lemma AdjustedBalanceAt(players: seq<Player>, ts: seq<DirectTransfer>, id: Id)
    requires ValidTransfers(ts)
    ensures GetOrZero(AdjustedBalances(players, ts), id) == GetOrZero(NetBalances(players), id) + TransferNet(ts, id)
  {
    ApplyEdgesAt(NetBalances(players), Consolidate(ts), id);
    ConsolidateNet(ts, id);
  }

  /** Transfers move money between players: the total is unchanged. */
  lemma AdjustedBalancesFacts(players: seq<Player>, ts: seq<DirectTransfer>)
    ensures DistinctKeys(AdjustedBalances(players, ts))
    ensures Sum(Values(AdjustedBalances(players, ts))) == Sum(Values(NetBalances(players)))
  {
    NetBalancesDistinct(players);
    ApplyEdgesKeys(NetBalances(players), Consolidate(ts));
    ApplyEdgesTotal(NetBalances(players), Consolidate(ts));
  }

  // ---------------------------------------------------------------------------
  // The debts

  lemma {:induction false} SidesCount(b: Balances)
    ensures |Debtors(b)| + |Creditors(b)| <= |b|
  {
    if |b| > 0 {
      SidesCount(b[..|b| - 1]);
    }
  }

  /** Every debt is a fresh unsettled debt of a positive amount from an id
      whose adjusted balance is negative to one whose adjusted balance is
      positive (so never from a player to itself), and the j-th takes `ids(j)`. */
  lemma MinimalDebtsShape(players: seq<Player>, ts: seq<DirectTransfer>, ids: nat -> Id)
    ensures var b, r := AdjustedBalances(players, ts), MinimalDebts(players, ts, ids);
      forall j :: 0 <= j < |r| ==>
        r[j].amount > 0 && !r[j].settled && r[j].settledAmount == 0 && r[j].id == ids(j) &&
        GetOrZero(b, r[j].fromPlayerId) < 0 && GetOrZero(b, r[j].toPlayerId) > 0 &&
        r[j].fromPlayerId != r[j].toPlayerId
  {
    AdjustedBalancesFacts(players, ts);
    SweepOfBalances(AdjustedBalances(players, ts), ids);
  }

  lemma SweepOfBalances(b: Balances, ids: nat -> Id)
    requires DistinctKeys(b)
    ensures var r := Sweep(Debtors(b), Creditors(b), ids, 0);
      forall j :: 0 <= j < |r| ==>
        r[j].amount > 0 && !r[j].settled && r[j].settledAmount == 0 && r[j].id == ids(j) &&
        GetOrZero(b, r[j].fromPlayerId) < 0 && GetOrZero(b, r[j].toPlayerId) > 0
  {
    forall j | 0 <= j < |Sweep(Debtors(b), Creditors(b), ids, 0)|
      ensures var r := Sweep(Debtors(b), Creditors(b), ids, 0);
        r[j].amount > 0 && !r[j].settled && r[j].settledAmount == 0 && r[j].id == ids(j) &&
        GetOrZero(b, r[j].fromPlayerId) < 0 && GetOrZero(b, r[j].toPlayerId) > 0
    {
      SweepDebtOfBalances(b, ids, j);
    }
  }

  lemma SweepDebtOfBalances(b: Balances, ids: nat -> Id, j: nat)
    requires DistinctKeys(b) && j < |Sweep(Debtors(b), Creditors(b), ids, 0)|
    ensures var r := Sweep(Debtors(b), Creditors(b), ids, 0);
      r[j].amount > 0 && !r[j].settled && r[j].settledAmount == 0 && r[j].id == ids(j) &&
      GetOrZero(b, r[j].fromPlayerId) < 0 && GetOrZero(b, r[j].toPlayerId) > 0
  {
    SweepDebtFresh(Debtors(b), Creditors(b), ids, j);
    SweepDebtSides(b, ids, j);
  }

  lemma SweepDebtFresh(debtors: Balances, creditors: Balances, ids: nat -> Id, j: nat)
    requires j < |Sweep(debtors, creditors, ids, 0)|
    ensures FreshDebt(Sweep(debtors, creditors, ids, 0)[j], ids(j))
  {
    SweepShape(debtors, creditors, ids, 0);
    AllFreshFromZero(Sweep(debtors, creditors, ids, 0), ids, j);
  }

  lemma AllFreshFromZero(r: seq<Debt>, ids: nat -> Id, j: nat)
    requires AllFresh(r, ids, 0) && j < |r|
    ensures FreshDebt(r[j], ids(j))
  {
    AllFreshAt(r, ids, 0, j);
    assert 0 + j == j;
  }

  lemma SweepDebtSides(b: Balances, ids: nat -> Id, j: nat)
    requires DistinctKeys(b) && j < |Sweep(Debtors(b), Creditors(b), ids, 0)|
    ensures var r := Sweep(Debtors(b), Creditors(b), ids, 0);
      GetOrZero(b, r[j].fromPlayerId) < 0 && GetOrZero(b, r[j].toPlayerId) > 0
  {
    var r := Sweep(Debtors(b), Creditors(b), ids, 0);
    SweepParties(Debtors(b), Creditors(b), ids, 0);
    AllBetweenAt(r, Keys(Debtors(b)), Keys(Creditors(b)), j);
    SideSign(b, r[j].fromPlayerId, r[j].toPlayerId);
  }

  /** A debtor's balance is negative and a creditor's positive. */
  lemma SideSign(b: Balances, from: Id, to: Id)
    requires DistinctKeys(b) && from in Keys(Debtors(b)) && to in Keys(Creditors(b))
    ensures GetOrZero(b, from) < 0 && GetOrZero(b, to) > 0
  {
    OwedByMember(Debtors(b), from);
    DebtorsAt(b, from);
    OwedByMember(Creditors(b), to);
    CreditorsAt(b, to);
  }

  /** There is at most one debt fewer than ids with a nonzero adjusted balance. */
  lemma MinimalDebtsCount(players: seq<Player>, ts: seq<DirectTransfer>, ids: nat -> Id)
    ensures var b, r := AdjustedBalances(players, ts), MinimalDebts(players, ts, ids);
      var n := |Debtors(b)| + |Creditors(b)|;
      n <= |b| && |r| <= (if n == 0 then 0 else n - 1)
  {
    var b := AdjustedBalances(players, ts);
    var d, c := Debtors(b), Creditors(b);
    SidesCount(b);
    if |d| + |c| > 0 {
      SweepCount(d, c, ids, 0);
    }
  }

  /** The debts total what the debtors owe or what the creditors are owed,
      whichever is less; when the balances sum to zero the two agree. */
  lemma MinimalDebtsTotal(players: seq<Player>, ts: seq<DirectTransfer>, ids: nat -> Id)
    ensures var b := AdjustedBalances(players, ts);
      Paid(MinimalDebts(players, ts, ids)) == Min(Owed(Debtors(b)), Owed(Creditors(b)))
    ensures Sum(Values(NetBalances(players))) == 0 ==>
      var b := AdjustedBalances(players, ts);
      Owed(Debtors(b)) == Owed(Creditors(b)) == Paid(MinimalDebts(players, ts, ids))
  {
    var b := AdjustedBalances(players, ts);
    SweepTotal(Debtors(b), Creditors(b), ids, 0);
    AdjustedBalancesFacts(players, ts);
    DebtorsAndCreditorsTotal(b);
  }

  /** The main property: when the nets are balanced, paying the debts leaves
      every id square. What an id's balance says it is owed, plus what it
      paid in transfers and will pay in debts, minus what it received in
      transfers and will receive in debts, is zero. */
  lemma MinimalDebtsSettle(players: seq<Player>, ts: seq<DirectTransfer>, ids: nat -> Id, id: Id)
    requires DistinctPlayerIds(players) && Sum(Nets(players)) == 0 && ValidTransfers(ts)
    ensures var r := MinimalDebts(players, ts, ids);
      GetOrZero(NetBalances(players), id) + TransferNet(ts, id) + SentBy(r, id) - ReceivedBy(r, id) == 0
  {
    var b := AdjustedBalances(players, ts);
    NetBalancesTotal(players);
    AdjustedBalancesFacts(players, ts);
    AdjustedBalanceAt(players, ts, id);
    DebtorsAndCreditorsTotal(b);
    SweepSettles(Debtors(b), Creditors(b), ids, 0, id);
    DebtorsAt(b, id);
    CreditorsAt(b, id);
  }

  /** The same, player by player. */
  lemma MinimalDebtsSettlePlayer(players: seq<Player>, ts: seq<DirectTransfer>, ids: nat -> Id, i: nat)
    requires DistinctPlayerIds(players) && Sum(Nets(players)) == 0 && ValidTransfers(ts)
    requires i < |players|
    ensures var r, id := MinimalDebts(players, ts, ids), players[i].id;
      players[i].net + TransferNet(ts, id) + SentBy(r, id) - ReceivedBy(r, id) == 0
  {
    MinimalDebtsSettle(players, ts, ids, players[i].id);
    NetBalancesAt(players, i);
  }

  // ---------------------------------------------------------------------------
  // Examples

  /** The adjusted balances when no transfer was made and the ids are distinct. */
  lemma NoTransfers(players: seq<Player>)
    requires DistinctPlayerIds(players)
    ensures AdjustedBalances(players, []) == PlayerEntries(players)
  {
    NetBalancesOfDistinct(players);
    var none: seq<DirectTransfer> := [];
    assert Consolidate(none) == [];
  }

  /** Alice up 100_00 and Bob down 100_00: one debt, Bob to Alice, of 100_00. */
  lemma OneDebtorOneCreditor(ids: nat -> Id)
    ensures var players := [Player("1", "Alice", 0, 0, 100_00, None), Player("2", "Bob", 0, 0, -100_00, None)];
      MinimalDebts(players, [], ids) == [NewDebt(ids(0), "2", "1", 100_00)]
  {
    var players := [Player("1", "Alice", 0, 0, 100_00, None), Player("2", "Bob", 0, 0, -100_00, None)];
    NoTransfers(players);
    var b := [Entry("1", 100_00), Entry("2", -100_00)];
    assert PlayerEntries(players) == b;
    SidesOfTwo(Entry("1", 100_00), Entry("2", -100_00));
    SweepOneToOne("2", "1", 100_00, ids);
  }

  lemma SidesOfTwo(e1: Entry<Id>, e2: Entry<Id>)
    requires e1.value > 0 && e2.value < 0
    ensures Debtors([e1, e2]) == [Entry(e2.key, -e2.value)] && Creditors([e1, e2]) == [e1]
  {
    var none: Balances := [];
    assert [e1, e2][..1] == [e1] && [e1][..0] == none;
    assert Debtors(none) == [] && Creditors(none) == [];
    assert Debtors([e1]) == [] && Creditors([e1]) == [e1];
  }

  lemma SweepOneToOne(from: Id, to: Id, amount: int, ids: nat -> Id)
    requires amount > 0
    ensures Sweep([Entry(from, amount)], [Entry(to, amount)], ids, 0) == [NewDebt(ids(0), from, to, amount)]
  {
    var none: Balances := [];
    assert Sweep(none, none, ids, 1) == [];
  }

  lemma {:induction false} SidesAppend(x: Balances, y: Balances)
    ensures Debtors(x + y) == Debtors(x) + Debtors(y)
    ensures Creditors(x + y) == Creditors(x) + Creditors(y)
  {
    if |y| == 0 {
      assert x + y == x;
    } else {
      var init, e := y[..|y| - 1], y[|y| - 1];
      var ds: Balances := if e.value < 0 then [Entry(e.key, -e.value)] else [];
      var cs: Balances := if e.value > 0 then [e] else [];
      assert (x + y)[..|x + y| - 1] == x + init;
      assert (x + y)[|x + y| - 1] == e;
      SidesAppend(x, init);
      assert Debtors(x + y) == (Debtors(x) + Debtors(init)) + ds;
      assert Creditors(x + y) == (Creditors(x) + Creditors(init)) + cs;
      Associative(Debtors(x), Debtors(init), ds);
      Associative(Creditors(x), Creditors(init), cs);
    }
  }

  /** Balances that are all negative are all debtors. */
  lemma {:induction false} AllNegative(b: Balances)
    requires forall j :: 0 <= j < |b| ==> b[j].value < 0
    ensures Creditors(b) == []
    ensures |Debtors(b)| == |b| && forall j :: 0 <= j < |b| ==> Debtors(b)[j] == Entry(b[j].key, -b[j].value)
  {
    if |b| > 0 {
      AllNegative(b[..|b| - 1]);
    }
  }

  /** Balances that are all zero give neither debtors nor creditors. */
  lemma {:induction false} AllZero(b: Balances)
    requires forall j :: 0 <= j < |b| ==> b[j].value == 0
    ensures Debtors(b) == [] && Creditors(b) == []
  {
    if |b| > 0 {
      AllZero(b[..|b| - 1]);
    }
  }

  /** Each debtor in turn paying `to` their whole amount. */
  function PayAll(debtors: Balances, to: Id, ids: nat -> Id, k: nat): (r: seq<Debt>)
    ensures |r| == |debtors|
    ensures forall j :: 0 <= j < |r| ==> r[j].toPlayerId == to && r[j].amount == debtors[j].value
  {
    if |debtors| == 0 then []
    else [NewDebt(ids(k), debtors[0].key, to, debtors[0].value)] + PayAll(debtors[1..], to, ids, k + 1)
  }

  /** Debtors who together owe exactly what a single creditor is owed each pay
      that creditor their whole amount, in order. */
  lemma {:induction false} SweepManyToOne(debtors: Balances, to: Id, ids: nat -> Id, k: nat)
    requires forall j :: 0 <= j < |debtors| ==> debtors[j].value > 0
    requires |debtors| > 0
    ensures Sweep(debtors, [Entry(to, Owed(debtors))], ids, k) == PayAll(debtors, to, ids, k)
  {
    var d := debtors[0];
    var rest := debtors[1..];
    var creditors := [Entry(to, Owed(debtors))];
    OwedByBounds(rest, to);
    assert Min(d.value, Owed(debtors)) == d.value;
    assert Rest(debtors, d.value) == rest;
    if |rest| == 0 {
      assert Rest(creditors, d.value) == [];
    } else {
      SumOfPositives(rest);
      assert Rest(creditors, d.value) == [Entry(to, Owed(rest))];
      SweepManyToOne(rest, to, ids, k + 1);
    }
  }

  lemma {:induction false} SumOfPositives(s: Balances)
    requires |s| > 0 && forall j :: 0 <= j < |s| ==> s[j].value > 0
    ensures Owed(s) > 0
  {
    OwedByBounds(s[1..], "");
  }

  /** Alice up 300_00 against Bob, Charlie and Dave down 100_00 each. */
  function OneWinnerThreeLosers(): seq<Player> {
    [Player("1", "Alice", 0, 0, 300_00, None), Player("2", "Bob", 0, 0, -100_00, None),
     Player("3", "Charlie", 0, 0, -100_00, None), Player("4", "Dave", 0, 0, -100_00, None)]
  }

  /** Three debts, each of 100_00 and each to Alice. */
  lemma AllLosersPayOneWinner(ids: nat -> Id)
    ensures var r := MinimalDebts(OneWinnerThreeLosers(), [], ids);
      |r| == 3 && forall j :: 0 <= j < 3 ==> r[j].toPlayerId == "1" && r[j].amount == 100_00
  {
    ThreeLosersSweep(ids);
  }

  lemma ThreeLosersSweep(ids: nat -> Id)
    ensures MinimalDebts(OneWinnerThreeLosers(), [], ids)
      == PayAll([Entry("2", 100_00), Entry("3", 100_00), Entry("4", 100_00)], "1", ids, 0)
  {
    var debtors := [Entry("2", 100_00), Entry("3", 100_00), Entry("4", 100_00)];
    ThreeLosersSides();
    ThreeLosersOwe(debtors);
    SweepManyToOne(debtors, "1", ids, 0);
  }

  lemma ThreeLosersOwe(debtors: Balances)
    requires debtors == [Entry("2", 100_00), Entry("3", 100_00), Entry("4", 100_00)]
    ensures Owed(debtors) == 300_00
  {
    assert debtors[1..][1..][1..] == [];
    assert Owed(debtors[1..][1..]) == 100_00;
    assert Owed(debtors[1..]) == 200_00;
  }

  lemma ThreeLosersSides()
    ensures var b := AdjustedBalances(OneWinnerThreeLosers(), []);
      Debtors(b) == [Entry("2", 100_00), Entry("3", 100_00), Entry("4", 100_00)] &&
      Creditors(b) == [Entry("1", 300_00)]
  {
    var players := OneWinnerThreeLosers();
    NoTransfers(players);
    var winner := Entry("1", 300_00);
    var losers := [Entry("2", -100_00), Entry("3", -100_00), Entry("4", -100_00)];
    assert PlayerEntries(players) == [winner] + losers;
    WinnerAgainstLosers(winner, losers);
  }

  lemma WinnerAgainstLosers(winner: Entry<Id>, losers: Balances)
    requires winner.value > 0
    requires forall j :: 0 <= j < |losers| ==> losers[j].value < 0
    ensures Creditors([winner] + losers) == [winner]
    ensures |Debtors([winner] + losers)| == |losers|
    ensures forall j :: 0 <= j < |losers| ==> Debtors([winner] + losers)[j] == Entry(losers[j].key, -losers[j].value)
  {
    SidesAppend([winner], losers);
    SidesOfOne(winner);
    AllNegative(losers);
  }

  lemma SidesOfOne(winner: Entry<Id>)
    requires winner.value > 0
    ensures Debtors([winner]) == [] && Creditors([winner]) == [winner]
  {
    var none: Balances := [];
    assert [winner][..0] == none;
  }

  /** Nobody up or down: no debts. */
  lemma NobodyOwes(players: seq<Player>, ids: nat -> Id)
    requires DistinctPlayerIds(players)
    requires forall i :: 0 <= i < |players| ==> players[i].net == 0
    ensures MinimalDebts(players, [], ids) == []
  {
    NoTransfers(players);
    AllZero(PlayerEntries(players));
  }
}
