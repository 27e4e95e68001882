/** What the greedy two-pointer sweep of `generateMinimalDebtsWithTransfers`
    emits: positive debts from a debtor to a creditor, at most one fewer than
    the two lists together, totalling the smaller side, and, when the two
    sides balance, exactly what each debtor owes and each creditor is owed. */
module SweepFacts {
  import opened Models
  import opened Seqs
  import opened AssocList
  import opened DebtMinimizer

  /** The total still owed over a list of (id, amount) entries. */
  function Owed(s: Balances): int {
    if |s| == 0 then 0 else s[0].value + Owed(s[1..])
  }

  /** The part of it belonging to `id`. */
  function OwedBy(s: Balances, id: Id): int {
    if |s| == 0 then 0 else (if s[0].key == id then s[0].value else 0) + OwedBy(s[1..], id)
  }

  /** The total amount of a list of debts. */
  function Paid(ds: seq<Debt>): int {
    if |ds| == 0 then 0 else ds[0].amount + Paid(ds[1..])
  }

  /** What `id` pays over a list of debts. */
  function SentBy(ds: seq<Debt>, id: Id): int {
    if |ds| == 0 then 0 else (if ds[0].fromPlayerId == id then ds[0].amount else 0) + SentBy(ds[1..], id)
  }

  /** What `id` receives over a list of debts. */
  function ReceivedBy(ds: seq<Debt>, id: Id): int {
    if |ds| == 0 then 0 else (if ds[0].toPlayerId == id then ds[0].amount else 0) + ReceivedBy(ds[1..], id)
  }

  ghost predicate NonNegative(s: Balances) {
    forall j :: 0 <= j < |s| ==> s[j].value >= 0
  }

  // ---------------------------------------------------------------------------
  // The algebra of the front-recursive sums

  lemma {:induction false} OwedAppend(a: Balances, b: Balances)
    ensures Owed(a + b) == Owed(a) + Owed(b)
  {
    if |a| > 0 {
      assert (a + b)[1..] == a[1..] + b;
      OwedAppend(a[1..], b);
    } else {
      assert a + b == b;
    }
  }

  lemma {:induction false} OwedByAppend(a: Balances, b: Balances, id: Id)
    ensures OwedBy(a + b, id) == OwedBy(a, id) + OwedBy(b, id)
  {
    if |a| > 0 {
      assert (a + b)[1..] == a[1..] + b;
      OwedByAppend(a[1..], b, id);
    } else {
      assert a + b == b;
    }
  }

  lemma {:induction false} PaidAppend(a: seq<Debt>, b: seq<Debt>)
    ensures Paid(a + b) == Paid(a) + Paid(b)
  {
    if |a| > 0 {
      assert (a + b)[1..] == a[1..] + b;
      PaidAppend(a[1..], b);
    } else {
      assert a + b == b;
    }
  }

  lemma {:induction false} SentAndReceivedAppend(a: seq<Debt>, b: seq<Debt>, id: Id)
    ensures SentBy(a + b, id) == SentBy(a, id) + SentBy(b, id)
    ensures ReceivedBy(a + b, id) == ReceivedBy(a, id) + ReceivedBy(b, id)
  {
    if |a| > 0 {
      assert (a + b)[1..] == a[1..] + b;
      SentAndReceivedAppend(a[1..], b, id);
    } else {
      assert a + b == b;
    }
  }

  /** With no negative amount, each id's part lies between 0 and the total. */
  lemma {:induction false} OwedByBounds(s: Balances, id: Id)
    requires NonNegative(s)
    ensures 0 <= OwedBy(s, id) <= Owed(s)
  {
    if |s| > 0 {
      OwedByBounds(s[1..], id);
    }
  }

  /** With positive amounts, every id of the list has a positive part. */
  lemma {:induction false} OwedByMember(s: Balances, id: Id)
    requires forall j :: 0 <= j < |s| ==> s[j].value > 0
    requires id in Keys(s)
    ensures OwedBy(s, id) > 0
  {
    OwedByBounds(s[1..], id);
    if s[0].key != id {
      assert Keys(s) == [s[0].key] + Keys(s[1..]);
      OwedByMember(s[1..], id);
    }
  }

  // ---------------------------------------------------------------------------
  // The sweep

  /** A step takes `t` off the first entry: off the total, and off the part of
      that entry's id. */
  lemma RestOwed(s: Balances, t: int, id: Id)
    requires |s| > 0
    ensures Owed(Rest(s, t)) == Owed(s) - t
    ensures OwedBy(Rest(s, t), id) == OwedBy(s, id) - (if s[0].key == id then t else 0)
  {
    var r := Rest(s, t);
    if s[0].value - t != 0 {
      assert r[1..] == s[1..];
    }
  }

  /** A step introduces no new id. */
  lemma RestKeys(s: Balances, t: int, x: Id)
    requires |s| > 0 && x in Keys(Rest(s, t))
    ensures x in Keys(s)
  {
    var r := Rest(s, t);
    var i :| 0 <= i < |r| && Keys(r)[i] == x;
    if s[0].value - t == 0 {
      assert r[i] == s[i + 1];
      assert Keys(s)[i + 1] == x;
    } else if i > 0 {
      assert r[i] == s[i];
      assert Keys(s)[i] == x;
    } else {
      assert Keys(s)[0] == x;
    }
  }

  lemma RestNonNegative(s: Balances, t: int)
    requires |s| > 0 && NonNegative(s) && t <= s[0].value
    ensures NonNegative(Rest(s, t))
  {
    var r := Rest(s, t);
    if s[0].value - t != 0 {
      assert r[1..] == s[1..];
      forall j | 0 <= j < |r| ensures r[j].value >= 0 {
        if j > 0 {
          assert r[j] == s[j];
        }
      }
    }
  }

  /** What the debt of one step sends and receives. */
  lemma EmittedFlow(debtors: Balances, creditors: Balances, ids: nat -> Id, k: nat, id: Id)
    requires |debtors| > 0 && |creditors| > 0
    requires debtors[0].value >= 0 && creditors[0].value >= 0
    ensures var t := Min(debtors[0].value, creditors[0].value);
      var emitted := if t > 0 then [NewDebt(ids(k), debtors[0].key, creditors[0].key, t)] else [];
      SentBy(emitted, id) == (if debtors[0].key == id then t else 0)
      && ReceivedBy(emitted, id) == (if creditors[0].key == id then t else 0)
  {
    var t := Min(debtors[0].value, creditors[0].value);
    if t > 0 {
      var emitted := [NewDebt(ids(k), debtors[0].key, creditors[0].key, t)];
      assert emitted[1..] == [];
    }
  }

  /** A debt as the sweep creates it: unsettled, of a positive amount, with
      the given id. */
  ghost predicate FreshDebt(x: Debt, id: Id) {
    x.amount > 0 && !x.settled && x.settledAmount == 0 && x.id == id
  }

  /** The debts of `r` are fresh, the i-th with id `ids(k + i)`. */
  ghost predicate AllFresh(r: seq<Debt>, ids: nat -> Id, k: nat)
    decreases |r|
  {
    |r| == 0 || (FreshDebt(r[0], ids(k)) && AllFresh(r[1..], ids, k + 1))
  }

  lemma {:induction false} AllFreshAppend(a: seq<Debt>, b: seq<Debt>, ids: nat -> Id, k: nat)
    requires AllFresh(a, ids, k) && AllFresh(b, ids, k + |a|)
    ensures AllFresh(a + b, ids, k)
    decreases |a|
  {
    if |a| > 0 {
      assert (a + b)[1..] == a[1..] + b;
      AllFreshAppend(a[1..], b, ids, k + 1);
    } else {
      assert a + b == b;
    }
  }

  lemma {:induction false} AllFreshAt(r: seq<Debt>, ids: nat -> Id, k: nat, j: nat)
    requires AllFresh(r, ids, k) && j < |r|
    ensures FreshDebt(r[j], ids(k + j))
    decreases j
  {
    if j > 0 {
      AllFreshAt(r[1..], ids, k + 1, j - 1);
    }
  }

  /** Every emitted debt is a fresh unsettled debt of a positive amount, and
      the i-th takes id `ids(k + i)`. */
  lemma {:induction false} SweepShape(debtors: Balances, creditors: Balances, ids: nat -> Id, k: nat)
    ensures AllFresh(Sweep(debtors, creditors, ids, k), ids, k)
    decreases |debtors| + |creditors|
  {
    if |debtors| > 0 && |creditors| > 0 {
      var t := Min(debtors[0].value, creditors[0].value);
      var emitted := if t > 0 then [NewDebt(ids(k), debtors[0].key, creditors[0].key, t)] else [];
      var rest := Sweep(Rest(debtors, t), Rest(creditors, t), ids, k + |emitted|);
      SweepUnfold(debtors, creditors, ids, k, t, emitted);
      SweepShape(Rest(debtors, t), Rest(creditors, t), ids, k + |emitted|);
      assert AllFresh(emitted, ids, k) by {
        if t > 0 {
          assert emitted[1..] == [];
        }
      }
      AllFreshAppend(emitted, rest, ids, k);
    }
  }

  /** Every debt of `r` runs from an id of `ds` to an id of `cs`. */
  ghost predicate AllBetween(r: seq<Debt>, ds: seq<Id>, cs: seq<Id>)
    decreases |r|
  {
    |r| == 0 || (r[0].fromPlayerId in ds && r[0].toPlayerId in cs && AllBetween(r[1..], ds, cs))
  }

  lemma {:induction false} AllBetweenAppend(a: seq<Debt>, b: seq<Debt>, ds: seq<Id>, cs: seq<Id>)
    requires AllBetween(a, ds, cs) && AllBetween(b, ds, cs)
    ensures AllBetween(a + b, ds, cs)
    decreases |a|
  {
    if |a| > 0 {
      assert (a + b)[1..] == a[1..] + b;
      AllBetweenAppend(a[1..], b, ds, cs);
    } else {
      assert a + b == b;
    }
  }

  lemma {:induction false} AllBetweenWeaken(r: seq<Debt>, ds: seq<Id>, cs: seq<Id>, ds': seq<Id>, cs': seq<Id>)
    requires AllBetween(r, ds, cs)
    requires forall x :: x in ds ==> x in ds'
    requires forall x :: x in cs ==> x in cs'
    ensures AllBetween(r, ds', cs')
    decreases |r|
  {
    if |r| > 0 {
      AllBetweenWeaken(r[1..], ds, cs, ds', cs');
    }
  }

  lemma {:induction false} AllBetweenAt(r: seq<Debt>, ds: seq<Id>, cs: seq<Id>, j: nat)
    requires AllBetween(r, ds, cs) && j < |r|
    ensures r[j].fromPlayerId in ds && r[j].toPlayerId in cs
    decreases j
  {
    if j > 0 {
      AllBetweenAt(r[1..], ds, cs, j - 1);
    }
  }

  /** Paying the first entry keeps no key that was not there. */
  lemma RestKeysIncluded(s: Balances, t: int)
    requires |s| > 0
    ensures forall x :: x in Keys(Rest(s, t)) ==> x in Keys(s)
  {
    forall x | x in Keys(Rest(s, t)) ensures x in Keys(s) {
      RestKeys(s, t, x);
    }
  }

  /** The debt of one step runs from the first debtor to the first creditor. */
  lemma EmittedBetween(debtors: Balances, creditors: Balances, ids: nat -> Id, k: nat, t: int)
    requires |debtors| > 0 && |creditors| > 0
    ensures var emitted := if t > 0 then [NewDebt(ids(k), debtors[0].key, creditors[0].key, t)] else [];
      AllBetween(emitted, Keys(debtors), Keys(creditors))
  {
    if t > 0 {
      var emitted := [NewDebt(ids(k), debtors[0].key, creditors[0].key, t)];
      assert debtors[0].key == Keys(debtors)[0] && creditors[0].key == Keys(creditors)[0];
      assert emitted[1..] == [];
    }
  }

  /** Every emitted debt runs from a listed debtor to a listed creditor. */
  lemma {:induction false} SweepParties(debtors: Balances, creditors: Balances, ids: nat -> Id, k: nat)
    ensures AllBetween(Sweep(debtors, creditors, ids, k), Keys(debtors), Keys(creditors))
    decreases |debtors| + |creditors|
  {
    if |debtors| > 0 && |creditors| > 0 {
      var t := Min(debtors[0].value, creditors[0].value);
      var emitted := if t > 0 then [NewDebt(ids(k), debtors[0].key, creditors[0].key, t)] else [];
      var d', c' := Rest(debtors, t), Rest(creditors, t);
      var rest := Sweep(d', c', ids, k + |emitted|);
      SweepUnfold(debtors, creditors, ids, k, t, emitted);
      SweepParties(d', c', ids, k + |emitted|);
      RestKeysIncluded(debtors, t);
      RestKeysIncluded(creditors, t);
      AllBetweenWeaken(rest, Keys(d'), Keys(c'), Keys(debtors), Keys(creditors));
      EmittedBetween(debtors, creditors, ids, k, t);
      AllBetweenAppend(emitted, rest, Keys(debtors), Keys(creditors));
    }
  }

  /** At least one side moves on at every step, so a sweep over `n` entries
      emits at most `n - 1` debts. */
  lemma {:induction false} SweepCount(debtors: Balances, creditors: Balances, ids: nat -> Id, k: nat)
    requires |debtors| + |creditors| > 0
    ensures |Sweep(debtors, creditors, ids, k)| <= |debtors| + |creditors| - 1
    decreases |debtors| + |creditors|
  {
    if |debtors| > 0 && |creditors| > 0 {
      var t := Min(debtors[0].value, creditors[0].value);
      var emitted := if t > 0 then [NewDebt(ids(k), debtors[0].key, creditors[0].key, t)] else [];
      var d', c' := Rest(debtors, t), Rest(creditors, t);
      assert |d'| + |c'| <= |debtors| + |creditors| - 1;
      if |d'| > 0 && |c'| > 0 {
        SweepCount(d', c', ids, k + |emitted|);
      }
    }
  }

  /** The debts total the smaller of the two sides. */
  lemma {:induction false} SweepTotal(debtors: Balances, creditors: Balances, ids: nat -> Id, k: nat)
    requires NonNegative(debtors) && NonNegative(creditors)
    ensures Paid(Sweep(debtors, creditors, ids, k)) == Min(Owed(debtors), Owed(creditors))
    decreases |debtors| + |creditors|
  {
    OwedByBounds(debtors, "");
    OwedByBounds(creditors, "");
    if |debtors| > 0 && |creditors| > 0 {
      var t := Min(debtors[0].value, creditors[0].value);
      var emitted := if t > 0 then [NewDebt(ids(k), debtors[0].key, creditors[0].key, t)] else [];
      var d', c' := Rest(debtors, t), Rest(creditors, t);
      RestNonNegative(debtors, t);
      RestNonNegative(creditors, t);
      RestOwed(debtors, t, "");
      RestOwed(creditors, t, "");
      SweepTotal(d', c', ids, k + |emitted|);
      var rest := Sweep(d', c', ids, k + |emitted|);
      SweepUnfold(debtors, creditors, ids, k, t, emitted);
      PaidAppend(emitted, rest);
      assert Paid(emitted) == (if t > 0 then t else 0) by {
        if t > 0 {
          assert emitted[1..] == [];
        }
      }
    }
  }

  /** When the two sides balance, every debtor pays exactly what it owes and
      every creditor receives exactly what it is owed. */
  lemma {:induction false} SweepSettles(debtors: Balances, creditors: Balances, ids: nat -> Id, k: nat, id: Id)
    requires NonNegative(debtors) && NonNegative(creditors)
    requires Owed(debtors) == Owed(creditors)
    ensures SentBy(Sweep(debtors, creditors, ids, k), id) == OwedBy(debtors, id)
    ensures ReceivedBy(Sweep(debtors, creditors, ids, k), id) == OwedBy(creditors, id)
    decreases |debtors| + |creditors|
  {
    OwedByBounds(debtors, id);
    OwedByBounds(creditors, id);
    if |debtors| > 0 && |creditors| > 0 {
      var t := Min(debtors[0].value, creditors[0].value);
      var e := if t > 0 then 1 else 0;
      SweepFlowStep(debtors, creditors, ids, k, id);
      RestNonNegative(debtors, t);
      RestNonNegative(creditors, t);
      RestOwed(debtors, t, id);
      RestOwed(creditors, t, id);
      SweepSettles(Rest(debtors, t), Rest(creditors, t), ids, k + e, id);
    }
  }

  /** What one step of the sweep adds to what `id` sends and receives. */
  lemma SweepFlowStep(debtors: Balances, creditors: Balances, ids: nat -> Id, k: nat, id: Id)
    requires |debtors| > 0 && |creditors| > 0
    requires debtors[0].value >= 0 && creditors[0].value >= 0
    ensures var t := Min(debtors[0].value, creditors[0].value);
      var rest := Sweep(Rest(debtors, t), Rest(creditors, t), ids, k + (if t > 0 then 1 else 0));
      && SentBy(Sweep(debtors, creditors, ids, k), id) == (if debtors[0].key == id then t else 0) + SentBy(rest, id)
      && ReceivedBy(Sweep(debtors, creditors, ids, k), id) == (if creditors[0].key == id then t else 0) + ReceivedBy(rest, id)
  {
    var t := Min(debtors[0].value, creditors[0].value);
    var emitted := if t > 0 then [NewDebt(ids(k), debtors[0].key, creditors[0].key, t)] else [];
    var rest := Sweep(Rest(debtors, t), Rest(creditors, t), ids, k + |emitted|);
    assert Sweep(debtors, creditors, ids, k) == emitted + rest;
    SentAndReceivedAppend(emitted, rest, id);
    EmittedFlow(debtors, creditors, ids, k, id);
  }

  // ---------------------------------------------------------------------------
  // Debtors and creditors

  lemma {:induction false} DebtorsAndCreditorsTotal(b: Balances)
    ensures Owed(Creditors(b)) - Owed(Debtors(b)) == Sum(Values(b))
  {
    if |b| > 0 {
      var init, e := b[..|b| - 1], b[|b| - 1];
      DebtorsAndCreditorsTotal(init);
      var ds: Balances := if e.value < 0 then [Entry(e.key, -e.value)] else [];
      var cs: Balances := if e.value > 0 then [e] else [];
      OwedAppend(Debtors(init), ds);
      OwedAppend(Creditors(init), cs);
      assert Values(b)[..|b| - 1] == Values(init);
      assert Owed(cs) - Owed(ds) == e.value;
    }
  }

  /** Each id owes what its balance is below zero. */
  lemma {:induction false} DebtorsAt(b: Balances, id: Id)
    requires DistinctKeys(b)
    ensures var balance := GetOrZero(b, id);
      OwedBy(Debtors(b), id) == if balance < 0 then -balance else 0
  {
    if |b| > 0 {
      var init, e := b[..|b| - 1], b[|b| - 1];
      var ds: Balances := if e.value < 0 then [Entry(e.key, -e.value)] else [];
      assert b == init + [e];
      assert Debtors(b) == Debtors(init) + ds;
      DistinctSnoc(init, e);
      DebtorsAt(init, id);
      GetOrZeroSnoc(init, e, id);
      OwedByAppend(Debtors(init), ds, id);
      assert OwedBy(ds, id) == (if e.key == id && e.value < 0 then -e.value else 0);
      if e.key == id {
        HasKeyIffInKeys(init, id);
        DebtorKeys(init);
        OwedByAbsent(Debtors(init), id);
      } else if !HasKey(init, id) {
        assert GetOrZero(init, id) == 0;
      }
    }
  }

  /** Each id is owed what its balance is above zero. */
  lemma {:induction false} CreditorsAt(b: Balances, id: Id)
    requires DistinctKeys(b)
    ensures var balance := GetOrZero(b, id);
      OwedBy(Creditors(b), id) == if balance > 0 then balance else 0
  {
    if |b| > 0 {
      var init, e := b[..|b| - 1], b[|b| - 1];
      var cs: Balances := if e.value > 0 then [e] else [];
      assert b == init + [e];
      assert Creditors(b) == Creditors(init) + cs;
      DistinctSnoc(init, e);
      CreditorsAt(init, id);
      GetOrZeroSnoc(init, e, id);
      OwedByAppend(Creditors(init), cs, id);
      assert OwedBy(cs, id) == (if e.key == id && e.value > 0 then e.value else 0);
      if e.key == id {
        HasKeyIffInKeys(init, id);
        CreditorKeys(init);
        OwedByAbsent(Creditors(init), id);
      } else if !HasKey(init, id) {
        assert GetOrZero(init, id) == 0;
      }
    }
  }

  /** The debtor side lists only ids of the balances. */
  lemma {:induction false} DebtorKeys(b: Balances)
    ensures forall x :: x in Keys(Debtors(b)) ==> x in Keys(b)
  {
    if |b| > 0 {
      var init, e := b[..|b| - 1], b[|b| - 1];
      DebtorKeys(init);
      var ds: Balances := if e.value < 0 then [Entry(e.key, -e.value)] else [];
      forall x | x in Keys(Debtors(b)) ensures x in Keys(b) {
        var j :| 0 <= j < |Debtors(b)| && Keys(Debtors(b))[j] == x;
        if j < |Debtors(init)| {
          assert Debtors(b)[j] == Debtors(init)[j];
          assert x in Keys(Debtors(init));
          var i :| 0 <= i < |init| && Keys(init)[i] == x;
          assert Keys(b)[i] == x;
        } else {
          assert Debtors(b)[j] == ds[j - |Debtors(init)|];
          assert Keys(b)[|b| - 1] == x;
        }
      }
    }
  }

  /** The creditor side lists only ids of the balances. */
  lemma {:induction false} CreditorKeys(b: Balances)
    ensures forall x :: x in Keys(Creditors(b)) ==> x in Keys(b)
  {
    if |b| > 0 {
      var init, e := b[..|b| - 1], b[|b| - 1];
      CreditorKeys(init);
      var cs: Balances := if e.value > 0 then [e] else [];
      forall x | x in Keys(Creditors(b)) ensures x in Keys(b) {
        var j :| 0 <= j < |Creditors(b)| && Keys(Creditors(b))[j] == x;
        if j < |Creditors(init)| {
          assert Creditors(b)[j] == Creditors(init)[j];
          assert x in Keys(Creditors(init));
          var i :| 0 <= i < |init| && Keys(init)[i] == x;
          assert Keys(b)[i] == x;
        } else {
          assert Creditors(b)[j] == cs[j - |Creditors(init)|];
          assert Keys(b)[|b| - 1] == x;
        }
      }
    }
  }

  lemma {:induction false} OwedByAbsent(s: Balances, id: Id)
    requires id !in Keys(s)
    ensures OwedBy(s, id) == 0
  {
    if |s| > 0 {
      assert Keys(s) == [s[0].key] + Keys(s[1..]);
      OwedByAbsent(s[1..], id);
    }
  }
}
