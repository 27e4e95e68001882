/** The balancing step of settlement (`balanceWithMaxWinner`,
    `balanceProportionally` and the branch of `settle` that picks one): every
    player's net starts as `cashOut - buyIn`, and any imbalance `diff =
    ΣbuyIn - ΣcashOut` is absorbed either by the first maximal winner or
    shared among the winners by largest remainder, so that the nets sum to 0. */
module Balancer {
  import opened Models
  import opened Seqs
  import opened Apportionment

  /** `player.copy(net = cashOut - buyIn)` for every player. */
  function WithNets(ps: seq<Player>): (r: seq<Player>)
    ensures |r| == |ps|
    ensures forall i :: 0 <= i < |ps| ==> r[i] == ps[i].(net := ps[i].cashOut - ps[i].buyIn)
  {
    seq(|ps|, i requires 0 <= i < |ps| => ps[i].(net := ps[i].cashOut - ps[i].buyIn))
  }

  function Nets(ps: seq<Player>): (r: seq<int>)
    ensures |r| == |ps| && forall i :: 0 <= i < |ps| ==> r[i] == ps[i].net
  {
    seq(|ps|, i requires 0 <= i < |ps| => ps[i].net)
  }

  function BuyIns(ps: seq<Player>): (r: seq<int>)
    ensures |r| == |ps| && forall i :: 0 <= i < |ps| ==> r[i] == ps[i].buyIn
  {
    seq(|ps|, i requires 0 <= i < |ps| => ps[i].buyIn)
  }

  function CashOuts(ps: seq<Player>): (r: seq<int>)
    ensures |r| == |ps| && forall i :: 0 <= i < |ps| ==> r[i] == ps[i].cashOut
  {
    seq(|ps|, i requires 0 <= i < |ps| => ps[i].cashOut)
  }

  /** `totalBuyIn - totalCashOut`. */
  function Diff(ps: seq<Player>): int {
    Sum(BuyIns(ps)) - Sum(CashOuts(ps))
  }

  /** Index of `maxByOrNull { it.net }`: the scan keeps the first maximum. */
  function FirstMaxIndex(ps: seq<Player>): (k: nat)
    requires |ps| > 0
    ensures k < |ps|
    ensures forall i :: 0 <= i < |ps| ==> ps[i].net <= ps[k].net
    ensures forall i :: 0 <= i < k ==> ps[i].net < ps[k].net
  {
    if |ps| == 1 then 0
    else
      var k := FirstMaxIndex(ps[..|ps| - 1]);
      if ps[|ps| - 1].net > ps[k].net then |ps| - 1 else k
  }

  /** Adds `delta` to the net of every player whose id is `id`. */
  function AdjustNet(ps: seq<Player>, id: Id, delta: int): (r: seq<Player>)
    ensures |r| == |ps|
    ensures forall i :: 0 <= i < |ps| ==>
      r[i] == if ps[i].id == id then ps[i].(net := ps[i].net + delta) else ps[i]
  {
    seq(|ps|, i requires 0 <= i < |ps| => if ps[i].id == id then ps[i].(net := ps[i].net + delta) else ps[i])
  }

  /** `balanceWithMaxWinner`: fails on an empty list, otherwise the players
      sharing the id of the first maximal net absorb `diff`. */
  function BalanceWithMaxWinner(players: seq<Player>, diff: int): (r: Result<seq<Player>>)
    ensures r.Err? <==> |players| == 0
    ensures r.Err? ==> r.error == IllegalState(NoPlayers)
    ensures r.Ok? ==> |r.value| == |players|
    ensures r.Ok? ==> forall i :: 0 <= i < |players| ==> r.value[i] == players[i].(net := r.value[i].net)
  {
    var withNet := WithNets(players);
    if |withNet| == 0 then Err(IllegalState(NoPlayers))
    else Ok(AdjustNet(withNet, withNet[FirstMaxIndex(withNet)].id, diff))
  }

  /** `playersWithNet.filter { it.net > 0 }`: exactly the players with a
      positive net (see `WinnersComplete`), in list order (see `WinnersAppend`). */
  function Winners(ps: seq<Player>): (r: seq<Player>)
    ensures |r| <= |ps|
    ensures forall j :: 0 <= j < |r| ==> r[j].net > 0 && r[j] in ps
  {
    if |ps| == 0 then []
    else
      var w := Winners(ps[..|ps| - 1]);
      if ps[|ps| - 1].net > 0 then w + [ps[|ps| - 1]] else w
  }

  /** Position of the first winner with this id, or `|ws|`. */
  function IndexOfId(ws: seq<Player>, id: Id): (j: nat)
    ensures j <= |ws|
    ensures j < |ws| ==> ws[j].id == id
    ensures forall i :: 0 <= i < j ==> ws[i].id != id
  {
    if |ws| == 0 then 0
    else if ws[0].id == id then 0
    else 1 + IndexOfId(ws[1..], id)
  }

  /** `adjustments[player.id] ?: 0`, adjustments aligned with the winners. */
  function AdjustmentFor(ws: seq<Player>, adj: seq<int>, id: Id): int {
    var j := IndexOfId(ws, id);
    if j < |ws| && j < |adj| then adj[j] else 0
  }

  /** `player.copy(net = player.net + adjustment)` for every player. */
  function ApplyAdjustments(ps: seq<Player>, ws: seq<Player>, adj: seq<int>): (r: seq<Player>)
    ensures |r| == |ps|
    ensures forall i {:trigger r[i]} :: 0 <= i < |ps| ==> r[i] == ps[i].(net := ps[i].net + AdjustmentFor(ws, adj, ps[i].id))
  {
    seq(|ps|, i requires 0 <= i < |ps| => ps[i].(net := ps[i].net + AdjustmentFor(ws, adj, ps[i].id)))
  }

  /** `balanceProportionally`: with no winner it is `balanceWithMaxWinner` of
      the same players; otherwise the winners share `diff` by largest
      remainder in proportion to their nets. */
  function BalanceProportionally(players: seq<Player>, diff: int): (r: Result<seq<Player>>)
    ensures |Winners(WithNets(players))| == 0 ==> r == BalanceWithMaxWinner(players, diff)
    ensures r.Ok? ==> |r.value| == |players|
    ensures r.Ok? ==> forall i :: 0 <= i < |players| ==> r.value[i] == players[i].(net := r.value[i].net)
  {
    var withNet := WithNets(players);
    var winners := Winners(withNet);
    if |winners| == 0 then BalanceWithMaxWinner(players, diff)
    else
      SumPositive(Nets(winners));
      var totalWinnings := Sum(Nets(winners));
      match LargestRemainder(Nets(winners), diff, totalWinnings)
      case Err(e) => Err(e)
      case Ok(adj) => Ok(ApplyAdjustments(withNet, winners, adj))
  }

  /** The balancing branch of `settle` (and of `previewSettlement`): the nets
      after balancing, for players whose cash-outs are already recorded. */
  function Balance(players: seq<Player>, mode: BalanceMode): (r: Result<seq<Player>>)
    ensures Diff(players) == 0 ==> r == Ok(WithNets(players))
    ensures r.Ok? ==> |r.value| == |players|
    ensures r.Ok? ==> forall i :: 0 <= i < |players| ==> r.value[i] == players[i].(net := r.value[i].net)
  {
    var diff := Diff(players);
    if diff != 0 then
      match mode
      case MAX_WINNER => BalanceWithMaxWinner(players, diff)
      case PROPORTIONAL => BalanceProportionally(players, diff)
    else Ok(WithNets(players))
  }

  // ---------------------------------------------------------------------------
  // Zero sum

  /** The nets `cashOut - buyIn` sum to `-diff`. */
  lemma {:induction false} NetsSumToMinusDiff(ps: seq<Player>)
    ensures Sum(Nets(WithNets(ps))) == -Diff(ps)
  {
    if |ps| > 0 {
      var n := |ps| - 1;
      NetsSumToMinusDiff(ps[..n]);
      assert Nets(WithNets(ps))[..n] == Nets(WithNets(ps[..n]));
      assert BuyIns(ps)[..n] == BuyIns(ps[..n]);
      assert CashOuts(ps)[..n] == CashOuts(ps[..n]);
    }
  }

  /** With distinct ids, AdjustNet changes the total by `delta` exactly when the
      id occurs. */
  lemma {:induction false} AdjustNetSum(ps: seq<Player>, id: Id, delta: int)
    requires DistinctPlayerIds(ps)
    ensures Sum(Nets(AdjustNet(ps, id, delta))) == Sum(Nets(ps)) + (if id in PlayerIds(ps) then delta else 0)
  {
    if |ps| > 0 {
      var n := |ps| - 1;
      AdjustNetSum(ps[..n], id, delta);
      assert Nets(AdjustNet(ps, id, delta))[..n] == Nets(AdjustNet(ps[..n], id, delta));
      assert Nets(ps)[..n] == Nets(ps[..n]);
      assert PlayerIds(ps) == PlayerIds(ps[..n]) + [ps[n].id];
      if ps[n].id == id {
        assert id !in PlayerIds(ps[..n]);
      }
    }
  }

  /** MAX_WINNER leaves the nets summing to zero when ids are distinct. */
  lemma MaxWinnerIsZeroSum(players: seq<Player>)
    requires |players| > 0 && DistinctPlayerIds(players)
    ensures BalanceWithMaxWinner(players, Diff(players)).Ok?
    ensures Sum(Nets(BalanceWithMaxWinner(players, Diff(players)).value)) == 0
  {
    var withNet := WithNets(players);
    var k := FirstMaxIndex(withNet);
    NetsSumToMinusDiff(players);
    AdjustNetSum(withNet, withNet[k].id, Diff(players));
    assert PlayerIds(withNet)[k] == withNet[k].id;
  }

  /** MAX_WINNER changes exactly one player, the first with a maximal net, and
      that one by exactly `diff`; every other player keeps `cashOut - buyIn`. */
  lemma MaxWinnerChangesOnlyFirstMax(players: seq<Player>, diff: int)
    requires |players| > 0 && DistinctPlayerIds(players)
    ensures var withNet := WithNets(players);
      var r := BalanceWithMaxWinner(players, diff);
      exists k :: 0 <= k < |players|
        && (forall i :: 0 <= i < |players| ==> withNet[i].net <= withNet[k].net)
        && (forall i :: 0 <= i < k ==> withNet[i].net < withNet[k].net)
        && r == Ok(withNet[k := withNet[k].(net := withNet[k].net + diff)])
  {
    var withNet := WithNets(players);
    var k := FirstMaxIndex(withNet);
    var r := BalanceWithMaxWinner(players, diff).value;
    assert r == withNet[k := withNet[k].(net := withNet[k].net + diff)];
  }

  /** A worked example: Alice 100_00 in / 180_00 out and Bob 100_00 in
      / 50_00 out with diff -30_00 end at 50_00 and -50_00. */
  lemma MaxWinnerExample()
    ensures var alice := Player("1", "Alice", 100_00, 180_00, 0, None);
      var bob := Player("2", "Bob", 100_00, 50_00, 0, None);
      BalanceWithMaxWinner([alice, bob], -30_00) == Ok([alice.(net := 50_00), bob.(net := -50_00)])
  {
    var alice := Player("1", "Alice", 100_00, 180_00, 0, None);
    var bob := Player("2", "Bob", 100_00, 50_00, 0, None);
    var withNet := WithNets([alice, bob]);
    assert withNet == [alice.(net := 80_00), bob.(net := -50_00)];
    assert FirstMaxIndex(withNet[..1]) == 0;
    assert FirstMaxIndex(withNet) == 0;
    var r := AdjustNet(withNet, "1", -30_00);
    assert r[0] == alice.(net := 50_00) && r[1] == bob.(net := -50_00);
    assert r == [alice.(net := 50_00), bob.(net := -50_00)];
  }

  /** Every player with a positive net is a winner. */
  lemma {:induction false} WinnersComplete(ps: seq<Player>)
    ensures forall i :: 0 <= i < |ps| && ps[i].net > 0 ==> ps[i] in Winners(ps)
  {
    if |ps| > 0 {
      var n := |ps| - 1;
      WinnersComplete(ps[..n]);
      forall i | 0 <= i < n && ps[i].net > 0 ensures ps[i] in Winners(ps) {
        assert ps[..n][i] == ps[i];
      }
    }
  }

  /** The filter keeps list order: it distributes over concatenation. */
  lemma {:induction false} WinnersAppend(a: seq<Player>, b: seq<Player>)
    ensures Winners(a + b) == Winners(a) + Winners(b)
  {
    if |b| == 0 {
      assert a + b == a;
    } else {
      var n := |b| - 1;
      var ab := a + b;
      var last := if b[n].net > 0 then [b[n]] else [];
      WinnersAppend(a, b[..n]);
      assert ab[..|ab| - 1] == a + b[..n];
      assert ab[|ab| - 1] == b[n];
      assert Winners(ab) == Winners(a + b[..n]) + last;
      assert Winners(b) == Winners(b[..n]) + last;
      assert (Winners(a) + Winners(b[..n])) + last == Winners(a) + (Winners(b[..n]) + last);
    }
  }

  /** The winners of a list with distinct ids have distinct ids, all taken from it. */
  lemma {:induction false} WinnerIds(ps: seq<Player>)
    requires DistinctPlayerIds(ps)
    ensures DistinctPlayerIds(Winners(ps))
    ensures forall j :: 0 <= j < |Winners(ps)| ==> Winners(ps)[j].id in PlayerIds(ps)
  {
    if |ps| > 0 {
      var n := |ps| - 1;
      WinnerIds(ps[..n]);
      assert PlayerIds(ps) == PlayerIds(ps[..n]) + [ps[n].id];
      var w := Winners(ps[..n]);
      if ps[n].net > 0 {
        forall j | 0 <= j < |w| ensures w[j].id != ps[n].id {
          assert w[j].id in PlayerIds(ps[..n]);
          var i :| 0 <= i < n && PlayerIds(ps[..n])[i] == w[j].id;
          assert ps[i].id == w[j].id;
        }
      }
    }
  }

  /** A player whose id is not among the winners gets no adjustment. */
  lemma NoAdjustmentWithout(ws: seq<Player>, adj: seq<int>, id: Id)
    requires id !in PlayerIds(ws)
    ensures AdjustmentFor(ws, adj, id) == 0
  {
  }

  /** Summing the adjustments over all players gives the sum over the winners. */
  lemma {:induction false} AdjustmentsSum(ps: seq<Player>, adj: seq<int>)
    requires DistinctPlayerIds(ps) && |adj| == |Winners(ps)|
    ensures Sum(Nets(ApplyAdjustments(ps, Winners(ps), adj))) == Sum(Nets(ps)) + Sum(adj)
  {
    if |ps| > 0 {
      var n := |ps| - 1;
      var m := |Winners(ps[..n])|;
      var a := ApplyAdjustments(ps, Winners(ps), adj);
      assert DistinctPlayerIds(ps[..n]);
      SplitAdjustments(ps, adj);
      AdjustmentsSum(ps[..n], adj[..m]);
      PrefixApply(ps, adj);
      SumNetsLast(a);
      SumNetsLast(ps);
      LastAdjustment(ps, adj);
    }
  }

  /** The adjustments of a list split into those of its winners before the
      last player and the last player's own. */
  lemma SplitAdjustments(ps: seq<Player>, adj: seq<int>)
    requires |ps| > 0 && |adj| == |Winners(ps)|
    ensures var n := |ps| - 1;
      var m := |Winners(ps[..n])|;
      m <= |adj|
      && (ps[n].net > 0 ==> m < |adj|)
      && Sum(adj) == Sum(adj[..m]) + (if ps[n].net > 0 then adj[m] else 0)
  {
    var n := |ps| - 1;
    var m := |Winners(ps[..n])|;
    if ps[n].net <= 0 {
      assert adj[..m] == adj;
    }
  }

  lemma SumNetsLast(ps: seq<Player>)
    requires |ps| > 0
    ensures Sum(Nets(ps)) == Sum(Nets(ps[..|ps| - 1])) + ps[|ps| - 1].net
  {
    assert Nets(ps)[..|ps| - 1] == Nets(ps[..|ps| - 1]);
  }

  /** Adjusting a list, then dropping its last player, is adjusting the shorter list. */
  lemma PrefixApply(ps: seq<Player>, adj: seq<int>)
    requires DistinctPlayerIds(ps) && |ps| > 0 && |adj| == |Winners(ps)|
    ensures var n := |ps| - 1;
      var w := Winners(ps[..n]);
      ApplyAdjustments(ps, Winners(ps), adj)[..n] == ApplyAdjustments(ps[..n], w, adj[..|w|])
  {
    var n := |ps| - 1;
    var w := Winners(ps[..n]);
    var x, y := ApplyAdjustments(ps, Winners(ps), adj)[..n], ApplyAdjustments(ps[..n], w, adj[..|w|]);
    PrefixAdjustments(ps, adj);
    assert |x| == |y| == n;
    forall i | 0 <= i < n ensures x[i] == y[i] {
      assert AdjustmentFor(Winners(ps), adj, ps[i].id) == AdjustmentFor(w, adj[..|w|], ps[i].id);
    }
  }

  /** The last player's id occurs in no earlier winner. */
  lemma LastIdIsNew(ps: seq<Player>)
    requires DistinctPlayerIds(ps) && |ps| > 0
    ensures ps[|ps| - 1].id !in PlayerIds(Winners(ps[..|ps| - 1]))
  {
    var n := |ps| - 1;
    var w := Winners(ps[..n]);
    WinnerIds(ps[..n]);
    forall j | 0 <= j < |w| ensures PlayerIds(w)[j] != ps[n].id {
      assert w[j].id in PlayerIds(ps[..n]);
      var i :| 0 <= i < n && PlayerIds(ps[..n])[i] == w[j].id;
      assert ps[i].id != ps[n].id;
    }
  }

  /** The earlier players see the same adjustments as in the shorter list. */
  lemma PrefixAdjustments(ps: seq<Player>, adj: seq<int>)
    requires DistinctPlayerIds(ps) && |ps| > 0 && |adj| == |Winners(ps)|
    ensures var n := |ps| - 1;
      var w := Winners(ps[..n]);
      forall i :: 0 <= i < n ==>
        AdjustmentFor(Winners(ps), adj, ps[i].id) == AdjustmentFor(w, adj[..|w|], ps[i].id)
  {
    var n := |ps| - 1;
    var w := Winners(ps[..n]);
    forall i | 0 <= i < n
      ensures AdjustmentFor(Winners(ps), adj, ps[i].id) == AdjustmentFor(w, adj[..|w|], ps[i].id)
    {
      IndexOfIdExtends(w, Winners(ps), ps[i].id);
      assert ps[i].id != ps[n].id;
    }
  }

  /** The last player gets its own adjustment if it is a winner, else none. */
  lemma LastAdjustment(ps: seq<Player>, adj: seq<int>)
    requires DistinctPlayerIds(ps) && |ps| > 0 && |adj| == |Winners(ps)|
    ensures var n := |ps| - 1;
      AdjustmentFor(Winners(ps), adj, ps[n].id) == if ps[n].net > 0 then adj[|Winners(ps[..n])|] else 0
  {
    var n := |ps| - 1;
    var w := Winners(ps[..n]);
    var v := Winners(ps);
    LastIdIsNew(ps);
    if ps[n].net <= 0 {
      assert v == w;
      NoAdjustmentWithout(w, adj, ps[n].id);
    } else {
      assert v == w + [ps[n]];
      IndexOfIdExtends(w, v, ps[n].id);
      assert v[|w|] == ps[n];
      assert IndexOfId(v, ps[n].id) == |w|;
    }
  }

  /** Appending may only extend the search: a match found in the prefix stays. */
  lemma IndexOfIdExtends(w: seq<Player>, v: seq<Player>, id: Id)
    requires |w| <= |v| && w == v[..|w|]
    ensures IndexOfId(w, id) < |w| ==> IndexOfId(v, id) == IndexOfId(w, id)
    ensures IndexOfId(w, id) == |w| ==> IndexOfId(v, id) >= |w|
  {
    var j, k := IndexOfId(w, id), IndexOfId(v, id);
    assert forall i :: 0 <= i < |w| ==> w[i] == v[i];
  }

  /** PROPORTIONAL leaves the nets summing to zero when ids are distinct. */
  lemma ProportionalIsZeroSum(players: seq<Player>)
    requires |players| > 0 && DistinctPlayerIds(players)
    ensures BalanceProportionally(players, Diff(players)).Ok?
    ensures Sum(Nets(BalanceProportionally(players, Diff(players)).value)) == 0
  {
    var diff := Diff(players);
    var withNet := WithNets(players);
    var winners := Winners(withNet);
    NetsSumToMinusDiff(players);
    if |winners| == 0 {
      MaxWinnerIsZeroSum(players);
    } else {
      SumPositive(Nets(winners));
      var total := Sum(Nets(winners));
      LargestRemainderIsExact(Nets(winners), diff, total);
      var adj := LargestRemainder(Nets(winners), diff, total).value;
      assert DistinctPlayerIds(withNet) by {
        forall i, j | 0 <= i < j < |withNet| ensures withNet[i].id != withNet[j].id {
          assert withNet[i].id == players[i].id && withNet[j].id == players[j].id;
        }
      }
      AdjustmentsSum(withNet, adj);
    }
  }

  /** Whichever branch runs, the balanced nets sum to exactly zero, balancing
      never fails, and it keeps every player's id, name, buy-in and cash-out. */
  lemma BalanceIsZeroSum(players: seq<Player>, mode: BalanceMode)
    requires DistinctPlayerIds(players)
    ensures Balance(players, mode).Ok?
    ensures var r := Balance(players, mode).value;
      |r| == |players| && Sum(Nets(r)) == 0
      && forall i :: 0 <= i < |players| ==>
        r[i].id == players[i].id && r[i].name == players[i].name && r[i].userId == players[i].userId
        && r[i].buyIn == players[i].buyIn && r[i].cashOut == players[i].cashOut
  {
    var diff := Diff(players);
    NetsSumToMinusDiff(players);
    if diff != 0 {
      assert |players| > 0 by {
        assert |players| == 0 ==> BuyIns(players) == [] && CashOuts(players) == [];
      }
      if mode == MAX_WINNER {
        MaxWinnerIsZeroSum(players);
      } else {
        ProportionalIsZeroSum(players);
      }
    }
  }

  /** PROPORTIONAL adjusts only winners: a player with `cashOut - buyIn <= 0`
      keeps that net. */
  lemma ProportionalKeepsNonWinners(players: seq<Player>, diff: int, i: int)
    requires DistinctPlayerIds(players) && 0 <= i < |players|
    requires |Winners(WithNets(players))| > 0
    requires players[i].cashOut - players[i].buyIn <= 0
    requires BalanceProportionally(players, diff).Ok?
    ensures BalanceProportionally(players, diff).value[i] == WithNets(players)[i]
  {
    var withNet := WithNets(players);
    var winners := Winners(withNet);
    SumPositive(Nets(winners));
    var adj := LargestRemainder(Nets(winners), diff, Sum(Nets(winners))).value;
    assert DistinctPlayerIds(withNet) by {
      forall a, b | 0 <= a < b < |withNet| ensures withNet[a].id != withNet[b].id {
        assert withNet[a].id == players[a].id && withNet[b].id == players[b].id;
      }
    }
    WinnerIds(withNet);
    forall j | 0 <= j < |winners| ensures PlayerIds(winners)[j] != withNet[i].id {
      assert winners[j] in withNet;
      var i' :| 0 <= i' < |withNet| && withNet[i'] == winners[j];
      assert i' != i;
    }
    NoAdjustmentWithout(winners, adj, withNet[i].id);
  }

  /** With distinct winner ids, the player matching winner `j` gets `adj[j]`. */
  lemma AdjustmentAt(ps: seq<Player>, ws: seq<Player>, adj: seq<int>, i: int, j: int)
    requires DistinctPlayerIds(ws) && |adj| == |ws|
    requires 0 <= i < |ps| && 0 <= j < |ws| && ws[j].id == ps[i].id
    ensures ApplyAdjustments(ps, ws, adj)[i].net == ps[i].net + adj[j]
  {
    var k := IndexOfId(ws, ps[i].id);
    assert k == j;
  }

  /** With distinct ids, the players with their nets still have distinct ids. */
  lemma WithNetsKeepsIds(players: seq<Player>)
    requires DistinctPlayerIds(players)
    ensures DistinctPlayerIds(WithNets(players))
  {
    var withNet := WithNets(players);
    forall a, b | 0 <= a < b < |withNet| ensures withNet[a].id != withNet[b].id {
      assert withNet[a].id == players[a].id && withNet[b].id == players[b].id;
    }
  }

  /** With some winner, a successful split is applied to every player. */
  lemma ProportionalApplies(players: seq<Player>, diff: int)
    requires Sum(Nets(Winners(WithNets(players)))) > 0
    ensures var withNet := WithNets(players);
      var winners := Winners(withNet);
      var lr := LargestRemainder(Nets(winners), diff, Sum(Nets(winners)));
      lr.Ok? ==> BalanceProportionally(players, diff) == Ok(ApplyAdjustments(withNet, winners, lr.value))
  {
    assert |Winners(WithNets(players))| != 0;
  }

  /** A player whose `cashOut - buyIn` is positive is one of the winners. */
  lemma WinnerIndex(players: seq<Player>, i: int) returns (j: int)
    requires 0 <= i < |players| && players[i].cashOut - players[i].buyIn > 0
    ensures 0 <= j < |Winners(WithNets(players))| && Winners(WithNets(players))[j] == WithNets(players)[i]
  {
    var withNet := WithNets(players);
    WinnersComplete(withNet);
    assert withNet[i].net > 0;
    assert withNet[i] in Winners(withNet);
    j :| 0 <= j < |Winners(withNet)| && Winners(withNet)[j] == withNet[i];
  }

  /** Winner `j` of distinct players ends at its net plus the `j`-th share. */
  lemma ShareAt(players: seq<Player>, diff: int, i: int, j: int)
    requires DistinctPlayerIds(players) && 0 <= i < |players|
    requires 0 <= j < |Winners(WithNets(players))| && Winners(WithNets(players))[j] == WithNets(players)[i]
    ensures var withNet := WithNets(players);
      var winners := Winners(withNet);
      var total := Sum(Nets(winners));
      total > 0 && LargestRemainder(Nets(winners), diff, total).Ok?
      && BalanceProportionally(players, diff).Ok?
      && BalanceProportionally(players, diff).value[i].net
         == withNet[i].net + LargestRemainder(Nets(winners), diff, total).value[j]
  {
    var withNet := WithNets(players);
    var winners := Winners(withNet);
    SumPositive(Nets(winners));
    var total := Sum(Nets(winners));
    LargestRemainderIsExact(Nets(winners), diff, total);
    var adj := LargestRemainder(Nets(winners), diff, total).value;
    WithNetsKeepsIds(players);
    WinnerIds(withNet);
    AdjustmentAt(withNet, winners, adj, i, j);
    ProportionalApplies(players, diff);
  }

  /** PROPORTIONAL gives every winner its own largest-remainder share: player
      `i` with `cashOut - buyIn > 0` is winner `j` and ends at its net plus the
      `j`-th adjustment of the split of `diff` over the winners' nets. */
  lemma ProportionalWinnerShare(players: seq<Player>, diff: int, i: int)
    requires DistinctPlayerIds(players) && 0 <= i < |players|
    requires players[i].cashOut - players[i].buyIn > 0
    ensures var withNet := WithNets(players);
      var winners := Winners(withNet);
      var total := Sum(Nets(winners));
      total > 0 && LargestRemainder(Nets(winners), diff, total).Ok?
      && BalanceProportionally(players, diff).Ok?
      && exists j :: 0 <= j < |winners| && winners[j] == withNet[i]
           && BalanceProportionally(players, diff).value[i].net
              == withNet[i].net + LargestRemainder(Nets(winners), diff, total).value[j]
  {
    var j := WinnerIndex(players, i);
    ShareAt(players, diff, i, j);
  }
}
