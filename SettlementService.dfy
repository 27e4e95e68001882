/** The settlement side of the session lifecycle: `settle`, `previewSettlement`,
    `markDebtSettled`, `reopenSession` and `calculateDiff`. Each store-writing
    operation is a method on the stored `Session` (null when `getSession` finds
    nothing), proved equal to a transition function on session values; the
    lemmas below state what those transitions guarantee. Debt and transfer ids
    (`ObjectId()`) and the clock are parameters. */
module SettlementService {
  import opened Models
  import opened Seqs
  import opened AssocList
  import opened Balancer
  import opened DebtMinimizer
  import opened TransferFacts
  import opened SweepFacts
  import opened DebtFacts
  import opened Store

  /** The note of the transfer that records a manual settlement. */
  const SettlementTransferNote: string := "结算转账"

  // ---------------------------------------------------------------------------
  // Cash-outs

  /** `request.cashOuts[player.id] ?: throw`: every player gets its cash-out;
      the first player in list order without one aborts the whole mapping. */
  function RecordCashOuts(players: seq<Player>, cashOuts: map<Id, int>): (r: Result<seq<Player>>)
    ensures r.Ok? <==> forall i :: 0 <= i < |players| ==> players[i].id in cashOuts
    ensures r.Err? ==>
      exists k :: 0 <= k < |players| && players[k].id !in cashOuts
        && (forall j :: 0 <= j < k ==> players[j].id in cashOuts)
        && r.error == IllegalArgument(MissingCashOut(players[k].name))
    ensures r.Ok? ==>
      |r.value| == |players|
      && forall i :: 0 <= i < |players| ==> r.value[i] == players[i].(cashOut := cashOuts[players[i].id])
  {
    var k := FindIndex(players, (p: Player) => p.id !in cashOuts);
    if k < |players| then Err(IllegalArgument(MissingCashOut(players[k].name)))
    else Ok(seq(|players|, i requires 0 <= i < |players| => players[i].(cashOut := cashOuts[players[i].id])))
  }

  /** `cashOuts[player.id] ?: 0`: a missing cash-out counts as 0. */
  function PreviewCashOuts(players: seq<Player>, cashOuts: map<Id, int>): seq<Player> {
    seq(|players|, i requires 0 <= i < |players| =>
      players[i].(cashOut := if players[i].id in cashOuts then cashOuts[players[i].id] else 0))
  }

  // ---------------------------------------------------------------------------
  // Transitions

  /** `settle` on a stored session value: refuse a settled session, record the
      cash-outs, balance the nets and store the minimal debts. */
  function SettleOutcome(s: PokerSession, request: SettleRequest, ids: nat -> Id, now: int): (r: Result<PokerSession>)
    ensures s.status != ACTIVE ==> r == Err(IllegalState(SessionNotActive))
    ensures r.Ok? ==>
      r.value.status == SETTLED && r.value.settledAt == Some(now)
      && r.value.transfers == s.transfers && r.value.logs == s.logs
      && |r.value.players| == |s.players|
      && (forall i :: 0 <= i < |s.players| ==>
            s.players[i].id in request.cashOuts
            && r.value.players[i] == s.players[i].(cashOut := request.cashOuts[s.players[i].id], net := r.value.players[i].net))
      && forall j :: 0 <= j < |r.value.debts| ==> r.value.debts[j].amount > 0 && !r.value.debts[j].settled
  {
    if s.status != ACTIVE then Err(IllegalState(SessionNotActive))
    else
      match RecordCashOuts(s.players, request.cashOuts)
      case Err(e) => Err(e)
      case Ok(updated) =>
        match Balance(updated, request.balanceMode)
        case Err(e) => Err(e)
        case Ok(balanced) =>
          Ok(s.(status := SETTLED, players := balanced,
                debts := MinimalDebts(balanced, s.transfers, ids), settledAt := Some(now)))
  }

  /** `previewSettlement`: the debts `settle` would store, with missing
      cash-outs read as 0; nothing is written. */
  function Preview(s: PokerSession, cashOuts: map<Id, int>, mode: BalanceMode, ids: nat -> Id): (r: Result<seq<Debt>>)
    ensures r.Ok? ==> forall j :: 0 <= j < |r.value| ==>
      r.value[j].amount > 0 && !r.value[j].settled && r.value[j].settledAmount == 0
  {
    match Balance(PreviewCashOuts(s.players, cashOuts), mode)
    case Err(e) => Err(e)
    case Ok(balanced) => Ok(MinimalDebts(balanced, s.transfers, ids))
  }

  /** `minOf(requested, amount - settledAmount)`. */
  function SettleAmount(d: Debt, requested: int): int {
    Min(requested, d.amount - d.settledAmount)
  }

  /** `markDebtSettled` on a stored session value: pay part of the first debt
      with this id and record the payment as a transfer. */
  function DebtMarked(s: PokerSession, request: ManualSettleRequest, transferId: Id, now: int): (r: Result<PokerSession>)
    ensures r.Err? <==> forall i :: 0 <= i < |s.debts| ==> s.debts[i].id != request.debtId
    ensures r.Ok? ==>
      r.value.players == s.players && r.value.status == s.status && |r.value.debts| == |s.debts|
      && |s.transfers| <= |r.value.transfers| <= |s.transfers| + 1
      && r.value.transfers[..|s.transfers|] == s.transfers
  {
    var k := FindIndex(s.debts, (d: Debt) => d.id == request.debtId);
    if k == |s.debts| then Err(IllegalArgument(DebtNotFound(request.debtId)))
    else
      var d := s.debts[k];
      var actual := SettleAmount(d, request.settledAmount);
      if actual <= 0 then Ok(s)
      else
        var newSettledAmount := d.settledAmount + actual;
        Ok(s.(debts := s.debts[k := d.(settledAmount := newSettledAmount, settled := newSettledAmount >= d.amount)],
              transfers := s.transfers + [DirectTransfer(transferId, d.fromPlayerId, d.toPlayerId, actual, now, Some(SettlementTransferNote))]))
  }

  /** `player.copy(cashOut = 0, net = 0)` for every player. */
  function ResetPlayers(ps: seq<Player>): seq<Player> {
    seq(|ps|, i requires 0 <= i < |ps| => ps[i].(cashOut := 0, net := 0))
  }

  /** `reopenSession` on a stored session value. */
  function Reopened(s: PokerSession): (r: Result<PokerSession>)
    ensures r.Ok? <==> s.status == SETTLED
    ensures r.Ok? ==>
      r.value.status == ACTIVE && r.value.settledAt == None && r.value.debts == []
      && r.value.transfers == s.transfers && r.value.logs == s.logs
      && |r.value.players| == |s.players|
      && forall i :: 0 <= i < |s.players| ==>
           r.value.players[i].cashOut == 0 && r.value.players[i].net == 0
           && r.value.players[i].id == s.players[i].id && r.value.players[i].buyIn == s.players[i].buyIn
  {
    if s.status != SETTLED then Err(IllegalState(SessionNotSettled))
    else Ok(s.(status := ACTIVE, players := ResetPlayers(s.players), debts := [], settledAt := None))
  }

  /** `calculateDiff`: total buy-in minus the sum of the submitted cash-outs. */
  ghost function CalculateDiff(s: PokerSession, cashOuts: map<Id, int>): (r: int)
    ensures cashOuts == map[] ==> r == Sum(BuyIns(s.players))
  {
    Sum(BuyIns(s.players)) - SumValues(cashOuts)
  }

  // ---------------------------------------------------------------------------
  // Store-writing operations

  method Settle(session: Session?, request: SettleRequest, ids: nat -> Id, now: int) returns (r: Result<PokerSession>)
    modifies session
    ensures session == null ==> r == Err(IllegalArgument(SessionNotFound))
    ensures session != null ==> r == SettleOutcome(old(session.Snapshot()), request, ids, now)
    ensures session != null && r.Ok? ==> session.Snapshot() == r.value
    ensures session != null && r.Err? ==> session.Snapshot() == old(session.Snapshot())
    ensures session != null && WellFormed(old(session.Snapshot())) && r.Ok? ==> WellFormed(session.Snapshot())
  {
    if session == null {
      return Err(IllegalArgument(SessionNotFound));
    }
    ghost var s0 := session.Snapshot();
    if session.status != ACTIVE {
      return Err(IllegalState(SessionNotActive));
    }
    var updated := RecordCashOuts(session.players, request.cashOuts);
    if updated.Err? {
      return Err(updated.error);
    }
    var balanced := Balance(updated.value, request.balanceMode);
    if balanced.Err? {
      return Err(balanced.error);
    }
    var debts := GenerateMinimalDebtsWithTransfers(balanced.value, session.transfers, ids);
    ghost var t := s0.(status := SETTLED, players := balanced.value, debts := debts, settledAt := Some(now));
    assert SettleOutcome(s0, request, ids, now) == Ok(t);
    session.status, session.players, session.debts, session.settledAt := SETTLED, balanced.value, debts, Some(now);
    r := Ok(session.Snapshot());
    assert r == Ok(t);
    if WellFormed(s0) {
      SettleKeepsWellFormed(s0, request, ids, now);
    }
  }

  method PreviewSettlement(session: PokerSession, cashOuts: map<Id, int>, balanceMode: BalanceMode, ids: nat -> Id)
    returns (r: Result<seq<Debt>>)
    ensures r == Preview(session, cashOuts, balanceMode, ids)
  {
    var balanced := Balance(PreviewCashOuts(session.players, cashOuts), balanceMode);
    if balanced.Err? {
      return Err(balanced.error);
    }
    var debts := GenerateMinimalDebtsWithTransfers(balanced.value, session.transfers, ids);
    r := Ok(debts);
  }

  method MarkDebtSettled(session: Session?, request: ManualSettleRequest, transferId: Id, now: int)
    returns (r: Result<PokerSession>)
    modifies session
    ensures session == null ==> r == Err(IllegalArgument(SessionNotFound))
    ensures session != null ==> r == DebtMarked(old(session.Snapshot()), request, transferId, now)
    ensures session != null && r.Ok? ==> session.Snapshot() == r.value
    ensures session != null && r.Err? ==> session.Snapshot() == old(session.Snapshot())
    ensures session != null && WellFormed(old(session.Snapshot())) && r.Ok? ==> WellFormed(session.Snapshot())
  {
    if session == null {
      return Err(IllegalArgument(SessionNotFound));
    }
    ghost var s0 := session.Snapshot();
    var k := FindIndex(session.debts, (d: Debt) => d.id == request.debtId);
    if k == |session.debts| {
      return Err(IllegalArgument(DebtNotFound(request.debtId)));
    }
    var debt := session.debts[k];
    var actualSettleAmount := SettleAmount(debt, request.settledAmount);
    if actualSettleAmount <= 0 {
      return Ok(session.Snapshot());
    }
    var newSettledAmount := debt.settledAmount + actualSettleAmount;
    var isFullySettled := newSettledAmount >= debt.amount;
    var transfer := DirectTransfer(transferId, debt.fromPlayerId, debt.toPlayerId, actualSettleAmount, now, Some(SettlementTransferNote));
    session.debts := session.debts[k := debt.(settledAmount := newSettledAmount, settled := isFullySettled)];
    session.transfers := session.transfers + [transfer];
    r := Ok(session.Snapshot());
    if WellFormed(s0) {
      MarkDebtSettledKeepsWellFormed(s0, request, transferId, now);
    }
  }

  method ReopenSession(session: Session?) returns (r: Result<PokerSession>)
    modifies session
    ensures session == null ==> r == Err(IllegalArgument(SessionNotFound))
    ensures session != null ==> r == Reopened(old(session.Snapshot()))
    ensures session != null && r.Ok? ==> session.Snapshot() == r.value
    ensures session != null && r.Err? ==> session.Snapshot() == old(session.Snapshot())
    ensures session != null && WellFormed(old(session.Snapshot())) && r.Ok? ==> WellFormed(session.Snapshot())
  {
    if session == null {
      return Err(IllegalArgument(SessionNotFound));
    }
    ghost var s0 := session.Snapshot();
    if session.status != SETTLED {
      return Err(IllegalState(SessionNotSettled));
    }
    session.status, session.players, session.debts, session.settledAt := ACTIVE, ResetPlayers(session.players), [], None;
    r := Ok(session.Snapshot());
    if WellFormed(s0) {
      ReopenKeepsWellFormed(s0);
    }
  }

  // ---------------------------------------------------------------------------
  // settle

  lemma RecordedIds(players: seq<Player>, cashOuts: map<Id, int>)
    requires DistinctPlayerIds(players)
    requires RecordCashOuts(players, cashOuts).Ok?
    ensures DistinctPlayerIds(RecordCashOuts(players, cashOuts).value)
  {
    var r := RecordCashOuts(players, cashOuts).value;
    forall i, j | 0 <= i < j < |r| ensures r[i].id != r[j].id {
      assert r[i].id == players[i].id && r[j].id == players[j].id;
    }
  }

  /** `settle` refuses a session that is not ACTIVE, and an ACTIVE one exactly
      when some player has no cash-out, naming the first such player. */
  lemma SettleFailures(s: PokerSession, request: SettleRequest, ids: nat -> Id, now: int)
    requires DistinctPlayerIds(s.players)
    ensures var r := SettleOutcome(s, request, ids, now);
      (s.status != ACTIVE ==> r == Err(IllegalState(SessionNotActive)))
      && (s.status == ACTIVE ==>
            (r.Err? <==> exists i :: 0 <= i < |s.players| && s.players[i].id !in request.cashOuts)
            && (r.Err? ==> r.error == RecordCashOuts(s.players, request.cashOuts).error))
  {
    if s.status == ACTIVE && RecordCashOuts(s.players, request.cashOuts).Ok? {
      RecordedIds(s.players, request.cashOuts);
      BalanceIsZeroSum(RecordCashOuts(s.players, request.cashOuts).value, request.balanceMode);
    }
  }

  /** A successful `settle` marks the session SETTLED at `now`, records every
      player's cash-out, balances the nets to a zero sum (keeping ids, names,
      user ids and buy-ins), stores the minimal debts of those nets and the
      session's transfers, and touches nothing else. */
  lemma SettleSucceeds(s: PokerSession, request: SettleRequest, ids: nat -> Id, now: int)
    requires DistinctPlayerIds(s.players)
    requires SettleOutcome(s, request, ids, now).Ok?
    ensures var t := SettleOutcome(s, request, ids, now).value;
      t.status == SETTLED && t.settledAt == Some(now)
      && t.id == s.id && t.numericId == s.numericId && t.stakes == s.stakes && t.createdAt == s.createdAt
      && t.logs == s.logs && t.transfers == s.transfers
      && |t.players| == |s.players| && Sum(Nets(t.players)) == 0
      && (forall i :: 0 <= i < |s.players| ==>
            t.players[i].id == s.players[i].id && t.players[i].name == s.players[i].name
            && t.players[i].userId == s.players[i].userId && t.players[i].buyIn == s.players[i].buyIn
            && t.players[i].cashOut == request.cashOuts[s.players[i].id])
      && t.debts == MinimalDebts(t.players, s.transfers, ids)
  {
    var updated := RecordCashOuts(s.players, request.cashOuts).value;
    RecordedIds(s.players, request.cashOuts);
    BalanceIsZeroSum(updated, request.balanceMode);
    var balanced := Balance(updated, request.balanceMode).value;
    assert SettleOutcome(s, request, ids, now).value
        == s.(status := SETTLED, players := balanced, debts := MinimalDebts(balanced, s.transfers, ids), settledAt := Some(now));
  }

  lemma BalancedIds(s: PokerSession, request: SettleRequest, ids: nat -> Id, now: int)
    requires DistinctPlayerIds(s.players)
    requires SettleOutcome(s, request, ids, now).Ok?
    ensures DistinctPlayerIds(SettleOutcome(s, request, ids, now).value.players)
  {
    var t := SettleOutcome(s, request, ids, now).value;
    SettleSucceeds(s, request, ids, now);
    forall i, j | 0 <= i < j < |t.players| ensures t.players[i].id != t.players[j].id {
      assert t.players[i].id == s.players[i].id && t.players[j].id == s.players[j].id;
    }
  }

  /** After `settle`, paying the stored debts clears every player: its net,
      plus what it already paid by transfer minus what it received, plus what
      it pays by debt minus what it is paid, is zero. */
  lemma SettleClearsEveryPlayer(s: PokerSession, request: SettleRequest, ids: nat -> Id, now: int, i: nat)
    requires WellFormed(s)
    requires SettleOutcome(s, request, ids, now).Ok?
    requires i < |s.players|
    ensures var t := SettleOutcome(s, request, ids, now).value; var id := t.players[i].id;
      t.players[i].net + TransferNet(t.transfers, id) + SentBy(t.debts, id) - ReceivedBy(t.debts, id) == 0
  {
    var t := SettleOutcome(s, request, ids, now).value;
    SettleSucceeds(s, request, ids, now);
    BalancedIds(s, request, ids, now);
    MinimalDebtsSettlePlayer(t.players, t.transfers, ids, i);
  }

  /** `settle` keeps the store invariant. */
  lemma SettleKeepsWellFormed(s: PokerSession, request: SettleRequest, ids: nat -> Id, now: int)
    requires WellFormed(s)
    requires SettleOutcome(s, request, ids, now).Ok?
    ensures WellFormed(SettleOutcome(s, request, ids, now).value)
  {
    var t := SettleOutcome(s, request, ids, now).value;
    SettleSucceeds(s, request, ids, now);
    BalancedIds(s, request, ids, now);
    MinimalDebtsShape(t.players, t.transfers, ids);
    forall j | 0 <= j < |t.debts| ensures DebtWellFormed(t.debts[j]) {
      assert t.debts[j].amount > 0 && t.debts[j].fromPlayerId != t.debts[j].toPlayerId;
    }
  }

  /** The preview shows exactly the debts a successful `settle` with the same
      cash-outs and mode stores. */
  lemma PreviewAgreesWithSettle(s: PokerSession, request: SettleRequest, ids: nat -> Id, now: int)
    requires SettleOutcome(s, request, ids, now).Ok?
    ensures Preview(s, request.cashOuts, request.balanceMode, ids) == Ok(SettleOutcome(s, request, ids, now).value.debts)
  {
    assert PreviewCashOuts(s.players, request.cashOuts) == RecordCashOuts(s.players, request.cashOuts).value;
  }

  /** The preview never fails, whatever cash-outs are missing. */
  lemma PreviewNeverFails(s: PokerSession, cashOuts: map<Id, int>, mode: BalanceMode, ids: nat -> Id)
    requires DistinctPlayerIds(s.players)
    ensures Preview(s, cashOuts, mode, ids).Ok?
  {
    var ps := PreviewCashOuts(s.players, cashOuts);
    forall i, j | 0 <= i < j < |ps| ensures ps[i].id != ps[j].id {
      assert ps[i].id == s.players[i].id && ps[j].id == s.players[j].id;
    }
    BalanceIsZeroSum(ps, mode);
  }

  // ---------------------------------------------------------------------------
  // markDebtSettled

  /** `markDebtSettled` fails exactly when no debt has the id; when the amount
      it would settle is not positive it returns the session as it is; else it
      raises that debt's settled amount by that amount, flags it settled when it
      reaches the debt's amount, leaves every other debt alone and appends one
      transfer of that amount from the debtor to the creditor. */
  lemma MarkDebtSettledFacts(s: PokerSession, request: ManualSettleRequest, transferId: Id, now: int)
    ensures var r := DebtMarked(s, request, transferId, now);
      (r.Err? <==> forall j :: 0 <= j < |s.debts| ==> s.debts[j].id != request.debtId)
      && (r.Err? ==> r.error == IllegalArgument(DebtNotFound(request.debtId)))
      && (r.Ok? ==>
            var k := FindIndex(s.debts, (d: Debt) => d.id == request.debtId);
            var d := s.debts[k];
            var actual := Min(request.settledAmount, d.amount - d.settledAmount);
            d.id == request.debtId && (forall j :: 0 <= j < k ==> s.debts[j].id != request.debtId)
            && (actual <= 0 ==> r.value == s)
            && (actual > 0 ==>
                  var t := r.value;
                  |t.debts| == |s.debts|
                  && t.debts[k].settledAmount == d.settledAmount + actual
                  && (t.debts[k].settled <==> t.debts[k].settledAmount >= d.amount)
                  && t.debts[k].(settledAmount := d.settledAmount, settled := d.settled) == d
                  && (forall j :: 0 <= j < |s.debts| && j != k ==> t.debts[j] == s.debts[j])
                  && t.transfers == s.transfers + [DirectTransfer(transferId, d.fromPlayerId, d.toPlayerId, actual, now, Some(SettlementTransferNote))]
                  && t == s.(debts := t.debts, transfers := t.transfers)))
  {
  }

  /** The settled amount never passes the debt's amount: it reaches it at
      most, and a debt is settled exactly when it does. */
  lemma MarkDebtSettledKeepsWellFormed(s: PokerSession, request: ManualSettleRequest, transferId: Id, now: int)
    requires WellFormed(s)
    requires DebtMarked(s, request, transferId, now).Ok?
    ensures WellFormed(DebtMarked(s, request, transferId, now).value)
  {
    var t := DebtMarked(s, request, transferId, now).value;
    var k := FindIndex(s.debts, (d: Debt) => d.id == request.debtId);
    var d := s.debts[k];
    if SettleAmount(d, request.settledAmount) > 0 {
      assert DebtWellFormed(d);
      forall j | 0 <= j < |t.debts| ensures DebtWellFormed(t.debts[j]) {
        if j != k {
          assert t.debts[j] == s.debts[j];
        }
      }
      forall j | 0 <= j < |t.transfers| ensures t.transfers[j].amount > 0 && t.transfers[j].fromPlayerId != t.transfers[j].toPlayerId {
        if j < |s.transfers| {
          assert t.transfers[j] == s.transfers[j];
        }
      }
    }
  }

  /** The recorded payment is netted out by the next settlement: the debtor's
      adjusted balance rises by the paid amount, the creditor's falls by it,
      and every other player's is unchanged. */
  lemma SettlementTransferNetsOut(s: PokerSession, request: ManualSettleRequest, transferId: Id, now: int,
                                  players: seq<Player>, id: Id)
    requires WellFormed(s)
    requires DebtMarked(s, request, transferId, now).Ok?
    ensures var t := DebtMarked(s, request, transferId, now).value;
      var k := FindIndex(s.debts, (d: Debt) => d.id == request.debtId);
      var d := s.debts[k];
      var paid := if t == s then 0 else SettleAmount(d, request.settledAmount);
      ValidTransfers(t.transfers)
      && GetOrZero(AdjustedBalances(players, t.transfers), id)
         == GetOrZero(AdjustedBalances(players, s.transfers), id)
            + (if id == d.fromPlayerId then paid else 0) - (if id == d.toPlayerId then paid else 0)
  {
    var t := DebtMarked(s, request, transferId, now).value;
    MarkDebtSettledKeepsWellFormed(s, request, transferId, now);
    AdjustedBalanceAt(players, s.transfers, id);
    AdjustedBalanceAt(players, t.transfers, id);
    if t.transfers != s.transfers {
      assert t.transfers[..|t.transfers| - 1] == s.transfers;
    }
  }

  // ---------------------------------------------------------------------------
  // reopenSession

  /** `reopenSession` refuses a session that is not SETTLED; otherwise it makes
      the session ACTIVE without a settlement time or debts and zeroes every
      player's cash-out and net, keeping buy-ins, transfers and logs. */
  lemma ReopenFacts(s: PokerSession)
    ensures var r := Reopened(s);
      (r.Err? <==> s.status != SETTLED)
      && (r.Err? ==> r.error == IllegalState(SessionNotSettled))
      && (r.Ok? ==>
            var t := r.value;
            t.status == ACTIVE && t.settledAt == None && t.debts == []
            && t.transfers == s.transfers && t.logs == s.logs
            && t.id == s.id && t.numericId == s.numericId && t.stakes == s.stakes && t.createdAt == s.createdAt
            && |t.players| == |s.players|
            && forall i :: 0 <= i < |s.players| ==>
                 t.players[i].cashOut == 0 && t.players[i].net == 0
                 && t.players[i] == s.players[i].(cashOut := 0, net := 0))
  {
  }

  /** `reopenSession` keeps the store invariant. */
  lemma ReopenKeepsWellFormed(s: PokerSession)
    requires WellFormed(s)
    requires Reopened(s).Ok?
    ensures WellFormed(Reopened(s).value)
  {
    var t := Reopened(s).value;
    forall i, j | 0 <= i < j < |t.players| ensures t.players[i].id != t.players[j].id {
      assert t.players[i].id == s.players[i].id && t.players[j].id == s.players[j].id;
    }
  }

  /** Reopening a session right after settling it gives back the session as it
      was before `settle`. */
  lemma ReopenUndoesSettle(s: PokerSession, request: SettleRequest, ids: nat -> Id, now: int)
    requires WellFormed(s)
    requires SettleOutcome(s, request, ids, now).Ok?
    ensures Reopened(SettleOutcome(s, request, ids, now).value) == Ok(s)
  {
    var t := SettleOutcome(s, request, ids, now).value;
    SettleSucceeds(s, request, ids, now);
    var back := Reopened(t).value;
    assert back.players == s.players by {
      forall i | 0 <= i < |s.players| ensures back.players[i] == s.players[i] {
        assert back.players[i] == t.players[i].(cashOut := 0, net := 0);
      }
    }
  }

  // ---------------------------------------------------------------------------
  // calculateDiff

  /** The ids of the players, as a set. */
  ghost function IdSet(ps: seq<Player>): set<Id> {
    set i | 0 <= i < |ps| :: ps[i].id
  }

  lemma IdSetInit(ps: seq<Player>)
    requires |ps| > 0 && DistinctPlayerIds(ps)
    ensures ps[|ps| - 1].id in IdSet(ps)
    ensures IdSet(ps[..|ps| - 1]) == IdSet(ps) - {ps[|ps| - 1].id}
  {
    var init, p := ps[..|ps| - 1], ps[|ps| - 1];
    forall x | x in IdSet(ps) - {p.id} ensures x in IdSet(init) {
      var i :| 0 <= i < |ps| && ps[i].id == x;
      assert init[i].id == x;
    }
    forall x | x in IdSet(init) ensures x in IdSet(ps) - {p.id} {
      var i :| 0 <= i < |init| && init[i].id == x;
      assert ps[i].id == x;
    }
  }

  /** The map's value for each player, in player order. */
  function PlayerValues(ps: seq<Player>, m: map<Id, int>): seq<int>
    requires forall i :: 0 <= i < |ps| ==> ps[i].id in m
  {
    seq(|ps|, i requires 0 <= i < |ps| => m[ps[i].id])
  }

  /** Cash-outs recorded from a map keyed by every player id. */
  lemma RecordedCashOuts(ps: seq<Player>, m: map<Id, int>)
    requires m.Keys == IdSet(ps)
    ensures forall i :: 0 <= i < |ps| ==> ps[i].id in m
    ensures RecordCashOuts(ps, m).Ok?
    ensures CashOuts(RecordCashOuts(ps, m).value) == PlayerValues(ps, m)
  {
    forall i | 0 <= i < |ps| ensures ps[i].id in m {
      assert ps[i].id in IdSet(ps);
    }
  }

  lemma PlayerValuesInit(ps: seq<Player>, m: map<Id, int>)
    requires |ps| > 0 && DistinctPlayerIds(ps)
    requires forall i :: 0 <= i < |ps| ==> ps[i].id in m
    ensures var init, last := ps[..|ps| - 1], ps[|ps| - 1].id;
      (forall i :: 0 <= i < |init| ==> init[i].id in m - {last})
      && PlayerValues(ps, m)[..|ps| - 1] == PlayerValues(init, m - {last})
  {
    var init, last := ps[..|ps| - 1], ps[|ps| - 1].id;
    forall i | 0 <= i < |init| ensures init[i].id in m - {last} && init[i].id != last {
      assert init[i].id == ps[i].id;
    }
  }

  /** Summing a map keyed by exactly the (distinct) player ids adds up one
      value per player, in player order. */
  lemma {:induction false} SumValuesOverPlayers(ps: seq<Player>, m: map<Id, int>)
    requires DistinctPlayerIds(ps) && m.Keys == IdSet(ps)
    ensures forall i :: 0 <= i < |ps| ==> ps[i].id in m
    ensures SumValues(m) == Sum(PlayerValues(ps, m))
  {
    RecordedCashOuts(ps, m);
    if |ps| == 0 {
      assert m.Keys == {};
      assert |m| == 0;
    } else {
      var init, p := ps[..|ps| - 1], ps[|ps| - 1];
      IdSetInit(ps);
      assert DistinctPlayerIds(init);
      SumValuesOverPlayers(init, m - {p.id});
      SumValuesRemove(m, p.id);
      PlayerValuesInit(ps, m);
    }
  }

  /** When the cash-outs are keyed by exactly the players' ids, the diff shown
      while entering them is the diff `settle` balances. */
  lemma CalculateDiffMatchesSettle(s: PokerSession, cashOuts: map<Id, int>)
    requires DistinctPlayerIds(s.players) && cashOuts.Keys == IdSet(s.players)
    ensures RecordCashOuts(s.players, cashOuts).Ok?
    ensures CalculateDiff(s, cashOuts) == Diff(RecordCashOuts(s.players, cashOuts).value)
  {
    var r := RecordCashOuts(s.players, cashOuts).value;
    RecordedCashOuts(s.players, cashOuts);
    SumValuesOverPlayers(s.players, cashOuts);
    assert BuyIns(r) == BuyIns(s.players);
  }
}
