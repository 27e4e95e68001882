/** The stored session document, held in memory. The services read it through
    `Snapshot()` (the backend's `getSession`) and write it field by field, one
    assignment or list append per store update. `WellFormed` is the invariant
    every service write keeps. */
module Store {
  import opened Models
  import opened TransferFacts

  /** One document of the sessions collection. */
  class Session {
    var id: Id
    var numericId: string
    var status: SessionStatus
    var stakes: string
    var players: seq<Player>
    var logs: seq<TransactionLog>
    var transfers: seq<DirectTransfer>
    var debts: seq<Debt>
    var createdAt: int
    var settledAt: Option<int>

    /** `insertOne(doc)`: the stored copy of a session value. */
    constructor (doc: PokerSession)
      ensures Snapshot() == doc
    {
      id, numericId, status, stakes := doc.id, doc.numericId, doc.status, doc.stakes;
      players, logs, transfers, debts := doc.players, doc.logs, doc.transfers, doc.debts;
      createdAt, settledAt := doc.createdAt, doc.settledAt;
    }

    /** `getSession(numericId)`: the document as it is stored now. */
    function Snapshot(): (s: PokerSession)
      reads this
      ensures s.status == status && s.players == players && s.logs == logs
      ensures s.transfers == transfers && s.debts == debts && s.settledAt == settledAt
      ensures s.id == id && s.numericId == numericId && s.stakes == stakes && s.createdAt == createdAt
    {
      PokerSession(id, numericId, status, stakes, players, logs, transfers, debts, createdAt, settledAt)
    }
  }

  /** A debt as settlement emits it and `markDebtSettled` keeps it: positive,
      between two different players, partly paid at most, and flagged settled
      exactly when fully paid. */
  ghost predicate DebtWellFormed(d: Debt) {
    d.amount > 0 && d.fromPlayerId != d.toPlayerId
    && 0 <= d.settledAmount <= d.amount && (d.settled <==> d.settledAmount == d.amount)
  }

  /** The invariant of a stored session:
      - it carries a settlement time exactly when it is SETTLED;
      - while ACTIVE it has no debts and every player's cash-out and net are 0;
      - player ids are unique and every transfer is positive between two players;
      - every debt is well formed. */
  ghost predicate WellFormed(s: PokerSession) {
    (s.status == SETTLED <==> s.settledAt.Some?)
    && (s.status == ACTIVE ==> s.debts == [] && forall i :: 0 <= i < |s.players| ==> s.players[i].cashOut == 0 && s.players[i].net == 0)
    && DistinctPlayerIds(s.players)
    && ValidTransfers(s.transfers)
    && forall j :: 0 <= j < |s.debts| ==> DebtWellFormed(s.debts[j])
  }
}
