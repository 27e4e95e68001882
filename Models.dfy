/** Data model of a poker session: players, ledger entries, direct transfers,
    debts, the session document and the request/response records, with the
    defaults the Kotlin data classes give their fields. Amounts are integers in
    minor currency units (Kotlin's `Long`, unbounded here). */
module Models {

  /** Player, transfer, debt and log identifiers (hex ObjectId strings in the Kotlin backend). */
  type Id = string

  datatype Option<+T> = None | Some(value: T)

  /** Why an operation was refused. */
  datatype Reason =
    | SessionNotFound
    | SessionNotActive
    | SessionNotSettled
    | MissingCashOut(playerName: string)
    | PlayerNotFound(playerId: Id)
    | FromPlayerNotFound(fromId: Id)
    | ToPlayerNotFound(toId: Id)
    | SelfTransfer
    | NonPositiveAmount
    | TransferNotFound(transferId: Id)
    | DebtNotFound(debtId: Id)
    | NoPlayers
    | RemainderMismatch(expected: int, got: int)
    | IdsExhausted

  /** The backend's failure channels: `IllegalArgumentException` (HTTP 400),
      `IllegalStateException` (HTTP 409), a `null` result (HTTP 404) and an
      insert failure that is not a duplicate key, which is rethrown. */
  datatype Error =
    | IllegalArgument(reason: Reason)
    | IllegalState(reason: Reason)
    | NotFound
    | StoreFailure

  datatype Result<+T> = Ok(value: T) | Err(error: Error)

  datatype SessionStatus = ACTIVE | SETTLED

  datatype TransactionType = BUY_IN | REBUY | MANUAL_TRANSFER | CASH_OUT

  datatype BalanceMode = MAX_WINNER | PROPORTIONAL

  datatype Player = Player(id: Id, name: string, buyIn: int, cashOut: int, net: int, userId: Option<Id>)

  datatype TransactionLog = TransactionLog(id: Id, playerId: Id, kind: TransactionType, amount: int, timestamp: int, note: Option<string>)

  datatype Debt = Debt(id: Id, fromPlayerId: Id, toPlayerId: Id, amount: int, settled: bool, settledAmount: int)

  datatype DirectTransfer = DirectTransfer(id: Id, fromPlayerId: Id, toPlayerId: Id, amount: int, timestamp: int, note: Option<string>)

  /** One stored session document. */
  datatype PokerSession = PokerSession(
    id: Id,
    numericId: string,
    status: SessionStatus,
    stakes: string,
    players: seq<Player>,
    logs: seq<TransactionLog>,
    transfers: seq<DirectTransfer>,
    debts: seq<Debt>,
    createdAt: int,
    settledAt: Option<int>)

  datatype SettleRequest = SettleRequest(cashOuts: map<Id, int>, balanceMode: BalanceMode)

  datatype AddPlayerRequest = AddPlayerRequest(name: string, initialBuyIn: int, userId: Option<Id>)

  datatype RebuyRequest = RebuyRequest(playerId: Id, amount: int)

  datatype ManualSettleRequest = ManualSettleRequest(debtId: Id, settledAmount: int)

  datatype AddTransferRequest = AddTransferRequest(fromPlayerId: Id, toPlayerId: Id, amount: int, note: Option<string>)

  datatype SessionSummary = SessionSummary(numericId: string, stakes: string, net: int, settledAt: int)

  datatype UserStats = UserStats(userId: Id, totalNet: int, sessionCount: nat, sessions: seq<SessionSummary>)

  /** `Player(id, name)` with every defaulted field left at its default. */
  function NewPlayer(id: Id, name: string): (p: Player)
    ensures p.id == id && p.name == name
    ensures p.buyIn == 0 && p.cashOut == 0 && p.net == 0 && p.userId == None
  {
    Player(id, name, 0, 0, 0, None)
  }

  /** `Debt(id, from, to, amount)`: not settled, nothing paid yet. */
  function NewDebt(id: Id, from: Id, to: Id, amount: int): (d: Debt)
    ensures d.id == id && d.fromPlayerId == from && d.toPlayerId == to && d.amount == amount
    ensures !d.settled && d.settledAmount == 0
  {
    Debt(id, from, to, amount, false, 0)
  }

  /** `PokerSession(numericId, stakes)`; the ObjectId and the creation clock are parameters. */
  function NewSession(id: Id, numericId: string, stakes: string, createdAt: int): (s: PokerSession)
    ensures s.id == id && s.numericId == numericId && s.stakes == stakes && s.createdAt == createdAt
    ensures s.status == ACTIVE && s.settledAt == None
    ensures s.players == [] && s.logs == [] && s.transfers == [] && s.debts == []
  {
    PokerSession(id, numericId, ACTIVE, stakes, [], [], [], [], createdAt, None)
  }

  /** `SettleRequest(cashOuts)` with the default balance mode. */
  function NewSettleRequest(cashOuts: map<Id, int>): (r: SettleRequest)
    ensures r.cashOuts == cashOuts && r.balanceMode == MAX_WINNER
  {
    SettleRequest(cashOuts, MAX_WINNER)
  }

  /** Declaration index of an enum constant (Kotlin's `ordinal`). */
  function StatusOrdinal(s: SessionStatus): nat {
    match s
    case ACTIVE => 0
    case SETTLED => 1
  }

  function ModeOrdinal(m: BalanceMode): nat {
    match m
    case MAX_WINNER => 0
    case PROPORTIONAL => 1
  }

  function TypeOrdinal(t: TransactionType): nat {
    match t
    case BUY_IN => 0
    case REBUY => 1
    case MANUAL_TRANSFER => 2
    case CASH_OUT => 3
  }

  /** `SessionStatus.values()`: exactly the two statuses, in declaration order. */
  function SessionStatusValues(): (r: seq<SessionStatus>)
    ensures |r| == 2 && r[0] == ACTIVE && r[1] == SETTLED
    ensures forall s: SessionStatus :: StatusOrdinal(s) < |r| && r[StatusOrdinal(s)] == s
  {
    [ACTIVE, SETTLED]
  }

  /** `BalanceMode.values()`: exactly the two modes, in declaration order. */
  function BalanceModeValues(): (r: seq<BalanceMode>)
    ensures |r| == 2 && r[0] == MAX_WINNER && r[1] == PROPORTIONAL
    ensures forall m: BalanceMode :: ModeOrdinal(m) < |r| && r[ModeOrdinal(m)] == m
  {
    [MAX_WINNER, PROPORTIONAL]
  }

  /** `TransactionType.values()`: the four ledger entry kinds. */
  function TransactionTypeValues(): (r: seq<TransactionType>)
    ensures |r| == 4 && r[0] == BUY_IN && r[1] == REBUY && r[2] == MANUAL_TRANSFER && r[3] == CASH_OUT
    ensures forall t: TransactionType :: TypeOrdinal(t) < |r| && r[TypeOrdinal(t)] == t
  {
    [BUY_IN, REBUY, MANUAL_TRANSFER, CASH_OUT]
  }

  /** No two players share an id (ObjectIds are unique). */
  ghost predicate DistinctPlayerIds(ps: seq<Player>) {
    forall i, j :: 0 <= i < j < |ps| ==> ps[i].id != ps[j].id
  }

  /** The ids of a player list, in order. */
  function PlayerIds(ps: seq<Player>): (r: seq<Id>)
    ensures |r| == |ps| && forall i :: 0 <= i < |ps| ==> r[i] == ps[i].id
  {
    seq(|ps|, i requires 0 <= i < |ps| => ps[i].id)
  }
}
