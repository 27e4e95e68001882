/** The session side of the lifecycle (`SessionService`): creating a session
    under a fresh six-digit numeric id, adding players, rebuys, adding and
    removing direct transfers, and the per-user statistics over settled
    sessions. Each store-writing operation is a method on the stored `Session`
    (null when `getSession` finds nothing, which the Kotlin service reports as a `null`
    result), proved equal to a transition function on session values. Random
    draws, `ObjectId()`, the clock and the database's insert result are
    parameters. */
module SessionService {
  import opened Models
  import opened Seqs
  import opened Sorting
  import opened Balancer
  import opened TransferFacts
  import opened Store

  const NUMERIC_ID_LENGTH: nat := 6
  const MAX_RETRY_ATTEMPTS: nat := 10
  const MIN_NUMERIC_ID: nat := 100000
  const MAX_NUMERIC_ID: nat := 999999

  // ---------------------------------------------------------------------------
  // Numeric ids

  predicate IsDigit(c: char) {
    '0' <= c <= '9'
  }

  function DigitChar(d: nat): (c: char)
    requires d < 10
    ensures IsDigit(c) && c as int - '0' as int == d
  {
    "0123456789"[d]
  }

  /** `Int.toString()` of a non-negative number: its decimal digits, most
      significant first, without leading zeros. */
  function DecimalString(n: nat): (s: string)
    ensures |s| > 0 && forall i :: 0 <= i < |s| ==> IsDigit(s[i])
  {
    if n < 10 then [DigitChar(n)] else DecimalString(n / 10) + [DigitChar(n % 10)]
  }

  function DigitValue(c: char): nat
    requires IsDigit(c)
  {
    c as int - '0' as int
  }

  /** `String.toInt()` of a string of digits. */
  function ParseDecimal(s: string): nat
    requires forall i :: 0 <= i < |s| ==> IsDigit(s[i])
  {
    if |s| == 0 then 0 else 10 * ParseDecimal(s[..|s| - 1]) + DigitValue(s[|s| - 1])
  }

  /** `Random.nextInt(MIN_NUMERIC_ID, MAX_NUMERIC_ID + 1)`, the random draw
      given as a seed. */
  function NumericIdValue(seed: nat): nat {
    MIN_NUMERIC_ID + seed % (MAX_NUMERIC_ID - MIN_NUMERIC_ID + 1)
  }

  /** `generateNumericId`: every generated id has six characters, the first
      of them not a zero (see `NumericIdShape` for the digits and the range). */
  function GenerateNumericId(seed: nat): (s: string)
    ensures |s| == NUMERIC_ID_LENGTH && s[0] != '0'
  {
    var n := NumericIdValue(seed);
    assert Power10(5) == 100000;
    DecimalLength(n, 5, 100000);
    DecimalString(n)
  }

  /** Printing then parsing gives the number back. */
  lemma {:induction false} DecimalRoundTrip(n: nat)
    ensures ParseDecimal(DecimalString(n)) == n
  {
    if n >= 10 {
      DecimalRoundTrip(n / 10);
      var s := DecimalString(n);
      assert s[..|s| - 1] == DecimalString(n / 10);
    }
  }

  /** A number with `k + 1` digits prints as `k + 1` characters, none of them a
      leading zero. */
  lemma {:induction false} DecimalLength(n: nat, k: nat, low: nat)
    requires low == Power10(k) && low <= n < 10 * low
    ensures |DecimalString(n)| == k + 1 && DecimalString(n)[0] != '0'
  {
    if k == 0 {
      assert n < 10;
    } else {
      assert low == 10 * Power10(k - 1);
      DecimalLength(n / 10, k - 1, Power10(k - 1));
    }
  }

  function Power10(k: nat): (p: nat)
    ensures p > 0
  {
    if k == 0 then 1 else 10 * Power10(k - 1)
  }

  /** Every generated id is all digits, and reads back as a number in
      `[MIN_NUMERIC_ID, MAX_NUMERIC_ID]`. */
  lemma NumericIdShape(seed: nat)
    ensures var s := GenerateNumericId(seed);
      (forall i :: 0 <= i < |s| ==> IsDigit(s[i])) && MIN_NUMERIC_ID <= ParseDecimal(s) <= MAX_NUMERIC_ID
  {
    DecimalRoundTrip(NumericIdValue(seed));
  }

  /** Every id of the range can be drawn. */
  lemma NumericIdCoversRange(n: nat)
    requires MIN_NUMERIC_ID <= n <= MAX_NUMERIC_ID
    ensures NumericIdValue(n - MIN_NUMERIC_ID) == n
  {
  }

  // ---------------------------------------------------------------------------
  // createSession

  datatype InsertOutcome = Inserted | DuplicateKey | OtherFailure

  /** `insertOne` against the unique index on `numericId`: `failed` stands for
      a store error other than a duplicate key. */
  function Insert(numericId: string, taken: set<string>, failed: bool): InsertOutcome {
    if failed then OtherFailure
    else if numericId in taken then DuplicateKey
    else Inserted
  }

  /** The candidate session of attempt number `attempt` (counted from 1). */
  function Candidate(stakes: string, seeds: nat -> nat, docIds: nat -> Id, clock: nat -> int, attempt: nat): PokerSession {
    NewSession(docIds(attempt), GenerateNumericId(seeds(attempt)), stakes, clock(attempt))
  }

  /** The outcome of `createSession` from attempt `attempt` on: retry on a
      duplicate key, rethrow any other failure, give up after the last attempt. */
  function CreateFrom(stakes: string, seeds: nat -> nat, docIds: nat -> Id, clock: nat -> int,
                      taken: set<string>, failures: nat -> bool, attempt: nat): (r: Result<PokerSession>)
    ensures r.Ok? ==>
      r.value.numericId !in taken && r.value.stakes == stakes && r.value.status == ACTIVE
      && r.value.players == [] && r.value.transfers == [] && r.value.debts == []
    ensures r.Err? ==> r.error == StoreFailure || r.error == IllegalState(IdsExhausted)
    decreases MAX_RETRY_ATTEMPTS + 1 - attempt
  {
    if attempt > MAX_RETRY_ATTEMPTS then Err(IllegalState(IdsExhausted))
    else
      var session := Candidate(stakes, seeds, docIds, clock, attempt);
      match Insert(session.numericId, taken, failures(attempt))
      case Inserted => Ok(session)
      case DuplicateKey => CreateFrom(stakes, seeds, docIds, clock, taken, failures, attempt + 1)
      case OtherFailure => Err(StoreFailure)
  }

  /** `createSession`: `seeds`, `docIds` and `clock` give the random draw, the
      ObjectId and the creation time of each attempt, `taken` the numeric ids
      already stored and `failures` the attempts whose insert fails otherwise. */
  method CreateSession(stakes: string, seeds: nat -> nat, docIds: nat -> Id, clock: nat -> int,
                       taken: set<string>, failures: nat -> bool)
    returns (r: Result<PokerSession>, stored: Session?)
    ensures r == CreateFrom(stakes, seeds, docIds, clock, taken, failures, 1)
    ensures r.Ok? ==> stored != null && fresh(stored) && stored.Snapshot() == r.value
    ensures r.Ok? ==> WellFormed(stored.Snapshot())
  {
    var attempts := 0;
    while attempts < MAX_RETRY_ATTEMPTS
      invariant 0 <= attempts <= MAX_RETRY_ATTEMPTS
      invariant CreateFrom(stakes, seeds, docIds, clock, taken, failures, 1)
             == CreateFrom(stakes, seeds, docIds, clock, taken, failures, attempts + 1)
      decreases MAX_RETRY_ATTEMPTS - attempts
    {
      attempts := attempts + 1;
      var numericId := GenerateNumericId(seeds(attempts));
      var session := NewSession(docIds(attempts), numericId, stakes, clock(attempts));
      var outcome := Insert(numericId, taken, failures(attempts));
      if outcome == Inserted {
        stored := new Session(session);
        CreateSucceeds(stakes, seeds, docIds, clock, taken, failures);
        return Ok(session), stored;
      } else if outcome == OtherFailure {
        return Err(StoreFailure), null;
      }
    }
    r, stored := Err(IllegalState(IdsExhausted)), null;
  }

  /** Attempt `a` draws a numeric id that is already stored, and its insert
      fails for no other reason. */
  predicate Collides(seeds: nat -> nat, taken: set<string>, failures: nat -> bool, a: nat) {
    !failures(a) && GenerateNumericId(seeds(a)) in taken
  }

  /** The first attempt from `attempt` on that does not collide, or
      `MAX_RETRY_ATTEMPTS + 1` when every remaining attempt does. */
  function FirstFreeAttempt(seeds: nat -> nat, taken: set<string>, failures: nat -> bool, attempt: nat): (a: nat)
    requires attempt <= MAX_RETRY_ATTEMPTS + 1
    ensures attempt <= a <= MAX_RETRY_ATTEMPTS + 1
    ensures forall b :: attempt <= b < a ==> Collides(seeds, taken, failures, b)
    ensures a <= MAX_RETRY_ATTEMPTS ==> !Collides(seeds, taken, failures, a)
    decreases MAX_RETRY_ATTEMPTS + 1 - attempt
  {
    if attempt > MAX_RETRY_ATTEMPTS || !Collides(seeds, taken, failures, attempt) then attempt
    else FirstFreeAttempt(seeds, taken, failures, attempt + 1)
  }

  /** The retry loop stops at the first attempt that does not collide: it
      stores that attempt's candidate unless its insert fails otherwise, and
      gives up when all ten collide. */
  lemma {:induction false} CreateFromFirstFree(stakes: string, seeds: nat -> nat, docIds: nat -> Id, clock: nat -> int,
                                               taken: set<string>, failures: nat -> bool, attempt: nat)
    requires attempt <= MAX_RETRY_ATTEMPTS + 1
    ensures var a := FirstFreeAttempt(seeds, taken, failures, attempt);
      CreateFrom(stakes, seeds, docIds, clock, taken, failures, attempt)
      == if a > MAX_RETRY_ATTEMPTS then Err(IllegalState(IdsExhausted))
         else if failures(a) then Err(StoreFailure)
         else Ok(Candidate(stakes, seeds, docIds, clock, a))
    decreases MAX_RETRY_ATTEMPTS + 1 - attempt
  {
    if attempt <= MAX_RETRY_ATTEMPTS && Collides(seeds, taken, failures, attempt) {
      CreateFromFirstFree(stakes, seeds, docIds, clock, taken, failures, attempt + 1);
    }
  }

  /** A created session is a new ACTIVE session under a six-digit numeric id
      that was not stored before, made by one of the ten attempts after every
      earlier attempt collided. */
  lemma CreateSucceeds(stakes: string, seeds: nat -> nat, docIds: nat -> Id, clock: nat -> int,
                       taken: set<string>, failures: nat -> bool)
    requires CreateFrom(stakes, seeds, docIds, clock, taken, failures, 1).Ok?
    ensures var s := CreateFrom(stakes, seeds, docIds, clock, taken, failures, 1).value;
      var a := FirstFreeAttempt(seeds, taken, failures, 1);
      1 <= a <= MAX_RETRY_ATTEMPTS && s == Candidate(stakes, seeds, docIds, clock, a)
      && (forall b :: 1 <= b < a ==> Collides(seeds, taken, failures, b))
      && s.numericId !in taken && |s.numericId| == NUMERIC_ID_LENGTH
      && s.status == ACTIVE && s.stakes == stakes && s.settledAt == None
      && s.players == [] && s.transfers == [] && s.debts == []
      && WellFormed(s)
  {
    CreateFromFirstFree(stakes, seeds, docIds, clock, taken, failures, 1);
  }

  /** `createSession` gives up with `IllegalState` exactly when all ten
      attempts collide, and rethrows a store failure exactly when the first
      attempt that does not collide fails. */
  lemma CreateFailures(stakes: string, seeds: nat -> nat, docIds: nat -> Id, clock: nat -> int,
                       taken: set<string>, failures: nat -> bool)
    ensures var r := CreateFrom(stakes, seeds, docIds, clock, taken, failures, 1);
      var a := FirstFreeAttempt(seeds, taken, failures, 1);
      (r == Err(IllegalState(IdsExhausted)) <==>
         forall b :: 1 <= b <= MAX_RETRY_ATTEMPTS ==> Collides(seeds, taken, failures, b))
      && (r == Err(StoreFailure) <==> a <= MAX_RETRY_ATTEMPTS && failures(a))
  {
    CreateFromFirstFree(stakes, seeds, docIds, clock, taken, failures, 1);
  }

  /** One attempt of `createSession`. */
  lemma CreateFromUnfold(stakes: string, seeds: nat -> nat, docIds: nat -> Id, clock: nat -> int,
                         taken: set<string>, failures: nat -> bool, attempt: nat)
    requires attempt <= MAX_RETRY_ATTEMPTS
    ensures var c := Candidate(stakes, seeds, docIds, clock, attempt);
      CreateFrom(stakes, seeds, docIds, clock, taken, failures, attempt)
      == match Insert(c.numericId, taken, failures(attempt))
         case Inserted => Ok(c)
         case DuplicateKey => CreateFrom(stakes, seeds, docIds, clock, taken, failures, attempt + 1)
         case OtherFailure => Err(StoreFailure)
  {
  }

  /** At most ten inserts are attempted: the outcome depends on nothing the
      oracles say about later attempts. */
  lemma {:induction false} CreateTriesAtMostTen(stakes: string, seeds: nat -> nat, seeds': nat -> nat,
                                                docIds: nat -> Id, docIds': nat -> Id, clock: nat -> int, clock': nat -> int,
                                                taken: set<string>, failures: nat -> bool, failures': nat -> bool, attempt: nat)
    requires forall a :: 1 <= a <= MAX_RETRY_ATTEMPTS ==>
      seeds(a) == seeds'(a) && docIds(a) == docIds'(a) && clock(a) == clock'(a) && failures(a) == failures'(a)
    requires 1 <= attempt
    ensures CreateFrom(stakes, seeds, docIds, clock, taken, failures, attempt)
         == CreateFrom(stakes, seeds', docIds', clock', taken, failures', attempt)
    decreases MAX_RETRY_ATTEMPTS + 1 - attempt
  {
    if attempt <= MAX_RETRY_ATTEMPTS {
      CreateTriesAtMostTen(stakes, seeds, seeds', docIds, docIds', clock, clock', taken, failures, failures', attempt + 1);
      assert seeds(attempt) == seeds'(attempt) && docIds(attempt) == docIds'(attempt)
        && clock(attempt) == clock'(attempt) && failures(attempt) == failures'(attempt);
      var c := Candidate(stakes, seeds, docIds, clock, attempt);
      assert c == Candidate(stakes, seeds', docIds', clock', attempt);
      var outcome := Insert(c.numericId, taken, failures(attempt));
      assert outcome == Insert(c.numericId, taken, failures'(attempt));
      CreateFromUnfold(stakes, seeds, docIds, clock, taken, failures, attempt);
      CreateFromUnfold(stakes, seeds', docIds', clock', taken, failures', attempt);
    }
  }

  // ---------------------------------------------------------------------------
  // Transitions

  /** `addPlayer` on a stored session value. */
  function PlayerAdded(s: PokerSession, request: AddPlayerRequest, playerId: Id, logId: Id, now: int): (r: Result<PokerSession>)
    ensures r.Ok? <==> s.status == ACTIVE
    ensures r.Ok? ==>
      |r.value.players| == |s.players| + 1 && r.value.players[..|s.players|] == s.players
      && r.value.players[|s.players|].id == playerId && r.value.players[|s.players|].buyIn == request.initialBuyIn
      && |r.value.logs| == |s.logs| + 1 && r.value.transfers == s.transfers
  {
    if s.status != ACTIVE then Err(IllegalState(SessionNotActive))
    else
      Ok(s.(players := s.players + [NewPlayer(playerId, request.name).(buyIn := request.initialBuyIn, userId := request.userId)],
            logs := s.logs + [TransactionLog(logId, playerId, BUY_IN, request.initialBuyIn, now, None)]))
  }

  /** `rebuy` on a stored session value: the first player with the id gets the
      extra buy-in. */
  function Rebought(s: PokerSession, request: RebuyRequest, logId: Id, now: int): (r: Result<PokerSession>)
    ensures r.Ok? <==> s.status == ACTIVE && HasPlayer(s.players, request.playerId)
    ensures r.Ok? ==>
      |r.value.players| == |s.players|
      && (forall i :: 0 <= i < |s.players| ==> r.value.players[i].id == s.players[i].id)
      && |r.value.logs| == |s.logs| + 1 && r.value.transfers == s.transfers
  {
    if s.status != ACTIVE then Err(IllegalState(SessionNotActive))
    else
      var k := FindIndex(s.players, (p: Player) => p.id == request.playerId);
      if k == |s.players| then Err(IllegalArgument(PlayerNotFound(request.playerId)))
      else
        Ok(s.(players := s.players[k := s.players[k].(buyIn := s.players[k].buyIn + request.amount)],
              logs := s.logs + [TransactionLog(logId, request.playerId, REBUY, request.amount, now, None)]))
  }

  /** Some player has this id. */
  predicate HasPlayer(ps: seq<Player>, id: Id) {
    FindIndex(ps, (p: Player) => p.id == id) < |ps|
  }

  /** `addTransfer` on a stored session value, with its checks in order. */
  function TransferAdded(s: PokerSession, request: AddTransferRequest, transferId: Id, now: int): (r: Result<PokerSession>)
    ensures r.Ok? ==>
      var t := r.value.transfers;
      r.value.players == s.players && |t| == |s.transfers| + 1 && t[..|s.transfers|] == s.transfers
      && t[|s.transfers|].amount > 0 && t[|s.transfers|].fromPlayerId != t[|s.transfers|].toPlayerId
      && HasPlayer(s.players, t[|s.transfers|].fromPlayerId) && HasPlayer(s.players, t[|s.transfers|].toPlayerId)
  {
    if s.status != ACTIVE then Err(IllegalState(SessionNotActive))
    else if !HasPlayer(s.players, request.fromPlayerId) then Err(IllegalArgument(FromPlayerNotFound(request.fromPlayerId)))
    else if !HasPlayer(s.players, request.toPlayerId) then Err(IllegalArgument(ToPlayerNotFound(request.toPlayerId)))
    else if request.fromPlayerId == request.toPlayerId then Err(IllegalArgument(SelfTransfer))
    else if request.amount <= 0 then Err(IllegalArgument(NonPositiveAmount))
    else
      Ok(s.(transfers := s.transfers + [DirectTransfer(transferId, request.fromPlayerId, request.toPlayerId, request.amount, now, request.note)]))
  }

  /** `Updates.pull("transfers", eq("id", transferId))`: every transfer with
      the id goes. */
  function WithoutTransfer(ts: seq<DirectTransfer>, transferId: Id): seq<DirectTransfer> {
    if |ts| == 0 then []
    else (if ts[0].id == transferId then [] else [ts[0]]) + WithoutTransfer(ts[1..], transferId)
  }

  /** `removeTransfer` on a stored session value. */
  function TransferRemoved(s: PokerSession, transferId: Id): (r: Result<PokerSession>)
    ensures r.Ok? ==>
      r.value.players == s.players && |r.value.transfers| <= |s.transfers|
      && forall j :: 0 <= j < |r.value.transfers| ==>
           r.value.transfers[j].id != transferId && r.value.transfers[j] in s.transfers
  {
    WithoutTransferMembers(s.transfers, transferId);
    if s.status != ACTIVE then Err(IllegalState(SessionNotActive))
    else if FindIndex(s.transfers, (t: DirectTransfer) => t.id == transferId) == |s.transfers| then
      Err(IllegalArgument(TransferNotFound(transferId)))
    else Ok(s.(transfers := WithoutTransfer(s.transfers, transferId)))
  }

  // ---------------------------------------------------------------------------
  // Store-writing operations

  method AddPlayer(session: Session?, request: AddPlayerRequest, playerId: Id, logId: Id, now: int)
    returns (r: Result<PokerSession>)
    modifies session
    ensures session == null ==> r == Err(NotFound)
    ensures session != null ==> r == PlayerAdded(old(session.Snapshot()), request, playerId, logId, now)
    ensures session != null && r.Ok? ==> session.Snapshot() == r.value
    ensures session != null && r.Err? ==> session.Snapshot() == old(session.Snapshot())
    ensures session != null && WellFormed(old(session.Snapshot())) && r.Ok?
            && (forall i :: 0 <= i < |old(session.players)| ==> old(session.players)[i].id != playerId)
            ==> WellFormed(session.Snapshot())
  {
    if session == null {
      return Err(NotFound);
    }
    ghost var s0 := session.Snapshot();
    if session.status != ACTIVE {
      return Err(IllegalState(SessionNotActive));
    }
    var player := NewPlayer(playerId, request.name).(buyIn := request.initialBuyIn, userId := request.userId);
    var log := TransactionLog(logId, playerId, BUY_IN, request.initialBuyIn, now, None);
    session.players := session.players + [player];
    session.logs := session.logs + [log];
    r := Ok(session.Snapshot());
    if WellFormed(s0) && forall i :: 0 <= i < |s0.players| ==> s0.players[i].id != playerId {
      AddPlayerKeepsWellFormed(s0, request, playerId, logId, now);
    }
  }

  method Rebuy(session: Session?, request: RebuyRequest, logId: Id, now: int) returns (r: Result<PokerSession>)
    modifies session
    ensures session == null ==> r == Err(NotFound)
    ensures session != null ==> r == Rebought(old(session.Snapshot()), request, logId, now)
    ensures session != null && r.Ok? ==> session.Snapshot() == r.value
    ensures session != null && r.Err? ==> session.Snapshot() == old(session.Snapshot())
    ensures session != null && WellFormed(old(session.Snapshot())) && r.Ok? ==> WellFormed(session.Snapshot())
  {
    if session == null {
      return Err(NotFound);
    }
    ghost var s0 := session.Snapshot();
    if session.status != ACTIVE {
      return Err(IllegalState(SessionNotActive));
    }
    var k := FindIndex(session.players, (p: Player) => p.id == request.playerId);
    if k == |session.players| {
      return Err(IllegalArgument(PlayerNotFound(request.playerId)));
    }
    var player := session.players[k];
    var newBuyIn := player.buyIn + request.amount;
    var log := TransactionLog(logId, request.playerId, REBUY, request.amount, now, None);
    session.players := session.players[k := player.(buyIn := newBuyIn)];
    session.logs := session.logs + [log];
    r := Ok(session.Snapshot());
    if WellFormed(s0) {
      RebuyKeepsWellFormed(s0, request, logId, now);
    }
  }

  method AddTransfer(session: Session?, request: AddTransferRequest, transferId: Id, now: int)
    returns (r: Result<PokerSession>)
    modifies session
    ensures session == null ==> r == Err(NotFound)
    ensures session != null ==> r == TransferAdded(old(session.Snapshot()), request, transferId, now)
    ensures session != null && r.Ok? ==> session.Snapshot() == r.value
    ensures session != null && r.Err? ==> session.Snapshot() == old(session.Snapshot())
    ensures session != null && WellFormed(old(session.Snapshot())) && r.Ok? ==> WellFormed(session.Snapshot())
  {
    if session == null {
      return Err(NotFound);
    }
    ghost var s0 := session.Snapshot();
    if session.status != ACTIVE {
      return Err(IllegalState(SessionNotActive));
    }
    if FindIndex(session.players, (p: Player) => p.id == request.fromPlayerId) == |session.players| {
      return Err(IllegalArgument(FromPlayerNotFound(request.fromPlayerId)));
    }
    if FindIndex(session.players, (p: Player) => p.id == request.toPlayerId) == |session.players| {
      return Err(IllegalArgument(ToPlayerNotFound(request.toPlayerId)));
    }
    if request.fromPlayerId == request.toPlayerId {
      return Err(IllegalArgument(SelfTransfer));
    }
    if request.amount <= 0 {
      return Err(IllegalArgument(NonPositiveAmount));
    }
    var transfer := DirectTransfer(transferId, request.fromPlayerId, request.toPlayerId, request.amount, now, request.note);
    session.transfers := session.transfers + [transfer];
    r := Ok(session.Snapshot());
    if WellFormed(s0) {
      AddTransferKeepsWellFormed(s0, request, transferId, now);
    }
  }

  method RemoveTransfer(session: Session?, transferId: Id) returns (r: Result<PokerSession>)
    modifies session
    ensures session == null ==> r == Err(NotFound)
    ensures session != null ==> r == TransferRemoved(old(session.Snapshot()), transferId)
    ensures session != null && r.Ok? ==> session.Snapshot() == r.value
    ensures session != null && r.Err? ==> session.Snapshot() == old(session.Snapshot())
    ensures session != null && WellFormed(old(session.Snapshot())) && r.Ok? ==> WellFormed(session.Snapshot())
  {
    if session == null {
      return Err(NotFound);
    }
    ghost var s0 := session.Snapshot();
    if session.status != ACTIVE {
      return Err(IllegalState(SessionNotActive));
    }
    if FindIndex(session.transfers, (t: DirectTransfer) => t.id == transferId) == |session.transfers| {
      return Err(IllegalArgument(TransferNotFound(transferId)));
    }
    session.transfers := WithoutTransfer(session.transfers, transferId);
    r := Ok(session.Snapshot());
    if WellFormed(s0) {
      RemoveTransferKeepsWellFormed(s0, transferId);
    }
  }

  // ---------------------------------------------------------------------------
  // addPlayer and rebuy

  /** `addPlayer` refuses a session that is not ACTIVE; otherwise it appends
      one player holding the initial buy-in and nothing else, and one BUY_IN
      log of that amount, so the session's total buy-in grows by exactly that
      amount. */
  lemma AddPlayerFacts(s: PokerSession, request: AddPlayerRequest, playerId: Id, logId: Id, now: int)
    ensures var r := PlayerAdded(s, request, playerId, logId, now);
      (r.Err? <==> s.status != ACTIVE) && (r.Err? ==> r.error == IllegalState(SessionNotActive))
      && (r.Ok? ==>
            var t := r.value;
            var p := t.players[|t.players| - 1];
            |t.players| == |s.players| + 1 && t.players[..|s.players|] == s.players
            && p.id == playerId && p.name == request.name && p.userId == request.userId
            && p.buyIn == request.initialBuyIn && p.cashOut == 0 && p.net == 0
            && t.logs == s.logs + [TransactionLog(logId, playerId, BUY_IN, request.initialBuyIn, now, None)]
            && Sum(BuyIns(t.players)) == Sum(BuyIns(s.players)) + request.initialBuyIn
            && t == s.(players := t.players, logs := t.logs))
  {
    var r := PlayerAdded(s, request, playerId, logId, now);
    if r.Ok? {
      var t := r.value;
      assert BuyIns(t.players) == BuyIns(s.players) + [request.initialBuyIn];
      SumAppend(BuyIns(s.players), [request.initialBuyIn]);
      SumSingleton(request.initialBuyIn);
    }
  }

  /** With a fresh player id, `addPlayer` keeps the store invariant. */
  lemma AddPlayerKeepsWellFormed(s: PokerSession, request: AddPlayerRequest, playerId: Id, logId: Id, now: int)
    requires WellFormed(s)
    requires forall i :: 0 <= i < |s.players| ==> s.players[i].id != playerId
    requires PlayerAdded(s, request, playerId, logId, now).Ok?
    ensures WellFormed(PlayerAdded(s, request, playerId, logId, now).value)
  {
  }

  /** `rebuy` refuses a session that is not ACTIVE, then an unknown player;
      otherwise the first player with the id, and no other, has its buy-in
      raised by exactly the amount, the total buy-in grows by the amount, and
      one REBUY log is appended. */
  lemma RebuyFacts(s: PokerSession, request: RebuyRequest, logId: Id, now: int)
    ensures var r := Rebought(s, request, logId, now);
      (s.status != ACTIVE ==> r == Err(IllegalState(SessionNotActive)))
      && (s.status == ACTIVE ==>
            (r.Err? <==> forall i :: 0 <= i < |s.players| ==> s.players[i].id != request.playerId)
            && (r.Err? ==> r.error == IllegalArgument(PlayerNotFound(request.playerId))))
      && (r.Ok? ==>
            var t := r.value;
            var k := FindIndex(s.players, (p: Player) => p.id == request.playerId);
            |t.players| == |s.players| && s.players[k].id == request.playerId
            && t.players[k] == s.players[k].(buyIn := s.players[k].buyIn + request.amount)
            && (forall i :: 0 <= i < |s.players| && i != k ==> t.players[i] == s.players[i])
            && Sum(BuyIns(t.players)) == Sum(BuyIns(s.players)) + request.amount
            && t.logs == s.logs + [TransactionLog(logId, request.playerId, REBUY, request.amount, now, None)]
            && t == s.(players := t.players, logs := t.logs))
  {
    var r := Rebought(s, request, logId, now);
    var k := FindIndex(s.players, (p: Player) => p.id == request.playerId);
    if s.status == ACTIVE && k < |s.players| {
      var t := s.(players := s.players[k := s.players[k].(buyIn := s.players[k].buyIn + request.amount)],
                  logs := s.logs + [TransactionLog(logId, request.playerId, REBUY, request.amount, now, None)]);
      assert r == Ok(t);
      assert s.players[k].id == request.playerId;
      assert BuyIns(t.players) == BuyIns(s.players)[k := s.players[k].buyIn + request.amount];
      SumUpdate(BuyIns(s.players), k, s.players[k].buyIn + request.amount);
    }
  }

  /** `rebuy` keeps the store invariant. */
  lemma RebuyKeepsWellFormed(s: PokerSession, request: RebuyRequest, logId: Id, now: int)
    requires WellFormed(s)
    requires Rebought(s, request, logId, now).Ok?
    ensures WellFormed(Rebought(s, request, logId, now).value)
  {
    var t := Rebought(s, request, logId, now).value;
    var k := FindIndex(s.players, (p: Player) => p.id == request.playerId);
    forall i, j | 0 <= i < j < |t.players| ensures t.players[i].id != t.players[j].id {
      assert t.players[i].id == s.players[i].id && t.players[j].id == s.players[j].id;
    }
  }

  // ---------------------------------------------------------------------------
  // addTransfer and removeTransfer

  /** `addTransfer` reports the first failing check, in the order: status,
      sender, receiver, self-transfer, amount; when all pass it appends exactly
      one transfer with the requested sender, receiver, amount and note. */
  lemma AddTransferFacts(s: PokerSession, request: AddTransferRequest, transferId: Id, now: int)
    ensures var r := TransferAdded(s, request, transferId, now);
      var active := s.status == ACTIVE;
      var from := active && HasPlayer(s.players, request.fromPlayerId);
      var to := from && HasPlayer(s.players, request.toPlayerId);
      var distinct := to && request.fromPlayerId != request.toPlayerId;
      (!active ==> r == Err(IllegalState(SessionNotActive)))
      && (active && !from ==> r == Err(IllegalArgument(FromPlayerNotFound(request.fromPlayerId))))
      && (from && !to ==> r == Err(IllegalArgument(ToPlayerNotFound(request.toPlayerId))))
      && (to && !distinct ==> r == Err(IllegalArgument(SelfTransfer)))
      && (distinct && request.amount <= 0 ==> r == Err(IllegalArgument(NonPositiveAmount)))
      && (r.Ok? <==> distinct && request.amount > 0)
      && (r.Ok? ==>
            r.value == s.(transfers := s.transfers + [DirectTransfer(transferId, request.fromPlayerId, request.toPlayerId, request.amount, now, request.note)]))
  {
  }

  /** `HasPlayer` is membership of the id. */
  lemma HasPlayerIff(ps: seq<Player>, id: Id)
    ensures HasPlayer(ps, id) <==> exists i :: 0 <= i < |ps| && ps[i].id == id
  {
    var k := FindIndex(ps, (p: Player) => p.id == id);
    if k < |ps| {
      assert ps[k].id == id;
    }
  }

  /** A transfer can only be added between two different players of the
      session, for a positive amount, so the store invariant is kept. */
  lemma AddTransferKeepsWellFormed(s: PokerSession, request: AddTransferRequest, transferId: Id, now: int)
    requires WellFormed(s)
    requires TransferAdded(s, request, transferId, now).Ok?
    ensures WellFormed(TransferAdded(s, request, transferId, now).value)
    ensures HasPlayer(s.players, request.fromPlayerId) && HasPlayer(s.players, request.toPlayerId)
  {
    var t := TransferAdded(s, request, transferId, now).value;
    forall j | 0 <= j < |t.transfers| ensures t.transfers[j].amount > 0 && t.transfers[j].fromPlayerId != t.transfers[j].toPlayerId {
      if j < |s.transfers| {
        assert t.transfers[j] == s.transfers[j];
      }
    }
  }

  /** The filter keeps exactly the transfers with another id. */
  lemma {:induction false} WithoutTransferMembers(ts: seq<DirectTransfer>, transferId: Id)
    ensures forall t :: t in WithoutTransfer(ts, transferId) <==> t in ts && t.id != transferId
    ensures |WithoutTransfer(ts, transferId)| <= |ts|
  {
    if |ts| > 0 {
      WithoutTransferMembers(ts[1..], transferId);
      assert ts == [ts[0]] + ts[1..];
    }
  }

  /** The filter keeps the relative order: it distributes over concatenation. */
  lemma {:induction false} WithoutTransferAppend(a: seq<DirectTransfer>, b: seq<DirectTransfer>, transferId: Id)
    ensures WithoutTransfer(a + b, transferId) == WithoutTransfer(a, transferId) + WithoutTransfer(b, transferId)
  {
    if |a| == 0 {
      assert a + b == b;
    } else {
      var head := if a[0].id == transferId then [] else [a[0]];
      assert (a + b)[0] == a[0];
      assert (a + b)[1..] == a[1..] + b;
      WithoutTransferAppend(a[1..], b, transferId);
      calc {
        WithoutTransfer(a + b, transferId);
        head + WithoutTransfer(a[1..] + b, transferId);
        head + (WithoutTransfer(a[1..], transferId) + WithoutTransfer(b, transferId));
        (head + WithoutTransfer(a[1..], transferId)) + WithoutTransfer(b, transferId);
      }
    }
  }

  /** A list without the id is left as it is. */
  lemma {:induction false} WithoutAbsentTransfer(ts: seq<DirectTransfer>, transferId: Id)
    requires forall j :: 0 <= j < |ts| ==> ts[j].id != transferId
    ensures WithoutTransfer(ts, transferId) == ts
  {
    if |ts| > 0 {
      WithoutAbsentTransfer(ts[1..], transferId);
      assert ts == [ts[0]] + ts[1..];
    }
  }

  /** `removeTransfer` refuses a session that is not ACTIVE, then an unknown
      transfer id; otherwise every transfer with the id goes, the others stay
      in their order, the list gets shorter and nothing else changes. */
  lemma RemoveTransferFacts(s: PokerSession, transferId: Id)
    ensures var r := TransferRemoved(s, transferId);
      (s.status != ACTIVE ==> r == Err(IllegalState(SessionNotActive)))
      && (s.status == ACTIVE ==>
            (r.Err? <==> forall j :: 0 <= j < |s.transfers| ==> s.transfers[j].id != transferId)
            && (r.Err? ==> r.error == IllegalArgument(TransferNotFound(transferId))))
      && (r.Ok? ==>
            var t := r.value;
            t == s.(transfers := WithoutTransfer(s.transfers, transferId))
            && |t.transfers| < |s.transfers|
            && forall x :: x in t.transfers <==> x in s.transfers && x.id != transferId)
  {
    var r := TransferRemoved(s, transferId);
    WithoutTransferMembers(s.transfers, transferId);
    if r.Ok? {
      var k := FindIndex(s.transfers, (t: DirectTransfer) => t.id == transferId);
      var ts := s.transfers;
      assert ts == ts[..k] + ([ts[k]] + ts[k + 1..]);
      WithoutTransferAppend(ts[..k], [ts[k]] + ts[k + 1..], transferId);
      WithoutTransferAppend([ts[k]], ts[k + 1..], transferId);
      WithoutTransferMembers(ts[..k], transferId);
      WithoutTransferMembers(ts[k + 1..], transferId);
      assert WithoutTransfer([ts[k]], transferId) == [] by {
        assert [ts[k]][1..] == [];
      }
    }
  }

  /** `removeTransfer` keeps the store invariant. */
  lemma RemoveTransferKeepsWellFormed(s: PokerSession, transferId: Id)
    requires WellFormed(s)
    requires TransferRemoved(s, transferId).Ok?
    ensures WellFormed(TransferRemoved(s, transferId).value)
  {
    var t := TransferRemoved(s, transferId).value;
    WithoutTransferMembers(s.transfers, transferId);
    forall j | 0 <= j < |t.transfers| ensures t.transfers[j].amount > 0 && t.transfers[j].fromPlayerId != t.transfers[j].toPlayerId {
      assert t.transfers[j] in s.transfers;
    }
  }

  // ---------------------------------------------------------------------------
  // getUserStats

  /** The query `status == SETTLED && players.userId == userId`. */
  predicate MatchesUser(s: PokerSession, userId: Id) {
    s.status == SETTLED && exists i :: 0 <= i < |s.players| && s.players[i].userId == Some(userId)
  }

  /** The sessions the query returns, in collection order. */
  function UserSessions(all: seq<PokerSession>, userId: Id): (r: seq<PokerSession>)
    ensures forall j :: 0 <= j < |r| ==> MatchesUser(r[j], userId) && r[j] in all
    ensures forall s :: s in all && MatchesUser(s, userId) ==> s in r
  {
    if |all| == 0 then []
    else
      var rest := UserSessions(all[..|all| - 1], userId);
      if MatchesUser(all[|all| - 1], userId) then rest + [all[|all| - 1]] else rest
  }

  /** The query keeps collection order: it distributes over concatenation. */
  lemma {:induction false} UserSessionsAppend(a: seq<PokerSession>, b: seq<PokerSession>, userId: Id)
    ensures UserSessions(a + b, userId) == UserSessions(a, userId) + UserSessions(b, userId)
  {
    if |b| == 0 {
      assert a + b == a;
    } else {
      var n := |b| - 1;
      UserSessionsAppend(a, b[..n], userId);
      assert (a + b)[..|a + b| - 1] == a + b[..n];
      assert (a + b)[|a + b| - 1] == b[n];
      if MatchesUser(b[n], userId) {
        assert (UserSessions(a, userId) + UserSessions(b[..n], userId)) + [b[n]]
            == UserSessions(a, userId) + (UserSessions(b[..n], userId) + [b[n]]);
      }
    }
  }

  /** `session.settledAt ?: session.createdAt`. */
  function SettledOrCreated(s: PokerSession): int {
    match s.settledAt
    case Some(t) => t
    case None => s.createdAt
  }

  /** The first player of the session with this user id, if any. */
  function UserPlayer(s: PokerSession, userId: Id): Option<Player> {
    var k := FindIndex(s.players, (p: Player) => p.userId == Some(userId));
    if k < |s.players| then Some(s.players[k]) else None
  }

  /** The loop's `summaries`, after the given sessions. */
  function Summaries(sessions: seq<PokerSession>, userId: Id): seq<SessionSummary> {
    if |sessions| == 0 then []
    else
      var last := sessions[|sessions| - 1];
      Summaries(sessions[..|sessions| - 1], userId)
      + match UserPlayer(last, userId)
        case Some(p) => [SessionSummary(last.numericId, last.stakes, p.net, SettledOrCreated(last))]
        case None => []
  }

  /** The loop's `totalNet`, after the given sessions. */
  function TotalNet(sessions: seq<PokerSession>, userId: Id): int {
    if |sessions| == 0 then 0
    else
      var last := sessions[|sessions| - 1];
      TotalNet(sessions[..|sessions| - 1], userId)
      + match UserPlayer(last, userId)
        case Some(p) => p.net
        case None => 0
  }

  function SummaryTime(x: SessionSummary): int {
    x.settledAt
  }

  /** `getUserStats` over the sessions the query returns. */
  function StatsOf(sessions: seq<PokerSession>, userId: Id): (r: UserStats)
    ensures r.userId == userId && r.sessionCount == |r.sessions|
    ensures multiset(r.sessions) == multiset(Summaries(sessions, userId))
    ensures SortedDesc(r.sessions, SummaryTime)
  {
    var summaries := Summaries(sessions, userId);
    SortedByDescendingSpec(summaries, SummaryTime);
    UserStats(userId, TotalNet(sessions, userId), |summaries|, SortedByDescending(summaries, SummaryTime))
  }

  method GetUserStats(all: seq<PokerSession>, userId: Id) returns (stats: UserStats)
    ensures stats == StatsOf(UserSessions(all, userId), userId)
  {
    var sessions := UserSessions(all, userId);
    var totalNet := 0;
    var summaries: seq<SessionSummary> := [];
    for i := 0 to |sessions|
      invariant totalNet == TotalNet(sessions[..i], userId)
      invariant summaries == Summaries(sessions[..i], userId)
    {
      var session := sessions[i];
      assert sessions[..i + 1][..i] == sessions[..i];
      var player := UserPlayer(session, userId);
      if player.Some? {
        totalNet := totalNet + player.value.net;
        summaries := summaries + [SessionSummary(session.numericId, session.stakes, player.value.net, SettledOrCreated(session))];
      }
    }
    assert sessions[..|sessions|] == sessions;
    stats := UserStats(userId, totalNet, |summaries|, SortedByDescending(summaries, SummaryTime));
  }

  /** Every session the query returns has a player with the user id. */
  lemma UserPlayerFound(s: PokerSession, userId: Id)
    requires MatchesUser(s, userId)
    ensures UserPlayer(s, userId).Some? && UserPlayer(s, userId).value in s.players
    ensures UserPlayer(s, userId).value.userId == Some(userId)
  {
    var k := FindIndex(s.players, (p: Player) => p.userId == Some(userId));
    var i :| 0 <= i < |s.players| && s.players[i].userId == Some(userId);
    assert !(i < k);
  }

  function SummaryNets(ss: seq<SessionSummary>): (r: seq<int>)
    ensures |r| == |ss| && forall j :: 0 <= j < |ss| ==> r[j] == ss[j].net
  {
    seq(|ss|, j requires 0 <= j < |ss| => ss[j].net)
  }

  /** Over queried sessions, one summary per session, in session order, with
      the net of the session's first player of that user, and `totalNet` is
      the sum of those nets. */
  lemma {:induction false} SummariesFacts(sessions: seq<PokerSession>, userId: Id)
    requires forall j :: 0 <= j < |sessions| ==> MatchesUser(sessions[j], userId)
    ensures var ss := Summaries(sessions, userId);
      |ss| == |sessions|
      && (forall j :: 0 <= j < |sessions| ==>
            ss[j].numericId == sessions[j].numericId && ss[j].stakes == sessions[j].stakes
            && UserPlayer(sessions[j], userId).Some?
            && ss[j].net == UserPlayer(sessions[j], userId).value.net
            && ss[j].settledAt == SettledOrCreated(sessions[j]))
      && TotalNet(sessions, userId) == Sum(SummaryNets(ss))
  {
    if |sessions| > 0 {
      var init, last := sessions[..|sessions| - 1], sessions[|sessions| - 1];
      SummariesFacts(init, userId);
      UserPlayerFound(last, userId);
      var ss := Summaries(sessions, userId);
      assert SummaryNets(ss)[..|ss| - 1] == SummaryNets(Summaries(init, userId));
    }
  }

  /** `getUserStats`: one summary per settled session of the user, `totalNet`
      is the sum of their nets, and the summaries come sorted by settlement
      time (creation time when unset), latest first. */
  lemma UserStatsFacts(all: seq<PokerSession>, userId: Id)
    ensures var sessions := UserSessions(all, userId);
      var stats := StatsOf(sessions, userId);
      var ss := Summaries(sessions, userId);
      stats.userId == userId
      && stats.sessionCount == |sessions|
      && stats.totalNet == Sum(SummaryNets(ss))
      && |stats.sessions| == |sessions| && multiset(stats.sessions) == multiset(ss)
      && SortedDesc(stats.sessions, SummaryTime)
  {
    var sessions := UserSessions(all, userId);
    SummariesFacts(sessions, userId);
    SortedByDescendingSpec(Summaries(sessions, userId), SummaryTime);
  }
}
