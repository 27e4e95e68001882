# potlog settlement core in Dafny

potlog keeps the books of a home poker game. A session holds:

- players, each with a buy-in, a cash-out and a net;
- a log of buy-ins and rebuys;
- direct transfers, money that players paid each other outside the pot;
- once settled, a list of debts.

This project models the backend's settlement engine and session lifecycle, its data model, and the web client's list of recently visited sessions. It then proves what they promise.

**The settlement engine** (`SettlementService.kt`) runs in three steps:

1. The balancer turns buy-ins and cash-outs into nets, `cashOut - buyIn`. An imbalance `diff = ΣbuyIn - ΣcashOut` is absorbed in one of two ways:
   - by the first player with the largest net (`MAX_WINNER`);
   - shared among the winners by the largest-remainder (Hamilton) method (`PROPORTIONAL`).
2. The debt minimiser folds the direct transfers into a matrix with one direction per pair of players, and applies that matrix to the balances.
3. A greedy two-pointer sweep pairs debtors with creditors and emits the debts.

**The lifecycle**:

- `settle`, `previewSettlement`, `markDebtSettled`, `reopenSession` and `calculateDiff`;
- `createSession` with its bounded retry on numeric-id collisions;
- `addPlayer`, `rebuy`, `addTransfer`, `removeTransfer` and `getUserStats` (`SessionService.kt`).

**The client's history list** (`historyStore.ts`) holds the most recent entry first, at most ten entries, and one entry per numeric id.

## How the model is organised

| Dafny module | what it models |
|---|---|
| `Models` | The records and enums of `Models.kt` and their defaults. `Result`/`Error` stand for the exceptions: `IllegalArgument`, `IllegalState`, `NotFound` (a `null` result), and `StoreFailure` (a store error that is rethrown). |
| `Seqs`, `AssocList`, `Sorting` | List sums. Insertion-ordered maps, modelled as lists of entries, which is Kotlin's `mutableMapOf`. Kotlin's stable `sortedByDescending`, modelled as insertion sort. |
| `Balancer`, `Apportionment` | `balanceWithMaxWinner`, `balanceProportionally` and `applyLargestRemainderMethod`. Apportionment has a specification function and the imperative method with its loop. |
| `DebtMinimizer`, `TransferFacts`, `SweepFacts`, `DebtFacts` | `generateMinimalDebtsWithTransfers` has its three loops and its while loop as methods, each proved equal to a specification function. The other three modules hold the properties of those functions. |
| `Store` | The stored session document, as a class with one field per document field. Each store update is one field assignment. |
| `SettlementService`, `SessionService` | Each store-writing operation is a method on the stored `Session`, which is `null` when `getSession` finds nothing. Each method is proved equal to a pure transition function on session values, and lemmas state what the transitions guarantee. |
| `HistoryStore` | The three reducers, as functions from the old list to the new one. |

Some inputs are nondeterministic or external, and they are parameters:

- generated ids (`ObjectId()`), as `ids: nat -> Id`, where the k-th emitted debt takes `ids(k)`;
- the clock;
- the random draw of a numeric id, as a seed;
- the database's answer to each insert, as a set of ids already taken plus an oracle of other failures.

The quotas of the largest-remainder method are exact rationals, not `Double`s.
- The integer part of `net * diff / total` is taken by Euclidean division: the floor when `diff >= 0`, the ceiling otherwise.
- Remainders are compared as exact numerators over `total`.

With exact arithmetic and distinct winner ids, the method's closing `require` provably never fails (`Apportionment.LargestRemainderIsExact`).

The code behaves as follows:

- A missing session in `settle`, `markDebtSettled` and `reopenSession` is an `IllegalArgumentException` in the code, not a separate not-found error. In `SessionService` it is a `null` result.
- A missing cash-out is an `IllegalArgument`. Settling a settled session is an `IllegalState`.
- The code does not check `initialBuyIn` or the rebuy `amount`. The model accepts any integer there, so a buy-in can decrease.
- The sweep runs whether or not the adjusted balances sum to zero. The debts then total the smaller of the two sides (`DebtFacts.MinimalDebtsTotal`), and equal both sides when the nets sum to zero.

## Model

| member | source | states |
|---|---|---|
| `Models.NewPlayer` | backend/src/main/kotlin/com/potlog/models/Models.kt:19-27 | A new player keeps its id and name, has buy-in, cash-out and net 0, and no user id. |
| `Models.NewDebt` | backend/src/main/kotlin/com/potlog/models/Models.kt:39-47 | A new debt carries its parties and amount, is not settled, and has nothing paid yet. |
| `Models.NewSession` | backend/src/main/kotlin/com/potlog/models/Models.kt:59-72 | A new session is ACTIVE, has no settlement time, and has empty player, log, transfer and debt lists. |
| `Models.NewSettleRequest` | backend/src/main/kotlin/com/potlog/models/Models.kt:104-108 | A settle request defaults to MAX_WINNER. |
| `Models.SessionStatusValues` | backend/src/main/kotlin/com/potlog/models/Models.kt:7-10 | The statuses are exactly ACTIVE and SETTLED, in that order, and every status is listed at its ordinal. |
| `Models.BalanceModeValues` | backend/src/main/kotlin/com/potlog/models/Models.kt:110-113 | The balance modes are exactly MAX_WINNER and PROPORTIONAL, in that order. |
| `Models.TransactionTypeValues` | backend/src/main/kotlin/com/potlog/models/Models.kt:12-17 | The ledger kinds are exactly BUY_IN, REBUY, MANUAL_TRANSFER and CASH_OUT. |
| `Sorting.SortedByDescendingSpec` | backend/src/main/kotlin/com/potlog/services/SessionService.kt:242 | `sortedByDescending` returns a permutation of its input that is non-increasing by the key. |
| `Sorting.SortIsStable` | backend/src/main/kotlin/com/potlog/services/SettlementService.kt:144-148 | The sort is stable: among equal keys, earlier inputs stay first. |
| `Balancer.WithNets` | backend/src/main/kotlin/com/potlog/services/SettlementService.kt:69 | Every player's net becomes `cashOut - buyIn`, and nothing else changes. |
| `Balancer.NetsSumToMinusDiff` | backend/src/main/kotlin/com/potlog/services/SettlementService.kt:34-36 | The nets `cashOut - buyIn` sum to `-diff`. |
| `Balancer.FirstMaxIndex` | backend/src/main/kotlin/com/potlog/services/SettlementService.kt:71 | `maxByOrNull { it.net }` picks a player with a maximal net, and no earlier player has one. |
| `Balancer.BalanceWithMaxWinner` | backend/src/main/kotlin/com/potlog/services/SettlementService.kt:68-81 | It fails with "No players found" exactly on an empty list, and otherwise keeps every player. |
| `Balancer.MaxWinnerChangesOnlyFirstMax` | backend/src/main/kotlin/com/potlog/services/SettlementService.kt:68-81 | MAX_WINNER adds exactly `diff` to the first player with a maximal net. Every other player keeps `cashOut - buyIn`. |
| `Balancer.MaxWinnerIsZeroSum` | backend/src/main/kotlin/com/potlog/services/SettlementService.kt:68-81 | MAX_WINNER leaves nets that sum to exactly zero. |
| `Balancer.MaxWinnerExample` | backend/src/test/kotlin/com/potlog/SettlementServiceTest.kt:161-176 | Alice (net 80_00) absorbs diff -30_00 and ends at 50_00. Bob stays at -50_00. |
| `Balancer.Winners` | backend/src/main/kotlin/com/potlog/services/SettlementService.kt:91 | The winners are players of the list with a positive net, and there are no more of them than players. |
| `Balancer.WinnersComplete` | backend/src/main/kotlin/com/potlog/services/SettlementService.kt:91 | Every player with a positive net is a winner. |
| `Balancer.WinnersAppend` | backend/src/main/kotlin/com/potlog/services/SettlementService.kt:91 | The filter keeps list order: it distributes over concatenation. |
| `Balancer.BalanceProportionally` | backend/src/main/kotlin/com/potlog/services/SettlementService.kt:88-105 | With no winner it gives exactly the MAX_WINNER result, and it keeps every player. |
| `Balancer.ApplyAdjustments` | backend/src/main/kotlin/com/potlog/services/SettlementService.kt:101-104 | Each player's net grows by the adjustment found for its id, or by 0 if none is found. |
| `Balancer.AdjustmentsSum` | backend/src/main/kotlin/com/potlog/services/SettlementService.kt:97-104 | Applying the winners' adjustments to all players adds exactly their sum to the total net. |
| `Balancer.ProportionalIsZeroSum` | backend/src/main/kotlin/com/potlog/services/SettlementService.kt:88-105 | PROPORTIONAL leaves nets that sum to exactly zero. |
| `Balancer.ProportionalKeepsNonWinners` | backend/src/main/kotlin/com/potlog/services/SettlementService.kt:88-105 | A player with `cashOut - buyIn <= 0` keeps exactly that net under PROPORTIONAL. |
| `Balancer.ProportionalWinnerShare` | backend/src/main/kotlin/com/potlog/services/SettlementService.kt:88-105 | With distinct ids, a player with a positive net is a winner. Under PROPORTIONAL its net grows by exactly its largest-remainder share, and that step cannot fail. |
| `Balancer.Balance` | backend/src/main/kotlin/com/potlog/services/SettlementService.kt:40-47 | With `diff == 0` the result is the players with nets `cashOut - buyIn`. Every successful branch keeps the list length, and changes no field of any player except the net. |
| `Balancer.BalanceIsZeroSum` | backend/src/main/kotlin/com/potlog/services/SettlementService.kt:34-47 | Whichever branch runs, balancing never fails and the nets sum to zero. It keeps every id, name, user id, buy-in and cash-out. |
| `Apportionment.LargestRemainder` | backend/src/main/kotlin/com/potlog/services/SettlementService.kt:116-165 | A successful apportionment gives one adjustment per winner, and the adjustments sum to exactly `diff`. The only failure is IllegalArgument. |
| `Apportionment.IntegerPart` | backend/src/main/kotlin/com/potlog/services/SettlementService.kt:129-135 | The result is the floor of the exact quota `net * diff / total` when `diff >= 0`, and its ceiling otherwise. |
| `Apportionment.Remainder` | backend/src/main/kotlin/com/potlog/services/SettlementService.kt:136 | The quota's remainder lies in `[0, 1)` when rounding down and in `(-1, 0]` when rounding up. |
| `Apportionment.ApplyLargestRemainderMethod` | backend/src/main/kotlin/com/potlog/services/SettlementService.kt:116-165 | The method computes the largest-remainder specification, including the failure of its closing `require`. |
| `Apportionment.DistributeRemainder` | backend/src/main/kotlin/com/potlog/services/SettlementService.kt:150-157 | The loop adds one step to each winner in sorted order until the shortfall is used up. |
| `Apportionment.Shortfall` | backend/src/main/kotlin/com/potlog/services/SettlementService.kt:141-142 | The integer parts miss `diff` by fewer units than there are winners, on the side the step corrects. |
| `Apportionment.OrderFacts` | backend/src/main/kotlin/com/potlog/services/SettlementService.kt:144-148 | The sorted order lists every winner once. It is by descending remainder, or ascending when `diff < 0`, with ties in input order. |
| `Apportionment.LargestRemainderIsExact` | backend/src/main/kotlin/com/potlog/services/SettlementService.kt:159-162 | The `require` never fails: the adjustments, one per winner, sum to `diff` exactly. |
| `Apportionment.LargestRemainderShares` | backend/src/main/kotlin/com/potlog/services/SettlementService.kt:128-157 | The winner at rank p gets its integer part, plus one step exactly when p is below the shortfall. |
| `Apportionment.LargestRemainderIsNearQuota` | backend/src/main/kotlin/com/potlog/services/SettlementService.kt:128-157 | Each adjustment is its integer part, or that part plus one step. It is at most one unit from the exact share. |
| `Apportionment.StepsFollowRemainderOrder` | backend/src/main/kotlin/com/potlog/services/SettlementService.kt:144-157 | A stepped winner's remainder is at least that of any unstepped winner (at most, when `diff < 0`). On a tie, the stepped winner comes first. |
| `Apportionment.RankOfStepped` | backend/src/main/kotlin/com/potlog/services/SettlementService.kt:150-157 | Stepped winners precede unstepped ones in the sorted order. |
| `Apportionment.SingleWinnerTakesAll` | backend/src/test/kotlin/com/potlog/SettlementServiceTest.kt:59-69 | A single winner receives all of `diff`. |
| `Apportionment.ProportionalExamples` | backend/src/test/kotlin/com/potlog/SettlementServiceTest.kt:43-84 | 60/40 of 10_00 gives 6_00 and 4_00. Two equal halves of 5_00 give 2_50 each. |
| `Apportionment.ExactQuotas` | backend/src/main/kotlin/com/potlog/services/SettlementService.kt:128-157 | When every quota is whole, each winner gets exactly its quota. |
| `DebtMinimizer.CollectNetBalances` | backend/src/main/kotlin/com/potlog/services/SettlementService.kt:178-179 | The loop builds the insertion-ordered balance map of the players' nets. |
| `DebtMinimizer.NetBalances` | backend/src/main/kotlin/com/potlog/services/SettlementService.kt:178-179 | The balance map has one entry per id and no more entries than players. |
| `DebtMinimizer.ConsolidateOne` | backend/src/main/kotlin/com/potlog/services/SettlementService.kt:184-199 | One transfer first cancels against the opposite entry, and only the excess is recorded in its own direction. |
| `DebtMinimizer.ConsolidateTransfers` | backend/src/main/kotlin/com/potlog/services/SettlementService.kt:181-200 | The loop folds the transfers, in order, into the matrix. |
| `DebtMinimizer.Consolidate` | backend/src/main/kotlin/com/potlog/services/SettlementService.kt:181-200 | The transfer matrix has one entry per pair of ids and no more entries than transfers. |
| `DebtMinimizer.ApplyTransferMatrix` | backend/src/main/kotlin/com/potlog/services/SettlementService.kt:204-210 | The loop applies each matrix entry to the balances, in matrix order. |
| `DebtMinimizer.AdjustedBalances` | backend/src/main/kotlin/com/potlog/services/SettlementService.kt:204-210 | The adjusted balances keep one entry per id. Every player of the balance map keeps its place, and entries are only added after them. |
| `DebtMinimizer.Debtors` | backend/src/main/kotlin/com/potlog/services/SettlementService.kt:214-217 | The debtor list holds positive amounts only. |
| `DebtMinimizer.Creditors` | backend/src/main/kotlin/com/potlog/services/SettlementService.kt:219-222 | The creditor list holds positive amounts only. |
| `DebtMinimizer.SweepDebts` | backend/src/main/kotlin/com/potlog/services/SettlementService.kt:224-256 | The two-pointer loop, which overwrites the lists in place, emits exactly the debts of the greedy sweep. |
| `DebtMinimizer.Sweep` | backend/src/main/kotlin/com/potlog/services/SettlementService.kt:224-256 | The sweep emits at most one debt per debtor plus one per creditor. Each debt is positive, unsettled and has nothing paid. |
| `DebtMinimizer.GenerateMinimalDebtsWithTransfers` | backend/src/main/kotlin/com/potlog/services/SettlementService.kt:174-257 | The three phases return exactly the minimal debts of the players and transfers. |
| `DebtMinimizer.MinimalDebts` | backend/src/main/kotlin/com/potlog/services/SettlementService.kt:174-257 | There are at most #debtors + #creditors debts of the adjusted balances. Each is positive, unsettled and has nothing paid. |
| `TransferFacts.ConsolidateStepValid` | backend/src/main/kotlin/com/potlog/services/SettlementService.kt:184-199 | One consolidation step keeps the matrix one-directional with positive entries. |
| `TransferFacts.ConsolidateValid` | backend/src/main/kotlin/com/potlog/services/SettlementService.kt:181-200 | The matrix never holds both (a, b) and (b, a), and never a self pair. Every entry is positive and every key appears once. |
| `TransferFacts.ConsolidateFlow` | backend/src/main/kotlin/com/potlog/services/SettlementService.kt:183-200 | Entry (a, b) minus entry (b, a) is the net amount the transfers moved from a to b. |
| `TransferFacts.ConsolidatePair` | backend/src/main/kotlin/com/potlog/services/SettlementService.kt:183-200 | Each pair's entry is the net flow from its payer to its payee when that flow is positive, and absent otherwise. |
| `TransferFacts.ConsolidateCancels` | backend/src/main/kotlin/com/potlog/services/SettlementService.kt:187-193 | A→B x followed by B→A x leaves no entry. |
| `TransferFacts.ConsolidateNet` | backend/src/main/kotlin/com/potlog/services/SettlementService.kt:181-200 | Over the matrix, each player's paid-minus-received equals that over the transfers. |
| `TransferFacts.ApplyEdgesAt` | backend/src/main/kotlin/com/potlog/services/SettlementService.kt:206-210 | Applying the matrix moves each balance by exactly that player's paid-minus-received in the matrix. |
| `TransferFacts.ApplyEdgesTotal` | backend/src/main/kotlin/com/potlog/services/SettlementService.kt:206-210 | Applying the matrix leaves the total balance unchanged. |
| `TransferFacts.ApplyEdgesKeys` | backend/src/main/kotlin/com/potlog/services/SettlementService.kt:204-210 | Applying the matrix keeps one entry per id, and players stay where they were. The keys afterwards are exactly the players and the matrix endpoints. Every appended key is an endpoint that was not a player. |
| `SweepFacts.SweepShape` | backend/src/main/kotlin/com/potlog/services/SettlementService.kt:233-244 | Every emitted debt is fresh, unsettled and positive, and the k-th takes id `ids(k)`. |
| `SweepFacts.SweepParties` | backend/src/main/kotlin/com/potlog/services/SettlementService.kt:229-244 | Every emitted debt goes from a debtor of the list to a creditor of the list. |
| `SweepFacts.SweepCount` | backend/src/main/kotlin/com/potlog/services/SettlementService.kt:229-254 | At least one cursor advances per step, so n entries give at most n - 1 debts. |
| `SweepFacts.SweepTotal` | backend/src/main/kotlin/com/potlog/services/SettlementService.kt:229-254 | The debts total the smaller of what the debtors owe and what the creditors are owed. |
| `SweepFacts.SweepSettles` | backend/src/main/kotlin/com/potlog/services/SettlementService.kt:229-254 | When the two sides balance, each debtor pays exactly what it owes and each creditor receives exactly what it is owed. |
| `SweepFacts.DebtorsAndCreditorsTotal` | backend/src/main/kotlin/com/potlog/services/SettlementService.kt:214-222 | What the creditors are owed minus what the debtors owe is the sum of the balances. |
| `SweepFacts.DebtorsAt` | backend/src/main/kotlin/com/potlog/services/SettlementService.kt:214-217 | Each id owes exactly the amount by which its balance is below zero. |
| `SweepFacts.CreditorsAt` | backend/src/main/kotlin/com/potlog/services/SettlementService.kt:219-222 | Each id is owed exactly the amount by which its balance is above zero. |
| `DebtFacts.NetBalancesOfDistinct` | backend/src/main/kotlin/com/potlog/services/SettlementService.kt:178-179 | With distinct ids, the balance map lists every player once, in player order, with its net. |
| `DebtFacts.NetBalancesTotal` | backend/src/main/kotlin/com/potlog/services/SettlementService.kt:179 | The balance map totals the players' nets. |
| `DebtFacts.AdjustedBalanceAt` | backend/src/main/kotlin/com/potlog/services/SettlementService.kt:204-210 | Each adjusted balance is the net, plus what the player paid, minus what it received in transfers. |
| `DebtFacts.AdjustedBalancesFacts` | backend/src/main/kotlin/com/potlog/services/SettlementService.kt:204-210 | The adjusted balances keep one entry per id and the same total. |
| `DebtFacts.MinimalDebtsShape` | backend/src/main/kotlin/com/potlog/services/SettlementService.kt:214-244 | Every debt is fresh and positive, taking the j-th id. It goes from an id with a negative adjusted balance to one with a positive adjusted balance, never to itself. |
| `DebtFacts.MinimalDebtsCount` | backend/src/main/kotlin/com/potlog/services/SettlementService.kt:214-254 | There are at most #debtors + #creditors - 1 debts. |
| `DebtFacts.MinimalDebtsTotal` | backend/src/main/kotlin/com/potlog/services/SettlementService.kt:214-256 | The debts total the smaller side. When the nets sum to zero, that is both what the debtors owe and what the creditors are owed. |
| `DebtFacts.MinimalDebtsSettle` | backend/src/main/kotlin/com/potlog/services/SettlementService.kt:174-256 | With balanced nets, paying the debts squares every id: its balance, plus what it paid, minus what it received (by transfer and by debt), is zero. |
| `DebtFacts.MinimalDebtsSettlePlayer` | backend/src/main/kotlin/com/potlog/services/SettlementService.kt:174-256 | The same, stated per player with its net. |
| `DebtFacts.OneDebtorOneCreditor` | backend/src/test/kotlin/com/potlog/SettlementServiceTest.kt:105-117 | For ±100_00, exactly one debt: Bob to Alice, for 100_00. |
| `DebtFacts.AllLosersPayOneWinner` | backend/src/test/kotlin/com/potlog/SettlementServiceTest.kt:120-132 | For one winner against three losers, three debts of 100_00, each to the winner. |
| `DebtFacts.NobodyOwes` | backend/src/test/kotlin/com/potlog/SettlementServiceTest.kt:135-144 | When all nets are zero there are no debts. |
| `Store.Session.constructor` | backend/src/main/kotlin/com/potlog/services/SessionService.kt:49 | The stored document is exactly the inserted session value. |
| `Store.Session.Snapshot` | backend/src/main/kotlin/com/potlog/services/SessionService.kt:67-71 | `getSession` reads back every field as stored. |
| `SettlementService.RecordCashOuts` | backend/src/main/kotlin/com/potlog/services/SettlementService.kt:28-32 | It succeeds exactly when every player has a cash-out, and then records each one. Otherwise it names the first player without one. |
| `SettlementService.SettleOutcome` | backend/src/main/kotlin/com/potlog/services/SettlementService.kt:24-59 | A session that is not ACTIVE is refused with IllegalState. Success marks the session SETTLED at `now` and keeps its transfers and logs. Each player keeps everything but its net and gets its requested cash-out. Every debt is positive and unsettled. |
| `SettlementService.Settle` | backend/src/main/kotlin/com/potlog/services/SettlementService.kt:20-62 | A missing session is an error. Otherwise the result is the settle transition, the store holds it on success and is unchanged on failure. A store that satisfies the stored-session invariant still does afterwards. |
| `SettlementService.SettleFailures` | backend/src/main/kotlin/com/potlog/services/SettlementService.kt:20-32 | `settle` fails on a session that is not ACTIVE, and on an ACTIVE one exactly when some player has no cash-out. |
| `SettlementService.SettleSucceeds` | backend/src/main/kotlin/com/potlog/services/SettlementService.kt:34-59 | Success marks the session SETTLED at `now` and records every cash-out. The nets sum to zero, and ids, names, user ids and buy-ins are kept. The minimal debts of the nets and transfers are stored, and nothing else changes. |
| `SettlementService.SettleClearsEveryPlayer` | backend/src/main/kotlin/com/potlog/services/SettlementService.kt:34-59 | After `settle`, each player's net plus its transfer and debt flows is zero. |
| `SettlementService.SettleKeepsWellFormed` | backend/src/main/kotlin/com/potlog/services/SettlementService.kt:51-59 | `settle` keeps the stored-session invariant. |
| `SettlementService.PreviewSettlement` | backend/src/main/kotlin/com/potlog/services/SettlementService.kt:263-287 | The preview computes the debts without writing anything. |
| `SettlementService.Preview` | backend/src/main/kotlin/com/potlog/services/SettlementService.kt:268-286 | Every previewed debt is positive, unsettled and has nothing paid. |
| `SettlementService.PreviewAgreesWithSettle` | backend/src/main/kotlin/com/potlog/services/SettlementService.kt:263-287 | The preview shows exactly the debts that a successful `settle` with the same input stores. |
| `SettlementService.PreviewNeverFails` | backend/src/main/kotlin/com/potlog/services/SettlementService.kt:268-271 | Missing cash-outs count as 0, so the preview never fails. |
| `SettlementService.MarkDebtSettled` | backend/src/main/kotlin/com/potlog/services/SettlementService.kt:293-330 | The result is the manual-settlement transition, and the store holds it on success. A store that satisfies the stored-session invariant still does afterwards. |
| `SettlementService.DebtMarked` | backend/src/main/kotlin/com/potlog/services/SettlementService.kt:297-325 | It fails exactly when no debt has the id. Success keeps the players, the status and the number of debts. It keeps every earlier transfer and adds at most one. |
| `SettlementService.MarkDebtSettledFacts` | backend/src/main/kotlin/com/potlog/services/SettlementService.kt:297-325 | It fails exactly on an unknown debt. When `min(requested, amount - settledAmount) <= 0` nothing changes. Otherwise that debt alone is paid by that amount and flagged settled when fully paid, and one debtor-to-creditor transfer of that amount is appended. |
| `SettlementService.MarkDebtSettledKeepsWellFormed` | backend/src/main/kotlin/com/potlog/services/SettlementService.kt:300-325 | The settled amount never exceeds the amount, and `settled` holds exactly when it is reached. |
| `SettlementService.SettlementTransferNetsOut` | backend/src/main/kotlin/com/potlog/services/SettlementService.kt:305-323 | The recorded transfer raises the debtor's adjusted balance by the paid amount and lowers the creditor's by it. |
| `SettlementService.ReopenSession` | backend/src/main/kotlin/com/potlog/services/SettlementService.kt:336-361 | The result is the reopen transition, and the store holds it on success. A store that satisfies the stored-session invariant still does afterwards. |
| `SettlementService.Reopened` | backend/src/main/kotlin/com/potlog/services/SettlementService.kt:340-356 | It succeeds exactly on a SETTLED session. Success makes the session ACTIVE with no debts and no settlement time, and keeps its transfers and logs. Each player keeps its id and buy-in, with cash-out and net reset to 0. |
| `SettlementService.ReopenFacts` | backend/src/main/kotlin/com/potlog/services/SettlementService.kt:340-356 | Reopen fails unless the session is SETTLED. Otherwise the session becomes ACTIVE with no debts and no settlement time, every cash-out and net is 0, and buy-ins, transfers and logs are kept. |
| `SettlementService.ReopenKeepsWellFormed` | backend/src/main/kotlin/com/potlog/services/SettlementService.kt:344-356 | `reopenSession` keeps the stored-session invariant. |
| `SettlementService.ReopenUndoesSettle` | backend/src/main/kotlin/com/potlog/services/SettlementService.kt:336-361 | Reopening right after settling gives back the session as it was before. |
| `SettlementService.CalculateDiffMatchesSettle` | backend/src/main/kotlin/com/potlog/services/SettlementService.kt:366-370 | With cash-outs keyed by exactly the players, `calculateDiff` is the diff that `settle` balances. |
| `SettlementService.CalculateDiff` | backend/src/main/kotlin/com/potlog/services/SettlementService.kt:366-370 | With no cash-outs the difference is the total buy-in. |
| `SessionService.DecimalRoundTrip` | backend/src/main/kotlin/com/potlog/services/SessionService.kt:29 | Printing a number in decimal and parsing it back gives the number. |
| `SessionService.GenerateNumericId` | backend/src/main/kotlin/com/potlog/services/SessionService.kt:17-30 | Every generated id has six characters, and the first is not a zero. |
| `SessionService.NumericIdShape` | backend/src/main/kotlin/com/potlog/services/SessionService.kt:17-30 | Every generated id is all digits, and reads as a number in [100000, 999999]. |
| `SessionService.NumericIdCoversRange` | backend/src/main/kotlin/com/potlog/services/SessionService.kt:28 | Every number of the range can be drawn. |
| `SessionService.FirstFreeAttempt` | backend/src/main/kotlin/com/potlog/services/SessionService.kt:39-58 | The result is the first attempt whose id does not collide, or 11 when all ten collide. |
| `SessionService.CreateFrom` | backend/src/main/kotlin/com/potlog/services/SessionService.kt:39-61 | A created session is ACTIVE and empty, with the requested stakes and a numeric id not taken before. Any failure is a rethrown store failure or IllegalState. |
| `SessionService.CreateSession` | backend/src/main/kotlin/com/potlog/services/SessionService.kt:36-62 | The retry loop returns the creation outcome and stores the created session, which satisfies the stored-session invariant. |
| `SessionService.CreateFromFirstFree` | backend/src/main/kotlin/com/potlog/services/SessionService.kt:39-61 | The loop stops at the first attempt that does not collide. It stores that candidate unless its insert fails otherwise, and gives up when all ten collide. |
| `SessionService.CreateSucceeds` | backend/src/main/kotlin/com/potlog/services/SessionService.kt:36-62 | The session created is ACTIVE and empty, with a six-digit id not taken before, made after all earlier attempts collided. It satisfies the stored-session invariant. |
| `SessionService.CreateFailures` | backend/src/main/kotlin/com/potlog/services/SessionService.kt:39-61 | It ends in IllegalState exactly when all ten attempts collide. It rethrows exactly when the first attempt that does not collide fails otherwise. |
| `SessionService.CreateTriesAtMostTen` | backend/src/main/kotlin/com/potlog/services/SessionService.kt:37-40 | The outcome depends only on the first ten attempts. |
| `SessionService.AddPlayer` | backend/src/main/kotlin/com/potlog/services/SessionService.kt:76-106 | A missing session gives `null`. Otherwise the result is the add-player transition, and the store holds it on success. With a fresh player id, a store that satisfies the stored-session invariant still does afterwards. |
| `SessionService.PlayerAdded` | backend/src/main/kotlin/com/potlog/services/SessionService.kt:79-103 | It succeeds exactly on an ACTIVE session. Success keeps every earlier player and adds one with the new id and the initial buy-in. It adds one log and keeps the transfers. |
| `SessionService.AddPlayerFacts` | backend/src/main/kotlin/com/potlog/services/SessionService.kt:79-103 | It refuses a session that is not ACTIVE. Otherwise it appends one player with buy-in `initialBuyIn` and zero cash-out and net, and one BUY_IN log of that amount, and nothing else changes. |
| `SessionService.AddPlayerKeepsWellFormed` | backend/src/main/kotlin/com/potlog/services/SessionService.kt:83-103 | With a fresh player id, `addPlayer` keeps the stored-session invariant. |
| `SessionService.Rebuy` | backend/src/main/kotlin/com/potlog/services/SessionService.kt:111-141 | A missing session gives `null`. Otherwise the result is the rebuy transition, and the store holds it on success. A store that satisfies the stored-session invariant still does afterwards. |
| `SessionService.Rebought` | backend/src/main/kotlin/com/potlog/services/SessionService.kt:114-138 | It succeeds exactly on an ACTIVE session that has a player with the id. Success keeps the number of players and their ids. It adds one log and keeps the transfers. |
| `SessionService.RebuyFacts` | backend/src/main/kotlin/com/potlog/services/SessionService.kt:114-138 | It refuses a session that is not ACTIVE, then an unknown player. Otherwise the first player with the id alone gains exactly the amount, and one REBUY log is appended. |
| `SessionService.RebuyKeepsWellFormed` | backend/src/main/kotlin/com/potlog/services/SessionService.kt:121-138 | `rebuy` keeps the stored-session invariant. |
| `SessionService.AddTransfer` | backend/src/main/kotlin/com/potlog/services/SessionService.kt:147-182 | A missing session gives `null`. Otherwise the result is the add-transfer transition, and the store holds it on success. A store that satisfies the stored-session invariant still does afterwards. |
| `SessionService.TransferAdded` | backend/src/main/kotlin/com/potlog/services/SessionService.kt:150-177 | Success keeps the players and every earlier transfer. It adds one positive transfer between two different players of the session. |
| `SessionService.AddTransferFacts` | backend/src/main/kotlin/com/potlog/services/SessionService.kt:150-177 | It refuses, in order: a session that is not ACTIVE, an unknown sender, an unknown receiver, a self-transfer, and an amount <= 0. Otherwise it appends exactly the requested transfer. |
| `SessionService.HasPlayerIff` | backend/src/main/kotlin/com/potlog/services/SessionService.kt:154-157 | The player lookup succeeds exactly when some player has the id. |
| `SessionService.AddTransferKeepsWellFormed` | backend/src/main/kotlin/com/potlog/services/SessionService.kt:154-177 | Transfers are always positive and between two different players of the session. |
| `SessionService.RemoveTransfer` | backend/src/main/kotlin/com/potlog/services/SessionService.kt:187-205 | A missing session gives `null`. Otherwise the result is the remove-transfer transition, and the store holds it on success. A store that satisfies the stored-session invariant still does afterwards. |
| `SessionService.TransferRemoved` | backend/src/main/kotlin/com/potlog/services/SessionService.kt:190-200 | Success keeps the players. Every remaining transfer was there before and has another id. |
| `SessionService.RemoveTransferFacts` | backend/src/main/kotlin/com/potlog/services/SessionService.kt:190-200 | It refuses a session that is not ACTIVE, then an unknown transfer id. Otherwise every transfer with the id goes, the others stay, and nothing else changes. |
| `SessionService.WithoutTransferAppend` | backend/src/main/kotlin/com/potlog/services/SessionService.kt:199 | `pull` keeps the remaining transfers in their order. |
| `SessionService.RemoveTransferKeepsWellFormed` | backend/src/main/kotlin/com/potlog/services/SessionService.kt:194-200 | `removeTransfer` keeps the stored-session invariant. |
| `SessionService.GetUserStats` | backend/src/main/kotlin/com/potlog/services/SessionService.kt:210-244 | The loop computes exactly the statistics of the queried sessions. |
| `SessionService.UserSessions` | backend/src/main/kotlin/com/potlog/services/SessionService.kt:211-218 | The query returns exactly the SETTLED sessions with a player of that user id. |
| `SessionService.UserSessionsAppend` | backend/src/main/kotlin/com/potlog/services/SessionService.kt:211-218 | The query keeps collection order: it distributes over concatenation. |
| `SessionService.StatsOf` | backend/src/main/kotlin/com/potlog/services/SessionService.kt:238-243 | The statistics carry the user id. `sessionCount` is the number of summaries. The summaries are a permutation of one per session, sorted by descending time. |
| `SessionService.SummariesFacts` | backend/src/main/kotlin/com/potlog/services/SessionService.kt:223-236 | There is one summary per queried session, in order. Each carries the net of the session's first player with the user id and the settlement time, falling back to the creation time. `totalNet` is the sum of those nets. |
| `SessionService.UserStatsFacts` | backend/src/main/kotlin/com/potlog/services/SessionService.kt:238-243 | `sessionCount` is the number of the user's settled sessions, and `totalNet` is the sum of their nets. The summaries are a permutation of the per-session summaries, latest first. |
| `HistoryStore.AddToHistoryFacts` | frontend/src/store/historyStore.ts:19-27 | The visited session comes first, stamped `now`, and no other entry has its id. There are at most ten entries. The rest are the previous entries with other ids, in order, cut only at the end. |
| `HistoryStore.AddToHistory` | frontend/src/store/historyStore.ts:19-27 | The result is non-empty and has at most ten entries. The visited session comes first, stamped `now`. Every later entry was in the list before and has another id. |
| `HistoryStore.AddToHistoryKeepsRecent` | frontend/src/store/historyStore.ts:20-26 | An entry with another id among the nine most recent survives. |
| `HistoryStore.AddToHistoryNoDuplicates` | frontend/src/store/historyStore.ts:20-26 | No numeric id occurs twice after `addToHistory`, provided none did before. |
| `HistoryStore.AddToHistoryAgain` | frontend/src/store/historyStore.ts:19-27 | Revisiting the most recent session only refreshes its entry. |
| `HistoryStore.WithoutAppend` | frontend/src/store/historyStore.ts:31 | The filter keeps the relative order of what it keeps. |
| `HistoryStore.RemoveFromHistoryFacts` | frontend/src/store/historyStore.ts:30-32 | Every entry with the id goes and every other entry stays. A second removal changes nothing. |
| `HistoryStore.RemoveFromHistory` | frontend/src/store/historyStore.ts:30-32 | An entry stays exactly when it was there and has another id. |
| `HistoryStore.ClearHistory` | frontend/src/store/historyStore.ts:34 | The result is the empty list. |
| `HistoryStore.ClearHistoryEmpties` | frontend/src/store/historyStore.ts:34 | `clearHistory` yields the empty list. |

## Left out

- Floating point: the quotas of `applyLargestRemainderMethod` are `Double`s in the code. The model uses exact rationals, so rounding error in a quota or remainder, and a remainder order that would differ under IEEE arithmetic, are not modelled.
- Integer width: `Long` and `Int` are unbounded integers here. Overflow for amounts beyond 2^63 is not modelled.
- Persistence: MongoDB is an in-memory `Store.Session` object. The unique index on `numericId` is a set of taken ids plus an oracle of other insert failures.
- Atomicity and concurrency: each store call is atomic and each operation runs alone. Concurrent read-modify-write races on one session are not modelled.
- The query order of `getUserStats`: the sessions are taken in the order of the given collection, the order in which the store returns them.
- Nondeterminism: `Random.nextInt`, `ObjectId()`, `System.currentTimeMillis()` and `Date.now()` are parameters.
- Logging, serialization and the HTTP layer: the logger calls, kotlinx.serialization round-trips, the routes that map `IllegalArgument` and `IllegalState` to HTTP codes, the API client and the UI are outside this model.
- Browser storage: the history store's `persist`/`localStorage` wrapper is not modelled.
- Store reads in the lifecycle: the model covers `getSession` only as `Store.Session.Snapshot`. The re-read after an update is the snapshot of the updated object.
- The adjustments map of `applyLargestRemainderMethod` is keyed by the winners' ids. The model uses a sequence aligned with the winners, and the lookup by id is `Balancer.AdjustmentFor`.
- `SettlementService.CalculateDiff` is a ghost function: `cashOuts.values.sum()` sums over a map whose keys have no order. It is related to the compiled diff by `SettlementService.CalculateDiffMatchesSettle`.
- `Balancer.BalanceProportionally` keeps one adjustment per winner position, not per id. When two winners share an id, every player with that id gets the share of the first such winner, and the result is `Ok`. The code's `associate` collapses them into one map entry, so its closing `require` can throw `IllegalArgumentException` instead. That failure is not modelled, because ObjectIds are distinct.
- `Balancer.BalanceIsZeroSum` assumes distinct player ids, which ObjectIds are. With a repeated id, MAX_WINNER would add `diff` to every player sharing the winner's id.
- `DebtFacts.MinimalDebtsSettle` assumes nets that sum to zero, as `settle` produces them. Without that, the sweep leaves the excess of the larger side unpaid, as `DebtFacts.MinimalDebtsTotal` shows.
- `SessionService.AddPlayerKeepsWellFormed` assumes the new `ObjectId` differs from the existing player ids.
