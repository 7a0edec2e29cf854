# ScroogeCoin epoch settlement, modelled in Dafny

ScroogeCoin is a toy centralised ledger. Its state is a pool of unspent
transaction outputs (UTXOs). Each UTXO is identified by the digest of the
transaction that created it and the output's position, and maps to an
output: a value and a recipient's public key. Once per epoch a handler
receives a batch of proposed transactions. It checks each one against the
pool as it stands at that moment, accepts the valid ones and updates the
pool in place. There are two handlers:

- `TxHandler` takes the candidates in the caller's order. For each accepted
  transaction it removes the UTXOs that transaction spends. It does not add
  the outputs the transaction creates.
- `MaxFeeTxHandler` first sorts the candidates by ascending fee, with each
  fee computed against the pool at the start of the epoch. It then makes
  the same greedy pass. For each accepted transaction it removes the spent
  UTXOs and adds `(tx.hash, i) -> outputs[i]` for every output.

Both handlers use the same validator, `isValidTx`, which checks five rules
in this order:

1. every claimed UTXO is in the pool;
2. each input's signature verifies against the claimed output's address;
3. no UTXO is claimed twice (tracked in a scratch pool);
4. no output value is negative;
5. the input values sum to at least the output values.

The project has these modules:

- `Ledger` (`ledger.dfy`) holds the data model: `UTXO`, `Output`, `Input`,
  `Transaction`, and the cryptographic collaborator `Crypto`, which is left
  uninterpreted. It also defines the derived sets and sums: `Spent`,
  `Created`, `InputSum` and `OutputSum`.
- `Pool` (`utxo_pool.dfy`) is the mutable `UTXOPool` class: a
  `map<UTXO, Output>` field with `Contains`, `GetTxOutput`, `AddUTXO` and
  `RemoveUTXO`. `UTXOPool.java` is not part of this model. The class gives
  the map semantics the handlers rely on.
- `Validation` (`validation.dfy`) contains:
  - the imperative validator `IsValidTx`, with its two loops and its
    scratch pool;
  - the declarative rule set `ValidTx` it is proved equal to;
  - the rule-ordered diagnostic `FirstViolation`;
  - the fee function `Fee`, which `getFees` computes.
- `Settlement` (`settlement.dfy`) defines one greedy pass as a function,
  `Settle`, parameterised by what accepting a transaction does to the pool
  (`SpendOnly` for `TxHandler`, `SpendAndCreate` for `MaxFeeTxHandler`). It
  also holds the lemmas about the accepted list, the final pool and double
  spending.
- `BaselineHandler` (`baseline_handler.dfy`) is the class `TxHandler`.
- `FeeOrder` (`fee_order.dfy`) is the ascending-fee sort. It is a stable
  insertion sort, proved sorted, a permutation, and stable.
- `MaxFeeHandler` (`max_fee_handler.dfy`) is the class `MaxFeeTxHandler`.
- `Conservation` (`conservation.dfy`) covers the total value held in the
  pool across an epoch.
- `Scenarios` (`scenarios.dfy`) holds concrete epochs: a single spend, a
  repeated claim, two conflicting spends, a chain that the fee order
  breaks, a caller whose pool object the handler changes, and a
  transaction sent twice, which lets one UTXO be spent twice.

Each handler method is proved against a definition of its own:

- `IsValidTx` returns exactly `ValidTx`.
- `GetFees` returns exactly `Fee`.
- `RemoveSpent` leaves the old map minus `Spent(tx)`, and `AddOutputs`
  leaves the old map plus `Created(tx)`. Together they are `Apply`.
- `HandleTxs`, and `MaxFeeTxHandler.AcceptGreedily`, return exactly the
  accepted list of `Settle(policy, ...)` and leave exactly its pool.

The properties of `ValidTx`, `Fee`, `Apply` and `Settle` are then proved as
lemmas.

Where the code and the handlers' own documentation disagree, the model
follows the code:

- Both constructors store the caller's pool object instead of copying it.
  The model's handlers hold a reference to the caller's `UTXOPool`, and
  `Scenarios.SharedPoolEpoch` shows the caller's object changing after an
  epoch.
- `TxHandler.handleTxs` never adds new outputs, so the model's baseline pass
  only removes UTXOs.
- The fee sort in `MaxFeeTxHandler` is a heuristic, and no optimality is
  claimed. `Scenarios.FeeOrderBreaksChain` exhibits a chain of two valid
  transactions of which the fee order accepts only one.

Validation is deterministic by construction. `IsValidTx` returns a function
of the pool and the transaction, and it declares no `modifies` clause, so
the handler's pool is unchanged by it. Only the freshly allocated scratch
pool is written.

## Model

| member | source | states |
|---|---|---|
| Validation.IsValidTx | ScroogeCoin/src/ch/scrooge/TxHandler.java:30-69 | the result is true exactly when all five rules hold against the pool: inputs exist, signatures verify, no UTXO is claimed twice, no output is negative, and input sum ≥ output sum (so a zero fee is accepted); the pool is not modified, only a fresh scratch pool is |
| Validation.FirstViolationNoneIff | ScroogeCoin/src/ch/scrooge/TxHandler.java:30-68 | the rule-ordered scan finds no violation exactly when the transaction is valid |
| Validation.FirstViolationIsFirst | ScroogeCoin/src/ch/scrooge/TxHandler.java:34-65 | the violation the scan reports is genuine and is the first one the validator's check order reaches: every earlier input passes rules 1-3, a signature is examined only for an existing input, and rule 4 or 5 is reported only once all inputs pass |
| Validation.MissingInputInvalid | ScroogeCoin/src/ch/scrooge/TxHandler.java:37-40 | a transaction with an input claiming an absent UTXO is invalid |
| Validation.BadSignatureInvalid | ScroogeCoin/src/ch/scrooge/TxHandler.java:41-45 | a transaction with an input whose signature fails against the claimed output's address is invalid |
| Validation.DuplicateInputInvalid | ScroogeCoin/src/ch/scrooge/TxHandler.java:47-52 | a transaction claiming the same UTXO in two inputs is invalid, whatever else holds |
| Validation.NegativeOutputInvalid | ScroogeCoin/src/ch/scrooge/TxHandler.java:58-62 | a transaction with a negative output value is invalid, whatever its inputs |
| Validation.ValidFeeNonNegative | ScroogeCoin/src/ch/scrooge/MaxFeeTxHandler.java:99-118 | a valid transaction's fee is never negative |
| BaselineHandler.TxHandler.constructor | ScroogeCoin/src/ch/scrooge/TxHandler.java:17-19 | the handler settles against the caller's own pool object (an alias, not a copy) |
| BaselineHandler.TxHandler.IsValidTx | ScroogeCoin/src/ch/scrooge/TxHandler.java:30-69 | the result is the five-rule validity against the handler's current pool, and it is true exactly when the rule-ordered scan `FirstViolation` finds no violation |
| BaselineHandler.TxHandler.HandleTxs | ScroogeCoin/src/ch/scrooge/TxHandler.java:76-89 | the returned list and the new pool are exactly those of the SpendOnly greedy pass over the candidates in caller order from the pool on entry |
| BaselineHandler.TxHandler.RemoveSpent | ScroogeCoin/src/ch/scrooge/TxHandler.java:82-84 | the pool afterwards is the pool before minus exactly the UTXOs the accepted transaction spends |
| BaselineHandler.ReplaySpendOnly | ScroogeCoin/src/ch/scrooge/TxHandler.java:82-84 | applying accepted transactions without creating outputs leaves the starting pool minus everything they spend |
| BaselineHandler.SpentAllMembers | ScroogeCoin/src/ch/scrooge/TxHandler.java:82-84 | a UTXO is among the spent ones exactly when some accepted transaction spends it |
| BaselineHandler.BaselineEpoch | ScroogeCoin/src/ch/scrooge/TxHandler.java:79-85 | after a baseline epoch: the new pool is the old one minus the spent UTXOs and no key is added or changed; every spent UTXO was in the starting pool; each accepted transaction was valid against the starting pool minus what the earlier accepted ones spent; no two accepted transactions spend the same UTXO |
| Settlement.ApplyFrame | ScroogeCoin/src/ch/scrooge/MaxFeeTxHandler.java:84-92 | accepting a transaction removes each UTXO it spends, adds `(hash, k) -> outputs[k]` for each output (SpendAndCreate only), and leaves every other key and value as it was |
| Settlement.ApplyKeeps | ScroogeCoin/src/ch/scrooge/MaxFeeTxHandler.java:84-92 | a UTXO that the transaction neither spends nor creates keeps its presence and its value |
| Settlement.ApplyOrigin | ScroogeCoin/src/ch/scrooge/MaxFeeTxHandler.java:84-92 | every UTXO in the pool after accepting a transaction either was created by it (SpendAndCreate only) or was there before and is not one it spends |
| Settlement.SettleSubsequence | ScroogeCoin/src/ch/scrooge/TxHandler.java:79-81 | the accepted list is a subsequence of the candidates, in the order they were considered |
| Settlement.SettlePoolIsReplay | ScroogeCoin/src/ch/scrooge/MaxFeeTxHandler.java:81-94 | the final pool is the starting pool with exactly the accepted transactions applied in acceptance order |
| Settlement.SettleAcceptedValid | ScroogeCoin/src/ch/scrooge/TxHandler.java:79-81 | each accepted transaction was valid against the pool the transactions accepted before it left |
| Settlement.SpentStaysOut | ScroogeCoin/src/ch/scrooge/MaxFeeTxHandler.java:84-92 | a UTXO spent by an accepted candidate is back in the pool later only under SpendAndCreate and only if an accepted candidate re-created it |
| Settlement.StepOrigin | ScroogeCoin/src/ch/scrooge/MaxFeeTxHandler.java:81-93 | a UTXO in the pool after a candidate is considered was created by that candidate, if accepted, or was there before and was not spent by it |
| Settlement.LaterConflictRejected | ScroogeCoin/src/ch/scrooge/MaxFeeTxHandler.java:81-86 | of two candidates claiming one UTXO, if the earlier is accepted the later is rejected, unless (SpendAndCreate only) an accepted candidate in between has that UTXO's source digest and re-created it |
| Settlement.ReplaySpentStaysOut | ScroogeCoin/src/ch/scrooge/MaxFeeTxHandler.java:84-92 | the same as SpentStaysOut, for a replayed accepted list |
| Settlement.AcceptedSpendsDisjoint | ScroogeCoin/src/ch/scrooge/TxHandler.java:82-84 | two accepted transactions share a spent UTXO only under SpendAndCreate, and only when an accepted transaction between them re-created it under the same digest |
| FeeOrder.InsertBy | ScroogeCoin/src/ch/scrooge/MaxFeeTxHandler.java:77 | inserting into a sorted sequence keeps it sorted and adds exactly the one element |
| FeeOrder.SortBy | ScroogeCoin/src/ch/scrooge/MaxFeeTxHandler.java:76-77 | the result is sorted by the key and is a permutation of the input |
| FeeOrder.SortByStable | ScroogeCoin/src/ch/scrooge/MaxFeeTxHandler.java:76-77 | the sort is stable: the elements of each key come out in their original order |
| FeeOrder.SortByFeeSortsAndPermutes | ScroogeCoin/src/ch/scrooge/MaxFeeTxHandler.java:76-77 | the sorted candidates are a permutation of the candidates in non-decreasing order of fee against the given pool |
| FeeOrder.SubsequenceKeepsOrder | ScroogeCoin/src/ch/scrooge/MaxFeeTxHandler.java:79-83 | a subsequence of a sorted sequence is sorted and draws its elements from it |
| MaxFeeHandler.MaxFeeTxHandler.constructor | ScroogeCoin/src/ch/scrooge/MaxFeeTxHandler.java:14-16 | the handler settles against the caller's own pool object (an alias, not a copy) |
| MaxFeeHandler.MaxFeeTxHandler.IsValidTx | ScroogeCoin/src/ch/scrooge/MaxFeeTxHandler.java:27-66 | the same five rules, in the same order, as the baseline validator, against the handler's current pool, and it is true exactly when the rule-ordered scan `FirstViolation` finds no violation |
| MaxFeeHandler.MaxFeeTxHandler.HandleTxs | ScroogeCoin/src/ch/scrooge/MaxFeeTxHandler.java:75-97 | the returned list and the new pool are exactly those of the SpendAndCreate greedy pass over the candidates sorted by fee against the pool on entry |
| MaxFeeHandler.MaxFeeTxHandler.AcceptGreedily | ScroogeCoin/src/ch/scrooge/MaxFeeTxHandler.java:79-94 | the remove-and-add loop yields exactly the SpendAndCreate pass over the given order |
| MaxFeeHandler.MaxFeeTxHandler.RemoveSpent | ScroogeCoin/src/ch/scrooge/MaxFeeTxHandler.java:84-86 | the pool afterwards is the pool before minus exactly the UTXOs the accepted transaction spends |
| MaxFeeHandler.MaxFeeTxHandler.AddOutputs | ScroogeCoin/src/ch/scrooge/MaxFeeTxHandler.java:88-92 | the pool afterwards is the pool before with `(hash, i) -> outputs[i]` set for every output, each overwriting any entry already under that key |
| MaxFeeHandler.MaxFeeTxHandler.GetFees | ScroogeCoin/src/ch/scrooge/MaxFeeTxHandler.java:99-119 | the result is 0 if some claimed UTXO is absent, otherwise claimed input value minus output value; signatures, repeats and negative outputs are not looked at |
| MaxFeeHandler.AcceptedInFeeOrder | ScroogeCoin/src/ch/scrooge/MaxFeeTxHandler.java:76-83 | the accepted transactions come out in non-decreasing order of their fee against the starting pool, and each comes from the candidates (as a sub-multiset) |
| MaxFeeHandler.StepKeeps | ScroogeCoin/src/ch/scrooge/MaxFeeTxHandler.java:81-93 | considering one more candidate keeps an entry that the candidate, if accepted, neither spends nor re-creates |
| MaxFeeHandler.StepCreates | ScroogeCoin/src/ch/scrooge/MaxFeeTxHandler.java:88-92 | once a candidate is accepted, each of its outputs is in the pool under `(hash, i)` with its value and address |
| MaxFeeHandler.CreatedStaysAvailable | ScroogeCoin/src/ch/scrooge/MaxFeeTxHandler.java:88-92 | an output created by an accepted candidate stays in the pool, with its value and address, for every later candidate until an accepted one spends or re-creates it |
| MaxFeeHandler.AcceptedSpendsDisjointFreshDigests | ScroogeCoin/src/ch/scrooge/MaxFeeTxHandler.java:84-92 | if no accepted transaction creates a UTXO that it or an earlier accepted one spent, then no two accepted transactions spend the same UTXO |
| Conservation.TotalSpend | ScroogeCoin/src/ch/scrooge/TxHandler.java:82-84 | removing the distinct UTXOs a transaction claims lowers the pool's total by exactly its input sum |
| Conservation.TotalCreate | ScroogeCoin/src/ch/scrooge/MaxFeeTxHandler.java:88-92 | adding a transaction's outputs under fresh identifiers raises the pool's total by exactly its output sum |
| Conservation.ApplyConserves | ScroogeCoin/src/ch/scrooge/MaxFeeTxHandler.java:82-92 | accepting a valid transaction lowers the pool's total by its input sum (SpendOnly) or by exactly its fee (SpendAndCreate, fresh identifiers) |
| Conservation.ReplayConserves | ScroogeCoin/src/ch/scrooge/MaxFeeTxHandler.java:81-94 | replaying valid accepted transactions lowers the total by exactly the sum of what each withdraws, provided, under SpendAndCreate, that each transaction's new identifiers are fresh |
| Conservation.FeesNonNegative | ScroogeCoin/src/ch/scrooge/MaxFeeTxHandler.java:64-65 | the fees of valid accepted transactions add up to at least 0 |
| Conservation.EpochConservesValue | ScroogeCoin/src/ch/scrooge/MaxFeeTxHandler.java:79-94 | over an epoch the pool's total drops by exactly the accepted transactions' withdrawals; under SpendAndCreate, provided each accepted transaction's new identifiers are fresh, those are their fees and the total never grows |
| Conservation.TotalUpdateLe | ScroogeCoin/src/ch/scrooge/MaxFeeTxHandler.java:88-92 | in a pool of non-negative values, setting one identifier, overwriting or not, raises the total by at most the new value |
| Conservation.TotalCreateLe | ScroogeCoin/src/ch/scrooge/MaxFeeTxHandler.java:88-92 | adding non-negative outputs to a non-negative pool, overwriting or not, keeps it non-negative and raises its total by at most their output sum |
| Conservation.ApplyNoGrow | ScroogeCoin/src/ch/scrooge/MaxFeeTxHandler.java:82-92 | accepting a valid transaction under SpendAndCreate keeps a non-negative pool non-negative and lowers its total by at least the fee, with no freshness hypothesis |
| Conservation.ReplayNoGrow | ScroogeCoin/src/ch/scrooge/MaxFeeTxHandler.java:81-94 | replaying valid transactions under SpendAndCreate from a non-negative pool lowers the total by at least the sum of their fees, with no freshness hypothesis |
| Conservation.EpochNeverGrows | ScroogeCoin/src/ch/scrooge/MaxFeeTxHandler.java:79-94 | over any SpendAndCreate pass, the fee-ordered one included, from a pool of non-negative values and with resubmissions allowed, the pool stays non-negative and its total drops by at least the accepted fees, so it never grows |
| Scenarios.SpendOneOutput | ScroogeCoin/src/ch/scrooge/MaxFeeTxHandler.java:81-92 | T1 spending (h0, 0) worth 10 and paying 7 to B is valid with fee 3, and the epoch [T1] leaves only (hash(T1), 0) worth 7 for B |
| Scenarios.RepeatedClaimInvalid | ScroogeCoin/src/ch/scrooge/TxHandler.java:47-52 | T2, claiming (h0, 0) twice with valid signatures, is invalid, rule 3 at input 1 is its first violation, and its fee still reads 5 |
| Scenarios.ConflictKeepsFirst | ScroogeCoin/src/ch/scrooge/TxHandler.java:79-85 | a baseline epoch [T3, T4] with both spending (h1, 0) accepts exactly [T3] |
| Scenarios.ChainFees | ScroogeCoin/src/ch/scrooge/MaxFeeTxHandler.java:99-118 | against the starting pool T1's fee is 3 and T5's is 0, because the output T5 claims does not exist yet |
| Scenarios.FeeOrderPutsChildFirst | ScroogeCoin/src/ch/scrooge/MaxFeeTxHandler.java:76-77 | the fee order of [T1, T5] is [T5, T1] |
| Scenarios.ChildFirstRejected | ScroogeCoin/src/ch/scrooge/MaxFeeTxHandler.java:81-94 | considered before T1, T5 is rejected and only T1 is accepted |
| Scenarios.ParentFirstAccepted | ScroogeCoin/src/ch/scrooge/MaxFeeTxHandler.java:81-94 | considered after T1, T5 is accepted too, since T1's output is in the pool by then |
| Scenarios.FeeOrderBreaksChain | ScroogeCoin/src/ch/scrooge/MaxFeeTxHandler.java:76-92 | with T5 spending T1's new output, the fee-ordered pass accepts only T1, while the pass over [T1, T5] as given accepts both |
| Scenarios.SharedPoolEpoch | ScroogeCoin/src/ch/scrooge/MaxFeeTxHandler.java:14-16 | after the fee-ordered handler settles [T1], the caller's own pool object holds the new pool |
| Scenarios.SharedPoolBaselineEpoch | ScroogeCoin/src/ch/scrooge/TxHandler.java:17-19 | after the baseline handler settles [T1], the caller's own pool object is empty: (h0, 0) is removed and nothing is added |
| Scenarios.ResubmittedFees | ScroogeCoin/src/ch/scrooge/MaxFeeTxHandler.java:99-118 | against an empty pool both X (no inputs) and Y (whose claimed output is absent) have fee 0 |
| Scenarios.SortByEqualKeys | ScroogeCoin/src/ch/scrooge/MaxFeeTxHandler.java:76-77 | candidates that all have the same key come out of the stable sort in their original order |
| Scenarios.ResubmittedOrder | ScroogeCoin/src/ch/scrooge/MaxFeeTxHandler.java:76-77 | the fee order leaves [X, Y, X, Y] unchanged |
| Scenarios.MintStep | ScroogeCoin/src/ch/scrooge/MaxFeeTxHandler.java:81-92 | X is valid against any pool, and accepting it sets (hash(X), 0) to its output, whether or not that identifier was there before |
| Scenarios.SpendMintStep | ScroogeCoin/src/ch/scrooge/MaxFeeTxHandler.java:81-92 | wherever (hash(X), 0) holds X's output, Y is valid, and accepting it removes that entry and adds (hash(Y), 0) |
| Scenarios.ResubmissionFirstTwo | ScroogeCoin/src/ch/scrooge/MaxFeeTxHandler.java:81-93 | the pass over [X, Y] accepts both and leaves only Y's output |
| Scenarios.ResubmissionPrefix | ScroogeCoin/src/ch/scrooge/MaxFeeTxHandler.java:81-93 | the pass over [X, Y, X] accepts all three, and X's output is back in the pool beside Y's |
| Scenarios.ResubmissionAccepted | ScroogeCoin/src/ch/scrooge/MaxFeeTxHandler.java:81-93 | the pass over [X, Y, X, Y] accepts all four |
| Scenarios.ResubmissionNotFresh | ScroogeCoin/src/ch/scrooge/MaxFeeTxHandler.java:88-92 | when the second Y is accepted, the identifier it creates is still in the pool, so the freshness hypothesis fails |
| Scenarios.ResubmittedDoubleSpend | ScroogeCoin/src/ch/scrooge/MaxFeeTxHandler.java:76-93 | the fee-ordered pass over [X, Y, X, Y] accepts all four, so the one UTXO Y spends, (hash(X), 0), is spent twice in one epoch; the freshness hypothesis of the conservation and disjointness lemmas does not hold there |
| Scenarios.ResubmittedEpoch | ScroogeCoin/src/ch/scrooge/MaxFeeTxHandler.java:75-96 | the fee-ordered handler itself, given [X, Y, X, Y] and an empty pool, returns all four |

## Left out

- Values are exact integers, not `double`. Rounding, accumulation order and NaN are not modelled.
- `Crypto.verifySignature`, `Transaction.getRawDataToSign` and the transaction digest are foreign calls. The first two are the two function fields of a `Crypto` value passed as a parameter. The digest is a plain field of `Transaction`.
- `UTXOPool.java`, `UTXO.java` and `Transaction.java` are not part of this model. Their behaviour is modelled as a map and datatypes.
- `possibleTxs` is a sequence, not a Java array. `MaxFeeTxHandler.handleTxs` sorts the caller's array in place through `Arrays.asList`; the model sorts a copy, so it does not show the caller's array reordered.
- The Java sort's own algorithm is not modelled. Any stable sort yields the same order, and the model uses a stable insertion sort.
- The `(Transaction[]) validTransactions.toArray()` cast in `TxHandler.handleTxs` is a Java runtime-typing artefact that throws `ClassCastException`. The model returns the accepted sequence.
- No claim is made that the fee order maximises the total fee. The code only sorts and then makes the greedy pass.
- Settlement.LaterConflictRejected: the conclusion lets the later candidate through when an accepted transaction in between re-created the claimed UTXO. The code really does this. A transaction sent again unchanged keeps its digest, so accepting it a second time adds its outputs back under the same identifiers (MaxFeeTxHandler.java:88-92), and they can then be spent again. No hash collision is needed. `Scenarios.ResubmittedDoubleSpend` shows such an epoch.
- Settlement.AcceptedSpendsDisjoint: weaker than plain disjointness under SpendAndCreate, for the same reason. A resubmitted transaction re-creates an identifier that was already spent, and the code accepts the second spend of it.
- MaxFeeHandler.AcceptedSpendsDisjointFreshDigests: assumes each accepted transaction creates its outputs under identifiers not spent earlier in the epoch. That hypothesis excludes resubmitted transactions as well as hash collisions. Without it the conclusion is false of the code, as `Scenarios.ResubmittedDoubleSpend` shows.
- Conservation.EpochConservesValue: the exact equation (the total drops by exactly the withdrawals) assumes, under SpendAndCreate, that each accepted transaction's new identifiers are not already in the pool. That hypothesis excludes resubmitted transactions as well as hash collisions: re-adding an identifier still in the pool overwrites its value, so value is lost. `Scenarios.ResubmittedDoubleSpend` exhibits an epoch in which the hypothesis fails. Without it, `Conservation.EpochNeverGrows` still proves that the total never grows and drops by at least the fees, provided the starting pool holds no negative value.
- Conservation.ReplayConserves: the exact equation needs the same freshness hypothesis under SpendAndCreate; `Conservation.ReplayNoGrow` is its inequality without it.
