/**
 * Worked epochs: concrete pools and transactions worked through the model,
 * with any signature check that accepts the signatures used here.
 */
module Scenarios {
  import opened Ledger
  import opened Pool
  import opened Validation
  import opened Settlement
  import opened FeeOrder
  import opened Conservation
  import BaselineHandler
  import MaxFeeHandler

  const h0: Hash := [0]
  const h1: Hash := [1]
  const keyA: Address := [10]
  const keyB: Address := [11]
  const keyC: Address := [12]

  /** One output worth 10, owned by A. */
  function StartPool(): map<UTXO, Output> {
    map[UTXO(h0, 0) := Output(10, keyA)]
  }

  /** Spends (h0, 0) and pays 7 to B: a fee of 3. */
  function T1(): Transaction {
    Transaction([Input(h0, 0, [1])], [Output(7, keyB)], [101])
  }

  /** Claims (h0, 0) twice and pays 15 to B. */
  function T2(): Transaction {
    Transaction([Input(h0, 0, [2]), Input(h0, 0, [3])], [Output(15, keyB)], [102])
  }

  /** Spends the output T1 creates and pays 5 to C. */
  function T5(): Transaction {
    Transaction([Input(T1().hash, 0, [5])], [Output(5, keyC)], [105])
  }

  /** The signature checker accepts A's signature on T1's only input. */
  predicate SignsT1(crypto: Crypto) {
    crypto.verifySignature(keyA, crypto.rawDataToSign(T1(), 0), T1().inputs[0].signature)
  }

  /** T1 is valid with a fee of 3; after the fee-ordered epoch [T1], (h0, 0) is gone and (hash(T1), 0) holds 7 for B. */
  lemma SpendOneOutput(crypto: Crypto)
    requires SignsT1(crypto)
    ensures ValidTx(crypto, StartPool(), T1()) && Fee(StartPool(), T1()) == 3
    ensures Settle(SpendAndCreate, crypto, StartPool(), [T1()]) ==
            Epoch([T1()], map[UTXO(T1().hash, 0) := Output(7, keyB)])
  {
    var tx := T1();
    assert tx.inputs[..0] == [];
    assert Spent(tx) == {UTXO(h0, 0)} by {
      assert UtxoOf(tx.inputs[0]) == UTXO(h0, 0);
    }
    assert SignatureValid(crypto, StartPool(), tx, 0);
    assert Created(tx) == map[UTXO(tx.hash, 0) := Output(7, keyB)];
    assert [tx][..0] == [];
  }

  /** A transaction that claims one output twice is invalid, although its fee looks positive. */
  lemma RepeatedClaimInvalid(crypto: Crypto)
    requires crypto.verifySignature(keyA, crypto.rawDataToSign(T2(), 0), T2().inputs[0].signature)
    requires crypto.verifySignature(keyA, crypto.rawDataToSign(T2(), 1), T2().inputs[1].signature)
    ensures !ValidTx(crypto, StartPool(), T2())
    ensures FirstViolation(crypto, StartPool(), T2()) == Some(DuplicateInput(1))
    ensures Fee(StartPool(), T2()) == 5
  {
    var tx := T2();
    assert UtxoOf(tx.inputs[0]) == UtxoOf(tx.inputs[1]);
    assert tx.inputs[..1] == [tx.inputs[0]];
    assert UtxoOf(tx.inputs[..1][0]) == UTXO(h0, 0);
    assert SignatureValid(crypto, StartPool(), tx, 0);
    assert SignatureValid(crypto, StartPool(), tx, 1);
    assert tx.inputs[..0] == [];
    assert InputViolation(crypto, StartPool(), tx, 0) == None;
    assert InputViolation(crypto, StartPool(), tx, 1) == Some(DuplicateInput(1));
    assert InputSum(StartPool(), tx.inputs[..1]) == 10;
    assert InputSum(StartPool(), tx.inputs) == 20;
    assert tx.outputs[..0] == [];
    assert OutputSum(tx.outputs) == 15;
  }

  /** T3 spends (h1, 0) for 4; T4 spends it again for 3. */
  function T3(): Transaction {
    Transaction([Input(h1, 0, [3])], [Output(4, keyB)], [103])
  }

  function T4(): Transaction {
    Transaction([Input(h1, 0, [4])], [Output(3, keyC)], [104])
  }

  /** Two transactions claiming the same output: the baseline epoch [T3, T4] accepts T3 only. */
  lemma ConflictKeepsFirst(crypto: Crypto)
    requires crypto.verifySignature(keyA, crypto.rawDataToSign(T3(), 0), T3().inputs[0].signature)
    requires crypto.verifySignature(keyA, crypto.rawDataToSign(T4(), 0), T4().inputs[0].signature)
    ensures Settle(SpendOnly, crypto, map[UTXO(h1, 0) := Output(5, keyA)], [T3(), T4()]).accepted == [T3()]
  {
    var pool := map[UTXO(h1, 0) := Output(5, keyA)];
    var t3, t4 := T3(), T4();
    assert t3.inputs[..0] == [] && t4.inputs[..0] == [];
    assert SignatureValid(crypto, pool, t3, 0);
    assert Spent(t3) == {UTXO(h1, 0)} by {
      assert UtxoOf(t3.inputs[0]) == UTXO(h1, 0);
    }
    assert UtxoOf(t4.inputs[0]) == UTXO(h1, 0);
    assert InputSum(pool, t3.inputs) == 5 && OutputSum(t3.outputs) == 4;
    assert ValidTx(crypto, pool, t3);
    assert pool - Spent(t3) == map[];
    assert [t3, t4][..1] == [t3];
    assert [t3][..0] == [];
    assert Settle(SpendOnly, crypto, pool, [t3]) == Epoch([t3], map[]);
    assert !ValidTx(crypto, map[], t4);
  }

  /** Against the starting pool T1 pays a fee of 3, and T5, whose claimed output does not exist yet, a fee of 0. */
  lemma ChainFees()
    ensures Fee(StartPool(), T1()) == 3 && Fee(StartPool(), T5()) == 0
  {
    var t1, t5 := T1(), T5();
    var pool := StartPool();
    assert UtxoOf(t5.inputs[0]) == UTXO(t1.hash, 0);
    assert !InputsExist(pool, t5.inputs);
    assert t1.inputs[..0] == [] && t1.outputs[..0] == [];
    assert InputSum(pool, t1.inputs) == 10 && OutputSum(t1.outputs) == 7;
  }

  /** Two candidates whose keys are strictly descending come out swapped. */
  lemma SortSwapsPair(key: Transaction -> int, a: Transaction, b: Transaction)
    requires key(b) < key(a)
    ensures SortBy(key, [a, b]) == [b, a]
  {
    assert [b][1..] == [] && [a, b][1..] == [b];
    assert SortBy(key, [b]) == [b];
    assert InsertBy(key, a, []) == [a];
    assert InsertBy(key, a, [b]) == [b] + InsertBy(key, a, []);
  }

  /** So the fee order puts T5 before T1. */
  lemma FeeOrderPutsChildFirst()
    ensures SortByFee(StartPool(), [T1(), T5()]) == [T5(), T1()]
  {
    var key := FeeKey(StartPool());
    ChainFees();
    assert key(T5()) < key(T1());
    SortSwapsPair(key, T1(), T5());
  }

  /** T5 considered before T1 is rejected: the output it claims does not exist yet. */
  lemma ChildFirstRejected(crypto: Crypto)
    requires SignsT1(crypto)
    ensures Settle(SpendAndCreate, crypto, StartPool(), [T5(), T1()]).accepted == [T1()]
  {
    var t1, t5 := T1(), T5();
    var pool := StartPool();
    assert UtxoOf(t5.inputs[0]) == UTXO(t1.hash, 0);
    assert !ValidTx(crypto, pool, t5);
    assert [t5, t1][..1] == [t5] && [t5][..0] == [];
    SpendOneOutput(crypto);
  }

  /** T5 considered after T1 is accepted: T1's output is in the pool by then. */
  lemma ParentFirstAccepted(crypto: Crypto)
    requires SignsT1(crypto)
    requires crypto.verifySignature(keyB, crypto.rawDataToSign(T5(), 0), T5().inputs[0].signature)
    ensures Settle(SpendAndCreate, crypto, StartPool(), [T1(), T5()]).accepted == [T1(), T5()]
  {
    var t1, t5 := T1(), T5();
    var pool := StartPool();
    SpendOneOutput(crypto);
    assert [t1, t5][..1] == [t1];
    var after := map[UTXO(t1.hash, 0) := Output(7, keyB)];
    assert Settle(SpendAndCreate, crypto, pool, [t1]) == Epoch([t1], after);
    assert UtxoOf(t5.inputs[0]) == UTXO(t1.hash, 0);
    assert t5.inputs[..0] == [];
    assert SignatureValid(crypto, after, t5, 0);
    assert ValidTx(crypto, after, t5);
  }

  /**
   * Sorting by fee can cost a chain its second link: T5 spends T1's new
   * output, so the fee order puts it first, where it is rejected; the same
   * two transactions in the order [T1, T5] are both accepted.
   */
  lemma FeeOrderBreaksChain(crypto: Crypto)
    requires SignsT1(crypto)
    requires crypto.verifySignature(keyB, crypto.rawDataToSign(T5(), 0), T5().inputs[0].signature)
    ensures var sorted := SortByFee(StartPool(), [T1(), T5()]);
      && Settle(SpendAndCreate, crypto, StartPool(), sorted).accepted == [T1()]
      && Settle(SpendAndCreate, crypto, StartPool(), [T1(), T5()]).accepted == [T1(), T5()]
  {
    FeeOrderPutsChildFirst();
    ChildFirstRejected(crypto);
    ParentFirstAccepted(crypto);
  }

  /** A ledger: the handler settles directly in the caller's pool object, which it shares rather than copies. */
  method SharedPoolEpoch(crypto: Crypto) returns (pool: UTXOPool, accepted: seq<Transaction>)
    requires SignsT1(crypto)
    ensures accepted == [T1()]
    ensures pool.utxos == map[UTXO(T1().hash, 0) := Output(7, keyB)]
  {
    pool := new UTXOPool.Of(StartPool());
    var handler := new MaxFeeHandler.MaxFeeTxHandler(pool);
    SpendOneOutput(crypto);
    assert [T1()][1..] == [];
    assert SortByFee(StartPool(), [T1()]) == [T1()];
    accepted := handler.HandleTxs(crypto, [T1()]);
  }

  /** The baseline handler on the same epoch removes (h0, 0) and adds nothing. */
  method SharedPoolBaselineEpoch(crypto: Crypto) returns (pool: UTXOPool, accepted: seq<Transaction>)
    requires SignsT1(crypto)
    ensures accepted == [T1()]
    ensures pool.utxos == map[]
  {
    pool := new UTXOPool.Of(StartPool());
    var handler := new BaselineHandler.TxHandler(pool);
    SpendOneOutput(crypto);
    assert [T1()][..0] == [];
    accepted := handler.HandleTxs(crypto, [T1()]);
  }

  // ---------------------------------------------------------------------
  // A transaction sent twice
  // ---------------------------------------------------------------------

  /** Has no inputs and creates one output worth 0 for B. */
  function X(): Transaction {
    Transaction([], [Output(0, keyB)], [106])
  }

  /** Spends X's output and creates one output worth 0 for C. */
  function Y(): Transaction {
    Transaction([Input(X().hash, 0, [7])], [Output(0, keyC)], [107])
  }

  /** The signature checker accepts B's signature on Y's only input. */
  predicate SignsY(crypto: Crypto) {
    crypto.verifySignature(keyB, crypto.rawDataToSign(Y(), 0), Y().inputs[0].signature)
  }

  /** Against an empty pool both X and Y pay a fee of 0: X has no inputs, and the output Y claims is absent. */
  lemma ResubmittedFees()
    ensures Fee(map[], X()) == 0 && Fee(map[], Y()) == 0
  {
    var empty: map<UTXO, Output> := map[];
    assert X().outputs[..0] == [];
    assert UtxoOf(Y().inputs[0]) !in empty;
  }

  /** Candidates that all have one key are left in their order. */
  lemma {:induction false} SortByEqualKeys(key: Transaction -> int, txs: seq<Transaction>)
    requires forall i, j :: 0 <= i < j < |txs| ==> key(txs[i]) == key(txs[j])
    ensures SortBy(key, txs) == txs
    decreases |txs|
  {
    if txs != [] {
      var rest := txs[1..];
      forall i, j | 0 <= i < j < |rest| ensures key(rest[i]) == key(rest[j]) {
        assert rest[i] == txs[i + 1] && rest[j] == txs[j + 1];
      }
      SortByEqualKeys(key, rest);
      assert txs == [txs[0]] + rest;
    }
  }

  /** The fee order leaves [X, Y, X, Y] as it is. */
  lemma ResubmittedOrder()
    ensures SortByFee(map[], [X(), Y(), X(), Y()]) == [X(), Y(), X(), Y()]
  {
    var key := FeeKey(map[]);
    var txs := [X(), Y(), X(), Y()];
    ResubmittedFees();
    assert forall i :: 0 <= i < |txs| ==> key(txs[i]) == 0;
    SortByEqualKeys(key, txs);
  }

  /** X is valid against any pool, and accepting it puts (hash(X), 0) back. */
  lemma MintStep(crypto: Crypto, pool: map<UTXO, Output>)
    ensures ValidTx(crypto, pool, X())
    ensures Apply(SpendAndCreate, pool, X()) == pool[UTXO(X().hash, 0) := Output(0, keyB)]
  {
    var x := X();
    assert x.outputs[..0] == [];
    assert Spent(x) == {};
    assert Created(x) == map[UTXO(x.hash, 0) := Output(0, keyB)];
  }

  /** Y is valid wherever (hash(X), 0) holds X's output, and accepting it moves the value to (hash(Y), 0). */
  lemma SpendMintStep(crypto: Crypto, pool: map<UTXO, Output>)
    requires SignsY(crypto)
    requires UTXO(X().hash, 0) in pool && pool[UTXO(X().hash, 0)] == Output(0, keyB)
    ensures ValidTx(crypto, pool, Y())
    ensures Apply(SpendAndCreate, pool, Y()) == (pool - {UTXO(X().hash, 0)})[UTXO(Y().hash, 0) := Output(0, keyC)]
  {
    var y := Y();
    var u := UTXO(X().hash, 0);
    assert UtxoOf(y.inputs[0]) == u;
    assert y.inputs[..0] == [] && y.outputs[..0] == [];
    assert SignatureValid(crypto, pool, y, 0);
    assert Spent(y) == {u};
    assert Created(y) == map[UTXO(y.hash, 0) := Output(0, keyC)];
  }

  /** One accepted step of the SpendAndCreate pass from an empty pool. */
  lemma AcceptedStep(crypto: Crypto, txs: seq<Transaction>, tx: Transaction, e: Epoch)
    requires Settle(SpendAndCreate, crypto, map[], txs) == e
    requires ValidTx(crypto, e.pool, tx)
    ensures Settle(SpendAndCreate, crypto, map[], txs + [tx]) == Epoch(e.accepted + [tx], Apply(SpendAndCreate, e.pool, tx))
  {
    assert (txs + [tx])[..|txs|] == txs;
  }

  /** After [X, Y] the pool holds only Y's output. */
  lemma ResubmissionFirstTwo(crypto: Crypto)
    requires SignsY(crypto)
    ensures Settle(SpendAndCreate, crypto, map[], [X(), Y()]) == Epoch([X(), Y()], map[UTXO(Y().hash, 0) := Output(0, keyC)])
  {
    var x, y := X(), Y();
    var u, v := UTXO(x.hash, 0), UTXO(y.hash, 0);
    var empty: map<UTXO, Output> := map[];
    var p1 := map[u := Output(0, keyB)];
    var p2 := map[v := Output(0, keyC)];
    MintStep(crypto, empty);
    AcceptedStep(crypto, [], x, Epoch([], empty));
    assert [] + [x] == [x];
    assert empty[u := Output(0, keyB)] == p1;
    SpendMintStep(crypto, p1);
    assert (p1 - {u})[v := Output(0, keyC)] == p2;
    AcceptedStep(crypto, [x], y, Epoch([x], p1));
    assert [x] + [y] == [x, y];
  }

  /** After [X, Y, X] the pool holds Y's output and, once more, X's. */
  lemma ResubmissionPrefix(crypto: Crypto)
    requires SignsY(crypto)
    ensures Settle(SpendAndCreate, crypto, map[], [X(), Y(), X()]) ==
            Epoch([X(), Y(), X()], map[UTXO(Y().hash, 0) := Output(0, keyC), UTXO(X().hash, 0) := Output(0, keyB)])
  {
    var x, y := X(), Y();
    var u, v := UTXO(x.hash, 0), UTXO(y.hash, 0);
    var empty: map<UTXO, Output> := map[];
    var p1 := map[u := Output(0, keyB)];
    var p2 := map[v := Output(0, keyC)];
    ResubmissionFirstTwo(crypto);
    MintStep(crypto, p2);
    AcceptedStep(crypto, [x, y], x, Epoch([x, y], p2));
    assert [x, y] + [x] == [x, y, x];
  }

  /** From an empty pool the SpendAndCreate pass over [X, Y, X, Y] accepts all four. */
  lemma ResubmissionAccepted(crypto: Crypto)
    requires SignsY(crypto)
    ensures Settle(SpendAndCreate, crypto, map[], [X(), Y(), X(), Y()]).accepted == [X(), Y(), X(), Y()]
  {
    var x, y := X(), Y();
    var p3 := map[UTXO(y.hash, 0) := Output(0, keyC), UTXO(x.hash, 0) := Output(0, keyB)];
    ResubmissionPrefix(crypto);
    SpendMintStep(crypto, p3);
    AcceptedStep(crypto, [x, y, x], y, Epoch([x, y, x], p3));
    assert [x, y, x] + [y] == [x, y, x, y];
  }

  /** When the second Y arrives, the identifier it creates is still in the pool. */
  lemma ResubmissionNotFresh(crypto: Crypto)
    requires SignsY(crypto)
    ensures !FreshOutputs(Replay(SpendAndCreate, map[], [X(), Y(), X()]), Y())
  {
    var x, y := X(), Y();
    var pool := Replay(SpendAndCreate, map[], [x, y, x]);
    ResubmissionPrefix(crypto);
    SettlePoolIsReplay(SpendAndCreate, crypto, map[], [x, y, x]);
    assert UtxoOf(y.inputs[0]) == UTXO(x.hash, 0);
    assert Spent(y) == {UTXO(x.hash, 0)};
    assert UTXO(y.hash, 0) in Created(y);
    assert UTXO(y.hash, 0) in pool;
    assert UTXO(y.hash, 0) in (pool - Spent(y)).Keys;
  }

  /**
   * A transaction sent again unchanged keeps its digest, so the fee-ordered
   * pass can accept a double spend: X re-creates (hash(X), 0) the second
   * time it is accepted, and both copies of Y spend it. The second Y also
   * re-creates an identifier that is still in the pool.
   */
  lemma ResubmittedDoubleSpend(crypto: Crypto)
    requires SignsY(crypto)
    ensures Settle(SpendAndCreate, crypto, map[], SortByFee(map[], [X(), Y(), X(), Y()])).accepted == [X(), Y(), X(), Y()]
    ensures Spent(Y()) == {UTXO(X().hash, 0)}
    ensures !FreshOutputs(Replay(SpendAndCreate, map[], [X(), Y(), X()]), Y())
  {
    ResubmittedOrder();
    ResubmissionAccepted(crypto);
    ResubmissionNotFresh(crypto);
  }

  /** The fee-ordered handler, given [X, Y, X, Y] against an empty pool, accepts all four. */
  method ResubmittedEpoch(crypto: Crypto) returns (pool: UTXOPool, accepted: seq<Transaction>)
    requires SignsY(crypto)
    ensures accepted == [X(), Y(), X(), Y()]
  {
    pool := new UTXOPool.Of(map[]);
    var handler := new MaxFeeHandler.MaxFeeTxHandler(pool);
    ResubmittedDoubleSpend(crypto);
    accepted := handler.HandleTxs(crypto, [X(), Y(), X(), Y()]);
  }
}
