/**
 * MaxFeeTxHandler: the fee-ordered epoch handler. It sorts the candidates
 * by ascending fee against the starting pool, then makes the same greedy
 * pass as TxHandler, except that an accepted transaction's outputs are
 * added to the pool, where later candidates can spend them.
 */
module MaxFeeHandler {
  import opened Ledger
  import opened Pool
  import opened Validation
  import opened Settlement
  import opened FeeOrder

  class MaxFeeTxHandler {
    /** The pool this handler settles against: the caller's own object, not a copy. */
    const utxoPool: UTXOPool

    constructor (utxoPool: UTXOPool)
      ensures this.utxoPool == utxoPool
    {
      this.utxoPool := utxoPool;
    }

    /** isValidTx against this handler's current pool (the same rules, in the same order, as TxHandler's). */
    method IsValidTx(crypto: Crypto, tx: Transaction) returns (valid: bool)
      ensures valid == ValidTx(crypto, utxoPool.utxos, tx)
      ensures valid <==> FirstViolation(crypto, utxoPool.utxos, tx) == None
    {
      valid := Validation.IsValidTx(crypto, utxoPool, tx);
      FirstViolationNoneIff(crypto, utxoPool.utxos, tx);
    }

    /**
     * handleTxs: the candidates sorted by fee against the pool as it stands
     * on entry, then one SpendAndCreate greedy pass over them.
     */
    method HandleTxs(crypto: Crypto, possibleTxs: seq<Transaction>) returns (accepted: seq<Transaction>)
      modifies utxoPool
      ensures Epoch(accepted, utxoPool.utxos) ==
              Settle(SpendAndCreate, crypto, old(utxoPool.utxos), SortByFee(old(utxoPool.utxos), possibleTxs))
    {
      var possibleTxsList := SortByFee(utxoPool.utxos, possibleTxs);
      accepted := AcceptGreedily(crypto, possibleTxsList);
    }

    /** The greedy pass of handleTxs over the already sorted candidates. */
    method AcceptGreedily(crypto: Crypto, possibleTxsList: seq<Transaction>) returns (accepted: seq<Transaction>)
      modifies utxoPool
      ensures Epoch(accepted, utxoPool.utxos) == Settle(SpendAndCreate, crypto, old(utxoPool.utxos), possibleTxsList)
    {
      ghost var pool0 := utxoPool.utxos;
      accepted := [];
      var i := 0;
      while i < |possibleTxsList|
        invariant 0 <= i <= |possibleTxsList|
        invariant Epoch(accepted, utxoPool.utxos) == Settle(SpendAndCreate, crypto, pool0, possibleTxsList[..i])
      {
        var possibleTx := possibleTxsList[i];
        SettleStep(SpendAndCreate, crypto, pool0, possibleTxsList, i);
        var valid := IsValidTx(crypto, possibleTx);
        if valid {
          accepted := accepted + [possibleTx];
          RemoveSpent(possibleTx);
          AddOutputs(possibleTx);
        }
        i := i + 1;
      }
      assert possibleTxsList[..i] == possibleTxsList;
    }

    /** The first inner loop of handleTxs for an accepted transaction: remove every UTXO it spends. */
    method RemoveSpent(possibleTx: Transaction)
      modifies utxoPool
      ensures utxoPool.utxos == old(utxoPool.utxos) - Spent(possibleTx)
    {
      var j := 0;
      while j < |possibleTx.inputs|
        invariant 0 <= j <= |possibleTx.inputs|
        invariant utxoPool.utxos == old(utxoPool.utxos) - Refs(possibleTx.inputs[..j])
      {
        var input := possibleTx.inputs[j];
        utxoPool.RemoveUTXO(UTXO(input.prevTxHash, input.outputIndex));
        RefsSnoc(possibleTx.inputs, j);
        j := j + 1;
      }
      assert possibleTx.inputs[..j] == possibleTx.inputs;
    }

    /** The second inner loop: add `(hash, i) -> outputs[i]` for every output, overwriting any entry already there. */
    method AddOutputs(possibleTx: Transaction)
      modifies utxoPool
      ensures utxoPool.utxos == old(utxoPool.utxos) + Created(possibleTx)
    {
      ghost var rest := utxoPool.utxos;
      var outputs := possibleTx.outputs;
      var k := 0;
      while k < |outputs|
        invariant 0 <= k <= |outputs|
        invariant utxoPool.utxos == rest + CreatedBelow(possibleTx, k)
      {
        var output := outputs[k];
        CreatedBelowSnoc(rest, possibleTx, k);
        utxoPool.AddUTXO(UTXO(possibleTx.hash, k), output);
        k := k + 1;
      }
    }

    /**
     * getFees: claimed input value minus output value against this
     * handler's pool, or 0 at the first claimed output that is absent.
     */
    method GetFees(tx: Transaction) returns (fee: int)
      ensures fee == Fee(utxoPool.utxos, tx)
    {
      var inputSum := 0;
      var outputSum := 0;
      var i := 0;
      while i < |tx.inputs|
        invariant 0 <= i <= |tx.inputs|
        invariant InputsExist(utxoPool.utxos, tx.inputs[..i])
        invariant inputSum == InputSum(utxoPool.utxos, tx.inputs[..i])
      {
        var input := tx.inputs[i];
        var utxo := UTXO(input.prevTxHash, input.outputIndex);
        if !utxoPool.Contains(utxo) {
          return 0;
        }
        var previousOutput := utxoPool.GetTxOutput(utxo).value;
        inputSum := inputSum + previousOutput.value;
        assert tx.inputs[..i + 1][..i] == tx.inputs[..i];
        i := i + 1;
      }
      assert tx.inputs[..i] == tx.inputs;

      var outputs := tx.outputs;
      var j := 0;
      while j < |outputs|
        invariant 0 <= j <= |outputs|
        invariant outputSum == OutputSum(outputs[..j])
      {
        outputSum := outputSum + outputs[j].value;
        assert outputs[..j + 1][..j] == outputs[..j];
        j := j + 1;
      }
      assert outputs[..j] == outputs;
      return inputSum - outputSum;
    }
  }

  /**
   * The accepted transactions come out in non-decreasing order of their
   * fee against the starting pool, and each is one of the candidates.
   */
  lemma AcceptedInFeeOrder(crypto: Crypto, pool0: map<UTXO, Output>, txs: seq<Transaction>)
    ensures var acc := Settle(SpendAndCreate, crypto, pool0, SortByFee(pool0, txs)).accepted;
      && (forall i, j :: 0 <= i < j < |acc| ==> Fee(pool0, acc[i]) <= Fee(pool0, acc[j]))
      && multiset(acc) <= multiset(txs)
  {
    var sorted := SortByFee(pool0, txs);
    var acc := Settle(SpendAndCreate, crypto, pool0, sorted).accepted;
    SettleSubsequence(SpendAndCreate, crypto, pool0, sorted);
    SubsequenceKeepsOrder(FeeKey(pool0), acc, sorted);
    forall i, j | 0 <= i < j < |acc| ensures Fee(pool0, acc[i]) <= Fee(pool0, acc[j]) {
      assert FeeKey(pool0)(acc[i]) <= FeeKey(pool0)(acc[j]);
    }
  }

  /** Accepting `tx` would remove or overwrite `u`. */
  predicate Disturbs(u: UTXO, tx: Transaction) {
    u in Spent(tx) || u in Created(tx)
  }

  /** One step of the pass keeps an entry that the candidate, if accepted, neither spends nor re-creates. */
  lemma StepKeeps(crypto: Crypto, pool0: map<UTXO, Output>, txs: seq<Transaction>, n: nat, u: UTXO, o: Output)
    requires n < |txs|
    requires var pool := Settle(SpendAndCreate, crypto, pool0, txs[..n]).pool; u in pool && pool[u] == o
    requires Accepts(SpendAndCreate, crypto, pool0, txs, n) ==> !Disturbs(u, txs[n])
    ensures var pool := Settle(SpendAndCreate, crypto, pool0, txs[..n + 1]).pool; u in pool && pool[u] == o
  {
    SettleStep(SpendAndCreate, crypto, pool0, txs, n);
    if Accepts(SpendAndCreate, crypto, pool0, txs, n) {
      ApplyKeeps(SpendAndCreate, Settle(SpendAndCreate, crypto, pool0, txs[..n]).pool, txs[n], u);
    }
  }

  /** Accepting candidate `i` puts each of its outputs in the pool. */
  lemma StepCreates(crypto: Crypto, pool0: map<UTXO, Output>, txs: seq<Transaction>, i: nat, k: nat)
    requires i < |txs|
    requires Accepts(SpendAndCreate, crypto, pool0, txs, i)
    requires k < |txs[i].outputs|
    ensures var pool := Settle(SpendAndCreate, crypto, pool0, txs[..i + 1]).pool;
      UTXO(txs[i].hash, k) in pool && pool[UTXO(txs[i].hash, k)] == txs[i].outputs[k]
  {
    SettleStep(SpendAndCreate, crypto, pool0, txs, i);
    ApplyCreates(Settle(SpendAndCreate, crypto, pool0, txs[..i]).pool, txs[i], k);
  }

  /**
   * An output created by accepted candidate `i` is in the pool, with the
   * value and address it was created with, for every later candidate up to
   * `n`, as long as no candidate accepted in between spent or re-created it.
   */
  lemma {:induction false} CreatedStaysAvailable(crypto: Crypto, pool0: map<UTXO, Output>, txs: seq<Transaction>,
                                                 i: nat, n: nat, k: nat)
    requires i < n <= |txs|
    requires Accepts(SpendAndCreate, crypto, pool0, txs, i)
    requires k < |txs[i].outputs|
    requires forall m {:trigger Disturbs(UTXO(txs[i].hash, k), txs[m])} ::
               i < m < n && Disturbs(UTXO(txs[i].hash, k), txs[m]) ==> !Accepts(SpendAndCreate, crypto, pool0, txs, m)
    ensures var pool := Settle(SpendAndCreate, crypto, pool0, txs[..n]).pool;
      UTXO(txs[i].hash, k) in pool && pool[UTXO(txs[i].hash, k)] == txs[i].outputs[k]
    decreases n
  {
    if n - 1 == i {
      StepCreates(crypto, pool0, txs, i, k);
    } else {
      CreatedStaysAvailable(crypto, pool0, txs, i, n - 1, k);
      StepKeeps(crypto, pool0, txs, n - 1, UTXO(txs[i].hash, k), txs[i].outputs[k]);
    }
  }

  /**
   * No two accepted transactions spend the same identifier, provided no
   * accepted transaction creates an identifier that it, or a transaction
   * accepted before it, spent. A transaction accepted a second time breaks
   * this, and so would a digest collision.
   */
  lemma AcceptedSpendsDisjointFreshDigests(crypto: Crypto, pool0: map<UTXO, Output>, txs: seq<Transaction>)
    requires var acc := Settle(SpendAndCreate, crypto, pool0, txs).accepted;
      forall k, m :: 0 <= k <= m < |acc| ==> Spent(acc[k]) !! Created(acc[m]).Keys
    ensures var acc := Settle(SpendAndCreate, crypto, pool0, txs).accepted;
      forall k, l :: 0 <= k < l < |acc| ==> Spent(acc[k]) !! Spent(acc[l])
  {
    var acc := Settle(SpendAndCreate, crypto, pool0, txs).accepted;
    forall k, l | 0 <= k < l < |acc| ensures Spent(acc[k]) !! Spent(acc[l]) {
      if u :| u in Spent(acc[k]) && u in Spent(acc[l]) {
        AcceptedSpendsDisjoint(SpendAndCreate, crypto, pool0, txs, k, l, u);
      }
    }
  }
}
