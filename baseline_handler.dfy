/**
 * TxHandler: the baseline epoch handler. It accepts candidates greedily in
 * the caller's order and removes the outputs each accepted transaction
 * spends; it does not add the outputs accepted transactions create.
 */
module BaselineHandler {
  import opened Ledger
  import opened Pool
  import opened Validation
  import opened Settlement

  class TxHandler {
    /** The pool this handler settles against: the caller's own object, not a copy. */
    const utxoPool: UTXOPool

    constructor (utxoPool: UTXOPool)
      ensures this.utxoPool == utxoPool
    {
      this.utxoPool := utxoPool;
    }

    /** isValidTx against this handler's current pool. */
    method IsValidTx(crypto: Crypto, tx: Transaction) returns (valid: bool)
      ensures valid == ValidTx(crypto, utxoPool.utxos, tx)
      ensures valid <==> FirstViolation(crypto, utxoPool.utxos, tx) == None
    {
      valid := Validation.IsValidTx(crypto, utxoPool, tx);
      FirstViolationNoneIff(crypto, utxoPool.utxos, tx);
    }

    /**
     * handleTxs: one greedy pass over `possibleTxs` in the given order. The
     * accepted transactions and the new pool are those of the SpendOnly pass.
     */
    method HandleTxs(crypto: Crypto, possibleTxs: seq<Transaction>) returns (accepted: seq<Transaction>)
      modifies utxoPool
      ensures Epoch(accepted, utxoPool.utxos) == Settle(SpendOnly, crypto, old(utxoPool.utxos), possibleTxs)
    {
      accepted := [];
      var i := 0;
      while i < |possibleTxs|
        invariant 0 <= i <= |possibleTxs|
        invariant Epoch(accepted, utxoPool.utxos) == Settle(SpendOnly, crypto, old(utxoPool.utxos), possibleTxs[..i])
      {
        var possibleTx := possibleTxs[i];
        SettleStep(SpendOnly, crypto, old(utxoPool.utxos), possibleTxs, i);
        var valid := IsValidTx(crypto, possibleTx);
        if valid {
          accepted := accepted + [possibleTx];
          RemoveSpent(possibleTx);
        }
        i := i + 1;
      }
      assert possibleTxs[..i] == possibleTxs;
    }

    /** The body of handleTxs for an accepted transaction: remove every UTXO it spends. */
    method RemoveSpent(possibleTx: Transaction)
      modifies utxoPool
      ensures utxoPool.utxos == old(utxoPool.utxos) - Spent(possibleTx)
    {
      var j := 0;
      while j < |possibleTx.inputs|
        invariant 0 <= j <= |possibleTx.inputs|
        invariant utxoPool.utxos == old(utxoPool.utxos) - Refs(possibleTx.inputs[..j])
      {
        var input := possibleTx.inputs[j];
        utxoPool.RemoveUTXO(UTXO(input.prevTxHash, input.outputIndex));
        RefsSnoc(possibleTx.inputs, j);
        j := j + 1;
      }
      assert possibleTx.inputs[..j] == possibleTx.inputs;
    }
  }

  /** Under SpendOnly, replaying accepted transactions only ever removes what they spend. */
  lemma {:induction false} ReplaySpendOnly(pool0: map<UTXO, Output>, acc: seq<Transaction>)
    ensures Replay(SpendOnly, pool0, acc) == pool0 - SpentAll(acc)
    decreases |acc|
  {
    if acc != [] {
      ReplaySpendOnly(pool0, acc[..|acc| - 1]);
    }
  }

  /** An identifier is in SpentAll(acc) exactly when some transaction of `acc` spends it. */
  lemma {:induction false} SpentAllMembers(acc: seq<Transaction>, u: UTXO)
    ensures u in SpentAll(acc) <==> exists k :: 0 <= k < |acc| && u in Spent(acc[k])
    decreases |acc|
  {
    if acc != [] {
      var prefix := acc[..|acc| - 1];
      SpentAllMembers(prefix, u);
      if u in SpentAll(prefix) {
        var k :| 0 <= k < |prefix| && u in Spent(prefix[k]);
        assert acc[k] == prefix[k];
      }
      if exists k :: 0 <= k < |acc| && u in Spent(acc[k]) {
        var k :| 0 <= k < |acc| && u in Spent(acc[k]);
        if k < |prefix| { assert prefix[k] == acc[k]; }
      }
    }
  }

  /**
   * What a baseline epoch does to the pool: the new pool is the old one
   * minus exactly what the accepted transactions spend; nothing is added
   * or changed; everything spent was in the starting pool; each accepted
   * transaction was valid against the starting pool minus what the earlier
   * accepted ones spent; and no two accepted transactions spend the same
   * identifier.
   */
  lemma BaselineEpoch(crypto: Crypto, pool0: map<UTXO, Output>, txs: seq<Transaction>)
    ensures var e := Settle(SpendOnly, crypto, pool0, txs);
      var acc := e.accepted;
      && e.pool == pool0 - SpentAll(acc)
      && SpentAll(acc) <= pool0.Keys
      && (forall k :: 0 <= k < |acc| ==> ValidTx(crypto, pool0 - SpentAll(acc[..k]), acc[k]))
      && (forall k, l :: 0 <= k < l < |acc| ==> Spent(acc[k]) !! Spent(acc[l]))
  {
    var e := Settle(SpendOnly, crypto, pool0, txs);
    var acc := e.accepted;
    SettlePoolIsReplay(SpendOnly, crypto, pool0, txs);
    SettleAcceptedValid(SpendOnly, crypto, pool0, txs);
    ReplaySpendOnly(pool0, acc);
    forall k | 0 <= k < |acc| ensures ValidTx(crypto, pool0 - SpentAll(acc[..k]), acc[k]) {
      ReplaySpendOnly(pool0, acc[..k]);
    }
    forall u | u in SpentAll(acc) ensures u in pool0 {
      SpentAllMembers(acc, u);
      var k :| 0 <= k < |acc| && u in Spent(acc[k]);
      var i :| 0 <= i < |acc[k].inputs| && UtxoOf(acc[k].inputs[i]) == u;
      ReplaySpendOnly(pool0, acc[..k]);
      assert ValidTx(crypto, pool0 - SpentAll(acc[..k]), acc[k]);
    }
    forall k, l | 0 <= k < l < |acc| ensures Spent(acc[k]) !! Spent(acc[l]) {
      if u :| u in Spent(acc[k]) && u in Spent(acc[l]) {
        AcceptedSpendsDisjoint(SpendOnly, crypto, pool0, txs, k, l, u);
      }
    }
  }
}
