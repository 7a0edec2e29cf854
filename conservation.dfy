/**
 * Conservation of value: what accepting transactions does to the total
 * value held in the pool. Under SpendAndCreate an accepted transaction
 * withdraws exactly its fee; under SpendOnly it withdraws everything it
 * spends, since its outputs are never added.
 */
module Conservation {
  import opened Ledger
  import opened Validation
  import opened Settlement

  /** The total value of the outputs held in `pool`. */
  ghost function Total(pool: map<UTXO, Output>): int
    decreases |pool.Keys|
  {
    if pool.Keys == {} then 0
    else
      var u :| u in pool.Keys;
      assert (pool - {u}).Keys == pool.Keys - {u};
      pool[u].value + Total(pool - {u})
  }

  /** Any one entry can be taken out of the total first. */
  lemma {:induction false} TotalRemove(pool: map<UTXO, Output>, x: UTXO)
    requires x in pool
    ensures Total(pool) == pool[x].value + Total(pool - {x})
    decreases |pool.Keys|
  {
    var y :| y in pool.Keys && Total(pool) == pool[y].value + Total(pool - {y});
    if y != x {
      assert (pool - {y}).Keys == pool.Keys - {y};
      assert (pool - {x}).Keys == pool.Keys - {x};
      TotalRemove(pool - {y}, x);
      TotalRemove(pool - {x}, y);
      assert pool - {y} - {x} == pool - {x} - {y};
    }
  }

  /** Adding an absent entry adds its value. */
  lemma TotalAdd(pool: map<UTXO, Output>, x: UTXO, v: Output)
    requires x !in pool
    ensures Total(pool[x := v]) == Total(pool) + v.value
  {
    TotalRemove(pool[x := v], x);
    assert pool[x := v] - {x} == pool;
  }

  /** Removing the distinct outputs some inputs claim removes exactly their summed value. */
  lemma {:induction false} TotalSpend(pool: map<UTXO, Output>, inputs: seq<Input>)
    requires InputsExist(pool, inputs) && InputsDistinct(inputs)
    ensures Total(pool - Refs(inputs)) == Total(pool) - InputSum(pool, inputs)
    decreases |inputs|
  {
    if inputs == [] {
      assert pool - Refs(inputs) == pool;
    } else {
      var n := |inputs| - 1;
      var p := inputs[..n];
      var u := UtxoOf(inputs[n]);
      assert forall i :: 0 <= i < |p| ==> p[i] == inputs[i];
      TotalSpend(pool, p);
      RefsSnoc(inputs, n);
      assert inputs[..n + 1] == inputs;
      assert u !in Refs(p);
      TotalRemove(pool - Refs(p), u);
      assert pool - Refs(p) - {u} == pool - Refs(inputs);
    }
  }

  /** Adding a transaction's first `k` outputs, under fresh identifiers, adds their summed value. */
  lemma {:induction false} TotalCreate(rest: map<UTXO, Output>, tx: Transaction, k: nat)
    requires k <= |tx.outputs|
    requires Created(tx).Keys !! rest.Keys
    ensures Total(rest + CreatedBelow(tx, k)) == Total(rest) + OutputSum(tx.outputs[..k])
    decreases k
  {
    if k == 0 {
      assert rest + CreatedBelow(tx, 0) == rest;
      assert tx.outputs[..0] == [];
    } else {
      var x := UTXO(tx.hash, k - 1);
      TotalCreate(rest, tx, k - 1);
      CreatedBelowSnoc(rest, tx, k - 1);
      assert x in Created(tx);
      assert x !in CreatedBelow(tx, k - 1);
      TotalAdd(rest + CreatedBelow(tx, k - 1), x, tx.outputs[k - 1]);
      assert tx.outputs[..k][..k - 1] == tx.outputs[..k - 1];
    }
  }

  /** The value accepting `tx` takes out of `pool`: everything it spends under SpendOnly, its fee under SpendAndCreate. */
  function Withdrawn(policy: Policy, pool: map<UTXO, Output>, tx: Transaction): int {
    if policy == SpendAndCreate then Fee(pool, tx)
    else if InputsExist(pool, tx.inputs) then InputSum(pool, tx.inputs)
    else 0
  }

  /** The value the accepted transactions take out, one after another, starting from `pool0`. */
  function Withdrawals(policy: Policy, pool0: map<UTXO, Output>, acc: seq<Transaction>): int
    decreases |acc|
  {
    if acc == [] then 0
    else
      var p := acc[..|acc| - 1];
      Withdrawals(policy, pool0, p) + Withdrawn(policy, Replay(policy, pool0, p), acc[|acc| - 1])
  }

  /** The outputs `tx` creates are not keys of the pool it leaves after spending. */
  predicate FreshOutputs(pool: map<UTXO, Output>, tx: Transaction) {
    Created(tx).Keys !! (pool - Spent(tx)).Keys
  }

  /**
   * Accepting a valid transaction lowers the total by what it withdraws,
   * provided, under SpendAndCreate, that its new identifiers are fresh.
   */
  lemma ApplyConserves(policy: Policy, crypto: Crypto, pool: map<UTXO, Output>, tx: Transaction)
    requires ValidTx(crypto, pool, tx)
    requires policy == SpendAndCreate ==> FreshOutputs(pool, tx)
    ensures Total(Apply(policy, pool, tx)) == Total(pool) - Withdrawn(policy, pool, tx)
  {
    TotalSpend(pool, tx.inputs);
    if policy == SpendAndCreate {
      TotalCreate(pool - Spent(tx), tx, |tx.outputs|);
      assert tx.outputs[..|tx.outputs|] == tx.outputs;
    }
  }

  /** Replaying valid transactions lowers the total by the sum of their withdrawals. */
  lemma {:induction false} ReplayConserves(policy: Policy, crypto: Crypto, pool0: map<UTXO, Output>, acc: seq<Transaction>)
    requires forall k :: 0 <= k < |acc| ==> ValidTx(crypto, Replay(policy, pool0, acc[..k]), acc[k])
    requires policy == SpendAndCreate ==>
      forall k :: 0 <= k < |acc| ==> FreshOutputs(Replay(policy, pool0, acc[..k]), acc[k])
    ensures Total(Replay(policy, pool0, acc)) == Total(pool0) - Withdrawals(policy, pool0, acc)
    decreases |acc|
  {
    if acc != [] {
      var n := |acc| - 1;
      var p := acc[..n];
      forall k | 0 <= k < |p| ensures p[..k] == acc[..k] && p[k] == acc[k] {
      }
      ReplayConserves(policy, crypto, pool0, p);
      assert acc[..n] == p;
      ApplyConserves(policy, crypto, Replay(policy, pool0, p), acc[n]);
    }
  }

  /** Valid transactions never pay a negative fee, so under SpendAndCreate the withdrawals add up to at least 0. */
  lemma {:induction false} FeesNonNegative(crypto: Crypto, pool0: map<UTXO, Output>, acc: seq<Transaction>)
    requires forall k :: 0 <= k < |acc| ==> ValidTx(crypto, Replay(SpendAndCreate, pool0, acc[..k]), acc[k])
    ensures Withdrawals(SpendAndCreate, pool0, acc) >= 0
    decreases |acc|
  {
    if acc != [] {
      var n := |acc| - 1;
      var p := acc[..n];
      forall k | 0 <= k < |p| ensures p[..k] == acc[..k] && p[k] == acc[k] {
      }
      FeesNonNegative(crypto, pool0, p);
      assert acc[..n] == p;
      ValidFeeNonNegative(crypto, Replay(SpendAndCreate, pool0, p), acc[n]);
    }
  }

  /**
   * Over a whole epoch the pool's total drops by exactly the accepted
   * transactions' withdrawals; under SpendAndCreate that is the sum of their
   * fees and the total never grows. The freshness hypothesis excludes a
   * transaction accepted a second time, which re-creates identifiers still in
   * the pool, as well as digest collisions.
   */
  lemma EpochConservesValue(policy: Policy, crypto: Crypto, pool0: map<UTXO, Output>, txs: seq<Transaction>)
    requires var acc := Settle(policy, crypto, pool0, txs).accepted;
      policy == SpendAndCreate ==>
        forall k :: 0 <= k < |acc| ==> FreshOutputs(Replay(policy, pool0, acc[..k]), acc[k])
    ensures var e := Settle(policy, crypto, pool0, txs);
      && Total(e.pool) == Total(pool0) - Withdrawals(policy, pool0, e.accepted)
      && (policy == SpendAndCreate ==> Total(e.pool) <= Total(pool0))
  {
    var e := Settle(policy, crypto, pool0, txs);
    SettlePoolIsReplay(policy, crypto, pool0, txs);
    SettleAcceptedValid(policy, crypto, pool0, txs);
    ReplayConserves(policy, crypto, pool0, e.accepted);
    if policy == SpendAndCreate {
      FeesNonNegative(crypto, pool0, e.accepted);
    }
  }

  // ---------------------------------------------------------------------
  // Without freshness: the total never grows
  // ---------------------------------------------------------------------

  /** Every output held in `pool` has a non-negative value. */
  predicate NonNegativeValues(pool: map<UTXO, Output>) {
    forall u :: u in pool ==> pool[u].value >= 0
  }

  /** Setting one entry of a non-negative pool, whether or not it was there, adds at most the new value. */
  lemma TotalUpdateLe(pool: map<UTXO, Output>, x: UTXO, v: Output)
    requires NonNegativeValues(pool)
    ensures Total(pool[x := v]) <= Total(pool) + v.value
  {
    if x in pool {
      TotalRemove(pool[x := v], x);
      TotalRemove(pool, x);
      assert pool[x := v] - {x} == pool - {x};
    } else {
      TotalAdd(pool, x, v);
    }
  }

  /** Adding a transaction's first `k` non-negative outputs, overwriting or not, adds at most their summed value. */
  lemma {:induction false} TotalCreateLe(rest: map<UTXO, Output>, tx: Transaction, k: nat)
    requires k <= |tx.outputs|
    requires NonNegativeValues(rest) && OutputsNonNegative(tx.outputs)
    ensures NonNegativeValues(rest + CreatedBelow(tx, k))
    ensures Total(rest + CreatedBelow(tx, k)) <= Total(rest) + OutputSum(tx.outputs[..k])
    decreases k
  {
    if k == 0 {
      assert rest + CreatedBelow(tx, 0) == rest;
      assert tx.outputs[..0] == [];
    } else {
      var before := rest + CreatedBelow(tx, k - 1);
      TotalCreateLe(rest, tx, k - 1);
      CreatedBelowSnoc(rest, tx, k - 1);
      TotalUpdateLe(before, UTXO(tx.hash, k - 1), tx.outputs[k - 1]);
      assert tx.outputs[..k][..k - 1] == tx.outputs[..k - 1];
    }
  }

  /** Accepting a valid transaction under SpendAndCreate lowers a non-negative pool's total by at least its fee. */
  lemma ApplyNoGrow(crypto: Crypto, pool: map<UTXO, Output>, tx: Transaction)
    requires NonNegativeValues(pool) && ValidTx(crypto, pool, tx)
    ensures NonNegativeValues(Apply(SpendAndCreate, pool, tx))
    ensures Total(Apply(SpendAndCreate, pool, tx)) <= Total(pool) - Fee(pool, tx)
  {
    TotalSpend(pool, tx.inputs);
    TotalCreateLe(pool - Spent(tx), tx, |tx.outputs|);
    assert tx.outputs[..|tx.outputs|] == tx.outputs;
  }

  /** Replaying valid transactions under SpendAndCreate lowers a non-negative pool's total by at least their fees. */
  lemma {:induction false} ReplayNoGrow(crypto: Crypto, pool0: map<UTXO, Output>, acc: seq<Transaction>)
    requires NonNegativeValues(pool0)
    requires forall k :: 0 <= k < |acc| ==> ValidTx(crypto, Replay(SpendAndCreate, pool0, acc[..k]), acc[k])
    ensures NonNegativeValues(Replay(SpendAndCreate, pool0, acc))
    ensures Total(Replay(SpendAndCreate, pool0, acc)) <= Total(pool0) - Withdrawals(SpendAndCreate, pool0, acc)
    decreases |acc|
  {
    if acc != [] {
      var n := |acc| - 1;
      var p := acc[..n];
      forall k | 0 <= k < |p| ensures p[..k] == acc[..k] && p[k] == acc[k] {
      }
      ReplayNoGrow(crypto, pool0, p);
      assert acc[..n] == p;
      ApplyNoGrow(crypto, Replay(SpendAndCreate, pool0, p), acc[n]);
    }
  }

  /**
   * With no freshness hypothesis: over a SpendAndCreate pass from a pool of
   * non-negative values, the total drops by at least the accepted fees, so
   * it never grows, and every value left in the pool is non-negative. A
   * re-created identifier only overwrites, which can destroy value but
   * never create it.
   */
  lemma EpochNeverGrows(crypto: Crypto, pool0: map<UTXO, Output>, txs: seq<Transaction>)
    requires NonNegativeValues(pool0)
    ensures var e := Settle(SpendAndCreate, crypto, pool0, txs);
      && NonNegativeValues(e.pool)
      && Total(e.pool) <= Total(pool0) - Withdrawals(SpendAndCreate, pool0, e.accepted)
      && Total(e.pool) <= Total(pool0)
  {
    var e := Settle(SpendAndCreate, crypto, pool0, txs);
    SettlePoolIsReplay(SpendAndCreate, crypto, pool0, txs);
    SettleAcceptedValid(SpendAndCreate, crypto, pool0, txs);
    ReplayNoGrow(crypto, pool0, e.accepted);
    FeesNonNegative(crypto, pool0, e.accepted);
  }
}
