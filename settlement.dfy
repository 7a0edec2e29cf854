/**
 * The greedy epoch pass both handlers make, as a function of the starting
 * pool and the candidates in the order they are considered, and what it
 * guarantees about the accepted transactions and the final pool.
 */
module Settlement {
  import opened Ledger
  import opened Validation

  /** What accepting a transaction does to the pool. */
  datatype Policy =
    | SpendOnly       // remove the claimed outputs (TxHandler)
    | SpendAndCreate  // remove the claimed outputs, then add the new ones (MaxFeeTxHandler)

  /** The pool after accepting `tx`: claimed outputs removed, then, under SpendAndCreate, its outputs added. */
  function Apply(policy: Policy, pool: map<UTXO, Output>, tx: Transaction): map<UTXO, Output> {
    var rest := pool - Spent(tx);
    if policy == SpendOnly then rest else rest + Created(tx)
  }

  /** The accepted transactions, in acceptance order, and the pool they leave. */
  datatype Epoch = Epoch(accepted: seq<Transaction>, pool: map<UTXO, Output>)

  /**
   * One greedy pass over `txs` from `pool0`: each candidate is checked
   * against the pool as the earlier candidates left it; a valid one is
   * appended and applied, an invalid one is dropped for good.
   */
  function Settle(policy: Policy, crypto: Crypto, pool0: map<UTXO, Output>, txs: seq<Transaction>): Epoch
    decreases |txs|
  {
    if txs == [] then Epoch([], pool0)
    else
      var e := Settle(policy, crypto, pool0, txs[..|txs| - 1]);
      var tx := txs[|txs| - 1];
      if ValidTx(crypto, e.pool, tx) then Epoch(e.accepted + [tx], Apply(policy, e.pool, tx)) else e
  }

  /** Whether the pass accepts candidate `i`. */
  predicate Accepts(policy: Policy, crypto: Crypto, pool0: map<UTXO, Output>, txs: seq<Transaction>, i: nat)
    requires i < |txs|
  {
    ValidTx(crypto, Settle(policy, crypto, pool0, txs[..i]).pool, txs[i])
  }

  /** The pool obtained by applying `accepted` to `pool0` in order. */
  function Replay(policy: Policy, pool0: map<UTXO, Output>, accepted: seq<Transaction>): map<UTXO, Output>
    decreases |accepted|
  {
    if accepted == [] then pool0
    else Apply(policy, Replay(policy, pool0, accepted[..|accepted| - 1]), accepted[|accepted| - 1])
  }

  /** Every identifier spent by some transaction of `txs`. */
  function SpentAll(txs: seq<Transaction>): set<UTXO>
    decreases |txs|
  {
    if txs == [] then {} else SpentAll(txs[..|txs| - 1]) + Spent(txs[|txs| - 1])
  }

  /** `a` is `b` with some elements dropped, the rest kept in order. */
  predicate Subsequence<T(==)>(a: seq<T>, b: seq<T>)
    decreases |b|
  {
    if a == [] then true
    else if b == [] then false
    else (a[|a| - 1] == b[|b| - 1] && Subsequence(a[..|a| - 1], b[..|b| - 1])) || Subsequence(a, b[..|b| - 1])
  }

  // ---------------------------------------------------------------------
  // One step
  // ---------------------------------------------------------------------

  /**
   * Accepting `tx` removes what it spends, adds (under SpendAndCreate) the
   * outputs it creates, and leaves every other identifier as it was.
   */
  lemma ApplyFrame(policy: Policy, pool: map<UTXO, Output>, tx: Transaction)
    ensures var r := Apply(policy, pool, tx);
      && (policy == SpendAndCreate ==>
            forall k :: 0 <= k < |tx.outputs| ==> UTXO(tx.hash, k) in r && r[UTXO(tx.hash, k)] == tx.outputs[k])
      && (forall u :: u in Spent(tx) && (policy == SpendOnly || u !in Created(tx)) ==> u !in r)
      && (forall u :: u !in Spent(tx) && (policy == SpendOnly || u !in Created(tx)) ==>
            (u in r <==> u in pool) && (u in r ==> r[u] == pool[u]))
  {
    var r := Apply(policy, pool, tx);
    if policy == SpendAndCreate {
      forall k | 0 <= k < |tx.outputs| ensures UTXO(tx.hash, k) in r && r[UTXO(tx.hash, k)] == tx.outputs[k] {
        assert UTXO(tx.hash, k) in Created(tx);
      }
    }
  }

  /** `ApplyFrame`'s first conjunct, at one output `k`. */
  lemma ApplyCreates(pool: map<UTXO, Output>, tx: Transaction, k: nat)
    requires k < |tx.outputs|
    ensures var r := Apply(SpendAndCreate, pool, tx);
      UTXO(tx.hash, k) in r && r[UTXO(tx.hash, k)] == tx.outputs[k]
  {
    ApplyFrame(SpendAndCreate, pool, tx);
  }

  /** `ApplyFrame`'s last conjunct, at one identifier `u`. */
  lemma ApplyKeeps(policy: Policy, pool: map<UTXO, Output>, tx: Transaction, u: UTXO)
    requires u !in Spent(tx) && u !in Created(tx)
    ensures var r := Apply(policy, pool, tx);
      (u in r <==> u in pool) && (u in r ==> r[u] == pool[u])
  {
    ApplyFrame(policy, pool, tx);
  }

  /** An identifier in the pool after accepting `tx` was either created by it or already there and not spent. */
  lemma ApplyOrigin(policy: Policy, pool: map<UTXO, Output>, tx: Transaction, u: UTXO)
    requires u in Apply(policy, pool, tx)
    ensures (policy == SpendAndCreate && u in Created(tx)) || (u in pool && u !in Spent(tx))
  {
  }

  /** Unfolds `Settle` at candidate `i`: a helper for the loops that follow the pass. */
  lemma SettleStep(policy: Policy, crypto: Crypto, pool0: map<UTXO, Output>, txs: seq<Transaction>, i: nat)
    requires i < |txs|
    ensures var before := Settle(policy, crypto, pool0, txs[..i]);
      Settle(policy, crypto, pool0, txs[..i + 1]) ==
        if Accepts(policy, crypto, pool0, txs, i)
        then Epoch(before.accepted + [txs[i]], Apply(policy, before.pool, txs[i]))
        else before
  {
    assert txs[..i + 1][..i] == txs[..i];
  }

  // ---------------------------------------------------------------------
  // The accepted list
  // ---------------------------------------------------------------------

  /** The pass returns candidates, in the order they were considered, never inventing or reordering one. */
  lemma {:induction false} SettleSubsequence(policy: Policy, crypto: Crypto, pool0: map<UTXO, Output>, txs: seq<Transaction>)
    ensures Subsequence(Settle(policy, crypto, pool0, txs).accepted, txs)
    decreases |txs|
  {
    if txs != [] {
      var prefix := txs[..|txs| - 1];
      SettleSubsequence(policy, crypto, pool0, prefix);
      var e := Settle(policy, crypto, pool0, prefix);
      if ValidTx(crypto, e.pool, txs[|txs| - 1]) {
        var a := e.accepted + [txs[|txs| - 1]];
        assert a[..|a| - 1] == e.accepted;
      } else if e.accepted != [] {
        SubsequenceDropLast(e.accepted, txs);
      }
    }
  }

  lemma {:induction false} SubsequenceDropLast<T>(a: seq<T>, b: seq<T>)
    requires b != [] && Subsequence(a, b[..|b| - 1])
    ensures Subsequence(a, b)
  {
  }

  /** The final pool is exactly the starting pool with the accepted transactions applied in order. */
  lemma {:induction false} SettlePoolIsReplay(policy: Policy, crypto: Crypto, pool0: map<UTXO, Output>, txs: seq<Transaction>)
    ensures var e := Settle(policy, crypto, pool0, txs);
      e.pool == Replay(policy, pool0, e.accepted)
    decreases |txs|
  {
    if txs != [] {
      var prefix := txs[..|txs| - 1];
      SettlePoolIsReplay(policy, crypto, pool0, prefix);
      var e := Settle(policy, crypto, pool0, prefix);
      var a := e.accepted + [txs[|txs| - 1]];
      assert a[..|a| - 1] == e.accepted;
    }
  }

  /** Each accepted transaction was valid against the pool the accepted transactions before it left. */
  lemma {:induction false} SettleAcceptedValid(policy: Policy, crypto: Crypto, pool0: map<UTXO, Output>, txs: seq<Transaction>)
    ensures var e := Settle(policy, crypto, pool0, txs);
      forall k :: 0 <= k < |e.accepted| ==> ValidTx(crypto, Replay(policy, pool0, e.accepted[..k]), e.accepted[k])
    decreases |txs|
  {
    if txs != [] {
      var prefix := txs[..|txs| - 1];
      SettleAcceptedValid(policy, crypto, pool0, prefix);
      SettlePoolIsReplay(policy, crypto, pool0, prefix);
      var e := Settle(policy, crypto, pool0, prefix);
      var tx := txs[|txs| - 1];
      var a := e.accepted + [tx];
      if Settle(policy, crypto, pool0, txs).accepted == a {
        forall k | 0 <= k < |a| ensures ValidTx(crypto, Replay(policy, pool0, a[..k]), a[k]) {
          if k < |e.accepted| {
            assert a[..k] == e.accepted[..k] && a[k] == e.accepted[k];
          } else {
            assert a[..k] == e.accepted && a[k] == tx;
          }
        }
      }
    }
  }

  // ---------------------------------------------------------------------
  // Double spending
  // ---------------------------------------------------------------------

  /**
   * Once accepted candidate `i` has spent `u`, `u` is back in the pool only
   * if some candidate accepted since then (or `i` itself) created it again;
   * under SpendOnly nothing is ever added, so it never comes back.
   */
  lemma {:induction false} SpentStaysOut(policy: Policy, crypto: Crypto, pool0: map<UTXO, Output>, txs: seq<Transaction>,
                                         i: nat, n: nat, u: UTXO)
    requires i < n <= |txs|
    requires Accepts(policy, crypto, pool0, txs, i) && u in Spent(txs[i])
    requires u in Settle(policy, crypto, pool0, txs[..n]).pool
    ensures policy == SpendAndCreate
    ensures exists m :: i <= m < n && Accepts(policy, crypto, pool0, txs, m) && u in Created(txs[m])
    decreases n
  {
    StepOrigin(policy, crypto, pool0, txs, n - 1, u);
    var recreated := Accepts(policy, crypto, pool0, txs, n - 1) && policy == SpendAndCreate && u in Created(txs[n - 1]);
    if n - 1 != i && !recreated {
      SpentStaysOut(policy, crypto, pool0, txs, i, n - 1, u);
      var m :| i <= m < n - 1 && Accepts(policy, crypto, pool0, txs, m) && u in Created(txs[m]);
      assert i <= m < n;
    }
  }

  /** An identifier in the pool after candidate `n` was created by it, if accepted, or was there before and not spent by it. */
  lemma StepOrigin(policy: Policy, crypto: Crypto, pool0: map<UTXO, Output>, txs: seq<Transaction>, n: nat, u: UTXO)
    requires n < |txs|
    requires u in Settle(policy, crypto, pool0, txs[..n + 1]).pool
    ensures var accepted := Accepts(policy, crypto, pool0, txs, n);
      || (accepted && policy == SpendAndCreate && u in Created(txs[n]))
      || (u in Settle(policy, crypto, pool0, txs[..n]).pool && (accepted ==> u !in Spent(txs[n])))
  {
    SettleStep(policy, crypto, pool0, txs, n);
    if Accepts(policy, crypto, pool0, txs, n) {
      ApplyOrigin(policy, Settle(policy, crypto, pool0, txs[..n]).pool, txs[n], u);
    }
  }

  /**
   * Of two candidates that claim the same identifier, if the earlier one is
   * accepted the later one is rejected -- unless, under SpendAndCreate, a
   * transaction accepted in between created that identifier anew (its digest
   * equals the identifier's source digest).
   */
  lemma LaterConflictRejected(policy: Policy, crypto: Crypto, pool0: map<UTXO, Output>, txs: seq<Transaction>,
                              i: nat, j: nat, u: UTXO)
    requires i < j < |txs|
    requires Accepts(policy, crypto, pool0, txs, i)
    requires u in Spent(txs[i]) && u in Spent(txs[j])
    ensures Accepts(policy, crypto, pool0, txs, j) ==>
      policy == SpendAndCreate &&
      exists m :: i <= m < j && Accepts(policy, crypto, pool0, txs, m) && u in Created(txs[m]) && txs[m].hash == u.txHash
  {
    if Accepts(policy, crypto, pool0, txs, j) {
      var k :| 0 <= k < |txs[j].inputs| && UtxoOf(txs[j].inputs[k]) == u;
      assert u in Settle(policy, crypto, pool0, txs[..j]).pool;
      SpentStaysOut(policy, crypto, pool0, txs, i, j, u);
    }
  }

  /** `u`, spent by accepted transaction `k`, is back after `n` accepted transactions only if re-created since. */
  lemma {:induction false} ReplaySpentStaysOut(policy: Policy, pool0: map<UTXO, Output>, acc: seq<Transaction>,
                                               k: nat, n: nat, u: UTXO)
    requires k < n <= |acc|
    requires u in Spent(acc[k]) && u in Replay(policy, pool0, acc[..n])
    ensures policy == SpendAndCreate && exists m :: k <= m < n && u in Created(acc[m])
    decreases n
  {
    assert acc[..n][..n - 1] == acc[..n - 1];
    if n - 1 == k {
      assert u in Created(acc[k]);
    } else if policy == SpendAndCreate && u in Created(acc[n - 1]) {
    } else {
      ReplaySpentStaysOut(policy, pool0, acc, k, n - 1, u);
    }
  }

  /**
   * No two accepted transactions claim the same identifier, except where an
   * accepted transaction in between re-created it (SpendAndCreate only, and
   * only when its digest equals the identifier's source digest).
   */
  lemma AcceptedSpendsDisjoint(policy: Policy, crypto: Crypto, pool0: map<UTXO, Output>, txs: seq<Transaction>,
                               k: nat, l: nat, u: UTXO)
    requires var acc := Settle(policy, crypto, pool0, txs).accepted;
      k < l < |acc| && u in Spent(acc[k]) && u in Spent(acc[l])
    ensures var acc := Settle(policy, crypto, pool0, txs).accepted;
      policy == SpendAndCreate &&
      exists m :: k <= m < l && u in Created(acc[m]) && acc[m].hash == u.txHash
  {
    var acc := Settle(policy, crypto, pool0, txs).accepted;
    SettleAcceptedValid(policy, crypto, pool0, txs);
    assert ValidTx(crypto, Replay(policy, pool0, acc[..l]), acc[l]);
    var i :| 0 <= i < |acc[l].inputs| && UtxoOf(acc[l].inputs[i]) == u;
    ReplaySpentStaysOut(policy, pool0, acc, k, l, u);
  }
}
