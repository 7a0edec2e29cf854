/**
 * The ScroogeCoin data model: unspent-output identifiers, outputs, inputs,
 * transactions and the cryptographic collaborator they are checked against.
 */
module Ledger {

  type Bytes = seq<bv8>

  /** A digest of a transaction's content; where it comes from is not modelled. */
  type Hash = Bytes

  /** A recipient's public key. */
  type Address = Bytes

  datatype Option<T> = None | Some(value: T)

  /** An unspent-output identifier: the digest of the transaction that created it and the output's position. */
  datatype UTXO = UTXO(txHash: Hash, index: int)

  /** A value assigned to a recipient. Values are exact integers. */
  datatype Output = Output(value: int, address: Address)

  /** A claim on an earlier output, with the signature that authorises it. */
  datatype Input = Input(prevTxHash: Hash, outputIndex: int, signature: Bytes)

  /** A transaction; `hash` stands for the digest the transaction reports for itself. */
  datatype Transaction = Transaction(inputs: seq<Input>, outputs: seq<Output>, hash: Hash)

  /**
   * The cryptographic collaborator, left uninterpreted: any deterministic
   * signature check and any deterministic signable-payload derivation.
   */
  datatype Crypto = Crypto(
    verifySignature: (Address, Bytes, Bytes) -> bool,
    rawDataToSign: (Transaction, nat) -> Bytes)

  /** The identifier an input claims. */
  function UtxoOf(input: Input): UTXO {
    UTXO(input.prevTxHash, input.outputIndex)
  }

  /** Every identifier claimed by some input of `inputs`. */
  function Refs(inputs: seq<Input>): set<UTXO> {
    set i | 0 <= i < |inputs| :: UtxoOf(inputs[i])
  }

  /** The identifiers a transaction spends. */
  function Spent(tx: Transaction): set<UTXO> {
    Refs(tx.inputs)
  }

  /** Extending the inputs by one adds exactly the claimed identifier. */
  lemma RefsSnoc(inputs: seq<Input>, j: nat)
    requires j < |inputs|
    ensures Refs(inputs[..j + 1]) == Refs(inputs[..j]) + {UtxoOf(inputs[j])}
  {
    var a, b := inputs[..j + 1], inputs[..j];
    forall u | u in Refs(a) ensures u in Refs(b) + {UtxoOf(inputs[j])} {
      var i :| 0 <= i < |a| && UtxoOf(a[i]) == u;
      if i < j { assert UtxoOf(b[i]) == u; }
    }
    forall u | u in Refs(b) ensures u in Refs(a) {
      var i :| 0 <= i < |b| && UtxoOf(b[i]) == u;
      assert UtxoOf(a[i]) == u;
    }
    assert UtxoOf(a[j]) == UtxoOf(inputs[j]);
  }

  /** The outputs of `tx` at positions below `n`, keyed by `(tx.hash, position)`. */
  function CreatedBelow(tx: Transaction, n: nat): map<UTXO, Output>
    requires n <= |tx.outputs|
  {
    map i | 0 <= i < n :: UTXO(tx.hash, i) := tx.outputs[i]
  }

  /** One position further, the created outputs gain exactly that position's entry. */
  lemma CreatedBelowStep(tx: Transaction, k: nat)
    requires k < |tx.outputs|
    ensures CreatedBelow(tx, k + 1) == CreatedBelow(tx, k)[UTXO(tx.hash, k) := tx.outputs[k]]
  {
    var c1, c0 := CreatedBelow(tx, k + 1), CreatedBelow(tx, k);
    var x := UTXO(tx.hash, k);
    assert x in c1;
    forall u | u in c1 ensures u in c0[x := tx.outputs[k]] && c1[u] == c0[x := tx.outputs[k]][u] {
      if u != x {
        assert u in c0;
      }
    }
    forall u | u in c0 ensures u in c1 {
    }
  }

  /** Updating the right operand of a union is updating the union. */
  lemma UnionUpdate(pool: map<UTXO, Output>, m: map<UTXO, Output>, x: UTXO, v: Output)
    ensures pool + m[x := v] == (pool + m)[x := v]
  {
  }

  /** Adding the outputs one position further extends the map by that one entry. */
  lemma CreatedBelowSnoc(pool: map<UTXO, Output>, tx: Transaction, k: nat)
    requires k < |tx.outputs|
    ensures pool + CreatedBelow(tx, k + 1) == (pool + CreatedBelow(tx, k))[UTXO(tx.hash, k) := tx.outputs[k]]
  {
    CreatedBelowStep(tx, k);
    UnionUpdate(pool, CreatedBelow(tx, k), UTXO(tx.hash, k), tx.outputs[k]);
  }

  /** The new unspent outputs a transaction brings into the pool once accepted. */
  function Created(tx: Transaction): map<UTXO, Output> {
    CreatedBelow(tx, |tx.outputs|)
  }

  /** The sum of the values of `outputs`, accumulated left to right. */
  function OutputSum(outputs: seq<Output>): int {
    if outputs == [] then 0
    else OutputSum(outputs[..|outputs| - 1]) + outputs[|outputs| - 1].value
  }

  /** Every input claims an identifier present in `pool`. */
  predicate InputsExist(pool: map<UTXO, Output>, inputs: seq<Input>) {
    forall i :: 0 <= i < |inputs| ==> UtxoOf(inputs[i]) in pool
  }

  /** The sum of the values the inputs claim in `pool`, accumulated left to right. */
  function InputSum(pool: map<UTXO, Output>, inputs: seq<Input>): int
    requires InputsExist(pool, inputs)
  {
    if inputs == [] then 0
    else InputSum(pool, inputs[..|inputs| - 1]) + pool[UtxoOf(inputs[|inputs| - 1])].value
  }
}
