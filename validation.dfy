/**
 * The transaction validator shared by both epoch handlers, and the fee a
 * transaction would pay against a pool.
 */
module Validation {
  import opened Ledger
  import opened Pool

  // ---------------------------------------------------------------------
  // The five validity rules, stated declaratively
  // ---------------------------------------------------------------------

  /** Rule 2 for input `i`: the claimed output exists and its address verifies the input's signature. */
  predicate SignatureValid(crypto: Crypto, pool: map<UTXO, Output>, tx: Transaction, i: nat)
    requires i < |tx.inputs|
  {
    var u := UtxoOf(tx.inputs[i]);
    u in pool && crypto.verifySignature(pool[u].address, crypto.rawDataToSign(tx, i), tx.inputs[i].signature)
  }

  predicate InputsSigned(crypto: Crypto, pool: map<UTXO, Output>, tx: Transaction) {
    forall i :: 0 <= i < |tx.inputs| ==> SignatureValid(crypto, pool, tx, i)
  }

  /** Rule 3: no identifier is claimed by two inputs. */
  predicate InputsDistinct(inputs: seq<Input>) {
    forall i, j :: 0 <= i < j < |inputs| ==> UtxoOf(inputs[i]) != UtxoOf(inputs[j])
  }

  /** Rule 4. */
  predicate OutputsNonNegative(outputs: seq<Output>) {
    forall j :: 0 <= j < |outputs| ==> outputs[j].value >= 0
  }

  /** The validity of `tx` against `pool`: rules 1 to 5, where rule 5 admits a zero fee. */
  predicate ValidTx(crypto: Crypto, pool: map<UTXO, Output>, tx: Transaction) {
    && InputsExist(pool, tx.inputs)
    && InputsSigned(crypto, pool, tx)
    && InputsDistinct(tx.inputs)
    && OutputsNonNegative(tx.outputs)
    && InputSum(pool, tx.inputs) >= OutputSum(tx.outputs)
  }

  // ---------------------------------------------------------------------
  // The same rules in the order the validator applies them
  // ---------------------------------------------------------------------

  /** Which rule rejected a transaction, and at which input or output. */
  datatype Violation =
    | MissingInput(index: nat)
    | BadSignature(index: nat)
    | DuplicateInput(index: nat)
    | NegativeOutput(index: nat)
    | InsufficientInputs

  /** Rules 1, 2 and 3, in that order, for input `i`, against the inputs before it. */
  function InputViolation(crypto: Crypto, pool: map<UTXO, Output>, tx: Transaction, i: nat): Option<Violation>
    requires i < |tx.inputs|
  {
    var u := UtxoOf(tx.inputs[i]);
    if u !in pool then Some(MissingInput(i))
    else if !SignatureValid(crypto, pool, tx, i) then Some(BadSignature(i))
    else if u in Refs(tx.inputs[..i]) then Some(DuplicateInput(i))
    else None
  }

  /** The first violation among inputs `i` and later. */
  function ScanInputs(crypto: Crypto, pool: map<UTXO, Output>, tx: Transaction, i: nat): Option<Violation>
    requires i <= |tx.inputs|
    decreases |tx.inputs| - i
  {
    if i == |tx.inputs| then None
    else if InputViolation(crypto, pool, tx, i).Some? then InputViolation(crypto, pool, tx, i)
    else ScanInputs(crypto, pool, tx, i + 1)
  }

  /** The first negative output at position `j` or later. */
  function ScanOutputs(outputs: seq<Output>, j: nat): Option<Violation>
    requires j <= |outputs|
    decreases |outputs| - j
  {
    if j == |outputs| then None
    else if outputs[j].value < 0 then Some(NegativeOutput(j))
    else ScanOutputs(outputs, j + 1)
  }

  /**
   * The rule that rejects `tx`, scanning as the validator does: rules 1-3
   * input by input, then rule 4 output by output, then rule 5.
   */
  function FirstViolation(crypto: Crypto, pool: map<UTXO, Output>, tx: Transaction): Option<Violation> {
    var scan := ScanInputs(crypto, pool, tx, 0);
    if scan.Some? then scan
    else
      ScanInputsExist(crypto, pool, tx);
      var negative := ScanOutputs(tx.outputs, 0);
      if negative.Some? then negative
      else if InputSum(pool, tx.inputs) < OutputSum(tx.outputs) then Some(InsufficientInputs)
      else None
  }

  /** A clean scan from input `i` means every input from `i` on passes rules 1-3. */
  lemma {:induction false} ScanInputsNone(crypto: Crypto, pool: map<UTXO, Output>, tx: Transaction, i: nat)
    requires i <= |tx.inputs|
    ensures ScanInputs(crypto, pool, tx, i) == None <==>
            forall k :: i <= k < |tx.inputs| ==> InputViolation(crypto, pool, tx, k) == None
    decreases |tx.inputs| - i
  {
    if i < |tx.inputs| {
      ScanInputsNone(crypto, pool, tx, i + 1);
    }
  }

  /** A clean scan of all inputs means every claimed UTXO is in the pool. */
  lemma ScanInputsExist(crypto: Crypto, pool: map<UTXO, Output>, tx: Transaction)
    ensures ScanInputs(crypto, pool, tx, 0) == None ==> InputsExist(pool, tx.inputs)
  {
    ScanInputsNone(crypto, pool, tx, 0);
    if ScanInputs(crypto, pool, tx, 0) == None {
      forall k | 0 <= k < |tx.inputs| ensures UtxoOf(tx.inputs[k]) in pool {
        assert InputViolation(crypto, pool, tx, k) == None;
      }
    }
  }

  lemma {:induction false} ScanOutputsNone(outputs: seq<Output>, j: nat)
    requires j <= |outputs|
    ensures ScanOutputs(outputs, j) == None <==> forall k :: j <= k < |outputs| ==> outputs[k].value >= 0
    decreases |outputs| - j
  {
    if j < |outputs| {
      ScanOutputsNone(outputs, j + 1);
    }
  }

  /** Rules 1-3 hold input by input exactly when they hold of the whole input list. */
  lemma InputChecksPass(crypto: Crypto, pool: map<UTXO, Output>, tx: Transaction)
    ensures (forall k :: 0 <= k < |tx.inputs| ==> InputViolation(crypto, pool, tx, k) == None) <==>
            InputsExist(pool, tx.inputs) && InputsSigned(crypto, pool, tx) && InputsDistinct(tx.inputs)
  {
    var ins := tx.inputs;
    if forall k :: 0 <= k < |ins| ==> InputViolation(crypto, pool, tx, k) == None {
      forall i | 0 <= i < |ins| ensures UtxoOf(ins[i]) in pool && SignatureValid(crypto, pool, tx, i) {
        assert InputViolation(crypto, pool, tx, i) == None;
      }
      forall i, j | 0 <= i < j < |ins| ensures UtxoOf(ins[i]) != UtxoOf(ins[j]) {
        assert InputViolation(crypto, pool, tx, j) == None;
        assert UtxoOf(ins[..j][i]) == UtxoOf(ins[i]);
      }
    }
    if InputsExist(pool, ins) && InputsSigned(crypto, pool, tx) && InputsDistinct(ins) {
      forall k | 0 <= k < |ins| ensures InputViolation(crypto, pool, tx, k) == None {
        assert SignatureValid(crypto, pool, tx, k);
      }
    }
  }

  /** The ordered scan finds no violation exactly when the five rules hold. */
  lemma FirstViolationNoneIff(crypto: Crypto, pool: map<UTXO, Output>, tx: Transaction)
    ensures FirstViolation(crypto, pool, tx) == None <==> ValidTx(crypto, pool, tx)
  {
    ScanInputsNone(crypto, pool, tx, 0);
    ScanOutputsNone(tx.outputs, 0);
    InputChecksPass(crypto, pool, tx);
  }

  /**
   * The reported violation is genuine, and every check the validator makes
   * before it passed: earlier inputs pass rules 1-3, and a rule for one input
   * is reached only when the rules before it hold for that input.
   */
  lemma FirstViolationIsFirst(crypto: Crypto, pool: map<UTXO, Output>, tx: Transaction)
    ensures var r := FirstViolation(crypto, pool, tx);
      && (r.Some? && r.value.MissingInput? ==>
            var i := r.value.index;
            i < |tx.inputs| && UtxoOf(tx.inputs[i]) !in pool && InputsPassBelow(crypto, pool, tx, i))
      && (r.Some? && r.value.BadSignature? ==>
            var i := r.value.index;
            i < |tx.inputs| && UtxoOf(tx.inputs[i]) in pool && !SignatureValid(crypto, pool, tx, i)
            && InputsPassBelow(crypto, pool, tx, i))
      && (r.Some? && r.value.DuplicateInput? ==>
            var i := r.value.index;
            i < |tx.inputs| && SignatureValid(crypto, pool, tx, i) && UtxoOf(tx.inputs[i]) in Refs(tx.inputs[..i])
            && InputsPassBelow(crypto, pool, tx, i))
      && (r.Some? && r.value.NegativeOutput? ==>
            var j := r.value.index;
            j < |tx.outputs| && tx.outputs[j].value < 0 && OutputsNonNegative(tx.outputs[..j])
            && InputsExist(pool, tx.inputs) && InputsSigned(crypto, pool, tx) && InputsDistinct(tx.inputs))
      && (r == Some(InsufficientInputs) ==>
            InputsExist(pool, tx.inputs) && InputsSigned(crypto, pool, tx) && InputsDistinct(tx.inputs)
            && OutputsNonNegative(tx.outputs) && InputSum(pool, tx.inputs) < OutputSum(tx.outputs))
  {
    ScanInputsFirst(crypto, pool, tx, 0);
    ScanInputsNone(crypto, pool, tx, 0);
    InputChecksPass(crypto, pool, tx);
    ScanOutputsFirst(tx.outputs, 0);
    ScanOutputsNone(tx.outputs, 0);
  }

  /** Inputs before `i` pass rules 1-3. */
  predicate InputsPassBelow(crypto: Crypto, pool: map<UTXO, Output>, tx: Transaction, i: nat)
    requires i <= |tx.inputs|
  {
    forall k :: 0 <= k < i ==> InputViolation(crypto, pool, tx, k) == None
  }

  lemma {:induction false} ScanInputsFirst(crypto: Crypto, pool: map<UTXO, Output>, tx: Transaction, i: nat)
    requires i <= |tx.inputs|
    requires InputsPassBelow(crypto, pool, tx, i)
    ensures var r := ScanInputs(crypto, pool, tx, i);
            r.Some? ==> !r.value.InsufficientInputs? && r.value.index < |tx.inputs| && InputsPassBelow(crypto, pool, tx, r.value.index)
                        && InputViolation(crypto, pool, tx, r.value.index) == r
    decreases |tx.inputs| - i
  {
    if i < |tx.inputs| && InputViolation(crypto, pool, tx, i).None? {
      ScanInputsFirst(crypto, pool, tx, i + 1);
    }
  }

  lemma {:induction false} ScanOutputsFirst(outputs: seq<Output>, j: nat)
    requires j <= |outputs|
    requires OutputsNonNegative(outputs[..j])
    ensures var r := ScanOutputs(outputs, j);
            r.Some? ==> r.value.NegativeOutput? && r.value.index < |outputs| && outputs[r.value.index].value < 0
                        && OutputsNonNegative(outputs[..r.value.index])
    decreases |outputs| - j
  {
    if j < |outputs| && outputs[j].value >= 0 {
      assert outputs[..j + 1] == outputs[..j] + [outputs[j]];
      ScanOutputsFirst(outputs, j + 1);
    }
  }

  // ---------------------------------------------------------------------
  // The validator itself
  // ---------------------------------------------------------------------

  /** One more input that exists and repeats no earlier one keeps the prefix existing and distinct, and adds its value. */
  lemma InputPrefixGrows(pool: map<UTXO, Output>, inputs: seq<Input>, i: nat)
    requires i < |inputs|
    requires InputsDistinct(inputs[..i]) && UtxoOf(inputs[i]) !in Refs(inputs[..i])
    requires InputsExist(pool, inputs[..i]) && UtxoOf(inputs[i]) in pool
    ensures InputsDistinct(inputs[..i + 1]) && InputsExist(pool, inputs[..i + 1])
    ensures InputSum(pool, inputs[..i + 1]) == InputSum(pool, inputs[..i]) + pool[UtxoOf(inputs[i])].value
  {
    var a, b := inputs[..i + 1], inputs[..i];
    assert a[..i] == b;
    forall k | 0 <= k < i ensures UtxoOf(a[k]) != UtxoOf(a[i]) {
      assert UtxoOf(b[k]) in Refs(b);
    }
  }

  /**
   * isValidTx: scans the inputs, returning false at the first missing
   * output, failed signature or repeated claim (tracked in a scratch pool),
   * then the outputs, returning false at the first negative value, and
   * finally compares the sums. The pool it is given is only read.
   */
  method IsValidTx(crypto: Crypto, utxoPool: UTXOPool, tx: Transaction) returns (valid: bool)
    ensures valid == ValidTx(crypto, utxoPool.utxos, tx)
  {
    ghost var pool := utxoPool.utxos;
    var inputSum := 0;
    var outputSum := 0;
    var uniqueUTXO := new UTXOPool();
    var i := 0;
    while i < |tx.inputs|
      invariant 0 <= i <= |tx.inputs|
      invariant utxoPool.utxos == pool
      invariant forall k :: 0 <= k < i ==> SignatureValid(crypto, pool, tx, k)
      invariant InputsDistinct(tx.inputs[..i])
      invariant uniqueUTXO.utxos.Keys == Refs(tx.inputs[..i])
      invariant InputsExist(pool, tx.inputs[..i])
      invariant inputSum == InputSum(pool, tx.inputs[..i])
    {
      var input := tx.inputs[i];
      var utxo := UTXO(input.prevTxHash, input.outputIndex);
      if !utxoPool.Contains(utxo) {
        // rule 1
        return false;
      }
      var previousOutput := utxoPool.GetTxOutput(utxo).value;
      if !crypto.verifySignature(previousOutput.address, crypto.rawDataToSign(tx, i), input.signature) {
        // rule 2
        assert !SignatureValid(crypto, pool, tx, i);
        return false;
      }
      if uniqueUTXO.Contains(utxo) {
        // rule 3
        var k :| 0 <= k < i && UtxoOf(tx.inputs[..i][k]) == utxo;
        assert UtxoOf(tx.inputs[k]) == UtxoOf(tx.inputs[i]);
        return false;
      } else {
        uniqueUTXO.AddUTXO(utxo, previousOutput);
      }
      inputSum := inputSum + previousOutput.value;
      RefsSnoc(tx.inputs, i);
      InputPrefixGrows(pool, tx.inputs, i);
      i := i + 1;
    }
    assert tx.inputs[..i] == tx.inputs;

    var j := 0;
    while j < |tx.outputs|
      invariant 0 <= j <= |tx.outputs|
      invariant forall k :: 0 <= k < j ==> tx.outputs[k].value >= 0
      invariant outputSum == OutputSum(tx.outputs[..j])
    {
      var output := tx.outputs[j];
      if output.value < 0 {
        // rule 4
        return false;
      }
      outputSum := outputSum + output.value;
      assert tx.outputs[..j + 1][..j] == tx.outputs[..j];
      j := j + 1;
    }
    assert tx.outputs[..j] == tx.outputs;

    // rule 5
    return !(inputSum < outputSum);
  }

  /** The rules one at a time: each alone makes a transaction invalid. */
  lemma MissingInputInvalid(crypto: Crypto, pool: map<UTXO, Output>, tx: Transaction, i: nat)
    requires i < |tx.inputs| && UtxoOf(tx.inputs[i]) !in pool
    ensures !ValidTx(crypto, pool, tx)
  {
  }

  lemma BadSignatureInvalid(crypto: Crypto, pool: map<UTXO, Output>, tx: Transaction, i: nat)
    requires i < |tx.inputs| && UtxoOf(tx.inputs[i]) in pool
    requires !crypto.verifySignature(pool[UtxoOf(tx.inputs[i])].address, crypto.rawDataToSign(tx, i), tx.inputs[i].signature)
    ensures !ValidTx(crypto, pool, tx)
  {
    assert !SignatureValid(crypto, pool, tx, i);
  }

  lemma DuplicateInputInvalid(crypto: Crypto, pool: map<UTXO, Output>, tx: Transaction, i: nat, j: nat)
    requires i < j < |tx.inputs| && UtxoOf(tx.inputs[i]) == UtxoOf(tx.inputs[j])
    ensures !ValidTx(crypto, pool, tx)
  {
  }

  lemma NegativeOutputInvalid(crypto: Crypto, pool: map<UTXO, Output>, tx: Transaction, j: nat)
    requires j < |tx.outputs| && tx.outputs[j].value < 0
    ensures !ValidTx(crypto, pool, tx)
  {
  }

  // ---------------------------------------------------------------------
  // Fees
  // ---------------------------------------------------------------------

  /**
   * The fee of `tx` against `pool`: claimed input value minus output value,
   * or 0 as soon as some claimed output is absent. Signatures, repeated
   * claims and negative outputs are not looked at.
   */
  function Fee(pool: map<UTXO, Output>, tx: Transaction): int {
    if InputsExist(pool, tx.inputs) then InputSum(pool, tx.inputs) - OutputSum(tx.outputs) else 0
  }

  /** A valid transaction never pays a negative fee; a zero fee is valid. */
  lemma ValidFeeNonNegative(crypto: Crypto, pool: map<UTXO, Output>, tx: Transaction)
    requires ValidTx(crypto, pool, tx)
    ensures Fee(pool, tx) >= 0
  {
  }
}
