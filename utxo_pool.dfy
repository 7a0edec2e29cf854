/**
 * The pool of unspent transaction outputs: a mutable table from identifier
 * to output record, shared by reference between a handler and its caller.
 */
module Pool {
  import opened Ledger

  class UTXOPool {
    var utxos: map<UTXO, Output>

    /** An empty pool, as the validator's scratch pool is created. */
    constructor ()
      ensures utxos == map[]
    {
      utxos := map[];
    }

    /** A pool holding exactly `contents`. */
    constructor Of(contents: map<UTXO, Output>)
      ensures utxos == contents
    {
      utxos := contents;
    }

    predicate Contains(utxo: UTXO)
      reads this
    {
      utxo in utxos
    }

    /** The output recorded for `utxo`, or None when it is absent. */
    function GetTxOutput(utxo: UTXO): Option<Output>
      reads this
    {
      if utxo in utxos then Some(utxos[utxo]) else None
    }

    /** Adds or overwrites the mapping for `utxo`; nothing else changes. */
    method AddUTXO(utxo: UTXO, output: Output)
      modifies this
      ensures utxos == old(utxos)[utxo := output]
    {
      utxos := utxos[utxo := output];
    }

    /** Deletes the mapping for `utxo` if there is one; nothing else changes. */
    method RemoveUTXO(utxo: UTXO)
      modifies this
      ensures utxos == old(utxos) - {utxo}
    {
      utxos := utxos - {utxo};
    }
  }
}
