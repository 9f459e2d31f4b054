/**
 * The transaction handler: an object owning a pool of unspent outputs, with
 * the validity check of one transaction and the greedy epoch processor that
 * updates the pool in place.
 */
module Handler {
  import opened Ledger
  import opened Validity
  import opened Epoch

  class TxHandler {
    var pool: Pool

    /** The handler keeps its own copy of the caller's pool; a map value shares nothing with the caller. */
    constructor (utxoPool: Pool)
      ensures pool == utxoPool
    {
      pool := utxoPool;
    }

    /**
     * The five checks, run in order, each returning "invalid" on its first
     * failure. Reads the pool and changes nothing.
     */
    method IsValidTx(tx: Transaction, prims: Primitives) returns (valid: bool)
      ensures valid == Validity.IsValidTx(pool, tx, prims)
    {
      // (1) as coded: the transaction's own output keys
      for index := 0 to |tx.outputs|
        invariant forall j :: 0 <= j < index ==> OwnKey(tx, j) in pool
      {
        var utxo := OwnKey(tx, index);
        if utxo !in pool {
          return false;
        }
      }

      // (2) each claimed output is present and the input's signature verifies
      for index := 0 to |tx.inputs|
        invariant forall j :: 0 <= j < index ==> Claimed(tx.inputs[j]) in pool
        invariant forall j :: 0 <= j < index ==> SignatureOk(pool, tx, prims, j)
      {
        var input := tx.inputs[index];
        var utxo := Claimed(input);
        if utxo !in pool {
          return false;
        }
        var output := pool[utxo];
        if !prims.verifySignature(output.address, prims.rawDataToSign(tx, index), input.signature) {
          assert !SignatureOk(pool, tx, prims, index);
          return false;
        }
      }

      // (3) as coded: no own output key seen twice
      var uniqueUTXOs: set<UTXO> := {};
      for index := 0 to |tx.outputs|
        invariant uniqueUTXOs == set j | 0 <= j < index :: OwnKeys(tx)[j]
        invariant NoRepeatedKey(OwnKeys(tx)[..index])
      {
        var utxo := OwnKey(tx, index);
        if utxo !in uniqueUTXOs {
          uniqueUTXOs := uniqueUTXOs + {utxo};
        } else {
          return false;
        }
      }
      assert OwnKeys(tx)[..|tx.outputs|] == OwnKeys(tx);

      // (4) no negative output value
      for index := 0 to |tx.outputs|
        invariant forall j :: 0 <= j < index ==> tx.outputs[j].value >= 0.0
      {
        if 0.0 > tx.outputs[index].value {
          return false;
        }
      }

      // (5) the claimed outputs cover the new outputs
      var outputSum, inputSum := 0.0, 0.0;
      for index := 0 to |tx.inputs|
        invariant inputSum == InputSum(pool, tx.inputs[..index])
      {
        var output := pool[Claimed(tx.inputs[index])];
        assert tx.inputs[..index + 1][..index] == tx.inputs[..index];
        inputSum := inputSum + output.value;
      }
      for index := 0 to |tx.outputs|
        invariant outputSum == OutputSum(tx.outputs[..index])
      {
        assert tx.outputs[..index + 1][..index] == tx.outputs[..index];
        outputSum := outputSum + tx.outputs[index].value;
      }
      assert tx.inputs[..|tx.inputs|] == tx.inputs;
      assert tx.outputs[..|tx.outputs|] == tx.outputs;

      if inputSum < outputSum {
        return false;
      }
      return true;
    }

    /**
     * Walks the candidates in order; each one valid against the current pool
     * is accepted and its outputs inserted before the next one is checked.
     */
    method HandleTxs(possibleTxs: array<Transaction>, prims: Primitives) returns (accepted: array<Transaction>)
      modifies this
      ensures fresh(accepted)
      ensures EpochResult(accepted[..], pool) == Process(old(pool), possibleTxs[..], prims)
    {
      var newList: seq<Transaction> := [];
      for index := 0 to possibleTxs.Length
        invariant EpochResult(newList, pool) == Process(old(pool), possibleTxs[..index], prims)
      {
        var transaction := possibleTxs[index];
        assert possibleTxs[..index + 1][..index] == possibleTxs[..index];
        var ok := IsValidTx(transaction, prims);
        if !ok {
          continue;
        }
        ghost var before := pool;
        for indexOutput := 0 to |transaction.outputs|
          invariant pool == AddOutputs(before, transaction, indexOutput)
        {
          var utxo := OwnKey(transaction, indexOutput);
          pool := pool[utxo := transaction.outputs[indexOutput]];
        }
        newList := newList + [transaction];
      }
      assert possibleTxs[..possibleTxs.Length] == possibleTxs[..];
      accepted := new Transaction[|newList|](i requires 0 <= i < |newList| => newList[i]);
    }
  }

  /** The check only reads the pool, so asking twice gives the same answer. */
  method IsValidTxTwice(handler: TxHandler, tx: Transaction, prims: Primitives) returns (first: bool, second: bool)
    ensures first == second == Validity.IsValidTx(handler.pool, tx, prims)
  {
    first := handler.IsValidTx(tx, prims);
    second := handler.IsValidTx(tx, prims);
  }
}
