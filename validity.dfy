/**
 * The validity predicate of a single transaction against a pool, as the
 * handler's code computes it: five checks in a fixed order, the first
 * failing one deciding "invalid".
 *
 * Check (1) and check (3) are stated as coded, over the transaction's own
 * output keys `(tx.hash, i)`, not over the outputs its inputs claim.
 */
module Validity {
  import opened Ledger

  /** Check (1) as coded: every one of the transaction's own output keys is already in the pool. */
  ghost predicate OwnOutputsInPool(pool: Pool, tx: Transaction)
  {
    forall i :: 0 <= i < |tx.outputs| ==> OwnKey(tx, i) in pool
  }

  /** First half of check (2): every input claims a key that is in the pool. */
  ghost predicate AllClaimedInPool(pool: Pool, inputs: seq<Input>)
  {
    forall i :: 0 <= i < |inputs| ==> Claimed(inputs[i]) in pool
  }

  /**
   * Second half of check (2): the signature of input `i` verifies under the
   * address of the output it claims, over the signing payload for position `i`.
   */
  ghost predicate SignatureOk(pool: Pool, tx: Transaction, prims: Primitives, i: int)
    requires 0 <= i < |tx.inputs| && Claimed(tx.inputs[i]) in pool
  {
    var input := tx.inputs[i];
    prims.verifySignature(pool[Claimed(input)].address, prims.rawDataToSign(tx, i), input.signature)
  }

  ghost predicate AllSigned(pool: Pool, tx: Transaction, prims: Primitives)
    requires AllClaimedInPool(pool, tx.inputs)
  {
    forall i :: 0 <= i < |tx.inputs| ==> SignatureOk(pool, tx, prims, i)
  }

  /** Check (3): no key occurs twice in `keys`. */
  ghost predicate NoRepeatedKey(keys: seq<UTXO>)
  {
    forall i, j :: 0 <= i < j < |keys| ==> keys[i] != keys[j]
  }

  /** Check (4): no output value is negative (zero is allowed). */
  ghost predicate NoNegativeOutput(outputs: seq<Output>)
  {
    forall j :: 0 <= j < |outputs| ==> outputs[j].value >= 0.0
  }

  /** Sum of the values of the outputs the inputs claim, looked up in the pool. */
  ghost function InputSum(pool: Pool, inputs: seq<Input>): real
    requires AllClaimedInPool(pool, inputs)
  {
    if inputs == [] then 0.0
    else InputSum(pool, inputs[..|inputs| - 1]) + pool[Claimed(inputs[|inputs| - 1])].value
  }

  /** Sum of the values of the outputs. */
  ghost function OutputSum(outputs: seq<Output>): real
  {
    if outputs == [] then 0.0
    else OutputSum(outputs[..|outputs| - 1]) + outputs[|outputs| - 1].value
  }

  /** The handler's validity predicate, checks (1) to (5) in the order the code runs them. */
  ghost predicate IsValidTx(pool: Pool, tx: Transaction, prims: Primitives)
  {
    && OwnOutputsInPool(pool, tx)
    && AllClaimedInPool(pool, tx.inputs)
    && AllSigned(pool, tx, prims)
    && NoRepeatedKey(OwnKeys(tx))
    && NoNegativeOutput(tx.outputs)
    && InputSum(pool, tx.inputs) >= OutputSum(tx.outputs)
  }

  /** As coded, a transaction is rejected when one of its own output keys is not yet in the pool. */
  lemma OwnOutputMissingRejected(pool: Pool, tx: Transaction, prims: Primitives, j: int)
    requires 0 <= j < |tx.outputs| && OwnKey(tx, j) !in pool
    ensures !IsValidTx(pool, tx, prims)
  {
  }

  /** A transaction one of whose inputs claims a key absent from the pool is rejected. */
  lemma MissingInputRejected(pool: Pool, tx: Transaction, prims: Primitives, i: int)
    requires 0 <= i < |tx.inputs| && Claimed(tx.inputs[i]) !in pool
    ensures !IsValidTx(pool, tx, prims)
  {
  }

  /** In a valid transaction, input `i` claims a pooled output and its signature verifies under that output's address. */
  lemma ValidInputIsSigned(pool: Pool, tx: Transaction, prims: Primitives, i: int)
    requires 0 <= i < |tx.inputs|
    ensures IsValidTx(pool, tx, prims) ==>
      && Claimed(tx.inputs[i]) in pool
      && prims.verifySignature(pool[Claimed(tx.inputs[i])].address,
                               prims.rawDataToSign(tx, i), tx.inputs[i].signature)
  {
    if IsValidTx(pool, tx, prims) {
      assert SignatureOk(pool, tx, prims, i);
    }
  }

  /** A transaction with one input whose signature does not verify is rejected. */
  lemma BadSignatureRejected(pool: Pool, tx: Transaction, prims: Primitives, i: int)
    requires 0 <= i < |tx.inputs| && Claimed(tx.inputs[i]) in pool
    requires !prims.verifySignature(pool[Claimed(tx.inputs[i])].address,
                                    prims.rawDataToSign(tx, i), tx.inputs[i].signature)
    ensures !IsValidTx(pool, tx, prims)
  {
    ValidInputIsSigned(pool, tx, prims, i);
  }

  /** A transaction with a negative output value is rejected. */
  lemma NegativeOutputRejected(pool: Pool, tx: Transaction, prims: Primitives, j: int)
    requires 0 <= j < |tx.outputs| && tx.outputs[j].value < 0.0
    ensures !IsValidTx(pool, tx, prims)
  {
  }

  /** A transaction that pays out more than its inputs are worth is rejected. */
  lemma ValueCreationRejected(pool: Pool, tx: Transaction, prims: Primitives)
    requires AllClaimedInPool(pool, tx.inputs)
    requires InputSum(pool, tx.inputs) < OutputSum(tx.outputs)
    ensures !IsValidTx(pool, tx, prims)
  {
  }

  /**
   * Check (3) as coded can never fail: it looks at the transaction's own
   * output keys, which differ in their index.
   */
  lemma OwnKeysNeverRepeat(tx: Transaction)
    ensures NoRepeatedKey(OwnKeys(tx))
  {
  }

  /**
   * Validity is exactly five conditions, check (3) dropping out: own output keys present,
   * claimed keys present, signatures valid, no negative value, and the input
   * sum at least the output sum (equal sums and a surplus both pass).
   */
  lemma IsValidTxIff(pool: Pool, tx: Transaction, prims: Primitives)
    ensures IsValidTx(pool, tx, prims) <==>
      && (forall i :: 0 <= i < |tx.outputs| ==> OwnKey(tx, i) in pool)
      && (forall i :: 0 <= i < |tx.inputs| ==> Claimed(tx.inputs[i]) in pool)
      && (forall i :: 0 <= i < |tx.inputs| ==>
            prims.verifySignature(pool[Claimed(tx.inputs[i])].address,
                                  prims.rawDataToSign(tx, i), tx.inputs[i].signature))
      && (forall j :: 0 <= j < |tx.outputs| ==> tx.outputs[j].value >= 0.0)
      && InputSum(pool, tx.inputs) >= OutputSum(tx.outputs)
  {
    OwnKeysNeverRepeat(tx);
    if AllClaimedInPool(pool, tx.inputs) {
      forall i | 0 <= i < |tx.inputs|
        ensures SignatureOk(pool, tx, prims, i) <==>
          prims.verifySignature(pool[Claimed(tx.inputs[i])].address,
                                prims.rawDataToSign(tx, i), tx.inputs[i].signature)
      {
      }
      assert AllSigned(pool, tx, prims) <==>
        forall i :: 0 <= i < |tx.inputs| ==>
          prims.verifySignature(pool[Claimed(tx.inputs[i])].address,
                                prims.rawDataToSign(tx, i), tx.inputs[i].signature);
    }
  }

  /** The sum of outputs none of which is negative is not negative. */
  lemma {:induction false} OutputSumNonNegative(outputs: seq<Output>)
    requires NoNegativeOutput(outputs)
    ensures OutputSum(outputs) >= 0.0
  {
    if outputs != [] {
      OutputSumNonNegative(outputs[..|outputs| - 1]);
    }
  }

  /** A valid transaction pays out a non-negative amount, covered by its inputs; the difference is the fee. */
  lemma ValidTxIsFunded(pool: Pool, tx: Transaction, prims: Primitives)
    requires IsValidTx(pool, tx, prims)
    ensures 0.0 <= OutputSum(tx.outputs) <= InputSum(pool, tx.inputs)
  {
    OutputSumNonNegative(tx.outputs);
  }
}
