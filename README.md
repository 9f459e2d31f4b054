# Scrooge-Coin transaction handler, modelled in Dafny

This project models the transaction handler of a Scrooge-Coin ledger. The
handler owns a pool of unspent transaction outputs (UTXOs). The pool maps a
key `(transaction hash, output index)` to an output `(address, value)`. The
handler offers two operations:

- `isValidTx` checks one transaction against the current pool. It runs five
  checks in a fixed order and returns false at the first one that fails.
- `handleTxs` processes one epoch. It walks the candidate array in order.
  Each candidate that passes `isValidTx` against the pool as it stands at that
  moment is accepted, and its outputs are inserted into the pool before the
  next candidate is checked.

The model follows the code as written, not its documentation comment. The
two disagree in three places, and the model proves each disagreement:

- Check (1) asks that the transaction's *own* output keys `(tx.hash, i)` are
  in the pool. It does not look at the outputs the inputs claim. So a
  transaction whose outputs are new is always rejected
  (`Validity.OwnOutputMissingRejected`). Every key that a transaction
  accepted in an epoch claims, and each of its own output keys, was already in
  the pool before the epoch began (`Epoch.AcceptedClaimsPredateEpoch`). So a
  chain of spends from a pool that holds only the first spent output is
  rejected in full (`Scenarios.ChainedSpendRejected`). A chain is accepted
  only when the pool happens to hold the intermediate key already
  (`Scenarios.ChainOverExistingKeyAccepted`).
- Check (3), the uniqueness pass, also runs over the own output keys. These
  differ by index, so the check can never fail (`Validity.OwnKeysNeverRepeat`).
  A transaction may claim one output twice and pay out both claims
  (`Scenarios.DuplicateClaimAccepted`).
- `handleTxs` never removes a spent output from the pool. Two transactions of
  one epoch may spend the same output (`Scenarios.DoubleSpendInOneEpoch`).
  Together with check (1) this means that an epoch never changes the pool's
  key set at all (`Epoch.EpochKeysUnchanged`). It only overwrites the values
  stored under keys that already exist.

The documented intent is a different design: remove spent inputs, reject
duplicate claims, accept chains of spends inside one epoch. That design is
not modelled here.

The repository holds two copies of the handler:
`assignment1/TxHandler.java` and `assignment1/com/crypto/TxHandler.java`.
Their constructors and `isValidTx` are line for line the same logic. One
Dafny class and one predicate model both, and the table below cites whichever
copy fits each row. The second copy's `handleTxs` is an unfinished draft that
does not compile (see "Left out").

Layout:

- `ledger.dfy`, module `Ledger`: the value types. These are `UTXO`, `Output`,
  `Input`, `Transaction` and `Pool` (a `map<UTXO, Output>`). The module also
  holds `Primitives`, the two foreign calls (signature verification and the
  signing payload) taken as function values.
- `validity.dfy`, module `Validity`: the validity predicate `IsValidTx` as the
  five checks compute it, and lemmas about each check.
- `epoch.dfy`, module `Epoch`: `Process`, the state after each prefix of the
  candidates in the greedy pass. It also holds lemmas about the accepted
  sequence and the final pool.
- `tx_handler.dfy`, module `Handler`: class `TxHandler` with field `pool`.
  `IsValidTx` is a method made of the source's early-return loops, proved
  equal to the predicate. `HandleTxs` is the epoch loop that updates `pool`
  in place, proved equal to `Process`.
- `scenarios.dfy`, module `Scenarios`: small concrete ledgers that show the
  departures from the documentation listed above.

## Model

| member | source | states |
|---|---|---|
| `Handler.TxHandler.constructor` | assignment1/com/crypto/TxHandler.java:37-40 | The handler starts with a pool equal to the argument. A map value shares nothing with the caller's pool. |
| `Handler.TxHandler.IsValidTx` | assignment1/TxHandler.java:45-109 | The loop method with its early returns, running sums and seen-set returns exactly `Validity.IsValidTx` of the current pool. It has no `modifies` clause, so it leaves the pool unchanged. |
| `Handler.IsValidTxTwice` | assignment1/com/crypto/TxHandler.java:51-115 | Calling the check twice on an unchanged handler gives the same answer both times, and that answer is the validity predicate. |
| `Handler.TxHandler.HandleTxs` | assignment1/TxHandler.java:117-138 | The returned array is fresh. The returned array and the new pool are exactly the greedy pass `Epoch.Process` over the candidate array, starting from the old pool. |
| `Validity.OwnOutputMissingRejected` | assignment1/com/crypto/TxHandler.java:57-62 | As coded, a transaction is invalid when one of its own output keys `(tx.hash, j)` is not in the pool. |
| `Validity.MissingInputRejected` | assignment1/com/crypto/TxHandler.java:65-69 | A transaction is invalid when some input claims a key `(prevTxHash, outputIndex)` that is absent from the pool. |
| `Validity.ValidInputIsSigned` | assignment1/TxHandler.java:59-69 | In a valid transaction every input claims a pooled output. Its signature verifies under that output's address, over the signing payload for the input's position. |
| `Validity.BadSignatureRejected` | assignment1/com/crypto/TxHandler.java:71-74 | A transaction is invalid when one input's signature fails under the claimed output's address. |
| `Validity.OwnKeysNeverRepeat` | assignment1/com/crypto/TxHandler.java:78-87 | The uniqueness pass as coded can never reject: the own output keys of any transaction are pairwise distinct. |
| `Validity.NegativeOutputRejected` | assignment1/com/crypto/TxHandler.java:90-94 | A transaction with a negative output value is invalid. |
| `Validity.ValueCreationRejected` | assignment1/com/crypto/TxHandler.java:97-111 | A transaction whose claimed inputs are worth less than its outputs is invalid. |
| `Validity.IsValidTxIff` | assignment1/TxHandler.java:50-107 | Validity holds exactly when five things hold: the own output keys are pooled, the claimed keys are pooled, every signature verifies, no output value is below zero, and the input sum is at least the output sum. Zero values, equal sums and a surplus therefore pass. |
| `Validity.OutputSumNonNegative` | assignment1/TxHandler.java:84-101 | If no output value is negative, the output sum is not negative. |
| `Validity.ValidTxIsFunded` | assignment1/TxHandler.java:90-105 | A valid transaction pays out an amount between zero and the value of what it claims. The difference is the fee. |
| `Epoch.AddOutputs` | assignment1/TxHandler.java:127-130 | Inserting outputs `0..n-1` adds exactly the keys `(tx.hash, j)`, `j < n`, to the key set. Each such key holds output `j`. Every other entry is unchanged. |
| `Epoch.AcceptedAreSelection` | assignment1/TxHandler.java:120-136 | The accepted transactions are the candidates at strictly increasing positions. A position is selected exactly when that candidate is valid against the pool at its turn. So the result is an order-preserving subsequence of the input. |
| `Epoch.AcceptedLength` | assignment1/TxHandler.java:120-136 | An epoch accepts at most as many transactions as it is offered. |
| `Epoch.EpochKeysUnchanged` | assignment1/TxHandler.java:122-130 | As coded, an epoch leaves the pool's key set exactly as it was. No key is removed, and every key an accepted transaction inserts was already present. |
| `Epoch.AcceptedClaimsPredateEpoch` | assignment1/TxHandler.java:122-130 | A candidate accepted at any position of the epoch claims only keys that were in the pool before the epoch, and its own output keys were there too. |
| `Epoch.FinalPoolFromAccepted` | assignment1/TxHandler.java:122-133 | The pool after an epoch is the old pool with the outputs of the accepted transactions inserted, one transaction after the other, in the order accepted. Rejected candidates leave no trace on the pool. |
| `Epoch.LastWriterWins` | assignment1/TxHandler.java:127-130 | After an epoch, key `(hash, j)` of an accepted transaction holds that transaction's output `j`. The exception is a later accepted transaction that has the same hash and more than `j` outputs, which overwrites it. |
| `Epoch.UnwrittenKeysKept` | assignment1/TxHandler.java:125-130 | A pooled key that no accepted transaction writes keeps its entry from before the epoch. |
| `Scenarios.DuplicateClaimAccepted` | assignment1/TxHandler.java:71-81 | A concrete transaction that claims one 10-coin output twice and pays out 20 is valid as coded. |
| `Scenarios.DoubleSpendInOneEpoch` | assignment1/TxHandler.java:122-133 | Two concrete transactions of one epoch that each spend the same output are both accepted, and the spent output stays in the pool. |
| `Scenarios.ChainedSpendRejected` | assignment1/TxHandler.java:50-56 | From a pool holding only the first spent output, a concrete two-step chain of spends is rejected in full. The epoch returns nothing and the pool is unchanged. |
| `Scenarios.ChainOverExistingKeyAccepted` | assignment1/TxHandler.java:122-133 | From a pool that already holds the intermediate key (worth nothing), the same chain is accepted in full: the second transaction spends the output the first one wrote over that key. |

## Left out

- The `tx == null` guard (assignment1/TxHandler.java:47-48) is not modelled. Dafny values are never null.
- `handleTxs` in assignment1/com/crypto/TxHandler.java is not modelled. It is an unfinished draft that does not compile: there is a dangling `.` at line 133, an undefined `utxo` at line 140, and no return statement.
- `Crypto.verifySignature` and `Transaction.getRawDataToSign` are foreign code. They are the two fields of `Ledger.Primitives`, passed to the operations as parameters, and nothing is assumed about them. The model makes no claims about cryptography.
- `Transaction.getHash` is the stored field `hash`. How a hash is computed is not modelled.
- `UTXOPool` is not part of this model, and neither is its copy constructor. The pool is a Dafny `map` value, so copying cannot alias.
- Values are exact `real`s. The rounding of Java `double` sums at assignment1/TxHandler.java:91-105 is not modelled, and neither are NaN and the infinities. A NaN output value passes the negativity check at assignment1/TxHandler.java:85, because `0.0 > NaN` is false. It also makes `inputSum < outputSum` at line 103 false, so the source accepts such a transaction whatever its inputs are worth. The model's reals have no NaN and no infinity, so it rejects every transaction whose outputs exceed its inputs.
- Java `int` indices are unbounded integers here. The loops only count up to a list length, which a Java `int` always holds.
- `Handler.TxHandler.HandleTxs` builds the result as a sequence and copies it into a fresh array. The `ArrayList` and `toArray` are not modelled as such.
- The documented but unimplemented behaviour is not proved, because it is false of the code: removing spent outputs, rejecting duplicate claims within a transaction, and rejecting double spends within one epoch.
- Concurrency: the handler is single-threaded and the model has no concurrency.
