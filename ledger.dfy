/**
 * The value types a Scrooge-Coin transaction handler consumes: outputs,
 * inputs, transactions, UTXO keys and the pool of unspent outputs, plus the
 * two foreign primitives it calls (signature verification and the signing
 * payload of a transaction).
 */
module Ledger {

  type Bytes = seq<bv8>

  /** A recipient's public key, in some encoding the model does not look into. */
  type Address = Bytes
  type Signature = Bytes
  type Hash = Bytes

  /** Key of an unspent output: the hash of the transaction that created it and its position. */
  datatype UTXO = UTXO(txHash: Hash, index: int)

  /** Amounts are exact reals: the rounding of the source's `double` sums is not modelled. */
  datatype Output = Output(address: Address, value: real)

  /** A claim on a previous output, signed by the owner of that output. */
  datatype Input = Input(prevTxHash: Hash, outputIndex: int, signature: Signature)

  datatype Transaction = Transaction(hash: Hash, inputs: seq<Input>, outputs: seq<Output>)

  /** The pool of unspent outputs. As a value it cannot be aliased. */
  type Pool = map<UTXO, Output>

  /**
   * The primitives the handler calls but does not define: the signature
   * check of the crypto library and the transaction's signing payload for one
   * input position. They are left uninterpreted by taking them as a value.
   */
  datatype Primitives = Primitives(
    verifySignature: (Address, Bytes, Signature) -> bool,
    rawDataToSign: (Transaction, int) -> Bytes)

  /** The pool key an input claims. */
  function Claimed(input: Input): UTXO
  {
    UTXO(input.prevTxHash, input.outputIndex)
  }

  /** The pool key under which output `index` of `tx` is stored. */
  function OwnKey(tx: Transaction, index: int): UTXO
  {
    UTXO(tx.hash, index)
  }

  /** The transaction's own output keys, `(hash, 0)`, `(hash, 1)`, ..., in order. */
  function OwnKeys(tx: Transaction): (keys: seq<UTXO>)
    ensures |keys| == |tx.outputs|
    ensures forall i :: 0 <= i < |keys| ==> keys[i] == OwnKey(tx, i)
  {
    seq(|tx.outputs|, i => OwnKey(tx, i))
  }
}
