/**
 * Small concrete ledgers on which the handler's code, as written, departs
 * from what its documentation promises: a transaction may claim one output
 * twice, two transactions of one epoch may spend the same output, and a
 * transaction is accepted only if its own output keys are already pooled, so
 * an epoch can never spend a key that was not in the pool when it began.
 */
module Scenarios {
  import opened Ledger
  import opened Validity
  import opened Epoch

  const HashU: Hash := [1]
  const Hash1: Hash := [2]
  const Hash2: Hash := [3]
  const OwnerA: Address := [10]
  const OwnerB: Address := [11]
  const OwnerC: Address := [12]

  /** The one output `u` everybody wants to spend: 10 coins owned by A. */
  const U: UTXO := UTXO(HashU, 0)

  /** A claims `u` twice in one transaction and pays out both claims. */
  const Greedy: Transaction := Transaction(Hash1, [Input(HashU, 0, [7]), Input(HashU, 0, [7])], [Output(OwnerB, 20.0)])

  /** Two transactions that each spend all of `u`. */
  const Spend1: Transaction := Transaction(Hash1, [Input(HashU, 0, [7])], [Output(OwnerB, 10.0)])
  const Spend2: Transaction := Transaction(Hash2, [Input(HashU, 0, [8])], [Output(OwnerC, 10.0)])

  /** `Chain2` spends output 0 of `Spend1`. */
  const Chain2: Transaction := Transaction(Hash2, [Input(Hash1, 0, [9])], [Output(OwnerC, 6.0)])

  /** A pool holding only `u`. */
  const GenesisPool: Pool := map[U := Output(OwnerA, 10.0)]

  /** A pool in which `u` and, by coincidence, the spenders' own output keys are present, each worth nothing. */
  const PrimedPool: Pool :=
    map[U := Output(OwnerA, 10.0), UTXO(Hash1, 0) := Output(OwnerB, 0.0), UTXO(Hash2, 0) := Output(OwnerC, 0.0)]

  /** The sum over one input or two inputs is the sum of their claims. */
  lemma InputSumOfTwo(pool: Pool, a: Input, b: Input)
    requires Claimed(a) in pool && Claimed(b) in pool
    ensures InputSum(pool, [a]) == pool[Claimed(a)].value
    ensures InputSum(pool, [a, b]) == pool[Claimed(a)].value + pool[Claimed(b)].value
  {
  }

  lemma OutputSumOfOne(o: Output)
    ensures OutputSum([o]) == o.value
  {
  }

  /**
   * As coded, a transaction that claims the same output twice is valid and
   * pays out twice that output's value: the uniqueness check looks at the
   * transaction's own output keys, not at the claimed ones.
   */
  lemma DuplicateClaimAccepted(prims: Primitives)
    requires prims.verifySignature(OwnerA, prims.rawDataToSign(Greedy, 0), [7])
    requires prims.verifySignature(OwnerA, prims.rawDataToSign(Greedy, 1), [7])
    ensures IsValidTx(PrimedPool, Greedy, prims)
    ensures OutputSum(Greedy.outputs) == 2.0 * PrimedPool[U].value
  {
    var pool := PrimedPool;
    InputSumOfTwo(pool, Greedy.inputs[0], Greedy.inputs[1]);
    OutputSumOfOne(Greedy.outputs[0]);
    assert Greedy.inputs == [Greedy.inputs[0], Greedy.inputs[1]];
    assert Greedy.outputs == [Greedy.outputs[0]];
    assert SignatureOk(pool, Greedy, prims, 0) && SignatureOk(pool, Greedy, prims, 1);
    OwnKeysNeverRepeat(Greedy);
  }

  /** A one-input, one-output spend of `u` is valid against a pool that holds `u` and its own output key. */
  lemma SpendValid(pool: Pool, tx: Transaction, prims: Primitives)
    requires U in pool && pool[U] == Output(OwnerA, 10.0)
    requires |tx.inputs| == 1 && |tx.outputs| == 1
    requires Claimed(tx.inputs[0]) == U && OwnKey(tx, 0) in pool
    requires 0.0 <= tx.outputs[0].value <= 10.0
    requires prims.verifySignature(OwnerA, prims.rawDataToSign(tx, 0), tx.inputs[0].signature)
    ensures IsValidTx(pool, tx, prims)
  {
  }

  /** An epoch of two candidates, each valid at its turn, accepts both. */
  lemma BothOfTwoAccepted(pool: Pool, a: Transaction, b: Transaction, prims: Primitives)
    requires IsValidTx(pool, a, prims) && IsValidTx(Commit(pool, a), b, prims)
    ensures Process(pool, [a, b], prims) == EpochResult([a, b], Commit(Commit(pool, a), b))
  {
    assert [a, b][..1] == [a];
    assert [a][..0] == [];
    assert Process(pool, [a][..0], prims) == EpochResult([], pool);
    var r1 := Process(pool, [a], prims);
    assert r1 == EpochResult([a], Commit(pool, a));
    assert Process(pool, [a, b], prims) == EpochResult(r1.accepted + [b], Commit(r1.pool, b));
  }

  /**
   * As coded, two transactions of one epoch that each spend all of `u` are
   * both accepted: the spent output is never removed from the pool.
   */
  lemma DoubleSpendInOneEpoch(prims: Primitives)
    requires prims.verifySignature(OwnerA, prims.rawDataToSign(Spend1, 0), [7])
    requires prims.verifySignature(OwnerA, prims.rawDataToSign(Spend2, 0), [8])
    ensures Process(PrimedPool, [Spend1, Spend2], prims).accepted == [Spend1, Spend2]
    ensures U in Process(PrimedPool, [Spend1, Spend2], prims).pool
  {
    var p0 := PrimedPool;
    SpendValid(p0, Spend1, prims);
    var p1 := Commit(p0, Spend1);
    assert U in p0 && OwnKey(Spend2, 0) in p0;
    assert U.txHash != Spend1.hash && OwnKey(Spend2, 0).txHash != Spend1.hash;
    assert U in p1 && p1[U] == p0[U];
    SpendValid(p1, Spend2, prims);
    BothOfTwoAccepted(p0, Spend1, Spend2, prims);
    assert U in Commit(p1, Spend2);
  }

  /**
   * As coded, a transaction whose outputs are new is rejected, so from a pool
   * holding only `u` the chain `Spend1`, `Chain2` is rejected in full:
   * `Spend1`'s key `(Hash1, 0)` is not pooled, and `Chain2` claims that key.
   */
  lemma ChainedSpendRejected(prims: Primitives)
    ensures Process(GenesisPool, [Spend1, Chain2], prims) == EpochResult([], GenesisPool)
  {
    var p0 := GenesisPool;
    OwnOutputMissingRejected(p0, Spend1, prims, 0);
    assert [Spend1, Chain2][..1] == [Spend1];
    assert [Spend1][..0] == [];
    assert Process(p0, [Spend1], prims) == EpochResult([], p0);
    OwnOutputMissingRejected(p0, Chain2, prims, 0);
  }

  /**
   * A chain within one epoch is accepted only over a key that already existed:
   * in `PrimedPool`, `(Hash1, 0)` is pooled with value 0, `Spend1` overwrites it
   * with 10 coins for B, and `Chain2` then spends that output.
   */
  lemma ChainOverExistingKeyAccepted(prims: Primitives)
    requires prims.verifySignature(OwnerA, prims.rawDataToSign(Spend1, 0), [7])
    requires prims.verifySignature(OwnerB, prims.rawDataToSign(Chain2, 0), [9])
    ensures Process(PrimedPool, [Spend1, Chain2], prims).accepted == [Spend1, Chain2]
  {
    var p0 := PrimedPool;
    SpendValid(p0, Spend1, prims);
    var p1 := Commit(p0, Spend1);
    assert p1[OwnKey(Spend1, 0)] == Output(OwnerB, 10.0);
    assert OwnKey(Chain2, 0) in p0 && OwnKey(Chain2, 0).txHash != Spend1.hash;
    assert OwnKey(Chain2, 0) in p1;
    InputSumOfTwo(p1, Chain2.inputs[0], Chain2.inputs[0]);
    OutputSumOfOne(Chain2.outputs[0]);
    assert Chain2.inputs == [Chain2.inputs[0]];
    assert Chain2.outputs == [Chain2.outputs[0]];
    assert SignatureOk(p1, Chain2, prims, 0);
    OwnKeysNeverRepeat(Chain2);
    BothOfTwoAccepted(p0, Spend1, Chain2, prims);
  }
}
