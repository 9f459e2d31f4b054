/**
 * What one call of the handler's epoch processor computes: a greedy pass over
 * the candidates in the given order that accepts each candidate valid against
 * the pool as it stands at its turn and then inserts that candidate's outputs.
 * Spent outputs are never removed, as in the code.
 */
module Epoch {
  import opened Ledger
  import opened Validity

  /** The pool after inserting outputs `0 .. n-1` of `tx`, one after the other, under `(tx.hash, j)`. */
  ghost function AddOutputs(pool: Pool, tx: Transaction, n: nat): (r: Pool)
    requires n <= |tx.outputs|
    ensures forall u :: u in r <==> u in pool || (u.txHash == tx.hash && 0 <= u.index < n)
    ensures forall j :: 0 <= j < n ==> r[OwnKey(tx, j)] == tx.outputs[j]
    ensures forall u :: u in pool && (u.txHash != tx.hash || !(0 <= u.index < n)) ==> r[u] == pool[u]
  {
    if n == 0 then pool
    else AddOutputs(pool, tx, n - 1)[OwnKey(tx, n - 1) := tx.outputs[n - 1]]
  }

  /** Accepting `tx`: all its outputs are inserted; nothing is removed. */
  ghost function Commit(pool: Pool, tx: Transaction): Pool
  {
    AddOutputs(pool, tx, |tx.outputs|)
  }

  /** The result of one epoch: the accepted transactions in order and the pool afterwards. */
  datatype EpochResult = EpochResult(accepted: seq<Transaction>, pool: Pool)

  /** The greedy pass over `txs`, as the state after each prefix of the candidates. */
  ghost function Process(pool: Pool, txs: seq<Transaction>, prims: Primitives): EpochResult
    decreases |txs|
  {
    if txs == [] then EpochResult([], pool)
    else
      var before := Process(pool, txs[..|txs| - 1], prims);
      var tx := txs[|txs| - 1];
      if IsValidTx(before.pool, tx, prims) then EpochResult(before.accepted + [tx], Commit(before.pool, tx))
      else before
  }

  /** The pool the `i`-th candidate is checked against. */
  ghost function PoolAt(pool: Pool, txs: seq<Transaction>, prims: Primitives, i: int): Pool
    requires 0 <= i <= |txs|
  {
    Process(pool, txs[..i], prims).pool
  }

  /** The `i`-th candidate sees the same pool whichever longer candidate list it is the prefix of. */
  lemma PoolAtPrefix(pool: Pool, txs: seq<Transaction>, prims: Primitives, n: int, i: int)
    requires 0 <= i <= n <= |txs|
    ensures PoolAt(pool, txs[..n], prims, i) == PoolAt(pool, txs, prims, i)
  {
    assert txs[..n][..i] == txs[..i];
  }

  /** Whether the `i`-th candidate passes validity against the pool at its turn. */
  ghost predicate AcceptedAt(pool: Pool, txs: seq<Transaction>, prims: Primitives, i: int)
    requires 0 <= i < |txs|
  {
    IsValidTx(PoolAt(pool, txs, prims, i), txs[i], prims)
  }

  /**
   * The accepted transactions are exactly the candidates that pass validity
   * against the pool at their turn, in the order given: `idx` lists their
   * positions, strictly increasing.
   */
  lemma {:induction false} AcceptedAreSelection(pool: Pool, txs: seq<Transaction>, prims: Primitives)
    returns (idx: seq<int>)
    ensures var r := Process(pool, txs, prims);
      && |idx| == |r.accepted|
      && (forall k :: 0 <= k < |idx| ==> 0 <= idx[k] < |txs| && r.accepted[k] == txs[idx[k]])
      && (forall k, l :: 0 <= k < l < |idx| ==> idx[k] < idx[l])
      && (forall i :: 0 <= i < |txs| ==> (i in idx <==> AcceptedAt(pool, txs, prims, i)))
    decreases |txs|
  {
    if txs == [] {
      idx := [];
    } else {
      var n := |txs| - 1;
      var pre := txs[..n];
      var idx0 := AcceptedAreSelection(pool, pre, prims);
      var before := Process(pool, pre, prims);
      forall i | 0 <= i < n
        ensures AcceptedAt(pool, pre, prims, i) == AcceptedAt(pool, txs, prims, i)
      {
        PoolAtPrefix(pool, txs, prims, n, i);
      }
      assert txs[..n] == pre;
      assert PoolAt(pool, txs, prims, n) == before.pool;
      if AcceptedAt(pool, txs, prims, n) {
        assert Process(pool, txs, prims).accepted == before.accepted + [txs[n]];
        assert n !in idx0;
        idx := idx0 + [n];
      } else {
        assert Process(pool, txs, prims) == before;
        idx := idx0;
      }
    }
  }

  /** An epoch accepts at most as many transactions as it is offered. */
  lemma {:induction false} AcceptedLength(pool: Pool, txs: seq<Transaction>, prims: Primitives)
    ensures |Process(pool, txs, prims).accepted| <= |txs|
    decreases |txs|
  {
    if txs != [] {
      AcceptedLength(pool, txs[..|txs| - 1], prims);
    }
  }

  /**
   * As coded, an epoch never changes which keys the pool holds: no key is
   * removed, and an accepted transaction's own output keys were already in the
   * pool (check (1)), so inserting its outputs adds none.
   */
  lemma {:induction false} EpochKeysUnchanged(pool: Pool, txs: seq<Transaction>, prims: Primitives)
    ensures Process(pool, txs, prims).pool.Keys == pool.Keys
    decreases |txs|
  {
    if txs != [] {
      var before := Process(pool, txs[..|txs| - 1], prims);
      var tx := txs[|txs| - 1];
      EpochKeysUnchanged(pool, txs[..|txs| - 1], prims);
      if IsValidTx(before.pool, tx, prims) {
        forall u: UTXO | u.txHash == tx.hash && 0 <= u.index < |tx.outputs|
          ensures u in before.pool
        {
          assert u == OwnKey(tx, u.index);
        }
      }
    }
  }

  /**
   * A candidate accepted anywhere in the epoch claims only keys that were in
   * the pool before the epoch began, and its own output keys were there too:
   * the key set it was checked against is the initial one.
   */
  lemma AcceptedClaimsPredateEpoch(pool: Pool, txs: seq<Transaction>, prims: Primitives, i: int)
    requires 0 <= i < |txs| && AcceptedAt(pool, txs, prims, i)
    ensures forall k :: 0 <= k < |txs[i].inputs| ==> Claimed(txs[i].inputs[k]) in pool
    ensures forall j :: 0 <= j < |txs[i].outputs| ==> OwnKey(txs[i], j) in pool
  {
    EpochKeysUnchanged(pool, txs[..i], prims);
  }

  /** The pool after committing `accepted`, one transaction after the other. */
  ghost function CommitAll(pool: Pool, accepted: seq<Transaction>): Pool
    decreases |accepted|
  {
    if accepted == [] then pool
    else Commit(CommitAll(pool, accepted[..|accepted| - 1]), accepted[|accepted| - 1])
  }

  /**
   * The pool after an epoch is the old pool with the outputs of the accepted
   * transactions inserted in order: rejected candidates leave no trace.
   */
  lemma {:induction false} FinalPoolFromAccepted(pool: Pool, txs: seq<Transaction>, prims: Primitives)
    ensures var r := Process(pool, txs, prims); r.pool == CommitAll(pool, r.accepted)
    decreases |txs|
  {
    if txs != [] {
      var before := Process(pool, txs[..|txs| - 1], prims);
      var tx := txs[|txs| - 1];
      FinalPoolFromAccepted(pool, txs[..|txs| - 1], prims);
      if IsValidTx(before.pool, tx, prims) {
        var acc := before.accepted + [tx];
        assert Process(pool, txs, prims) == EpochResult(acc, Commit(before.pool, tx));
        assert acc[..|acc| - 1] == before.accepted;
        assert CommitAll(pool, acc) == Commit(CommitAll(pool, before.accepted), tx);
      } else {
        assert Process(pool, txs, prims) == before;
      }
    }
  }

  /** No later accepted transaction writes key `(accepted[k].hash, j)`. */
  ghost predicate LastWriter(accepted: seq<Transaction>, k: int, j: int)
    requires 0 <= k < |accepted|
  {
    forall l :: k < l < |accepted| ==> accepted[l].hash != accepted[k].hash || !(0 <= j < |accepted[l].outputs|)
  }

  /**
   * After an epoch, key `(hash, j)` of an accepted transaction holds that
   * transaction's output `j`, unless a later accepted transaction with the
   * same hash and at least `j + 1` outputs overwrote it.
   */
  lemma {:induction false} LastWriterWins(pool: Pool, txs: seq<Transaction>, prims: Primitives, k: int, j: int)
    requires var acc := Process(pool, txs, prims).accepted;
      0 <= k < |acc| && 0 <= j < |acc[k].outputs| && LastWriter(acc, k, j)
    ensures var r := Process(pool, txs, prims); var tx := r.accepted[k];
      OwnKey(tx, j) in r.pool && r.pool[OwnKey(tx, j)] == tx.outputs[j]
    decreases |txs|
  {
    var pre := txs[..|txs| - 1];
    var before := Process(pool, pre, prims);
    var last := txs[|txs| - 1];
    if IsValidTx(before.pool, last, prims) {
      if k < |before.accepted| {
        var acc := before.accepted + [last];
        assert LastWriter(before.accepted, k, j) by {
          forall l | k < l < |before.accepted|
            ensures before.accepted[l].hash != before.accepted[k].hash
                 || !(0 <= j < |before.accepted[l].outputs|)
          {
            assert acc[l] == before.accepted[l];
          }
        }
        LastWriterWins(pool, pre, prims, k, j);
        assert acc[|acc| - 1] == last;
      }
    } else {
      LastWriterWins(pool, pre, prims, k, j);
    }
  }

  /**
   * A key no accepted transaction writes keeps its entry from before the epoch:
   * rejected candidates leave the pool alone and inserts touch only own output keys.
   */
  lemma {:induction false} UnwrittenKeysKept(pool: Pool, txs: seq<Transaction>, prims: Primitives, u: UTXO)
    requires u in pool
    requires var acc := Process(pool, txs, prims).accepted;
      forall k :: 0 <= k < |acc| ==> acc[k].hash != u.txHash || !(0 <= u.index < |acc[k].outputs|)
    ensures var r := Process(pool, txs, prims); u in r.pool && r.pool[u] == pool[u]
    decreases |txs|
  {
    if txs != [] {
      var pre := txs[..|txs| - 1];
      var before := Process(pool, pre, prims);
      var last := txs[|txs| - 1];
      if IsValidTx(before.pool, last, prims) {
        var acc := before.accepted + [last];
        assert Process(pool, txs, prims).accepted == acc;
        forall k | 0 <= k < |before.accepted|
          ensures before.accepted[k].hash != u.txHash || !(0 <= u.index < |before.accepted[k].outputs|)
        {
          assert before.accepted[k] == acc[k];
        }
        assert acc[|acc| - 1] == last;
      }
      UnwrittenKeysKept(pool, pre, prims, u);
    }
  }
}
