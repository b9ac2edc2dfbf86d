/** How accepting transactions changes the pool: one transaction at a time
    (ApplyTx), and a whole sequence of accepted transactions (ApplyAll), each
    valid against the pool left by those before it (ValidSequence). */
module PoolUpdate {
  import opened Ledger
  import opened Validity

  /** The pool after accepting `tx`: the identifiers its inputs claim are
      removed first, then each output `i` is added under `(hash(tx), i)`. */
  function ApplyTx(crypto: Crypto, pool: Pool, tx: Transaction): Pool {
    (pool - ClaimSet(tx.inputs)) + Produced(crypto.hash(tx), tx.outputs)
  }

  /** Accepting `tx` creates each of its outputs under its own identifier,
      deletes every claimed identifier it does not itself recreate, and leaves
      every other entry of the pool as it was. */
  lemma ApplyTxEffect(crypto: Crypto, pool: Pool, tx: Transaction, u: Utxo)
    ensures Produces(crypto.hash(tx), tx.outputs, u)
      ==> u in ApplyTx(crypto, pool, tx) && ApplyTx(crypto, pool, tx)[u] == tx.outputs[u.index]
    ensures !Produces(crypto.hash(tx), tx.outputs, u) && u in ClaimSet(tx.inputs)
      ==> u !in ApplyTx(crypto, pool, tx)
    ensures !Produces(crypto.hash(tx), tx.outputs, u) && u !in ClaimSet(tx.inputs)
      ==> AgreeAt(pool, ApplyTx(crypto, pool, tx), u)
  {
  }

  /** The pool after accepting `txs` in order. */
  function ApplyAll(crypto: Crypto, pool: Pool, txs: seq<Transaction>): Pool
    decreases |txs|
  {
    if txs == [] then pool
    else ApplyTx(crypto, ApplyAll(crypto, pool, txs[..|txs| - 1]), txs[|txs| - 1])
  }

  /** Each transaction of `txs` is valid against the pool left by the ones
      before it. */
  predicate ValidSequence(crypto: Crypto, pool: Pool, txs: seq<Transaction>)
    decreases |txs|
  {
    txs == [] ||
    (ValidSequence(crypto, pool, txs[..|txs| - 1])
     && IsValid(crypto, ApplyAll(crypto, pool, txs[..|txs| - 1]), txs[|txs| - 1]))
  }

  /** What the batch resolver may return for `batch` from `pool`: distinct
      members of the batch, each valid against the pool left by the ones
      accepted before it, and no member left out that is valid against the
      pool they leave. */
  predicate Resolved(crypto: Crypto, pool: Pool, batch: seq<Transaction>, accepted: seq<Transaction>) {
    && (forall t :: t in accepted ==> t in batch)
    && (forall i, j :: 0 <= i < j < |accepted| ==> accepted[i] != accepted[j])
    && ValidSequence(crypto, pool, accepted)
    && (forall t :: t in batch && t !in accepted ==> !IsValid(crypto, ApplyAll(crypto, pool, accepted), t))
  }

  /** Appending a transaction that is valid against the current pool extends
      a valid sequence, and applies that transaction to the pool. */
  lemma AcceptNext(crypto: Crypto, pool: Pool, txs: seq<Transaction>, tx: Transaction)
    requires ValidSequence(crypto, pool, txs)
    requires IsValid(crypto, ApplyAll(crypto, pool, txs), tx)
    ensures ValidSequence(crypto, pool, txs + [tx])
    ensures ApplyAll(crypto, pool, txs + [tx]) == ApplyTx(crypto, ApplyAll(crypto, pool, txs), tx)
  {
    var extended := txs + [tx];
    assert extended[..|extended| - 1] == txs && extended[|extended| - 1] == tx;
  }

  /** Every identifier claimed by some transaction of `txs`. */
  function SpentBy(txs: seq<Transaction>): set<Utxo>
    decreases |txs|
  {
    if txs == [] then {}
    else SpentBy(txs[..|txs| - 1]) + ClaimSet(txs[|txs| - 1].inputs)
  }

  /** Every entry created by some transaction of `txs`. */
  function CreatedBy(crypto: Crypto, txs: seq<Transaction>): Pool
    decreases |txs|
  {
    if txs == [] then map[]
    else CreatedBy(crypto, txs[..|txs| - 1])
         + Produced(crypto.hash(txs[|txs| - 1]), txs[|txs| - 1].outputs)
  }

  /** No two transactions of `txs` have the same hash. */
  predicate DistinctHashes(crypto: Crypto, txs: seq<Transaction>) {
    forall i, j :: 0 <= i < j < |txs| ==> crypto.hash(txs[i]) != crypto.hash(txs[j])
  }

  /** The hashes of `txs` are distinct and none of them is the hash part of an
      identifier already in `pool`: accepting them never recreates an
      identifier that exists or existed before. */
  predicate FreshHashes(crypto: Crypto, pool: Pool, txs: seq<Transaction>) {
    && DistinctHashes(crypto, txs)
    && forall i, u :: 0 <= i < |txs| && u in pool ==> u.txHash != crypto.hash(txs[i])
  }

  /** Every prefix of a valid sequence is valid. */
  lemma {:induction false} ValidPrefixes(crypto: Crypto, pool: Pool, txs: seq<Transaction>, n: int)
    requires ValidSequence(crypto, pool, txs) && 0 <= n <= |txs|
    ensures ValidSequence(crypto, pool, txs[..n])
    decreases |txs|
  {
    if n < |txs| {
      var init := txs[..|txs| - 1];
      ValidPrefixes(crypto, pool, init, n);
      assert init[..n] == txs[..n];
    } else {
      assert txs[..n] == txs;
    }
  }

  /** In a valid sequence, each transaction was valid against the pool left
      by the ones before it. */
  lemma ValidPrefix(crypto: Crypto, pool: Pool, txs: seq<Transaction>, k: int)
    requires ValidSequence(crypto, pool, txs) && 0 <= k < |txs|
    ensures ValidSequence(crypto, pool, txs[..k])
    ensures IsValid(crypto, ApplyAll(crypto, pool, txs[..k]), txs[k])
  {
    ValidPrefixes(crypto, pool, txs, k + 1);
    var upTo := txs[..k + 1];
    assert upTo[..k] == txs[..k] && upTo[k] == txs[k];
  }

  lemma {:induction false} SpentByMembers(txs: seq<Transaction>, u: Utxo)
    ensures u in SpentBy(txs) <==> exists i :: 0 <= i < |txs| && u in ClaimSet(txs[i].inputs)
    decreases |txs|
  {
    if txs != [] {
      var init := txs[..|txs| - 1];
      SpentByMembers(init, u);
      if u in SpentBy(init) {
        var i :| 0 <= i < |init| && u in ClaimSet(init[i].inputs);
        assert txs[i] == init[i];
      }
      if i :| 0 <= i < |txs| && u in ClaimSet(txs[i].inputs) {
        if i < |init| {
          assert init[i] == txs[i];
        }
      }
    }
  }

  lemma {:induction false} CreatedByMembers(crypto: Crypto, txs: seq<Transaction>, u: Utxo)
    ensures u in CreatedBy(crypto, txs)
      <==> exists i :: 0 <= i < |txs| && Produces(crypto.hash(txs[i]), txs[i].outputs, u)
    decreases |txs|
  {
    if txs != [] {
      var init := txs[..|txs| - 1];
      CreatedByMembers(crypto, init, u);
      if u in CreatedBy(crypto, init) {
        var i :| 0 <= i < |init| && Produces(crypto.hash(init[i]), init[i].outputs, u);
        assert txs[i] == init[i];
      }
      if i :| 0 <= i < |txs| && Produces(crypto.hash(txs[i]), txs[i].outputs, u) {
        if i < |init| {
          assert init[i] == txs[i];
        }
      }
    }
  }

  /** With distinct hashes, the entry created under `u` is the output of the
      one transaction that produces `u`. */
  lemma {:induction false} CreatedByValue(crypto: Crypto, txs: seq<Transaction>, i: int, u: Utxo)
    requires DistinctHashes(crypto, txs)
    requires 0 <= i < |txs| && Produces(crypto.hash(txs[i]), txs[i].outputs, u)
    ensures u in CreatedBy(crypto, txs) && CreatedBy(crypto, txs)[u] == txs[i].outputs[u.index]
    decreases |txs|
  {
    var init := txs[..|txs| - 1];
    if i < |txs| - 1 {
      assert init[i] == txs[i];
      assert crypto.hash(txs[i]) != crypto.hash(txs[|txs| - 1]);
      CreatedByValue(crypto, init, i, u);
    }
  }

  lemma FreshPrefix(crypto: Crypto, pool: Pool, txs: seq<Transaction>, k: int)
    requires FreshHashes(crypto, pool, txs) && 0 <= k <= |txs|
    ensures FreshHashes(crypto, pool, txs[..k])
  {
    var pre := txs[..k];
    assert forall i :: 0 <= i < k ==> pre[i] == txs[i];
  }

  /** After a valid sequence of transactions with fresh hashes, the pool holds
      exactly the entries that existed at the start or were created by the
      sequence, less every identifier the sequence spent; and everything the
      sequence spent existed at the start or was created by it. */
  lemma {:induction false} SettledPool(crypto: Crypto, pool: Pool, txs: seq<Transaction>)
    requires ValidSequence(crypto, pool, txs) && FreshHashes(crypto, pool, txs)
    ensures ApplyAll(crypto, pool, txs) == (pool + CreatedBy(crypto, txs)) - SpentBy(txs)
    ensures SpentBy(txs) <= pool.Keys + CreatedBy(crypto, txs).Keys
    decreases |txs|
  {
    if txs != [] {
      var n := |txs|;
      var init, t := txs[..n - 1], txs[n - 1];
      var h := crypto.hash(t);
      FreshPrefix(crypto, pool, txs, n - 1);
      SettledPool(crypto, pool, init);
      var before := ApplyAll(crypto, pool, init);
      var created := CreatedBy(crypto, init);
      assert forall i :: 0 <= i < n - 1 ==> init[i] == txs[i];
      // Nothing `t` produces is in the pool or was created before it.
      forall u | u in Produced(h, t.outputs)
        ensures u !in pool && u !in created
      {
        CreatedByMembers(crypto, init, u);
      }
      ClaimsInPool(before, t.inputs);
      SettleStep(pool, before, created, SpentBy(init), ClaimSet(t.inputs), Produced(h, t.outputs));
    }
  }

  lemma ClaimsInPool(pool: Pool, inputs: seq<Input>)
    requires ClaimsPresent(pool, inputs)
    ensures ClaimSet(inputs) <= pool.Keys
  {
    forall u | u in ClaimSet(inputs) ensures u in pool {
      var i :| 0 <= i < |inputs| && ClaimOf(inputs[i]) == u;
    }
  }

  /** One step of SettledPool as map algebra: removing the claims and adding
      fresh entries commutes with the settled form. */
  lemma SettleStep(pool: Pool, before: Pool, created: Pool, spent: set<Utxo>,
                   claims: set<Utxo>, produced: Pool)
    requires before == (pool + created) - spent
    requires spent <= pool.Keys + created.Keys
    requires claims <= before.Keys
    requires forall u :: u in produced ==> u !in pool && u !in created
    ensures (before - claims) + produced == (pool + (created + produced)) - (spent + claims)
    ensures spent + claims <= pool.Keys + (created + produced).Keys
  {
    var lhs := (before - claims) + produced;
    var rhs := (pool + (created + produced)) - (spent + claims);
    forall u ensures AgreeAt(lhs, rhs, u) {
      if u in produced {
        assert u !in spent && u !in claims;
      }
    }
    assert lhs == rhs;
  }

  /** Acceptance order does not matter to the outcome: two valid sequences
      with fresh hashes and the same members leave the same pool. */
  lemma OrderIrrelevant(crypto: Crypto, pool: Pool, s1: seq<Transaction>, s2: seq<Transaction>)
    requires ValidSequence(crypto, pool, s1) && FreshHashes(crypto, pool, s1)
    requires ValidSequence(crypto, pool, s2) && FreshHashes(crypto, pool, s2)
    requires forall t :: t in s1 <==> t in s2
    ensures ApplyAll(crypto, pool, s1) == ApplyAll(crypto, pool, s2)
  {
    SettledPool(crypto, pool, s1);
    SettledPool(crypto, pool, s2);
    SameSpent(s1, s2);
    SameCreated(crypto, s1, s2);
  }

  lemma SameSpent(s1: seq<Transaction>, s2: seq<Transaction>)
    requires forall t :: t in s1 <==> t in s2
    ensures SpentBy(s1) == SpentBy(s2)
  {
    forall u ensures u in SpentBy(s1) <==> u in SpentBy(s2) {
      SameMembersSpend(s1, s2, u);
      SameMembersSpend(s2, s1, u);
    }
  }

  lemma SameCreated(crypto: Crypto, s1: seq<Transaction>, s2: seq<Transaction>)
    requires DistinctHashes(crypto, s1) && DistinctHashes(crypto, s2)
    requires forall t :: t in s1 <==> t in s2
    ensures CreatedBy(crypto, s1) == CreatedBy(crypto, s2)
  {
    var c1, c2 := CreatedBy(crypto, s1), CreatedBy(crypto, s2);
    forall u ensures (u in c1 <==> u in c2) && (u in c1 ==> c1[u] == c2[u]) {
      SameMembersCreate(crypto, s1, s2, u);
      SameMembersCreate(crypto, s2, s1, u);
    }
    assert c1 == c2;
  }

  lemma SameMembersSpend(s1: seq<Transaction>, s2: seq<Transaction>, u: Utxo)
    requires forall t :: t in s1 ==> t in s2
    ensures u in SpentBy(s1) ==> u in SpentBy(s2)
  {
    SpentByMembers(s1, u);
    SpentByMembers(s2, u);
    if u in SpentBy(s1) {
      var i :| 0 <= i < |s1| && u in ClaimSet(s1[i].inputs);
      assert s1[i] in s1;
      var j :| 0 <= j < |s2| && s2[j] == s1[i];
    }
  }

  lemma SameMembersCreate(crypto: Crypto, s1: seq<Transaction>, s2: seq<Transaction>, u: Utxo)
    requires DistinctHashes(crypto, s1) && DistinctHashes(crypto, s2)
    requires forall t :: t in s1 ==> t in s2
    ensures u in CreatedBy(crypto, s1) ==> u in CreatedBy(crypto, s2) && CreatedBy(crypto, s1)[u] == CreatedBy(crypto, s2)[u]
  {
    CreatedByMembers(crypto, s1, u);
    if u in CreatedBy(crypto, s1) {
      var i :| 0 <= i < |s1| && Produces(crypto.hash(s1[i]), s1[i].outputs, u);
      assert s1[i] in s1;
      var j :| 0 <= j < |s2| && s2[j] == s1[i];
      CreatedByValue(crypto, s1, i, u);
      CreatedByValue(crypto, s2, j, u);
    }
  }

  /** No double spend: in a valid sequence with fresh hashes, two different
      transactions never claim the same identifier. */
  lemma NoDoubleSpend(crypto: Crypto, pool: Pool, txs: seq<Transaction>, i: int, j: int)
    requires ValidSequence(crypto, pool, txs) && FreshHashes(crypto, pool, txs)
    requires 0 <= i < j < |txs|
    ensures ClaimSet(txs[i].inputs) !! ClaimSet(txs[j].inputs)
  {
    var pre := txs[..j];
    ValidPrefix(crypto, pool, txs, j);
    FreshPrefix(crypto, pool, txs, j);
    SettledPool(crypto, pool, pre);
    ClaimsInPool(ApplyAll(crypto, pool, pre), txs[j].inputs);
    forall u | u in ClaimSet(txs[i].inputs) ensures u !in ClaimSet(txs[j].inputs) {
      assert pre[i] == txs[i];
      SpentByMembers(pre, u);
    }
  }
}
