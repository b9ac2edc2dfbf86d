/** What the batch resolver achieves on a batch whose transactions can all be
    accepted in some order: every outcome that the resolver's postcondition
    allows accepts all of them, whatever order they were submitted in. */
module Resolution {
  import opened Ledger
  import opened Validity
  import opened PoolUpdate

  /** A distinct selection from a sequence with fresh hashes has fresh hashes. */
  lemma FreshSelection(crypto: Crypto, pool: Pool, batch: seq<Transaction>, chosen: seq<Transaction>)
    requires FreshHashes(crypto, pool, batch)
    requires forall t :: t in chosen ==> t in batch
    requires forall i, j :: 0 <= i < j < |chosen| ==> chosen[i] != chosen[j]
    ensures FreshHashes(crypto, pool, chosen)
  {
    forall i, j | 0 <= i < j < |chosen|
      ensures crypto.hash(chosen[i]) != crypto.hash(chosen[j])
    {
      assert chosen[i] in chosen && chosen[j] in chosen;
      var a :| 0 <= a < |batch| && batch[a] == chosen[i];
      var b :| 0 <= b < |batch| && batch[b] == chosen[j];
      assert a != b;
    }
    forall i, u | 0 <= i < |chosen| && u in pool
      ensures u.txHash != crypto.hash(chosen[i])
    {
      assert chosen[i] in chosen;
      var a :| 0 <= a < |batch| && batch[a] == chosen[i];
    }
  }

  /** The facts shared by the steps below: `batch` can be accepted in its own
      order with fresh hashes, and `accepted` is an outcome the resolver may
      return for it. */
  ghost predicate ResolvedOutcome(crypto: Crypto, pool: Pool, batch: seq<Transaction>, accepted: seq<Transaction>) {
    && ValidSequence(crypto, pool, batch)
    && FreshHashes(crypto, pool, batch)
    && Resolved(crypto, pool, batch, accepted)
  }

  /** If `batch[k]` was not accepted, no accepted transaction claims what
      `batch[k]` claims: each of them is another member of the batch. */
  lemma NotSpentByOthers(crypto: Crypto, pool: Pool, batch: seq<Transaction>, accepted: seq<Transaction>,
                         k: int, u: Utxo)
    requires ValidSequence(crypto, pool, batch) && FreshHashes(crypto, pool, batch)
    requires forall t :: t in accepted ==> t in batch
    requires 0 <= k < |batch| && batch[k] !in accepted
    requires u in ClaimSet(batch[k].inputs)
    ensures u !in SpentBy(accepted)
  {
    SpentByMembers(accepted, u);
    forall i | 0 <= i < |accepted| ensures u !in ClaimSet(accepted[i].inputs) {
      assert accepted[i] in accepted;
      var b :| 0 <= b < |batch| && batch[b] == accepted[i];
      assert b != k;
      if b < k {
        NoDoubleSpend(crypto, pool, batch, b, k);
      } else {
        NoDoubleSpend(crypto, pool, batch, k, b);
      }
    }
  }

  /** If every transaction before position `k` was accepted, then an entry
      that was in the starting pool or was created before `batch[k]` is
      held, with the same value, by the starting pool plus everything the
      accepted transactions created. */
  lemma CreatedEarlierKept(crypto: Crypto, pool: Pool, batch: seq<Transaction>, accepted: seq<Transaction>,
                           k: int, u: Utxo)
    requires 0 <= k <= |batch|
    requires FreshHashes(crypto, pool, batch[..k]) && FreshHashes(crypto, pool, accepted)
    requires forall m :: 0 <= m < k ==> batch[m] in accepted
    requires u in pool + CreatedBy(crypto, batch[..k])
    ensures AgreeAt(pool + CreatedBy(crypto, batch[..k]), pool + CreatedBy(crypto, accepted), u)
  {
    var pre := batch[..k];
    CreatedByMembers(crypto, pre, u);
    CreatedByMembers(crypto, accepted, u);
    if u in CreatedBy(crypto, pre) {
      var i :| 0 <= i < |pre| && Produces(crypto.hash(pre[i]), pre[i].outputs, u);
      assert pre[i] == batch[i];
      assert batch[i] in accepted;
      var j :| 0 <= j < |accepted| && accepted[j] == batch[i];
      CreatedByValue(crypto, pre, i, u);
      CreatedByValue(crypto, accepted, j, u);
    }
  }

  /** If every transaction before position `k` was accepted but `batch[k]`
      was not, the pool `batch[k]` was valid against and the final pool agree
      at each identifier `batch[k]` claims. This is the contradiction step of
      NextAccepted: together with `ResolvedOutcome` its hypotheses never all
      hold, so it is not a fact to apply anywhere else. */
  lemma ClaimSurvives(crypto: Crypto, pool: Pool, batch: seq<Transaction>, accepted: seq<Transaction>,
                      k: int, u: Utxo)
    requires ResolvedOutcome(crypto, pool, batch, accepted)
    requires 0 <= k < |batch| && batch[k] !in accepted
    requires forall m :: 0 <= m < k ==> batch[m] in accepted
    requires u in ClaimSet(batch[k].inputs)
    ensures AgreeAt(ApplyAll(crypto, pool, batch[..k]), ApplyAll(crypto, pool, accepted), u)
  {
    var pre := batch[..k];
    ValidPrefix(crypto, pool, batch, k);
    FreshPrefix(crypto, pool, batch, k);
    FreshSelection(crypto, pool, batch, accepted);
    SettledPool(crypto, pool, pre);
    SettledPool(crypto, pool, accepted);
    ClaimsInPool(ApplyAll(crypto, pool, pre), batch[k].inputs);
    NotSpentByOthers(crypto, pool, batch, accepted, k, u);
    CreatedEarlierKept(crypto, pool, batch, accepted, k, u);
  }

  /** If every transaction before position `k` was accepted, so was
      `batch[k]`: otherwise it would still be valid against the final pool. */
  lemma NextAccepted(crypto: Crypto, pool: Pool, batch: seq<Transaction>, accepted: seq<Transaction>, k: int)
    requires ResolvedOutcome(crypto, pool, batch, accepted)
    requires 0 <= k < |batch|
    requires forall m :: 0 <= m < k ==> batch[m] in accepted
    ensures batch[k] in accepted
  {
    if batch[k] !in accepted {
      var before := ApplyAll(crypto, pool, batch[..k]);
      var after := ApplyAll(crypto, pool, accepted);
      forall m | 0 <= m < |batch[k].inputs| ensures AgreeAt(before, after, ClaimOf(batch[k].inputs[m])) {
        ClaimSurvives(crypto, pool, batch, accepted, k, ClaimOf(batch[k].inputs[m]));
      }
      ValidPrefix(crypto, pool, batch, k);
      ValidityFrame(crypto, before, after, batch[k]);
      assert false;
    }
  }

  /** Every transaction of the batch is accepted, by induction on its
      position. */
  lemma {:induction false} AcceptedAt(crypto: Crypto, pool: Pool, batch: seq<Transaction>,
                                      accepted: seq<Transaction>, k: int)
    requires ResolvedOutcome(crypto, pool, batch, accepted)
    requires 0 <= k < |batch|
    ensures batch[k] in accepted
    decreases k
  {
    forall m | 0 <= m < k ensures batch[m] in accepted {
      AcceptedAt(crypto, pool, batch, accepted, m);
    }
    NextAccepted(crypto, pool, batch, accepted, k);
  }

  /** A batch whose transactions can all be accepted in some order, with
      fresh hashes, is accepted in full by every outcome the resolver may
      return: its dependencies are resolved whatever the submission order. */
  lemma ResolvableBatchFullyAccepted(crypto: Crypto, pool: Pool, batch: seq<Transaction>, accepted: seq<Transaction>)
    requires ValidSequence(crypto, pool, batch) && FreshHashes(crypto, pool, batch)
    requires Resolved(crypto, pool, batch, accepted)
    ensures forall t :: t in batch <==> t in accepted
    ensures ApplyAll(crypto, pool, accepted) == ApplyAll(crypto, pool, batch)
  {
    forall t | t in batch ensures t in accepted {
      var k :| 0 <= k < |batch| && batch[k] == t;
      AcceptedAt(crypto, pool, batch, accepted, k);
    }
    FreshSelection(crypto, pool, batch, accepted);
    OrderIrrelevant(crypto, pool, accepted, batch);
  }

  /** A dependent pair submitted in reverse order: `t1` can be accepted
      first and `t2` after it, but `t2` is not valid against the starting
      pool. Every outcome accepts both, `t1` first. */
  lemma {:induction false} DependentPairResolved(crypto: Crypto, pool: Pool, t1: Transaction, t2: Transaction,
                                                 accepted: seq<Transaction>)
    requires ValidSequence(crypto, pool, [t1, t2]) && FreshHashes(crypto, pool, [t1, t2])
    requires !IsValid(crypto, pool, t2)
    requires Resolved(crypto, pool, [t2, t1], accepted)
    ensures accepted == [t1, t2]
  {
    var ordered := [t1, t2];
    assert t1 != t2 by {
      assert crypto.hash(ordered[0]) != crypto.hash(ordered[1]);
    }
    assert forall t :: t in [t2, t1] <==> t in ordered;
    ResolvableBatchFullyAccepted(crypto, pool, ordered, accepted);
    assert t1 in ordered && t2 in ordered;
    assert t1 in accepted && t2 in accepted;
    // `t2` cannot come first: it is not valid against the starting pool.
    ValidPrefix(crypto, pool, accepted, 0);
    assert accepted[..0] == [] && ApplyAll(crypto, pool, []) == pool;
    assert accepted[0] in accepted;
    TwoInOrder(accepted, t1, t2);
  }

  /** Two transactions, each valid against the starting pool, that claim the
      same entry: every outcome accepts exactly one of them. */
  lemma {:induction false} ConflictingPairResolved(crypto: Crypto, pool: Pool, t1: Transaction, t2: Transaction,
                                                   u: Utxo, accepted: seq<Transaction>)
    requires IsValid(crypto, pool, t1) && IsValid(crypto, pool, t2) && FreshHashes(crypto, pool, [t1, t2])
    requires u in ClaimSet(t1.inputs) && u in ClaimSet(t2.inputs)
    requires Resolved(crypto, pool, [t1, t2], accepted)
    ensures accepted == [t1] || accepted == [t2]
  {
    var pair := [t1, t2];
    assert forall t :: t in pair <==> t == t1 || t == t2;
    assert forall t :: t in accepted ==> u in ClaimSet(t.inputs);
    // Nothing accepted would leave `t1` valid against the unchanged pool.
    assert ApplyAll(crypto, pool, []) == pool;
    if accepted == [] {
      assert false;
    }
    // Two accepted transactions would both spend `u`.
    if |accepted| >= 2 {
      FreshSelection(crypto, pool, pair, accepted);
      NoDoubleSpend(crypto, pool, accepted, 0, 1);
      assert false;
    }
    assert accepted == [accepted[0]];
    assert accepted[0] in accepted;
  }

  /** A sequence without repeats whose members all lie in `within` is no
      longer than `within`. */
  lemma {:induction false} DistinctWithin<T>(s: seq<T>, within: set<T>)
    requires forall i :: 0 <= i < |s| ==> s[i] in within
    requires forall i, j :: 0 <= i < j < |s| ==> s[i] != s[j]
    ensures |s| <= |within|
    decreases |s|
  {
    if s != [] {
      var last := s[|s| - 1];
      DistinctWithin(s[..|s| - 1], within - {last});
    }
  }

  /** A sequence without repeats that holds both `x` and `y`, nothing else,
      and starts with `x`, is exactly `[x, y]`. */
  lemma {:induction false} TwoInOrder<T>(s: seq<T>, x: T, y: T)
    requires x != y && x in s && y in s
    requires forall t :: t in s ==> t == x || t == y
    requires forall i, j :: 0 <= i < j < |s| ==> s[i] != s[j]
    requires s[0] == x
    ensures s == [x, y]
  {
    assert forall i :: 0 <= i < |s| ==> s[i] in s;
    DistinctWithin(s, {x, y});
    var j :| 0 <= j < |s| && s[j] == y;
    assert s[1] in s;
  }
}
