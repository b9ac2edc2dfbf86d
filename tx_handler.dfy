/** The handler that owns a pool of unspent outputs, validates transactions
    against it, and resolves a batch of candidate transactions by repeated
    passes, updating the pool as it accepts them. */
module Handler {
  import opened Ledger
  import opened Validity
  import opened PoolUpdate

  class TxHandler {
    /** The handler's own pool; maps are values, so it never aliases the
        caller's. */
    var utxoPool: Pool
    /** Signature verification, signed data and hashing, supplied from outside. */
    const crypto: Crypto

    /** The handler starts from its own copy of `utxoPool`. */
    constructor (crypto: Crypto, utxoPool: Pool)
      ensures this.crypto == crypto && this.utxoPool == utxoPool
    {
      this.crypto := crypto;
      this.utxoPool := utxoPool;
    }

    /** Checks the inputs in order (present in the pool, not claimed before in
        this transaction, signature verifies), then the outputs (none
        negative), then that the outputs are not worth more than the inputs. */
    method IsValidTx(tx: Transaction) returns (valid: bool)
      ensures valid == IsValid(crypto, utxoPool, tx)
    {
      var seenUtxo: set<Utxo> := {};
      var inputVal: real := 0.0;
      var outputVal: real := 0.0;
      var index := 0;
      while index < |tx.inputs|
        invariant 0 <= index <= |tx.inputs|
        invariant ClaimsPresent(utxoPool, tx.inputs[..index])
        invariant seenUtxo == ClaimSet(tx.inputs[..index])
        invariant NoClaimRepeated(tx.inputs[..index])
        invariant forall i :: 0 <= i < index ==> InputAuthorized(crypto, utxoPool, tx, i)
        invariant inputVal == InputSum(utxoPool, tx.inputs[..index])
      {
        var input := tx.inputs[index];
        var ut := ClaimOf(input);
        if ut !in utxoPool {
          return false;
        }
        var prevOutVal := utxoPool[ut].value;
        inputVal := inputVal + prevOutVal;
        if ut in seenUtxo {
          var j :| 0 <= j < index && ClaimOf(tx.inputs[..index][j]) == ut;
          assert tx.inputs[j] == tx.inputs[..index][j];
          return false;
        }
        seenUtxo := seenUtxo + {ut};
        if !crypto.verifySignature(utxoPool[ut].address, crypto.rawDataToSign(tx, index), input.signature) {
          assert !InputAuthorized(crypto, utxoPool, tx, index);
          return false;
        }
        InputPrefixStep(utxoPool, tx.inputs, index);
        index := index + 1;
      }
      assert tx.inputs[..index] == tx.inputs;

      for k := 0 to |tx.outputs|
        invariant OutputsNonNegative(tx.outputs[..k])
        invariant outputVal == OutputSum(tx.outputs[..k])
      {
        var out := tx.outputs[k];
        if out.value < 0.0 {
          return false;
        }
        outputVal := outputVal + out.value;
        OutputPrefixStep(tx.outputs, k);
      }
      assert tx.outputs[..|tx.outputs|] == tx.outputs;

      if outputVal > inputVal {
        return false;
      }
      return true;
    }

    /** Removes every identifier `tx` claims, then adds output `i` of `tx`
        under `(hash(tx), i)`. */
    method UpdatePool(tx: Transaction)
      modifies this
      ensures utxoPool == ApplyTx(crypto, old(utxoPool), tx)
    {
      for i := 0 to |tx.inputs|
        invariant utxoPool == old(utxoPool) - ClaimSet(tx.inputs[..i])
      {
        var utxo := ClaimOf(tx.inputs[i]);
        utxoPool := utxoPool - {utxo};
        assert tx.inputs[..i + 1] == tx.inputs[..i] + [tx.inputs[i]];
        ClaimSetAppend(tx.inputs[..i], tx.inputs[i]);
      }
      assert tx.inputs[..|tx.inputs|] == tx.inputs;

      var txHash := crypto.hash(tx);
      var index := 0;
      while index < |tx.outputs|
        invariant 0 <= index <= |tx.outputs|
        invariant utxoPool == (old(utxoPool) - ClaimSet(tx.inputs)) + Produced(txHash, tx.outputs[..index])
      {
        var utxo := Utxo(txHash, index);
        ghost var created := Produced(txHash, tx.outputs[..index]);
        utxoPool := utxoPool[utxo := tx.outputs[index]];
        UnionUpdate(old(utxoPool) - ClaimSet(tx.inputs), created, utxo, tx.outputs[index]);
        assert tx.outputs[..index + 1] == tx.outputs[..index] + [tx.outputs[index]];
        ProducedAppend(txHash, tx.outputs[..index], tx.outputs[index]);
        index := index + 1;
      }
      assert tx.outputs[..index] == tx.outputs;
    }

    /** One pass of the resolver: tries every member of `trans` once, in an
        unspecified order; each one valid against the pool as it stands is
        appended to `valid`, applied to the pool and marked for removal. */
    method AcceptPass(ghost start: Pool, ghost possibleTxs: seq<Transaction>, trans: set<Transaction>,
                      valid: seq<Transaction>)
      returns (toRemove: set<Transaction>, validOut: seq<Transaction>)
      requires forall t :: t in trans ==> t in possibleTxs
      requires Bookkeeping(possibleTxs, trans, valid)
      requires ValidSequence(crypto, start, valid) && utxoPool == ApplyAll(crypto, start, valid)
      modifies this
      ensures toRemove <= trans
      ensures |valid| <= |validOut| && validOut[..|valid|] == valid
      ensures forall t :: t in validOut[|valid|..] <==> t in toRemove
      ensures Bookkeeping(possibleTxs, trans - toRemove, validOut)
      ensures ValidSequence(crypto, start, validOut) && utxoPool == ApplyAll(crypto, start, validOut)
      ensures toRemove == {} ==> forall t :: t in trans ==> !IsValid(crypto, utxoPool, t)
    {
      toRemove := {};
      validOut := valid;
      var pending := trans;
      while pending != {}
        invariant pending <= trans && toRemove <= trans && toRemove !! pending
        invariant PassProgress(possibleTxs, trans, valid, toRemove, validOut)
        invariant ValidSequence(crypto, start, validOut)
        invariant utxoPool == ApplyAll(crypto, start, validOut)
        invariant toRemove == {} ==> forall t :: t in trans && t !in pending ==> !IsValid(crypto, utxoPool, t)
        decreases |pending|
      {
        var tx :| tx in pending;
        pending := pending - {tx};
        var ok := IsValidTx(tx);
        if ok {
          AcceptNext(crypto, start, validOut, tx);
          PassAccept(possibleTxs, trans, valid, toRemove, validOut, tx);
          validOut := validOut + [tx];
          UpdatePool(tx);
          toRemove := toRemove + {tx};
        }
      }
    }

    /** Resolves a batch: passes over the candidates not yet accepted until
        a pass accepts nothing, or until a pass starts with no candidate
        left. Returns the accepted transactions in acceptance order. */
    method HandleTxs(possibleTxs: seq<Transaction>) returns (accepted: seq<Transaction>)
      modifies this
      ensures Resolved(crypto, old(utxoPool), possibleTxs, accepted)
      ensures utxoPool == ApplyAll(crypto, old(utxoPool), accepted)
    {
      var trans: set<Transaction> := set t | t in possibleTxs;
      var transCount := 0;
      var valid: seq<Transaction> := [];
      while true
        invariant forall t :: t in trans ==> t in possibleTxs
        invariant Bookkeeping(possibleTxs, trans, valid)
        invariant ValidSequence(crypto, old(utxoPool), valid)
        invariant utxoPool == ApplyAll(crypto, old(utxoPool), valid)
        decreases |trans|
      {
        transCount := |trans|;
        var toRemove;
        toRemove, valid := AcceptPass(old(utxoPool), possibleTxs, trans, valid);
        RemovalShrinks(trans, toRemove);
        trans := trans - toRemove;
        if !(transCount != |trans| && transCount != 0) {
          break;
        }
      }
      accepted := valid;
    }
  }

  /** Every candidate is either still to be tried (in `remaining`) or
      already accepted (in `valid`), never both; `valid` holds only
      candidates, none twice. */
  ghost predicate Bookkeeping(candidates: seq<Transaction>, remaining: set<Transaction>, valid: seq<Transaction>) {
    && (forall t :: t in candidates ==> (t in remaining <==> t !in valid))
    && (forall t :: t in valid ==> t in candidates)
    && (forall i, j :: 0 <= i < j < |valid| ==> valid[i] != valid[j])
  }

  /** Accepting a candidate that is still to be tried moves it from
      `remaining` to the end of `valid`. */
  lemma BookkeepingAccept(candidates: seq<Transaction>, remaining: set<Transaction>, valid: seq<Transaction>,
                          tx: Transaction)
    requires Bookkeeping(candidates, remaining, valid)
    requires tx in remaining && tx in candidates
    ensures Bookkeeping(candidates, remaining - {tx}, valid + [tx])
  {
    forall i, j | 0 <= i < j < |valid + [tx]| ensures (valid + [tx])[i] != (valid + [tx])[j] {
      if j == |valid| {
        assert valid[i] in valid;
      }
    }
  }

  /** `after` is `before` followed by exactly the members of `added`. */
  ghost predicate Extends(before: seq<Transaction>, after: seq<Transaction>, added: set<Transaction>) {
    && |before| <= |after|
    && after[..|before|] == before
    && (forall t :: t in after[|before|..] <==> t in added)
  }

  /** Appending one transaction to `after` adds it to `added`. */
  lemma ExtendsAppend(before: seq<Transaction>, after: seq<Transaction>, added: set<Transaction>, tx: Transaction)
    requires Extends(before, after, added)
    ensures Extends(before, after + [tx], added + {tx})
  {
    assert (after + [tx])[..|before|] == after[..|before|];
    assert (after + [tx])[|before|..] == after[|before|..] + [tx];
  }

  /** Midway through a pass over `trans` that started from `valid`: the
      candidates accepted so far are `toRemove`, appended to `valid` to give
      `validOut`. */
  ghost predicate PassProgress(candidates: seq<Transaction>, trans: set<Transaction>, valid: seq<Transaction>,
                               toRemove: set<Transaction>, validOut: seq<Transaction>) {
    && Extends(valid, validOut, toRemove)
    && Bookkeeping(candidates, trans - toRemove, validOut)
  }

  /** Accepting one more candidate of the pass keeps the pass's bookkeeping. */
  lemma PassAccept(candidates: seq<Transaction>, trans: set<Transaction>, valid: seq<Transaction>,
                   toRemove: set<Transaction>, validOut: seq<Transaction>, tx: Transaction)
    requires PassProgress(candidates, trans, valid, toRemove, validOut)
    requires tx in trans && tx !in toRemove && tx in candidates
    ensures PassProgress(candidates, trans, valid, toRemove + {tx}, validOut + [tx])
  {
    BookkeepingAccept(candidates, trans - toRemove, validOut, tx);
    ExtendsAppend(valid, validOut, toRemove, tx);
    assert trans - (toRemove + {tx}) == (trans - toRemove) - {tx};
  }

  /** Taking a subset away from a set shrinks it, strictly unless the subset
      is empty. */
  lemma RemovalShrinks<T>(s: set<T>, r: set<T>)
    requires r <= s
    ensures |s - r| <= |s|
    ensures r != {} ==> |s - r| < |s|
  {
    if r != {} {
      var x :| x in r;
      assert s - r <= s - {x};
    }
  }
}
