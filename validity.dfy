/** The single-transaction validation rule: a transaction is valid against a
    pool exactly when the five conditions below all hold. */
module Validity {
  import opened Ledger

  /** Condition (1): every identifier claimed by `inputs` is in the pool. */
  predicate ClaimsPresent(pool: Pool, inputs: seq<Input>) {
    forall i :: 0 <= i < |inputs| ==> ClaimOf(inputs[i]) in pool
  }

  /** Input `i` carries a signature that verifies, under the owner of the
      output it claims, over the data that input `i` of `tx` signs. */
  predicate InputAuthorized(crypto: Crypto, pool: Pool, tx: Transaction, i: int)
    requires 0 <= i < |tx.inputs| && ClaimOf(tx.inputs[i]) in pool
  {
    crypto.verifySignature(
      pool[ClaimOf(tx.inputs[i])].address,
      crypto.rawDataToSign(tx, i),
      tx.inputs[i].signature)
  }

  /** Condition (2): every input is authorised. */
  predicate SignaturesVerify(crypto: Crypto, pool: Pool, tx: Transaction)
    requires ClaimsPresent(pool, tx.inputs)
  {
    forall i :: 0 <= i < |tx.inputs| ==> InputAuthorized(crypto, pool, tx, i)
  }

  /** Condition (3): no identifier is claimed by two different inputs. */
  predicate NoClaimRepeated(inputs: seq<Input>) {
    forall i, j :: 0 <= i < j < |inputs| ==> ClaimOf(inputs[i]) != ClaimOf(inputs[j])
  }

  /** Condition (4): no output value is negative. */
  predicate OutputsNonNegative(outputs: seq<Output>) {
    forall i :: 0 <= i < |outputs| ==> outputs[i].value >= 0.0
  }

  /** The total value of the pool entries claimed by `inputs`. */
  function InputSum(pool: Pool, inputs: seq<Input>): real
    requires ClaimsPresent(pool, inputs)
  {
    if inputs == [] then 0.0
    else InputSum(pool, inputs[..|inputs| - 1]) + pool[ClaimOf(inputs[|inputs| - 1])].value
  }

  /** The total value of `outputs`. */
  function OutputSum(outputs: seq<Output>): real {
    if outputs == [] then 0.0
    else OutputSum(outputs[..|outputs| - 1]) + outputs[|outputs| - 1].value
  }

  /** Condition (5): the inputs are worth at least as much as the outputs. */
  predicate ValueConserved(pool: Pool, tx: Transaction)
    requires ClaimsPresent(pool, tx.inputs)
  {
    OutputSum(tx.outputs) <= InputSum(pool, tx.inputs)
  }

  /** The validation rule: all five conditions, evaluated against `pool`. */
  predicate IsValid(crypto: Crypto, pool: Pool, tx: Transaction) {
    && ClaimsPresent(pool, tx.inputs)
    && SignaturesVerify(crypto, pool, tx)
    && NoClaimRepeated(tx.inputs)
    && OutputsNonNegative(tx.outputs)
    && ValueConserved(pool, tx)
  }

  /** Extending a prefix of the inputs by one more input, whose claim is in
      the pool and not claimed earlier, keeps conditions (1) and (3) and adds
      that claim's value to the input sum. */
  lemma InputPrefixStep(pool: Pool, inputs: seq<Input>, k: int)
    requires 0 <= k < |inputs|
    requires ClaimsPresent(pool, inputs[..k]) && NoClaimRepeated(inputs[..k])
    requires ClaimOf(inputs[k]) in pool && ClaimOf(inputs[k]) !in ClaimSet(inputs[..k])
    ensures ClaimsPresent(pool, inputs[..k + 1]) && NoClaimRepeated(inputs[..k + 1])
    ensures ClaimSet(inputs[..k + 1]) == ClaimSet(inputs[..k]) + {ClaimOf(inputs[k])}
    ensures InputSum(pool, inputs[..k + 1]) == InputSum(pool, inputs[..k]) + pool[ClaimOf(inputs[k])].value
  {
    var prefix, longer := inputs[..k], inputs[..k + 1];
    assert longer == prefix + [inputs[k]];
    assert longer[..k] == prefix;
    ClaimSetAppend(prefix, inputs[k]);
    forall i, j | 0 <= i < j < |longer| ensures ClaimOf(longer[i]) != ClaimOf(longer[j]) {
      if j == k {
        assert ClaimOf(prefix[i]) in ClaimSet(prefix);
      }
    }
  }

  /** Extending a prefix of the outputs by one more output keeps condition
      (4) exactly when that output is not negative, and adds its value to the
      output sum. */
  lemma OutputPrefixStep(outputs: seq<Output>, k: int)
    requires 0 <= k < |outputs|
    ensures OutputsNonNegative(outputs[..k + 1]) <==> OutputsNonNegative(outputs[..k]) && outputs[k].value >= 0.0
    ensures OutputSum(outputs[..k + 1]) == OutputSum(outputs[..k]) + outputs[k].value
  {
    var prefix, longer := outputs[..k], outputs[..k + 1];
    assert longer == prefix + [outputs[k]];
    assert longer[..k] == prefix;
  }

  /** Each condition on its own rejects: a missing claim, an unauthorised
      input, a repeated claim, a negative output, or outputs worth more than
      the inputs each make the transaction invalid, whatever else holds. */
  lemma EachConditionRejects(crypto: Crypto, pool: Pool, tx: Transaction)
    ensures (exists i :: 0 <= i < |tx.inputs| && ClaimOf(tx.inputs[i]) !in pool)
      ==> !IsValid(crypto, pool, tx)
    ensures (exists i :: 0 <= i < |tx.inputs| && ClaimOf(tx.inputs[i]) in pool
               && !InputAuthorized(crypto, pool, tx, i))
      ==> !IsValid(crypto, pool, tx)
    ensures (exists i, j :: 0 <= i < j < |tx.inputs| && ClaimOf(tx.inputs[i]) == ClaimOf(tx.inputs[j]))
      ==> !IsValid(crypto, pool, tx)
    ensures (exists i :: 0 <= i < |tx.outputs| && tx.outputs[i].value < 0.0)
      ==> !IsValid(crypto, pool, tx)
    ensures ClaimsPresent(pool, tx.inputs) && InputSum(pool, tx.inputs) < OutputSum(tx.outputs)
      ==> !IsValid(crypto, pool, tx)
  {
  }

  /** A transaction that spends exactly what it claims (no fee) is accepted
      when the other four conditions hold. */
  lemma ZeroFeeAccepted(crypto: Crypto, pool: Pool, tx: Transaction)
    requires ClaimsPresent(pool, tx.inputs) && SignaturesVerify(crypto, pool, tx)
    requires NoClaimRepeated(tx.inputs) && OutputsNonNegative(tx.outputs)
    requires OutputSum(tx.outputs) == InputSum(pool, tx.inputs)
    ensures IsValid(crypto, pool, tx)
  {
  }

  /** Two pools agree at `u`: both lack it, or both map it to the same output. */
  predicate AgreeAt(p: Pool, q: Pool, u: Utxo) {
    (u in p <==> u in q) && (u in p ==> p[u] == q[u])
  }

  lemma {:induction false} InputSumFrame(p: Pool, q: Pool, inputs: seq<Input>)
    requires ClaimsPresent(p, inputs)
    requires forall i :: 0 <= i < |inputs| ==> AgreeAt(p, q, ClaimOf(inputs[i]))
    ensures ClaimsPresent(q, inputs)
    ensures InputSum(p, inputs) == InputSum(q, inputs)
  {
    if inputs != [] {
      var init := inputs[..|inputs| - 1];
      assert forall i :: 0 <= i < |init| ==> init[i] == inputs[i];
      InputSumFrame(p, q, init);
    }
  }

  /** Validity reads the pool only at the identifiers the transaction claims:
      two pools that agree there give the same verdict. */
  lemma ValidityFrame(crypto: Crypto, p: Pool, q: Pool, tx: Transaction)
    requires forall i :: 0 <= i < |tx.inputs| ==> AgreeAt(p, q, ClaimOf(tx.inputs[i]))
    ensures IsValid(crypto, p, tx) == IsValid(crypto, q, tx)
  {
    if ClaimsPresent(p, tx.inputs) {
      InputSumFrame(p, q, tx.inputs);
      assert SignaturesVerify(crypto, p, tx) == SignaturesVerify(crypto, q, tx) by {
        forall i | 0 <= i < |tx.inputs|
          ensures InputAuthorized(crypto, p, tx, i) == InputAuthorized(crypto, q, tx, i)
        {
          assert AgreeAt(p, q, ClaimOf(tx.inputs[i]));
        }
      }
    } else {
      var i :| 0 <= i < |tx.inputs| && ClaimOf(tx.inputs[i]) !in p;
      assert AgreeAt(p, q, ClaimOf(tx.inputs[i]));
    }
  }
}
