# TxHandler: a verified model of a UTXO transaction handler

This project models the transaction handler of a simple UTXO ledger, the
`TxHandler` class in `TxHandler.java`. The handler owns a pool of unspent
transaction outputs. An identifier `(txHash, index)` names output `index` of
the transaction whose hash is `txHash`.

The handler does three things:

- It validates one transaction against the pool. Every claimed output must be
  in the pool, every signature must verify, no output may be claimed twice,
  no output value may be negative, and the outputs may not be worth more than
  the inputs.
- It applies an accepted transaction to the pool. The claimed outputs are
  removed, and the new outputs are added under the transaction's hash.
- It resolves an unordered batch of candidate transactions. It makes repeated
  passes over the candidates not yet accepted. Each candidate that is valid
  against the current pool is accepted and applied at once. It stops when a
  pass accepts nothing, or when a pass starts with no candidates left. A
  transaction that spends an output of another transaction in the same batch
  can be accepted in the same pass, when its producer was accepted before it
  is tried, or else in a later pass.

The modules:

- `Ledger` (`ledger.dfy`): identifiers, outputs, inputs, transactions, the
  pool as a map, and the cryptographic collaborators as the fields of a
  `Crypto` value.
- `Validity` (`validity.dfy`): the five validity conditions, and the rule
  `IsValid` that combines them.
- `PoolUpdate` (`pool_update.dfy`): `ApplyTx`, the effect of one accepted
  transaction, and `ApplyAll`/`ValidSequence`, the effect of a sequence of
  them. It also states what a valid sequence leaves in the pool and rules out
  double spends.
- `Handler` (`tx_handler.dfy`): the class `TxHandler` with its `utxoPool`
  field and the methods `IsValidTx`, `UpdatePool` and `HandleTxs`. Each method
  is proved against the specification functions above.
- `Resolution` (`resolution.dfy`): what the handler's outcome implies for a
  batch that can be accepted in full in some order, for a dependent pair, and
  for two transactions spending the same output.
- `Scenarios` (`scenarios.dfy`): client methods that run the handler on
  concrete batches and state the outcome.
- `DoubleAmounts` (`double_amounts.dfy`): the output checks over Java
  `double` values, where a value may be NaN (see Findings).

## Model

| member | source | states |
|---|---|---|
| Handler.TxHandler.constructor | TxHandler.java:10-12 | the handler starts with its own copy of the given pool (a map value, so later changes on either side are not shared) |
| Handler.TxHandler.IsValidTx | TxHandler.java:25-68 | the verdict is true exactly when all five conditions of `IsValid` hold against the current pool; the method has no `modifies` clause, so it cannot change the pool |
| Handler.TxHandler.UpdatePool | TxHandler.java:114-128 | the new pool is `ApplyTx` of the old one: the claimed identifiers are removed, then each output `i` is added under `(hash(tx), i)` |
| Handler.TxHandler.AcceptPass | TxHandler.java:87-105 | one pass only appends to the accepted list: the earlier acceptances stay in place and in order, and the appended transactions are exactly the candidates the pass removes; the list stays a valid sequence whose effect is the pool; candidates are still pending exactly when they are not accepted; a pass that accepts nothing leaves every remaining candidate invalid against the pool |
| Handler.TxHandler.HandleTxs | TxHandler.java:75-112 | the loop terminates, and the result is `Resolved`: every returned transaction was a candidate; none is returned twice; each was valid against the pool at the moment it was accepted; every candidate not returned is invalid against the final pool; and the final pool is the initial pool with the accepted transactions applied in order |
| Handler.BookkeepingAccept | TxHandler.java:97-99 | accepting a pending candidate moves it from the pending set to the end of the accepted list, and the list keeps no repeats |
| Handler.RemovalShrinks | TxHandler.java:103-108 | removing the accepted candidates never grows the pending set, and shrinks it strictly when the pass accepted something (the termination measure of the do-while) |
| Validity.EachConditionRejects | TxHandler.java:31-65 | each condition alone rejects: a claimed identifier missing from the pool, an input whose signature does not verify, an identifier claimed twice, a negative output, or outputs worth more than the inputs |
| Validity.ZeroFeeAccepted | TxHandler.java:63-67 | outputs worth exactly as much as the inputs are accepted when the other four conditions hold |
| Validity.InputPrefixStep | TxHandler.java:31-51 | accepting one more input whose claim is present and new keeps conditions (1) and (3), adds the claim to the seen set and adds its value to the input total |
| Validity.OutputPrefixStep | TxHandler.java:55-60 | one more output keeps condition (4) exactly when it is not negative, and adds its value to the output total |
| Validity.ValidityFrame | TxHandler.java:25-68 | the verdict depends on the pool only at the identifiers the transaction claims |
| Ledger.Produced | TxHandler.java:121-127 | the entries a transaction creates are exactly `(hash, i)` for each output index `i`, each holding output `i` |
| PoolUpdate.ApplyTxEffect | TxHandler.java:114-128 | after one update each produced identifier holds its output, each other claimed identifier is gone, and every other entry is unchanged |
| PoolUpdate.AcceptNext | TxHandler.java:97-98 | appending a transaction valid against the current pool extends a valid sequence, and the pool becomes that transaction applied to it |
| PoolUpdate.ValidPrefix | TxHandler.java:89-99 | in a valid sequence each transaction was valid against the pool left by the ones before it |
| PoolUpdate.SettledPool | TxHandler.java:114-128 | with fresh hashes, a valid sequence leaves the starting pool plus everything created, minus everything claimed, and claims only what existed or was created |
| PoolUpdate.OrderIrrelevant | TxHandler.java:89-101 | with fresh hashes, two valid sequences with the same members leave the same pool, so the set's iteration order does not change the pool a set of acceptances yields |
| PoolUpdate.NoDoubleSpend | TxHandler.java:116-119 | with fresh hashes, two different transactions of a valid sequence claim disjoint sets of identifiers |
| Resolution.NextAccepted | TxHandler.java:86-108 | if every transaction before position `k` of a resolvable batch was accepted, so was the one at `k`, since what it claims survives in the final pool |
| Resolution.AcceptedAt | TxHandler.java:86-108 | every transaction of a batch that can be accepted in its own order is accepted |
| Resolution.ResolvableBatchFullyAccepted | TxHandler.java:86-108 | any `Resolved` outcome, which is what `HandleTxs` ensures, on a batch that can be accepted in full in some order accepts all of it and leaves the same pool as that order |
| Resolution.DependentPairResolved | TxHandler.java:76-78 | a pair where the second spends the first's output, submitted in reverse order, is accepted as first then second |
| Resolution.ConflictingPairResolved | TxHandler.java:86-108 | of two transactions each valid alone that claim the same identifier, exactly one is accepted |
| Scenarios.ValidSingle | TxHandler.java:25-68 | a one-input, one-output transaction is valid exactly when its claim is present, its signature verifies and its output lies between zero and the claimed value |
| Scenarios.ChainedBatch | TxHandler.java:75-112 | on the batch `[Tx2, Tx1]`, where `Tx2` spends `Tx1`'s output, the handler returns `[Tx1, Tx2]` and the pool holds only `Tx2`'s payment |
| Scenarios.DoubleSpendBatch | TxHandler.java:75-112 | on two transactions spending the same output, the handler returns exactly one of them and the pool holds exactly that one's payment |
| Scenarios.EmptyBatch | TxHandler.java:82-108 | an empty batch returns nothing and leaves the pool unchanged |
| Scenarios.InvalidAlone | TxHandler.java:86-108 | a transaction invalid against the pool, submitted alone, is rejected and the pool is unchanged |
| DoubleAmounts.NaNOutputAccepted | TxHandler.java:55-65 | a single NaN output against inputs worth 10 passes the checks as written and fails the corrected checks |
| DoubleAmounts.FiniteAgreement | TxHandler.java:55-65 | on finite amounts the corrected checks are exactly conditions (4) and (5) over reals, and the checks as written agree with them |

## Left out

- Cryptography: `verifySignature`, `getRawDataToSign` and `getHash` belong to classes that are not part of this model. They are uninterpreted function fields of a `Crypto` value.
- `UTXOPool`, `UTXO` and `Transaction` are not part of this model. The pool is a `map` from identifier to output, and identifiers and transactions are datatypes. Transaction equality, and with it the duplicate collapse in the `HashSet`, is structural equality.
- Amounts are `real`. Floating-point rounding and overflow of the `double` accumulators are not modelled, and neither are infinities. NaN is covered only by the separate `DoubleAmounts` module (see Findings); the main model uses the corrected real-valued conditions.
- The `int` index counters are unbounded. Overflow past 2^31 inputs or outputs is not modelled.
- `HashSet` iteration order is an arbitrary choice of the next pending candidate at each step. No particular winner between two conflicting candidates is proved, only that exactly one wins.
- Arrays in and out of `handleTxs` are sequences.
- `private` has no counterpart. `UpdatePool` is an ordinary method of the class.
- `AcceptPass` is the body of the do-while extracted into its own method, so that the outer loop can be proved against its contract.
- No maximality claim: the comment at line 80 promises a mutually valid set of maximal size, which a greedy pass does not guarantee.
- PoolUpdate.NoDoubleSpend: holds only when the batch's hashes are distinct and none of them is the hash part of an identifier already in the pool. `HandleTxs` itself promises this only through `ValidSequence`, and a hash collision could let an output be recreated and spent again.
- PoolUpdate.SettledPool, PoolUpdate.OrderIrrelevant and the `Resolution` lemmas assume the same fresh-hash hypothesis, for the same reason.

## Findings

| source | as written | input that shows it | evidently intended | confidence | as-written member | corrected member |
|---|---|---|---|---|---|---|
| TxHandler.java:55-65 | rejects when `out.value < 0.0` and when `outputVal > inputVal`; both comparisons are false when an operand is NaN | one output of value NaN, claiming inputs worth 10 | conditions (4) and (5) of the comment at lines 15-22: every output is a non-negative number and the outputs are worth no more than the inputs, so a NaN output is rejected | high; not executed | DoubleAmounts.NaNOutputAccepted | DoubleAmounts.FiniteAgreement |
