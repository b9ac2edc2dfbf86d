/** Concrete batches whose outcome follows from the handler's contract
    alone: a dependent pair submitted in reverse order, two transactions
    spending the same output, an empty batch, and a lone invalid transaction. */
module Scenarios {
  import opened Ledger
  import opened Validity
  import opened PoolUpdate
  import opened Resolution
  import opened Handler

  const KeyA: PublicKey := [1]
  const KeyB: PublicKey := [2]
  const KeyC: PublicKey := [3]

  /** Hash of the transaction that produced the one starting entry. */
  const Hash0: Hash := [0]

  /** Collaborators for these scenarios: a signature is valid when it equals
      the key, and a transaction's hash is the key its first output pays. */
  function Toy(): Crypto {
    Crypto(
      (key: PublicKey, msg: Bytes, sig: Signature) => sig == key,
      (tx: Transaction, i: int) => [],
      (tx: Transaction) => if tx.outputs == [] then [] else tx.outputs[0].address)
  }

  const Id0: Utxo := Utxo(Hash0, 0)
  /** The starting pool: 10 owned by A. */
  const Pool0: Pool := map[Id0 := Output(10.0, KeyA)]

  /** Spends `Id0` with A's signature and pays 10 to B; its hash is `KeyB`. */
  const Tx1: Transaction := Transaction([Input(Hash0, 0, KeyA)], [Output(10.0, KeyB)])
  /** Spends output 0 of `Tx1` with B's signature and pays 10 to C. */
  const Tx2: Transaction := Transaction([Input(KeyB, 0, KeyB)], [Output(10.0, KeyC)])
  /** Spends `Id0` with A's signature, like `Tx1`, but pays 7 to C (a fee of 3). */
  const TxC: Transaction := Transaction([Input(Hash0, 0, KeyA)], [Output(7.0, KeyC)])

  /** The pool after `Tx1`, after `Tx1` then `Tx2`, and after `TxC`. */
  const Pool1: Pool := map[Utxo(KeyB, 0) := Output(10.0, KeyB)]
  const Pool2: Pool := map[Utxo(KeyC, 0) := Output(10.0, KeyC)]
  const PoolC: Pool := map[Utxo(KeyC, 0) := Output(7.0, KeyC)]

  /** A transaction with one input and one output changes the pool by one
      removal and one insertion. */
  lemma ApplySingle(crypto: Crypto, pool: Pool, tx: Transaction)
    requires |tx.inputs| == 1 && |tx.outputs| == 1
    ensures ApplyTx(crypto, pool, tx)
         == (pool - {ClaimOf(tx.inputs[0])})[Utxo(crypto.hash(tx), 0) := tx.outputs[0]]
  {
    assert ClaimSet(tx.inputs) == {ClaimOf(tx.inputs[0])};
    assert Produced(crypto.hash(tx), tx.outputs) == map[Utxo(crypto.hash(tx), 0) := tx.outputs[0]];
  }

  /** A transaction with one input and one output is valid exactly when the
      output it claims is in the pool, the signature verifies, and the payment
      is not negative and does not exceed the claimed value. */
  lemma ValidSingle(crypto: Crypto, pool: Pool, tx: Transaction)
    requires |tx.inputs| == 1 && |tx.outputs| == 1
    ensures IsValid(crypto, pool, tx) <==>
      ClaimOf(tx.inputs[0]) in pool
      && crypto.verifySignature(pool[ClaimOf(tx.inputs[0])].address, crypto.rawDataToSign(tx, 0), tx.inputs[0].signature)
      && 0.0 <= tx.outputs[0].value <= pool[ClaimOf(tx.inputs[0])].value
  {
    assert tx.inputs[..0] == [] && tx.outputs[..0] == [];
    assert OutputSum(tx.outputs) == tx.outputs[0].value;
    assert OutputsNonNegative(tx.outputs) <==> tx.outputs[0].value >= 0.0;
    assert NoClaimRepeated(tx.inputs);
    if ClaimOf(tx.inputs[0]) in pool {
      assert InputSum(pool, tx.inputs) == pool[ClaimOf(tx.inputs[0])].value;
      assert SignaturesVerify(crypto, pool, tx) <==> InputAuthorized(crypto, pool, tx, 0);
    }
  }

  /** Two transactions, the second valid after the first, form a valid
      sequence whose effect is the two updates in turn. */
  lemma ValidPair(crypto: Crypto, pool: Pool, t1: Transaction, t2: Transaction)
    requires IsValid(crypto, pool, t1) && IsValid(crypto, ApplyTx(crypto, pool, t1), t2)
    ensures ValidSequence(crypto, pool, [t1, t2])
    ensures ApplyAll(crypto, pool, [t1, t2]) == ApplyTx(crypto, ApplyTx(crypto, pool, t1), t2)
  {
    assert ValidSequence(crypto, pool, []) && ApplyAll(crypto, pool, []) == pool;
    AcceptNext(crypto, pool, [], t1);
    assert [] + [t1] == [t1];
    AcceptNext(crypto, pool, [t1], t2);
    assert [t1] + [t2] == [t1, t2];
  }

  lemma Tx1Facts()
    ensures IsValid(Toy(), Pool0, Tx1) && ApplyTx(Toy(), Pool0, Tx1) == Pool1
  {
    ValidSingle(Toy(), Pool0, Tx1);
    ApplySingle(Toy(), Pool0, Tx1);
  }

  lemma Tx2Facts()
    ensures !IsValid(Toy(), Pool0, Tx2)
    ensures IsValid(Toy(), Pool1, Tx2) && ApplyTx(Toy(), Pool1, Tx2) == Pool2
  {
    ValidSingle(Toy(), Pool0, Tx2);
    ValidSingle(Toy(), Pool1, Tx2);
    ApplySingle(Toy(), Pool1, Tx2);
  }

  lemma TxCFacts()
    ensures IsValid(Toy(), Pool0, TxC) && ApplyTx(Toy(), Pool0, TxC) == PoolC
  {
    ValidSingle(Toy(), Pool0, TxC);
    ApplySingle(Toy(), Pool0, TxC);
  }

  /** Two transactions paying B and C have fresh hashes against the
      starting pool. */
  lemma FreshAgainstPool0(t1: Transaction, t2: Transaction)
    requires |t1.outputs| > 0 && t1.outputs[0].address == KeyB
    requires |t2.outputs| > 0 && t2.outputs[0].address == KeyC
    ensures FreshHashes(Toy(), Pool0, [t1, t2])
  {
    var pair := [t1, t2];
    assert Toy().hash(pair[0]) == KeyB && Toy().hash(pair[1]) == KeyC;
    assert forall u :: u in Pool0 ==> u.txHash == Hash0;
  }

  /** The dependent pair submitted in reverse order: both are accepted, the
      producer first, and only the final payment to C is left unspent. */
  method ChainedBatch() returns (accepted: seq<Transaction>, pool: Pool)
    ensures accepted == [Tx1, Tx2]
    ensures pool == Pool2
  {
    var handler := new TxHandler(Toy(), Pool0);
    accepted := handler.HandleTxs([Tx2, Tx1]);
    pool := handler.utxoPool;
    Tx1Facts();
    Tx2Facts();
    ValidPair(Toy(), Pool0, Tx1, Tx2);
    FreshAgainstPool0(Tx1, Tx2);
    DependentPairResolved(Toy(), Pool0, Tx1, Tx2, accepted);
  }

  /** Two transactions spending the same output: exactly one of them is
      accepted, and the pool holds exactly that one's payment. */
  method DoubleSpendBatch() returns (accepted: seq<Transaction>, pool: Pool)
    ensures accepted == [Tx1] || accepted == [TxC]
    ensures accepted == [Tx1] ==> pool == Pool1
    ensures accepted == [TxC] ==> pool == PoolC
  {
    var handler := new TxHandler(Toy(), Pool0);
    accepted := handler.HandleTxs([Tx1, TxC]);
    pool := handler.utxoPool;
    Tx1Facts();
    TxCFacts();
    FreshAgainstPool0(Tx1, TxC);
    assert Id0 == ClaimOf(Tx1.inputs[0]) == ClaimOf(TxC.inputs[0]);
    ConflictingPairResolved(Toy(), Pool0, Tx1, TxC, Id0, accepted);
    assert [accepted[0]][..0] == [];
  }

  /** An empty batch accepts nothing and leaves the pool as it was. */
  method EmptyBatch(crypto: Crypto, start: Pool) returns (accepted: seq<Transaction>, pool: Pool)
    ensures accepted == [] && pool == start
  {
    var handler := new TxHandler(crypto, start);
    accepted := handler.HandleTxs([]);
    pool := handler.utxoPool;
    assert forall i :: 0 <= i < |accepted| ==> accepted[i] in accepted;
    if accepted != [] {
      assert false;
    }
  }

  /** A transaction that is invalid against the pool, submitted alone, is
      rejected and leaves the pool as it was. */
  method InvalidAlone(crypto: Crypto, start: Pool, tx: Transaction) returns (accepted: seq<Transaction>, pool: Pool)
    requires !IsValid(crypto, start, tx)
    ensures accepted == [] && pool == start
  {
    var handler := new TxHandler(crypto, start);
    accepted := handler.HandleTxs([tx]);
    pool := handler.utxoPool;
    if accepted != [] {
      ValidPrefix(crypto, start, accepted, 0);
      assert false;
    }
  }
}
