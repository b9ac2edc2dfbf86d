/** The entities of a UTXO ledger step: identifiers of unspent outputs, outputs,
    inputs, transactions, the pool of unspent outputs, and the cryptographic
    collaborators the handler calls but whose code is not part of this model. */
module Ledger {

  /** Raw bytes: transaction hashes, public keys, signatures, signed messages. */
  type Bytes = seq<bv8>
  type Hash = Bytes
  type PublicKey = Bytes
  type Signature = Bytes

  /** An unspent-output identifier: the hash of the transaction that produced
      the output and the output's position in that transaction. */
  datatype Utxo = Utxo(txHash: Hash, index: int)

  /** A claimable amount and the key that may spend it. */
  datatype Output = Output(value: real, address: PublicKey)

  /** A claim on the output `outputIndex` of transaction `prevTxHash`, with the
      signature that authorises it. */
  datatype Input = Input(prevTxHash: Hash, outputIndex: int, signature: Signature)

  /** A transaction: its inputs and outputs, in order. Two transactions are the
      same candidate exactly when they are equal as values. */
  datatype Transaction = Transaction(inputs: seq<Input>, outputs: seq<Output>)

  /** The pool of unspent outputs. */
  type Pool = map<Utxo, Output>

  /** The collaborators: signature verification under a public key, the
      message that input `i` of a transaction signs, and the transaction hash.
      They are uninterpreted: every property proved here holds for all of them. */
  datatype Crypto = Crypto(
    verifySignature: (PublicKey, Bytes, Signature) -> bool,
    rawDataToSign: (Transaction, int) -> Bytes,
    hash: Transaction -> Hash)

  /** The identifier an input claims. */
  function ClaimOf(input: Input): Utxo {
    Utxo(input.prevTxHash, input.outputIndex)
  }

  /** Every identifier claimed by a list of inputs. */
  function ClaimSet(inputs: seq<Input>): set<Utxo> {
    set i | 0 <= i < |inputs| :: ClaimOf(inputs[i])
  }

  /** Does a transaction with hash `h` and outputs `outputs` produce `u`? */
  predicate Produces(h: Hash, outputs: seq<Output>, u: Utxo) {
    u.txHash == h && 0 <= u.index < |outputs|
  }

  /** The pool entries created by outputs `outputs` of the transaction with
      hash `h`: output `i` under identifier `(h, i)`. */
  function Produced(h: Hash, outputs: seq<Output>): (r: Pool)
    ensures forall u :: u in r <==> Produces(h, outputs, u)
    ensures forall u :: Produces(h, outputs, u) ==> u in r && r[u] == outputs[u.index]
  {
    map i | 0 <= i < |outputs| :: Utxo(h, i) := outputs[i]
  }

  lemma ClaimSetAppend(inputs: seq<Input>, input: Input)
    ensures ClaimSet(inputs + [input]) == ClaimSet(inputs) + {ClaimOf(input)}
  {
    var longer := inputs + [input];
    assert forall i :: 0 <= i < |inputs| ==> longer[i] == inputs[i];
    assert longer[|inputs|] == input;
  }

  lemma ProducedAppend(h: Hash, outputs: seq<Output>, output: Output)
    ensures Produced(h, outputs + [output]) == Produced(h, outputs)[Utxo(h, |outputs|) := output]
  {
    var longer := outputs + [output];
    var lhs, rhs := Produced(h, longer), Produced(h, outputs)[Utxo(h, |outputs|) := output];
    forall u ensures (u in lhs <==> u in rhs) && (u in lhs ==> lhs[u] == rhs[u]) {
      if u in lhs && u.index < |outputs| {
        assert longer[u.index] == outputs[u.index];
      }
    }
  }

  lemma UnionUpdate<K, V>(m: map<K, V>, n: map<K, V>, k: K, v: V)
    ensures (m + n)[k := v] == m + n[k := v]
  {
  }
}
