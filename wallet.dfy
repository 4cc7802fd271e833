/**
 * The parts of Wallet, TransactionOutput and TransactionInput that the
 * transaction engine consults. Those classes are not part of this model; these
 * functions give them the behaviour the engine relies on: the wallet holds its
 * keys in order and three pools of transactions keyed by hash, an output is
 * "mine" when its standard script pays a key the wallet holds, and an input
 * resolves against a pool through its outpoint.
 */
module Wallets {
  import opened Wrappers
  import opened Bytes
  import opened Scripts
  import opened TxWire

  datatype Wallet = Wallet(keys: seq<ECKey>, unspent: map<Hash, Tx>, spent: map<Hash, Tx>, pending: map<Hash, Tx>)

  /** Wallet.findKeyFromPubHash: the first key whose public-key hash is `h`, if any. */
  function FindKey(keys: seq<ECKey>, h: seq<byte>): (r: Option<ECKey>)
    ensures r.Some? ==> r.value in keys && r.value.pubKeyHash == h
    ensures r.None? <==> forall k <- keys :: k.pubKeyHash != h
  {
    if keys == [] then None
    else if keys[0].pubKeyHash == h then Some(keys[0])
    else FindKey(keys[1..], h)
  }

  /** TransactionOutput.isMine: the script is a standard one paying a key of the wallet; a script that is not is never mine. */
  predicate IsMine(o: TxOutput, w: Wallet)
  {
    match PubKeyHashOf(o.scriptBytes)
    case None => false
    case Some(h) => FindKey(w.keys, h).Some?
  }

  /** TransactionInput.isCoinBase: the outpoint refers to no transaction (the all-zero hash). */
  predicate InputIsCoinBase(i: TxInput)
  {
    i.outpoint.hash == ZERO_HASH
  }

  /**
   * TransactionInput.getConnectedOutput: the output the outpoint names in `pool`; None when the pool does
   * not hold the transaction (an index past its outputs is treated the same way).
   */
  function ConnectedOutputIn(i: TxInput, pool: map<Hash, Tx>): Option<TxOutput>
  {
    if i.outpoint.hash in pool && i.outpoint.index < |pool[i.outpoint.hash].outputs|
    then Some(pool[i.outpoint.hash].outputs[i.outpoint.index])
    else None
  }
}
