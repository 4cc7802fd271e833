/**
 * The Transaction object: its fields, the operations that change them in
 * place, and the loops that compute the wallet sums. Each method is proved
 * against the value-level functions of TxWire, TxRules and TxSigning.
 */
module Transactions {
  import opened Wrappers
  import opened Bytes
  import opened Chain
  import opened Scripts
  import opened TxWire
  import opened Wallets
  import opened TxRules
  import opened TxSigning

  class Transaction {
    var version: nat
    var inputs: seq<TxInput>
    var outputs: seq<TxOutput>
    var lockTime: nat
    /** The cached serialised length (Message.length), or UNKNOWN_LENGTH. */
    var length: int
    /** The cached transaction hash; None once the contents change (unCache). */
    var hash: Option<Hash>
    /** The blocks the transaction appears in; None for a transaction the wallet does not store. */
    var appearsIn: Option<set<StoredBlock>>
    /** The update time in milliseconds, when known. */
    var updatedAt: Option<int>
    /** Double SHA-256 (Utils.doubleDigest), which is not part of this model. */
    const digest: seq<byte> -> seq<byte>

    /** The wire-level contents. */
    function Value(): Tx
      reads this
    {
      Tx(version, inputs, outputs, lockTime)
    }

    /** A cached hash is the hash of the current contents. */
    predicate Valid()
      reads this
    {
      hash.Some? ==> hash.value == TxHash(digest, Value())
    }

    /** The cached length is the size of the serialisation. */
    predicate LengthExact()
      reads this
    {
      length == |Serialize(Value())|
    }

    /** Transaction(params): version 1, no inputs or outputs, and the 10 bytes such a transaction takes. */
    constructor (digest: seq<byte> -> seq<byte>)
      ensures version == 1 && inputs == [] && outputs == [] && lockTime == 0 && length == 10
      ensures hash.None? && appearsIn.None? && updatedAt.None? && this.digest == digest
      ensures Valid() && LengthExact()
    {
      version := 1;
      inputs := [];
      outputs := [];
      lockTime := 0;
      length := 10;
      hash := None;
      appearsIn := None;
      updatedAt := None;
      this.digest := digest;
      EmptySize(1, 0);
    }

    /** getHash: computed from the serialisation on first use, then served from the cache. */
    method GetHash() returns (h: Hash)
      requires Valid()
      modifies this
      ensures h == TxHash(digest, Value()) && hash == Some(h) && Valid()
      ensures Value() == old(Value()) && length == old(length)
      ensures appearsIn == old(appearsIn) && updatedAt == old(updatedAt)
    {
      if hash.None? {
        var bits := Serialize(Value());
        hash := Some(Reverse(digest(bits)));
      }
      h := hash.value;
    }

    /** unCache: forget the cached hash. */
    method UnCache()
      modifies this
      ensures hash.None? && Valid()
      ensures Value() == old(Value()) && length == old(length)
      ensures appearsIn == old(appearsIn) && updatedAt == old(updatedAt)
    {
      hash := None;
    }

    /**
     * addInput: the input goes at the end, earlier inputs keep their order, the hash is dropped and a
     * known length grows by the input's length. The length stays exact exactly when the input count's
     * VarInt keeps its width.
     */
    method AddInput(input: TxInput)
      modifies this
      ensures inputs == old(inputs) + [input]
      ensures hash.None? && Valid() && length == Adjusted(old(length), |EncodeInput(input)|)
      ensures version == old(version) && outputs == old(outputs) && lockTime == old(lockTime)
      ensures appearsIn == old(appearsIn) && updatedAt == old(updatedAt)
      ensures old(LengthExact()) ==> (LengthExact() <==> VarIntSize(|old(inputs)|) == VarIntSize(|inputs|))
    {
      ghost var before := Value();
      if LengthExact() {
        AddInputLengthExact(before, input, length);
      }
      UnCache();
      inputs := inputs + [input];
      length := Adjusted(length, |EncodeInput(input)|);
    }

    /** addOutput: the same for outputs. */
    method AddOutput(output: TxOutput)
      modifies this
      ensures outputs == old(outputs) + [output]
      ensures hash.None? && Valid() && length == Adjusted(old(length), |EncodeOutput(output)|)
      ensures version == old(version) && inputs == old(inputs) && lockTime == old(lockTime)
      ensures appearsIn == old(appearsIn) && updatedAt == old(updatedAt)
      ensures old(LengthExact()) ==> (LengthExact() <==> VarIntSize(|old(outputs)|) == VarIntSize(|outputs|))
    {
      ghost var before := Value();
      if LengthExact() {
        AddOutputLengthExact(before, output, length);
      }
      UnCache();
      outputs := outputs + [output];
      length := Adjusted(length, |EncodeOutput(output)|);
    }

    /** setLockTime: the lock time is replaced and the hash dropped; the size does not change. */
    method SetLockTime(lt: nat)
      modifies this
      ensures lockTime == lt && hash.None? && Valid()
      ensures version == old(version) && inputs == old(inputs) && outputs == old(outputs) && length == old(length)
      ensures appearsIn == old(appearsIn) && updatedAt == old(updatedAt)
      ensures old(LengthExact()) ==> LengthExact()
    {
      UnCache();
      lockTime := lt;
    }

    /** isCoinBase: whether the first input is a coinbase input; None where inputs.get(0) throws. */
    method IsCoinBase() returns (r: Option<bool>)
      ensures r.None? <==> inputs == []
      ensures r.Some? ==> (r.value <==> InputIsCoinBase(inputs[0]))
    {
      if |inputs| == 0 {
        return None;
      }
      return Some(InputIsCoinBase(inputs[0]));
    }

    /** getValueSentToMe(wallet, includeSpent): the outputs paying the wallet, spent ones only if asked for. */
    method GetValueSentToMe(w: Wallet, includeSpent: bool) returns (v: nat)
      ensures v == SentToMe(outputs, w, includeSpent)
    {
      v := 0;
      var i := 0;
      while i < |outputs|
        invariant 0 <= i <= |outputs|
        invariant v == SentToMe(outputs[..i], w, includeSpent)
      {
        var o := outputs[i];
        assert outputs[..i + 1][..i] == outputs[..i];
        if IsMine(o, w) && (includeSpent || o.availableForSpending) {
          v := v + o.value;
        }
        i := i + 1;
      }
      assert outputs[..i] == outputs;
    }

    /** getValueSentFromMe: for each input, its connected output from the wallet's pools, when it is mine. */
    method GetValueSentFromMe(w: Wallet) returns (v: nat)
      ensures v == SentFromMe(inputs, w)
    {
      hide IsMine;
      v := 0;
      var i := 0;
      while i < |inputs|
        invariant 0 <= i <= |inputs|
        invariant v == SentFromMe(inputs[..i], w)
      {
        var input := inputs[i];
        assert inputs[..i + 1][..i] == inputs[..i];
        var connected := ConnectedOutputIn(input, w.unspent);
        if connected.None? {
          connected := ConnectedOutputIn(input, w.spent);
        }
        if connected.None? {
          connected := ConnectedOutputIn(input, w.pending);
        }
        assert connected == InputConnection(input, w);
        if connected.Some? && IsMine(connected.value, w) {
          v := v + connected.value.value;
        }
        i := i + 1;
      }
      assert inputs[..i] == inputs;
    }

    /** isEveryOutputSpent: no output is still available for spending. */
    method IsEveryOutputSpent() returns (r: bool)
      ensures r <==> forall o <- outputs :: !o.availableForSpending
    {
      var i := 0;
      while i < |outputs|
        invariant 0 <= i <= |outputs|
        invariant forall j :: 0 <= j < i ==> !outputs[j].availableForSpending
      {
        if outputs[i].availableForSpending {
          return false;
        }
        i := i + 1;
      }
      return true;
    }

    /**
     * connectForReorganize: connects every non-coinbase input against `transactions`, marking the outputs
     * it spends, and returns the first input whose output is already spent. The transactions are values
     * here, so the updated map is returned.
     */
    method ConnectForReorganize(transactions: map<Hash, Tx>) returns (failed: Option<TxInput>, txs: map<Hash, Tx>)
      modifies this
      ensures var r := ConnectFrom(old(inputs), 0, transactions);
              inputs == r.1 && txs == r.2 && failed == (if r.0.Some? then Some(r.1[r.0.value]) else None)
      ensures Serialize(Value()) == Serialize(old(Value()))
      ensures old(Valid()) ==> Valid()
      ensures old(LengthExact()) ==> LengthExact()
      ensures version == old(version) && outputs == old(outputs) && lockTime == old(lockTime) && length == old(length)
      ensures hash == old(hash) && appearsIn == old(appearsIn) && updatedAt == old(updatedAt)
    {
      failed := None;
      txs := transactions;
      var i := 0;
      while i < |inputs|
        invariant 0 <= i <= |inputs|
        invariant ConnectFrom(inputs, i, txs) == ConnectFrom(old(inputs), 0, transactions)
        invariant version == old(version) && outputs == old(outputs) && lockTime == old(lockTime) && length == old(length)
        invariant hash == old(hash) && appearsIn == old(appearsIn) && updatedAt == old(updatedAt)
      {
        var input := inputs[i];
        if !InputIsCoinBase(input) {
          var (result, connected, txs') := Connect(input, txs);
          if result == AlreadySpent {
            failed := Some(input);
            break;
          }
          inputs := inputs[i := connected];
          txs := txs';
        }
        i := i + 1;
      }
      ConnectKeepsSerialization(old(Value()), transactions);
    }

    /**
     * addBlockAppearance: the block joins the set (created if absent); the update time is taken from the
     * block only on the best chain and only when not yet set.
     */
    method AddBlockAppearance(block: StoredBlock, bestChain: bool)
      modifies this
      ensures updatedAt == if bestChain && old(updatedAt).None? then Some(block.header.timeSeconds * 1000) else old(updatedAt)
      ensures appearsIn == Some((if old(appearsIn).None? then {} else old(appearsIn).value) + {block})
      ensures Value() == old(Value()) && length == old(length) && hash == old(hash)
    {
      if bestChain && updatedAt.None? {
        updatedAt := Some(block.header.timeSeconds * 1000);
      }
      if appearsIn.None? {
        appearsIn := Some({});
      }
      appearsIn := Some(appearsIn.value + {block});
    }

    /**
     * getUpdateTime: a known time is returned as is; otherwise None without appearances, and else the
     * earliest block time (in milliseconds), which is also cached.
     */
    method GetUpdateTime() returns (r: Option<int>)
      modifies this
      ensures old(updatedAt).Some? ==> r == old(updatedAt) && updatedAt == old(updatedAt)
      ensures old(updatedAt).None? && (appearsIn.None? || appearsIn.value == {}) ==> r.None? && updatedAt.None?
      ensures old(updatedAt).None? && appearsIn.Some? && appearsIn.value != {} ==>
                r.Some? && updatedAt == r && r.value >= 0 && r.value % 1000 == 0 && IsEarliest(r.value / 1000, appearsIn.value)
      ensures appearsIn == old(appearsIn) && Value() == old(Value()) && length == old(length) && hash == old(hash)
    {
      if updatedAt.None? {
        if appearsIn.None? || appearsIn.value == {} {
          return None;
        }
        var s := appearsIn.value;
        var earliest: nat := LONG_MAX;
        var remaining := s;
        ghost var earliestBlock: Option<StoredBlock> := None;
        while remaining != {}
          invariant remaining <= s && earliest <= LONG_MAX
          invariant forall b <- s - remaining :: earliest <= TimeOf(b)
          invariant earliest == LONG_MAX || (earliestBlock.Some? && earliestBlock.value in s - remaining && TimeOf(earliestBlock.value) == earliest)
          decreases |remaining|
        {
          var b :| b in remaining;
          if b.header.timeSeconds < earliest {
            earliest := b.header.timeSeconds;
            earliestBlock := Some(b);
          }
          remaining := remaining - {b};
        }
        updatedAt := Some(earliest * 1000);
      }
      return updatedAt;
    }

    /** TransactionInput.setScriptBytes on input `k`: the script is replaced, the hash dropped, the length adjusted. */
    method SetInputScript(k: nat, script: seq<byte>)
      requires k < |inputs|
      modifies this
      ensures inputs == old(inputs)[k := old(inputs)[k].(scriptBytes := script)]
      ensures hash.None? && Valid() && length == Adjusted(old(length), |EncodeInput(inputs[k])| - |EncodeInput(old(inputs)[k])|)
      ensures version == old(version) && outputs == old(outputs) && lockTime == old(lockTime)
      ensures appearsIn == old(appearsIn) && updatedAt == old(updatedAt)
      ensures old(LengthExact()) ==> LengthExact()
      ensures old(length) == UNKNOWN_LENGTH ==> length == UNKNOWN_LENGTH
    {
      var replaced := inputs[k].(scriptBytes := script);
      ReplaceInputSize(Value(), k, replaced);
      UnCache();
      length := Adjusted(length, |EncodeInput(replaced)| - |EncodeInput(inputs[k])|);
      inputs := inputs[k := replaced];
    }

    /**
     * signInputs(SigHash.ALL, wallet): signs every input. The outcome, error or signed transaction, is
     * SignOutcome of the transaction as it was; an exact length stays exact and an unknown one unknown.
     */
    method SignInputs(hashType: SigHash, w: Wallet, sign: (ECKey, seq<byte>) -> seq<byte>) returns (error: Option<SignError>)
      requires |inputs| > 0 && |outputs| > 0 && hashType == SigHashAll && Valid()
      requires forall i <- inputs :: i.scriptBytes == []
      requires SignerFits(sign) && KeysFit(w)
      modifies this
      ensures (error, Value()) == SignOutcome(old(Value()), w, sign, digest)
      ensures Valid() && (if error == Some(NoConnectedOutput(0)) then hash == old(hash) else hash.None?)
      ensures old(LengthExact()) ==> LengthExact()
      ensures old(length) == UNKNOWN_LENGTH ==> length == UNKNOWN_LENGTH
      ensures appearsIn == old(appearsIn) && updatedAt == old(updatedAt)
    {
      ghost var t0 := Value();
      var pairs;
      error, pairs := ComputeSignatures(hashType, w, sign);
      if error.None? {
        ApplySignatures(pairs);
      }
    }

    /** The first loop of signInputs: a signature and a key per input, or the first input that fails. */
    method ComputeSignatures(hashType: SigHash, w: Wallet, sign: (ECKey, seq<byte>) -> seq<byte>)
      returns (error: Option<SignError>, pairs: seq<(ECKey, seq<byte>)>)
      requires |inputs| > 0 && hashType == SigHashAll && Valid()
      requires forall i <- inputs :: i.scriptBytes == []
      requires SignerFits(sign) && KeysFit(w)
      modifies this
      ensures error.None? ==> SignaturesUpTo(old(Value()), w, sign, digest, |old(inputs)|) == Success(pairs)
                              && Value() == old(Value())
      ensures error.Some? ==> (error, Value()) == SignOutcome(old(Value()), w, sign, digest)
      ensures Valid() && (if error == Some(NoConnectedOutput(0)) then hash == old(hash) else hash.None?)
      ensures old(LengthExact()) ==> LengthExact()
      ensures old(length) == UNKNOWN_LENGTH ==> length == UNKNOWN_LENGTH
      ensures appearsIn == old(appearsIn) && updatedAt == old(updatedAt)
    {
      hide SignaturesUpTo, InputSignature, SignOutcome, TxHash, Serialize;
      ghost var t0 := Value();
      var n := |inputs|;
      pairs := [];
      var i := 0;
      while i < n
        invariant 0 <= i <= n && Value() == t0 && Valid()
        invariant SignaturesUpTo(t0, w, sign, digest, i) == Success(pairs)
        invariant if i == 0 then hash == old(hash) else hash.None?
        invariant old(LengthExact()) ==> LengthExact()
        invariant old(length) == UNKNOWN_LENGTH ==> length == UNKNOWN_LENGTH
        invariant appearsIn == old(appearsIn) && updatedAt == old(updatedAt)
      {
        var r := SignInput(i, hashType, w, sign);
        if r.Failure? {
          SignStopsAt(t0, w, sign, digest, i);
          return Some(r.error), pairs;
        }
        SignaturesExtend(t0, w, sign, digest, i, pairs, r.value);
        pairs := pairs + [r.value];
        i := i + 1;
      }
      error := None;
    }

    /**
     * The body of the first loop for input `k`: the connected output's script goes into the input while
     * the signature hash is taken, then the input's script is emptied again. A non-standard script
     * stops the loop before that, and stays in the input.
     */
    method SignInput(k: nat, hashType: SigHash, w: Wallet, sign: (ECKey, seq<byte>) -> seq<byte>)
      returns (r: Result<(ECKey, seq<byte>), SignError>)
      requires k < |inputs| && inputs[k].scriptBytes == [] && hashType == SigHashAll && Valid()
      requires SignerFits(sign) && KeysFit(w)
      modifies this
      ensures r == InputSignature(old(Value()), w, sign, digest, k)
      ensures Value() == if r.Failure? && r.error.NonStandardScript?
                         then SigningView(old(Value()), k, old(inputs)[k].outpoint.connected.value.scriptBytes)
                         else old(Value())
      ensures Valid() && (if r == Failure(NoConnectedOutput(k)) then hash == old(hash) else hash.None?)
      ensures old(LengthExact()) ==> LengthExact()
      ensures old(length) == UNKNOWN_LENGTH ==> length == UNKNOWN_LENGTH
      ensures appearsIn == old(appearsIn) && updatedAt == old(updatedAt)
    {
      hide TxHash, Serialize, SignatureHash;
      ghost var t0 := Value();
      var input := inputs[k];
      if input.outpoint.connected.None? {
        return Failure(NoConnectedOutput(k));
      }
      var connectedScript := input.outpoint.connected.value.scriptBytes;
      SetInputScript(k, connectedScript);
      var connectedPubKeyHash := PubKeyHashOf(connectedScript);
      if connectedPubKeyHash.None? {
        return Failure(NonStandardScript(k));
      }
      var key := FindKey(w.keys, connectedPubKeyHash.value);
      var anyoneCanPay := false;
      assert Value() == SigningView(t0, k, connectedScript);
      var sigHash := SignatureHash(digest, Value(), hashType, anyoneCanPay);
      SetInputScript(k, []);
      assert inputs == t0.inputs;
      if key.None? {
        return Failure(NoKey(k));
      }
      r := Success((key.value, sign(key.value, sigHash) + [SigHashCode(hashType, anyoneCanPay)]));
    }

    /** The second loop of signInputs: every input's script becomes its signature push and key push. */
    method ApplySignatures(pairs: seq<(ECKey, seq<byte>)>)
      requires |pairs| == |inputs| > 0 && Valid() && forall j :: 0 <= j < |pairs| ==> PairFits(pairs[j])
      modifies this
      ensures Value() == SignedTx(old(Value()), pairs)
      ensures hash.None? && Valid()
      ensures old(LengthExact()) ==> LengthExact()
      ensures old(length) == UNKNOWN_LENGTH ==> length == UNKNOWN_LENGTH
      ensures appearsIn == old(appearsIn) && updatedAt == old(updatedAt)
    {
      hide TxHash, Serialize, CreateInputScript;
      ghost var t0 := Value();
      var i := 0;
      while i < |pairs|
        invariant 0 <= i <= |pairs| == |inputs|
        invariant version == t0.version && outputs == t0.outputs && lockTime == t0.lockTime
        invariant forall j :: 0 <= j < i ==>
                    inputs[j] == t0.inputs[j].(scriptBytes := CreateInputScript(pairs[j].1, pairs[j].0.pubKey))
        invariant forall j :: i <= j < |inputs| ==> inputs[j] == t0.inputs[j]
        invariant Valid() && (i > 0 ==> hash.None?)
        invariant old(LengthExact()) ==> LengthExact()
        invariant old(length) == UNKNOWN_LENGTH ==> length == UNKNOWN_LENGTH
        invariant appearsIn == old(appearsIn) && updatedAt == old(updatedAt)
      {
        SetInputScript(i, CreateInputScript(pairs[i].1, pairs[i].0.pubKey));
        i := i + 1;
      }
      assert inputs == SignedTx(t0, pairs).inputs;
    }
  }
}
