/**
 * Signing and hashing of a transaction, as values: the hash type byte, the
 * preimage that is digested for a signature, the transaction hash, and what
 * signInputs computes for each input. Double SHA-256 and ECDSA signing are
 * parameters (`digest`, `sign`): neither is part of this model.
 */
module TxSigning {
  import opened Wrappers
  import opened Bytes
  import opened Scripts
  import opened TxWire
  import opened TxRoundTrip
  import opened Wallets

  /** Transaction.SigHash; only SigHashAll is ever used. */
  datatype SigHash = SigHashAll | SigHashNone | SigHashSingle

  function Ordinal(h: SigHash): nat
  {
    match h
    case SigHashAll => 0
    case SigHashNone => 1
    case SigHashSingle => 2
  }

  /** The hash-type value: ordinal + 1, with bit 0x80 set for anyone-can-pay. */
  function SigHashCode(h: SigHash, anyoneCanPay: bool): (r: nat)
    ensures r < 0x100 && r % 0x80 == Ordinal(h) + 1
    ensures r >= 0x80 <==> anyoneCanPay
  {
    Ordinal(h) + 1 + (if anyoneCanPay then 0x80 else 0)
  }

  /** What hashTransactionForSignature digests: the serialisation followed by the hash type as a uint32. */
  function Preimage(t: Tx, h: SigHash, anyoneCanPay: bool): seq<byte>
  {
    Serialize(t) + ToLE(SigHashCode(h, anyoneCanPay), 4)
  }

  /** hashTransactionForSignature: the double digest of the preimage, not reversed. */
  function SignatureHash(digest: seq<byte> -> seq<byte>, t: Tx, h: SigHash, anyoneCanPay: bool): seq<byte>
  {
    digest(Preimage(t, h, anyoneCanPay))
  }

  /** getHash: the double digest of the serialisation, byte-reversed. */
  function TxHash(digest: seq<byte> -> seq<byte>, t: Tx): Hash
  {
    Reverse(digest(Serialize(t)))
  }

  /** The transaction hash and the signature digest differ in their preimage and in the reversal only. */
  lemma TxHashReversed(digest: seq<byte> -> seq<byte>, t: Tx)
    ensures Reverse(TxHash(digest, t)) == digest(Serialize(t))
    ensures Preimage(t, SigHashAll, false)[..|Serialize(t)|] == Serialize(t)
  {
    ReverseInvolution(digest(Serialize(t)));
  }

  /**
   * The preimage reads back as the transaction followed by the hash type: parsing it from the start
   * gives the transaction, and the four bytes after it give the code.
   */
  lemma PreimageReadsBack(t: Tx, h: SigHash, anyoneCanPay: bool)
    requires WellFormed(t)
    ensures var p := Preimage(t, h, anyoneCanPay);
            |p| == |Serialize(t)| + 4
            && ParseTx(p, 0) == Some((AsParsed(t), |Serialize(t)|))
            && ReadUint32(p, |Serialize(t)|) == SigHashCode(h, anyoneCanPay)
  {
    hide Serialize, ParseTx, AsParsed, At, ToLE, ReadUint32;
    var s, code := Serialize(t), ToLE(SigHashCode(h, anyoneCanPay), 4);
    var p := s + code;
    assert p[0..|s|] == s;
    ParseSerialize(p, 0, t);
    assert p[|s|..|s| + 4] == code;
    SliceAt(p, |s|, code);
    ReadUint32RoundTrip(p, |s|, SigHashCode(h, anyoneCanPay));
  }

  /** The transaction as it is hashed for input `k`: that input carries `script`, the others are as in `t`. */
  function SigningView(t: Tx, k: nat, script: seq<byte>): Tx
    requires k < |t.inputs|
  {
    t.(inputs := t.inputs[k := t.inputs[k].(scriptBytes := script)])
  }

  /** Why signInputs stops at an input, and which input. */
  datatype SignError =
    | NoConnectedOutput(index: nat)   // getConnectedPubKeyScript on an unconnected input: null dereference
    | NonStandardScript(index: nat)   // getConnectedPubKeyHash on a non-standard script: ScriptException
    | NoKey(index: nat)               // the wallet has no key for the hash: null dereference at key.sign

  /** Every signature fits a data push with room for the hash-type byte. */
  ghost predicate SignerFits(sign: (ECKey, seq<byte>) -> seq<byte>)
  {
    forall key, hash :: |sign(key, hash)| < 0xFFFF
  }

  /** Every public key of the wallet fits a data push. */
  predicate KeysFit(w: Wallet)
  {
    forall key <- w.keys :: |key.pubKey| < 0x1_0000
  }

  /** A (key, signature) pair the input script can be built from. */
  predicate PairFits(p: (ECKey, seq<byte>))
  {
    |p.0.pubKey| < 0x1_0000 && |p.1| < 0x1_0000
  }

  /**
   * The first loop of signInputs for input `k`: the connected output's script goes into the input,
   * its public-key hash selects the wallet key, and the signature is the key's signature of the
   * signature hash of that view followed by the hash-type byte.
   */
  function InputSignature(t: Tx, w: Wallet, sign: (ECKey, seq<byte>) -> seq<byte>, digest: seq<byte> -> seq<byte>, k: nat)
    : (r: Result<(ECKey, seq<byte>), SignError>)
    requires k < |t.inputs| && SignerFits(sign) && KeysFit(w)
    ensures r.Failure? ==> r.error.index == k && (r.error.NonStandardScript? ==> t.inputs[k].outpoint.connected.Some?)
    ensures r.Success? ==> r.value.0 in w.keys && PairFits(r.value)
  {
    match t.inputs[k].outpoint.connected
    case None => Failure(NoConnectedOutput(k))
    case Some(out) =>
      match PubKeyHashOf(out.scriptBytes)
      case None => Failure(NonStandardScript(k))
      case Some(pubKeyHash) =>
        match FindKey(w.keys, pubKeyHash)
        case None => Failure(NoKey(k))
        case Some(key) =>
          var hash := SignatureHash(digest, SigningView(t, k, out.scriptBytes), SigHashAll, false);
          Success((key, sign(key, hash) + [SigHashCode(SigHashAll, false)]))
  }

  /** The first loop over inputs 0..n-1: the pairs in order, or the first input that fails. */
  function SignaturesUpTo(t: Tx, w: Wallet, sign: (ECKey, seq<byte>) -> seq<byte>, digest: seq<byte> -> seq<byte>, n: nat)
    : (r: Result<seq<(ECKey, seq<byte>)>, SignError>)
    requires n <= |t.inputs| && SignerFits(sign) && KeysFit(w)
    ensures r.Success? ==> |r.value| == n && forall j :: 0 <= j < n ==> PairFits(r.value[j])
    ensures r.Failure? ==> r.error.index < n
                           && (r.error.NonStandardScript? ==> t.inputs[r.error.index].outpoint.connected.Some?)
    decreases n
  {
    if n == 0 then Success([])
    else
      match SignaturesUpTo(t, w, sign, digest, n - 1)
      case Failure(e) => Failure(e)
      case Success(pairs) =>
        match InputSignature(t, w, sign, digest, n - 1)
        case Failure(e) => Failure(e)
        case Success(p) => Success(pairs + [p])
  }

  /** The second loop: each input's script becomes the push of its signature and the push of its key. */
  function SignedTx(t: Tx, pairs: seq<(ECKey, seq<byte>)>): (r: Tx)
    requires |pairs| == |t.inputs| && forall j :: 0 <= j < |pairs| ==> PairFits(pairs[j])
  {
    t.(inputs := seq(|t.inputs|, j requires 0 <= j < |t.inputs| =>
                      assert PairFits(pairs[j]);
                      t.inputs[j].(scriptBytes := CreateInputScript(pairs[j].1, pairs[j].0.pubKey))))
  }

  /**
   * signInputs as a whole: the error it stops with, if any, and the transaction it leaves. A
   * non-standard connected script is left in its input; the other failures leave the transaction as it was.
   */
  function SignOutcome(t: Tx, w: Wallet, sign: (ECKey, seq<byte>) -> seq<byte>, digest: seq<byte> -> seq<byte>)
    : (Option<SignError>, Tx)
    requires SignerFits(sign) && KeysFit(w)
  {
    match SignaturesUpTo(t, w, sign, digest, |t.inputs|)
    case Success(pairs) => (None, SignedTx(t, pairs))
    case Failure(e) =>
      if e.NonStandardScript?
      then (Some(e), SigningView(t, e.index, t.inputs[e.index].outpoint.connected.value.scriptBytes))
      else (Some(e), t)
  }

  /** A failure before input `m` is the failure of the whole first loop. */
  lemma {:induction false} SignFailureStays(t: Tx, w: Wallet, sign: (ECKey, seq<byte>) -> seq<byte>, digest: seq<byte> -> seq<byte>, m: nat, n: nat)
    requires m <= n <= |t.inputs| && SignerFits(sign) && KeysFit(w)
    requires SignaturesUpTo(t, w, sign, digest, m).Failure?
    ensures SignaturesUpTo(t, w, sign, digest, n) == SignaturesUpTo(t, w, sign, digest, m)
    decreases n - m
  {
    hide InputSignature, PairFits;
    if m < n {
      SignFailureStays(t, w, sign, digest, m, n - 1);
    }
  }

  /** One more input signed: the first loop's pairs grow by that input's pair. */
  lemma SignaturesExtend(t: Tx, w: Wallet, sign: (ECKey, seq<byte>) -> seq<byte>, digest: seq<byte> -> seq<byte>, n: nat,
                         pairs: seq<(ECKey, seq<byte>)>, p: (ECKey, seq<byte>))
    requires n < |t.inputs| && SignerFits(sign) && KeysFit(w)
    requires SignaturesUpTo(t, w, sign, digest, n) == Success(pairs)
    requires InputSignature(t, w, sign, digest, n) == Success(p)
    ensures SignaturesUpTo(t, w, sign, digest, n + 1) == Success(pairs + [p])
  {
    hide InputSignature, PairFits;
  }

  /**
   * Input `n` is the first that cannot be signed: signInputs stops there with its error, leaving the
   * connected script in the input when that script is not standard and the transaction as it was otherwise.
   */
  lemma SignStopsAt(t: Tx, w: Wallet, sign: (ECKey, seq<byte>) -> seq<byte>, digest: seq<byte> -> seq<byte>, n: nat)
    requires n < |t.inputs| && SignerFits(sign) && KeysFit(w)
    requires SignaturesUpTo(t, w, sign, digest, n).Success?
    requires InputSignature(t, w, sign, digest, n).Failure?
    ensures var e := InputSignature(t, w, sign, digest, n).error;
            SignOutcome(t, w, sign, digest)
            == (Some(e), if e.NonStandardScript? then SigningView(t, n, t.inputs[n].outpoint.connected.value.scriptBytes) else t)
  {
    hide InputSignature, PairFits;
    SignFailureStays(t, w, sign, digest, n + 1, |t.inputs|);
  }

  /** The error signInputs reports is the first input that cannot be signed: every earlier input can. */
  lemma {:induction false} SignFirstError(t: Tx, w: Wallet, sign: (ECKey, seq<byte>) -> seq<byte>, digest: seq<byte> -> seq<byte>, n: nat)
    requires n <= |t.inputs| && SignerFits(sign) && KeysFit(w)
    requires SignaturesUpTo(t, w, sign, digest, n).Failure?
    ensures var e := SignaturesUpTo(t, w, sign, digest, n).error;
            InputSignature(t, w, sign, digest, e.index) == Failure(e)
            && forall j :: 0 <= j < e.index ==> InputSignature(t, w, sign, digest, j).Success?
    decreases n
  {
    hide InputSignature, PairFits;
    if SignaturesUpTo(t, w, sign, digest, n - 1).Failure? {
      SignFirstError(t, w, sign, digest, n - 1);
    } else {
      SignAllSucceed(t, w, sign, digest, n - 1);
    }
  }

  /** When the first loop completes, each pair is what InputSignature gives for its input. */
  lemma {:induction false} SignAllSucceed(t: Tx, w: Wallet, sign: (ECKey, seq<byte>) -> seq<byte>, digest: seq<byte> -> seq<byte>, n: nat)
    requires n <= |t.inputs| && SignerFits(sign) && KeysFit(w)
    requires SignaturesUpTo(t, w, sign, digest, n).Success?
    ensures var pairs := SignaturesUpTo(t, w, sign, digest, n).value;
            forall j :: 0 <= j < n ==> InputSignature(t, w, sign, digest, j) == Success(pairs[j])
    decreases n
  {
    hide InputSignature, PairFits;
    if n > 0 {
      SignAllSucceed(t, w, sign, digest, n - 1);
    }
  }

  /**
   * After a successful signInputs every input redeems its connected output: its script parses into
   * the wallet key's signature over the signing view (with the SIGHASH_ALL byte appended) and that
   * key's public key, whose hash is the one the connected script pays. Outpoints, sequences, outputs,
   * version and lock time are unchanged.
   */
  lemma SignedInputsRedeem(t: Tx, w: Wallet, sign: (ECKey, seq<byte>) -> seq<byte>, digest: seq<byte> -> seq<byte>, j: nat)
    requires SignerFits(sign) && KeysFit(w) && j < |t.inputs|
    requires SignOutcome(t, w, sign, digest).0.None?
    ensures var t' := SignOutcome(t, w, sign, digest).1;
            |t'.inputs| == |t.inputs| && t'.outputs == t.outputs && t'.version == t.version && t'.lockTime == t.lockTime
            && t'.inputs[j].outpoint == t.inputs[j].outpoint && t'.inputs[j].sequence == t.inputs[j].sequence
    ensures t.inputs[j].outpoint.connected.Some?
    ensures var script := t.inputs[j].outpoint.connected.value.scriptBytes;
            PubKeyHashOf(script).Some? && FindKey(w.keys, PubKeyHashOf(script).value).Some?
            && var key := FindKey(w.keys, PubKeyHashOf(script).value).value;
               var sig := sign(key, SignatureHash(digest, SigningView(t, j, script), SigHashAll, false)) + [1];
               key.pubKeyHash == PubKeyHashOf(script).value
               && ParseInputScript(SignOutcome(t, w, sign, digest).1.inputs[j].scriptBytes) == Some((sig, key.pubKey))
  {
    hide Serialize, ParseInputScript, CreateInputScript, SignatureHash, PubKeyHashOf, FindKey;
    var pairs := SignaturesUpTo(t, w, sign, digest, |t.inputs|).value;
    assert SignOutcome(t, w, sign, digest).1 == SignedTx(t, pairs);
    SignAllSucceed(t, w, sign, digest, |t.inputs|);
    InputSignatureSuccess(t, w, sign, digest, j, pairs[j]);
    InputScriptRoundTrip(pairs[j].1, pairs[j].0.pubKey);
  }

  /** What a successful InputSignature consists of. */
  lemma InputSignatureSuccess(t: Tx, w: Wallet, sign: (ECKey, seq<byte>) -> seq<byte>, digest: seq<byte> -> seq<byte>, k: nat,
                              p: (ECKey, seq<byte>))
    requires k < |t.inputs| && SignerFits(sign) && KeysFit(w)
    requires InputSignature(t, w, sign, digest, k) == Success(p)
    ensures t.inputs[k].outpoint.connected.Some?
    ensures var script := t.inputs[k].outpoint.connected.value.scriptBytes;
            PubKeyHashOf(script).Some? && FindKey(w.keys, PubKeyHashOf(script).value) == Some(p.0)
            && p.1 == sign(p.0, SignatureHash(digest, SigningView(t, k, script), SigHashAll, false)) + [1]
            && p.0.pubKeyHash == PubKeyHashOf(script).value && PairFits(p)
  {
    hide Serialize, SignatureHash, PubKeyHashOf;
  }

  /** While an input is hashed, it alone carries a script when every input was empty before. */
  lemma SigningViewIsolates(t: Tx, k: nat, script: seq<byte>)
    requires k < |t.inputs| && forall i <- t.inputs :: i.scriptBytes == []
    ensures var v := SigningView(t, k, script);
            |v.inputs| == |t.inputs| && v.inputs[k].scriptBytes == script
            && forall m :: 0 <= m < |v.inputs| && m != k ==> v.inputs[m].scriptBytes == []
  {
    forall m | 0 <= m < |t.inputs| && m != k
      ensures SigningView(t, k, script).inputs[m].scriptBytes == []
    {
      assert t.inputs[m] in t.inputs;
    }
  }
}
