/**
 * The two script shapes the transaction engine produces and inspects: the
 * standard pay-to-public-key-hash output script and the input script that
 * redeems it (a signature push followed by a public-key push). Script itself
 * is not part of this model; these functions follow the standard encodings.
 */
module Scripts {
  import opened Wrappers
  import opened Bytes

  const OP_PUSHDATA1: byte := 76
  const OP_PUSHDATA2: byte := 77
  const OP_DUP: byte := 0x76
  const OP_HASH160: byte := 0xa9
  const OP_EQUALVERIFY: byte := 0x88
  const OP_CHECKSIG: byte := 0xac

  /** A key pair as the wallet stores it: the public key and its 20-byte hash (the private half stays abstract). */
  datatype ECKey = ECKey(pubKey: seq<byte>, pubKeyHash: seq<byte>)

  /** OP_DUP OP_HASH160 <20-byte hash> OP_EQUALVERIFY OP_CHECKSIG */
  function CreateOutputScript(pubKeyHash: seq<byte>): (r: seq<byte>)
    requires |pubKeyHash| == 20
    ensures |r| == 25
  {
    [OP_DUP, OP_HASH160, 20] + pubKeyHash + [OP_EQUALVERIFY, OP_CHECKSIG]
  }

  /** The public-key hash of a standard output script; None where Script.getPubKeyHash throws. */
  function PubKeyHashOf(script: seq<byte>): (r: Option<seq<byte>>)
    ensures r.Some? ==> |r.value| == 20
  {
    if |script| == 25 && script[0] == OP_DUP && script[1] == OP_HASH160 && script[2] == 20
       && script[23] == OP_EQUALVERIFY && script[24] == OP_CHECKSIG
    then Some(script[3..23])
    else None
  }

  /** PubKeyHashOf recovers the hash an output script was created for, and nothing else has that form. */
  lemma OutputScriptRoundTrip(h: seq<byte>)
    requires |h| == 20
    ensures PubKeyHashOf(CreateOutputScript(h)) == Some(h)
  {
    assert CreateOutputScript(h)[3..23] == h;
  }

  /** Script.writeBytes: a data push with the shortest length prefix. */
  function PushData(b: seq<byte>): (r: seq<byte>)
    requires |b| < 0x1_0000
    ensures |r| > |b| && r[|r| - |b|..] == b
  {
    if |b| < OP_PUSHDATA1 as int then [|b|] + b
    else if |b| < 256 then [OP_PUSHDATA1, |b|] + b
    else [OP_PUSHDATA2] + ToLE(|b|, 2) + b
  }

  /** Script.createInputScript: push the signature, then push the public key. */
  function CreateInputScript(sig: seq<byte>, pubKey: seq<byte>): seq<byte>
    requires |sig| < 0x1_0000 && |pubKey| < 0x1_0000
  {
    PushData(sig) + PushData(pubKey)
  }

  /** Reads one data push at `at`: the pushed bytes and the offset after them. */
  function ReadPush(s: seq<byte>, at: nat): Option<(seq<byte>, nat)>
  {
    if at >= |s| then None
    else
      var op := s[at];
      var header: nat := if op < OP_PUSHDATA1 then 1 else if op == OP_PUSHDATA1 then 2 else if op == OP_PUSHDATA2 then 3 else 0;
      if header == 0 || at + header > |s| then None
      else
        var len: nat := if op < OP_PUSHDATA1 then op else if op == OP_PUSHDATA1 then s[at + 1] else FromLE(s[at + 1..at + 3]);
        if at + header + len > |s| then None
        else Some((s[at + header..at + header + len], at + header + len))
  }

  /** Splits an input script into its (signature, public key) pushes, which must fill it exactly. */
  function ParseInputScript(s: seq<byte>): Option<(seq<byte>, seq<byte>)>
  {
    match ReadPush(s, 0)
    case None => None
    case Some((sig, next)) =>
      match ReadPush(s, next)
      case None => None
      case Some((pubKey, end)) => if end == |s| then Some((sig, pubKey)) else None
  }

  lemma PushRoundTrip(s: seq<byte>, at: nat, b: seq<byte>)
    requires |b| < 0x1_0000 && At(s, at, PushData(b))
    ensures ReadPush(s, at) == Some((b, at + |PushData(b)|))
  {
    var p := PushData(b);
    AtFirst(s, at, p);
    Pow256Values();
    if |b| < OP_PUSHDATA1 as int {
      AtSplit(s, at, [|b|], b);
      AtSlice(s, at + 1, b);
    } else if |b| < 256 {
      AtSplit(s, at, [OP_PUSHDATA1, |b|], b);
      AtSplit(s, at, [OP_PUSHDATA1], [|b|]);
      AtFirst(s, at + 1, [|b|]);
      AtSlice(s, at + 2, b);
    } else {
      AtSplit(s, at, [OP_PUSHDATA2] + ToLE(|b|, 2), b);
      AtSplit(s, at, [OP_PUSHDATA2], ToLE(|b|, 2));
      AtSlice(s, at + 1, ToLE(|b|, 2));
      AtSlice(s, at + 3, b);
      LERoundTrip(|b|, 2);
    }
  }

  /** An input script built by CreateInputScript parses back into the signature and key it was built from. */
  lemma InputScriptRoundTrip(sig: seq<byte>, pubKey: seq<byte>)
    requires |sig| < 0x1_0000 && |pubKey| < 0x1_0000
    ensures ParseInputScript(CreateInputScript(sig, pubKey)) == Some((sig, pubKey))
  {
    var a, b := PushData(sig), PushData(pubKey);
    var s := a + b;
    assert s == CreateInputScript(sig, pubKey);
    SliceAt(s, 0, s);
    AtSplit(s, 0, a, b);
    var mid := |a|;
    PushRoundTrip(s, 0, sig);
    PushRoundTrip(s, mid, pubKey);
    assert ReadPush(s, 0) == Some((sig, mid));
    assert ReadPush(s, mid) == Some((pubKey, |s|));
  }
}
