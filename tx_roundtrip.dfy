/**
 * Round trips of the transaction wire format: the readers of TxWire against
 * its serialiser, element by element and for a whole transaction.
 */
module TxRoundTrip {
  import opened Wrappers
  import opened Bytes
  import opened TxWire

  /** An encoded input is read back field by field, without its connection. */
  lemma ParseInputRoundTrip(buf: seq<byte>, at: nat, x: TxInput)
    requires WellFormedInput(x) && At(buf, at, EncodeInput(x))
    ensures ParseInput(buf, at) == Some((AsParsedInput(x), |EncodeInput(x)|))
  {
    hide At, ToLE, EncodeVarInt, ReadVarInt, ReadUint32;
    var len := |x.scriptBytes|;
    var hash, index, varint, seqNo := x.outpoint.hash, ToLE(x.outpoint.index, 4), EncodeVarInt(len), ToLE(x.sequence, SEQUENCE_SIZE);
    var start := at + OUTPOINT_SIZE + |varint|;
    assert EncodeInput(x) == hash + index + varint + x.scriptBytes + seqNo;
    AtSplit(buf, at, hash + index + varint + x.scriptBytes, seqNo);
    AtSplit(buf, at, hash + index + varint, x.scriptBytes);
    AtSplit(buf, at, hash + index, varint);
    AtSplit(buf, at, hash, index);
    ReadUint32RoundTrip(buf, at + HASH_SIZE, x.outpoint.index);
    VarIntRoundTrip(buf, at + OUTPOINT_SIZE, len);
    ReadUint32RoundTrip(buf, start + len, x.sequence);
    AtSlice(buf, at, hash);
    AtSlice(buf, start, x.scriptBytes);
  }

  /** An encoded output is read back field by field, available for spending. */
  lemma ParseOutputRoundTrip(buf: seq<byte>, at: nat, x: TxOutput)
    requires WellFormedOutput(x) && At(buf, at, EncodeOutput(x))
    ensures ParseOutput(buf, at) == Some((AsParsedOutput(x), |EncodeOutput(x)|))
  {
    hide At, ToLE, EncodeVarInt, ReadVarInt, ReadUint64;
    var len := |x.scriptBytes|;
    var value, varint := ToLE(x.value, VALUE_SIZE), EncodeVarInt(len);
    var start := at + VALUE_SIZE + |varint|;
    AtSplit(buf, at, value + varint, x.scriptBytes);
    AtSplit(buf, at, value, varint);
    ReadUint64RoundTrip(buf, at, x.value);
    VarIntRoundTrip(buf, at + VALUE_SIZE, len);
    AtSlice(buf, start, x.scriptBytes);
  }

  /** `step` finds `elems` one after the other from `at`, and the last of them ends at `end`. */
  ghost predicate ReadsBack<T>(step: (seq<byte>, nat) -> Option<(T, nat)>, buf: seq<byte>, at: nat, elems: seq<T>, end: nat)
    decreases |elems|
  {
    if elems == [] then at == end
    else
      match step(buf, at)
      case None => false
      case Some((elem, size)) => elem == elems[0] && ReadsBack(step, buf, at + size, elems[1..], end)
  }

  /** A list loop of parse reads back the elements that `step` finds one after the other. */
  lemma {:induction false} ParseListReadsBack<T>(step: (seq<byte>, nat) -> Option<(T, nat)>, buf: seq<byte>, at: nat,
                                                 elems: seq<T>, end: nat, acc: seq<T>)
    requires ReadsBack(step, buf, at, elems, end)
    ensures ParseListFrom(step, buf, at, |elems|, acc) == Some((acc + elems, end))
    decreases |elems|
  {
    if elems == [] {
      assert acc + [] == acc;
    } else {
      var size := step(buf, at).value.1;
      ParseListReadsBack(step, buf, at + size, elems[1..], end, acc + [elems[0]]);
      assert acc + [elems[0]] + elems[1..] == acc + elems;
    }
  }

  /**
   * Elements encoded one after the other are read back one after the other by
   * a `step` that reads back each of them wherever it sits, as `norm(x)`.
   */
  lemma {:induction false} EncodedListReadsBack<T>(step: (seq<byte>, nat) -> Option<(T, nat)>, enc: T -> seq<byte>, norm: T -> T,
                                                   buf: seq<byte>, at: nat, xs: seq<T>)
    requires forall x, p: nat | x in xs && At(buf, p, enc(x)) :: step(buf, p) == Some((norm(x), |enc(x)|))
    requires At(buf, at, EncodeAll(enc, xs))
    ensures ReadsBack(step, buf, at, MapAll(norm, xs), at + |EncodeAll(enc, xs)|)
    decreases |xs|
  {
    if xs != [] {
      var first, rest := enc(xs[0]), EncodeAll(enc, xs[1..]);
      AtSplit(buf, at, first, rest);
      assert step(buf, at) == Some((norm(xs[0]), |first|));
      EncodedListReadsBack(step, enc, norm, buf, at + |first|, xs[1..]);
      assert MapAll(norm, xs)[1..] == MapAll(norm, xs[1..]);
    }
  }

  /** `step` reads back every element of `xs`, as `norm(x)`, wherever in `buf` its encoding sits. */
  ghost predicate ReadsEach<T>(step: (seq<byte>, nat) -> Option<(T, nat)>, enc: T -> seq<byte>, norm: T -> T,
                               buf: seq<byte>, xs: seq<T>)
  {
    forall x, p: nat | x in xs && At(buf, p, enc(x)) :: step(buf, p) == Some((norm(x), |enc(x)|))
  }

  /** A list loop of parse over elements encoded one after the other reads back each of them, as `norm(x)`. */
  lemma ListRoundTrip<T>(step: (seq<byte>, nat) -> Option<(T, nat)>, enc: T -> seq<byte>, norm: T -> T,
                         buf: seq<byte>, at: nat, xs: seq<T>)
    requires ReadsEach(step, enc, norm, buf, xs)
    requires At(buf, at, EncodeAll(enc, xs))
    ensures ParseListFrom(step, buf, at, |xs|, []) == Some((MapAll(norm, xs), at + |EncodeAll(enc, xs)|))
  {
    EncodedListReadsBack(step, enc, norm, buf, at, xs);
    ParseListReadsBack(step, buf, at, MapAll(norm, xs), at + |EncodeAll(enc, xs)|, []);
    assert [] + MapAll(norm, xs) == MapAll(norm, xs);
  }

  /** The input loop of parse reads back inputs encoded one after the other. */
  lemma InputsListRoundTrip(buf: seq<byte>, at: nat, ins: seq<TxInput>)
    requires ReadsEach(ParseInput, EncodeInput, AsParsedInput, buf, ins)
    requires At(buf, at, EncodeAll(EncodeInput, ins))
    ensures ParseListFrom(ParseInput, buf, at, |ins|, []) == Some((MapAll(AsParsedInput, ins), at + |EncodeAll(EncodeInput, ins)|))
  {
    ListRoundTrip(ParseInput, EncodeInput, AsParsedInput, buf, at, ins);
  }

  /** The input loop of parse reads back every encoded well-formed input, in order. */
  lemma InputsReadBack(buf: seq<byte>, at: nat, ins: seq<TxInput>)
    requires forall i <- ins :: WellFormedInput(i)
    requires At(buf, at, EncodeAll(EncodeInput, ins))
    ensures ParseListFrom(ParseInput, buf, at, |ins|, []) == Some((MapAll(AsParsedInput, ins), at + |EncodeAll(EncodeInput, ins)|))
  {
    InputsReadBackEverywhere(buf, ins);
    InputsListRoundTrip(buf, at, ins);
  }

  /** Each well-formed input of the list is read back wherever its encoding sits. */
  lemma InputsReadBackEverywhere(buf: seq<byte>, ins: seq<TxInput>)
    requires forall i <- ins :: WellFormedInput(i)
    ensures ReadsEach(ParseInput, EncodeInput, AsParsedInput, buf, ins)
  {
    forall x, p: nat | x in ins && At(buf, p, EncodeInput(x))
      ensures ParseInput(buf, p) == Some((AsParsedInput(x), |EncodeInput(x)|))
    {
      ParseInputRoundTrip(buf, p, x);
    }
  }

  /** The output loop of parse reads back outputs encoded one after the other. */
  lemma OutputsListRoundTrip(buf: seq<byte>, at: nat, outs: seq<TxOutput>)
    requires ReadsEach(ParseOutput, EncodeOutput, AsParsedOutput, buf, outs)
    requires At(buf, at, EncodeAll(EncodeOutput, outs))
    ensures ParseListFrom(ParseOutput, buf, at, |outs|, []) == Some((MapAll(AsParsedOutput, outs), at + |EncodeAll(EncodeOutput, outs)|))
  {
    ListRoundTrip(ParseOutput, EncodeOutput, AsParsedOutput, buf, at, outs);
  }

  /** The output loop of parse reads back every encoded well-formed output, in order. */
  lemma OutputsReadBack(buf: seq<byte>, at: nat, outs: seq<TxOutput>)
    requires forall o <- outs :: WellFormedOutput(o)
    requires At(buf, at, EncodeAll(EncodeOutput, outs))
    ensures ParseListFrom(ParseOutput, buf, at, |outs|, []) == Some((MapAll(AsParsedOutput, outs), at + |EncodeAll(EncodeOutput, outs)|))
  {
    OutputsReadBackEverywhere(buf, outs);
    OutputsListRoundTrip(buf, at, outs);
  }

  /** Each well-formed output of the list is read back wherever its encoding sits. */
  lemma OutputsReadBackEverywhere(buf: seq<byte>, outs: seq<TxOutput>)
    requires forall o <- outs :: WellFormedOutput(o)
    ensures ReadsEach(ParseOutput, EncodeOutput, AsParsedOutput, buf, outs)
  {
    forall x, p: nat | x in outs && At(buf, p, EncodeOutput(x))
      ensures ParseOutput(buf, p) == Some((AsParsedOutput(x), |EncodeOutput(x)|))
    {
      ParseOutputRoundTrip(buf, p, x);
    }
  }

  // One step of ParseTx each: the staged proofs below go through these rather
  // than letting the solver unfold the whole chain at once.

  lemma ParseTxStep(buf: seq<byte>, offset: nat)
    requires offset + VERSION_SIZE <= |buf|
    ensures ParseTx(buf, offset) == ParseTxInputs(buf, offset, ReadUint32(buf, offset), ReadVarInt(buf, offset + VERSION_SIZE))
  {
  }

  lemma ParseTxInputsStep(buf: seq<byte>, offset: nat, version: nat, count: nat, countSize: nat, atIns: nat)
    requires atIns == offset + VERSION_SIZE + countSize
    ensures ParseTxInputs(buf, offset, version, Some((count, countSize)))
         == ParseTxOutputs(buf, offset, version, ParseListFrom(ParseInput, buf, atIns, count, []))
  {
  }

  lemma ParseTxOutputsStep(buf: seq<byte>, offset: nat, version: nat, ins: seq<TxInput>, at: nat)
    ensures ParseTxOutputs(buf, offset, version, Some((ins, at))) == ParseTxOutputCount(buf, offset, version, ins, at, ReadVarInt(buf, at))
  {
  }

  lemma ParseTxOutputCountStep(buf: seq<byte>, offset: nat, version: nat, ins: seq<TxInput>, at: nat, count: nat, countSize: nat,
                                atOuts: nat)
    requires atOuts == at + countSize
    ensures ParseTxOutputCount(buf, offset, version, ins, at, Some((count, countSize)))
         == ParseTxLockTime(buf, offset, version, ins, ParseListFrom(ParseOutput, buf, atOuts, count, []))
  {
  }

  lemma ParseTxLockTimeStep(buf: seq<byte>, offset: nat, version: nat, ins: seq<TxInput>, outs: seq<TxOutput>, end: nat)
    requires offset <= end && end + LOCK_TIME_SIZE <= |buf|
    ensures ParseTxLockTime(buf, offset, version, ins, Some((outs, end)))
         == Some((Tx(version, ins, outs, ReadUint32(buf, end)), end + LOCK_TIME_SIZE - offset))
  {
  }

  /** Parse from the output count at `at` on, once the count, the outputs and the lock time are known. */
  lemma ParseTailStructure(buf: seq<byte>, offset: nat, version: nat, ins: seq<TxInput>, at: nat,
                           count: nat, countSize: nat, atOuts: nat, outs: seq<TxOutput>, end: nat, lockTime: nat)
    requires ReadVarInt(buf, at) == Some((count, countSize)) && atOuts == at + countSize
    requires ParseListFrom(ParseOutput, buf, atOuts, count, []) == Some((outs, end))
    requires offset <= end && end + LOCK_TIME_SIZE <= |buf| && ReadUint32(buf, end) == lockTime
    ensures ParseTxOutputs(buf, offset, version, Some((ins, at)))
         == Some((Tx(version, ins, outs, lockTime), end + LOCK_TIME_SIZE - offset))
  {
    ParseTxOutputsStep(buf, offset, version, ins, at);
    ParseTxOutputCountStep(buf, offset, version, ins, at, count, countSize, atOuts);
    ParseTxLockTimeStep(buf, offset, version, ins, outs, end);
  }

  /** Parse up to the output count, once the version, the input count and the inputs are known. */
  lemma ParseHeadStructure(buf: seq<byte>, offset: nat, version: nat, count: nat, countSize: nat,
                           atIns: nat, ins: seq<TxInput>, end: nat)
    requires offset + VERSION_SIZE <= |buf| && ReadUint32(buf, offset) == version
    requires ReadVarInt(buf, offset + VERSION_SIZE) == Some((count, countSize)) && atIns == offset + VERSION_SIZE + countSize
    requires ParseListFrom(ParseInput, buf, atIns, count, []) == Some((ins, end))
    ensures ParseTx(buf, offset) == ParseTxOutputs(buf, offset, version, Some((ins, end)))
  {
    ParseTxStep(buf, offset);
    ParseTxInputsStep(buf, offset, version, count, countSize, atIns);
  }

  /** Six pieces laid out one after another: each sits where the previous ones end. */
  lemma AtSixPieces(buf: seq<byte>, at: nat, a: seq<byte>, b: seq<byte>, c: seq<byte>, d: seq<byte>, e: seq<byte>, f: seq<byte>)
    requires At(buf, at, a + b + c + d + e + f)
    ensures At(buf, at, a) && At(buf, at + |a|, b) && At(buf, at + |a| + |b|, c)
    ensures At(buf, at + |a| + |b| + |c|, d) && At(buf, at + |a| + |b| + |c| + |d|, e)
    ensures At(buf, at + |a| + |b| + |c| + |d| + |e|, f)
  {
    hide At;
    AtSplit(buf, at, a + b + c + d + e, f);
    AtSplit(buf, at, a + b + c + d, e);
    AtSplit(buf, at, a + b + c, d);
    AtSplit(buf, at, a + b, c);
    AtSplit(buf, at, a, b);
  }

  /** Where each field of a serialised transaction sits, and the size of the whole. */
  lemma SerializedLayout(buf: seq<byte>, offset: nat, t: Tx, atIns: nat, atOutCount: nat, atOuts: nat, atLockTime: nat)
    requires offset + |Serialize(t)| <= |buf| && buf[offset..offset + |Serialize(t)|] == Serialize(t)
    requires atIns == offset + VERSION_SIZE + VarIntSize(|t.inputs|)
    requires atOutCount == atIns + |EncodeAll(EncodeInput, t.inputs)|
    requires atOuts == atOutCount + VarIntSize(|t.outputs|)
    requires atLockTime == atOuts + |EncodeAll(EncodeOutput, t.outputs)|
    ensures At(buf, offset, ToLE(t.version, VERSION_SIZE))
    ensures At(buf, offset + VERSION_SIZE, EncodeVarInt(|t.inputs|))
    ensures At(buf, atIns, EncodeAll(EncodeInput, t.inputs))
    ensures At(buf, atOutCount, EncodeVarInt(|t.outputs|))
    ensures At(buf, atOuts, EncodeAll(EncodeOutput, t.outputs))
    ensures At(buf, atLockTime, ToLE(t.lockTime, LOCK_TIME_SIZE))
    ensures |Serialize(t)| == atLockTime + LOCK_TIME_SIZE - offset
  {
    hide At, EncodeAll, ToLE, EncodeVarInt;
    SliceAt(buf, offset, Serialize(t));
    AtSixPieces(buf, offset, ToLE(t.version, VERSION_SIZE), EncodeVarInt(|t.inputs|), EncodeAll(EncodeInput, t.inputs),
      EncodeVarInt(|t.outputs|), EncodeAll(EncodeOutput, t.outputs), ToLE(t.lockTime, LOCK_TIME_SIZE));
  }

  /** The version, the input count and the inputs of a serialised transaction read back. */
  lemma HeadFieldsReadBack(buf: seq<byte>, offset: nat, version: nat, ins: seq<TxInput>, atIns: nat)
    requires version < UINT32_LIMIT && |ins| < UINT64_LIMIT && forall i <- ins :: WellFormedInput(i)
    requires At(buf, offset, ToLE(version, VERSION_SIZE)) && At(buf, offset + VERSION_SIZE, EncodeVarInt(|ins|))
    requires atIns == offset + VERSION_SIZE + VarIntSize(|ins|) && At(buf, atIns, EncodeAll(EncodeInput, ins))
    ensures offset + VERSION_SIZE <= |buf| && ReadUint32(buf, offset) == version
    ensures ReadVarInt(buf, offset + VERSION_SIZE) == Some((|ins|, VarIntSize(|ins|)))
    ensures ParseListFrom(ParseInput, buf, atIns, |ins|, []) == Some((MapAll(AsParsedInput, ins), atIns + |EncodeAll(EncodeInput, ins)|))
  {
    Pow256Values();
    ReadUint32RoundTrip(buf, offset, version);
    VarIntRoundTrip(buf, offset + VERSION_SIZE, |ins|);
    InputsReadBack(buf, atIns, ins);
  }

  /** The output count, the outputs and the lock time of a serialised transaction read back. */
  lemma TailFieldsReadBack(buf: seq<byte>, at: nat, outs: seq<TxOutput>, lockTime: nat, atOuts: nat, atLockTime: nat)
    requires lockTime < UINT32_LIMIT && |outs| < UINT64_LIMIT && forall o <- outs :: WellFormedOutput(o)
    requires At(buf, at, EncodeVarInt(|outs|))
    requires atOuts == at + VarIntSize(|outs|) && At(buf, atOuts, EncodeAll(EncodeOutput, outs))
    requires atLockTime == atOuts + |EncodeAll(EncodeOutput, outs)| && At(buf, atLockTime, ToLE(lockTime, LOCK_TIME_SIZE))
    ensures ReadVarInt(buf, at) == Some((|outs|, VarIntSize(|outs|)))
    ensures ParseListFrom(ParseOutput, buf, atOuts, |outs|, []) == Some((MapAll(AsParsedOutput, outs), atLockTime))
    ensures atLockTime + LOCK_TIME_SIZE <= |buf| && ReadUint32(buf, atLockTime) == lockTime
  {
    VarIntRoundTrip(buf, at, |outs|);
    OutputsReadBack(buf, atOuts, outs);
    Pow256Values();
    ReadUint32RoundTrip(buf, atLockTime, lockTime);
  }

  /** Parse over the fields of a transaction laid out one after the other from `offset`. */
  lemma ParseLaidOut(buf: seq<byte>, offset: nat, t: Tx, atIns: nat, atOutCount: nat, atOuts: nat, atLockTime: nat)
    requires WellFormed(t)
    requires atIns == offset + VERSION_SIZE + VarIntSize(|t.inputs|)
    requires atOutCount == atIns + |EncodeAll(EncodeInput, t.inputs)|
    requires atOuts == atOutCount + VarIntSize(|t.outputs|)
    requires atLockTime == atOuts + |EncodeAll(EncodeOutput, t.outputs)|
    requires At(buf, offset, ToLE(t.version, VERSION_SIZE))
    requires At(buf, offset + VERSION_SIZE, EncodeVarInt(|t.inputs|))
    requires At(buf, atIns, EncodeAll(EncodeInput, t.inputs))
    requires At(buf, atOutCount, EncodeVarInt(|t.outputs|))
    requires At(buf, atOuts, EncodeAll(EncodeOutput, t.outputs))
    requires At(buf, atLockTime, ToLE(t.lockTime, LOCK_TIME_SIZE))
    ensures ParseTx(buf, offset)
         == Some((Tx(t.version, MapAll(AsParsedInput, t.inputs), MapAll(AsParsedOutput, t.outputs), t.lockTime),
                  atLockTime + LOCK_TIME_SIZE - offset))
  {
    var ins, outs := MapAll(AsParsedInput, t.inputs), MapAll(AsParsedOutput, t.outputs);
    hide ParseTx, ParseListFrom, ParseInput, ParseOutput, At, EncodeAll;
    HeadFieldsReadBack(buf, offset, t.version, t.inputs, atIns);
    TailFieldsReadBack(buf, atOutCount, t.outputs, t.lockTime, atOuts, atLockTime);
    ParseHeadStructure(buf, offset, t.version, |t.inputs|, VarIntSize(|t.inputs|), atIns, ins, atOutCount);
    ParseTailStructure(buf, offset, t.version, ins, atOutCount, |t.outputs|, VarIntSize(|t.outputs|), atOuts, outs, atLockTime, t.lockTime);
  }

  /**
   * Parsing a serialised transaction, wherever it sits in a larger buffer,
   * gives back its wire fields and sets `length` to the serialised size.
   */
  lemma ParseSerialize(buf: seq<byte>, offset: nat, t: Tx)
    requires WellFormed(t)
    requires offset + |Serialize(t)| <= |buf| && buf[offset..offset + |Serialize(t)|] == Serialize(t)
    ensures ParseTx(buf, offset) == Some((AsParsed(t), |Serialize(t)|))
  {
    hide *;
    var atIns := offset + VERSION_SIZE + VarIntSize(|t.inputs|);
    var atOutCount := atIns + |EncodeAll(EncodeInput, t.inputs)|;
    var atOuts := atOutCount + VarIntSize(|t.outputs|);
    var atLockTime := atOuts + |EncodeAll(EncodeOutput, t.outputs)|;
    SerializedLayout(buf, offset, t, atIns, atOutCount, atOuts, atLockTime);
    ParseLaidOut(buf, offset, t, atIns, atOutCount, atOuts, atLockTime);
    AsParsedFields(buf, offset, t, atLockTime + LOCK_TIME_SIZE - offset, |Serialize(t)|);
  }

  /** The transaction ParseLaidOut gives back is `AsParsed(t)`. */
  lemma AsParsedFields(buf: seq<byte>, offset: nat, t: Tx, size: nat, serializedSize: nat)
    requires ParseTx(buf, offset)
          == Some((Tx(t.version, MapAll(AsParsedInput, t.inputs), MapAll(AsParsedOutput, t.outputs), t.lockTime), size))
    requires size == serializedSize
    ensures ParseTx(buf, offset) == Some((AsParsed(t), serializedSize))
  {
  }

  /** calcLength on a serialised well-formed transaction gives the length of its serialisation. */
  lemma ScanSerialize(buf: seq<byte>, offset: nat, t: Tx)
    requires WellFormed(t)
    requires offset + |Serialize(t)| <= |buf| && buf[offset..offset + |Serialize(t)|] == Serialize(t)
    ensures ScanLength(buf, offset) == Some(|Serialize(t)|)
  {
    ParseSerialize(buf, offset, t);
    ScanAgreesWithParse(buf, offset);
  }
}
