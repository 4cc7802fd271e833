/**
 * The wire form of a transaction: version (uint32 LE), VarInt input count,
 * the inputs, VarInt output count, the outputs, lock time (uint32 LE).
 * An input is a 36-byte outpoint (32-byte hash, uint32 LE index), a VarInt
 * script length, the script and a uint32 LE sequence number; an output is a
 * uint64 LE value, a VarInt script length and the script.
 *
 * Besides the serialiser this module holds the two readers of
 * Transaction.java: the length pre-scan `calcLength`, which only skips
 * over scripts, and the full `parse`; each is a method with a loop proved
 * equal to a recursive specification, and the lemmas at the end relate the
 * readers to each other and to the serialiser.
 */
module TxWire {
  import opened Wrappers
  import opened Bytes

  /** A transaction output; whether it is still available for spending is wallet state, not wire data. */
  datatype TxOutput = TxOutput(value: nat, scriptBytes: seq<byte>, availableForSpending: bool)

  /**
   * The previous output an input spends. `connected` is the output it has
   * been connected to (TransactionOutPoint.fromTx), when known; it is not
   * serialised.
   */
  datatype OutPoint = OutPoint(hash: Hash, index: nat, connected: Option<TxOutput>)

  datatype TxInput = TxInput(outpoint: OutPoint, scriptBytes: seq<byte>, sequence: nat)

  /** The state of a Transaction that takes part in its wire form. */
  datatype Tx = Tx(version: nat, inputs: seq<TxInput>, outputs: seq<TxOutput>, lockTime: nat)

  const OUTPOINT_SIZE: nat := 36
  const VERSION_SIZE: nat := 4
  const SEQUENCE_SIZE: nat := 4
  const VALUE_SIZE: nat := 8
  const LOCK_TIME_SIZE: nat := 4

  // ---------------------------------------------------------------------
  // Well-formedness: every field fits the width the wire gives it

  predicate WellFormedInput(i: TxInput)
  {
    |i.outpoint.hash| == HASH_SIZE && i.outpoint.index < UINT32_LIMIT
    && |i.scriptBytes| < UINT64_LIMIT && i.sequence < UINT32_LIMIT
  }

  predicate WellFormedOutput(o: TxOutput)
  {
    o.value < UINT64_LIMIT && |o.scriptBytes| < UINT64_LIMIT
  }

  predicate WellFormed(t: Tx)
  {
    t.version < UINT32_LIMIT && t.lockTime < UINT32_LIMIT
    && |t.inputs| < UINT64_LIMIT && |t.outputs| < UINT64_LIMIT
    && (forall i <- t.inputs :: WellFormedInput(i))
    && (forall o <- t.outputs :: WellFormedOutput(o))
  }

  // ---------------------------------------------------------------------
  // Serialisation (bitcoinSerializeToStream)

  function EncodeOutPoint(o: OutPoint): seq<byte>
  {
    o.hash + ToLE(o.index, 4)
  }

  function EncodeInput(i: TxInput): seq<byte>
  {
    EncodeOutPoint(i.outpoint) + EncodeVarInt(|i.scriptBytes|) + i.scriptBytes + ToLE(i.sequence, SEQUENCE_SIZE)
  }

  function EncodeOutput(o: TxOutput): seq<byte>
  {
    ToLE(o.value, VALUE_SIZE) + EncodeVarInt(|o.scriptBytes|) + o.scriptBytes
  }

  /** The encodings of a list's elements, one after the other, as both element loops of the serialiser write them. */
  function EncodeAll<T>(enc: T -> seq<byte>, xs: seq<T>): seq<byte>
  {
    if xs == [] then [] else enc(xs[0]) + EncodeAll(enc, xs[1..])
  }

  function Serialize(t: Tx): seq<byte>
  {
    ToLE(t.version, VERSION_SIZE)
    + EncodeVarInt(|t.inputs|) + EncodeAll(EncodeInput, t.inputs)
    + EncodeVarInt(|t.outputs|) + EncodeAll(EncodeOutput, t.outputs)
    + ToLE(t.lockTime, LOCK_TIME_SIZE)
  }

  // ---------------------------------------------------------------------
  // Sizes, as the comments of calcLength count them

  function InputSize(i: TxInput): nat
  {
    OUTPOINT_SIZE + VarIntSize(|i.scriptBytes|) + |i.scriptBytes| + SEQUENCE_SIZE
  }

  function OutputSize(o: TxOutput): nat
  {
    VALUE_SIZE + VarIntSize(|o.scriptBytes|) + |o.scriptBytes|
  }

  function InputsSize(ins: seq<TxInput>): nat
  {
    if ins == [] then 0 else InputSize(ins[0]) + InputsSize(ins[1..])
  }

  function OutputsSize(outs: seq<TxOutput>): nat
  {
    if outs == [] then 0 else OutputSize(outs[0]) + OutputsSize(outs[1..])
  }

  /** version + count + inputs + count + outputs + lock time */
  function TxSize(t: Tx): nat
  {
    VERSION_SIZE + VarIntSize(|t.inputs|) + InputsSize(t.inputs)
    + VarIntSize(|t.outputs|) + OutputsSize(t.outputs) + LOCK_TIME_SIZE
  }

  lemma {:induction false} EncodeInputsSize(ins: seq<TxInput>)
    requires forall k :: 0 <= k < |ins| ==> |ins[k].outpoint.hash| == HASH_SIZE
    ensures |EncodeAll(EncodeInput, ins)| == InputsSize(ins)
  {
    if ins != [] {
      EncodeInputsSize(ins[1..]);
    }
  }

  lemma {:induction false} EncodeOutputsSize(outs: seq<TxOutput>)
    ensures |EncodeAll(EncodeOutput, outs)| == OutputsSize(outs)
  {
    if outs != [] {
      EncodeOutputsSize(outs[1..]);
    }
  }

  /** The serialised size is the sum calcLength's comments give, field by field. */
  lemma SerializedSize(t: Tx)
    requires forall k :: 0 <= k < |t.inputs| ==> |t.inputs[k].outpoint.hash| == HASH_SIZE
    ensures |Serialize(t)| == TxSize(t)
  {
    EncodeInputsSize(t.inputs);
    EncodeOutputsSize(t.outputs);
  }

  /** A transaction without inputs or outputs takes 10 bytes: two uint32 fields and two one-byte counts. */
  lemma EmptySize(version: nat, lockTime: nat)
    ensures |Serialize(Tx(version, [], [], lockTime))| == 10
  {
  }

  /** Appending an element appends its encoding (addInput and addOutput). */
  lemma {:induction false} EncodeAllAppend<T>(enc: T -> seq<byte>, xs: seq<T>, x: T)
    ensures EncodeAll(enc, xs + [x]) == EncodeAll(enc, xs) + enc(x)
  {
    if xs == [] {
      assert [x][1..] == [];
    } else {
      assert (xs + [x])[1..] == xs[1..] + [x];
      EncodeAllAppend(enc, xs[1..], x);
    }
  }

  // ---------------------------------------------------------------------
  // What parsing gives back: wire fields only

  function AsParsedInput(i: TxInput): TxInput
  {
    i.(outpoint := i.outpoint.(connected := None))
  }

  function AsParsedOutput(o: TxOutput): TxOutput
  {
    o.(availableForSpending := true)
  }

  /** `f` applied to every element, in order. */
  function MapAll<T>(f: T -> T, xs: seq<T>): (r: seq<T>)
    ensures |r| == |xs| && forall k :: 0 <= k < |xs| ==> r[k] == f(xs[k])
  {
    if xs == [] then [] else [f(xs[0])] + MapAll(f, xs[1..])
  }

  /** The transaction a fresh parse of its bytes yields: no connections, every output available. */
  function AsParsed(t: Tx): Tx
  {
    t.(inputs := MapAll(AsParsedInput, t.inputs), outputs := MapAll(AsParsedOutput, t.outputs))
  }

  /** Mapping with a function that keeps each element's encoding keeps the encoding of the list. */
  lemma {:induction false} MapAllSameBytes<T>(enc: T -> seq<byte>, f: T -> T, xs: seq<T>)
    requires forall x :: enc(f(x)) == enc(x)
    ensures EncodeAll(enc, MapAll(f, xs)) == EncodeAll(enc, xs)
  {
    if xs != [] {
      MapAllSameBytes(enc, f, xs[1..]);
      assert MapAll(f, xs)[1..] == MapAll(f, xs[1..]);
    }
  }

  /** Connections and spent flags do not reach the wire: a parsed copy serialises to the same bytes. */
  lemma AsParsedSameBytes(t: Tx)
    ensures Serialize(AsParsed(t)) == Serialize(t)
  {
    MapAllSameBytes(EncodeInput, AsParsedInput, t.inputs);
    MapAllSameBytes(EncodeOutput, AsParsedOutput, t.outputs);
  }

  // ---------------------------------------------------------------------
  // Parsing specification (Transaction.parse with TransactionInput/Output parsing)

  /** One input at `at` and the number of bytes it occupies; None where the buffer is too short. */
  function ParseInput(buf: seq<byte>, at: nat): (r: Option<(TxInput, nat)>)
    ensures r.Some? ==> at + r.value.1 <= |buf|
  {
    if at + OUTPOINT_SIZE > |buf| then None
    else
      var varint := ReadVarInt(buf, at + OUTPOINT_SIZE);
      if varint.None? then None
      else
        var (len, sz) := varint.value;
        var start := at + OUTPOINT_SIZE + sz;
        if start + len + SEQUENCE_SIZE > |buf| then None
        else
          var outpoint := OutPoint(buf[at..at + HASH_SIZE], ReadUint32(buf, at + HASH_SIZE), None);
          var input := TxInput(outpoint, buf[start..start + len], ReadUint32(buf, start + len));
          Some((input, OUTPOINT_SIZE + sz + len + SEQUENCE_SIZE))
  }

  function ParseOutput(buf: seq<byte>, at: nat): (r: Option<(TxOutput, nat)>)
    ensures r.Some? ==> at + r.value.1 <= |buf|
  {
    if at + VALUE_SIZE > |buf| then None
    else
      var varint := ReadVarInt(buf, at + VALUE_SIZE);
      if varint.None? then None
      else
        var (len, sz) := varint.value;
        var start := at + VALUE_SIZE + sz;
        if start + len > |buf| then None
        else Some((TxOutput(ReadUint64(buf, at), buf[start..start + len], true), VALUE_SIZE + sz + len))
  }

  /**
   * Reads `count` elements with `step` from `cursor`, appending them to `acc`: the element
   * loops of parse, where each element is decoded at the cursor and the cursor moves past it.
   * Gives the list and the final cursor; None as soon as one element does not fit.
   */
  function ParseListFrom<T>(step: (seq<byte>, nat) -> Option<(T, nat)>, buf: seq<byte>, cursor: nat, count: nat, acc: seq<T>)
    : (r: Option<(seq<T>, nat)>)
    ensures r.Some? ==> r.value.1 >= cursor && |r.value.0| == |acc| + count
    decreases count
  {
    if count == 0 then Some((acc, cursor))
    else
      match step(buf, cursor)
      case None => None
      case Some((elem, size)) => ParseListFrom(step, buf, cursor + size, count - 1, acc + [elem])
  }

  /** The transaction at `offset` and the number of bytes it occupies; None where the buffer is too short. */
  function ParseTx(buf: seq<byte>, offset: nat): Option<(Tx, nat)>
  {
    if offset + VERSION_SIZE > |buf| then None
    else ParseTxInputs(buf, offset, ReadUint32(buf, offset), ReadVarInt(buf, offset + VERSION_SIZE))
  }

  /** ParseTx once the version and the input count (with its size) have been read. */
  function ParseTxInputs(buf: seq<byte>, offset: nat, version: nat, count: Option<(nat, nat)>): Option<(Tx, nat)>
  {
    match count
    case None => None
    case Some((numInputs, s1)) =>
      ParseTxOutputs(buf, offset, version, ParseListFrom(ParseInput, buf, offset + VERSION_SIZE + s1, numInputs, []))
  }

  /** ParseTx once the inputs have been read. */
  function ParseTxOutputs(buf: seq<byte>, offset: nat, version: nat, inputs: Option<(seq<TxInput>, nat)>): Option<(Tx, nat)>
  {
    match inputs
    case None => None
    case Some((ins, c1)) => ParseTxOutputCount(buf, offset, version, ins, c1, ReadVarInt(buf, c1))
  }

  /** ParseTx once the inputs, up to cursor `c1`, and the output count have been read. */
  function ParseTxOutputCount(buf: seq<byte>, offset: nat, version: nat, ins: seq<TxInput>, c1: nat, count: Option<(nat, nat)>): Option<(Tx, nat)>
  {
    match count
    case None => None
    case Some((numOutputs, s2)) => ParseTxLockTime(buf, offset, version, ins, ParseListFrom(ParseOutput, buf, c1 + s2, numOutputs, []))
  }

  /** ParseTx once the outputs have been read, up to cursor `c2`: the lock time remains. */
  function ParseTxLockTime(buf: seq<byte>, offset: nat, version: nat, ins: seq<TxInput>, outputs: Option<(seq<TxOutput>, nat)>): Option<(Tx, nat)>
  {
    match outputs
    case None => None
    case Some((outs, c2)) =>
      // c2 < offset never holds on the path from ParseTx: the cursor only moves forward
      if c2 + LOCK_TIME_SIZE > |buf| || c2 < offset then None
      else Some((Tx(version, ins, outs, ReadUint32(buf, c2)), c2 + LOCK_TIME_SIZE - offset))
  }

  // ---------------------------------------------------------------------
  // Length pre-scan specification (calcLength)

  /** Skips `count` inputs from `cursor` reading only their script-length VarInts. */
  function SkipInputs(buf: seq<byte>, cursor: nat, count: nat): (r: Option<nat>)
    ensures r.Some? ==> r.value >= cursor
    decreases count
  {
    if count == 0 then Some(cursor)
    else
      match ReadVarInt(buf, cursor + OUTPOINT_SIZE)
      case None => None
      case Some((scriptLen, sz)) => SkipInputs(buf, cursor + OUTPOINT_SIZE + scriptLen + SEQUENCE_SIZE + sz, count - 1)
  }

  function SkipOutputs(buf: seq<byte>, cursor: nat, count: nat): (r: Option<nat>)
    ensures r.Some? ==> r.value >= cursor
    decreases count
  {
    if count == 0 then Some(cursor)
    else
      match ReadVarInt(buf, cursor + VALUE_SIZE)
      case None => None
      case Some((scriptLen, sz)) => SkipOutputs(buf, cursor + VALUE_SIZE + scriptLen + sz, count - 1)
  }

  function ScanLength(buf: seq<byte>, offset: nat): Option<nat>
  {
    match ReadVarInt(buf, offset + VERSION_SIZE)
    case None => None
    case Some((txInCount, s1)) =>
      match SkipInputs(buf, offset + VERSION_SIZE + s1, txInCount)
      case None => None
      case Some(c1) =>
        match ReadVarInt(buf, c1)
        case None => None
        case Some((txOutCount, s2)) =>
          match SkipOutputs(buf, c1 + s2, txOutCount)
          case None => None
          case Some(c2) => Some(c2 - offset + LOCK_TIME_SIZE)
  }

  // ---------------------------------------------------------------------
  // The two readers as the source writes them: a cursor advanced in loops

  /** Transaction.calcLength: the byte span of the transaction at `offset`, without decoding it. */
  method CalcLength(buf: seq<byte>, offset: nat) returns (r: Option<nat>)
    ensures r == ScanLength(buf, offset)
  {
    var cursor: nat := offset + VERSION_SIZE;
    var varint := ReadVarInt(buf, cursor);
    if varint.None? {
      return None;
    }
    var txInCount := varint.value.0;
    cursor := cursor + varint.value.1;
    var afterInputs := SkipInputsLoop(buf, cursor, txInCount);
    if afterInputs.None? {
      return None;
    }
    cursor := afterInputs.value;
    varint := ReadVarInt(buf, cursor);
    if varint.None? {
      return None;
    }
    var txOutCount := varint.value.0;
    cursor := cursor + varint.value.1;
    var afterOutputs := SkipOutputsLoop(buf, cursor, txOutCount);
    if afterOutputs.None? {
      return None;
    }
    cursor := afterOutputs.value;
    return Some(cursor - offset + LOCK_TIME_SIZE);
  }

  /** The input loop of calcLength: 36 outpoint bytes, the script-length VarInt, the script, 4 sequence bytes. */
  method SkipInputsLoop(buf: seq<byte>, start: nat, txInCount: nat) returns (r: Option<nat>)
    ensures r == SkipInputs(buf, start, txInCount)
  {
    var cursor: nat := start;
    var i := 0;
    while i < txInCount
      invariant 0 <= i <= txInCount && cursor >= start
      invariant SkipInputs(buf, start, txInCount) == SkipInputs(buf, cursor, txInCount - i)
    {
      cursor := cursor + OUTPOINT_SIZE;
      var varint := ReadVarInt(buf, cursor);
      if varint.None? {
        return None;
      }
      cursor := cursor + varint.value.0 + SEQUENCE_SIZE + varint.value.1;
      i := i + 1;
    }
    return Some(cursor);
  }

  /** The output loop of calcLength: 8 value bytes, the script-length VarInt, the script. */
  method SkipOutputsLoop(buf: seq<byte>, start: nat, txOutCount: nat) returns (r: Option<nat>)
    ensures r == SkipOutputs(buf, start, txOutCount)
  {
    var cursor: nat := start;
    var i := 0;
    while i < txOutCount
      invariant 0 <= i <= txOutCount && cursor >= start
      invariant SkipOutputs(buf, start, txOutCount) == SkipOutputs(buf, cursor, txOutCount - i)
    {
      cursor := cursor + VALUE_SIZE;
      var varint := ReadVarInt(buf, cursor);
      if varint.None? {
        return None;
      }
      cursor := cursor + varint.value.0 + varint.value.1;
      i := i + 1;
    }
    return Some(cursor);
  }

  /** Transaction.parse: the decoded transaction and `length`, the bytes consumed from `offset`. */
  method Parse(buf: seq<byte>, offset: nat) returns (r: Option<(Tx, nat)>)
    ensures r == ParseTx(buf, offset)
  {
    var cursor: nat := offset;
    if cursor + VERSION_SIZE > |buf| {
      return None;
    }
    var version := ReadUint32(buf, cursor);
    cursor := cursor + VERSION_SIZE;
    var varint := ReadVarInt(buf, cursor);
    if varint.None? {
      return None;
    }
    cursor := cursor + varint.value.1;
    var inputs := ParseListLoop(ParseInput, buf, cursor, varint.value.0);
    if inputs.None? {
      return None;
    }
    r := ParseOutputsAndLockTime(buf, offset, version, inputs.value.0, inputs.value.1);
  }

  /** The rest of Transaction.parse once the inputs have been read up to `cursor`. */
  method ParseOutputsAndLockTime(buf: seq<byte>, offset: nat, version: nat, inputs: seq<TxInput>, cursor: nat)
    returns (r: Option<(Tx, nat)>)
    ensures r == ParseTxOutputs(buf, offset, version, Some((inputs, cursor)))
  {
    hide ReadVarInt, ParseOutput, ParseListFrom, ReadUint32;
    var varint := ReadVarInt(buf, cursor);
    if varint.None? {
      return None;
    }
    var outputs := ParseListLoop(ParseOutput, buf, cursor + varint.value.1, varint.value.0);
    if outputs.None? {
      return None;
    }
    var end := outputs.value.1;
    if end + LOCK_TIME_SIZE > |buf| || end < offset {
      return None;
    }
    var lockTime := ReadUint32(buf, end);
    return Some((Tx(version, inputs, outputs.value.0, lockTime), end + LOCK_TIME_SIZE - offset));
  }

  /** The element loops of parse: `count` elements decoded one after the other from `start`. */
  method ParseListLoop<T>(step: (seq<byte>, nat) -> Option<(T, nat)>, buf: seq<byte>, start: nat, count: nat)
    returns (r: Option<(seq<T>, nat)>)
    ensures r == ParseListFrom(step, buf, start, count, [])
  {
    var cursor: nat := start;
    var elems: seq<T> := [];
    var i := 0;
    while i < count
      invariant 0 <= i <= count
      invariant ParseListFrom(step, buf, start, count, []) == ParseListFrom(step, buf, cursor, count - i, elems)
    {
      var elem := step(buf, cursor);
      if elem.None? {
        return None;
      }
      elems := elems + [elem.value.0];
      cursor := cursor + elem.value.1;
      i := i + 1;
    }
    return Some((elems, cursor));
  }

  // ---------------------------------------------------------------------
  // The pre-scan agrees with the parser

  /** Where the input loop of parse succeeds, the input loop of calcLength ends at the same place. */
  lemma {:induction false} SkipInputsAgrees(buf: seq<byte>, cursor: nat, count: nat, acc: seq<TxInput>)
    requires ParseListFrom(ParseInput, buf, cursor, count, acc).Some?
    ensures SkipInputs(buf, cursor, count) == Some(ParseListFrom(ParseInput, buf, cursor, count, acc).value.1)
    decreases count
  {
    hide ReadVarInt, ReadUint32, ReadUint64;
    if count > 0 {
      var (elem, size) := ParseInput(buf, cursor).value;
      SkipInputsAgrees(buf, cursor + size, count - 1, acc + [elem]);
    }
  }

  /** Where the output loop of parse succeeds, the output loop of calcLength ends at the same place. */
  lemma {:induction false} SkipOutputsAgrees(buf: seq<byte>, cursor: nat, count: nat, acc: seq<TxOutput>)
    requires ParseListFrom(ParseOutput, buf, cursor, count, acc).Some?
    ensures SkipOutputs(buf, cursor, count) == Some(ParseListFrom(ParseOutput, buf, cursor, count, acc).value.1)
    decreases count
  {
    hide ReadVarInt, ReadUint32, ReadUint64;
    if count > 0 {
      var (elem, size) := ParseOutput(buf, cursor).value;
      SkipOutputsAgrees(buf, cursor + size, count - 1, acc + [elem]);
    }
  }

  /**
   * calcLength, which reads only the counts and the script lengths, finds the same span as
   * parse wherever parse succeeds. (The converse fails: calcLength checks no bounds.)
   */
  lemma ScanAgreesWithParse(buf: seq<byte>, offset: nat)
    requires ParseTx(buf, offset).Some?
    ensures ScanLength(buf, offset) == Some(ParseTx(buf, offset).value.1)
  {
    hide SkipInputs, SkipOutputs, ParseListFrom, ParseInput, ParseOutput, ReadVarInt, ReadUint32;
    var (inCount, s1) := ReadVarInt(buf, offset + VERSION_SIZE).value;
    SkipInputsAgrees(buf, offset + VERSION_SIZE + s1, inCount, []);
    var (ins, c1) := ParseListFrom(ParseInput, buf, offset + VERSION_SIZE + s1, inCount, []).value;
    var (outCount, s2) := ReadVarInt(buf, c1).value;
    SkipOutputsAgrees(buf, c1 + s2, outCount, []);
  }
}
