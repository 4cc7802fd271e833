/**
 * The value-level rules behind the Transaction object: how its cached length
 * moves when inputs and outputs are added or rewritten, the wallet sums, the
 * input connection pass run on reorganisation, and the earliest-appearance time.
 * The class in transaction.dfy is proved against these functions.
 */
module TxRules {
  import opened Wrappers
  import opened Bytes
  import opened Chain
  import opened Scripts
  import opened TxWire
  import opened Wallets

  /** Long.MAX_VALUE, the starting point of getUpdateTime's minimum. */
  const LONG_MAX: nat := 0x7FFF_FFFF_FFFF_FFFF

  /** Message.adjustLength: a known length moves by the adjustment; an unknown one stays unknown. */
  function Adjusted(length: int, adjustment: int): int
  {
    if length == UNKNOWN_LENGTH then UNKNOWN_LENGTH else length + adjustment
  }

  // ---------------------------------------------------------------------
  // The cached length under addInput, addOutput and a rewritten input script

  /** Appending an input adds its bytes, plus any widening of the input count's VarInt. */
  lemma AppendInputSize(t: Tx, x: TxInput)
    ensures |Serialize(t.(inputs := t.inputs + [x]))|
         == |Serialize(t)| + |EncodeInput(x)| + VarIntSize(|t.inputs| + 1) - VarIntSize(|t.inputs|)
  {
    EncodeAllAppend(EncodeInput, t.inputs, x);
  }

  /** Appending an output adds its bytes, plus any widening of the output count's VarInt. */
  lemma AppendOutputSize(t: Tx, x: TxOutput)
    ensures |Serialize(t.(outputs := t.outputs + [x]))|
         == |Serialize(t)| + |EncodeOutput(x)| + VarIntSize(|t.outputs| + 1) - VarIntSize(|t.outputs|)
  {
    EncodeAllAppend(EncodeOutput, t.outputs, x);
  }

  /**
   * addInput grows an exact cached length by the input's own length only, so the length stays
   * exact exactly when the input count's VarInt keeps its width.
   */
  lemma AddInputLengthExact(t: Tx, x: TxInput, length: int)
    requires length == |Serialize(t)|
    ensures Adjusted(length, |EncodeInput(x)|) == |Serialize(t.(inputs := t.inputs + [x]))|
        <==> VarIntSize(|t.inputs|) == VarIntSize(|t.inputs| + 1)
  {
    AppendInputSize(t, x);
  }

  /** The same for addOutput and the output count. */
  lemma AddOutputLengthExact(t: Tx, x: TxOutput, length: int)
    requires length == |Serialize(t)|
    ensures Adjusted(length, |EncodeOutput(x)|) == |Serialize(t.(outputs := t.outputs + [x]))|
        <==> VarIntSize(|t.outputs|) == VarIntSize(|t.outputs| + 1)
  {
    AppendOutputSize(t, x);
  }

  /** The 253rd input widens the count from one byte to three: an exact length falls two bytes short. */
  lemma AddInputAt252(t: Tx, x: TxInput, length: int)
    requires length == |Serialize(t)| && |t.inputs| == 252
    ensures Adjusted(length, |EncodeInput(x)|) + 2 == |Serialize(t.(inputs := t.inputs + [x]))|
  {
    AppendInputSize(t, x);
  }

  /** Replacing one element changes the encoding of the list by the difference of the two encodings. */
  lemma {:induction false} EncodeAllUpdateSize<T>(enc: T -> seq<byte>, xs: seq<T>, k: nat, x: T)
    requires k < |xs|
    ensures |EncodeAll(enc, xs[k := x])| + |enc(xs[k])| == |EncodeAll(enc, xs)| + |enc(x)|
    decreases k
  {
    if k == 0 {
      assert xs[k := x][1..] == xs[1..];
    } else {
      EncodeAllUpdateSize(enc, xs[1..], k - 1, x);
      assert xs[k := x][1..] == xs[1..][k - 1 := x];
    }
  }

  /** Rewriting one input (TransactionInput.setScriptBytes) changes the transaction's size by the input's change. */
  lemma ReplaceInputSize(t: Tx, k: nat, x: TxInput)
    requires k < |t.inputs|
    ensures |Serialize(t.(inputs := t.inputs[k := x]))| + |EncodeInput(t.inputs[k])| == |Serialize(t)| + |EncodeInput(x)|
  {
    EncodeAllUpdateSize(EncodeInput, t.inputs, k, x);
  }

  // ---------------------------------------------------------------------
  // Wallet sums (getValueSentToMe, getValueSentFromMe)

  /** What one output adds to getValueSentToMe. */
  function OutputValueToMe(o: TxOutput, w: Wallet, includeSpent: bool): nat
  {
    if IsMine(o, w) && (includeSpent || o.availableForSpending) then o.value else 0
  }

  /** The sum over `outs`, taken in list order as the loop does. */
  function SentToMe(outs: seq<TxOutput>, w: Wallet, includeSpent: bool): nat
  {
    if outs == [] then 0
    else SentToMe(outs[..|outs| - 1], w, includeSpent) + OutputValueToMe(outs[|outs| - 1], w, includeSpent)
  }

  /** The value of all outputs. */
  function TotalValue(outs: seq<TxOutput>): nat
  {
    if outs == [] then 0 else TotalValue(outs[..|outs| - 1]) + outs[|outs| - 1].value
  }

  /** Counting spent outputs as well never gives less. */
  lemma {:induction false} SentToMeIncludeSpentAtLeast(outs: seq<TxOutput>, w: Wallet)
    ensures SentToMe(outs, w, false) <= SentToMe(outs, w, true)
  {
    if outs != [] {
      SentToMeIncludeSpentAtLeast(outs[..|outs| - 1], w);
    }
  }

  /** What is sent to the wallet is at most what the outputs carry. */
  lemma {:induction false} SentToMeAtMostTotal(outs: seq<TxOutput>, w: Wallet, includeSpent: bool)
    ensures SentToMe(outs, w, includeSpent) <= TotalValue(outs)
  {
    if outs != [] {
      SentToMeAtMostTotal(outs[..|outs| - 1], w, includeSpent);
    }
  }

  /** When every output is spent (isEveryOutputSpent), nothing counts as sent unless spent outputs are included. */
  lemma {:induction false} SentToMeAllSpent(outs: seq<TxOutput>, w: Wallet)
    requires forall o <- outs :: !o.availableForSpending
    ensures SentToMe(outs, w, false) == 0
  {
    if outs != [] {
      assert outs[|outs| - 1] in outs;
      SentToMeAllSpent(outs[..|outs| - 1], w);
    }
  }

  /** The output an input spends, looked up in the unspent, then the spent, then the pending pool. */
  function InputConnection(i: TxInput, w: Wallet): (r: Option<TxOutput>)
    ensures r.None? <==> ConnectedOutputIn(i, w.unspent).None? && ConnectedOutputIn(i, w.spent).None?
                         && ConnectedOutputIn(i, w.pending).None?
    ensures ConnectedOutputIn(i, w.unspent).Some? ==> r == ConnectedOutputIn(i, w.unspent)
    ensures ConnectedOutputIn(i, w.unspent).None? && ConnectedOutputIn(i, w.spent).Some? ==> r == ConnectedOutputIn(i, w.spent)
    ensures ConnectedOutputIn(i, w.unspent).None? && ConnectedOutputIn(i, w.spent).None? ==> r == ConnectedOutputIn(i, w.pending)
  {
    match ConnectedOutputIn(i, w.unspent)
    case Some(o) => Some(o)
    case None =>
      match ConnectedOutputIn(i, w.spent)
      case Some(o) => Some(o)
      case None => ConnectedOutputIn(i, w.pending)
  }

  /** What one input adds to getValueSentFromMe: the value of its connected output when that output is mine. */
  function InputValueFromMe(i: TxInput, w: Wallet): nat
  {
    match InputConnection(i, w)
    case None => 0
    case Some(o) => if IsMine(o, w) then o.value else 0
  }

  function SentFromMe(ins: seq<TxInput>, w: Wallet): nat
  {
    if ins == [] then 0 else SentFromMe(ins[..|ins| - 1], w) + InputValueFromMe(ins[|ins| - 1], w)
  }

  /** Inputs that resolve in none of the three pools contribute nothing. */
  lemma {:induction false} SentFromMeUnresolved(ins: seq<TxInput>, w: Wallet)
    requires forall i <- ins :: InputConnection(i, w).None?
    ensures SentFromMe(ins, w) == 0
  {
    if ins != [] {
      assert ins[|ins| - 1] in ins;
      SentFromMeUnresolved(ins[..|ins| - 1], w);
    }
  }

  /** A wallet without keys owns no output: both sums are zero. */
  lemma {:induction false} NoKeysNothingSent(t: Tx, w: Wallet, includeSpent: bool)
    requires w.keys == []
    ensures SentToMe(t.outputs, w, includeSpent) == 0 && SentFromMe(t.inputs, w) == 0
  {
    NoKeysSentToMe(t.outputs, w, includeSpent);
    NoKeysSentFromMe(t.inputs, w);
  }

  lemma {:induction false} NoKeysSentToMe(outs: seq<TxOutput>, w: Wallet, includeSpent: bool)
    requires w.keys == []
    ensures SentToMe(outs, w, includeSpent) == 0
  {
    if outs != [] {
      NoKeysSentToMe(outs[..|outs| - 1], w, includeSpent);
    }
  }

  lemma {:induction false} NoKeysSentFromMe(ins: seq<TxInput>, w: Wallet)
    requires w.keys == []
    ensures SentFromMe(ins, w) == 0
  {
    if ins != [] {
      NoKeysSentFromMe(ins[..|ins| - 1], w);
    }
  }

  // ---------------------------------------------------------------------
  // connectForReorganize

  /** TransactionInput.ConnectionResult */
  datatype ConnectionResult = Connected | NoSuchTx | AlreadySpent

  /** The output `(h, index)` exists in `txs` and is marked spent. */
  predicate OutputSpent(txs: map<Hash, Tx>, h: Hash, index: nat)
  {
    h in txs && index < |txs[h].outputs| && !txs[h].outputs[index].availableForSpending
  }

  /** The input's outpoint names an output held in `txs`. */
  predicate Resolves(i: TxInput, txs: map<Hash, Tx>)
  {
    i.outpoint.hash in txs && i.outpoint.index < |txs[i.outpoint.hash].outputs|
  }

  /**
   * TransactionInput.connect(transactions, false): an outpoint whose transaction is absent is NoSuchTx,
   * an output already spent is AlreadySpent, and otherwise the output is marked spent and the input
   * records it as its connected output.
   */
  function Connect(i: TxInput, txs: map<Hash, Tx>): (r: (ConnectionResult, TxInput, map<Hash, Tx>))
    ensures r.2.Keys == txs.Keys && forall h <- txs :: |r.2[h].outputs| == |txs[h].outputs|
    ensures r.0 == NoSuchTx <==> !Resolves(i, txs)
    ensures r.0 == AlreadySpent <==> OutputSpent(txs, i.outpoint.hash, i.outpoint.index)
    ensures r.0 == Connected ==> OutputSpent(r.2, i.outpoint.hash, i.outpoint.index)
    ensures r.0 != Connected ==> r.1 == i && r.2 == txs
    ensures r.1 == i.(outpoint := i.outpoint.(connected := r.1.outpoint.connected))
    ensures r.0 == Connected ==>
              var (h, index) := (i.outpoint.hash, i.outpoint.index);
              h in txs && index < |txs[h].outputs|
              && r.2[h].outputs[index] == txs[h].outputs[index].(availableForSpending := false)
              && r.1.outpoint.connected == Some(r.2[h].outputs[index])
              && r.2[h] == txs[h].(outputs := r.2[h].outputs)
              && (forall j :: 0 <= j < |txs[h].outputs| && j != index ==> r.2[h].outputs[j] == txs[h].outputs[j])
              && (forall g <- txs :: g != h ==> r.2[g] == txs[g])
  {
    if !Resolves(i, txs) then (NoSuchTx, i, txs)
    else
      var tx := txs[i.outpoint.hash];
      var out := tx.outputs[i.outpoint.index];
      if !out.availableForSpending then (AlreadySpent, i, txs)
      else
        var spentOut := out.(availableForSpending := false);
        (Connected, i.(outpoint := i.outpoint.(connected := Some(spentOut))),
         txs[i.outpoint.hash := tx.(outputs := tx.outputs[i.outpoint.index := spentOut])])
  }

  /** Connecting never marks an output unspent. */
  lemma ConnectKeepsSpent(i: TxInput, txs: map<Hash, Tx>, h: Hash, index: nat)
    requires OutputSpent(txs, h, index)
    ensures OutputSpent(Connect(i, txs).2, h, index)
  {
  }

  /**
   * The loop of connectForReorganize from input `k` on: coinbase inputs are skipped, NoSuchTx is passed
   * over, and the first AlreadySpent stops the loop with that input's index. Gives the stopping index,
   * the inputs and the transactions as they are when the loop ends.
   */
  function ConnectFrom(ins: seq<TxInput>, k: nat, txs: map<Hash, Tx>): (r: (Option<nat>, seq<TxInput>, map<Hash, Tx>))
    requires k <= |ins|
    ensures |r.1| == |ins| && r.2.Keys == txs.Keys && forall h <- txs :: |r.2[h].outputs| == |txs[h].outputs|
    ensures r.0.Some? ==> k <= r.0.value < |ins|
    ensures forall j :: 0 <= j < |ins| ==> r.1[j] == ins[j].(outpoint := ins[j].outpoint.(connected := r.1[j].outpoint.connected))
    decreases |ins| - k
  {
    if k == |ins| then (None, ins, txs)
    else if InputIsCoinBase(ins[k]) then ConnectFrom(ins, k + 1, txs)
    else
      var c := Connect(ins[k], txs);
      if c.0 == AlreadySpent then (Some(k), ins, txs)
      else ConnectFrom(ins[k := c.1], k + 1, c.2)
  }

  /** Inputs that encode alike, position by position, encode alike as a list. */
  lemma {:induction false} EncodeAllPointwise<T>(enc: T -> seq<byte>, xs: seq<T>, ys: seq<T>)
    requires |xs| == |ys| && forall j :: 0 <= j < |xs| ==> enc(xs[j]) == enc(ys[j])
    ensures EncodeAll(enc, xs) == EncodeAll(enc, ys)
    decreases |xs|
  {
    if xs != [] {
      assert forall j :: 0 <= j < |xs| - 1 ==> xs[1..][j] == xs[j + 1] && ys[1..][j] == ys[j + 1];
      EncodeAllPointwise(enc, xs[1..], ys[1..]);
    }
  }

  /**
   * connectForReorganize only records connected outputs in the inputs, which the serialisation does not
   * carry: the transaction's bytes, hence its hash and length, stay the same.
   */
  lemma ConnectKeepsSerialization(t: Tx, txs: map<Hash, Tx>)
    ensures Serialize(t.(inputs := ConnectFrom(t.inputs, 0, txs).1)) == Serialize(t)
  {
    var ins := ConnectFrom(t.inputs, 0, txs).1;
    assert forall j :: 0 <= j < |ins| ==> EncodeInput(ins[j]) == EncodeInput(t.inputs[j]);
    EncodeAllPointwise(EncodeInput, ins, t.inputs);
  }

  /** The input connectForReorganize returns is not a coinbase and names an output that is already spent. */
  lemma {:induction false} ConnectFromFailure(ins: seq<TxInput>, k: nat, txs: map<Hash, Tx>)
    requires k <= |ins| && ConnectFrom(ins, k, txs).0.Some?
    ensures var (stop, ins', txs') := ConnectFrom(ins, k, txs);
            !InputIsCoinBase(ins'[stop.value]) && Connect(ins'[stop.value], txs').0 == AlreadySpent
    decreases |ins| - k
  {
    if k < |ins| {
      if InputIsCoinBase(ins[k]) {
        ConnectFromFailure(ins, k + 1, txs);
      } else {
        var (result, input, txs') := Connect(ins[k], txs);
        if result != AlreadySpent {
          ConnectFromFailure(ins[k := input], k + 1, txs');
        }
      }
    }
  }

  /** Outputs already spent stay spent through the loop. */
  lemma {:induction false} ConnectFromKeepsSpent(ins: seq<TxInput>, k: nat, txs: map<Hash, Tx>, h: Hash, index: nat)
    requires k <= |ins| && OutputSpent(txs, h, index)
    ensures OutputSpent(ConnectFrom(ins, k, txs).2, h, index)
    decreases |ins| - k
  {
    if k < |ins| {
      if InputIsCoinBase(ins[k]) {
        ConnectFromKeepsSpent(ins, k + 1, txs, h, index);
      } else {
        var (result, input, txs') := Connect(ins[k], txs);
        if result != AlreadySpent {
          ConnectKeepsSpent(ins[k], txs, h, index);
          ConnectFromKeepsSpent(ins[k := input], k + 1, txs', h, index);
        }
      }
    }
  }

  /**
   * When connectForReorganize returns null, every non-coinbase input from `k` on whose output the
   * transactions hold now finds that output marked spent.
   */
  lemma {:induction false} ConnectFromSpendsAll(ins: seq<TxInput>, k: nat, txs: map<Hash, Tx>)
    requires k <= |ins| && ConnectFrom(ins, k, txs).0.None?
    ensures forall j | k <= j < |ins| && !InputIsCoinBase(ins[j]) && Resolves(ins[j], txs) ::
              OutputSpent(ConnectFrom(ins, k, txs).2, ins[j].outpoint.hash, ins[j].outpoint.index)
    decreases |ins| - k
  {
    if k < |ins| {
      if InputIsCoinBase(ins[k]) {
        ConnectFromSpendsAll(ins, k + 1, txs);
      } else {
        var (result, input, txs') := Connect(ins[k], txs);
        var rest := ins[k := input];
        ConnectFromSpendsAll(rest, k + 1, txs');
        forall j | k <= j < |ins| && !InputIsCoinBase(ins[j]) && Resolves(ins[j], txs)
          ensures OutputSpent(ConnectFrom(ins, k, txs).2, ins[j].outpoint.hash, ins[j].outpoint.index)
        {
          if j == k {
            ConnectFromKeepsSpent(rest, k + 1, txs', ins[k].outpoint.hash, ins[k].outpoint.index);
          } else {
            assert rest[j] == ins[j];
          }
        }
      }
    }
  }

  // ---------------------------------------------------------------------
  // getUpdateTime

  function TimeOf(b: StoredBlock): nat
  {
    b.header.timeSeconds
  }

  /**
   * `e` is what getUpdateTime's loop computes over `s`: the least block time, or Long.MAX_VALUE when
   * every time exceeds it.
   */
  predicate IsEarliest(e: nat, s: set<StoredBlock>)
  {
    e <= LONG_MAX && (forall b <- s :: e <= TimeOf(b)) && (e == LONG_MAX || exists b <- s :: TimeOf(b) == e)
  }

  /** The earliest time is determined by the set. */
  lemma EarliestUnique(e1: nat, e2: nat, s: set<StoredBlock>)
    requires IsEarliest(e1, s) && IsEarliest(e2, s)
    ensures e1 == e2
  {
    if e1 != LONG_MAX {
      var b :| b in s && TimeOf(b) == e1;
      assert e2 <= e1;
    }
    if e2 != LONG_MAX {
      var b :| b in s && TimeOf(b) == e2;
      assert e1 <= e2;
    }
  }

  /** With block times below Long.MAX_VALUE, the earliest time is the time of one of the blocks. */
  lemma EarliestIsABlock(e: nat, s: set<StoredBlock>)
    requires IsEarliest(e, s) && s != {} && forall b <- s :: TimeOf(b) < LONG_MAX
    ensures exists b <- s :: TimeOf(b) == e
  {
    var b0 :| b0 in s;
    assert e <= TimeOf(b0) < LONG_MAX;
  }
}
