# A verified model of a Bitcoin client's protocol core

This project models, in Dafny, the protocol and data-structure core of a small
Java Bitcoin client (a fork of BitcoinJ). It has four parts.

- **The transaction engine** (`Transaction.java`).
  - The wire form: version, a VarInt input count, the inputs, a VarInt output count, the outputs, the lock time.
  - The length pre-scan `calcLength` and the full reader `parse`.
  - The in-place editing operations `addInput`, `addOutput`, `setLockTime` and `unCache`, with the cached hash and the cached `length`.
  - The wallet value sums, `isCoinBase`, `isEveryOutputSpent` and `connectForReorganize`.
  - The block-appearance bookkeeping behind `getUpdateTime`.
  - The two-loop signing procedure `signInputs` and its signature-hash preimage.
- **The `addr` message** (`AddressMessage.java`): a counted list of peer addresses, capped at 1024 entries, whose cached `length` `addAddress` and `removeAddress` keep in step.
- **The peer's dispatch logic** (`Peer.java`).
  - An `inv` becomes a `getdata` or, for a "new block tickle", a `getblocks`.
  - The block locator.
  - Arriving blocks are matched against the pending `getBlock` futures.
  - The blocks-to-get arithmetic that starts the chain download.
- **The in-memory block store** (`MemoryBlockStore.java`): a map from header hash to stored block, plus a chain-head field.

## Layout

Pure parts are datatypes and functions. Parts that the Java code changes in place are classes.

| file | module | contents |
|---|---|---|
| `wrappers.dfy` | `Wrappers` | `Option` and `Result` |
| `bytes.dfy` | `Bytes` | bytes and hashes; little-endian integers; the Bitcoin VarInt (CompactSize) encoding and its reader |
| `chain.dfy` | `Chain` | block headers, stored blocks, inventory items |
| `script.dfy` | `Scripts` | the two standard scripts: pay-to-public-key-hash, and the signature-plus-key input script |
| `tx_wire.dfy` | `TxWire` | see below |
| `tx_roundtrip.dfy` | `TxRoundTrip` | reading back what was serialised |
| `wallet.dfy` | `Wallets` | the parts of the wallet and of inputs/outputs that the engine consults |
| `tx_rules.dfy` | `TxRules` | see below |
| `tx_signing.dfy` | `TxSigning` | see below |
| `transaction.dfy` | `Transactions` | `class Transaction`, whose methods update its fields |
| `address_message.dfy` | `Addresses` | see below |
| `block_store.dfy` | `BlockStores` | `class MemoryBlockStore` |
| `peer.dfy` | `Peers` | the reaction functions, `class GetDataFuture` and `class Peer` |

- `tx_wire.dfy` (`TxWire`) holds:
  - the wire layout and its serialiser;
  - the length pre-scan and the parser, each as a recursive specification plus a method with a loop proved equal to it.
- `tx_rules.dfy` (`TxRules`) holds:
  - length bookkeeping;
  - value sums;
  - input connection;
  - the earliest appearance time.
- `tx_signing.dfy` (`TxSigning`) holds:
  - the hash type;
  - the preimage;
  - the hash of a transaction;
  - what each signing step computes.
- `address_message.dfy` (`Addresses`) holds:
  - the `addr` wire form;
  - its parser;
  - the size formula;
  - the `class AddressMessage`.

### How the model stands in for what it does not include

- **Hashing and signing.** Double SHA-256 and ECDSA signing are parameters: `digest` and `sign`.
- **The network connection.** The connection is an outbox: a sequence of the messages the peer has sent.
- **The block chain.** The peer receives the chain's state as arguments: its head, its unconnected top block, and the outcome of `add`.
- **Integers.** Integers are unbounded. The Java cast of the peer's 64-bit best height to `int` is written out as `Peers.Int32`.
- **The unknown length.** `Message.UNKNOWN_LENGTH` (`Integer.MIN_VALUE`) is `Bytes.UNKNOWN_LENGTH`.

### Behaviour of the code that the model keeps

- **Locator order.** The comment at `Peer.java:389-392` lists the locator's hashes as genesis, the head's predecessor, then the head.
  - The code inserts at the front of the list, so the head comes first: `[head, prev, genesis]` (`Peer.java:395-402`).
  - Line 398 compares a hash with a `Block` object. That comparison is never true, so the predecessor is always added, even when it is genesis itself.
  - `Peers.Locator` and `Peers.LocatorRepeatsGenesis` state both facts.
- **When the download starts.** The download starts when the blocks-to-get count is `>= 0` (`Peer.java:415`), so also when the peer is exactly as high as the local chain.
- **VarInt advance.** After reading a VarInt, the readers move past `getSizeInBytes()`. `VarInt.java` is not part of this model; as in BitcoinJ, `getSizeInBytes()` is taken to be the size of the value's minimal encoding (`Transaction.java:347`, `355`, `360`, `367`). After a non-minimal encoding, they stop short of the bytes actually read. `Bytes.ReadVarInt` does the same, and `Bytes.NonMinimalVarIntAdvance` shows it.

## Model

| member | source | states |
|---|---|---|
| `Bytes.VarIntRoundTrip` | bitcointest/core/src/main/java/com/google/bitcoin/core/second/Transaction.java:345-347 | a VarInt count written in the Bitcoin encoding reads back as the same value and is consumed in exactly its encoded width (1, 3, 5 or 9 bytes) |
| `Bytes.ReadVarInt` | bitcointest/core/src/main/java/com/google/bitcoin/core/second/Transaction.java:345-347 | a VarInt is read only when the buffer holds all its bytes, and the reader then moves past at least one and at most that many bytes |
| `Bytes.NonMinimalVarIntAdvance` | bitcointest/core/src/main/java/com/google/bitcoin/core/second/Transaction.java:345-347 | a value encoded with a wider prefix than it needs is read correctly, but the reader advances only by its minimal size |
| `Bytes.ReadUint32RoundTrip` | bitcointest/core/src/main/java/com/google/bitcoin/core/second/Transaction.java:380 | a uint32 written little-endian reads back unchanged, as `readUint32` reads the version and lock time |
| `Bytes.ReverseInvolution` | bitcointest/core/src/main/java/com/google/bitcoin/core/second/Transaction.java:126-132 | reversing the byte order twice gives the original bytes; this relates the displayed hash to the digest |
| `Scripts.OutputScriptRoundTrip` | bitcointest/core/src/main/java/com/google/bitcoin/core/second/Transaction.java:530-531 | the public-key hash recovered from a standard pay-to-address script is the one it was built from |
| `Scripts.InputScriptRoundTrip` | bitcointest/core/src/main/java/com/google/bitcoin/core/second/Transaction.java:559-564 | an input script built from a signature and a public key parses back into exactly that signature and key |
| `Wallets.FindKey` | bitcointest/core/src/main/java/com/google/bitcoin/core/second/Transaction.java:531-534 | the key found is one of the wallet's keys and has the requested public-key hash; none is found exactly when no key has that hash |
| `TxWire.CalcLength` | bitcointest/core/src/main/java/com/google/bitcoin/core/second/Transaction.java:337-371 | the loop that skips the version, counts, outpoints, scripts, sequences, values and lock time returns exactly the span computed by the recursive length specification, or nothing when the buffer ends early |
| `TxWire.SkipInputsLoop` | bitcointest/core/src/main/java/com/google/bitcoin/core/second/Transaction.java:349-356 | each input step advances the cursor by 36 bytes, plus the script-length VarInt, plus the script, plus 4 bytes, in agreement with the specification |
| `TxWire.SkipOutputsLoop` | bitcointest/core/src/main/java/com/google/bitcoin/core/second/Transaction.java:362-368 | each output step advances the cursor by 8 bytes, plus the script-length VarInt, plus the script |
| `TxWire.Parse` | bitcointest/core/src/main/java/com/google/bitcoin/core/second/Transaction.java:373-401 | the reading loops return exactly the transaction and the consumed length given by the recursive parser, or nothing on truncated input |
| `TxWire.ParseOutputsAndLockTime` | bitcointest/core/src/main/java/com/google/bitcoin/core/second/Transaction.java:391-400 | after the inputs, the outputs and the lock time are read as the parser specifies, and `length` is the cursor minus the offset |
| `TxWire.ParseListLoop` | bitcointest/core/src/main/java/com/google/bitcoin/core/second/Transaction.java:384-390 | reading a counted list element by element is exactly the recursive list reader, with the cursor advanced by each element's size |
| `TxWire.ParseListFrom` | bitcointest/core/src/main/java/com/google/bitcoin/core/second/Transaction.java:386-390 | a list read successfully has exactly the declared number of elements and never moves the cursor backwards |
| `TxWire.ParseInput` | bitcointest/core/src/main/java/com/google/bitcoin/core/second/Transaction.java:387-389 | an input read from the buffer lies wholly inside it |
| `TxWire.ParseOutput` | bitcointest/core/src/main/java/com/google/bitcoin/core/second/Transaction.java:395-397 | an output read from the buffer lies wholly inside it |
| `TxWire.SerializedSize` | bitcointest/core/src/main/java/com/google/bitcoin/core/second/Transaction.java:586-595 | the serialisation's length is 4, plus the input-count VarInt, plus (36 + script VarInt + script + 4) per input, plus the output-count VarInt, plus (8 + script VarInt + script) per output, plus 4 |
| `TxWire.EmptySize` | bitcointest/core/src/main/java/com/google/bitcoin/core/second/Transaction.java:72-79 | a transaction with no inputs and no outputs serialises to 10 bytes, the `length` the constructor sets |
| `TxWire.EncodeAllAppend` | bitcointest/core/src/main/java/com/google/bitcoin/core/second/Transaction.java:590-594 | the inputs (or outputs) are written in list order, so appending an element appends its encoding |
| `TxWire.ScanAgreesWithParse` | bitcointest/core/src/main/java/com/google/bitcoin/core/second/Transaction.java:337-401 | wherever the full parser succeeds, the length pre-scan gives the same length that parse stores in `length` |
| `TxWire.AsParsedSameBytes` | bitcointest/core/src/main/java/com/google/bitcoin/core/second/Transaction.java:586-595 | forgetting what is not on the wire (connections, spent flags) does not change the serialisation |
| `TxRoundTrip.ParseSerialize` | bitcointest/core/src/main/java/com/google/bitcoin/core/second/Transaction.java:373-401 | parsing the serialisation of a well-formed transaction, wherever it sits in a buffer, gives back its version, inputs, outputs and lock time, and sets `length` to the serialised size |
| `TxRoundTrip.ScanSerialize` | bitcointest/core/src/main/java/com/google/bitcoin/core/second/Transaction.java:337-371 | the pre-scan of a serialised transaction returns the size of its serialisation |
| `TxRoundTrip.ListRoundTrip` | bitcointest/core/src/main/java/com/google/bitcoin/core/second/Transaction.java:384-398 | a list of inputs or outputs written one after another reads back element by element to the same values |
| `TxRoundTrip.ParseInputRoundTrip` | bitcointest/core/src/main/java/com/google/bitcoin/core/second/Transaction.java:387-389 | one serialised input reads back as the same outpoint hash and index, script and sequence number, consuming its encoded size |
| `TxRoundTrip.ParseOutputRoundTrip` | bitcointest/core/src/main/java/com/google/bitcoin/core/second/Transaction.java:395-397 | one serialised output reads back as the same value and script, consuming its encoded size |
| `TxRules.AppendInputSize` | bitcointest/core/src/main/java/com/google/bitcoin/core/second/Transaction.java:476-481 | appending an input grows the serialisation by that input's encoding, plus any growth of the input-count VarInt |
| `TxRules.AppendOutputSize` | bitcointest/core/src/main/java/com/google/bitcoin/core/second/Transaction.java:486-495 | appending an output grows the serialisation by that output's encoding, plus any growth of the output-count VarInt |
| `TxRules.AddInputLengthExact` | bitcointest/core/src/main/java/com/google/bitcoin/core/second/Transaction.java:476-481 | the `length` adjusted by `addInput` equals the new serialised size exactly when the input count's VarInt does not widen |
| `TxRules.AddOutputLengthExact` | bitcointest/core/src/main/java/com/google/bitcoin/core/second/Transaction.java:486-495 | the `length` adjusted by `addOutput` equals the new serialised size exactly when the output count's VarInt does not widen |
| `TxRules.AddInputAt252` | bitcointest/core/src/main/java/com/google/bitcoin/core/second/Transaction.java:476-481 | adding the 253rd input leaves the cached `length` two bytes short of the real size |
| `TxRules.ReplaceInputSize` | bitcointest/core/src/main/java/com/google/bitcoin/core/second/Transaction.java:527 | replacing one input changes the serialised size by the difference of the two inputs' encodings |
| `TxRules.SentToMeIncludeSpentAtLeast` | bitcointest/core/src/main/java/com/google/bitcoin/core/second/Transaction.java:152-162 | counting spent outputs too never gives a smaller value sent to the wallet |
| `TxRules.SentToMeAtMostTotal` | bitcointest/core/src/main/java/com/google/bitcoin/core/second/Transaction.java:152-162 | the value sent to the wallet is at most the total value of the outputs |
| `TxRules.SentToMeAllSpent` | bitcointest/core/src/main/java/com/google/bitcoin/core/second/Transaction.java:152-162 | when every output is spent, the value sent to the wallet without spent outputs is zero |
| `TxRules.InputConnection` | bitcointest/core/src/main/java/com/google/bitcoin/core/second/Transaction.java:211-215 | an input's connected output is the unspent pool's output when that pool resolves the input, else the spent pool's, else the pending pool's, and is absent exactly when no pool resolves it |
| `TxRules.SentFromMeUnresolved` | bitcointest/core/src/main/java/com/google/bitcoin/core/second/Transaction.java:204-225 | inputs that resolve in no pool contribute nothing to the value sent from the wallet |
| `TxRules.NoKeysNothingSent` | bitcointest/core/src/main/java/com/google/bitcoin/core/second/Transaction.java:152-225 | a wallet without keys owns no output, so both sums are zero |
| `TxRules.NoKeysSentToMe` | bitcointest/core/src/main/java/com/google/bitcoin/core/second/Transaction.java:152-162 | a wallet without keys receives nothing |
| `TxRules.NoKeysSentFromMe` | bitcointest/core/src/main/java/com/google/bitcoin/core/second/Transaction.java:204-225 | a wallet without keys sends nothing |
| `TxRules.Connect` | bitcointest/core/src/main/java/com/google/bitcoin/core/second/Transaction.java:245 | connecting an input reports no such transaction exactly when its outpoint does not resolve, reports already spent exactly when the output is spent, and on success marks exactly that output spent (every other output and transaction in the pool unchanged) and records the spent output as the input's connection; on failure nothing changes; only the input's connection changes |
| `TxRules.ConnectKeepsSpent` | bitcointest/core/src/main/java/com/google/bitcoin/core/second/Transaction.java:245 | connecting an input never makes a spent output available again |
| `TxRules.ConnectFrom` | bitcointest/core/src/main/java/com/google/bitcoin/core/second/Transaction.java:240-256 | the scan stops, if it stops, at an index inside the list; every input keeps its wire fields and only its connection changes; the pool keeps its transactions and their output counts |
| `TxRules.ConnectFromFailure` | bitcointest/core/src/main/java/com/google/bitcoin/core/second/Transaction.java:240-256 | the input returned by `connectForReorganize` is not a coinbase and its connection found the output already spent |
| `TxRules.ConnectFromKeepsSpent` | bitcointest/core/src/main/java/com/google/bitcoin/core/second/Transaction.java:240-256 | a reorganisation never makes a spent output available again |
| `TxRules.ConnectFromSpendsAll` | bitcointest/core/src/main/java/com/google/bitcoin/core/second/Transaction.java:240-256 | when no input fails, every non-coinbase input that resolves has its output marked spent |
| `TxRules.ConnectKeepsSerialization` | bitcointest/core/src/main/java/com/google/bitcoin/core/second/Transaction.java:240-256 | connecting inputs does not change the transaction's serialisation, so its hash and `length` stay valid |
| `TxRules.EarliestUnique` | bitcointest/core/src/main/java/com/google/bitcoin/core/second/Transaction.java:284-290 | the earliest block time of a set of appearances is unique |
| `TxRules.EarliestIsABlock` | bitcointest/core/src/main/java/com/google/bitcoin/core/second/Transaction.java:284-290 | the earliest time is the time of one of the blocks, when the set is non-empty |
| `TxSigning.SigHashCode` | bitcointest/core/src/main/java/com/google/bitcoin/core/second/Transaction.java:572-575 | the hash-type value fits a byte, its low bits are the ordinal plus one, and bit 0x80 is set exactly for anyone-can-pay |
| `TxSigning.TxHashReversed` | bitcointest/core/src/main/java/com/google/bitcoin/core/second/Transaction.java:126-132 | the transaction hash is the digest of the serialisation reversed; the signature preimage starts with that same serialisation |
| `TxSigning.PreimageReadsBack` | bitcointest/core/src/main/java/com/google/bitcoin/core/second/Transaction.java:568-583 | the signature preimage is the serialisation followed by the hash type as a little-endian uint32: it parses back to the transaction, and the four bytes after it read as the hash-type value |
| `TxSigning.InputSignature` | bitcointest/core/src/main/java/com/google/bitcoin/core/second/Transaction.java:524-551 | signing input `k` either fails at `k` (no connected output, a non-standard script, no key) or gives a key the wallet holds with a signature that fits a push |
| `TxSigning.SignaturesUpTo` | bitcointest/core/src/main/java/com/google/bitcoin/core/second/Transaction.java:523-552 | the first loop gives one signature per input, in order, or the first input at which it fails |
| `TxSigning.SignFailureStays` | bitcointest/core/src/main/java/com/google/bitcoin/core/second/Transaction.java:523-552 | once an input fails, the first loop fails with that input whatever further inputs there are |
| `TxSigning.SignStopsAt` | bitcointest/core/src/main/java/com/google/bitcoin/core/second/Transaction.java:523-552 | an input failing after all earlier inputs succeeded decides the outcome of the whole signing: that error, and the transaction left with the connected script in that input only if the script was non-standard |
| `TxSigning.SignFirstError` | bitcointest/core/src/main/java/com/google/bitcoin/core/second/Transaction.java:523-552 | the error the loop reports is the failure of its input, and every earlier input signs successfully |
| `TxSigning.SignAllSucceed` | bitcointest/core/src/main/java/com/google/bitcoin/core/second/Transaction.java:523-552 | when the loop succeeds, each recorded pair is that input's own signature |
| `TxSigning.SignedInputsRedeem` | bitcointest/core/src/main/java/com/google/bitcoin/core/second/Transaction.java:508-566 | after successful signing, each input keeps its outpoint and sequence, the outputs, version and lock time are unchanged, and the input script parses as the wallet key's signature over the signature hash of the view in which only that input carries its connected script (plus the hash-type byte), followed by that key's public key |
| `TxSigning.InputSignatureSuccess` | bitcointest/core/src/main/java/com/google/bitcoin/core/second/Transaction.java:524-551 | a successful signing step used the connected output's script, the wallet key for its public-key hash, and signed that input's signature hash followed by the ALL hash-type byte |
| `TxSigning.SigningViewIsolates` | bitcointest/core/src/main/java/com/google/bitcoin/core/second/Transaction.java:526-540 | while input `k` is hashed, it alone carries a script (the connected one) and every other input's script is empty |
| `Transactions.Transaction.constructor` | bitcointest/core/src/main/java/com/google/bitcoin/core/second/Transaction.java:72-79 | a new transaction has version 1, no inputs or outputs, lock time 0, no cached hash, and a `length` of 10 that is its exact serialised size |
| `Transactions.Transaction.GetHash` | bitcointest/core/src/main/java/com/google/bitcoin/core/second/Transaction.java:126-132 | the hash returned is the reversed double digest of the serialisation and is cached; nothing else changes |
| `Transactions.Transaction.UnCache` | bitcointest/core/src/main/java/com/google/bitcoin/core/second/Transaction.java:310-313 | the cached hash is cleared and nothing else changes |
| `Transactions.Transaction.AddInput` | bitcointest/core/src/main/java/com/google/bitcoin/core/second/Transaction.java:476-481 | the input is appended after the existing ones; the hash is cleared; `length` grows by the input's size (an unknown length stays unknown); it stays exact exactly when the count's VarInt does not widen |
| `Transactions.Transaction.AddOutput` | bitcointest/core/src/main/java/com/google/bitcoin/core/second/Transaction.java:486-495 | the output is appended after the existing ones; the hash is cleared; `length` grows by the output's size; it stays exact exactly when the count's VarInt does not widen |
| `Transactions.Transaction.SetLockTime` | bitcointest/core/src/main/java/com/google/bitcoin/core/second/Transaction.java:609-612 | the lock time is set and the hash cleared; nothing else changes, and an exact `length` stays exact |
| `Transactions.Transaction.IsCoinBase` | bitcointest/core/src/main/java/com/google/bitcoin/core/second/Transaction.java:409-412 | a transaction is coinbase exactly when its first input is; with no inputs there is no answer |
| `Transactions.Transaction.GetValueSentToMe` | bitcointest/core/src/main/java/com/google/bitcoin/core/second/Transaction.java:152-162 | the loop returns the sum of the values of the wallet's outputs, leaving out spent ones unless asked to include them |
| `Transactions.Transaction.GetValueSentFromMe` | bitcointest/core/src/main/java/com/google/bitcoin/core/second/Transaction.java:204-225 | the loop returns the sum, over inputs, of the value of the connected output found in the unspent, spent or pending pool when that output belongs to the wallet |
| `Transactions.Transaction.IsEveryOutputSpent` | bitcointest/core/src/main/java/com/google/bitcoin/core/second/Transaction.java:261-268 | the answer is true exactly when no output is available for spending |
| `Transactions.Transaction.ConnectForReorganize` | bitcointest/core/src/main/java/com/google/bitcoin/core/second/Transaction.java:240-256 | the loop connects the inputs in order, skipping coinbase inputs and unknown transactions, and returns the first input whose output was already spent; the serialisation, cached hash and `length` stay valid |
| `Transactions.Transaction.AddBlockAppearance` | bitcointest/core/src/main/java/com/google/bitcoin/core/second/Transaction.java:187-195 | the block joins the set of appearances; the update time is set to the block time in milliseconds only on the best chain and only if unset |
| `Transactions.Transaction.GetUpdateTime` | bitcointest/core/src/main/java/com/google/bitcoin/core/second/Transaction.java:274-294 | a set update time is returned unchanged; with no appearances there is none; otherwise the earliest block time times 1000 is returned and cached |
| `Transactions.Transaction.SetInputScript` | bitcointest/core/src/main/java/com/google/bitcoin/core/second/Transaction.java:527 | an input's script is replaced, the hash is cleared, and `length` changes by the size difference, so an exact length stays exact |
| `Transactions.Transaction.SignInputs` | bitcointest/core/src/main/java/com/google/bitcoin/core/second/Transaction.java:508-566 | the final error and transaction are exactly the signing outcome: on success every input script is the signature-and-key script; on a failure the transaction is left as the Java code leaves it; the hash and `length` stay valid |
| `Transactions.Transaction.ComputeSignatures` | bitcointest/core/src/main/java/com/google/bitcoin/core/second/Transaction.java:523-552 | the first loop computes, for every input in order, the same pairs as the specification, or stops at the first failing input with its outcome |
| `Transactions.Transaction.SignInput` | bitcointest/core/src/main/java/com/google/bitcoin/core/second/Transaction.java:524-551 | one step of the first loop computes the specified signature and restores the input's empty script, except on a non-standard script |
| `Transactions.Transaction.ApplySignatures` | bitcointest/core/src/main/java/com/google/bitcoin/core/second/Transaction.java:557-563 | the second loop gives each input the script built from its signature and its key's public key |
| `Addresses.EncodeAddress` | bitcointest/core/src/main/java/com/google/bitcoin/core/second/AddressMessage.java:89-91 | a well-formed address encodes to 30 bytes with the timestamp, or 26 without it |
| `Addresses.ParseAddress` | bitcointest/core/src/main/java/com/google/bitcoin/core/second/AddressMessage.java:73-77 | an address can be read exactly when the buffer holds its size from the cursor; the address read is well formed and consumes that size |
| `Addresses.ParseAddressRoundTrip` | bitcointest/core/src/main/java/com/google/bitcoin/core/second/AddressMessage.java:73-77 | an encoded address reads back as the same services, address and port, and the same time when the version carries one |
| `Addresses.ParseAddressMessage` | bitcointest/core/src/main/java/com/google/bitcoin/core/second/AddressMessage.java:67-79 | parse fails as too large exactly when the count read exceeds 1024 (before any address is read); on success it holds exactly the declared count of addresses |
| `Addresses.AddressesSize` | bitcointest/core/src/main/java/com/google/bitcoin/core/second/AddressMessage.java:88-91 | the addresses together encode to their count times the per-address size |
| `Addresses.EncodedMessageSize` | bitcointest/core/src/main/java/com/google/bitcoin/core/second/AddressMessage.java:85-104 | a serialised message is as long as `getMessageSize` computes: the VarInt size of the count plus the count times the address size for the protocol version |
| `Addresses.ParsedListEnd` | bitcointest/core/src/main/java/com/google/bitcoin/core/second/AddressMessage.java:73-77 | after reading `count` addresses, the cursor has advanced by exactly `count` address sizes |
| `Addresses.ParsedLength` | bitcointest/core/src/main/java/com/google/bitcoin/core/second/AddressMessage.java:67-79 | the `length` set by parse is the count's VarInt size plus the addresses' sizes |
| `Addresses.AddressesReadBack` | bitcointest/core/src/main/java/com/google/bitcoin/core/second/AddressMessage.java:73-77 | a list of encoded addresses reads back element by element |
| `Addresses.ParseSerializedMessage` | bitcointest/core/src/main/java/com/google/bitcoin/core/second/AddressMessage.java:67-93 | parsing a serialised message with at most 1024 addresses gives back its addresses and sets `length` to the serialised size |
| `Addresses.RejectsOversizedCount` | bitcointest/core/src/main/java/com/google/bitcoin/core/second/AddressMessage.java:68-72 | a payload declaring 1025 addresses is refused as too large, whatever follows the count |
| `Addresses.SizedExact` | bitcointest/core/src/main/java/com/google/bitcoin/core/second/AddressMessage.java:95-104 | `getMessageSize` on an unknown or exact length leaves an exact length and the same addresses |
| `Addresses.AddedLength` | bitcointest/core/src/main/java/com/google/bitcoin/core/second/AddressMessage.java:125-135 | after `addAddress` an unknown length is recomputed exactly; a known exact length stays exact exactly when the count's VarInt does not widen |
| `Addresses.RemovedLength` | bitcointest/core/src/main/java/com/google/bitcoin/core/second/AddressMessage.java:137-146 | after `removeAddress` an unknown length is recomputed exactly; a known exact length stays exact exactly when the count's VarInt does not narrow |
| `Addresses.AddThenRemoveRestores` | bitcointest/core/src/main/java/com/google/bitcoin/core/second/AddressMessage.java:125-146 | adding an address and then removing the last index restores the original list and a known `length`, and returns the added address |
| `Addresses.RemoveThenAddSameAddresses` | bitcointest/core/src/main/java/com/google/bitcoin/core/second/AddressMessage.java:125-146 | removing an in-range address and adding it back leaves the same multiset of addresses |
| `Addresses.AddressMessage.Parse` | bitcointest/core/src/main/java/com/google/bitcoin/core/second/AddressMessage.java:67-79 | the reading loop fails exactly when the specification fails, with the same error; on success the new message holds the specified addresses and `length` |
| `Addresses.AddressMessage.Serialize` | bitcointest/core/src/main/java/com/google/bitcoin/core/second/AddressMessage.java:85-93 | the loop writes the VarInt count and then every address in list order |
| `Addresses.AddressMessage.GetMessageSize` | bitcointest/core/src/main/java/com/google/bitcoin/core/second/AddressMessage.java:95-104 | a known `length` is returned as it is; an unknown one is computed from the count and the protocol version and cached |
| `Addresses.AddressMessage.AddAddress` | bitcointest/core/src/main/java/com/google/bitcoin/core/second/AddressMessage.java:125-135 | the address is appended, and `length` either grows by the address's size or is recomputed when unknown |
| `Addresses.AddressMessage.RemoveAddress` | bitcointest/core/src/main/java/com/google/bitcoin/core/second/AddressMessage.java:137-146 | the address at the index is removed and returned, the others keep their order, and `length` shrinks by the address's size or is recomputed when unknown |
| `BlockStores.MemoryBlockStore.constructor` | bitcointest/core/src/main/java/com/google/bitcoin/core/store/MemoryBlockStore.java:36-49 | the store holds exactly the genesis header, stored at height 0 with its own work, and it is the chain head |
| `BlockStores.MemoryBlockStore.Put` | bitcointest/core/src/main/java/com/google/bitcoin/core/store/MemoryBlockStore.java:51-54 | the block is stored under its header's hash, replacing any earlier entry; other entries and the chain head are unchanged |
| `BlockStores.MemoryBlockStore.Get` | bitcointest/core/src/main/java/com/google/bitcoin/core/store/MemoryBlockStore.java:56-58 | a hash never stored gives nothing; otherwise the block stored under it, whose header has that hash |
| `BlockStores.MemoryBlockStore.GetChainHead` | bitcointest/core/src/main/java/com/google/bitcoin/core/store/MemoryBlockStore.java:60-62 | the head returned is the one last set |
| `BlockStores.MemoryBlockStore.SetChainHead` | bitcointest/core/src/main/java/com/google/bitcoin/core/store/MemoryBlockStore.java:64-66 | the head is replaced and the stored blocks are untouched |
| `Peers.Int32` | bitcointest/core/src/main/java/com/google/bitcoin/core/second/Peer.java:432 | the cast to `int` keeps a value congruent modulo 2^32 inside the 32-bit range, and leaves values already in range unchanged |
| `Peers.BlockItems` | bitcointest/core/src/main/java/com/google/bitcoin/core/second/Peer.java:243-255 | the items kept are exactly the Block-type items, each as often as it occurs |
| `Peers.BlockItemsAppend` | bitcointest/core/src/main/java/com/google/bitcoin/core/second/Peer.java:243-255 | filtering keeps the original order: filtering a concatenation concatenates the filtered parts |
| `Peers.Locator` | bitcointest/core/src/main/java/com/google/bitcoin/core/second/Peer.java:383-402 | the locator has one or three entries, starts with the chain head's hash and ends with the genesis hash, and has one entry exactly when the head is genesis; a three-entry locator has the head's predecessor in the middle |
| `Peers.LocatorRepeatsGenesis` | bitcointest/core/src/main/java/com/google/bitcoin/core/second/Peer.java:395-402 | when the head's parent is genesis, genesis appears twice, because the comparison at line 398 never holds |
| `Peers.BlocksToGet` | bitcointest/core/src/main/java/com/google/bitcoin/core/second/Peer.java:430-440 | the count is -1 when the peer's height is not positive, and otherwise the peer's height minus ours; it is non-negative exactly when the peer is at least as high as us |
| `Peers.InvResponse` | bitcointest/core/src/main/java/com/google/bitcoin/core/second/Peer.java:223-256 | an `inv` causes at most one message, none when not downloading; a `getdata` holds exactly the Block items and is sent only for a non-tickle with some; a `getblocks` is sent only for a tickle and targets the unconnected top block; while downloading, a tickle always sends that `getblocks`, and any other `inv` with Block items always sends the `getdata` |
| `Peers.TickleRestartsDownload` | bitcointest/core/src/main/java/com/google/bitcoin/core/second/Peer.java:232-242 | a tickle sends one `getblocks` whose locator runs from the chain head to genesis and whose target is the unconnected top block |
| `Peers.TransactionsAreNotFetched` | bitcointest/core/src/main/java/com/google/bitcoin/core/second/Peer.java:243-255 | an `inv` of transactions only sends nothing |
| `Peers.FirstMatch` | bitcointest/core/src/main/java/com/google/bitcoin/core/second/Peer.java:183-193 | the index found is the first pending future for the block's hash, and none is found exactly when no future is for that hash |
| `Peers.GetDataFuture.constructor` | bitcointest/core/src/main/java/com/google/bitcoin/core/second/Peer.java:297-300 | a new future is for its item, with no result and not cancelled |
| `Peers.GetDataFuture.Cancel` | bitcointest/core/src/main/java/com/google/bitcoin/core/second/Peer.java:302-306 | cancelling marks the future cancelled, keeps its result and reports false |
| `Peers.GetDataFuture.IsDone` | bitcointest/core/src/main/java/com/google/bitcoin/core/second/Peer.java:312-314 | a future is done exactly when it has a result or was cancelled |
| `Peers.GetDataFuture.TryGet` | bitcointest/core/src/main/java/com/google/bitcoin/core/second/Peer.java:316-327 | the answer is the result the future holds, if any |
| `Peers.GetDataFuture.SetResult` | bitcointest/core/src/main/java/com/google/bitcoin/core/second/Peer.java:334-340 | the result is recorded; cancellation is unaffected |
| `Peers.Peer.constructor` | bitcointest/core/src/main/java/com/google/bitcoin/core/second/Peer.java:66-73 | a new peer has no pending futures, has sent nothing, downloads data and is not running |
| `Peers.Peer.BlockChainDownload` | bitcointest/core/src/main/java/com/google/bitcoin/core/second/Peer.java:352-405 | one `getblocks` with the locator and the given target is sent; no other state changes |
| `Peers.Peer.ProcessInv` | bitcointest/core/src/main/java/com/google/bitcoin/core/second/Peer.java:223-256 | the messages sent are exactly the specified reaction to the `inv`; no other state changes |
| `Peers.Peer.CollectBlockItems` | bitcointest/core/src/main/java/com/google/bitcoin/core/second/Peer.java:243-250 | the loop collects exactly the Block items in order and reports whether there were any |
| `Peers.Peer.ProcessBlock` | bitcointest/core/src/main/java/com/google/bitcoin/core/second/Peer.java:179-221 | a block that some pending future awaits goes to the first such future, which is removed while the others stay in order, and nothing is sent; otherwise an unconnected block triggers a `getblocks` towards its hash, and a linked or rejected one sends nothing; no future's cancelled flag changes, and no other future receives a result |
| `Peers.Peer.FindPending` | bitcointest/core/src/main/java/com/google/bitcoin/core/second/Peer.java:183-185 | the scan returns the index of the first pending future for the hash, or nothing when none is for it |
| `Peers.Peer.DeliverAt` | bitcointest/core/src/main/java/com/google/bitcoin/core/second/Peer.java:186-190 | the future receives the block and is removed from the pending list, the others keeping their order; nothing is sent |
| `Peers.Peer.GetBlock` | bitcointest/core/src/main/java/com/google/bitcoin/core/second/Peer.java:275-287 | a new future for the block is appended to the pending list, and a `getdata` with that single Block item is sent |
| `Peers.Peer.GetPeerBlocksToGet` | bitcointest/core/src/main/java/com/google/bitcoin/core/second/Peer.java:430-440 | the method returns the specified blocks-to-get count |
| `Peers.Peer.StartBlockChainDownload` | bitcointest/core/src/main/java/com/google/bitcoin/core/second/Peer.java:411-425 | download is switched on, and a `getblocks` to the zero hash is sent exactly when the blocks-to-get count is at least 0 |
| `Peers.Peer.Disconnect` | bitcointest/core/src/main/java/com/google/bitcoin/core/second/Peer.java:445-454 | the peer stops running and its connection is closed; pending futures, sent messages and the download flag are unchanged |

## Left out

- **The Message base class** is not part of this model: the retained byte cache, lazy parsing (`parseLite`, `maybeParse`), checksums and `bitcoinSerialize`'s caching. Its `length` field is modelled where the core files set it, and `unCache` only as clearing the cached hash.
- **Classes the core calls.** `TransactionInput`, `TransactionOutput`, `TransactionOutPoint`, `Wallet`, `Script`, `VarInt`, `PeerAddress`, `Block`, `BlockChain` and `ECKey` are not part of this model.
  - Their observable behaviour is given as functions: `Wallets`, `Scripts`, `Bytes` and the address encoding in `Addresses`.
  - `Wallets.ConnectedOutputIn` stands in for `TransactionInput.getConnectedOutput`. `Wallets.IsMine` stands in for `TransactionOutput.isMine`. `Wallets.InputIsCoinBase` stands in for `TransactionInput.isCoinBase`. These are definitions, not modelled source.
  - A peer address is taken to be an optional 4-byte time, 8 bytes of services, a 16-byte address and a big-endian 2-byte port. The address carries the message's protocol version.
- Addresses.EncodeAddress: the model writes each address's stored time. The Java serialisation writes a time taken at the moment of writing: the "dynamic time" of `AddressMessage.java:106-107`, not part of this model. So `Addresses.ParseAddressRoundTrip`, `Addresses.AddressesReadBack` and `Addresses.ParseSerializedMessage` read back the stored time, where Java would read back the clock's time.
- **Outpoint indexes.** An outpoint index past the end of the named transaction's outputs counts as not found. The Java code would throw.
- **Signed counts.** VarInt counts are read as unsigned, and the reader moves past the minimal size of the value read. Counts of 2^63 and above, which Java sees as negative `long` values, are not modelled.
- **Hashing and signing.** SHA-256, the double digest and ECDSA signing are parameters, not definitions.
- Transactions.Transaction.SignInputs: preconditions. The Java `assert` statements at `Transaction.java:509-513` and `526` are preconditions.
  - At least one input and one output, `hashType` ALL, and empty input scripts.
  - Signatures and public keys fit a two-byte data push.
  - Only SIGHASH_ALL is modelled. The other kinds are declared but unused.
- Transactions.Transaction.SignInputs: missing key. The `assert key != null` at `Transaction.java:533` is modelled with assertions disabled. The input's script is reset at line 540, and then `key.sign` fails at line 547. This is the `NoKey` error, which leaves the transaction unchanged. With assertions enabled, Java would stop at line 533 with the connected script still in the input.
- Transactions.Transaction.SignInputs: cached hash. Runtime failures are reported as a `SignError` instead of an exception. The cached hash after a failure is stated only as cleared or untouched.
- Transactions.Transaction.GetUpdateTime: overflow. The 64-bit overflow of the multiplication by 1000 is not modelled, and neither is the `Date` wrapper.
- Transactions.Transaction.GetUpdateTime: which earliest time. The value is tied to the earliest time by the `IsEarliest` predicate, not to one particular block.
- Transactions.Transaction.SetInputScript: This stands in for `TransactionInput.setScriptBytes`, whose own length bookkeeping is not part of this model. The model assumes it adjusts the parent's `length` by the size difference.
- Transactions.Transaction.AddInput: length. Like the Java code, the model does not widen `length` when the count's VarInt grows. `TxRules.AddInputLengthExact` and `TxRules.AddInputAt252` state the consequence.
- Transactions.Transaction.AddInput: building from an output. `addInput(TransactionOutput)` builds an input with the `TransactionInput` constructor, which is not part of this model.
- **Not modelled at all:** `disconnectInputs`, `broadcastTransaction`, `getAddresses`, `setChecksum`, `toString`, the plain getters, `equals`/`hashCode` and Java serialisation (`writeObject`).
- Addresses.AddressMessage.Parse: failure state. On a failed parse, Java leaves a partly filled list behind. The model returns only the error and makes no message.
- Addresses.AddressMessage.Serialize: null list. The `addresses == null` case is not modelled: a message always has a list.
- Addresses.AddressMessage.RemoveAddress: bad index. An index outside the list returns nothing and leaves the message unchanged, where Java throws `IndexOutOfBoundsException`.
- Addresses.AddThenRemoveRestores: This requires a non-negative `length`. With a length of exactly `UNKNOWN_LENGTH` minus the address size, adding would make the length read as unknown.
- **Peer concurrency and callbacks.** `synchronized` blocks, the latch wait and timeout in `GetDataFuture.get`, and the event listeners (`onBlocksDownloaded`, `onChainDownloadStarted`) are not modelled.
- **Peer I/O.** The run loop, `connect` and the network connection are not modelled. Sent messages are appended to an outbox instead.
- **Verification failures in processBlock.** Verification and script exceptions from the chain's `add` are the `Rejected` outcome, which sends nothing.
