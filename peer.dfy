/**
 * The peer session: the handling of inventory and block messages, explicit
 * block requests through one-shot futures, and the block-locator download.
 * The connection is reduced to the list of messages written to it (`outbox`),
 * and the block chain to the values the peer asks it for, passed in as
 * parameters: its chain head, its newest unconnected block, and the outcome
 * of adding a block.
 */
module Peers {
  import opened Wrappers
  import opened Bytes
  import opened Chain

  /** The messages the peer writes to its connection. */
  datatype OutMessage =
    | GetData(items: seq<InventoryItem>)
    | GetBlocks(locator: seq<Hash>, stopHash: Hash)

  /** What BlockChain.add reports: linked into the chain, not connectable yet, or rejected by an exception. */
  datatype AddOutcome = Linked | Unconnected | Rejected

  // ---------------------------------------------------------------------
  // Specification functions

  /** The (int) cast of a long: the low 32 bits, read as a signed value. */
  function Int32(v: int): (r: int)
    ensures -0x8000_0000 <= r < 0x8000_0000 && (v - r) % 0x1_0000_0000 == 0
    ensures -0x8000_0000 <= v < 0x8000_0000 ==> r == v
  {
    var low := v % 0x1_0000_0000;
    if low >= 0x8000_0000 then low - 0x1_0000_0000 else low
  }

  /** isNewBlockTickle: a single Block item naming the chain's newest unconnected block. */
  predicate IsNewBlockTickle(topHash: Option<Hash>, items: seq<InventoryItem>)
  {
    |items| == 1 && items[0].kind == BlockItem && topHash.Some? && items[0].hash == topHash.value
  }

  /** The Block items of an inventory, in their order; transaction and error items are dropped. */
  function BlockItems(items: seq<InventoryItem>): (r: seq<InventoryItem>)
    ensures |r| <= |items| && forall x <- r :: x.kind == BlockItem
    ensures forall x :: multiset(r)[x] == if x.kind == BlockItem then multiset(items)[x] else 0
  {
    if items == [] then []
    else
      var rest := BlockItems(items[1..]);
      assert items == [items[0]] + items[1..];
      if items[0].kind == BlockItem then [items[0]] + rest else rest
  }

  /** Filtering distributes over concatenation, so the Block items keep the order they arrive in. */
  lemma {:induction false} BlockItemsAppend(a: seq<InventoryItem>, b: seq<InventoryItem>)
    ensures BlockItems(a + b) == BlockItems(a) + BlockItems(b)
  {
    if a == [] {
      assert a + b == b;
    } else {
      assert (a + b)[1..] == a[1..] + b;
      BlockItemsAppend(a[1..], b);
    }
  }

  lemma BlockItemsSingle(x: InventoryItem)
    ensures BlockItems([x]) == if x.kind == BlockItem then [x] else []
  {
    assert [x][1..] == [];
  }

  /**
   * The locator of blockChainDownload: the genesis hash, and when the head is not genesis, the head's
   * predecessor and then the head in front of it. Block.equals compares hashes. Line 398 compares a hash
   * with a Block, which is never equal, so the predecessor is added even when it is genesis.
   */
  function Locator(head: Block, genesis: Block): (r: seq<Hash>)
    ensures |r| == 1 || |r| == 3
    ensures r[0] == head.hash && r[|r| - 1] == genesis.hash
    ensures |r| == 1 <==> head.hash == genesis.hash
    ensures |r| == 3 ==> r[1] == head.prevBlockHash
  {
    var locator := [genesis.hash];
    if head.hash == genesis.hash then locator
    else [head.hash] + ([head.prevBlockHash] + locator)
  }

  /** A head one block past genesis puts the genesis hash in the locator twice. */
  lemma LocatorRepeatsGenesis(head: Block, genesis: Block)
    requires head.hash != genesis.hash && head.prevBlockHash == genesis.hash
    ensures Locator(head, genesis) == [head.hash, genesis.hash, genesis.hash]
  {
  }

  /** getPeerBlocksToGet: -1 when the peer reports no positive height, else how far the peer is ahead. */
  function BlocksToGet(peerBestHeight: int, head: StoredBlock): (r: int)
    requires head.height < 0x8000_0000
    ensures Int32(peerBestHeight) <= 0 ==> r == -1
    ensures Int32(peerBestHeight) > 0 ==> r == Int32(peerBestHeight) - head.height
    ensures r >= 0 <==> 0 < Int32(peerBestHeight) && head.height <= Int32(peerBestHeight)
  {
    var chainHeight := Int32(peerBestHeight);
    if chainHeight <= 0 then -1 else chainHeight - head.height
  }

  /** What processInv writes: nothing, one getblocks for a tickle, or one getdata of the Block items. */
  function InvResponse(downloadData: bool, items: seq<InventoryItem>, topHash: Option<Hash>, head: StoredBlock, genesis: Block)
    : (r: seq<OutMessage>)
    ensures |r| <= 1
    ensures !downloadData ==> r == []
    ensures r != [] && r[0].GetData? ==> r[0].items == BlockItems(items) != [] && !IsNewBlockTickle(topHash, items)
    ensures r != [] && r[0].GetBlocks? ==> IsNewBlockTickle(topHash, items) && r[0].stopHash == topHash.value
    ensures downloadData && IsNewBlockTickle(topHash, items) ==> r == [GetBlocks(Locator(head.header, genesis), topHash.value)]
    ensures downloadData && !IsNewBlockTickle(topHash, items) && BlockItems(items) != [] ==> r == [GetData(BlockItems(items))]
  {
    if !downloadData then []
    else if IsNewBlockTickle(topHash, items) then [GetBlocks(Locator(head.header, genesis), topHash.value)]
    else if BlockItems(items) == [] then []
    else [GetData(BlockItems(items))]
  }

  /**
   * A tickle for the newest unconnected block restarts the download: one getblocks whose locator starts
   * with the chain head's hash and ends with genesis, asking up to that block.
   */
  lemma TickleRestartsDownload(top: Block, head: StoredBlock, genesis: Block)
    ensures var r := InvResponse(true, [InventoryItem(BlockItem, top.hash)], Some(top.hash), head, genesis);
            r == [GetBlocks(Locator(head.header, genesis), top.hash)]
            && r[0].locator[0] == head.header.hash && r[0].locator[|r[0].locator| - 1] == genesis.hash
  {
  }

  /** An inventory of transactions only asks for nothing. */
  lemma {:induction false} TransactionsAreNotFetched(items: seq<InventoryItem>, topHash: Option<Hash>, head: StoredBlock, genesis: Block)
    requires forall x <- items :: x.kind == TransactionItem
    ensures InvResponse(true, items, topHash, head, genesis) == []
  {
  }

  // ---------------------------------------------------------------------
  // The one-shot future

  /** GetDataFuture: the requested item and a slot for the block that answers it. */
  class GetDataFuture {
    const item: InventoryItem
    var result: Option<Block>
    var cancelled: bool

    constructor (item: InventoryItem)
      ensures this.item == item && result.None? && !cancelled
    {
      this.item := item;
      result := None;
      cancelled := false;
    }

    /** cancel: recorded, but a getdata once sent cannot be cancelled, so it always answers false. */
    method Cancel() returns (r: bool)
      modifies this
      ensures !r && cancelled && result == old(result)
    {
      cancelled := true;
      return false;
    }

    /** isDone: a result has arrived or the future was cancelled. */
    method IsDone() returns (r: bool)
      ensures r <==> result.Some? || cancelled
    {
      return result.Some? || cancelled;
    }

    /** get with a timeout: the block once it has arrived, None where the wait would time out. */
    method TryGet() returns (r: Option<Block>)
      ensures r == result
    {
      return result;
    }

    /** setResult: the block arrives and releases the waiting thread. */
    method SetResult(block: Block)
      modifies this
      ensures result == Some(block) && cancelled == old(cancelled)
    {
      result := Some(block);
    }
  }

  /** The index of the first pending request for `hash`, if any. */
  function FirstMatch(futures: seq<GetDataFuture>, hash: Hash): (r: Option<nat>)
    ensures r.Some? ==> r.value < |futures| && futures[r.value].item.hash == hash
                        && forall j :: 0 <= j < r.value ==> futures[j].item.hash != hash
    ensures r.None? <==> forall j :: 0 <= j < |futures| ==> futures[j].item.hash != hash
  {
    if futures == [] then None
    else if futures[0].item.hash == hash then Some(0)
    else match FirstMatch(futures[1..], hash)
      case None => None
      case Some(i) => Some(i + 1)
  }

  // ---------------------------------------------------------------------
  // The peer

  class Peer {
    /** pendingGetBlockFutures: the explicit block requests awaiting their block. */
    var pending: seq<GetDataFuture>
    /** The messages written to the connection, oldest first. */
    var outbox: seq<OutMessage>
    var downloadData: bool
    var running: bool
    /** Whether the connection is open; false when the peer has none. */
    var connectionOpen: bool
    /** params.genesisBlock. */
    const genesis: Block

    /** Pending requests are distinct futures, none of which has received its block. */
    predicate Valid()
      reads this, pending
    {
      (forall i, j :: 0 <= i < j < |pending| ==> pending[i] != pending[j])
      && forall f <- pending :: f.result.None?
    }

    constructor (genesis: Block, connectionOpen: bool)
      ensures pending == [] && outbox == [] && downloadData && !running
      ensures this.connectionOpen == connectionOpen && this.genesis == genesis
      ensures Valid()
    {
      pending := [];
      outbox := [];
      downloadData := true;
      running := false;
      this.connectionOpen := connectionOpen;
      this.genesis := genesis;
    }

    /** blockChainDownload(toHash): one getblocks with the locator of the chain head. */
    method BlockChainDownload(toHash: Hash, head: StoredBlock)
      modifies this
      ensures outbox == old(outbox) + [GetBlocks(Locator(head.header, genesis), toHash)]
      ensures pending == old(pending) && downloadData == old(downloadData)
      ensures running == old(running) && connectionOpen == old(connectionOpen)
    {
      var blockLocator := [genesis.hash];
      var topBlock := head.header;
      if topBlock.hash != genesis.hash {
        blockLocator := [topBlock.prevBlockHash] + blockLocator;
        blockLocator := [topBlock.hash] + blockLocator;
      }
      outbox := outbox + [GetBlocks(blockLocator, toHash)];
    }

    /**
     * processInv: ignored unless downloading; a tickle restarts the download; otherwise one getdata asks
     * for the Block items, in order, when there are any.
     */
    method ProcessInv(items: seq<InventoryItem>, unconnected: Option<Block>, head: StoredBlock)
      modifies this
      ensures var topHash := if unconnected.Some? then Some(unconnected.value.hash) else None;
              outbox == old(outbox) + InvResponse(downloadData, items, topHash, head, genesis)
      ensures pending == old(pending) && downloadData == old(downloadData)
      ensures running == old(running) && connectionOpen == old(connectionOpen)
    {
      if !downloadData {
        return;
      }
      var topHash := if unconnected.Some? then Some(unconnected.value.hash) else None;
      if IsNewBlockTickle(topHash, items) {
        BlockChainDownload(topHash.value, head);
        return;
      }
      var getdata, dirty := CollectBlockItems(items);
      if !dirty {
        return;
      }
      outbox := outbox + [GetData(getdata)];
    }

    /** The loop of processInv that copies the Block items into the getdata message. */
    static method CollectBlockItems(items: seq<InventoryItem>) returns (getdata: seq<InventoryItem>, dirty: bool)
      ensures getdata == BlockItems(items) && (dirty <==> getdata != [])
    {
      hide BlockItems;
      getdata := [];
      dirty := false;
      var i := 0;
      while i < |items|
        invariant 0 <= i <= |items|
        invariant getdata == BlockItems(items[..i])
        invariant dirty <==> getdata != []
      {
        BlockItemsAppend(items[..i], [items[i]]);
        BlockItemsSingle(items[i]);
        assert items[..i + 1] == items[..i] + [items[i]];
        if items[i].kind == BlockItem {
          getdata := getdata + [items[i]];
          dirty := true;
        }
        i := i + 1;
      }
      assert items[..i] == items;
    }

    /**
     * processBlock: a block answering a pending request goes to the first such future, which leaves the
     * list, and not to the chain. Any other block is added to the chain; one that cannot be connected yet
     * restarts the download up to it.
     */
    method ProcessBlock(m: Block, added: AddOutcome, head: StoredBlock)
      requires Valid()
      modifies this, pending
      ensures Valid() && downloadData == old(downloadData)
      ensures running == old(running) && connectionOpen == old(connectionOpen)
      ensures match FirstMatch(old(pending), m.hash)
              case Some(i) =>
                old(pending)[i].result == Some(m) && pending == old(pending)[..i] + old(pending)[i + 1..]
                && outbox == old(outbox)
              case None =>
                pending == old(pending)
                && outbox == old(outbox) + (if added == Unconnected then [GetBlocks(Locator(head.header, genesis), m.hash)] else [])
    ensures forall f <- old(pending) :: f.cancelled == old(f.cancelled)
    ensures forall j :: 0 <= j < |old(pending)| && FirstMatch(old(pending), m.hash) != Some(j) ==>
              old(pending)[j].result == old(pending[j].result)
    {
      var found := FindPending(m.hash);
      match found
      case Some(i) =>
        DeliverAt(i, m);
      case None =>
        if added == Unconnected {
          BlockChainDownload(m.hash, head);
        }
    }

    /** The scan of processBlock over the pending requests: the index of the first one for `hash`. */
    method FindPending(hash: Hash) returns (r: Option<nat>)
      ensures r == FirstMatch(pending, hash)
    {
      var i := 0;
      while i < |pending|
        invariant 0 <= i <= |pending|
        invariant forall j :: 0 <= j < i ==> pending[j].item.hash != hash
      {
        if pending[i].item.hash == hash {
          assert FirstMatch(pending, hash) == Some(i);
          return Some(i);
        }
        i := i + 1;
      }
      return None;
    }

    /** A matching block passes through the future at `i`, which leaves the pending list. */
    method DeliverAt(i: nat, m: Block)
      requires Valid() && i < |pending|
      modifies this, pending[i]
      ensures pending == old(pending)[..i] + old(pending)[i + 1..] && old(pending)[i].result == Some(m)
      ensures old(pending)[i].cancelled == old(pending[i].cancelled)
      ensures Valid() && outbox == old(outbox) && downloadData == old(downloadData)
      ensures running == old(running) && connectionOpen == old(connectionOpen)
    {
      var f := pending[i];
      f.SetResult(m);
      pending := pending[..i] + pending[i + 1..];
      assert forall g <- pending :: g in old(pending) && g != f;
    }

    /**
     * getBlock: a new future for the block is added to the pending list, then one getdata asks for that
     * block alone.
     */
    method GetBlock(blockHash: Hash) returns (future: GetDataFuture)
      requires Valid()
      modifies this
      ensures fresh(future) && future.item == InventoryItem(BlockItem, blockHash) && future.result.None?
      ensures pending == old(pending) + [future] && outbox == old(outbox) + [GetData([future.item])]
      ensures Valid() && downloadData == old(downloadData)
      ensures running == old(running) && connectionOpen == old(connectionOpen)
    {
      var inventoryItem := InventoryItem(BlockItem, blockHash);
      var getdata := [inventoryItem];
      future := new GetDataFuture(inventoryItem);
      pending := pending + [future];
      outbox := outbox + [GetData(getdata)];
    }

    /** getPeerBlocksToGet, from the bestHeight of the connection's version message, step by step; BlocksToGet specifies it. */
    method GetPeerBlocksToGet(peerBestHeight: int, head: StoredBlock) returns (r: int)
      requires head.height < 0x8000_0000
      ensures r == BlocksToGet(peerBestHeight, head)
    {
      var chainHeight := Int32(peerBestHeight);
      if chainHeight <= 0 {
        return -1;
      }
      var blocksToGet := chainHeight - head.height;
      return blocksToGet;
    }

    /** startBlockChainDownload: downloading is switched on, and the download starts when the peer is not behind. */
    method StartBlockChainDownload(peerBestHeight: int, head: StoredBlock)
      requires head.height < 0x8000_0000
      modifies this
      ensures downloadData
      ensures outbox == old(outbox) + if BlocksToGet(peerBestHeight, head) >= 0
                                      then [GetBlocks(Locator(head.header, genesis), ZERO_HASH)] else []
      ensures pending == old(pending) && running == old(running) && connectionOpen == old(connectionOpen)
    {
      downloadData := true;
      var blocksToGet := GetPeerBlocksToGet(peerBestHeight, head);
      if blocksToGet >= 0 {
        BlockChainDownload(ZERO_HASH, head);
      }
    }

    /** disconnect: the loop is told to stop and the connection, if any, is shut; it never fails. */
    method Disconnect()
      modifies this
      ensures !running && !connectionOpen
      ensures pending == old(pending) && outbox == old(outbox) && downloadData == old(downloadData)
    {
      running := false;
      if connectionOpen {
        connectionOpen := false;
      }
    }
  }
}
