/**
 * MemoryBlockStore: stored blocks kept in a map keyed by header hash, and a
 * chain-head field. Construction stores the genesis header at height 0 and
 * makes it the head.
 */
module BlockStores {
  import opened Wrappers
  import opened Bytes
  import opened Chain

  /** The genesis header as stored: its own work is the whole chain work, at height 0. */
  function StoredGenesis(genesis: Block): StoredBlock
  {
    StoredBlock(genesis, genesis.work, 0)
  }

  class MemoryBlockStore {
    var blockMap: map<Hash, StoredBlock>
    var chainHead: StoredBlock

    /** Every block is stored under its own header's hash. */
    predicate Valid()
      reads this
    {
      forall h <- blockMap :: blockMap[h].header.hash == h
    }

    /** MemoryBlockStore(params): the genesis header, stored and made the chain head. */
    constructor (genesis: Block)
      ensures blockMap == map[genesis.hash := StoredGenesis(genesis)]
      ensures chainHead == StoredGenesis(genesis) && chainHead.height == 0 && chainHead.header == genesis
      ensures Valid()
    {
      var storedGenesis := StoredGenesis(genesis);
      blockMap := map[];
      chainHead := storedGenesis;
      new;
      Put(storedGenesis);
      SetChainHead(storedGenesis);
    }

    /** put: the block goes under its header's hash, replacing any entry there; nothing else changes. */
    method Put(block: StoredBlock)
      requires Valid()
      modifies this
      ensures blockMap == old(blockMap)[block.header.hash := block] && chainHead == old(chainHead)
      ensures Valid()
    {
      var hash := block.header.hash;
      blockMap := blockMap[hash := block];
    }

    /** get: the block stored under `hash`, or None (null) for a hash never put. */
    method Get(hash: Hash) returns (r: Option<StoredBlock>)
      requires Valid()
      ensures r.None? <==> hash !in blockMap
      ensures r.Some? ==> r.value == blockMap[hash] && r.value.header.hash == hash
    {
      if hash in blockMap {
        return Some(blockMap[hash]);
      }
      return None;
    }

    /** getChainHead: the block last given to setChainHead. */
    method GetChainHead() returns (r: StoredBlock)
      ensures r == chainHead
    {
      return chainHead;
    }

    /** setChainHead: the head is replaced; the stored blocks are not touched. */
    method SetChainHead(head: StoredBlock)
      modifies this
      ensures chainHead == head && blockMap == old(blockMap)
    {
      chainHead := head;
    }
  }
}
