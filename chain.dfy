/**
 * The block-chain entities the core passes around: a block header, the
 * stored form of a header with its height and cumulative work, and an
 * inventory item. Block hashing (double SHA-256 of the header) happens in
 * Block, which is not part of this model, so a header carries its hash.
 */
module Chain {
  import opened Bytes

  /** A block as the core sees it: its hash, its predecessor's hash, its timestamp and its own work. */
  datatype Block = Block(hash: Hash, prevBlockHash: Hash, timeSeconds: nat, work: nat)

  /** A header stored with the chain work up to and including it and its height (genesis is 0). */
  datatype StoredBlock = StoredBlock(header: Block, chainWork: nat, height: nat)

  /** InventoryItem.Type */
  datatype InvKind = ErrorItem | TransactionItem | BlockItem

  datatype InventoryItem = InventoryItem(kind: InvKind, hash: Hash)
}
