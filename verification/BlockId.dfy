/** Block ids: the block number next to the hash of the header. */
module BlockIds {
  import opened Words

  datatype BlockId = BlockId(num: Uint32, hash: nat)

  const NULL_ID := BlockId(0, 0)
}
