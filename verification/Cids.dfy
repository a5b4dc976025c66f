/** Content identifiers, as far as garbage collection looks into them. */
module Cids {

  /** A multihash. Only its identity matters. */
  type Hash = nat

  const DAG_PB: nat := 0x70
  const RAW: nat := 0x55

  /** A version-0 CID carries no codec of its own: it is always dag-pb. */
  datatype Cid = V0(hash: Hash) | V1(codec: nat, hash: Hash)

  /** The same block and codec, named by a version-1 CID. */
  function ToCidV1(c: Cid): Cid {
    if c.V0? then V1(DAG_PB, c.hash) else c
  }

  /** The key under which the blockstore lists a block. */
  function ToRawCid(c: Cid): Cid {
    V1(RAW, c.hash)
  }
}
