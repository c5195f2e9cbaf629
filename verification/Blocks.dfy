/** Optional values, standing for the source's nullable pointers and `optional`s. */
module Options {
  datatype Option<+T> = None | Some(value: T)
}

/** Block identifiers and block headers. */
module Blocks {

  /** An id stores the block number in its leading bytes, so comparing two ids
      compares their numbers first and their digests second. */
  datatype BlockId = BlockId(num: nat, digest: nat)

  /** The all-zero id, the `previous` of a first block. */
  const NULL_ID := BlockId(0, 0)

  predicate IdLess(a: BlockId, b: BlockId) {
    a.num < b.num || (a.num == b.num && a.digest < b.digest)
  }

  /** A block holds its parent's id; its own number is one more than its parent's. */
  datatype Block = Block(previous: BlockId, digest: nat, validator: string) {
    function Num(): nat {
      previous.num + 1
    }

    function Id(): BlockId {
      BlockId(Num(), digest)
    }
  }

  /** No two blocks of the set share an id (the digest has no collisions among them). */
  ghost predicate CollisionFree(blocks: set<Block>) {
    forall a, b :: a in blocks && b in blocks && a.Id() == b.Id() ==> a == b
  }
}
