/** malloc and free, seen only as the set of blocks that are live. */
module Memory {

  class Heap {
    ghost var live: set<object>

    ghost method Malloc(block: object)
      requires block !in live
      modifies this
      ensures live == old(live) + {block}
    {
      live := live + {block};
    }

    /** Releasing a block that is not live (a double free) is not allowed. */
    ghost method Free(block: object)
      requires block in live
      modifies this
      ensures live == old(live) - {block}
    {
      live := live - {block};
    }
  }
}
