/**
 The C heap as a ledger of live blocks. Every block has a number of its own that is never issued
 again, and a pointer is that number with the contents of the block. `Free` and `Load` demand that
 the block is still live, so a verified caller neither frees twice nor reads a freed block.
 */
module Memory {
  datatype Ptr<+T> = Null | Ptr(id: nat, block: T)

  class Heap {
    var live: set<nat>
    var next: nat

    ghost predicate Valid()
      reads this
    {
      forall id :: id in live ==> id < next
    }

    predicate Live<T>(p: Ptr<T>)
      reads this
    {
      p.Ptr? && p.id in live
    }

    constructor ()
      ensures Valid() && live == {}
    {
      live, next := {}, 0;
    }

    method Malloc() returns (id: nat)
      requires Valid()
      modifies this
      ensures Valid() && id == old(next) && next == old(next) + 1
      ensures live == old(live) + {id} && |live| == |old(live)| + 1
    {
      id := next;
      next := next + 1;
      live := live + {id};
    }

    /** `free(NULL)` does nothing. */
    method Free<T>(p: Ptr<T>)
      requires Valid() && (p.Null? || Live(p))
      modifies this
      ensures Valid() && next == old(next)
      ensures p.Null? ==> live == old(live)
      ensures p.Ptr? ==> live == old(live) - {p.id} && |live| == |old(live)| - 1
    {
      if p.Ptr? {
        live := live - {p.id};
      }
    }

    function Load<T>(p: Ptr<T>): (block: T)
      requires Live(p)
      reads this
    {
      p.block
    }
  }
}
