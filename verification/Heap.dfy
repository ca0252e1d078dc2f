/** malloc and free, as far as who owns what: a set of live blocks, each holding a C string.
    A block's number is never used again, so freeing twice or freeing a borrowed pointer
    cannot go unnoticed: `Free` may only be called on a live block. */
module Heap {
  import opened Options

  class Allocator {
    var live: map<nat, string>
    var next: nat

    ghost predicate Valid()
      reads this
    {
      forall id :: id in live ==> id < next
    }

    constructor ()
      ensures Valid() && live == map[]
    {
      live, next := map[], 0;
    }

    // malloc and strdup
    method Alloc(text: string) returns (id: nat)
      requires Valid()
      modifies this
      ensures Valid() && id == old(next) && next == id + 1
      ensures id !in old(live) && live == old(live)[id := text]
    {
      id := next;
      live, next := live[id := text], next + 1;
    }

    // An in-place change of a live block.
    method Write(id: nat, text: string)
      requires Valid() && id in live
      modifies this
      ensures Valid() && live == old(live)[id := text] && next == old(next)
    {
      live := live[id := text];
    }

    // free; freeing NULL does nothing.
    method Free(p: Option<nat>)
      requires Valid() && (p.Some? ==> p.value in live)
      modifies this
      ensures Valid() && next == old(next)
      ensures live == if p.Some? then old(live) - {p.value} else old(live)
    {
      if p.Some? {
        live := live - {p.value};
      }
    }
  }
}
