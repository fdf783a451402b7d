/** A physical block of the flash translation layer (simplessd/ftl/common/block.cc), for one I/O
    unit per page. Blocks live by value in the block map and in the free list, and are moved
    between the two, so a block is a value here. */
module Blocks {
  import opened Outcome

  /** The full bitmap of n bits. */
  function Below(n: nat): (s: set<nat>)
    ensures forall p :: p in s <==> 0 <= p < n
  {
    if n == 0 then {} else Below(n - 1) + {n - 1}
  }

  datatype Block = Block(
    idx: nat,           // block index
    valid: set<nat>,    // pValidBits
    erased: set<nat>,   // pErasedBits
    lpns: seq<nat>,     // pLPNs
    next: nat,          // pNextWritePageIndex[0]
    eraseCount: nat)
  {
    /** The bitmaps of a block that is written front to back: everything from `next` on is erased,
        and only pages before `next` can be valid. */
    ghost predicate WellFormed(pages: nat) {
      && |lpns| == pages
      && next <= pages
      && (forall p :: p in erased <==> next <= p < pages)
      && (forall p :: p in valid ==> p < next)
    }

    function Write(page: nat, lpn: nat): Result<Block> {
      if page >= |lpns| || page !in erased then
        Panic(WriteToNonErased)
      else if page < next then
        Panic(NotSequential)
      else
        Ok(this.(erased := erased - {page}, valid := valid + {page},
                 lpns := lpns[page := lpn], next := page + 1))
    }

    function Invalidate(page: nat): Block {
      this.(valid := valid - {page})
    }

    function Erase(): Block {
      this.(valid := {}, erased := Below(|lpns|), next := 0, eraseCount := eraseCount + 1)
    }
  }

  function Fresh(idx: nat, pages: nat): Block {
    Block(idx, {}, Below(pages), seq(pages, _ => 0), 0, 0)
  }

  /** Writing at the next-write index of a block with room cannot panic and keeps its bitmaps in step. */
  lemma WriteAtNext(b: Block, pages: nat, lpn: nat)
    requires b.WellFormed(pages) && b.next < pages
    ensures b.Write(b.next, lpn).Ok?
    ensures var w := b.Write(b.next, lpn).value;
            && w.WellFormed(pages)
            && w.idx == b.idx && w.next == b.next + 1 && w.eraseCount == b.eraseCount
            && w.valid == b.valid + {b.next} && b.next !in b.valid
            && w.lpns == b.lpns[b.next := lpn]
  {
  }
}
