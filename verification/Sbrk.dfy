/** ALT_SBRK: a word-aligned bump allocator under a limit, in 32-bit address arithmetic. */
module Sbrk {
  import opened Arithmetic

  datatype Block = Block(addr: nat, size: nat)

  /** (p + 3) & ~3 */
  function Align(p: nat): (r: nat)
    ensures r % 4 == 0 && p <= r < p + 4
  {
    (p + 3) / 4 * 4
  }

  /** Everything handed out so far: aligned, inside the heap, and in address order without
      overlap. */
  ghost predicate Laid(blocks: seq<Block>, start: nat, limit: nat, end: nat)
  {
    && start <= end
    && (forall i :: 0 <= i < |blocks| ==>
          && blocks[i].addr % 4 == 0 && start <= blocks[i].addr
          && blocks[i].addr + blocks[i].size <= limit && blocks[i].addr + blocks[i].size <= end)
    && (forall i, j :: 0 <= i < j < |blocks| ==> blocks[i].addr + blocks[i].size <= blocks[j].addr)
  }

  ghost predicate Apart(a: Block, b: Block) {
    a.addr + a.size <= b.addr || b.addr + b.size <= a.addr
  }

  lemma HandedOutApart(blocks: seq<Block>, start: nat, limit: nat, end: nat)
    requires Laid(blocks, start, limit, end)
    ensures forall i, j :: 0 <= i < |blocks| && 0 <= j < |blocks| && i != j ==> Apart(blocks[i], blocks[j])
  {
    forall i, j | 0 <= i < |blocks| && 0 <= j < |blocks| && i != j
      ensures Apart(blocks[i], blocks[j])
    {
      if i < j { assert blocks[i].addr + blocks[i].size <= blocks[j].addr; }
      else { assert blocks[j].addr + blocks[j].size <= blocks[i].addr; }
    }
  }

  lemma LaidOneMore(blocks: seq<Block>, start: nat, limit: nat, end: nat, p: nat, size: nat)
    requires Laid(blocks, start, limit, end) && end <= p && p % 4 == 0 && p + size <= limit
    ensures Laid(blocks + [Block(p, size)], start, limit, p + size)
  {
  }

  /** The requests on which the address arithmetic wraps and the limit check does not notice:
      the aligned end is past the last word, or the new end wraps to below the limit. */
  predicate Corrupts(end: u32, incr: nat, limit: u32) {
    Align(end) >= WORD || (Align(end) + incr >= WORD && Align(end) + incr - WORD <= limit)
  }

  class Heap {
    const start: u32              // __alt_heap_start
    const limit: u32              // __alt_heap_limit
    var end: u32                  // heap_end
    ghost var blocks: seq<Block>

    ghost predicate Valid()
      reads this
    {
      Laid(blocks, start, limit, end) && 0 < start
    }

    constructor (start: u32, limit: u32)
      requires 0 < start
      ensures Valid() && blocks == [] && this.start == start && this.limit == limit && end == start
    {
      this.start, this.limit := start, limit;
      end, blocks := start, [];
    }

    /** ALT_SBRK, for the non-negative values of its int argument. What it has handed out stays
        aligned, inside the heap and disjoint exactly unless the request is one of those above.
        A refused request still leaves the end of the heap aligned. */
    method Sbrk(incr: nat) returns (r: int)
      requires Valid() && incr < 0x8000_0000
      modifies this
      ensures Valid() <==> !Corrupts(old(end), incr, limit)
      ensures !Corrupts(old(end), incr, limit) && Align(old(end)) + incr <= limit ==>
        r == Align(old(end)) && end == r + incr && blocks == old(blocks) + [Block(r, incr)]
      ensures !Corrupts(old(end), incr, limit) && Align(old(end)) + incr > limit ==>
        r == -1 && end == Align(old(end)) && blocks == old(blocks)
      ensures old(blocks) <= blocks
    {
      var aligned := Align(end) % WORD;
      WrapsTo0(end);
      if (aligned + incr) % WORD > limit {
        end := aligned;
        return -1;
      }
      if !Corrupts(end, incr, limit) {
        LaidOneMore(blocks, start, limit, end, aligned, incr);
      } else {
        assert (blocks + [Block(aligned, incr)])[|blocks|] == Block(aligned, incr);
      }
      blocks := blocks + [Block(aligned, incr)];
      end := (aligned + incr) % WORD;
      return aligned;
    }
  }

  lemma WrapsTo0(end: u32)
    ensures Align(end) % WORD == if Align(end) < WORD then Align(end) else 0
  {
  }

  /** For instance below a limit in the last pages of the address space: a request for 64 kB is
      granted although it ends past it. */
  lemma GrantedPastTheLimit()
    ensures Corrupts(0xFFFF_0000, 0x1_0000, 0xFFFF_8000)
  {
  }
}
