/** The call graph of the profiler: records carved from slabs that ALT_SBRK hands out, written
    into word-addressed memory and linked by prepending. */
module Gmon {
  import opened Sbrk

  const MCOUNT_SLAB_INCREMENT := 1020
  const RECORD := 12     // both record types are three 32-bit words

  /** struct mcount_fn_entry and struct mcount_fn_arc. Address 0 is NULL. */
  datatype Cell =
    | FnEntry(next: nat, selfPc: nat, arcHead: nat)
    | Arc(next: nat, fromPc: nat, count: nat)

  type Memory = map<nat, Cell>

  /** The chain of records that starts at head and ends at NULL is xs. */
  ghost predicate Chain(mem: Memory, head: nat, xs: seq<nat>)
    decreases |xs|
  {
    if xs == [] then head == 0
    else head == xs[0] != 0 && head in mem && Chain(mem, mem[head].next, xs[1..])
  }

  /** A chain is not disturbed by writes that keep the next fields of its records. */
  lemma {:induction false} ChainFrame(mem: Memory, mem': Memory, head: nat, xs: seq<nat>)
    requires Chain(mem, head, xs)
    requires forall x :: x in xs ==> x in mem && x in mem' && mem'[x].next == mem[x].next
    ensures Chain(mem', head, xs)
    decreases |xs|
  {
    if xs != [] { ChainFrame(mem, mem', mem[head].next, xs[1..]); }
  }

  lemma {:induction false} ChainInMemory(mem: Memory, head: nat, xs: seq<nat>)
    requires Chain(mem, head, xs)
    ensures forall x :: x in xs ==> x in mem && x != 0
    decreases |xs|
  {
    if xs != [] {
      ChainInMemory(mem, mem[head].next, xs[1..]);
      assert xs == [xs[0]] + xs[1..];
    }
  }

  /** A head has one chain: following next from it is deterministic and meets NULL. */
  lemma {:induction false} ChainUnique(mem: Memory, head: nat, xs: seq<nat>, ys: seq<nat>)
    requires Chain(mem, head, xs) && Chain(mem, head, ys)
    ensures xs == ys
    decreases |xs|
  {
    if xs != [] { ChainUnique(mem, mem[head].next, xs[1..], ys[1..]); }
  }

  /** So a chain visits no record twice. */
  lemma {:induction false} ChainAcyclic(mem: Memory, head: nat, xs: seq<nat>)
    requires Chain(mem, head, xs)
    ensures forall i, j :: 0 <= i < j < |xs| ==> xs[i] != xs[j]
    decreases |xs|
  {
    if xs != [] {
      ChainAcyclic(mem, mem[head].next, xs[1..]);
      forall j | 0 < j < |xs| ensures xs[0] != xs[j] {
        ChainSuffix(mem, head, xs, j);
        if xs[0] == xs[j] { ChainUnique(mem, head, xs, xs[j..]); }
      }
    }
  }

  lemma {:induction false} ChainSuffix(mem: Memory, head: nat, xs: seq<nat>, j: nat)
    requires Chain(mem, head, xs) && j < |xs|
    ensures Chain(mem, xs[j], xs[j..])
    decreases |xs|
  {
    if j > 0 {
      ChainSuffix(mem, mem[head].next, xs[1..], j - 1);
      assert xs[1..][j - 1..] == xs[j..];
    }
  }

  // ---- Records in memory ----------------------------------------------------------------

  /** A record of three words at address e. */
  ghost predicate Stored(words: map<nat, nat>, e: nat, c: Cell) {
    && e in words && e + 4 in words && e + 8 in words
    && c == match c
       case FnEntry(_, _, _) => FnEntry(words[e], words[e + 4], words[e + 8])
       case Arc(_, _, _) => Arc(words[e], words[e + 4], words[e + 8])
  }

  ghost predicate Represents(words: map<nat, nat>, mem: Memory) {
    forall e :: e in mem ==> Stored(words, e, mem[e])
  }

  /** Records do not overlap. */
  ghost predicate Separate(s: set<nat>) {
    forall x, y :: x in s && y in s && x != y ==> x + RECORD <= y || y + RECORD <= x
  }

  /** Writes inside one record leave every other record as it was, because none overlaps it. */
  lemma WritesInside(words: map<nat, nat>, words': map<nat, nat>, mem: Memory, p: nat, c: Cell)
    requires Represents(words, mem) && Separate(mem.Keys + {p}) && Stored(words', p, c)
    requires forall a :: a in words && !(p <= a < p + RECORD) ==> a in words' && words'[a] == words[a]
    ensures Represents(words', mem[p := c])
  {
    forall e | e in mem && e != p
      ensures Stored(words', e, mem[e])
    {
      assert e in mem.Keys + {p} && p in mem.Keys + {p};
      assert Stored(words, e, mem[e]);
    }
  }

  /** A write outside all records leaves them as they were. */
  lemma WriteOutside(words: map<nat, nat>, mem: Memory, a: nat, v: nat)
    requires Represents(words, mem) && forall e :: e in mem ==> a < e || e + RECORD <= a
    ensures Represents(words[a := v], mem)
  {
    forall e | e in mem ensures Stored(words[a := v], e, mem[e]) {
      assert Stored(words, e, mem[e]);
    }
  }

  lemma CarvedSeparate(pieces: seq<nat>, slabs: seq<Block>, ptr: nat, size: nat, s: set<nat>)
    requires Carved(pieces, slabs, ptr, size) && forall x :: x in s ==> x in pieces
    ensures Separate(s)
  {
    forall x, y | x in s && y in s && x != y
      ensures x + RECORD <= y || y + RECORD <= x
    {
      var i :| 0 <= i < |pieces| && pieces[i] == x;
      var j :| 0 <= j < |pieces| && pieces[j] == y;
      if i < j { assert pieces[i] + RECORD <= pieces[j]; } else { assert pieces[j] + RECORD <= pieces[i]; }
    }
  }

  // ---- The records as a call graph ------------------------------------------------------

  datatype Call = Call(fromPc: nat, count: nat)
  datatype Fn = Fn(selfPc: nat, calls: seq<Call>)

  ghost predicate AllArcs(mem: Memory, xs: seq<nat>) {
    forall x :: x in xs ==> x in mem && mem[x].Arc?
  }

  /** An entry and its arcs are in place. */
  ghost predicate EntryOk(mem: Memory, arcs: map<nat, seq<nat>>, e: nat) {
    && e in mem && mem[e].FnEntry? && e in arcs
    && Chain(mem, mem[e].arcHead, arcs[e]) && AllArcs(mem, arcs[e])
  }

  ghost predicate BucketOk(mem: Memory, arcs: map<nat, seq<nat>>, head: nat, xs: seq<nat>) {
    Chain(mem, head, xs) && forall e :: e in xs ==> EntryOk(mem, arcs, e)
  }

  ghost function Calls(mem: Memory, xs: seq<nat>): seq<Call>
    requires AllArcs(mem, xs)
  {
    seq(|xs|, i requires 0 <= i < |xs| => Call(mem[xs[i]].fromPc, mem[xs[i]].count))
  }

  ghost function FnAt(mem: Memory, arcs: map<nat, seq<nat>>, e: nat): Fn
    requires EntryOk(mem, arcs, e)
  {
    Fn(mem[e].selfPc, Calls(mem, arcs[e]))
  }

  ghost function Fns(mem: Memory, arcs: map<nat, seq<nat>>, xs: seq<nat>): seq<Fn>
    requires forall e :: e in xs ==> EntryOk(mem, arcs, e)
  {
    seq(|xs|, i requires 0 <= i < |xs| => FnAt(mem, arcs, xs[i]))
  }

  /** The buckets partition the entries, and every entry is in place. */
  ghost predicate Graph(mem: Memory, arcs: map<nat, seq<nat>>, heads: seq<nat>, chains: seq<seq<nat>>)
  {
    && |heads| == |chains|
    && (forall b :: 0 <= b < |heads| ==> BucketOk(mem, arcs, heads[b], chains[b]))
    && (forall b, c, e :: 0 <= b < c < |chains| ==> !(e in chains[b] && e in chains[c]))
  }

  ghost function Table(mem: Memory, arcs: map<nat, seq<nat>>, heads: seq<nat>, chains: seq<seq<nat>>): (v: seq<seq<Fn>>)
    requires Graph(mem, arcs, heads, chains)
    ensures |v| == |heads|
  {
    seq(|heads|, b requires 0 <= b < |heads| =>
      assert BucketOk(mem, arcs, heads[b], chains[b]); Fns(mem, arcs, chains[b]))
  }

  lemma EmptyTable(heads: seq<nat>, chains: seq<seq<nat>>)
    requires |heads| == |chains| && forall b :: 0 <= b < |heads| ==> heads[b] == 0 && chains[b] == []
    ensures Graph(map[], map[], heads, chains) && Table(map[], map[], heads, chains) == seq(|heads|, b => [])
  {
    forall b | 0 <= b < |heads| ensures BucketOk(map[], map[], heads[b], chains[b]) {
      assert Chain(map[], heads[b], chains[b]);
    }
  }

  /** Writing at a new address leaves every entry as it was. */
  lemma FreshWrite(mem: Memory, arcs: map<nat, seq<nat>>, e: nat, p: nat, c: Cell, arcs': map<nat, seq<nat>>)
    requires EntryOk(mem, arcs, e) && p !in mem && e in arcs' && arcs'[e] == arcs[e]
    ensures EntryOk(mem[p := c], arcs', e) && FnAt(mem[p := c], arcs', e) == FnAt(mem, arcs, e)
  {
    ChainFrame(mem, mem[p := c], mem[e].arcHead, arcs[e]);
    assert Calls(mem[p := c], arcs[e]) == Calls(mem, arcs[e]);
  }

  lemma FreshWriteBucket(mem: Memory, arcs: map<nat, seq<nat>>, head: nat, xs: seq<nat>, p: nat, c: Cell, arcs': map<nat, seq<nat>>)
    requires BucketOk(mem, arcs, head, xs) && p !in mem
    requires forall e :: e in xs ==> e in arcs' && arcs'[e] == arcs[e]
    ensures BucketOk(mem[p := c], arcs', head, xs)
    ensures Fns(mem[p := c], arcs', xs) == Fns(mem, arcs, xs)
  {
    ChainInMemory(mem, head, xs);
    ChainFrame(mem, mem[p := c], head, xs);
    forall e | e in xs
      ensures EntryOk(mem[p := c], arcs', e) && FnAt(mem[p := c], arcs', e) == FnAt(mem, arcs, e)
    {
      FreshWrite(mem, arcs, e, p, c, arcs');
    }
  }

  /** Pointing entry e at another chain of arcs leaves every other entry as it was. */
  lemma Relink(mem: Memory, arcs: map<nat, seq<nat>>, head: nat, xs: seq<nat>, e: nat, a: nat, arcs': map<nat, seq<nat>>)
    requires BucketOk(mem, arcs, head, xs) && e in mem && mem[e].FnEntry? && e in arcs
    requires e in arcs' && arcs' == arcs[e := arcs'[e]] && Chain(mem, a, arcs'[e]) && AllArcs(mem, arcs'[e])
    ensures var m := mem[e := mem[e].(arcHead := a)];
      && BucketOk(m, arcs', head, xs)
      && (forall x :: x in xs && x != e ==> FnAt(m, arcs', x) == FnAt(mem, arcs, x))
      && (e in xs ==> FnAt(m, arcs', e) == Fn(mem[e].selfPc, Calls(mem, arcs'[e])))
  {
    var m := mem[e := mem[e].(arcHead := a)];
    ChainInMemory(mem, head, xs);
    ChainFrame(mem, m, head, xs);
    forall x | x in xs
      ensures EntryOk(m, arcs', x)
      ensures FnAt(m, arcs', x) == if x == e then Fn(mem[e].selfPc, Calls(mem, arcs'[e])) else FnAt(mem, arcs, x)
    {
      ChainFrame(mem, m, if x == e then a else mem[x].arcHead, arcs'[x]);
      assert Calls(m, arcs'[x]) == Calls(mem, arcs'[x]);
    }
  }

  // ---- The slab allocator ---------------------------------------------------------------

  /** Records carved from slabs: in address order without overlap, each inside a slab, all
      below the part of the current slab that is still unused. */
  ghost predicate Carved(pieces: seq<nat>, slabs: seq<Block>, ptr: nat, size: nat)
  {
    && (forall i, j :: 0 <= i < j < |pieces| ==> pieces[i] + RECORD <= pieces[j])
    && (forall i :: 0 <= i < |pieces| ==> 0 < pieces[i] && pieces[i] + RECORD <= ptr && Inside(pieces[i], slabs))
    && (size > 0 ==> 0 < ptr && slabs != [] && Rest(slabs[|slabs| - 1], ptr, size))
  }

  ghost predicate Rest(slab: Block, ptr: nat, size: nat) {
    slab.addr <= ptr && ptr + size == slab.addr + slab.size
  }

  ghost predicate Inside(p: nat, slabs: seq<Block>) {
    exists b :: b in slabs && b.addr <= p && p + RECORD <= b.addr + b.size
  }

  lemma CarveOne(pieces: seq<nat>, slabs: seq<Block>, ptr: nat, size: nat)
    requires Carved(pieces, slabs, ptr, size) && size >= RECORD
    ensures Carved(pieces + [ptr], slabs, ptr + RECORD, size - RECORD)
    ensures ptr !in pieces && ptr != 0
  {
    assert slabs[|slabs| - 1] in slabs;
    assert Inside(ptr, slabs);
  }

  lemma NewSlab(pieces: seq<nat>, slabs: seq<Block>, ptr: nat, size: nat, b: Block)
    requires Carved(pieces, slabs, ptr, size) && 0 < b.addr && ptr <= b.addr
    ensures Carved(pieces, slabs + [b], b.addr, b.size)
  {
    forall i | 0 <= i < |pieces|
      ensures Inside(pieces[i], slabs + [b])
    {
      assert Inside(pieces[i], slabs);
      var c :| c in slabs && c.addr <= pieces[i] && pieces[i] + RECORD <= c.addr + c.size;
      assert c in slabs + [b];
    }
  }

  /** A record overlaps no other record, and no storage that ALT_SBRK gave to anyone else. */
  lemma RecordsApart(blocks: seq<Block>, start: nat, limit: nat, end: nat,
                     pieces: seq<nat>, slabs: seq<Block>, ptr: nat, size: nat, i: nat)
    requires Laid(blocks, start, limit, end) && Carved(pieces, slabs, ptr, size)
    requires (forall b :: b in slabs ==> b in blocks) && i < |pieces|
    ensures forall j :: 0 <= j < |pieces| && j != i ==> Apart(Block(pieces[i], RECORD), Block(pieces[j], RECORD))
    ensures forall b :: b in blocks && b !in slabs ==> Apart(Block(pieces[i], RECORD), b)
    ensures start <= pieces[i] && pieces[i] + RECORD <= limit
  {
    assert Inside(pieces[i], slabs);
    var c :| c in slabs && c.addr <= pieces[i] && pieces[i] + RECORD <= c.addr + c.size;
    HandedOutApart(blocks, start, limit, end);
    forall j | 0 <= j < |pieces| && j != i
      ensures Apart(Block(pieces[i], RECORD), Block(pieces[j], RECORD))
    {
      if i < j { assert pieces[i] + RECORD <= pieces[j]; } else { assert pieces[j] + RECORD <= pieces[i]; }
    }
    forall b | b in blocks && b !in slabs
      ensures Apart(Block(pieces[i], RECORD), b)
    {
      assert Apart(c, b);
    }
  }

  class Profiler {
    const heap: Heap
    var slabPtr: nat                    // mcount_slab_ptr
    var slabSize: nat                   // mcount_slab_size
    var words: map<nat, nat>            // memory, by the addresses of its words
    var heads: seq<nat>                 // __mcount_fn_head
    ghost var mem: Memory               // the records in memory
    ghost var pieces: seq<nat>
    ghost var slabs: seq<Block>
    ghost var chains: seq<seq<nat>>
    ghost var arcs: map<nat, seq<nat>>

    ghost predicate AllocatorOk()
      reads this, heap
    {
      && SlabOk()
      && (forall x :: x in mem <==> x in pieces)
      && Represents(words, mem)
    }

    ghost predicate Valid()
      reads this, heap
    {
      AllocatorOk() && Graph(mem, arcs, heads, chains)
    }

    /** The functions of each hash bucket with their callers, newest first. */
    ghost function View(): (v: seq<seq<Fn>>)
      requires Graph(mem, arcs, heads, chains)
      reads this
    {
      Table(mem, arcs, heads, chains)
    }

    constructor (heap: Heap, buckets: nat)
      requires heap.Valid()
      ensures Valid() && this.heap == heap && View() == seq(buckets, b => [])
    {
      this.heap := heap;
      slabPtr, slabSize, words, mem := 0, 0, map[], map[];
      heads := seq(buckets, b => 0);
      pieces, slabs, arcs := [], [], map[];
      chains := seq(buckets, b => []);
      new;
      EmptyTable(heads, chains);
    }

    /** One record can be had from the current slab, or ALT_SBRK has a slab left. */
    ghost predicate Room(records: nat)
      reads this, heap
    {
      slabSize >= records * RECORD
      || Align(heap.end) + MCOUNT_SLAB_INCREMENT <= heap.limit
    }

    /** The slab in use, and what sbrk has handed out. */
    ghost predicate SlabOk()
      reads this, heap
    {
      && heap.Valid()
      && Carved(pieces, slabs, slabPtr, slabSize)
      && slabPtr + slabSize <= heap.end
      && (forall b :: b in slabs ==> b in heap.blocks)
    }

    /** A new slab. What is left of the old one is never used. */
    method Refill()
      requires SlabOk() && Align(heap.end) + MCOUNT_SLAB_INCREMENT <= heap.limit
      modifies this`slabPtr, this`slabSize, this`slabs, heap
      ensures SlabOk() && slabSize == MCOUNT_SLAB_INCREMENT && old(heap.blocks) <= heap.blocks
    {
      var p := heap.Sbrk(MCOUNT_SLAB_INCREMENT);
      NewSlab(pieces, slabs, slabPtr, slabSize, Block(p, MCOUNT_SLAB_INCREMENT));
      slabs := slabs + [Block(p, MCOUNT_SLAB_INCREMENT)];
      slabPtr := p;
      slabSize := MCOUNT_SLAB_INCREMENT;
    }

    /** mcount_allocate, for a record of RECORD bytes. Its result overlaps no other record and
        no storage that ALT_SBRK gave to anyone else. */
    method Allocate() returns (data: nat)
      requires AllocatorOk() && Room(1)
      modifies this`slabPtr, this`slabSize, this`pieces, this`slabs, heap
      ensures SlabOk() && old(heap.blocks) <= heap.blocks
      ensures data != 0 && data !in mem && pieces == old(pieces) + [data]
      ensures Separate(mem.Keys + {data})
      ensures slabSize + RECORD == MCOUNT_SLAB_INCREMENT || (slabSize + RECORD == old(slabSize) && heap.end == old(heap.end))
    {
      if RECORD > slabSize {
        Refill();
      }
      CarveOne(pieces, slabs, slabPtr, slabSize);
      data := slabPtr;
      pieces := pieces + [data];
      slabPtr := slabPtr + RECORD;
      slabSize := slabSize - RECORD;
      CarvedSeparate(pieces, slabs, slabPtr, slabSize, mem.Keys + {data});
    }

    /** The writes to a new function entry. */
    method WriteEntry(e: nat, selfPc: nat, next: nat)
      requires Represents(words, mem) && Separate(mem.Keys + {e})
      modifies `words, `mem
      ensures Represents(words, mem) && mem == old(mem)[e := FnEntry(next, selfPc, 0)]
    {
      ghost var before := words;
      words := words[e + 4 := selfPc];
      words := words[e + 8 := 0];
      words := words[e := next];
      WritesInside(before, words, mem, e, FnEntry(next, selfPc, 0));
      mem := mem[e := FnEntry(next, selfPc, 0)];
    }

    /** The writes to a new arc. */
    method WriteArc(p: nat, fromPc: nat, e: nat)
      requires Represents(words, mem) && Separate(mem.Keys + {p}) && e in mem && mem[e].FnEntry? && p !in mem
      modifies `words, `mem
      ensures Represents(words, mem) && mem == old(mem)[p := Arc(old(mem)[e].arcHead, fromPc, 1)]
    {
      ghost var before := words;
      assert Stored(words, e, mem[e]);
      words := words[p + 4 := fromPc];
      words := words[p + 8 := 1];
      assert e in mem.Keys + {p} && p in mem.Keys + {p};
      assert words[e + 8] == before[e + 8];
      if words[e + 8] == 0 {
        words := words[p := 0];
      } else {
        words := words[p := words[e + 8]];
      }
      WritesInside(before, words, mem, p, Arc(mem[e].arcHead, fromPc, 1));
      mem := mem[p := Arc(mem[e].arcHead, fromPc, 1)];
    }

    /** The write that puts an arc at the head of its entry. */
    method WriteHead(e: nat, p: nat)
      requires Represents(words, mem) && Separate(mem.Keys) && e in mem && mem[e].FnEntry?
      modifies `words, `mem
      ensures Represents(words, mem) && mem == old(mem)[e := old(mem)[e].(arcHead := p)]
    {
      ghost var before := words;
      assert Stored(words, e, mem[e]);
      assert mem.Keys + {e} == mem.Keys;
      words := words[e + 8 := p];
      WritesInside(before, words, mem, e, mem[e].(arcHead := p));
      mem := mem[e := mem[e].(arcHead := p)];
    }

    /** The first half of __mcount_record: a new function entry at the front of its bucket. */
    method LinkEntry(e: nat, selfPc: nat, bucket: nat)
      requires Graph(mem, arcs, heads, chains) && bucket < |heads| && e != 0 && e !in mem
      requires Represents(words, mem) && Separate(mem.Keys + {e})
      modifies `words, `mem, `arcs, `heads, `chains
      ensures Graph(mem, arcs, heads, chains) && |heads| == old(|heads|) && Represents(words, mem)
      ensures View() == old(View())[bucket := [Fn(selfPc, [])] + old(View())[bucket]]
      ensures chains[bucket] == [e] + old(chains)[bucket] && mem.Keys == old(mem.Keys) + {e}
    {
      var cell := FnEntry(heads[bucket], selfPc, 0);
      EntryAdded(mem, arcs, heads, chains, bucket, e, cell);
      WriteEntry(e, selfPc, heads[bucket]);
      arcs := arcs[e := []];
      heads := heads[bucket := e];
      chains := chains[bucket := [e] + chains[bucket]];
    }

    /** The second half: a new arc at the front of the function's arcs. */
    method LinkArc(p: nat, fromPc: nat, e: nat, ghost bucket: nat, ghost k: nat)
      requires Graph(mem, arcs, heads, chains) && bucket < |heads| && p != 0 && p !in mem
      requires k < |chains[bucket]| && chains[bucket][k] == e
      requires Represents(words, mem) && Separate(mem.Keys + {p})
      modifies `words, `mem, `arcs
      ensures Graph(mem, arcs, heads, chains) && k < |old(View())[bucket]| && Represents(words, mem)
      ensures View() == old(View())[bucket := old(View())[bucket][k := Called(old(View())[bucket][k], fromPc)]]
      ensures mem.Keys == old(mem.Keys) + {p}
    {
      assert BucketOk(mem, arcs, heads[bucket], chains[bucket]);
      assert EntryOk(mem, arcs, e);
      ArcAdded(mem, arcs, heads, chains, bucket, k, p, fromPc);
      WriteArc(p, fromPc, e);
      assert mem.Keys == old(mem.Keys) + {p};
      WriteHead(e, p);
      arcs := arcs[e := [p] + arcs[e]];
    }

    /** Other callers of ALT_SBRK, between two records, disturb nothing. */
    method OtherSbrk(incr: nat) returns (r: int)
      requires Valid() && incr < 0x8000_0000 && !Corrupts(heap.end, incr, heap.limit)
      modifies heap
      ensures Valid() && View() == old(View())
    {
      r := heap.Sbrk(incr);
    }

    /** Nor do their writes to the storage that they got. */
    method OtherStore(b: Block, a: nat, v: nat)
      requires Valid() && b in heap.blocks && b !in slabs && b.addr <= a && a + 4 <= b.addr + b.size
      modifies `words
      ensures Valid() && View() == old(View()) && words == old(words)[a := v]
    {
      forall e | e in mem ensures a < e || e + RECORD <= a {
        var i :| 0 <= i < |pieces| && pieces[i] == e;
        RecordsApart(heap.blocks, heap.start, heap.limit, heap.end, pieces, slabs, slabPtr, slabSize, i);
        assert Apart(Block(pieces[i], RECORD), b);
      }
      WriteOutside(words, mem, a, v);
      words := words[a := v];
    }

    method AddEntry(selfPc: nat, bucket: nat) returns (e: nat)
      requires Valid() && Room(2) && bucket < |heads|
      modifies this, heap
      ensures Valid() && Room(1) && old(heap.blocks) <= heap.blocks && |heads| == old(|heads|)
      ensures View() == old(View())[bucket := [Fn(selfPc, [])] + old(View())[bucket]]
      ensures chains[bucket] == [e] + old(chains)[bucket]
    {
      e := Allocate();
      assert Room(1);
      LinkEntry(e, selfPc, bucket);
    }

    method AddArc(fromPc: nat, e: nat, ghost bucket: nat, ghost k: nat)
      requires Valid() && Room(1) && bucket < |heads| && k < |chains[bucket]| && chains[bucket][k] == e
      modifies this, heap
      ensures Valid() && old(heap.blocks) <= heap.blocks && k < |old(View())[bucket]|
      ensures View() == old(View())[bucket := old(View())[bucket][k := Called(old(View())[bucket][k], fromPc)]]
    {
      var p := Allocate();
      LinkArc(p, fromPc, e, bucket, k);
    }

    /** __mcount_record, called when the assembler code found no arc for this caller: fnEntry
        is the function's entry, or NULL if it has none; k is its place in the bucket. Every
        chain stays finite, and nothing recorded before is lost. */
    method Record(selfPc: nat, fromPc: nat, fnEntry: nat, bucket: nat) returns (ghost k: nat)
      requires Valid() && Room(2) && bucket < |heads|
      requires fnEntry == 0 || fnEntry in chains[bucket]
      modifies this, heap
      ensures Valid() && old(heap.blocks) <= heap.blocks
      ensures fnEntry != 0 ==>
        k < |old(chains)[bucket]| && k < |old(View())[bucket]| && old(chains)[bucket][k] == fnEntry
      ensures View() == old(View())[bucket :=
        if fnEntry == 0 then [Fn(selfPc, [Call(fromPc, 1)])] + old(View())[bucket]
        else old(View())[bucket][k := Fn(old(View())[bucket][k].selfPc,
                                         [Call(fromPc, 1)] + old(View())[bucket][k].calls)]]
    {
      var e := fnEntry;
      k := 0;
      if e == 0 {
        e := AddEntry(selfPc, bucket);
        FrontUpdate(old(View()), bucket, Fn(selfPc, []), Fn(selfPc, [Call(fromPc, 1)]));
        assert [Call(fromPc, 1)] + [] == [Call(fromPc, 1)];
      } else {
        assert exists i :: 0 <= i < |chains[bucket]| && chains[bucket][i] == e;
        k :| k < |chains[bucket]| && chains[bucket][k] == e;
      }
      AddArc(fromPc, e, bucket, k);
    }
  }

  lemma FrontUpdate(v: seq<seq<Fn>>, b: nat, x: Fn, y: Fn)
    requires b < |v|
    ensures ([x] + v[b])[0] == x
    ensures v[b := [x] + v[b]][b := ([x] + v[b])[0 := y]] == v[b := [y] + v[b]]
  {
    assert ([x] + v[b])[0 := y] == [y] + v[b];
  }

  lemma EntryAdded(m: Memory, as_: map<nat, seq<nat>>, hs: seq<nat>, cs: seq<seq<nat>>, bucket: nat, e: nat, cell: Cell)
    requires Graph(m, as_, hs, cs) && bucket < |hs| && e != 0 && e !in m
    requires cell.FnEntry? && cell.next == hs[bucket] && cell.arcHead == 0
    ensures var m', as', hs', cs' := m[e := cell], as_[e := []], hs[bucket := e], cs[bucket := [e] + cs[bucket]];
      && Graph(m', as', hs', cs')
      && Table(m', as', hs', cs') == Table(m, as_, hs, cs)[bucket := [Fn(cell.selfPc, [])] + Table(m, as_, hs, cs)[bucket]]
  {
    var m', as', hs', cs' := m[e := cell], as_[e := []], hs[bucket := e], cs[bucket := [e] + cs[bucket]];
    forall b | 0 <= b < |hs|
      ensures e !in cs[b]
      ensures BucketOk(m', as', hs[b], cs[b]) && Fns(m', as', cs[b]) == Table(m, as_, hs, cs)[b]
    {
      assert BucketOk(m, as_, hs[b], cs[b]);
      ChainInMemory(m, hs[b], cs[b]);
      FreshWriteBucket(m, as_, hs[b], cs[b], e, cell, as');
    }
    EntryInFront(m', as', hs[bucket], cs[bucket], e);
    forall b | 0 <= b < |hs'|
      ensures BucketOk(m', as', hs'[b], cs'[b])
    {
      assert BucketOk(m', as', hs[b], cs[b]);
    }
  }

  lemma EntryInFront(m: Memory, as_: map<nat, seq<nat>>, head: nat, xs: seq<nat>, e: nat)
    requires BucketOk(m, as_, head, xs) && e in m && e != 0 && e in as_ && as_[e] == []
    requires m[e].FnEntry? && m[e].next == head && m[e].arcHead == 0
    ensures BucketOk(m, as_, e, [e] + xs)
    ensures Fns(m, as_, [e] + xs) == [Fn(m[e].selfPc, [])] + Fns(m, as_, xs)
  {
    assert ([e] + xs)[1..] == xs;
    assert EntryOk(m, as_, e) && Calls(m, []) == [];
    assert FnAt(m, as_, e) == Fn(m[e].selfPc, []);
  }

  /** An arc put in front of the arcs of entry k of a bucket. */
  lemma ArcAdded(m: Memory, as_: map<nat, seq<nat>>, hs: seq<nat>, cs: seq<seq<nat>>, bucket: nat, k: nat, p: nat, fromPc: nat)
    requires Graph(m, as_, hs, cs) && bucket < |hs| && k < |cs[bucket]| && p != 0 && p !in m
    requires EntryOk(m, as_, cs[bucket][k])
    ensures var e, t := cs[bucket][k], Table(m, as_, hs, cs);
      var m1 := m[p := Arc(m[e].arcHead, fromPc, 1)];
      var m2, as2 := m1[e := m1[e].(arcHead := p)], as_[e := [p] + as_[e]];
      && Graph(m2, as2, hs, cs)
      && k < |t[bucket]|
      && Table(m2, as2, hs, cs) == t[bucket := t[bucket][k := Called(t[bucket][k], fromPc)]]
  {
    var e, t := cs[bucket][k], Table(m, as_, hs, cs);
    var m1 := m[p := Arc(m[e].arcHead, fromPc, 1)];
    var m2, as2 := m1[e := m1[e].(arcHead := p)], as_[e := [p] + as_[e]];
    ArcInFront(m, m1, as_, e, p, fromPc);
    forall b | 0 <= b < |hs|
      ensures BucketOk(m2, as2, hs[b], cs[b])
      ensures Fns(m2, as2, cs[b]) == if b == bucket then t[b][k := Called(t[b][k], fromPc)] else t[b]
    {
      assert BucketOk(m, as_, hs[b], cs[b]);
      FreshWriteBucket(m, as_, hs[b], cs[b], p, m1[p], as_);
      Relink(m1, as_, hs[b], cs[b], e, p, as2);
      ChainAcyclic(m, hs[b], cs[b]);
      forall i | 0 <= i < |cs[b]|
        ensures FnAt(m2, as2, cs[b][i]) == if b == bucket && i == k then Called(t[b][i], fromPc) else t[b][i]
      {
        assert t[b][i] == FnAt(m, as_, cs[b][i]) == FnAt(m1, as_, cs[b][i]) by {
          assert Fns(m, as_, cs[b])[i] == Fns(m1, as_, cs[b])[i];
        }
        if cs[b][i] == e {
          assert e in cs[b] && e in cs[bucket];
          assert b == bucket;
          assert i == k;
        }
      }
    }
  }

  /** f called once more, from a caller that was not on record. */
  function Called(f: Fn, fromPc: nat): Fn {
    f.(calls := [Call(fromPc, 1)] + f.calls)
  }

  lemma ArcInFront(m: Memory, m1: Memory, as_: map<nat, seq<nat>>, e: nat, p: nat, fromPc: nat)
    requires EntryOk(m, as_, e) && p !in m && p != 0 && m1 == m[p := Arc(m[e].arcHead, fromPc, 1)]
    ensures Chain(m1, p, [p] + as_[e]) && AllArcs(m1, [p] + as_[e])
    ensures Calls(m1, [p] + as_[e]) == [Call(fromPc, 1)] + Calls(m, as_[e])
  {
    ChainInMemory(m, m[e].arcHead, as_[e]);
    ChainFrame(m, m1, m[e].arcHead, as_[e]);
    assert ([p] + as_[e])[1..] == as_[e];
  }
}
