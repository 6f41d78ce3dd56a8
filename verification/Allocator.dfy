/** src/shmem/allocator.c, in place on the words of the region. */
module Allocator {
  import opened Layout
  import opened Heaps
  import opened HeapInvariants
  import opened Region
  import opened HeapCounts
  import opened HeapOrder
  import opened Wrappers

  /** The free-size cell is the number of free words, less what public trims have split off, modulo 2^61. */
  predicate Accounted(cell: nat, drift: nat, free: nat, wraps: int) {
    cell < SIZE_LIMIT && cell + drift == free + wraps * SIZE_LIMIT
  }

  ghost predicate Sound(m: Memory, h: Heap, drift: nat, wraps: int) {
    Holds(m, h) && 0 < m[MAX_MESSAGE_SIZE] < SIZE_LIMIT && Accounted(m[FREE_SIZE], drift, FreeWords(h.blocks), wraps)
  }

  // ----- Creation -----

  /** The program's size test: the region must hold the process-local allocator object (16 bytes), the largest
      message and a block header (24 bytes). */
  predicate Admits(words: nat, maxMessageSize: nat) {
    words >= 2 + Align(maxMessageSize) + BLOCK_HEADER
  }

  /** Tags and link of the first block lie apart inside the region, and its offset passes the bounds assertion
      every walk makes (`offset < total_size`, where `total_size` excludes the region's header). */
  predicate FitsFirstBlock(words: nat) {
    REGION_HEADER + BLOCK_TAGS <= words && REGION_HEADER < words - REGION_HEADER
  }

  /** A region of 48 bytes for messages of 8 bytes passes the test, and the first block's header does not even lie
      inside it. */
  lemma CreateTestTooWeak()
    ensures Admits(6, 8) && !FitsFirstBlock(6) && REGION_HEADER + LINK >= 6
  {
  }

  /** The test is enough for the first block's tags exactly if messages have more than 40 bytes. It is never enough for
      the message itself (see `AllocatorFacts.CreateTestNeverEnough`). */
  lemma TagsFitIff(maxMessageSize: nat)
    ensures (forall words :: Admits(words, maxMessageSize) ==> FitsFirstBlock(words)) <==> maxMessageSize > 40
  {
    if maxMessageSize <= 40 {
      assert Admits(2 + Align(maxMessageSize) + BLOCK_HEADER, maxMessageSize);
    }
  }

  /** The region's one block before it is put on the list. */
  ghost function OneBlock(words: nat): Heap
    requires words >= REGION_HEADER
  {
    Heap([Block(REGION_HEADER, words - REGION_HEADER, false)], [])
  }

  lemma UnsettledBlock(m: Memory)
    requires REGION_HEADER + BLOCK_TAGS < |m| < SIZE_LIMIT
    requires m[TOTAL_SIZE] == |m| - REGION_HEADER && m[FIRST_FREE] == NULL_OFFSET
    ensures HoldsBut(m, OneBlock(|m|), 0)
  {
  }

  // ----- What whole operations do -----

  /** Block `i` was freed, and its words counted as free. */
  ghost predicate Freed(m: Memory, h: Heap, n: Memory, h': Heap, i: nat) {
    && i < |h.blocks| && h' == Heaps.Free(h, i) && Holds(n, h') && Preserves(m, h, n, h', h.blocks[i].off)
    && m[FREE_SIZE] < SIZE_LIMIT && h.blocks[i].size < SIZE_LIMIT
    && n[FREE_SIZE] == WrappingAdd(m[FREE_SIZE], h.blocks[i].size)
  }

  /** Free block `i` was taken, cut to `size` words if it splits, and its words counted as used. */
  ghost predicate Used(m: Memory, h: Heap, n: Memory, h': Heap, i: nat, size: nat) {
    && i < |h.blocks| && h' == Heaps.Trim(Unlink(h, i), i, size) && Holds(n, h') && Preserves(m, h, n, h', 0)
    && m[FREE_SIZE] < SIZE_LIMIT && i < |h'.blocks| && h'.blocks[i].size < SIZE_LIMIT
    && n[FREE_SIZE] == WrappingSub(m[FREE_SIZE], h'.blocks[i].size)
  }

  /** Block `i` was trimmed to `size` words, if that splits it. */
  ghost predicate CutDown(m: Memory, h: Heap, n: Memory, h': Heap, i: nat, size: nat) {
    && i < |h.blocks| && h' == Heaps.Trim(h, i, size) && Holds(n, h') && Preserves(m, h, n, h', h.blocks[i].off)
    && i < |h'.blocks| && SamePayload(m, n, h'.blocks[i])
  }

  /** The words a trim splits off. They are not counted as free again. */
  function SplitOff(b: Block, size: nat): nat {
    if Splits(b, size) then b.size - size else 0
  }

  ghost predicate Finished(m: Memory, n: Memory, h: Heap, i: nat) {
    && i < |h.blocks| && Holds(n, h) && h.blocks[i].size < SIZE_LIMIT && Preserves(m, h, n, h, 0)
    && m[FREE_SIZE] < SIZE_LIMIT && n[FREE_SIZE] == WrappingSub(m[FREE_SIZE], h.blocks[i].size)
  }

  function PayloadOf(block: Option<nat>): Option<nat> {
    if block.Some? then Some(block.value + BLOCK_HEADER) else None
  }

  /** The payload at `ptr` is that of the first block on the list that is large enough, which left the list as it must;
      or none is. */
  ghost predicate Chosen(h: Heap, a: nat, ptr: Option<nat>, after: Heap) {
    match ptr
    case None => FirstLarge(h, a, None)
    case Some(p) => p >= 3 && FirstLarge(h, a, Some(p - 3)) && TakenOff(h, a, p - 3, after)
  }

  lemma AllocChooses(h: Heap, end: nat, a: nat)
    requires WellFormed(h, end) && LEAST_BLOCK <= a
    ensures Chosen(h, a, PayloadOf(Heaps.Alloc(h, a).1), Heaps.Alloc(h, a).0)
  {
    hide FirstLarge, TakenOff, WellFormed, Heaps.Alloc;
    AllocTakesFirst(h, end, a);
    if Heaps.Alloc(h, a).1.Some? { AllocOrder(h, end, a); }
  }

  lemma SizesKept(m: Memory, h: Heap, n: Memory, h': Heap, off: nat)
    requires Preserves(m, h, n, h', off)
    ensures |m| == |n| && |m| > REGION_HEADER && n[MAX_MESSAGE_SIZE] == m[MAX_MESSAGE_SIZE]
  {
  }

  lemma IsLast(h: Heap, end: nat, i: nat)
    requires WellFormed(h, end) && i < |h.blocks|
    ensures i + 1 < |h.blocks| <==> h.blocks[i].End() != end
  {
    if i + 1 < |h.blocks| { Apart(h.blocks, REGION_HEADER, end, i + 1); }
  }

  lemma CountedBack(cell: nat, drift: nat, free: nat, wraps: int, size: nat) returns (wraps': int)
    requires Accounted(cell, drift, free, wraps) && size < SIZE_LIMIT
    ensures cell < SIZE_LIMIT && Accounted(WrappingAdd(cell, size), drift, free + size, wraps')
  {
    wraps' := if cell + size < SIZE_LIMIT then wraps else wraps - 1;
  }

  lemma CountedOut(cell: nat, drift: nat, free: nat, wraps: int, size: nat) returns (wraps': int)
    requires Accounted(cell, drift, free + size, wraps) && size < SIZE_LIMIT
    ensures cell < SIZE_LIMIT && Accounted(WrappingSub(cell, size), drift, free, wraps')
  {
    wraps' := if size <= cell then wraps else wraps + 1;
  }

  lemma FreeSound(m: Memory, h: Heap, n: Memory, h': Heap, drift: nat, wraps: int, i: nat) returns (wraps': int)
    requires Sound(m, h, drift, wraps) && i < |h.blocks| && !h.blocks[i].free && Freed(m, h, n, h', i)
    ensures Sound(n, h', drift, wraps') && n[MAX_MESSAGE_SIZE] == m[MAX_MESSAGE_SIZE]
    ensures h' == Heaps.Free(h, i) && Preserves(m, h, n, h', h.blocks[i].off)
    ensures h'.list == StillFree([h.blocks[i].off] + h.list, h'.blocks)
    ensures i + 1 < |h.blocks| <==> h.blocks[i].End() != |m|
  {
    FreeCounts(h, i);
    FreeOrder(h, |m|, i);
    IsLast(h, |m|, i);
    SizesKept(m, h, n, h', h.blocks[i].off);
    wraps' := CountedBack(m[FREE_SIZE], drift, FreeWords(h.blocks), wraps, h.blocks[i].size);
  }

  lemma TakenUsed(m: Memory, h: Heap, taken: Memory, n: Memory, h': Heap, i: nat, size: nat)
    requires i < |h.blocks| && h' == Heaps.Trim(Unlink(h, i), i, size) && Preserves(m, h, taken, h', 0)
    requires Finished(taken, n, h', i) && taken[FREE_SIZE] == m[FREE_SIZE]
    ensures Used(m, h, n, h', i, size)
  {
    PreservesBoth(m, h, taken, h', n, h', 0, 0);
  }

  lemma UseSound(m: Memory, h: Heap, n: Memory, h': Heap, drift: nat, wraps: int, i: nat, size: nat)
    returns (wraps': int)
    requires Sound(m, h, drift, wraps) && i < |h.blocks| && h.blocks[i].free && Used(m, h, n, h', i, size)
    ensures Sound(n, h', drift, wraps') && n[MAX_MESSAGE_SIZE] == m[MAX_MESSAGE_SIZE]
    ensures h' == Heaps.Trim(Unlink(h, i), i, size) && Preserves(m, h, n, h', 0)
  {
    TakeCounts(h, i, size);
    SizesKept(m, h, n, h', 0);
    wraps' := CountedOut(m[FREE_SIZE], drift, FreeWords(h'.blocks), wraps, h'.blocks[i].size);
  }

  lemma TrimSound(m: Memory, h: Heap, n: Memory, h': Heap, drift: nat, wraps: int, i: nat, size: nat)
    requires Sound(m, h, drift, wraps) && i < |h.blocks| && !h.blocks[i].free && CutDown(m, h, n, h', i, size)
    requires n[FREE_SIZE] == m[FREE_SIZE]
    ensures Sound(n, h', drift + SplitOff(h.blocks[i], size), wraps) && n[MAX_MESSAGE_SIZE] == m[MAX_MESSAGE_SIZE]
  {
    TrimCounts(h, i, size);
    SizesKept(m, h, n, h', h.blocks[i].off);
  }

  lemma AllocIs(h: Heap, a: nat, fit: Option<nat>, i: nat)
    requires FirstFit(h.blocks, h.list, a) == if fit.Some? then Some(i) else None
    requires fit.Some? ==> i < |h.blocks| && h.blocks[i].off == fit.value
    ensures Heaps.Alloc(h, a) == if fit.Some? then (Heaps.Trim(Unlink(h, i), i, a), fit) else (h, None)
  {
  }

  lemma JoinSizes(m: Memory, h: Heap, i: nat)
    requires i + 1 < |h.blocks| && Holds(m, Unlink(h, i + 1))
    ensures var b, c := h.blocks[i], h.blocks[i + 1];
      && REGION_HEADER <= b.off && c.off == b.End() && c.End() <= |m| < SIZE_LIMIT
      && LEAST_BLOCK <= b.size && LEAST_BLOCK <= c.size && m[b.off] == b.size && m[c.off] == c.size
  {
    var bs := Unlink(h, i + 1).blocks;
    Apart(bs, REGION_HEADER, |m|, i);
    assert Tagged(m, bs[i]) && Tagged(m, bs[i + 1]) && bs[i].End() == bs[i + 1].off;
  }

  lemma WalkStart(m: Memory, h: Heap, a: nat)
    requires Holds(m, h)
    ensures FIRST_FREE < |m| && m[FIRST_FREE] == LinkTo(h.list, 0)
    ensures FirstFit(h.blocks, h.list[0..], a) == FirstFit(h.blocks, h.list, a)
  {
    FirstVisit(m, h);
    assert h.list[0..] == h.list;
  }

  /** What the walk finds at position `q`, and what it has to look at next. */
  lemma WalkStep(m: Memory, h: Heap, q: nat, a: nat) returns (i: nat)
    requires Holds(m, h) && q <= |h.list| && LinkTo(h.list, q) != NULL_OFFSET
    ensures q < |h.list| && 0 < LinkTo(h.list, q) < m[TOTAL_SIZE]
    ensures LinkTo(h.list, q) + LINK < |m| && m[LinkTo(h.list, q) + LINK] == LinkTo(h.list, q + 1)
    ensures i < |h.blocks| && h.blocks[i].off == LinkTo(h.list, q) && h.blocks[i].free
    ensures FirstFit(h.blocks, h.list[q..], a) ==
      if m[LinkTo(h.list, q)] >= a then Some(i) else FirstFit(h.blocks, h.list[q + 1..], a)
  {
    i := Visit(m, h, q);
    assert h.list[q..][1..] == h.list[q + 1..];
    var j := Listed(h, |m|, q);
    OffsetsDistinct(h.blocks, REGION_HEADER, |m|, i);
  }

  lemma WalkEnd(m: Memory, h: Heap, q: nat, a: nat)
    requires Holds(m, h) && q <= |h.list| && LinkTo(h.list, q) == NULL_OFFSET
    ensures FirstFit(h.blocks, h.list[q..], a) == None
  {
    if q < |h.list| { var i := Visit(m, h, q); }
  }

  class Allocator {
    const mem: array<Word>

    /** The heap that the words of the region stand for. */
    ghost var heap: Heap

    /** Words that public trims have split off so far. */
    ghost var drift: nat

    /** How often the free-size cell has wrapped around below zero, less how often above. */
    ghost var wraps: int

    ghost predicate Valid()
      reads this, mem
    {
      Sound(mem[..], heap, drift, wraps)
    }

    ghost function AllocSize(): nat
      reads mem
      requires mem.Length > REGION_HEADER
    {
      mem[MAX_MESSAGE_SIZE] + BLOCK_TAGS
    }

    /** `allocator_attach`: the region already holds a heap. */
    constructor Attach(mem: array<Word>, ghost heap: Heap, ghost drift: nat, ghost wraps: int)
      requires Sound(mem[..], heap, drift, wraps)
      ensures Valid() && this.mem == mem && this.heap == heap && this.drift == drift && this.wraps == wraps
    {
      this.mem, this.heap, this.drift, this.wraps := mem, heap, drift, wraps;
    }

    /** Lay out the region as one free block. `allocator_create` admits some regions that are too small for that:
        see `CreateTestTooWeak`. */
    constructor Create(mem: array<Word>, maxMessageSize: nat)
      requires Admits(mem.Length, maxMessageSize) && FitsFirstBlock(mem.Length) && 0 < maxMessageSize
      requires mem.Length < SIZE_LIMIT
      modifies mem
      ensures Valid() && this.mem == mem && heap == Fresh(mem.Length) && drift == 0
      ensures AllocSize() == Align(maxMessageSize) + 5 && mem.Length > 7
      ensures mem[0] == 0 && mem[1] == mem[2] == mem.Length - 5 && mem[3] == Align(maxMessageSize) && mem[4] == 5
      ensures mem[7] == 0xFFFF_FFFF_FFFF_FFFF
    {
      this.mem := mem;
      heap := OneBlock(mem.Length);
      drift, wraps := 0, 0;
      new;
      mem[0] := 0;
      mem[TOTAL_SIZE] := mem.Length - REGION_HEADER;
      mem[FREE_SIZE] := mem[TOTAL_SIZE];
      mem[FIRST_FREE] := NULL_OFFSET;
      mem[MAX_MESSAGE_SIZE] := Align(maxMessageSize);
      mem[REGION_HEADER + LINK] := NULL_OFFSET;
      WriteBlockTags(REGION_HEADER, mem[TOTAL_SIZE], true);
      ghost var laid := mem[..];
      UnsettledBlock(laid);
      AddFreeBlock(REGION_HEADER, heap.blocks[0]);
      PushHolds(laid, mem[..], heap, 0);
      heap := Push(heap, 0);
    }

    // ----- Tags and links -----

    method WriteBlockTags(block: nat, size: nat, free: bool)
      requires REGION_HEADER <= block && LEAST_BLOCK <= size && block + size <= mem.Length < SIZE_LIMIT
      modifies mem
      ensures Retagged(old(mem[..]), mem[..], block, size, free)
      ensures mem[block] == mem[block + size - 2] == size
      ensures mem[block + 1] == mem[block + size - 1] == if free then 0 else 1
    {
      mem[block] := size;
      mem[block + 1] := Tag(free);
      var footer := block + size - BLOCK_FOOTER;
      mem[footer] := size;
      mem[footer + 1] := Tag(free);
    }

    /** Mark `block` free and put it at the head of the list. */
    method AddFreeBlock(block: nat, ghost b: Block)
      requires b.off == block && REGION_HEADER <= block && LEAST_BLOCK <= b.size && b.End() <= mem.Length < SIZE_LIMIT
      requires mem[block] == b.size
      modifies mem
      ensures Hooked(old(mem[..]), mem[..], b) && mem[4] == block && mem[block + 2] == old(mem[4])
    {
      WriteBlockTags(block, mem[block], true);
      mem[block + LINK] := mem[FIRST_FREE];
      mem[FIRST_FREE] := block;
    }

    /** Bend the link to `block`, stored at `link`, past it and mark the block allocated. */
    method Unhook(link: nat, block: nat, ghost b: Block)
      requires b.off == block && REGION_HEADER <= block && LEAST_BLOCK <= b.size && b.End() <= mem.Length < SIZE_LIMIT
      requires mem[block] == b.size
      requires FIRST_FREE <= link < block || b.End() <= link < mem.Length
      modifies mem
      ensures Unhooked(old(mem[..]), mem[..], b, link)
    {
      mem[link] := mem[block + LINK];
      mem[block + LINK] := NULL_OFFSET;
      WriteBlockTags(block, mem[block], false);
    }

    /** Where the link to `block` is stored: in the allocator header, or in the block listed before it. */
    method FindLink(block: nat, ghost k: nat) returns (link: nat)
      requires Holds(mem[..], heap) && k < |heap.list| && heap.list[k] == block
      ensures link == LinkWord(heap.list, k)
    {
      FirstVisit(mem[..], heap);
      if mem[FIRST_FREE] == block {
        return FIRST_FREE;
      }
      var current := mem[FIRST_FREE];
      ghost var q := 0;
      while current != NULL_OFFSET
        invariant 0 <= q < k && current == heap.list[q]
        decreases k - q
      {
        ghost var i := Visit(mem[..], heap, q);
        assert 0 < current < mem[TOTAL_SIZE];
        if mem[current + LINK] == block {
          return current + LINK;
        }
        current := mem[current + LINK];
        q := q + 1;
      }
      ghost var i := Visit(mem[..], heap, q);
      assert false;
    }

    method RemoveFreeBlock(block: nat, ghost i: nat)
      requires Holds(mem[..], heap)
      requires i < |heap.blocks| && heap.blocks[i].off == block && heap.blocks[i].free
      modifies mem, `heap
      ensures heap == Unlink(old(heap), i) && Holds(mem[..], heap)
      ensures Preserves(old(mem[..]), old(heap), mem[..], heap, block)
      ensures mem[FREE_SIZE] == old(mem[FREE_SIZE])
    {
      ghost var k: nat :| k < |heap.list| && heap.list[k] == block;
      var link := FindLink(block, k);
      LinkOutside(heap, mem.Length, i, k);
      assert Tagged(mem[..], heap.blocks[i]);
      Unhook(link, block, heap.blocks[i]);
      UnlinkHolds(old(mem[..]), mem[..], heap, i, k);
      heap := Unlink(heap, i);
    }

    // ----- Trimming -----

    method CutBlock(block: nat, newSize: nat, ghost b: Block)
      requires b.off == block && REGION_HEADER <= block && b.End() <= mem.Length < SIZE_LIMIT
      requires LEAST_BLOCK <= newSize && Splits(b, newSize) && mem[block] == b.size
      modifies mem
      ensures Cut(old(mem[..]), mem[..], b, newSize)
    {
      var newBlock := block + newSize;
      assert newBlock < mem.Length - REGION_HEADER;
      WriteBlockTags(newBlock, mem[block] - newSize, true);
      mem[newBlock + LINK] := mem[block + LINK];
      WriteBlockTags(block, newSize, false);
      assert CutTags(old(mem[..]), mem[..], b, newSize);
      AddFreeBlock(newBlock, Block(newBlock, b.size - newSize, false));
    }

    method TrimBlock(block: nat, newSize: nat, ghost i: nat)
      requires Holds(mem[..], heap) && LEAST_BLOCK <= newSize
      requires i < |heap.blocks| && heap.blocks[i].off == block && !heap.blocks[i].free
      modifies mem, `heap
      ensures CutDown(old(mem[..]), old(heap), mem[..], heap, i, newSize) && mem[FREE_SIZE] == old(mem[FREE_SIZE])
      ensures CutOff(old(heap), i, newSize, heap)
    {
      TrimOrder(heap, i, newSize);
      assert Tagged(mem[..], heap.blocks[i]);
      if mem[block] < newSize + MIN_BLOCK {
        PreservesSelf(mem[..], heap, block);
        return;
      }
      Apart(heap.blocks, REGION_HEADER, mem.Length, i);
      CutBlock(block, newSize, heap.blocks[i]);
      TrimHolds(old(mem[..]), mem[..], heap, i, newSize);
      heap := Heaps.Trim(heap, i, newSize);
    }

    // ----- Coalescing -----

    /** Compares the word before the block with the FREE tag. In front of the first block that word is the head of
        the free list, which the caller has just pointed at this very block. */
    method PrevAdjacentFreeBlock(block: nat, ghost i: nat) returns (prev: Option<nat>)
      requires Holds(mem[..], heap) && i < |heap.blocks| && heap.blocks[i].off == block
      requires heap.list != [] && heap.list[0] == block
      ensures prev == if i > 0 && heap.blocks[i - 1].free then Some(heap.blocks[i - 1].off) else None
    {
      Apart(heap.blocks, REGION_HEADER, mem.Length, i);
      assert mem[FIRST_FREE] == block by { assert LinkWord(heap.list, 0) == FIRST_FREE; }
      if i > 0 { assert Tagged(mem[..], heap.blocks[i - 1]) && heap.blocks[i - 1].End() == block; }
      if mem[block - 1] == FREE {
        assert block - mem[block - BLOCK_FOOTER] < mem[TOTAL_SIZE];
        return Some(block - mem[block - BLOCK_FOOTER]);
      }
      return None;
    }

    /** `inside` reports the bounds assertion on the offset behind the block, which fails for the region's last block. */
    method NextAdjacentFreeBlock(block: nat, ghost i: nat) returns (inside: bool, next: Option<nat>)
      requires Holds(mem[..], heap) && i < |heap.blocks| && heap.blocks[i].off == block
      ensures inside <==> i + 1 < |heap.blocks|
      ensures next == if FreeOnRight(heap.blocks, i) then Some(heap.blocks[i + 1].off) else None
    {
      assert Tagged(mem[..], heap.blocks[i]);
      var offset := block + mem[block];
      if i + 1 < |heap.blocks| {
        Apart(heap.blocks, REGION_HEADER, mem.Length, i + 1);
        assert heap.blocks[i].End() == heap.blocks[i + 1].off && Tagged(mem[..], heap.blocks[i + 1]);
      }
      if offset >= mem[TOTAL_SIZE] {
        return false, None;
      }
      return true, if mem[offset + 1] == FREE then Some(offset) else None;
    }

    method Grow(left: nat, right: nat, ghost b: Block, ghost c: Block)
      requires REGION_HEADER <= left == b.off && right == c.off == b.End() && c.End() <= mem.Length < SIZE_LIMIT
      requires LEAST_BLOCK <= b.size && LEAST_BLOCK <= c.size && mem[left] == b.size && mem[right] == c.size
      modifies mem
      ensures Retagged(old(mem[..]), mem[..], left, b.size + c.size, true)
    {
      mem[left] := mem[left] + mem[right];
      WriteBlockTags(left, mem[left], true);
    }

    /** The free block `left` swallows its free right neighbour, which leaves the list. */
    method Join(left: nat, right: nat, ghost i: nat)
      requires Holds(mem[..], heap) && BothFree(heap.blocks, i)
      requires left == heap.blocks[i].off && right == heap.blocks[i + 1].off
      modifies mem, `heap
      ensures heap == Heap(Merge(old(heap).blocks, i), Without(old(heap).list, right)) && Holds(mem[..], heap)
      ensures Preserves(old(mem[..]), old(heap), mem[..], heap, 0)
      ensures mem[FREE_SIZE] == old(mem[FREE_SIZE])
    {
      hide Holds, Preserves, Merge, Retagged;
      ghost var before, start, b, c := mem[..], heap, heap.blocks[i], heap.blocks[i + 1];
      RemoveFreeBlock(right, i + 1);
      ghost var unlinked := mem[..];
      JoinSizes(unlinked, start, i);
      Grow(left, right, b, c);
      JoinHolds(before, unlinked, mem[..], start, i);
      heap := Heap(Merge(start.blocks, i), heap.list);
    }

    /** The block that `block` belongs to after joining it to a free left neighbour. */
    method CoalesceLeft(block: nat, ghost i: nat) returns (left: nat, ghost j: nat)
      requires Holds(mem[..], heap) && i < |heap.blocks| && heap.blocks[i].off == block && heap.blocks[i].free
      requires heap.list != [] && heap.list[0] == block
      modifies mem, `heap
      ensures (heap, j) == JoinLeft(old(heap), i) && Holds(mem[..], heap)
      ensures j < |heap.blocks| && heap.blocks[j].off == left && heap.blocks[j].free
      ensures Preserves(old(mem[..]), old(heap), mem[..], heap, 0) && mem[FREE_SIZE] == old(mem[FREE_SIZE])
    {
      var prev := PrevAdjacentFreeBlock(block, i);
      if prev.Some? {
        Join(prev.value, block, i - 1);
        return prev.value, i - 1;
      }
      PreservesSelf(mem[..], heap, 0);
      return block, i;
    }

    /** `inside` is false where the program stops at the bounds assertion. */
    method CoalesceRight(block: nat, ghost i: nat) returns (inside: bool)
      requires Holds(mem[..], heap) && i < |heap.blocks| && heap.blocks[i].off == block && heap.blocks[i].free
      modifies mem, `heap
      ensures heap == JoinRight(old(heap), i) && Holds(mem[..], heap)
      ensures inside <==> i + 1 < |old(heap).blocks|
      ensures Preserves(old(mem[..]), old(heap), mem[..], heap, 0) && mem[FREE_SIZE] == old(mem[FREE_SIZE])
    {
      var next;
      inside, next := NextAdjacentFreeBlock(block, i);
      if next.Some? {
        Join(block, next.value, i);
      } else {
        PreservesSelf(mem[..], heap, 0);
      }
    }

    method CoalesceFreeBlocks(block: nat, ghost i: nat) returns (inside: bool)
      requires Holds(mem[..], heap) && i < |heap.blocks| && heap.blocks[i].off == block && heap.blocks[i].free
      requires heap.list != [] && heap.list[0] == block
      modifies mem, `heap
      ensures var (joined, j) := JoinLeft(old(heap), i); heap == JoinRight(joined, j)
      ensures inside <==> i + 1 < |old(heap).blocks|
      ensures Holds(mem[..], heap)
      ensures Preserves(old(mem[..]), old(heap), mem[..], heap, 0) && mem[FREE_SIZE] == old(mem[FREE_SIZE])
    {
      ghost var before, start := mem[..], heap;
      var left, j := CoalesceLeft(block, i);
      ghost var between, joined := mem[..], heap;
      inside := CoalesceRight(left, j);
      PreservesBoth(before, start, between, joined, mem[..], heap, 0, 0);
    }

    // ----- The interface -----

    method WalkList(size: nat) returns (fit: Option<nat>, ghost i: nat)
      requires Holds(mem[..], heap)
      ensures fit.Some? <==> FirstFit(heap.blocks, heap.list, size).Some?
      ensures FirstFit(heap.blocks, heap.list, size) == if fit.Some? then Some(i) else None
      ensures fit.Some? ==> i < |heap.blocks| && heap.blocks[i].off == fit.value && heap.blocks[i].free
    {
      hide Holds, FirstFit, IndexOf;
      ghost var m, h := mem[..], heap;
      WalkStart(m, h, size);
      var block := mem[FIRST_FREE];
      ghost var q := 0;
      i := 0;
      while block != NULL_OFFSET
        invariant 0 <= q <= |h.list| && block == LinkTo(h.list, q)
        invariant FirstFit(h.blocks, h.list, size) == FirstFit(h.blocks, h.list[q..], size)
        decreases |h.list| - q
      {
        i := WalkStep(m, h, q, size);
        assert 0 < block < mem[TOTAL_SIZE];
        if mem[block] >= size {
          return Some(block), i;
        }
        block := mem[block + LINK];
        q := q + 1;
      }
      WalkEnd(m, h, q, size);
      return None, 0;
    }

    /** The first block on the free list with at least `size` words. */
    method FindFit(size: nat) returns (fit: Option<nat>, ghost i: nat)
      requires Holds(mem[..], heap)
      ensures fit == Heaps.Alloc(heap, size).1
      ensures fit.Some? ==> i < |heap.blocks| && heap.blocks[i].off == fit.value && heap.blocks[i].free
      ensures Heaps.Alloc(heap, size) ==
        if fit.Some? then (Heaps.Trim(Unlink(heap, i), i, size), fit) else (heap, None)
    {
      fit, i := WalkList(size);
      AllocIs(heap, size, fit, i);
    }

    /** Take a free block off the list and split it if it is too large. */
    method TakeBlock(block: nat, size: nat, ghost i: nat)
      requires Holds(mem[..], heap) && LEAST_BLOCK <= size
      requires i < |heap.blocks| && heap.blocks[i].off == block && heap.blocks[i].free
      modifies mem, `heap
      ensures heap == Heaps.Trim(Unlink(old(heap), i), i, size) && Holds(mem[..], heap)
      ensures Preserves(old(mem[..]), old(heap), mem[..], heap, 0) && mem[FREE_SIZE] == old(mem[FREE_SIZE])
    {
      ghost var before, start := mem[..], heap;
      RemoveFreeBlock(block, i);
      ghost var unlinked, between := mem[..], heap;
      TrimBlock(block, size, i);
      PreservesBoth(before, start, unlinked, between, mem[..], heap, block, block);
      PreservesAll(before, start, mem[..], heap, i);
    }

    /** The tags are written once more, and the block's words leave the count of free ones. */
    method FinishAlloc(block: nat, ghost i: nat)
      requires Holds(mem[..], heap) && mem[FREE_SIZE] < SIZE_LIMIT
      requires i < |heap.blocks| && heap.blocks[i].off == block && !heap.blocks[i].free
      modifies mem
      ensures Finished(old(mem[..]), mem[..], heap, i)
    {
      assert Tagged(mem[..], heap.blocks[i]);
      Apart(heap.blocks, REGION_HEADER, mem.Length, i);
      var size := mem[block];
      WriteBlockTags(block, size, false);
      assert mem[..] == old(mem[..]);
      mem[FREE_SIZE] := WrappingSub(mem[FREE_SIZE], size);
      FreeSizeApart(old(mem[..]), mem[..], heap, 0);
    }

    /** Take a block and count its words as used. */
    method UseBlock(block: nat, size: nat, ghost i: nat)
      requires Holds(mem[..], heap) && LEAST_BLOCK <= size && mem[FREE_SIZE] < SIZE_LIMIT
      requires i < |heap.blocks| && heap.blocks[i].off == block && heap.blocks[i].free
      modifies mem, `heap
      ensures Used(old(mem[..]), old(heap), mem[..], heap, i, size)
    {
      ghost var before, start := mem[..], heap;
      TakeBlock(block, size, i);
      ghost var taken := mem[..];
      FinishAlloc(block, i);
      TakenUsed(before, start, taken, mem[..], heap, i, size);
    }

    /** Everything an allocation does once it has found a block. */
    method AllocFrom(block: nat, size: nat, ghost i: nat)
      requires Valid() && LEAST_BLOCK <= size
      requires i < |heap.blocks| && heap.blocks[i].off == block && heap.blocks[i].free
      modifies mem, `heap, `wraps
      ensures Valid() && drift == old(drift)
      ensures heap == Heaps.Trim(Unlink(old(heap), i), i, size)
      ensures Preserves(old(mem[..]), old(heap), mem[..], heap, 0)
    {
      ghost var before, start := mem[..], heap;
      UseBlock(block, size, i);
      wraps := UseSound(before, start, mem[..], heap, drift, wraps, i, size);
    }

    method AllocBlock(size: nat) returns (block: Option<nat>)
      requires Valid() && LEAST_BLOCK <= size
      modifies mem, `heap, `wraps
      ensures Valid() && drift == old(drift)
      ensures Heaps.Alloc(old(heap), size) == (heap, block)
      ensures Preserves(old(mem[..]), old(heap), mem[..], heap, 0)
    {
      ghost var i;
      block, i := FindFit(size);
      if block.Some? {
        AllocFrom(block.value, size, i);
      } else {
        PreservesSelf(mem[..], heap, 0);
      }
    }

    /** Returns the offset of the payload, or None. */
    method Alloc() returns (ptr: Option<nat>)
      requires Valid()
      modifies mem, `heap, `wraps
      ensures Valid() && drift == old(drift) && AllocSize() == old(AllocSize())
      ensures var (after, block) := Heaps.Alloc(old(heap), old(AllocSize()));
        heap == after && ptr == PayloadOf(block)
      ensures Chosen(old(heap), old(AllocSize()), ptr, heap)
      ensures Preserves(old(mem[..]), old(heap), mem[..], heap, 0)
    {
      AllocChooses(heap, mem.Length, AllocSize());
      var block := AllocBlock(mem[MAX_MESSAGE_SIZE] + BLOCK_TAGS);
      return PayloadOf(block);
    }

    /** Block `i` is allocated and its payload is at `ptr`. */
    ghost predicate Allocated(ptr: nat, i: nat)
      reads `heap
    {
      i < |heap.blocks| && !heap.blocks[i].free && ptr == heap.blocks[i].off + BLOCK_HEADER
    }

    /** The block's words go back into the count of free ones and the block to the head of the list. */
    method PushFreed(block: nat, ghost i: nat)
      requires Holds(mem[..], heap) && mem[FREE_SIZE] < SIZE_LIMIT
      requires i < |heap.blocks| && heap.blocks[i].off == block && !heap.blocks[i].free
      modifies mem, `heap
      ensures heap == Push(old(heap), i) && Holds(mem[..], heap)
      ensures Preserves(old(mem[..]), old(heap), mem[..], heap, block)
      ensures old(heap).blocks[i].size < SIZE_LIMIT
      ensures mem[FREE_SIZE] == WrappingAdd(old(mem[FREE_SIZE]), old(heap).blocks[i].size)
    {
      ghost var before, start, b := mem[..], heap, heap.blocks[i];
      assert Tagged(before, b);
      Apart(heap.blocks, REGION_HEADER, mem.Length, i);
      mem[FREE_SIZE] := WrappingAdd(mem[FREE_SIZE], mem[block]);
      ghost var counted := mem[..];
      FreeSizeApart(before, counted, heap, block);
      AddFreeBlock(block, b);
      PushHolds(counted, mem[..], heap, i);
      heap := Push(heap, i);
      PreservesBoth(before, start, counted, start, mem[..], heap, block, block);
    }

    method FreeBlock(block: nat, ghost i: nat) returns (completed: bool)
      requires Holds(mem[..], heap) && mem[FREE_SIZE] < SIZE_LIMIT
      requires i < |heap.blocks| && heap.blocks[i].off == block && !heap.blocks[i].free
      modifies mem, `heap
      ensures Freed(old(mem[..]), old(heap), mem[..], heap, i)
      ensures completed <==> i + 1 < |old(heap).blocks|
    {
      ghost var before, start := mem[..], heap;
      PushFreed(block, i);
      ghost var pushed, between := mem[..], heap;
      completed := CoalesceFreeBlocks(block, i);
      PreservesBoth(before, start, pushed, between, mem[..], heap, block, 0);
    }

    /** Returns false where the program stops at a bounds assertion, with the lock held: exactly when the block is
        the last one of the region. All its writes are done by then. */
    method Free(ptr: nat, ghost i: nat) returns (completed: bool)
      requires Valid() && Allocated(ptr, i)
      modifies mem, `heap, `wraps
      ensures Valid() && drift == old(drift) && AllocSize() == old(AllocSize())
      ensures Freed(old(mem[..]), old(heap), mem[..], heap, i)
      ensures heap.list == StillFree([ptr - 3] + old(heap).list, heap.blocks)
      ensures completed <==> old(heap.blocks[i]).End() != mem.Length
    {
      ghost var before, start := mem[..], heap;
      completed := FreeBlock(ptr - BLOCK_HEADER, i);
      wraps := FreeSound(before, start, mem[..], heap, drift, wraps, i);
    }

    /** Shrink an allocation to `newSize` bytes of payload. Sizes near 2^64, for which the sum of payload and tags
        would wrap, are not covered. */
    method Trim(ptr: nat, newSize: nat, ghost i: nat)
      requires Valid() && Allocated(ptr, i) && 0 < newSize
      requires BlockWords(newSize) + MIN_BLOCK < SIZE_LIMIT
      modifies mem, `heap, `drift
      ensures Valid() && AllocSize() == old(AllocSize()) && mem[FREE_SIZE] == old(mem[FREE_SIZE])
      ensures CutDown(old(mem[..]), old(heap), mem[..], heap, i, BlockWords(newSize))
      ensures drift == old(drift) + SplitOff(old(heap.blocks[i]), BlockWords(newSize))
      ensures CutOff(old(heap), i, BlockWords(newSize), heap)
    {
      ghost var before, start := mem[..], heap;
      var totalSize := BlockWords(newSize);
      TrimOrder(start, i, totalSize);
      TrimBlock(ptr - BLOCK_HEADER, totalSize, i);
      drift := drift + SplitOff(start.blocks[i], totalSize);
      TrimSound(before, start, mem[..], heap, old(drift), wraps, i, totalSize);
    }
  }
}
