/** Consequences of the allocator's invariant and layout that no single operation states. */
module AllocatorFacts {
  import opened Layout
  import opened Heaps
  import opened HeapCounts
  import opened HeapBounds
  import opened HeapRuns
  import opened Region
  import opened Allocator
  import opened Wrappers

  // ----- The size test -----

  /** In a region with room for the first block's tags, the first allocation fails exactly if that block is too small
      for the largest message, although the region may have passed the program's test. */
  lemma FirstAllocFailsIff(words: nat, maxMessageSize: nat)
    requires FitsFirstBlock(words) && maxMessageSize > 0
    ensures Heaps.Alloc(Fresh(words), BlockWords(maxMessageSize)).1.None? <==>
      words - REGION_HEADER < BlockWords(maxMessageSize)
  {
    FreshWellFormed(words);
    AllocFailsIff(Fresh(words), words, BlockWords(maxMessageSize));
  }

  /** For no message size does the test leave room for a message: the smallest region that passes it either cannot hold
      the first block or cannot serve a single allocation. */
  lemma CreateTestNeverEnough(maxMessageSize: nat)
    requires maxMessageSize > 0
    ensures var words := 2 + Align(maxMessageSize) + BLOCK_HEADER;
      && Admits(words, maxMessageSize)
      && (FitsFirstBlock(words) <==> maxMessageSize > 40)
      && (FitsFirstBlock(words) ==> Heaps.Alloc(Fresh(words), BlockWords(maxMessageSize)).1.None?)
  {
    var words := 2 + Align(maxMessageSize) + BLOCK_HEADER;
    if FitsFirstBlock(words) { FirstAllocFailsIff(words, maxMessageSize); }
  }

  // ----- The free-size cell -----

  lemma {:induction false} FreeAtMost(bs: seq<Block>)
    ensures FreeWords(bs) <= Words(bs)
  {
    if bs != [] { FreeAtMost(bs[1..]); }
  }

  lemma Modulo(x: nat, y: int, k: int)
    requires x < SIZE_LIMIT && y == x + k * SIZE_LIMIT
    ensures x == y % SIZE_LIMIT
  {
    var q := y / SIZE_LIMIT;
    assert x - y % SIZE_LIMIT == (q - k) * SIZE_LIMIT;
  }

  /** The cell is the number of free words less the words that public trims have split off, modulo 2^61; without such
      trims it is exact, and every trim that splits takes it off by as much as it splits off. */
  lemma FreeSizeCell(m: Memory, h: Heap, drift: nat, wraps: int)
    requires Sound(m, h, drift, wraps)
    ensures m[FREE_SIZE] == (FreeWords(h.blocks) - drift) % 0x2000_0000_0000_0000
    ensures m[FREE_SIZE] == FreeWords(h.blocks) <==> drift % 0x2000_0000_0000_0000 == 0
  {
    FreeAtMost(h.blocks);
    TiledWords(h.blocks, REGION_HEADER, |m|);
    Modulo(m[FREE_SIZE], FreeWords(h.blocks) - drift, -wraps);
    var free, q := FreeWords(h.blocks), drift / SIZE_LIMIT;
    var cell: int := m[FREE_SIZE];
    assert cell - free == wraps * SIZE_LIMIT - drift;
    if drift % SIZE_LIMIT == 0 { assert cell - free == (wraps - q) * SIZE_LIMIT; }
    if cell == free { Modulo(0, drift, wraps); }
  }

  // ----- The edges of the region -----

  /** The program compares 32 bits of the word before a block with the FREE tag. In front of the first block that word
      is the head of the free list in bytes; right after pushing that block it does not look FREE. */
  lemma LeftEdge(m: Memory, h: Heap)
    requires Holds(m, h) && h.list != [] && h.list[0] == h.blocks[0].off
    ensures h.blocks[0].off - 1 == FIRST_FREE
    ensures (8 * (m[h.blocks[0].off - 1] as int)) % 0x1_0000_0000 != FREE
  {
    FirstVisit(m, h);
  }

  /** In a region of 192 bytes for messages of 64, the first allocation takes the whole region, so that freeing it runs
      into the bounds assertion (see `Allocator.Free`). */
  lemma LastBlockTaken()
    ensures Heaps.Alloc(Fresh(24), 8 + BLOCK_TAGS) == (Heap([Block(REGION_HEADER, 19, false)], []), Some(REGION_HEADER))
    ensures Block(REGION_HEADER, 19, false).End() == 24
  {
    var h := Fresh(24);
    assert IndexOf(h.blocks, REGION_HEADER) == 0;
    assert FirstFit(h.blocks, h.list, 13) == Some(0);
    assert Unlink(h, 0) == Heap([Block(REGION_HEADER, 19, false)], []);
  }
}
