/** The words of the region determine the heap: walking the tags gives its blocks and walking the links its list. */
module RegionReads {
  import opened Layout
  import opened Heaps
  import opened HeapInvariants
  import opened Region

  /** The blocks from `off` on, each found behind the one before it by its size; the walk stops at a size of 0. */
  function ReadBlocks(m: Memory, off: nat): seq<Block>
    decreases |m| - off
  {
    if off + 1 >= |m| || m[off] == 0 then []
    else [Block(off, m[off], m[off + 1] == FREE)] + ReadBlocks(m, off + m[off])
  }

  /** The same blocks, from the one that ends at `end` back to the start of the region, found by their footers. */
  function ReadBlocksBack(m: Memory, end: nat): seq<Block>
    decreases end
  {
    if end < REGION_HEADER + BLOCK_FOOTER || end > |m| || m[end - BLOCK_FOOTER] == 0 || end < m[end - BLOCK_FOOTER]
    then []
    else
      var off := end - m[end - BLOCK_FOOTER];
      ReadBlocksBack(m, off) + [Block(off, m[end - BLOCK_FOOTER], m[end - 1] == FREE)]
  }

  /** The list from `off` on, at most `fuel` blocks of it. */
  function ReadList(m: Memory, off: nat, fuel: nat): seq<nat>
    decreases fuel
  {
    if fuel == 0 || off == NULL_OFFSET || off + LINK >= |m| then []
    else [off] + ReadList(m, m[off + LINK], fuel - 1)
  }

  lemma {:induction false} BlocksRead(m: Memory, h: Heap, i: nat)
    requires Holds(m, h) && i <= |h.blocks|
    ensures ReadBlocks(m, if i < |h.blocks| then h.blocks[i].off else |m|) == h.blocks[i..]
    decreases |h.blocks| - i
  {
    if i < |h.blocks| {
      BlocksRead(m, h, i + 1);
      BlockRead(m, h, i);
      assert h.blocks[i..] == [h.blocks[i]] + h.blocks[i + 1..];
    }
  }

  /** What the tags of block `i` say. */
  lemma BlockRead(m: Memory, h: Heap, i: nat)
    requires Holds(m, h) && i < |h.blocks|
    ensures var b := h.blocks[i];
      && REGION_HEADER <= b.off && LEAST_BLOCK <= b.size && b.End() <= |m|
      && m[b.off] == b.size == m[b.End() - BLOCK_FOOTER]
      && b == Block(b.off, m[b.off], m[b.off + 1] == FREE) == Block(b.off, m[b.off], m[b.End() - 1] == FREE)
      && b.End() == (if i + 1 < |h.blocks| then h.blocks[i + 1].off else |m|)
  {
    assert Tagged(m, h.blocks[i]);
    Apart(h.blocks, REGION_HEADER, |m|, i);
  }

  lemma {:induction false} BlocksReadBack(m: Memory, h: Heap, i: nat)
    requires Holds(m, h) && i <= |h.blocks|
    ensures ReadBlocksBack(m, if i == 0 then REGION_HEADER else h.blocks[i - 1].End()) == h.blocks[..i]
  {
    if i > 0 {
      BlockRead(m, h, i - 1);
      if i > 1 { BlockRead(m, h, i - 2); }
      BlocksReadBack(m, h, i - 1);
      assert h.blocks[..i] == h.blocks[..i - 1] + [h.blocks[i - 1]];
    }
  }

  lemma {:induction false} ListRead(m: Memory, h: Heap, q: nat, fuel: nat)
    requires Holds(m, h) && q <= |h.list| <= q + fuel
    ensures ReadList(m, LinkTo(h.list, q), fuel) == h.list[q..]
    decreases fuel
  {
    hide HoldsBut;
    if q < |h.list| {
      var i := Visit(m, h, q);
      ListRead(m, h, q + 1, fuel - 1);
      assert h.list[q..] == [h.list[q]] + h.list[q + 1..];
    }
  }

  /** Distinct numbers below `n` are at most `n`. */
  lemma {:induction false} FewBelow(list: seq<nat>, n: nat)
    requires forall i, j :: 0 <= i < j < |list| ==> list[i] != list[j]
    requires forall i :: 0 <= i < |list| ==> list[i] < n
    ensures |list| <= n
  {
    if list == [] {
    } else if k :| 0 <= k < |list| && list[k] == n - 1 {
      var rest := list[..k] + list[k + 1..];
      assert forall i :: 0 <= i < |rest| ==> rest[i] == list[if i < k then i else i + 1];
      FewBelow(rest, n - 1);
    } else {
      assert list[0] < n;
      FewBelow(list, n - 1);
    }
  }

  lemma ShortList(h: Heap, end: nat)
    requires WellFormed(h, end)
    ensures |h.list| < end
  {
    var last := |h.blocks| - 1;
    Apart(h.blocks, REGION_HEADER, end, last);
    forall k | 0 <= k < |h.list| ensures h.list[k] < end - 1 {
      var i := Listed(h, end, k);
      Apart(h.blocks, REGION_HEADER, end, i);
    }
    FewBelow(h.list, end - 1);
  }

  /** The three walks agree with the heap: forwards by headers, backwards by footers, and along the links, which end
      after fewer steps than there are words. */
  lemma ReadsHeap(m: Memory, h: Heap)
    requires Holds(m, h)
    ensures ReadBlocks(m, REGION_HEADER) == h.blocks == ReadBlocksBack(m, |m|)
    ensures ReadList(m, m[FIRST_FREE], |m|) == h.list && |h.list| < |m|
  {
    BlocksRead(m, h, 0);
    BlocksReadBack(m, h, |h.blocks|);
    assert h.blocks[0..] == h.blocks == h.blocks[..|h.blocks|] && h.list[0..] == h.list;
    FirstVisit(m, h);
    ShortList(h, |m|);
    ListRead(m, h, 0, |m|);
  }

  /** So the words hold at most one heap. */
  lemma OneHeap(m: Memory, h: Heap, h': Heap)
    requires Holds(m, h) && Holds(m, h')
    ensures h == h'
  {
    ReadsHeap(m, h);
    ReadsHeap(m, h');
  }
}
