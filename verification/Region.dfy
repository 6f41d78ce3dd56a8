/** How a heap is laid out in the words of the region: tags, links and allocator header. */
module Region {
  import opened Layout
  import opened Heaps
  import opened HeapInvariants

  type Memory = seq<Word>

  /** Header and footer of `b` agree on its size and type. */
  ghost predicate Tagged(m: Memory, b: Block) {
    && b.size >= LEAST_BLOCK && b.End() <= |m|
    && m[b.off] == b.size == m[b.End() - 2]
    && m[b.off + 1] == Tag(b.free) == m[b.End() - 1]
  }

  /** Where the link to position `k` of the list is stored, and what it holds. */
  function LinkWord(list: seq<nat>, k: nat): nat
    requires k <= |list|
  {
    if k == 0 then FIRST_FREE else list[k - 1] + LINK
  }

  function LinkTo(list: seq<nat>, k: nat): nat {
    if k < |list| then list[k] else NULL_OFFSET
  }

  ghost predicate Linked(m: Memory, list: seq<nat>) {
    forall k :: 0 <= k <= |list| ==> LinkWord(list, k) < |m| && m[LinkWord(list, k)] == LinkTo(list, k)
  }

  ghost predicate Sized(m: Memory) {
    REGION_HEADER < |m| < SIZE_LIMIT && m[TOTAL_SIZE] == |m| - REGION_HEADER
  }

  /** The region holds heap `h`, except that the tags and link of block `skip` are not settled yet. */
  ghost predicate HoldsBut(m: Memory, h: Heap, skip: int) {
    && Sized(m) && WellFormed(h, |m|) && Linked(m, h.list)
    && forall i :: 0 <= i < |h.blocks| && i != skip ==> Tagged(m, h.blocks[i])
  }

  ghost predicate Holds(m: Memory, h: Heap) {
    HoldsBut(m, h, -1)
  }

  /** Only words of [lo, hi) and word `x` may differ. */
  ghost predicate SameOutside(m: Memory, n: Memory, lo: int, hi: int, x: int) {
    |n| == |m| && forall w :: 0 <= w < |m| && !(lo <= w < hi) && w != x ==> n[w] == m[w]
  }

  ghost predicate Untouched(m: Memory, n: Memory, b: Block)
    requires |m| == |n| && b.End() <= |m|
  {
    forall w :: b.off <= w < b.End() ==> n[w] == m[w]
  }

  /** Allocated blocks, other than one at `off`, are not written to; nor are the lock and the fixed sizes in the
      header. */
  ghost predicate Spares(m: Memory, n: Memory, bs: seq<Block>, off: nat) {
    && |m| == |n| && |m| > REGION_HEADER
    && n[0] == m[0] && n[TOTAL_SIZE] == m[TOTAL_SIZE] && n[MAX_MESSAGE_SIZE] == m[MAX_MESSAGE_SIZE]
    && forall b :: b in bs && !b.free && b.off != off ==>
      REGION_HEADER <= b.off && b.End() <= |m| && Untouched(m, n, b)
  }

  /** From memory `m` holding `h` to memory `n` holding `after`, every allocated block, other than one at `off`,
      is still there and was not written to; nor were the lock and the fixed sizes. (No block is at 0.) */
  ghost predicate Preserves(m: Memory, h: Heap, n: Memory, after: Heap, off: nat) {
    && |m| == |n| && |m| > REGION_HEADER
    && n[0] == m[0] && n[TOTAL_SIZE] == m[TOTAL_SIZE] && n[MAX_MESSAGE_SIZE] == m[MAX_MESSAGE_SIZE]
    && forall b :: b in h.blocks && !b.free && b.off != off ==>
      b in after.blocks && REGION_HEADER <= b.off && b.End() <= |m| && Untouched(m, n, b)
  }

  // ----- What the primitive writes do -----

  /** `b` was marked free and put at the head of the list. */
  ghost predicate Hooked(m: Memory, n: Memory, b: Block) {
    && REGION_HEADER <= b.off && b.End() <= |m| && SameOutside(m, n, b.off, b.End(), FIRST_FREE)
    && Tagged(n, b.(free := true)) && n[b.off + LINK] == m[FIRST_FREE] && n[FIRST_FREE] == b.off
  }

  /** The link to `b`, stored at `link`, was bent past it and `b` was marked allocated. */
  ghost predicate Unhooked(m: Memory, n: Memory, b: Block, link: nat) {
    && REGION_HEADER <= b.off && b.End() <= |m| && FIRST_FREE <= link < |m|
    && SameOutside(m, n, b.off, b.End(), link)
    && Tagged(n, b.(free := false)) && n[link] == m[b.off + LINK]
  }

  /** The tags of a block of `size` words at `off` were written, and nothing between them. */
  ghost predicate Retagged(m: Memory, n: Memory, off: nat, size: nat, free: bool) {
    && REGION_HEADER <= off
    && SameOutside(m, n, off, off + size, off) && Tagged(n, Block(off, size, free))
    && forall w :: off + 1 < w < off + size - 2 ==> n[w] == m[w]
  }

  /** An allocated block was cut after `size` words and the right part, once `cut` was reached, hooked into the
      list: what is left of the block's payload is as it was. */
  ghost predicate Cut(m: Memory, n: Memory, b: Block, size: nat) {
    exists cut: Memory :: CutTags(m, cut, b, size) && Hooked(cut, n, Block(b.off + size, b.size - size, false))
  }

  ghost predicate CutTags(m: Memory, n: Memory, b: Block, size: nat) {
    && LEAST_BLOCK <= size && Splits(b, size) && REGION_HEADER <= b.off && b.End() <= |m|
    && SameOutside(m, n, b.off, b.End(), b.off)
    && Tagged(n, Block(b.off, size, false)) && n[b.off + size] == b.size - size
    && forall w :: b.off + 1 < w < b.off + size - 2 ==> n[w] == m[w]
  }

  // ----- The list and the blocks it names -----

  /** Dropping position `k` bends the link before it to where the link after it points. */
  lemma LinksWithout(list: seq<nat>, k: nat, q: nat)
    requires k < |list| && q < |list|
    requires forall i, j :: 0 <= i < j < |list| ==> list[i] != list[j]
    ensures |Without(list, list[k])| == |list| - 1
    ensures LinkWord(Without(list, list[k]), q) == LinkWord(list, if q <= k then q else q + 1)
    ensures LinkTo(Without(list, list[k]), q) == LinkTo(list, if q < k then q else q + 1)
  {
    WithoutAt(list, k);
  }

  /** The link to position `r` is stored in block `p` only if `p` is the block listed before that position. */
  lemma LinkOutside(h: Heap, end: nat, p: nat, r: nat)
    requires WellFormed(h, end) && p < |h.blocks| && r <= |h.list|
    requires r > 0 ==> h.list[r - 1] != h.blocks[p].off
    ensures LinkWord(h.list, r) < h.blocks[p].off || h.blocks[p].End() <= LinkWord(h.list, r)
    ensures FIRST_FREE <= LinkWord(h.list, r) < end && REGION_HEADER <= h.blocks[p].off && h.blocks[p].End() <= end
  {
    Apart(h.blocks, REGION_HEADER, end, p);
    if r > 0 {
      var j := Listed(h, end, r - 1);
      Disjoint(h.blocks, REGION_HEADER, end, j, p);
    }
  }

  lemma LinkWordsDistinct(h: Heap, end: nat, q: nat, r: nat)
    requires WellFormed(h, end) && q < r <= |h.list|
    ensures LinkWord(h.list, q) != LinkWord(h.list, r)
  {
    var j := Listed(h, end, r - 1);
  }

  /** What a walk of the list finds at position `q`. */
  lemma Visit(m: Memory, h: Heap, q: nat) returns (i: nat)
    requires Holds(m, h) && q < |h.list|
    ensures i < |h.blocks| && h.blocks[i].off == h.list[q] && IndexOf(h.blocks, h.list[q]) == i
    ensures h.list[q] + LINK < |m| < NULL_OFFSET && m[h.list[q]] == h.blocks[i].size
    ensures 0 < h.list[q] < m[TOTAL_SIZE]
    ensures m[h.list[q] + LINK] == LinkTo(h.list, q + 1)
  {
    i := Listed(h, |m|, q);
    Apart(h.blocks, REGION_HEADER, |m|, i);
    assert Tagged(m, h.blocks[i]);
    assert LinkWord(h.list, q + 1) == h.list[q] + LINK && m[LinkWord(h.list, q + 1)] == LinkTo(h.list, q + 1);
  }

  lemma FirstVisit(m: Memory, h: Heap)
    requires Holds(m, h)
    ensures m[FIRST_FREE] == LinkTo(h.list, 0)
  {
    assert LinkWord(h.list, 0) == FIRST_FREE;
  }

  // ----- Writes around blocks -----

  /** Writes inside blocks `i` to `k`, and to the link of block `p` or to the head of the list. */
  ghost predicate WritesAt(m: Memory, n: Memory, bs: seq<Block>, i: nat, k: nat, p: nat, x: int)
    requires i <= k < |bs| && p < |bs|
  {
    SameOutside(m, n, bs[i].off, bs[k].End(), x) && (x == FIRST_FREE || x == bs[p].off + LINK)
  }

  lemma OutsideRange(bs: seq<Block>, end: nat, i: nat, k: nat, j: nat)
    requires Tiles(bs, REGION_HEADER, end) && i <= k < |bs| && j < |bs| && (j < i || k < j)
    ensures bs[j].End() <= bs[i].off || bs[k].End() <= bs[j].off
    ensures bs[i].off < bs[k].End()
  {
    if i < k { Ordered(bs, REGION_HEADER, end, i, k); }
    if j < i { Ordered(bs, REGION_HEADER, end, j, i); } else { Ordered(bs, REGION_HEADER, end, k, j); }
  }

  lemma Elsewhere(m: Memory, n: Memory, bs: seq<Block>, i: nat, k: nat, p: nat, x: int, j: nat)
    requires Tiles(bs, REGION_HEADER, |m|) && i <= k < |bs| && p < |bs| && WritesAt(m, n, bs, i, k, p, x)
    requires j < i || k < j < |bs|
    ensures REGION_HEADER <= bs[j].off && bs[j].End() <= |m| && (j != p || x == FIRST_FREE ==> Untouched(m, n, bs[j]))
    ensures Tagged(m, bs[j]) ==> Tagged(n, bs[j])
  {
    Disjoint(bs, REGION_HEADER, |m|, j, i);
    Disjoint(bs, REGION_HEADER, |m|, j, k);
    OutsideRange(bs, |m|, i, k, j);
    if j != p { Disjoint(bs, REGION_HEADER, |m|, j, p); }
  }

  lemma Around(m: Memory, n: Memory, bs: seq<Block>, i: nat, k: nat, p: nat, x: int, off: nat)
    requires Tiles(bs, REGION_HEADER, |m|) && i <= k < |bs| && p < |bs| && WritesAt(m, n, bs, i, k, p, x)
    requires x == FIRST_FREE || bs[p].free
    requires forall j :: i <= j <= k ==> bs[j].free || bs[j].off == off
    ensures forall j :: (0 <= j < i || k < j < |bs|) && Tagged(m, bs[j]) ==> Tagged(n, bs[j])
    ensures Spares(m, n, bs, off)
    ensures (Sized(m) ==> Sized(n)) && n[FREE_SIZE] == m[FREE_SIZE]
  {
    Apart(bs, REGION_HEADER, |m|, i);
    Apart(bs, REGION_HEADER, |m|, p);
    forall j | 0 <= j < i || k < j < |bs|
      ensures Tagged(m, bs[j]) ==> Tagged(n, bs[j])
      ensures REGION_HEADER <= bs[j].off && bs[j].End() <= |m| && (j != p || x == FIRST_FREE ==> Untouched(m, n, bs[j]))
    {
      Elsewhere(m, n, bs, i, k, p, x, j);
    }
    forall b | b in bs && !b.free && b.off != off
      ensures REGION_HEADER <= b.off && b.End() <= |m| && Untouched(m, n, b)
    {
      var j :| 0 <= j < |bs| && bs[j] == b;
    }
  }

  // ----- Frames -----

  lemma PreservesBoth(m: Memory, h: Heap, n: Memory, h': Heap, p: Memory, h'': Heap, off: nat, away: nat)
    requires Preserves(m, h, n, h', off) && Preserves(n, h', p, h'', away)
    requires away == off || away == 0
    ensures Preserves(m, h, p, h'', off)
  {
    forall b | b in h.blocks && !b.free && b.off != off
      ensures b in h''.blocks && b.End() <= |m| && Untouched(m, p, b)
    {
      assert Untouched(m, n, b) && Untouched(n, p, b);
      assert forall w :: b.off <= w < b.End() ==> n[w] == m[w];
    }
  }

  lemma PreservesSelf(m: Memory, h: Heap, off: nat)
    requires Holds(m, h)
    ensures Preserves(m, h, m, h, off)
  {
    forall b | b in h.blocks ensures REGION_HEADER <= b.off && b.End() <= |m| {
      var j :| 0 <= j < |h.blocks| && h.blocks[j] == b;
      Apart(h.blocks, REGION_HEADER, |m|, j);
    }
  }

  /** The exception is void if the block at that offset was free. */
  lemma PreservesAll(m: Memory, h: Heap, n: Memory, after: Heap, i: nat)
    requires WellFormed(h, |m|) && i < |h.blocks| && h.blocks[i].free && Preserves(m, h, n, after, h.blocks[i].off)
    ensures Preserves(m, h, n, after, 0)
  {
    OffsetsDistinct(h.blocks, REGION_HEADER, |m|, i);
    forall b | b in h.blocks && !b.free ensures b.off != h.blocks[i].off {
      var j :| 0 <= j < |h.blocks| && h.blocks[j] == b;
    }
  }

  // ----- Pushing -----

  lemma PushLinks(m: Memory, n: Memory, h: Heap, i: nat)
    requires i < |h.blocks| && !h.blocks[i].free && WellFormed(h, |m|) && Linked(m, h.list)
    requires Hooked(m, n, h.blocks[i])
    ensures Linked(n, Push(h, i).list)
  {
    var list := Push(h, i).list;
    forall k | 0 <= k <= |list| ensures LinkWord(list, k) < |n| && n[LinkWord(list, k)] == LinkTo(list, k) {
      if k > 0 {
        assert LinkWord(h.list, k - 1) < |m| && m[LinkWord(h.list, k - 1)] == LinkTo(h.list, k - 1);
        if k > 1 {
          var p := Listed(h, |m|, k - 2);
          OffsetsDistinct(h.blocks, REGION_HEADER, |m|, i);
          LinkOutside(h, |m|, i, k - 1);
        }
      }
    }
  }

  lemma PushHolds(m: Memory, n: Memory, h: Heap, i: nat)
    requires i < |h.blocks| && !h.blocks[i].free && HoldsBut(m, h, i) && Hooked(m, n, h.blocks[i])
    ensures Holds(n, Push(h, i)) && n[FREE_SIZE] == m[FREE_SIZE]
    ensures Preserves(m, h, n, Push(h, i), h.blocks[i].off)
  {
    PushKeeps(h, |m|, i);
    SetFreeMembers(h.blocks, i, true);
    PushLinks(m, n, h, i);
    Around(m, n, h.blocks, i, i, i, FIRST_FREE, h.blocks[i].off);
    assert forall j :: 0 <= j < |h.blocks| ==> Tagged(n, Push(h, i).blocks[j]);
  }

  // ----- Unlinking -----

  lemma UnlinkLinks(m: Memory, n: Memory, h: Heap, i: nat, k: nat)
    requires WellFormed(h, |m|) && Linked(m, h.list)
    requires i < |h.blocks| && k < |h.list| && h.list[k] == h.blocks[i].off
    requires Unhooked(m, n, h.blocks[i], LinkWord(h.list, k))
    ensures Linked(n, Unlink(h, i).list)
  {
    var was, list := h.list, Unlink(h, i).list;
    LinksWithout(was, k, 0);
    forall q | 0 <= q <= |list| ensures LinkWord(list, q) < |n| && n[LinkWord(list, q)] == LinkTo(list, q) {
      LinksWithout(was, k, q);
      var r := if q <= k then q else q + 1;
      assert LinkWord(was, r) < |m| && m[LinkWord(was, r)] == LinkTo(was, r);
      if q == k {
        assert m[LinkWord(was, k + 1)] == LinkTo(was, k + 1);
      } else {
        LinkOutside(h, |m|, i, r);
        LinkWordsDistinct(h, |m|, if r < k then r else k, if r < k then k else r);
      }
    }
  }

  /** The block, if any, whose link points to position `k`. */
  lemma Before(h: Heap, end: nat, k: nat) returns (p: nat)
    requires WellFormed(h, end) && k < |h.list|
    ensures p < |h.blocks| && h.blocks[p].free
    ensures LinkWord(h.list, k) == FIRST_FREE || LinkWord(h.list, k) == h.blocks[p].off + LINK
  {
    p := Listed(h, end, if k == 0 then 0 else k - 1);
  }

  lemma UnlinkHolds(m: Memory, n: Memory, h: Heap, i: nat, k: nat)
    requires Holds(m, h) && i < |h.blocks| && h.blocks[i].free && k < |h.list| && h.list[k] == h.blocks[i].off
    requires Unhooked(m, n, h.blocks[i], LinkWord(h.list, k))
    ensures Holds(n, Unlink(h, i)) && n[FREE_SIZE] == m[FREE_SIZE]
    ensures Preserves(m, h, n, Unlink(h, i), h.blocks[i].off)
  {
    hide ListsFree, Linked;
    var p := Before(h, |m|, k);
    SetFreeMembers(h.blocks, i, false);
    UnlinkKeeps(h, |m|, i);
    UnlinkLinks(m, n, h, i, k);
    Around(m, n, h.blocks, i, i, p, LinkWord(h.list, k), h.blocks[i].off);
    assert forall j :: 0 <= j < |h.blocks| ==> Tagged(n, Unlink(h, i).blocks[j]);
  }

  // ----- Joining and cutting -----

  /** Writes inside blocks `i` to `k` that miss the links of free blocks leave the list as it was. */
  lemma LinksKept(m: Memory, n: Memory, h: Heap, i: nat, k: nat)
    requires WellFormed(h, |m|) && Linked(m, h.list)
    requires i <= k < |h.blocks| && SameOutside(m, n, h.blocks[i].off, h.blocks[k].End(), h.blocks[i].off)
    requires forall j :: i <= j <= k && h.blocks[j].free ==>
      h.blocks[j].off + LINK < |m| && n[h.blocks[j].off + LINK] == m[h.blocks[j].off + LINK]
    ensures Linked(n, h.list)
  {
    hide ListsFree;
    forall q | 0 <= q <= |h.list|
      ensures LinkWord(h.list, q) < |n| && n[LinkWord(h.list, q)] == LinkTo(h.list, q)
    {
      assert LinkWord(h.list, q) < |m| && m[LinkWord(h.list, q)] == LinkTo(h.list, q);
      if q == 0 {
        Apart(h.blocks, REGION_HEADER, |m|, i);
      } else {
        var j := Listed(h, |m|, q - 1);
        if j < i || k < j { OutsideRange(h.blocks, |m|, i, k, j); }
      }
    }
  }

  lemma MergeTags(m: Memory, n: Memory, bs: seq<Block>, i: nat)
    requires Tiles(bs, REGION_HEADER, |m|) && Sized(m) && i + 1 < |bs| && bs[i].free
    requires forall j :: 0 <= j < |bs| ==> Tagged(m, bs[j])
    requires Retagged(m, n, bs[i].off, bs[i].size + bs[i + 1].size, true)
    ensures forall j :: 0 <= j < |bs| - 1 ==> Tagged(n, Merge(bs, i)[j])
    ensures Sized(n) && n[FREE_SIZE] == m[FREE_SIZE] && Spares(m, n, bs, bs[i + 1].off)
  {
    assert bs[i].End() == bs[i + 1].off;
    Around(m, n, bs, i, i + 1, i, bs[i].off + LINK, bs[i + 1].off);
    forall j | 0 <= j < |bs| - 1 ensures Tagged(n, Merge(bs, i)[j]) {
      assert j != i ==> Tagged(m, bs[if j < i then j else j + 1]);
    }
  }

  lemma MergeHolds(m: Memory, n: Memory, h: Heap, i: nat)
    requires Holds(m, h) && i + 1 < |h.blocks| && h.blocks[i].free && !h.blocks[i + 1].free
    requires WellFormed(Heap(Merge(h.blocks, i), h.list), |m|)
    requires Retagged(m, n, h.blocks[i].off, h.blocks[i].size + h.blocks[i + 1].size, true)
    ensures Holds(n, Heap(Merge(h.blocks, i), h.list)) && n[FREE_SIZE] == m[FREE_SIZE]
    ensures Spares(m, n, h.blocks, h.blocks[i + 1].off)
  {
    hide ListsFree, Linked;
    assert h.blocks[i].End() == h.blocks[i + 1].off;
    MergeTags(m, n, h.blocks, i);
    LinksKept(m, n, h, i, i + 1);
  }

  lemma MergePreserves(m: Memory, n: Memory, h: Heap, i: nat, list: seq<nat>)
    requires Tiles(h.blocks, REGION_HEADER, |m|) && i + 1 < |h.blocks| && h.blocks[i].free
    requires Spares(m, n, h.blocks, h.blocks[i + 1].off)
    ensures Preserves(m, h, n, Heap(Merge(h.blocks, i), list), h.blocks[i + 1].off)
  {
    OffsetsDistinct(h.blocks, REGION_HEADER, |m|, i);
    MergeMembers(h.blocks, i);
    forall b | b in h.blocks && !b.free ensures b.off != h.blocks[i].off {
      var j :| 0 <= j < |h.blocks| && h.blocks[j] == b;
    }
  }

  lemma CutHolds(m: Memory, n: Memory, h: Heap, i: nat, size: nat)
    requires Holds(m, h) && i < |h.blocks| && !h.blocks[i].free && CutTags(m, n, h.blocks[i], size)
    ensures HoldsBut(n, Heap(Split(h.blocks, i, size, false), h.list), i + 1) && n[FREE_SIZE] == m[FREE_SIZE]
    ensures Preserves(m, h, n, Heap(Split(h.blocks, i, size, false), h.list), h.blocks[i].off)
  {
    var cut := Split(h.blocks, i, size, false);
    SplitMembers(h.blocks, i, size, false);
    SplitKeeps(h, |m|, i, size);
    LinksKept(m, n, h, i, i);
    Around(m, n, h.blocks, i, i, i, FIRST_FREE, h.blocks[i].off);
    forall j | 0 <= j < |cut| && j != i + 1 ensures Tagged(n, cut[j]) {
      assert j != i ==> Tagged(m, h.blocks[if j < i then j else j - 1]);
    }
  }

  /** The free-size cell is no part of the heap's layout. */
  lemma FreeSizeApart(m: Memory, n: Memory, h: Heap, off: nat)
    requires Holds(m, h) && SameOutside(m, n, FREE_SIZE, FREE_SIZE + 1, FREE_SIZE)
    ensures Holds(n, h)
    ensures Preserves(m, h, n, h, off)
  {
    forall i | 0 <= i < |h.blocks|
      ensures Tagged(n, h.blocks[i]) && REGION_HEADER <= h.blocks[i].off && Untouched(m, n, h.blocks[i])
    {
      assert Tagged(m, h.blocks[i]);
      Apart(h.blocks, REGION_HEADER, |m|, i);
    }
    forall k | 0 <= k <= |h.list|
      ensures LinkWord(h.list, k) < |n| && n[LinkWord(h.list, k)] == LinkTo(h.list, k)
    {
      assert LinkWord(h.list, k) < |m| && m[LinkWord(h.list, k)] == LinkTo(h.list, k);
      if k > 0 { var p := Listed(h, |m|, k - 1); }
    }
  }

  // ----- Trimming -----

  ghost predicate SamePayload(m: Memory, n: Memory, b: Block) {
    |m| == |n| && forall w :: 0 <= w < |m| && b.InPayload(w) ==> n[w] == m[w]
  }

  lemma CutPayload(m: Memory, n: Memory, p: Memory, b: Block, size: nat)
    requires CutTags(m, n, b, size) && Hooked(n, p, Block(b.off + size, b.size - size, false))
    ensures SamePayload(m, p, Block(b.off, size, false)) && p[FREE_SIZE] == n[FREE_SIZE]
  {
  }

  lemma TrimPreserves(m: Memory, n: Memory, p: Memory, h: Heap, i: nat, size: nat)
    requires i < |h.blocks| && LEAST_BLOCK <= size && Splits(h.blocks[i], size) && Tiles(h.blocks, REGION_HEADER, |m|)
    requires Preserves(m, h, n, Heap(Split(h.blocks, i, size, false), h.list), h.blocks[i].off)
    requires Preserves(n, Heap(Split(h.blocks, i, size, false), h.list), p, Heaps.Trim(h, i, size),
                       h.blocks[i].off + size)
    ensures Preserves(m, h, p, Heaps.Trim(h, i, size), h.blocks[i].off)
  {
    var bs, after := h.blocks, Heaps.Trim(h, i, size);
    forall b | b in bs && !b.free && b.off != bs[i].off
      ensures b in after.blocks && b.End() <= |m| && Untouched(m, p, b)
    {
      var j :| 0 <= j < |bs| && bs[j] == b;
      Disjoint(bs, REGION_HEADER, |m|, i, j);
      assert Untouched(m, n, b) && Untouched(n, p, b);
      assert forall w :: b.off <= w < b.End() ==> n[w] == m[w];
    }
  }

  lemma CutThenPush(m: Memory, n: Memory, p: Memory, h: Heap, i: nat, size: nat)
    requires Holds(m, h) && i < |h.blocks| && !h.blocks[i].free && CutTags(m, n, h.blocks[i], size)
    requires Hooked(n, p, Block(h.blocks[i].off + size, h.blocks[i].size - size, false))
    ensures Holds(p, Heaps.Trim(h, i, size)) && p[FREE_SIZE] == m[FREE_SIZE]
    ensures Preserves(m, h, p, Heaps.Trim(h, i, size), h.blocks[i].off)
  {
    CutHolds(m, n, h, i, size);
    PushHolds(n, p, Heap(Split(h.blocks, i, size, false), h.list), i + 1);
    TrimPreserves(m, n, p, h, i, size);
  }

  lemma TrimHolds(m: Memory, p: Memory, h: Heap, i: nat, size: nat)
    requires Holds(m, h) && i < |h.blocks| && !h.blocks[i].free && Cut(m, p, h.blocks[i], size)
    ensures Holds(p, Heaps.Trim(h, i, size)) && p[FREE_SIZE] == m[FREE_SIZE]
    ensures Preserves(m, h, p, Heaps.Trim(h, i, size), h.blocks[i].off)
    ensures SamePayload(m, p, Heaps.Trim(h, i, size).blocks[i])
  {
    var b := h.blocks[i];
    var n: Memory :| CutTags(m, n, b, size) && Hooked(n, p, Block(b.off + size, b.size - size, false));
    CutThenPush(m, n, p, h, i, size);
    CutPayload(m, n, p, b, size);
  }

  // ----- Joining, with the right block leaving the list first -----

  lemma JoinHolds(m: Memory, n: Memory, p: Memory, h: Heap, i: nat)
    requires Holds(m, h) && i + 1 < |h.blocks| && h.blocks[i].free && h.blocks[i + 1].free
    requires Holds(n, Unlink(h, i + 1)) && Preserves(m, h, n, Unlink(h, i + 1), h.blocks[i + 1].off)
    requires Retagged(n, p, h.blocks[i].off, h.blocks[i].size + h.blocks[i + 1].size, true)
    ensures Holds(p, Heap(Merge(h.blocks, i), Unlink(h, i + 1).list)) && p[FREE_SIZE] == n[FREE_SIZE]
    ensures Preserves(m, h, p, Heap(Merge(h.blocks, i), Unlink(h, i + 1).list), 0)
  {
    hide ListsFree, Linked, Tagged, Untouched, Tiles, Merge, Retagged;
    var right, unlinked := h.blocks[i + 1].off, Unlink(h, i + 1);
    JoinKeeps(h, |m|, i, right, unlinked.list);
    MergeUnlinked(h.blocks, i);
    MergeHolds(n, p, unlinked, i);
    JoinPreserves(m, n, p, h, i);
  }

  lemma JoinPreserves(m: Memory, n: Memory, p: Memory, h: Heap, i: nat)
    requires WellFormed(h, |m|) && i + 1 < |h.blocks| && h.blocks[i].free && h.blocks[i + 1].free
    requires WellFormed(Unlink(h, i + 1), |n|) && Preserves(m, h, n, Unlink(h, i + 1), h.blocks[i + 1].off)
    requires Spares(n, p, Unlink(h, i + 1).blocks, h.blocks[i + 1].off)
    ensures Preserves(m, h, p, Heap(Merge(h.blocks, i), Unlink(h, i + 1).list), 0)
  {
    var right, unlinked := h.blocks[i + 1].off, Unlink(h, i + 1);
    var joined := Heap(Merge(h.blocks, i), unlinked.list);
    MergeUnlinked(h.blocks, i);
    MergePreserves(n, p, unlinked, i, unlinked.list);
    PreservesBoth(m, h, n, unlinked, p, joined, right, right);
    PreservesAll(m, h, p, joined, i + 1);
  }

  lemma MergeUnlinked(bs: seq<Block>, i: nat)
    requires i + 1 < |bs|
    ensures Merge(SetFree(bs, i + 1, false), i) == Merge(bs, i)
  {
  }

  // ----- A client's own writes -----

  /** Writing to the payload of an allocated block touches nothing but that block. */
  lemma PayloadWrite(m: Memory, h: Heap, i: nat, w: nat, v: Word)
    requires Holds(m, h) && i < |h.blocks| && !h.blocks[i].free && h.blocks[i].InPayload(w)
    ensures w < |m| && Holds(m[w := v], h) && Preserves(m, h, m[w := v], h, h.blocks[i].off)
  {
    var b := h.blocks[i];
    Apart(h.blocks, REGION_HEADER, |m|, i);
    var n := m[w := v];
    assert Tagged(m, b);
    Around(m, n, h.blocks, i, i, i, FIRST_FREE, b.off);
    LinksKept(m, n, h, i, i);
    forall j | 0 <= j < |h.blocks| ensures Tagged(n, h.blocks[j]) {
      assert Tagged(m, h.blocks[j]);
    }
  }
}
