/** What each operation does to the number of free words and to the number of neighbouring free blocks. */
module HeapCounts {
  import opened Heaps

  function FreeWords(bs: seq<Block>): nat {
    if bs == [] then 0 else (if bs[0].free then bs[0].size else 0) + FreeWords(bs[1..])
  }

  predicate BothFree(bs: seq<Block>, i: int) {
    0 <= i && i + 1 < |bs| && bs[i].free && bs[i + 1].free
  }

  /** The number of places where two neighbouring blocks are both free. */
  function FreePairs(bs: seq<Block>): nat {
    if bs == [] then 0 else (if BothFree(bs, 0) then 1 else 0) + FreePairs(bs[1..])
  }

  function One(b: bool): nat { if b then 1 else 0 }

  lemma {:induction false} FreeWordsConcat(a: seq<Block>, b: seq<Block>)
    ensures FreeWords(a + b) == FreeWords(a) + FreeWords(b)
  {
    if a == [] {
      assert a + b == b;
    } else {
      FreeWordsConcat(a[1..], b);
      assert (a + b)[1..] == a[1..] + b;
    }
  }

  lemma {:induction false} FreePairsConcat(a: seq<Block>, b: seq<Block>)
    ensures FreePairs(a + b) ==
      FreePairs(a) + FreePairs(b) + One(a != [] && b != [] && a[|a| - 1].free && b[0].free)
  {
    if a == [] {
      assert a + b == b;
    } else {
      FreePairsConcat(a[1..], b);
      assert (a + b)[1..] == a[1..] + b;
    }
  }

  /** Both counts, with the blocks at positions [i, j) taken out of the sequence. */
  lemma Around(bs: seq<Block>, mid: seq<Block>, i: nat, j: nat)
    requires i <= j <= |bs| && mid != []
    ensures FreeWords(bs[..i] + mid + bs[j..]) == FreeWords(bs[..i]) + FreeWords(mid) + FreeWords(bs[j..])
    ensures FreePairs(bs[..i] + mid + bs[j..]) == FreePairs(bs[..i]) + FreePairs(mid) + FreePairs(bs[j..])
      + One(i > 0 && bs[i - 1].free && mid[0].free) + One(j < |bs| && mid[|mid| - 1].free && bs[j].free)
  {
    FreeWordsConcat(bs[..i] + mid, bs[j..]);
    FreeWordsConcat(bs[..i], mid);
    FreePairsConcat(bs[..i] + mid, bs[j..]);
    FreePairsConcat(bs[..i], mid);
  }

  lemma Pair(b: Block, c: Block)
    ensures FreeWords([b]) == (if b.free then b.size else 0) && FreePairs([b]) == 0
    ensures FreeWords([b, c]) == FreeWords([b]) + FreeWords([c])
    ensures FreePairs([b, c]) == One(b.free && c.free)
  {
    assert [b, c][1..] == [c] && [b][1..] == [];
  }

  lemma SetFreeCounts(bs: seq<Block>, i: nat)
    requires i < |bs|
    ensures FreeWords(SetFree(bs, i, true)) == FreeWords(SetFree(bs, i, false)) + bs[i].size
    ensures FreePairs(SetFree(bs, i, true)) ==
      FreePairs(SetFree(bs, i, false)) + One(i > 0 && bs[i - 1].free) + One(i + 1 < |bs| && bs[i + 1].free)
  {
    var on, off := bs[i].(free := true), bs[i].(free := false);
    Around(bs, [on], i, i + 1);
    Around(bs, [off], i, i + 1);
    Pair(on, on);
    Pair(off, off);
    assert SetFree(bs, i, true) == bs[..i] + [on] + bs[i + 1..];
    assert SetFree(bs, i, false) == bs[..i] + [off] + bs[i + 1..];
  }

  lemma SplitShape(bs: seq<Block>, i: nat, n: nat)
    requires i < |bs| && n <= bs[i].size
    ensures var mid := [Block(bs[i].off, n, bs[i].free), Block(bs[i].off + n, bs[i].size - n, false)];
      && Split(bs, i, n, false) == bs[..i] + mid + bs[i + 1..]
      && FreeWords(mid) == FreeWords([mid[0]]) && FreePairs(mid) == 0
  {
    Pair(Block(bs[i].off, n, bs[i].free), Block(bs[i].off + n, bs[i].size - n, false));
    Pair(Block(bs[i].off + n, bs[i].size - n, false), Block(bs[i].off, n, bs[i].free));
  }

  lemma OneShape(bs: seq<Block>, i: nat)
    requires i < |bs|
    ensures bs == bs[..i] + [bs[i]] + bs[i + 1..]
  {
  }

  lemma SplitCounts(bs: seq<Block>, i: nat, n: nat)
    requires i < |bs| && n <= bs[i].size && !bs[i].free
    ensures FreeWords(Split(bs, i, n, false)) == FreeWords(bs)
    ensures FreePairs(Split(bs, i, n, false)) == FreePairs(bs)
  {
    var mid := [Block(bs[i].off, n, bs[i].free), Block(bs[i].off + n, bs[i].size - n, false)];
    OneShape(bs, i);
    SplitShape(bs, i, n);
    Around(bs, [bs[i]], i, i + 1);
    Around(bs, mid, i, i + 1);
    Pair(bs[i], bs[i]);
    Pair(mid[0], mid[1]);
  }

  lemma MergeCounts(bs: seq<Block>, i: nat)
    requires BothFree(bs, i)
    ensures FreeWords(Merge(bs, i)) == FreeWords(bs)
    ensures FreePairs(Merge(bs, i)) + 1 == FreePairs(bs)
  {
    var b, c := bs[i], bs[i + 1];
    var joined := Block(b.off, b.size + c.size, true);
    Around(bs, [b, c], i, i + 2);
    Around(bs, [joined], i, i + 2);
    Pair(b, c);
    Pair(c, b);
    Pair(joined, joined);
    assert bs == bs[..i] + [b, c] + bs[i + 2..];
  }

  // ----- The operations -----

  lemma SetFreeSame(bs: seq<Block>, i: nat)
    requires i < |bs|
    ensures SetFree(bs, i, bs[i].free) == bs
  {
  }

  predicate FreeOnRight(bs: seq<Block>, i: nat) {
    i + 1 < |bs| && bs[i + 1].free
  }

  /** Cutting a block adds the cut-off words, and at most one pair of free neighbours. */
  lemma TrimCounts(h: Heap, i: nat, n: nat)
    requires i < |h.blocks| && !h.blocks[i].free
    ensures FreeWords(Trim(h, i, n).blocks) ==
      FreeWords(h.blocks) + (if Splits(h.blocks[i], n) then h.blocks[i].size - n else 0)
    ensures FreePairs(Trim(h, i, n).blocks) ==
      FreePairs(h.blocks) + One(Splits(h.blocks[i], n) && FreeOnRight(h.blocks, i))
  {
    if Splits(h.blocks[i], n) {
      SplitCounts(h.blocks, i, n);
      var cut := Split(h.blocks, i, n, false);
      SetFreeCounts(cut, i + 1);
      SetFreeSame(cut, i + 1);
    }
  }

  /** An allocation takes the block's words out of the free ones and never adds a pair of free neighbours. */
  lemma TakeCounts(h: Heap, i: nat, a: nat)
    requires i < |h.blocks| && h.blocks[i].free
    ensures var after := Trim(Unlink(h, i), i, a);
      && i < |after.blocks|
      && FreeWords(h.blocks) == FreeWords(after.blocks) + after.blocks[i].size
      && FreePairs(after.blocks) <= FreePairs(h.blocks)
  {
    SetFreeCounts(h.blocks, i);
    SetFreeSame(h.blocks, i);
    TrimCounts(Unlink(h, i), i, a);
  }

  /** Freeing gives the block's words back and keeps the number of pairs of free neighbours. */
  lemma FreeCounts(h: Heap, i: nat)
    requires i < |h.blocks| && !h.blocks[i].free
    ensures FreeWords(Free(h, i).blocks) == FreeWords(h.blocks) + h.blocks[i].size
    ensures FreePairs(Free(h, i).blocks) == FreePairs(h.blocks)
  {
    var pushed := Push(h, i);
    SetFreeCounts(h.blocks, i);
    SetFreeSame(h.blocks, i);
    if BothFree(pushed.blocks, i - 1) { MergeCounts(pushed.blocks, i - 1); }
    var (joined, j) := JoinLeft(pushed, i);
    if BothFree(joined.blocks, j) { MergeCounts(joined.blocks, j); }
  }
}
