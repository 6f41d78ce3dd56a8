/** Which block an allocation takes, and in which order the free list stands after each operation. */
module HeapOrder {
  import opened Layout
  import opened Heaps
  import opened HeapInvariants
  import opened HeapCounts
  import opened Wrappers

  // ----- The search -----

  ghost predicate LargeEnough(bs: seq<Block>, off: nat, a: nat) {
    exists i :: 0 <= i < |bs| && bs[i].off == off && bs[i].size >= a
  }

  lemma LargeEnoughAt(bs: seq<Block>, lo: nat, end: nat, off: nat, a: nat)
    requires Tiles(bs, lo, end)
    ensures LargeEnough(bs, off, a) <==> IndexOf(bs, off) < |bs| && bs[IndexOf(bs, off)].size >= a
  {
    if i :| 0 <= i < |bs| && bs[i].off == off && bs[i].size >= a { OffsetsDistinct(bs, lo, end, i); }
  }

  lemma {:induction false} FirstOfList(bs: seq<Block>, lo: nat, end: nat, list: seq<nat>, a: nat, k: nat)
    requires Tiles(bs, lo, end) && k < |list| && forall i, j :: 0 <= i < j < |list| ==> list[i] != list[j]
    ensures (FirstFit(bs, list, a).Some? && bs[FirstFit(bs, list, a).value].off == list[k]) <==>
      (LargeEnough(bs, list[k], a) && forall j :: 0 <= j < k ==> !LargeEnough(bs, list[j], a))
    decreases k
  {
    LargeEnoughAt(bs, lo, end, list[0], a);
    if k > 0 {
      FirstOfList(bs, lo, end, list[1..], a, k - 1);
      assert forall j :: 0 < j < |list| ==> list[j] == list[1..][j - 1];
    }
  }

  /** An allocation takes the block at position `k` of the list if and only if that is large enough and none before it
      is. */
  lemma TakesFirstFit(h: Heap, end: nat, a: nat, k: nat)
    requires WellFormed(h, end) && k < |h.list|
    ensures Alloc(h, a).1 == Some(h.list[k]) <==>
      (LargeEnough(h.blocks, h.list[k], a) && forall j :: 0 <= j < k ==> !LargeEnough(h.blocks, h.list[j], a))
  {
    FirstOfList(h.blocks, REGION_HEADER, end, h.list, a, k);
  }

  /** `given` is the first block of the list that is large enough, if any is. */
  ghost predicate FirstLarge(h: Heap, a: nat, given: Option<nat>) {
    if given.None? then forall k :: 0 <= k < |h.list| ==> !LargeEnough(h.blocks, h.list[k], a)
    else exists k :: 0 <= k < |h.list| && given.value == h.list[k] && FirstLargeAt(h, a, k)
  }

  ghost predicate FirstLargeAt(h: Heap, a: nat, k: nat)
    requires k < |h.list|
  {
    LargeEnough(h.blocks, h.list[k], a) && forall j :: 0 <= j < k ==> !LargeEnough(h.blocks, h.list[j], a)
  }

  lemma AllocTakesFirst(h: Heap, end: nat, a: nat)
    requires WellFormed(h, end)
    ensures FirstLarge(h, a, Alloc(h, a).1)
  {
    var fit := FirstFit(h.blocks, h.list, a);
    if fit.Some? {
      var k: nat :| k < |h.list| && h.list[k] == h.blocks[fit.value].off;
      TakesFirstFit(h, end, a, k);
      assert FirstLargeAt(h, a, k);
    } else {
      forall k | 0 <= k < |h.list| ensures !LargeEnough(h.blocks, h.list[k], a) {
        LargeEnoughAt(h.blocks, REGION_HEADER, end, h.list[k], a);
      }
    }
  }

  // ----- The order of the list -----

  /** The offsets of `list`, in their order, at which there is a free block in `bs`. */
  ghost function StillFree(list: seq<nat>, bs: seq<Block>): seq<nat> {
    if list == [] then []
    else (if FreeAt(bs, list[0]) then [list[0]] else []) + StillFree(list[1..], bs)
  }

  lemma {:induction false} StillFreeWithout(list: seq<nat>, x: nat, bs: seq<Block>)
    requires !FreeAt(bs, x)
    ensures StillFree(Without(list, x), bs) == StillFree(list, bs)
  {
    if list != [] && list[0] != x {
      StillFreeWithout(list[1..], x, bs);
      assert Without(list, x)[1..] == Without(list[1..], x);
    }
  }

  lemma {:induction false} AllStillFree(list: seq<nat>, bs: seq<Block>)
    requires forall k :: 0 <= k < |list| ==> FreeAt(bs, list[k])
    ensures StillFree(list, bs) == list
  {
    if list != [] { AllStillFree(list[1..], bs); }
  }

  /** What is not on the list is not free. */
  lemma Unlisted(h: Heap, end: nat, x: nat)
    requires WellFormed(h, end) && x !in h.list
    ensures !FreeAt(h.blocks, x)
  {
  }

  lemma PushesFront(h: Heap, end: nat, i: nat)
    requires WellFormed(h, end) && i < |h.blocks| && !h.blocks[i].free
    ensures WellFormed(Push(h, i), end) && Push(h, i).list == [h.blocks[i].off] + h.list
  {
    PushKeeps(h, end, i);
  }

  lemma JoinOrder(h: Heap, end: nat, i: nat)
    requires WellFormed(h, end) && BothFree(h.blocks, i)
    ensures var x := h.blocks[i + 1].off; var after := Heap(Merge(h.blocks, i), Without(h.list, x));
      WellFormed(after, end) && x !in after.list && forall y :: y in after.list ==> y in h.list
  {
    var x := h.blocks[i + 1].off;
    JoinKeeps(h, end, i, x, Without(h.list, x));
    WithoutMembers(h.list, x);
  }

  /** After a free the list is the freed block, followed by what was on the list before, all in their old order; only
      the offsets at which no free block starts any more are gone. */
  lemma FreeOrder(h: Heap, end: nat, i: nat)
    requires WellFormed(h, end) && i < |h.blocks| && !h.blocks[i].free
    ensures Free(h, i).list == StillFree([h.blocks[i].off] + h.list, Free(h, i).blocks)
  {
    hide WellFormed, FreeAt, Without, Merge, StillFree;
    PushesFront(h, end, i);
    var pushed := Push(h, i);
    assert pushed.blocks[i].free && pushed.blocks[i].off == h.blocks[i].off;
    if BothFree(pushed.blocks, i - 1) { JoinOrder(pushed, end, i - 1); }
    var (joined, j) := JoinLeft(pushed, i);
    assert joined.blocks[j].free;
    if BothFree(joined.blocks, j) { JoinOrder(joined, end, j); }
    var after := JoinRight(joined, j);
    ListedFree(after, end);
    AllStillFree(after.list, after.blocks);
    if BothFree(joined.blocks, j) {
      Unlisted(after, end, joined.blocks[j + 1].off);
      StillFreeWithout(joined.list, joined.blocks[j + 1].off, after.blocks);
    }
    if BothFree(pushed.blocks, i - 1) {
      Unlisted(after, end, pushed.blocks[i].off);
      StillFreeWithout(pushed.list, pushed.blocks[i].off, after.blocks);
    }
  }

  lemma ListedFree(h: Heap, end: nat)
    requires WellFormed(h, end)
    ensures forall k :: 0 <= k < |h.list| ==> FreeAt(h.blocks, h.list[k])
  {
  }

  /** Block `i` was cut to `n` words if it had at least 13 more; then the remainder is at the head of the list, and
      everything else follows as before. */
  ghost predicate CutOff(h: Heap, i: nat, n: nat, after: Heap) {
    && i < |h.blocks| && i < |after.blocks|
    && var splits := h.blocks[i].size >= n + 13;
       && |after.blocks| == |h.blocks| + (if splits then 1 else 0)
       && after.blocks[i].size == (if splits then n else h.blocks[i].size)
       && after.list == (if splits then [h.blocks[i].off + n] else []) + h.list
  }

  lemma TrimOrder(h: Heap, i: nat, n: nat)
    requires i < |h.blocks|
    ensures CutOff(h, i, n, Trim(h, i, n))
  {
  }

  /** From `h`, `given` has been taken off the list and cut to `a` words if it had at least 13 more. */
  ghost predicate TakenOff(h: Heap, a: nat, given: nat, after: Heap) {
    var i := IndexOf(h.blocks, given);
    && i < |h.blocks|
    && after.list == (if h.blocks[i].size >= a + 13 then [given + a] else []) + StillFree(h.list, after.blocks)
  }

  /** After an allocation the remainder, if there is one, is at the head of the list, and the block that was given out is
      gone from it. */
  lemma AllocOrder(h: Heap, end: nat, a: nat)
    requires WellFormed(h, end) && LEAST_BLOCK <= a && Alloc(h, a).1.Some?
    ensures TakenOff(h, a, Alloc(h, a).1.value, Alloc(h, a).0)
  {
    hide WellFormed, FreeAt, Without, StillFree, Tiles, IndexOf;
    var i := FirstFit(h.blocks, h.list, a).value;
    var off := h.blocks[i].off;
    FitIndex(h, end, a);
    var after := Alloc(h, a).0;
    AllocKeeps(h, end, a);
    TrimOrder(Unlink(h, i), i, a);
    GivenUnlisted(h, end, a);
    Unlisted(after, end, off);
    ListedFree(after, end);
    var rest := Without(h.list, off);
    forall k | 0 <= k < |rest| ensures FreeAt(after.blocks, rest[k]) {
      assert after.list[|after.list| - |rest| + k] == rest[k];
    }
    AllStillFree(rest, after.blocks);
    StillFreeWithout(h.list, off, after.blocks);
  }

  lemma FitIndex(h: Heap, end: nat, a: nat)
    requires WellFormed(h, end) && FirstFit(h.blocks, h.list, a).Some?
    ensures var i := FirstFit(h.blocks, h.list, a).value; i < |h.blocks| && IndexOf(h.blocks, h.blocks[i].off) == i
  {
    OffsetsDistinct(h.blocks, REGION_HEADER, end, FirstFit(h.blocks, h.list, a).value);
  }

  lemma GivenUnlisted(h: Heap, end: nat, a: nat)
    requires WellFormed(h, end) && LEAST_BLOCK <= a && Alloc(h, a).1.Some?
    ensures Alloc(h, a).1.value !in Alloc(h, a).0.list
  {
    var i := FirstFit(h.blocks, h.list, a).value;
    WithoutMembers(h.list, h.blocks[i].off);
    TrimOrder(Unlink(h, i), i, a);
  }

  // ----- The boundaries between blocks -----

  ghost predicate StartsAt(bs: seq<Block>, off: nat) {
    exists i :: 0 <= i < |bs| && bs[i].off == off
  }

  lemma MergeStarts(bs: seq<Block>, lo: nat, end: nat, i: nat, off: nat)
    requires Tiles(bs, lo, end) && i + 1 < |bs|
    ensures StartsAt(Merge(bs, i), off) <==> StartsAt(bs, off) && off != bs[i + 1].off
  {
    var joined := Merge(bs, i);
    OffsetsDistinct(bs, lo, end, i + 1);
    if j :| 0 <= j < |joined| && joined[j].off == off { assert bs[if j <= i then j else j + 1].off == off; }
    if off != bs[i + 1].off {
      if j :| 0 <= j < |bs| && bs[j].off == off { assert joined[if j <= i then j else j - 1].off == off; }
    }
  }

  lemma SetFreeStarts(bs: seq<Block>, i: nat, free: bool, off: nat)
    requires i < |bs|
    ensures StartsAt(SetFree(bs, i, free), off) <==> StartsAt(bs, off)
  {
    var now := SetFree(bs, i, free);
    if j :| 0 <= j < |bs| && bs[j].off == off { assert now[j].off == off; }
    if j :| 0 <= j < |now| && now[j].off == off { assert bs[j].off == off; }
  }

  /** A free removes exactly the boundaries to free neighbours. */
  lemma FreeBoundaries(h: Heap, end: nat, i: nat, off: nat)
    requires WellFormed(h, end) && i < |h.blocks| && !h.blocks[i].free
    ensures StartsAt(Free(h, i).blocks, off) <==>
      && StartsAt(h.blocks, off)
      && !(off == h.blocks[i].off && i > 0 && h.blocks[i - 1].free)
      && !(off == h.blocks[i].End() && i + 1 < |h.blocks| && h.blocks[i + 1].free)
  {
    hide StartsAt, Merge, ListsFree;
    PushKeeps(h, end, i);
    var pushed := Push(h, i);
    SetFreeStarts(h.blocks, i, true, off);
    JoinLeftKeeps(pushed, end, i);
    if BothFree(pushed.blocks, i - 1) { MergeStarts(pushed.blocks, REGION_HEADER, end, i - 1, off); }
    var (joined, j) := JoinLeft(pushed, i);
    if BothFree(joined.blocks, j) { MergeStarts(joined.blocks, REGION_HEADER, end, j, off); }
    JoinedNext(h, end, i);
  }

  /** Behind the block, joined to the left or not, stands what stood behind it. */
  lemma JoinedNext(h: Heap, end: nat, i: nat)
    requires WellFormed(h, end) && i < |h.blocks| && !h.blocks[i].free
    ensures var (joined, j) := JoinLeft(Push(h, i), i);
      && j < |joined.blocks| && joined.blocks[j].free && (j + 1 < |joined.blocks| <==> i + 1 < |h.blocks|)
      && (i + 1 < |h.blocks| ==>
        joined.blocks[j + 1] == h.blocks[i + 1] && h.blocks[i + 1].off == h.blocks[i].End())
  {
  }
}
