/** Every operation of `Heaps` keeps the heap well formed. */
module HeapInvariants {
  import opened Layout
  import opened Heaps

  // ----- The free list -----

  lemma {:induction false} WithoutMembers(list: seq<nat>, x: nat)
    requires forall i, j :: 0 <= i < j < |list| ==> list[i] != list[j]
    ensures forall y :: y in Without(list, x) <==> y in list && y != x
    ensures forall i, j :: 0 <= i < j < |Without(list, x)| ==> Without(list, x)[i] != Without(list, x)[j]
  {
    if list == [] {
    } else if list[0] == x {
      assert forall y :: y in list <==> y == x || y in list[1..];
    } else {
      var tail := list[1..];
      WithoutMembers(tail, x);
      assert forall y :: y in list <==> y == list[0] || y in tail;
      assert list[0] !in tail;
    }
  }

  lemma {:induction false} WithoutAt(list: seq<nat>, k: nat)
    requires k < |list|
    requires forall i, j :: 0 <= i < j < |list| ==> list[i] != list[j]
    ensures |Without(list, list[k])| == |list| - 1
    ensures forall j :: 0 <= j < |list| - 1 ==> Without(list, list[k])[j] == list[if j < k then j else j + 1]
  {
    if k > 0 {
      WithoutAt(list[1..], k - 1);
    }
  }

  // ----- Tiling -----

  /** Blocks before block `i` end at or before its start, and blocks after it start at or after its end. */
  lemma {:induction false} Apart(bs: seq<Block>, lo: nat, hi: nat, i: nat)
    requires Tiles(bs, lo, hi) && i < |bs|
    ensures forall j :: 0 <= j < i ==> bs[j].End() <= bs[i].off
    ensures forall j :: i < j < |bs| ==> bs[i].End() <= bs[j].off
    ensures lo <= bs[i].off && bs[i].End() <= hi
  {
    forall j | 0 <= j < i ensures bs[j].End() <= bs[i].off { Ordered(bs, lo, hi, j, i); }
    forall j | i < j < |bs| ensures bs[i].End() <= bs[j].off { Ordered(bs, lo, hi, i, j); }
    assert i > 0 ==> bs[0].End() <= bs[i].off;
    assert i < |bs| - 1 ==> bs[i].End() <= bs[|bs| - 1].off;
  }

  lemma {:induction false} Ordered(bs: seq<Block>, lo: nat, hi: nat, i: nat, j: nat)
    requires Tiles(bs, lo, hi) && i < j < |bs|
    ensures bs[i].End() <= bs[j].off
    decreases j - i
  {
    assert bs[i].End() == bs[i + 1].off;
    if i + 1 < j { Ordered(bs, lo, hi, i + 1, j); }
  }

  lemma Disjoint(bs: seq<Block>, lo: nat, hi: nat, i: nat, j: nat)
    requires Tiles(bs, lo, hi) && i < |bs| && j < |bs| && i != j
    ensures bs[i].End() <= bs[j].off || bs[j].End() <= bs[i].off
    ensures lo <= bs[i].off && bs[i].End() <= hi
  {
    Apart(bs, lo, hi, i);
  }

  lemma OffsetsDistinct(bs: seq<Block>, lo: nat, hi: nat, i: nat)
    requires Tiles(bs, lo, hi) && i < |bs|
    ensures forall j :: 0 <= j < |bs| && bs[j].off == bs[i].off ==> j == i
    ensures IndexOf(bs, bs[i].off) == i
  {
    Apart(bs, lo, hi, i);
    assert forall j :: 0 <= j < |bs| && bs[j].off == bs[i].off ==> j == i;
    assert bs[IndexOf(bs, bs[i].off)].off == bs[i].off;
  }

  lemma SplitTiles(bs: seq<Block>, cut: seq<Block>, lo: nat, hi: nat, i: nat, n: nat)
    requires Tiles(bs, lo, hi) && i < |bs| && LEAST_BLOCK <= n && n + LEAST_BLOCK <= bs[i].size
    requires |cut| == |bs| + 1 && cut[i].off == bs[i].off && cut[i].size == n
    requires cut[i + 1].off == bs[i].off + n && cut[i + 1].End() == bs[i].End()
    requires forall k :: 0 <= k < i ==> cut[k] == bs[k]
    requires forall k :: i + 1 < k < |cut| ==> cut[k] == bs[k - 1]
    ensures Tiles(cut, lo, hi)
  {
  }

  lemma MergeTiles(bs: seq<Block>, joined: seq<Block>, lo: nat, hi: nat, i: nat)
    requires Tiles(bs, lo, hi) && i + 1 < |bs|
    requires |joined| == |bs| - 1 && joined[i].off == bs[i].off && joined[i].End() == bs[i + 1].End()
    requires forall k :: 0 <= k < i ==> joined[k] == bs[k]
    requires forall k :: i < k < |joined| ==> joined[k] == bs[k + 1]
    ensures Tiles(joined, lo, hi)
  {
    assert bs[i].End() == bs[i + 1].off;
  }

  lemma SetFreeTiles(bs: seq<Block>, lo: nat, hi: nat, i: nat, free: bool)
    requires Tiles(bs, lo, hi) && i < |bs|
    ensures Tiles(SetFree(bs, i, free), lo, hi)
  {
    var now := SetFree(bs, i, free);
    assert forall k :: 0 <= k < |bs| ==> now[k].off == bs[k].off && now[k].size == bs[k].size;
  }

  // ----- Blocks an operation leaves alone -----

  lemma SetFreeMembers(bs: seq<Block>, i: nat, free: bool)
    requires i < |bs|
    ensures forall b :: b in bs && b.off != bs[i].off ==> b in SetFree(bs, i, free)
  {
    forall b | b in bs && b.off != bs[i].off ensures b in SetFree(bs, i, free) {
      var j :| 0 <= j < |bs| && bs[j] == b;
      assert SetFree(bs, i, free)[j] == b;
    }
  }

  lemma SplitMembers(bs: seq<Block>, i: nat, n: nat, free: bool)
    requires i < |bs| && n <= bs[i].size
    ensures forall b :: b in bs && b.off != bs[i].off ==> b in Split(bs, i, n, free)
  {
    var cut := Split(bs, i, n, free);
    forall b | b in bs && b.off != bs[i].off ensures b in cut {
      var j :| 0 <= j < |bs| && bs[j] == b;
      assert cut[if j < i then j else j + 1] == b;
    }
  }

  lemma MergeMembers(bs: seq<Block>, i: nat)
    requires i + 1 < |bs|
    ensures forall b :: b in bs && b.off != bs[i].off && b.off != bs[i + 1].off ==> b in Merge(bs, i)
  {
    var joined := Merge(bs, i);
    forall b | b in bs && b.off != bs[i].off && b.off != bs[i + 1].off ensures b in joined {
      var j :| 0 <= j < |bs| && bs[j] == b;
      assert joined[if j < i then j else j - 1] == b;
    }
  }

  // ----- Well-formedness -----

  lemma PushKeeps(h: Heap, end: nat, i: nat)
    requires WellFormed(h, end) && i < |h.blocks| && !h.blocks[i].free
    ensures WellFormed(Push(h, i), end)
  {
    var off, after := h.blocks[i].off, Push(h, i);
    SetFreeTiles(h.blocks, REGION_HEADER, end, i, true);
    assert off !in h.list by {
      if off in h.list {
        var j :| 0 <= j < |h.blocks| && h.blocks[j].off == off && h.blocks[j].free;
        OffsetsDistinct(h.blocks, REGION_HEADER, end, i);
      }
    }
    forall k | 0 <= k < |after.list| ensures FreeAt(after.blocks, after.list[k]) {
      if k == 0 {
        assert after.blocks[i].off == off;
      } else {
        assert FreeAt(h.blocks, h.list[k - 1]);
        var j :| 0 <= j < |h.blocks| && h.blocks[j].off == h.list[k - 1] && h.blocks[j].free;
        assert after.blocks[j].off == after.list[k];
      }
    }
  }

  lemma UnlinkKeeps(h: Heap, end: nat, i: nat)
    requires WellFormed(h, end) && i < |h.blocks|
    ensures WellFormed(Unlink(h, i), end)
  {
    var off, after := h.blocks[i].off, Unlink(h, i);
    SetFreeTiles(h.blocks, REGION_HEADER, end, i, false);
    WithoutMembers(h.list, off);
    forall k | 0 <= k < |after.list| ensures FreeAt(after.blocks, after.list[k]) {
      assert after.list[k] in h.list;
      var j :| 0 <= j < |h.blocks| && h.blocks[j].off == after.list[k] && h.blocks[j].free;
      assert after.blocks[j].off == after.list[k];
    }
    forall j | 0 <= j < |after.blocks| && after.blocks[j].free ensures after.blocks[j].off in after.list {
      OffsetsDistinct(h.blocks, REGION_HEADER, end, i);
    }
  }

  lemma SplitKeeps(h: Heap, end: nat, i: nat, n: nat)
    requires WellFormed(h, end) && i < |h.blocks| && !h.blocks[i].free
    requires LEAST_BLOCK <= n && Splits(h.blocks[i], n)
    ensures WellFormed(Heap(Split(h.blocks, i, n, false), h.list), end)
  {
    var cut := Split(h.blocks, i, n, false);
    SplitTiles(h.blocks, cut, REGION_HEADER, end, i, n);
    SplitLists(h, i, n);
  }

  lemma SplitLists(h: Heap, i: nat, n: nat)
    requires ListsFree(h.list, h.blocks) && i < |h.blocks| && !h.blocks[i].free && n <= h.blocks[i].size
    ensures ListsFree(h.list, Split(h.blocks, i, n, false))
  {
    var cut := Split(h.blocks, i, n, false);
    forall k | 0 <= k < |h.list| ensures FreeAt(cut, h.list[k]) {
      assert FreeAt(h.blocks, h.list[k]);
      var j :| 0 <= j < |h.blocks| && h.blocks[j].off == h.list[k] && h.blocks[j].free;
      assert cut[if j < i then j else j + 1] == h.blocks[j];
    }
    forall j | 0 <= j < |cut| && cut[j].free ensures cut[j].off in h.list {
      assert cut[j] == h.blocks[if j < i then j else j - 1];
    }
  }

  lemma TrimKeeps(h: Heap, end: nat, i: nat, n: nat)
    requires WellFormed(h, end) && i < |h.blocks| && !h.blocks[i].free && LEAST_BLOCK <= n
    ensures WellFormed(Trim(h, i, n), end)
  {
    if Splits(h.blocks[i], n) {
      SplitKeeps(h, end, i, n);
      PushKeeps(Heap(Split(h.blocks, i, n, false), h.list), end, i + 1);
    }
  }

  lemma AllocKeeps(h: Heap, end: nat, a: nat)
    requires WellFormed(h, end) && LEAST_BLOCK <= a
    ensures WellFormed(Alloc(h, a).0, end)
  {
    var fit := FirstFit(h.blocks, h.list, a);
    if fit.Some? {
      UnlinkKeeps(h, end, fit.value);
      TrimKeeps(Unlink(h, fit.value), end, fit.value, a);
    }
  }

  lemma JoinListed(bs: seq<Block>, i: nat, off: nat)
    requires i + 1 < |bs| && bs[i].free && FreeAt(bs, off) && off != bs[i + 1].off
    ensures FreeAt(Merge(bs, i), off)
  {
    var j :| 0 <= j < |bs| && bs[j].off == off && bs[j].free;
    assert Merge(bs, i)[if j <= i then j else j - 1].off == off;
  }

  lemma JoinUnlisted(bs: seq<Block>, end: nat, i: nat, j: nat)
    requires Tiles(bs, REGION_HEADER, end) && i + 1 < |bs| && bs[i].free && j < |bs| - 1 && Merge(bs, i)[j].free
    ensures var was := if j <= i then j else j + 1;
      bs[was].free && Merge(bs, i)[j].off == bs[was].off && bs[was].off != bs[i + 1].off
  {
    OffsetsDistinct(bs, REGION_HEADER, end, i + 1);
  }

  /** Two free neighbours become one, the right one having left the list. */
  lemma JoinKeeps(h: Heap, end: nat, i: nat, gone: nat, list: seq<nat>)
    requires WellFormed(h, end) && i + 1 < |h.blocks| && h.blocks[i].free && h.blocks[i + 1].free
    requires gone == h.blocks[i + 1].off && list == Without(h.list, gone)
    ensures WellFormed(Heap(Merge(h.blocks, i), list), end)
  {
    var joined := Merge(h.blocks, i);
    MergeTiles(h.blocks, joined, REGION_HEADER, end, i);
    WithoutMembers(h.list, gone);
    forall k | 0 <= k < |list| ensures FreeAt(joined, list[k]) {
      assert list[k] in h.list && list[k] != gone;
      JoinListed(h.blocks, i, list[k]);
    }
    forall j | 0 <= j < |joined| && joined[j].free ensures joined[j].off in list {
      JoinUnlisted(h.blocks, end, i, j);
    }
  }

  lemma JoinLeftKeeps(h: Heap, end: nat, i: nat)
    requires WellFormed(h, end) && i < |h.blocks| && h.blocks[i].free
    ensures var (joined, j) := JoinLeft(h, i);
      WellFormed(joined, end) && j < |joined.blocks| && joined.blocks[j].free
      && joined.blocks[j].End() == h.blocks[i].End()
  {
    if i > 0 && h.blocks[i - 1].free {
      JoinKeeps(h, end, i - 1, h.blocks[i].off, Without(h.list, h.blocks[i].off));
    }
  }

  lemma JoinRightKeeps(h: Heap, end: nat, i: nat)
    requires WellFormed(h, end) && i < |h.blocks| && h.blocks[i].free
    ensures WellFormed(JoinRight(h, i), end)
  {
    if i + 1 < |h.blocks| && h.blocks[i + 1].free {
      JoinKeeps(h, end, i, h.blocks[i + 1].off, Without(h.list, h.blocks[i + 1].off));
    }
  }

  lemma FreeKeeps(h: Heap, end: nat, i: nat)
    requires WellFormed(h, end) && i < |h.blocks| && !h.blocks[i].free
    ensures WellFormed(Free(h, i), end)
  {
    PushKeeps(h, end, i);
    JoinLeftKeeps(Push(h, i), end, i);
    var (joined, j) := JoinLeft(Push(h, i), i);
    JoinRightKeeps(joined, end, j);
  }

  // ----- The list and the search -----

  /** The block a list entry stands for. */
  lemma Listed(h: Heap, end: nat, k: nat) returns (p: nat)
    requires WellFormed(h, end) && k < |h.list|
    ensures p < |h.blocks| && h.blocks[p].off == h.list[k] && h.blocks[p].free
    ensures IndexOf(h.blocks, h.list[k]) == p
    ensures REGION_HEADER <= h.list[k] && h.list[k] + LEAST_BLOCK <= end
  {
    assert FreeAt(h.blocks, h.list[k]);
    p :| 0 <= p < |h.blocks| && h.blocks[p].off == h.list[k] && h.blocks[p].free;
    OffsetsDistinct(h.blocks, REGION_HEADER, end, p);
    Apart(h.blocks, REGION_HEADER, end, p);
  }

  lemma FitIsFree(h: Heap, end: nat, a: nat)
    requires WellFormed(h, end)
    ensures var fit := FirstFit(h.blocks, h.list, a); fit.Some? ==> h.blocks[fit.value].free
  {
    var fit := FirstFit(h.blocks, h.list, a);
    if fit.Some? {
      var k: nat :| k < |h.list| && h.list[k] == h.blocks[fit.value].off;
      var p := Listed(h, end, k);
      OffsetsDistinct(h.blocks, REGION_HEADER, end, p);
    }
  }
}
