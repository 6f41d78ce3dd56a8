/** Which blocks are allocated after each operation. */
module HeapLive {
  import opened Layout
  import opened Heaps
  import opened HeapInvariants
  import opened Wrappers

  predicate Live(h: Heap, b: Block) {
    b in h.blocks && !b.free
  }

  lemma SetFreeFrom(bs: seq<Block>, i: nat, free: bool)
    requires i < |bs|
    ensures forall b :: b in SetFree(bs, i, free) ==> b in bs || b == bs[i].(free := free)
  {
  }

  lemma SplitFrom(bs: seq<Block>, i: nat, n: nat, free: bool)
    requires i < |bs| && n <= bs[i].size
    ensures forall b :: b in Split(bs, i, n, free) ==>
      b in bs || b == Block(bs[i].off, n, bs[i].free) || b == Block(bs[i].off + n, bs[i].size - n, free)
  {
  }

  lemma MergeFrom(bs: seq<Block>, i: nat)
    requires i + 1 < |bs|
    ensures forall b :: b in Merge(bs, i) && !b.free ==> b in bs
  {
  }

  /** Two live blocks share no word, and no offset. */
  lemma LiveApart(h: Heap, end: nat, b: Block, c: Block)
    requires WellFormed(h, end) && Live(h, b) && Live(h, c) && b != c
    ensures b.off != c.off && (b.End() <= c.off || c.End() <= b.off)
  {
    var i :| 0 <= i < |h.blocks| && h.blocks[i] == b;
    var j :| 0 <= j < |h.blocks| && h.blocks[j] == c;
    Disjoint(h.blocks, REGION_HEADER, end, i, j);
  }

  lemma LiveInside(h: Heap, end: nat, b: Block)
    requires WellFormed(h, end) && Live(h, b)
    ensures REGION_HEADER <= b.off && LEAST_BLOCK <= b.size && b.End() <= end
    ensures IndexOf(h.blocks, b.off) < |h.blocks| && h.blocks[IndexOf(h.blocks, b.off)] == b
  {
    var i :| 0 <= i < |h.blocks| && h.blocks[i] == b;
    Apart(h.blocks, REGION_HEADER, end, i);
    OffsetsDistinct(h.blocks, REGION_HEADER, end, i);
  }

  // ----- Trim -----

  /** What is left of a block after trimming it to `n` words. */
  function Trimmed(b: Block, n: nat): Block {
    if Splits(b, n) then b.(size := n) else b
  }

  lemma TrimLive(h: Heap, end: nat, i: nat, n: nat)
    requires WellFormed(h, end) && i < |h.blocks| && !h.blocks[i].free && LEAST_BLOCK <= n
    ensures Trim(h, i, n).blocks[i] == Trimmed(h.blocks[i], n)
    ensures forall b :: Live(Trim(h, i, n), b) <==> (Live(h, b) && b != h.blocks[i]) || b == Trimmed(h.blocks[i], n)
  {
    var b, after := h.blocks[i], Trim(h, i, n);
    if Splits(b, n) {
      var cut := Split(h.blocks, i, n, false);
      SplitFrom(h.blocks, i, n, false);
      SplitMembers(h.blocks, i, n, false);
      SetFreeFrom(cut, i + 1, true);
      SetFreeMembers(cut, i + 1, true);
      assert after.blocks[i] == Trimmed(b, n);
      forall c ensures Live(after, c) <==> (Live(h, c) && c != b) || c == Trimmed(b, n) {
        if Live(h, c) && c != b { LiveApart(h, end, b, c); }
        if Live(after, c) { TrimGone(h, end, i, n, c); }
      }
    }
  }

  lemma TrimGone(h: Heap, end: nat, i: nat, n: nat, c: Block)
    requires WellFormed(h, end) && i < |h.blocks| && !h.blocks[i].free && LEAST_BLOCK <= n && Splits(h.blocks[i], n)
    requires Live(Trim(h, i, n), c)
    ensures (Live(h, c) && c != h.blocks[i]) || c == Trimmed(h.blocks[i], n)
  {
    var b, after := h.blocks[i], Trim(h, i, n);
    var j :| 0 <= j < |after.blocks| && after.blocks[j] == c;
    if j < i {
      assert h.blocks[j] == c;
      Disjoint(h.blocks, REGION_HEADER, end, i, j);
    } else if j > i + 1 {
      assert h.blocks[j - 1] == c;
      Disjoint(h.blocks, REGION_HEADER, end, i, j - 1);
    }
  }

  // ----- Alloc -----

  lemma UnlinkLive(h: Heap, end: nat, i: nat)
    requires WellFormed(h, end) && i < |h.blocks| && h.blocks[i].free
    ensures forall b :: Live(Unlink(h, i), b) <==> Live(h, b) || b == h.blocks[i].(free := false)
    ensures !Live(h, h.blocks[i].(free := false))
  {
    SetFreeFrom(h.blocks, i, false);
    SetFreeMembers(h.blocks, i, false);
    assert Unlink(h, i).blocks[i] == h.blocks[i].(free := false);
    OffsetsDistinct(h.blocks, REGION_HEADER, end, i);
    forall b | Live(h, b) ensures b.off != h.blocks[i].off {
      var j :| 0 <= j < |h.blocks| && h.blocks[j] == b;
    }
  }

  /** The block that an allocation of `a` words hands out. */
  function Given(h: Heap, a: nat): Option<Block> {
    match FirstFit(h.blocks, h.list, a)
    case None => None
    case Some(i) => Some(Trimmed(h.blocks[i].(free := false), a))
  }

  /** An allocation adds exactly one live block, large enough, of which no word was in use. */
  lemma AllocLive(h: Heap, end: nat, a: nat)
    requires WellFormed(h, end) && LEAST_BLOCK <= a
    ensures var (after, r) := Alloc(h, a); var given := Given(h, a);
      && r == (if given.Some? then Some(given.value.off) else None)
      && (given.None? ==> after == h)
      && (given.Some? ==>
        && !given.value.free && a <= given.value.size < a + 13
        && (forall b :: Live(after, b) <==> Live(h, b) || b == given.value)
        && (forall b :: Live(h, b) ==> b.End() <= given.value.off || given.value.End() <= b.off))
  {
    var fit := FirstFit(h.blocks, h.list, a);
    if fit.Some? {
      var i := fit.value;
      FitIsFree(h, end, a);
      UnlinkKeeps(h, end, i);
      UnlinkLive(h, end, i);
      TrimLive(Unlink(h, i), end, i, a);
      forall b | Live(h, b) ensures b.End() <= h.blocks[i].off || h.blocks[i].End() <= b.off {
        var j :| 0 <= j < |h.blocks| && h.blocks[j] == b;
        Disjoint(h.blocks, REGION_HEADER, end, i, j);
      }
    }
  }

  // ----- Free -----

  lemma PushLive(h: Heap, end: nat, i: nat)
    requires WellFormed(h, end) && i < |h.blocks| && !h.blocks[i].free
    ensures forall b :: Live(Push(h, i), b) <==> Live(h, b) && b != h.blocks[i]
  {
    var after := Push(h, i);
    SetFreeFrom(h.blocks, i, true);
    SetFreeMembers(h.blocks, i, true);
    OffsetsDistinct(h.blocks, REGION_HEADER, end, i);
    forall b ensures Live(after, b) <==> Live(h, b) && b != h.blocks[i] {
      if Live(h, b) && b != h.blocks[i] { LiveApart(h, end, b, h.blocks[i]); }
      if Live(after, b) {
        var j :| 0 <= j < |after.blocks| && after.blocks[j] == b;
        assert j != i && h.blocks[j] == b;
      }
    }
  }

  lemma MergeLive(h: Heap, i: nat, list: seq<nat>)
    requires i + 1 < |h.blocks| && h.blocks[i].free && h.blocks[i + 1].free
    ensures forall b :: Live(Heap(Merge(h.blocks, i), list), b) <==> Live(h, b)
  {
    var joined := Merge(h.blocks, i);
    MergeFrom(h.blocks, i);
    forall b | Live(h, b) ensures b in joined {
      var j :| 0 <= j < |h.blocks| && h.blocks[j] == b;
      assert joined[if j < i then j else j - 1] == b;
    }
  }

  /** Freeing takes away exactly the freed block. */
  lemma FreeLive(h: Heap, end: nat, i: nat)
    requires WellFormed(h, end) && i < |h.blocks| && !h.blocks[i].free
    ensures forall b :: Live(Free(h, i), b) <==> Live(h, b) && b != h.blocks[i]
  {
    var pushed := Push(h, i);
    PushLive(h, end, i);
    if i > 0 && pushed.blocks[i - 1].free { MergeLive(pushed, i - 1, Without(pushed.list, pushed.blocks[i].off)); }
    var (joined, j) := JoinLeft(pushed, i);
    if j + 1 < |joined.blocks| && joined.blocks[j + 1].free {
      MergeLive(joined, j, Without(joined.list, joined.blocks[j + 1].off));
    }
  }
}
