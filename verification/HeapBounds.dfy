/** When an allocation fails, and how many succeed. */
module HeapBounds {
  import opened Layout
  import opened Heaps
  import opened HeapInvariants
  import opened HeapCounts
  import opened HeapRuns
  import opened Wrappers

  // ----- First fit finds a block whenever there is one -----

  lemma AllocFailsIff(h: Heap, end: nat, a: nat)
    requires WellFormed(h, end)
    ensures Alloc(h, a).1.None? <==> forall i :: 0 <= i < |h.blocks| && h.blocks[i].free ==> h.blocks[i].size < a
    ensures Alloc(h, a).1.None? ==> Alloc(h, a).0 == h
  {
    var fit := FirstFit(h.blocks, h.list, a);
    if fit.None? {
      forall i | 0 <= i < |h.blocks| && h.blocks[i].free ensures h.blocks[i].size < a {
        var k: nat :| k < |h.list| && h.list[k] == h.blocks[i].off;
        OffsetsDistinct(h.blocks, REGION_HEADER, end, i);
      }
    } else {
      FitIsFree(h, end, a);
    }
  }

  // ----- Fragmentation -----

  function LiveBlocks(bs: seq<Block>): nat {
    if bs == [] then 0 else One(!bs[0].free) + LiveBlocks(bs[1..])
  }

  function FreeBlocks(bs: seq<Block>): nat {
    if bs == [] then 0 else One(bs[0].free) + FreeBlocks(bs[1..])
  }

  function Words(bs: seq<Block>): nat {
    if bs == [] then 0 else bs[0].size + Words(bs[1..])
  }

  lemma {:induction false} TiledWords(bs: seq<Block>, lo: nat, hi: nat)
    requires Tiles(bs, lo, hi)
    ensures Words(bs) == hi - lo
    decreases |bs|
  {
    if |bs| == 1 {
      assert bs[1..] == [];
    } else {
      assert bs[0].End() == bs[1].off;
      TiledWords(bs[1..], bs[1].off, hi);
    }
  }

  /** Every free block but the first one follows a live block or makes a pair with the block before it. */
  lemma {:induction false} FewFreeBlocks(bs: seq<Block>)
    ensures FreeBlocks(bs) <= LiveBlocks(bs) + FreePairs(bs) + One(bs != [] && bs[0].free)
  {
    if bs != [] {
      FewFreeBlocks(bs[1..]);
    }
  }

  lemma {:induction false} WordsBound(bs: seq<Block>, live: nat, free: nat)
    requires forall i :: 0 <= i < |bs| ==> bs[i].size <= if bs[i].free then free else live
    ensures Words(bs) <= LiveBlocks(bs) * live + FreeBlocks(bs) * free
  {
    if bs != [] {
      WordsBound(bs[1..], live, free);
      var l, f := LiveBlocks(bs[1..]), FreeBlocks(bs[1..]);
      assert (l + 1) * live == l * live + live;
      assert (f + 1) * free == f * free + free;
    }
  }

  lemma SizesWhenFull(h: Heap, end: nat, a: nat)
    requires WellFormed(h, end) && a > 0 && LiveSizes(h.blocks, 0, a) && Alloc(h, a).1.None?
    ensures forall i :: 0 <= i < |h.blocks| ==> h.blocks[i].size <= if h.blocks[i].free then a - 1 else a + 12
  {
    AllocFailsIff(h, end, a);
    assert forall i :: 0 <= i < |h.blocks| ==> h.blocks[i] in h.blocks;
  }

  lemma Multiply(x: nat, y: nat, z: nat)
    requires x <= y
    ensures x * z <= y * z
  {
    if x < y { Multiply(x, y - 1, z); assert (y - 1) * z + z == y * z; }
  }

  lemma MoreGaps(words: nat, live: nat, x: nat, y: nat, z: nat)
    requires words <= live + x * z && x <= y
    ensures words <= live + y * z
  {
    Multiply(x, y, z);
  }

  lemma FullBlocks(bs: seq<Block>, end: nat, a: nat, pairs: nat)
    requires Tiles(bs, REGION_HEADER, end) && a > 0 && FreePairs(bs) <= pairs
    requires forall i :: 0 <= i < |bs| ==> bs[i].size <= if bs[i].free then a - 1 else a + 12
    ensures end - REGION_HEADER <= LiveBlocks(bs) * (a + 12) + (LiveBlocks(bs) + 1 + pairs) * (a - 1)
  {
    WordsBound(bs, a + 12, a - 1);
    FewFreeBlocks(bs);
    TiledWords(bs, REGION_HEADER, end);
    var live := LiveBlocks(bs);
    MoreGaps(end - REGION_HEADER, live * (a + 12), FreeBlocks(bs), live + 1 + pairs, a - 1);
  }

  /** After any run an allocation of `a` words fails only if the live blocks, of which there are L, account for all but
      L + 1 gaps too small for the request, and one more for each trim that split. */
  lemma FragmentationBound(end: nat, a: nat, calls: seq<Call>)
    requires end >= REGION_HEADER + LEAST_BLOCK && LEAST_BLOCK <= a && LegalRun(Fresh(end), a, calls)
    requires Alloc(Run(Fresh(end), a, calls), a).1.None?
    ensures var live, trims := LiveBlocks(Run(Fresh(end), a, calls).blocks), SplittingTrims(Fresh(end), a, calls);
      end - REGION_HEADER <= live * (a + 12) + (live + 1 + trims) * (a - 1)
  {
    hide Run, Alloc, WellFormed;
    FreshWellFormed(end);
    RunKeeps(end, a, calls);
    RunSizes(Fresh(end), end, 0, a, calls);
    SizesWhenFull(Run(Fresh(end), a, calls), end, a);
    FullBlocks(Run(Fresh(end), a, calls).blocks, end, a, SplittingTrims(Fresh(end), a, calls));
  }

  // ----- Capacity -----

  /** The first `k` of a row of allocations all succeed. */
  predicate Succeed(h: Heap, a: nat, k: nat)
    decreases k
  {
    k == 0 || (Alloc(h, a).1.Some? && Succeed(Alloc(h, a).0, a, k - 1))
  }

  /** How many allocations of `a` words one free block of `size` words serves. */
  function Capacity(size: nat, a: nat): nat
    requires a > 0
    decreases size
  {
    if size < a then 0 else if size < a + MIN_BLOCK then 1 else 1 + Capacity(size - a, a)
  }

  /** All blocks but the last are allocated. */
  predicate OneHole(h: Heap) {
    && |h.blocks| > 0
    && h.list == [h.blocks[|h.blocks| - 1].off]
    && h.blocks[|h.blocks| - 1].free
  }

  lemma AllocFromHole(h: Heap, end: nat, a: nat)
    requires WellFormed(h, end) && OneHole(h) && LEAST_BLOCK <= a
    ensures var size := h.blocks[|h.blocks| - 1].size; var (after, r) := Alloc(h, a);
      && (r.Some? <==> size >= a)
      && (a <= size < a + MIN_BLOCK ==> after.list == [])
      && (size >= a + MIN_BLOCK ==> OneHole(after) && after.blocks[|after.blocks| - 1].size == size - a)
  {
    var last := |h.blocks| - 1;
    OffsetsDistinct(h.blocks, REGION_HEADER, end, last);
    assert h.list[1..] == [];
    assert FirstFit(h.blocks, h.list[1..], a) == None;
    assert Without(h.list, h.list[0]) == [];
  }

  lemma NoneLeft(h: Heap, a: nat, k: nat)
    requires h.list == [] && k > 0
    ensures !Succeed(h, a, k)
  {
    assert FirstFit(h.blocks, h.list, a) == None;
  }

  lemma {:induction false} SucceedFromHole(h: Heap, end: nat, a: nat, k: nat)
    requires WellFormed(h, end) && OneHole(h) && LEAST_BLOCK <= a
    ensures Succeed(h, a, k) <==> k <= Capacity(h.blocks[|h.blocks| - 1].size, a)
    decreases k
  {
    hide WellFormed, Alloc;
    if k > 0 {
      var size := h.blocks[|h.blocks| - 1].size;
      var (after, r) := Alloc(h, a);
      assert Succeed(h, a, k) <==> r.Some? && Succeed(after, a, k - 1);
      AllocFromHole(h, end, a);
      if size >= a + MIN_BLOCK {
        assert WellFormed(after, end) by { AllocKeeps(h, end, a); }
        SucceedFromHole(after, end, a, k - 1);
      } else if size >= a && k > 1 {
        NoneLeft(after, a, k - 1);
      }
    }
  }

  lemma QuotientUnique(x: nat, d: nat, q: nat, r: nat)
    requires 0 <= r < d && x == q * d + r
    ensures x / d == q
  {
    var p := x / d;
    assert x == p * d + x % d;
    assert (q + 1) * d == q * d + d && (p + 1) * d == p * d + d;
    if p > q { Multiply(q + 1, p, d); }
    if p < q { Multiply(p + 1, q, d); }
  }

  lemma Quotient(size: nat, a: nat)
    requires 0 < a <= size
    ensures size / a == 1 + (size - a) / a
    ensures size < 2 * a ==> size / a == 1
  {
    var q := (size - a) / a;
    assert (q + 1) * a == q * a + a;
    QuotientUnique(size, a, q + 1, (size - a) % a);
    if size < 2 * a { QuotientUnique(size, a, 1, size - a); }
  }

  lemma {:induction false} CapacityIsQuotient(size: nat, a: nat)
    requires a >= MIN_BLOCK
    ensures Capacity(size, a) == size / a
    decreases size
  {
    if size >= a + MIN_BLOCK {
      CapacityIsQuotient(size - a, a);
      assert size / a == 1 + (size - a) / a by { Quotient(size, a); }
    } else if size >= a {
      Quotient(size, a);
    }
  }

  /** A smaller request takes the remainder that is not worth splitting off with the last block. */
  lemma {:induction false} SmallCapacity(size: nat, a: nat)
    requires 0 < a < 13
    ensures Capacity(size, a) == if size < a then 0 else if size < 13 then 1 else 1 + (size - 13) / a
    decreases size
  {
    if size >= a + MIN_BLOCK {
      SmallCapacity(size - a, a);
      Quotient(size - 13, a);
    } else if size >= 13 {
      QuotientUnique(size - 13, a, 0, size - 13);
    }
  }

  /** A fresh region serves a row of exactly Capacity allocations. */
  lemma FreshCapacity(end: nat, a: nat, k: nat)
    requires end >= REGION_HEADER + LEAST_BLOCK && LEAST_BLOCK <= a
    ensures Succeed(Fresh(end), a, k) <==> k <= Capacity(end - REGION_HEADER, a)
  {
    FreshWellFormed(end);
    SucceedFromHole(Fresh(end), end, a, k);
  }

  /** That is the quotient of the sizes for every region exactly when a request takes at least 104 bytes, tags
      included; smaller requests lose a block to the remainder that is not split off. */
  lemma CapacityIsQuotientIff(a: nat)
    requires LEAST_BLOCK <= a
    ensures (forall size: nat :: Capacity(size, a) == size / a) <==> a >= 13
  {
    if a >= 13 {
      forall size: nat ensures Capacity(size, a) == size / a { CapacityIsQuotient(size, a); }
    } else {
      assert Capacity(2 * a, a) == 1;
      Quotient(2 * a, a);
      Quotient(a, a);
      assert Capacity(2 * a, a) != (2 * a) / a;
    }
  }

  /** The threshold in bytes: a block of `8 * size` bytes is split for a payload of `bytes` exactly if it has room for
      the payload, the tags and another 104 bytes. */
  lemma SplitsInBytes(b: Block, bytes: nat)
    ensures var aligned := bytes + 7 - (bytes + 7) % 8;
      Splits(b, BlockWords(bytes)) <==> 8 * b.size >= aligned + 40 + 104
  {
  }

  /** A region of 248 bytes serves two messages of 64, one of 240 bytes only one. */
  lemma ThresholdSeen()
    ensures BlockWords(64) == 13 && Succeed(Fresh(31), 13, 2) && !Succeed(Fresh(30), 13, 2)
  {
    FreshCapacity(31, 13, 2);
    FreshCapacity(30, 13, 2);
    CapacityIsQuotient(26, 13);
    CapacityIsQuotient(25, 13);
  }
}
