/** What holds over every run of allocations, frees and trims on a fresh region. */
module HeapRuns {
  import opened Layout
  import opened Heaps
  import opened HeapInvariants
  import opened HeapCounts
  import opened HeapLive

  /** A call on the allocator. Blocks are named by their offset; a trim asks for `size` words, tags included. */
  datatype Call = AllocCall | FreeCall(off: nat) | TrimCall(off: nat, size: nat)

  /** The caller holds the block it frees or trims. */
  predicate Legal(h: Heap, call: Call) {
    match call
    case AllocCall => true
    case FreeCall(off) => IndexOf(h.blocks, off) < |h.blocks| && !h.blocks[IndexOf(h.blocks, off)].free
    case TrimCall(off, size) =>
      IndexOf(h.blocks, off) < |h.blocks| && !h.blocks[IndexOf(h.blocks, off)].free && LEAST_BLOCK <= size
  }

  function Step(h: Heap, a: nat, call: Call): Heap
    requires Legal(h, call)
  {
    match call
    case AllocCall => Alloc(h, a).0
    case FreeCall(off) => Free(h, IndexOf(h.blocks, off))
    case TrimCall(off, size) => Trim(h, IndexOf(h.blocks, off), size)
  }

  predicate LegalRun(h: Heap, a: nat, calls: seq<Call>)
    decreases |calls|
  {
    calls == [] || (Legal(h, calls[0]) && LegalRun(Step(h, a, calls[0]), a, calls[1..]))
  }

  function Run(h: Heap, a: nat, calls: seq<Call>): Heap
    requires LegalRun(h, a, calls)
    decreases |calls|
  {
    if calls == [] then h else Run(Step(h, a, calls[0]), a, calls[1..])
  }

  /** How many trims of a run split a block. */
  function SplittingTrims(h: Heap, a: nat, calls: seq<Call>): nat
    requires LegalRun(h, a, calls)
    decreases |calls|
  {
    if calls == [] then 0
    else SplitsBlock(h, calls[0]) + SplittingTrims(Step(h, a, calls[0]), a, calls[1..])
  }

  function SplitsBlock(h: Heap, call: Call): nat
    requires Legal(h, call)
  {
    match call
    case TrimCall(off, size) => One(Splits(h.blocks[IndexOf(h.blocks, off)], size))
    case _ => 0
  }

  predicate NoTrims(calls: seq<Call>) {
    forall call :: call in calls ==> !call.TrimCall?
  }

  // ----- Every run keeps the heap well formed; only trims make free neighbours -----

  lemma StepKeeps(h: Heap, end: nat, a: nat, call: Call)
    requires WellFormed(h, end) && LEAST_BLOCK <= a && Legal(h, call)
    ensures WellFormed(Step(h, a, call), end)
    ensures FreePairs(Step(h, a, call).blocks) <= FreePairs(h.blocks) + SplitsBlock(h, call)
  {
    match call
    case AllocCall =>
      AllocKeeps(h, end, a);
      var fit := FirstFit(h.blocks, h.list, a);
      if fit.Some? {
        FitIsFree(h, end, a);
        TakeCounts(h, fit.value, a);
      }
    case FreeCall(off) =>
      FreeKeeps(h, end, IndexOf(h.blocks, off));
      FreeCounts(h, IndexOf(h.blocks, off));
    case TrimCall(off, size) =>
      TrimKeeps(h, end, IndexOf(h.blocks, off), size);
      TrimCounts(h, IndexOf(h.blocks, off), size);
  }

  lemma {:induction false} RunKeepsFrom(h: Heap, end: nat, a: nat, calls: seq<Call>)
    requires WellFormed(h, end) && LEAST_BLOCK <= a && LegalRun(h, a, calls)
    ensures WellFormed(Run(h, a, calls), end)
    ensures FreePairs(Run(h, a, calls).blocks) <= FreePairs(h.blocks) + SplittingTrims(h, a, calls)
    decreases |calls|
  {
    if calls == [] {
    } else {
      StepKeeps(h, end, a, calls[0]);
      RunKeepsFrom(Step(h, a, calls[0]), end, a, calls[1..]);
    }
  }

  lemma FreshWellFormed(end: nat)
    requires end >= REGION_HEADER + LEAST_BLOCK
    ensures WellFormed(Fresh(end), end) && FreePairs(Fresh(end).blocks) == 0
  {
    var b := Fresh(end).blocks[0];
    assert FreeAt([b], REGION_HEADER) by { assert [b][0].off == REGION_HEADER; }
    Pair(b, b);
  }

  /** After any run the blocks tile the region, the list names exactly the free blocks, each once, and there are
      no more pairs of free neighbours than trims that split. */
  lemma RunKeeps(end: nat, a: nat, calls: seq<Call>)
    requires end >= REGION_HEADER + LEAST_BLOCK && LEAST_BLOCK <= a && LegalRun(Fresh(end), a, calls)
    ensures WellFormed(Run(Fresh(end), a, calls), end)
    ensures FreePairs(Run(Fresh(end), a, calls).blocks) <= SplittingTrims(Fresh(end), a, calls)
  {
    FreshWellFormed(end);
    RunKeepsFrom(Fresh(end), end, a, calls);
  }

  // ----- Runs without trims -----

  lemma {:induction false} NoTrimsNoSplits(h: Heap, a: nat, calls: seq<Call>)
    requires LegalRun(h, a, calls) && NoTrims(calls)
    ensures SplittingTrims(h, a, calls) == 0
    decreases |calls|
  {
    if calls == [] {
    } else {
      assert calls[0] in calls;
      NoTrimsNoSplits(Step(h, a, calls[0]), a, calls[1..]);
    }
  }

  lemma {:induction false} NoPairs(bs: seq<Block>, i: nat)
    requires FreePairs(bs) == 0
    ensures !BothFree(bs, i)
  {
    if i > 0 && bs != [] {
      NoPairs(bs[1..], i - 1);
    }
  }

  /** Runs of allocations and frees alone never leave two free blocks side by side. */
  lemma NoFreeNeighbours(end: nat, a: nat, calls: seq<Call>)
    requires end >= REGION_HEADER + LEAST_BLOCK && LEAST_BLOCK <= a && LegalRun(Fresh(end), a, calls) && NoTrims(calls)
    ensures forall i :: !BothFree(Run(Fresh(end), a, calls).blocks, i)
  {
    RunKeeps(end, a, calls);
    NoTrimsNoSplits(Fresh(end), a, calls);
    forall i: int ensures !BothFree(Run(Fresh(end), a, calls).blocks, i) {
      if i >= 0 { NoPairs(Run(Fresh(end), a, calls).blocks, i); }
    }
  }

  lemma {:induction false} AllFreePairs(bs: seq<Block>)
    requires bs != [] && forall i :: 0 <= i < |bs| ==> bs[i].free
    ensures FreePairs(bs) == |bs| - 1
  {
    if |bs| == 1 {
      assert bs[1..] == [];
    } else {
      AllFreePairs(bs[1..]);
    }
  }

  lemma OneFreeBlock(h: Heap, end: nat)
    requires end >= REGION_HEADER && WellFormed(h, end) && |h.blocks| == 1 && h.blocks[0].free
    ensures h == Fresh(end)
  {
    assert h.blocks == Fresh(end).blocks;
    forall k | 0 <= k < |h.list| ensures h.list[k] == REGION_HEADER { assert FreeAt(h.blocks, h.list[k]); }
    assert h.blocks[0].off in h.list;
    assert h.list[0] == h.list[|h.list| - 1];
  }

  /** Once everything is freed again, every trim that split has left at most one boundary behind; without any, the
      region is back in its first state. */
  lemma AllFreed(end: nat, a: nat, calls: seq<Call>)
    requires end >= REGION_HEADER + LEAST_BLOCK && LEAST_BLOCK <= a && LegalRun(Fresh(end), a, calls)
    requires forall b :: b in Run(Fresh(end), a, calls).blocks ==> b.free
    ensures |Run(Fresh(end), a, calls).blocks| <= SplittingTrims(Fresh(end), a, calls) + 1
    ensures SplittingTrims(Fresh(end), a, calls) == 0 ==> Run(Fresh(end), a, calls) == Fresh(end)
  {
    var h := Run(Fresh(end), a, calls);
    RunKeeps(end, a, calls);
    forall i | 0 <= i < |h.blocks| ensures h.blocks[i].free { assert h.blocks[i] in h.blocks; }
    AllFreePairs(h.blocks);
    if |h.blocks| == 1 { OneFreeBlock(h, end); }
  }

  // ----- Sizes over every run -----

  /** No trim of a run asks for less than `least` words. */
  predicate TrimsAtLeast(calls: seq<Call>, least: nat) {
    forall call :: call in calls && call.TrimCall? ==> least <= call.size
  }

  /** Allocated blocks have the requested size, or up to twelve words more that were not worth splitting off, or what
      trims have left of that. */
  predicate LiveSizes(bs: seq<Block>, least: nat, a: nat) {
    forall b :: b in bs && !b.free ==> least <= b.size < a + 13
  }

  lemma AllocSizes(h: Heap, end: nat, least: nat, a: nat)
    requires WellFormed(h, end) && LEAST_BLOCK <= a && least <= a && LiveSizes(h.blocks, least, a)
    ensures LiveSizes(Alloc(h, a).0.blocks, least, a)
  {
    hide WellFormed, Alloc, Given;
    AllocLive(h, end, a);
    forall b | b in Alloc(h, a).0.blocks && !b.free ensures least <= b.size < a + 13 {
      assert Live(Alloc(h, a).0, b);
    }
  }

  lemma FreeSizes(h: Heap, i: nat, least: nat, a: nat)
    requires i < |h.blocks| && LiveSizes(h.blocks, least, a)
    ensures LiveSizes(Free(h, i).blocks, least, a)
  {
    SetFreeFrom(h.blocks, i, true);
    var pushed := Push(h, i);
    if BothFree(pushed.blocks, i - 1) { MergeFrom(pushed.blocks, i - 1); }
    var (joined, j) := JoinLeft(pushed, i);
    if BothFree(joined.blocks, j) { MergeFrom(joined.blocks, j); }
  }

  lemma TrimSizes(h: Heap, end: nat, i: nat, size: nat, least: nat, a: nat)
    requires WellFormed(h, end) && i < |h.blocks| && !h.blocks[i].free && LEAST_BLOCK <= size && least <= size
    requires LiveSizes(h.blocks, least, a)
    ensures LiveSizes(Trim(h, i, size).blocks, least, a)
  {
    hide WellFormed, Trim;
    TrimLive(h, end, i, size);
    assert h.blocks[i] in h.blocks;
    forall b | b in Trim(h, i, size).blocks && !b.free ensures least <= b.size < a + 13 {
      assert Live(Trim(h, i, size), b);
    }
  }

  lemma StepSizes(h: Heap, end: nat, least: nat, a: nat, call: Call)
    requires WellFormed(h, end) && LEAST_BLOCK <= a && least <= a && Legal(h, call) && LiveSizes(h.blocks, least, a)
    requires call.TrimCall? ==> least <= call.size
    ensures LiveSizes(Step(h, a, call).blocks, least, a)
  {
    match call
    case AllocCall => AllocSizes(h, end, least, a);
    case FreeCall(off) => FreeSizes(h, IndexOf(h.blocks, off), least, a);
    case TrimCall(off, size) => TrimSizes(h, end, IndexOf(h.blocks, off), size, least, a);
  }

  /** Over every run allocated blocks are less than 104 bytes larger than a request, and no smaller than the smallest
      size that was requested or trimmed to. */
  lemma {:induction false} RunSizes(h: Heap, end: nat, least: nat, a: nat, calls: seq<Call>)
    requires WellFormed(h, end) && LEAST_BLOCK <= a && least <= a && LegalRun(h, a, calls) && TrimsAtLeast(calls, least)
    requires LiveSizes(h.blocks, least, a)
    ensures LiveSizes(Run(h, a, calls).blocks, least, a)
    decreases |calls|
  {
    if calls == [] {
    } else {
      assert calls[0] in calls;
      StepKeeps(h, end, a, calls[0]);
      StepSizes(h, end, least, a, calls[0]);
      RunSizes(Step(h, a, calls[0]), end, least, a, calls[1..]);
    }
  }
}
