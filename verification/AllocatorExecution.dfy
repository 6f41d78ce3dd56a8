/** Calls on an `Allocator` are runs of `HeapRuns`. */
module AllocatorExecution {
  import opened Layout
  import opened Heaps
  import opened HeapRuns
  import opened Allocator

  /** The program survives the call: only freeing the block at the region's end runs into an assertion. */
  predicate Completes(h: Heap, end: nat, call: Call)
    requires Legal(h, call)
  {
    call.FreeCall? ==> h.blocks[IndexOf(h.blocks, call.off)].End() != end
  }

  /** How many of the calls are made: all of them, or those up to the first one that does not complete. */
  function Made(h: Heap, end: nat, a: nat, calls: seq<Call>): (n: nat)
    requires LegalRun(h, a, calls)
    ensures n <= |calls|
    decreases |calls|
  {
    if calls == [] then 0
    else if !Completes(h, end, calls[0]) then 1
    else 1 + Made(Step(h, a, calls[0]), end, a, calls[1..])
  }

  /** The sizes that `Allocator.Trim` covers. */
  predicate Sized(call: Call) {
    call.TrimCall? ==> call.size + MIN_BLOCK < SIZE_LIMIT
  }

  /** The bytes of payload for which a block has that many words. */
  function PayloadBytes(words: nat): (bytes: nat)
    requires words >= LEAST_BLOCK
    ensures bytes > 0 && BlockWords(bytes) == words
  {
    8 * (words - BLOCK_TAGS)
  }

  lemma MadePrefix(h: Heap, a: nat, calls: seq<Call>, n: nat)
    requires 0 < n <= |calls| && Legal(h, calls[0])
    requires LegalRun(Step(h, a, calls[0]), a, calls[1..][..n - 1])
    ensures LegalRun(h, a, calls[..n]) && Run(h, a, calls[..n]) == Run(Step(h, a, calls[0]), a, calls[1..][..n - 1])
  {
    assert calls[..n][1..] == calls[1..][..n - 1];
  }

  /** One call. */
  method Perform(alloc: Allocator, call: Call) returns (completed: bool)
    requires alloc.Valid() && Legal(alloc.heap, call) && Sized(call)
    modifies alloc, alloc.mem
    ensures alloc.Valid() && alloc.AllocSize() == old(alloc.AllocSize())
    ensures alloc.heap == Step(old(alloc.heap), old(alloc.AllocSize()), call)
    ensures completed <==> Completes(old(alloc.heap), alloc.mem.Length, call)
  {
    completed := true;
    match call
    case AllocCall =>
      var ptr := alloc.Alloc();
    case FreeCall(off) =>
      completed := alloc.Free(off + BLOCK_HEADER, IndexOf(alloc.heap.blocks, off));
    case TrimCall(off, size) =>
      alloc.Trim(off + BLOCK_HEADER, PayloadBytes(size), IndexOf(alloc.heap.blocks, off));
  }

  /** Any row of calls leaves the heap that the run of those made leaves. */
  method Execute(alloc: Allocator, calls: seq<Call>) returns (made: nat)
    requires alloc.Valid() && LegalRun(alloc.heap, alloc.AllocSize(), calls)
    requires forall k :: 0 <= k < |calls| ==> Sized(calls[k])
    modifies alloc, alloc.mem
    ensures alloc.Valid() && alloc.AllocSize() == old(alloc.AllocSize())
    ensures made == Made(old(alloc.heap), alloc.mem.Length, old(alloc.AllocSize()), calls)
    ensures LegalRun(old(alloc.heap), old(alloc.AllocSize()), calls[..made])
    ensures alloc.heap == Run(old(alloc.heap), old(alloc.AllocSize()), calls[..made])
    decreases |calls|
  {
    if calls == [] {
      return 0;
    }
    ghost var start, a := alloc.heap, alloc.AllocSize();
    var completed := Perform(alloc, calls[0]);
    if !completed {
      MadePrefix(start, a, calls, 1);
      return 1;
    }
    var rest := Execute(alloc, calls[1..]);
    MadePrefix(start, a, calls, rest + 1);
    return rest + 1;
  }

  /** So everything proved of runs on a fresh region holds of a new allocator after any calls. */
  method ExecuteFresh(mem: array<Word>, maxMessageSize: nat, calls: seq<Call>) returns (alloc: Allocator, made: nat)
    requires Admits(mem.Length, maxMessageSize) && FitsFirstBlock(mem.Length) && 0 < maxMessageSize
    requires mem.Length < SIZE_LIMIT && LegalRun(Fresh(mem.Length), BlockWords(maxMessageSize), calls)
    requires forall k :: 0 <= k < |calls| ==> Sized(calls[k])
    modifies mem
    ensures alloc.Valid() && alloc.mem == mem
    ensures made == Made(Fresh(mem.Length), mem.Length, BlockWords(maxMessageSize), calls)
    ensures LegalRun(Fresh(mem.Length), BlockWords(maxMessageSize), calls[..made])
    ensures alloc.heap == Run(Fresh(mem.Length), BlockWords(maxMessageSize), calls[..made])
  {
    hide Sound, Run, LegalRun, Made;
    alloc := new Allocator.Create(mem, maxMessageSize);
    made := Execute(alloc, calls);
  }
}
