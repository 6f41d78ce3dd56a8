/** The allocator's state as a sequence of blocks and a free list, and what each operation of
    src/shmem/allocator.c does to it. `Allocator` implements these functions in place on an array. */
module Heaps {
  import opened Layout
  import opened Wrappers

  datatype Block = Block(off: nat, size: nat, free: bool) {
    function End(): nat { off + size }

    /** The cells a client may use: everything between header and footer. */
    predicate InPayload(w: int) { off + BLOCK_HEADER <= w < End() - BLOCK_FOOTER }
  }

  /** `list` holds the offsets of the free blocks in the order of the intrusive list. */
  datatype Heap = Heap(blocks: seq<Block>, list: seq<nat>)

  // ----- Well-formed heaps -----

  /** The blocks cover [lo, hi) without gap or overlap. */
  ghost predicate Tiles(bs: seq<Block>, lo: nat, hi: nat) {
    && |bs| > 0 && bs[0].off == lo && bs[|bs| - 1].End() == hi
    && (forall i :: 0 <= i < |bs| ==> bs[i].size >= LEAST_BLOCK)
    && (forall i, j :: 0 <= i < |bs| && 0 <= j < |bs| && j == i + 1 ==> bs[i].End() == bs[j].off)
  }

  ghost predicate FreeAt(bs: seq<Block>, off: nat) {
    exists i :: 0 <= i < |bs| && bs[i].off == off && bs[i].free
  }

  /** The list visits exactly the free blocks, each once. */
  ghost predicate ListsFree(list: seq<nat>, bs: seq<Block>) {
    && (forall i, j :: 0 <= i < j < |list| ==> list[i] != list[j])
    && (forall k :: 0 <= k < |list| ==> FreeAt(bs, list[k]))
    && (forall i :: 0 <= i < |bs| && bs[i].free ==> bs[i].off in list)
  }

  ghost predicate WellFormed(h: Heap, end: nat) {
    Tiles(h.blocks, REGION_HEADER, end) && ListsFree(h.list, h.blocks)
  }

  // ----- Building blocks -----

  function IndexOf(bs: seq<Block>, off: nat): (i: nat)
    ensures i <= |bs|
    ensures i < |bs| ==> bs[i].off == off
    ensures forall j :: 0 <= j < i ==> bs[j].off != off
  {
    if bs == [] || bs[0].off == off then 0 else 1 + IndexOf(bs[1..], off)
  }

  function Without(list: seq<nat>, x: nat): seq<nat> {
    if list == [] then [] else if list[0] == x then list[1..] else [list[0]] + Without(list[1..], x)
  }

  function SetFree(bs: seq<Block>, i: nat, free: bool): seq<Block>
    requires i < |bs|
  {
    bs[i := bs[i].(free := free)]
  }

  /** Block `i` keeps its first `n` words; the rest becomes a block of its own, marked `free`. */
  function Split(bs: seq<Block>, i: nat, n: nat, free: bool): (cut: seq<Block>)
    requires i < |bs| && n <= bs[i].size
    ensures |cut| == |bs| + 1
    ensures cut[i] == Block(bs[i].off, n, bs[i].free) && cut[i + 1] == Block(bs[i].off + n, bs[i].size - n, free)
    ensures forall k :: 0 <= k < i ==> cut[k] == bs[k]
    ensures forall k :: i + 1 < k < |cut| ==> cut[k] == bs[k - 1]
  {
    bs[..i] + [Block(bs[i].off, n, bs[i].free), Block(bs[i].off + n, bs[i].size - n, free)] + bs[i + 1..]
  }

  /** Block `i` swallows its right neighbour. */
  function Merge(bs: seq<Block>, i: nat): (joined: seq<Block>)
    requires i + 1 < |bs|
    ensures |joined| == |bs| - 1
    ensures joined[i] == Block(bs[i].off, bs[i].size + bs[i + 1].size, true)
    ensures forall k :: 0 <= k < i ==> joined[k] == bs[k]
    ensures forall k :: i < k < |joined| ==> joined[k] == bs[k + 1]
  {
    bs[..i] + [Block(bs[i].off, bs[i].size + bs[i + 1].size, true)] + bs[i + 2..]
  }

  function Push(h: Heap, i: nat): Heap
    requires i < |h.blocks|
  {
    Heap(SetFree(h.blocks, i, true), [h.blocks[i].off] + h.list)
  }

  function Unlink(h: Heap, i: nat): Heap
    requires i < |h.blocks|
  {
    Heap(SetFree(h.blocks, i, false), Without(h.list, h.blocks[i].off))
  }

  // ----- The operations -----

  /** The single free block that `allocator_create` sets up in a region of `end` words. */
  function Fresh(end: nat): Heap
    requires end >= REGION_HEADER
  {
    Heap([Block(REGION_HEADER, end - REGION_HEADER, true)], [REGION_HEADER])
  }

  predicate Splits(b: Block, n: nat) {
    b.size >= n + MIN_BLOCK
  }

  function Trim(h: Heap, i: nat, n: nat): Heap
    requires i < |h.blocks|
  {
    if Splits(h.blocks[i], n)
    then Push(Heap(Split(h.blocks, i, n, false), h.list), i + 1)
    else h
  }

  /** The first block of the list with at least `a` words. */
  function FirstFit(bs: seq<Block>, list: seq<nat>, a: nat): (r: Option<nat>)
    ensures r.Some? ==> r.value < |bs| && bs[r.value].size >= a && bs[r.value].off in list
    ensures r.None? ==> forall k :: 0 <= k < |list| && IndexOf(bs, list[k]) < |bs| ==> bs[IndexOf(bs, list[k])].size < a
  {
    if list == [] then None
    else
      var i := IndexOf(bs, list[0]);
      if i < |bs| && bs[i].size >= a then Some(i) else FirstFit(bs, list[1..], a)
  }

  function Alloc(h: Heap, a: nat): (Heap, Option<nat>) {
    match FirstFit(h.blocks, h.list, a)
    case None => (h, None)
    case Some(i) => (Trim(Unlink(h, i), i, a), Some(h.blocks[i].off))
  }

  /** Join block `i` to a free left neighbour, which keeps its place in the list. */
  function JoinLeft(h: Heap, i: nat): (Heap, nat)
    requires i < |h.blocks|
  {
    if i > 0 && h.blocks[i - 1].free
    then (Heap(Merge(h.blocks, i - 1), Without(h.list, h.blocks[i].off)), i - 1)
    else (h, i)
  }

  function JoinRight(h: Heap, i: nat): Heap
    requires i < |h.blocks|
  {
    if i + 1 < |h.blocks| && h.blocks[i + 1].free
    then Heap(Merge(h.blocks, i), Without(h.list, h.blocks[i + 1].off))
    else h
  }

  /** Free block `i`. A block that ends at the region's end has no right neighbour; the program's handling of
      that case is in `Allocator.Free`. */
  function Free(h: Heap, i: nat): Heap
    requires i < |h.blocks|
  {
    var (joined, j) := JoinLeft(Push(h, i), i);
    JoinRight(joined, j)
  }
}
