/** The shared part of a message arena (src/shmem/transport_shm.h) and what each atomic section of
    src/shmem/transport_shm.c does to it. Offsets into the arena count from its header, four words before the
    allocator's region. */
module ShmSteps {
  import opened Layout
  import opened Heaps
  import opened HeapLive
  import opened Region
  import opened Wrappers

  const ARENA_HEADER := 4
  const MESSAGE_HEADER := 2

  /** The same in bytes. */
  const MESSAGE_HEADER_SIZE := 16

  const NEXT := 1

  /** `num_messages` is a 32-bit counter. */
  const COUNTER_LIMIT := 0x1_0000_0000

  datatype Shared = Shared(mem: Memory, heap: Heap, first: Word, last: Word, num: nat)

  /** A message: the block it lives in, its size in bytes and the words of its body. */
  datatype Msg = Msg(b: Block, size: nat, body: seq<Word>)

  /** Index of the message header in the allocator's region. */
  function HeaderOf(b: Block): nat { b.off + BLOCK_HEADER }

  function BodyOf(b: Block): nat { HeaderOf(b) + MESSAGE_HEADER }

  /** `transport_message_offset` */
  function OffsetOf(b: Block): nat { HeaderOf(b) + ARENA_HEADER }

  /** `transport_message_from_offset`, with the two bounds its assertion checks. */
  function FromOffset(o: nat): int { o - ARENA_HEADER }

  predicate InArena(m: Memory, o: nat) { 0 < o < |m| + ARENA_HEADER }

  function Peek(m: Memory, w: int): Word { if 0 <= w < |m| then m[w] else 0 }

  function Poke(m: Memory, w: int, v: Word): Memory { if 0 <= w < |m| then m[w := v] else m }

  function Slice(m: Memory, lo: nat, n: nat): (words: seq<Word>)
    ensures |words| == n && forall k :: 0 <= k < n ==> words[k] == Peek(m, lo + k)
  {
    if n == 0 then [] else Slice(m, lo, n - 1) + [Peek(m, lo + n - 1)]
  }

  /** Words of a block that holds a message of `size` bytes, tags and message header included. */
  function WordsFor(size: nat): nat { BlockWords(size + MESSAGE_HEADER_SIZE) }

  lemma WordsForBody(size: nat)
    ensures WordsFor(size) == MESSAGE_HEADER + Align(size) + BLOCK_TAGS == Align(size) + 7
  {
  }

  // ----- The atomic sections -----

  function InitHeader(sh: Shared, header: nat, maxSize: Word): Shared {
    sh.(mem := Poke(Poke(sh.mem, header, maxSize), header + NEXT, NULL_OFFSET))
  }

  function WriteWord(sh: Shared, w: nat, v: Word): Shared {
    sh.(mem := Poke(sh.mem, w, v))
  }

  /** Under the arena lock: hang the message behind the last one, or start the list with it. */
  function Append(sh: Shared, o: Word): Shared {
    if sh.last != NULL_OFFSET
    then sh.(mem := Poke(sh.mem, FromOffset(sh.last) + NEXT, o), last := o)
    else sh.(first := o, last := o)
  }

  /** Under the arena lock: the list starts behind the message at `o`. */
  function UnlinkHead(sh: Shared, o: Word): Shared {
    var next := Peek(sh.mem, FromOffset(o) + NEXT);
    sh.(first := next, last := if next == NULL_OFFSET then NULL_OFFSET else sh.last)
  }

  function CountIn(sh: Shared): Shared {
    sh.(num := if sh.num + 1 < COUNTER_LIMIT then sh.num + 1 else 0)
  }

  function CountOut(sh: Shared): Shared {
    sh.(num := if sh.num > 0 then sh.num - 1 else COUNTER_LIMIT - 1)
  }

  /** Counting a message in and out again are inverse, also where the 32-bit counter wraps around. */
  lemma CountsBack(sh: Shared)
    requires sh.num < 0x1_0000_0000
    ensures CountIn(sh).num == (sh.num + 1) % 0x1_0000_0000
    ensures CountOut(CountIn(sh)) == sh == CountIn(CountOut(sh))
  {
  }

  /** What a new message starts with: the room it has, and no link. */
  predicate NewHeader(m: Memory, header: nat, maxSize: nat) {
    header + 1 < |m| && m[header] == maxSize && m[header + 1] == 0xFFFF_FFFF_FFFF_FFFF
  }

  // ----- Calls on the allocator, as its contracts describe them -----

  ghost predicate Allocates(sh: Shared, sh': Shared, a: nat, given: Option<Block>) {
    && Holds(sh'.mem, sh'.heap) && sh'.heap == Heaps.Alloc(sh.heap, a).0 && given == Given(sh.heap, a)
    && Preserves(sh.mem, sh.heap, sh'.mem, sh'.heap, 0)
    && sh' == sh.(mem := sh'.mem, heap := sh'.heap)
  }

  ghost predicate Trims(sh: Shared, sh': Shared, b: Block, words: nat) {
    && IndexOf(sh.heap.blocks, b.off) < |sh.heap.blocks|
    && Holds(sh'.mem, sh'.heap) && sh'.heap == Heaps.Trim(sh.heap, IndexOf(sh.heap.blocks, b.off), words)
    && Preserves(sh.mem, sh.heap, sh'.mem, sh'.heap, b.off)
    && SamePayload(sh.mem, sh'.mem, Trimmed(b, words))
    && sh' == sh.(mem := sh'.mem, heap := sh'.heap)
  }

  ghost predicate Frees(sh: Shared, sh': Shared, b: Block) {
    && IndexOf(sh.heap.blocks, b.off) < |sh.heap.blocks|
    && Holds(sh'.mem, sh'.heap) && sh'.heap == Heaps.Free(sh.heap, IndexOf(sh.heap.blocks, b.off))
    && Preserves(sh.mem, sh.heap, sh'.mem, sh'.heap, b.off)
    && sh' == sh.(mem := sh'.mem, heap := sh'.heap)
  }

  // ----- Stored messages -----

  ghost predicate Fits(msg: Msg) {
    |msg.body| == Align(msg.size) && MESSAGE_HEADER + |msg.body| + BLOCK_TAGS <= msg.b.size
  }

  /** The words of `msg` are in memory. */
  ghost predicate Stored(m: Memory, h: Heap, msg: Msg) {
    && Live(h, msg.b) && Fits(msg) && msg.b.End() <= |m|
    && m[HeaderOf(msg.b)] == msg.size
    && forall k :: 0 <= k < |msg.body| ==> Peek(m, BodyOf(msg.b) + k) == msg.body[k]
  }

  /** The link of the message in block `b`. */
  function NextOf(m: Memory, b: Block): Word { Peek(m, HeaderOf(b) + NEXT) }

  lemma StoredKept(m: Memory, h: Heap, n: Memory, h': Heap, msg: Msg, off: nat)
    requires Preserves(m, h, n, h', off) && Stored(m, h, msg) && msg.b.off != off
    ensures Stored(n, h', msg) && NextOf(n, msg.b) == NextOf(m, msg.b)
  {
    assert Untouched(m, n, msg.b);
  }

  /** A client's write to a live block. */
  lemma OwnWrite(m: Memory, h: Heap, b: Block, w: nat, v: Word)
    requires Holds(m, h) && Live(h, b) && b.InPayload(w)
    ensures w < |m| && Poke(m, w, v) == m[w := v]
    ensures Holds(Poke(m, w, v), h) && Preserves(m, h, Poke(m, w, v), h, b.off)
  {
    LiveInside(h, |m|, b);
    PayloadWrite(m, h, IndexOf(h.blocks, b.off), w, v);
  }
}
