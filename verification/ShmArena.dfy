/** src/shmem/transport_shm.c, in place on an arena: its header fields and the region of its allocator. Each method is
    one atomic section of the protocol in `ShmProtocol`, or the sequence of them that one call makes when nobody
    interferes. */
module ShmArena {
  import opened Layout
  import opened Heaps
  import opened HeapLive
  import opened Region
  import opened Allocator
  import opened ShmSteps
  import opened Wrappers

  lemma GivenFits(h: Heap, end: nat, maxSize: nat)
    requires WellFormed(h, end)
    ensures var (after, r) := Heaps.Alloc(h, WordsFor(maxSize)); var given := HeapLive.Given(h, WordsFor(maxSize));
      && r == (if given.Some? then Some(given.value.off) else None)
      && (given.Some? ==> Live(after, given.value) && MESSAGE_HEADER + BLOCK_TAGS <= given.value.size)
  {
    AllocLive(h, end, WordsFor(maxSize));
  }

  lemma TrimsKeep(sh: Shared, sh': Shared, b: Block, words: nat, c: Block)
    requires Trims(sh, sh', b, words) && Live(sh.heap, c) && c.off != b.off
    ensures Live(sh'.heap, c)
  {
  }

  lemma InArenaBounds(sh: Shared, b: Block, c: Block)
    requires Holds(sh.mem, sh.heap) && Live(sh.heap, b) && b != c
    ensures OffsetOf(b) < NULL_OFFSET && (Live(sh.heap, c) ==> c.off != b.off)
  {
    LiveInside(sh.heap, |sh.mem|, b);
    if Live(sh.heap, c) { LiveApart(sh.heap, |sh.mem|, b, c); }
  }

  lemma BlockOf(sh: Shared, b: Block)
    requires Holds(sh.mem, sh.heap) && Live(sh.heap, b)
    ensures IndexOf(sh.heap.blocks, b.off) < |sh.heap.blocks|
    ensures sh.heap.blocks[IndexOf(sh.heap.blocks, b.off)] == b && !b.free
  {
    LiveInside(sh.heap, |sh.mem|, b);
  }

  lemma TrimsIs(sh: Shared, sh': Shared, b: Block, size: nat)
    requires Holds(sh.mem, sh.heap) && Live(sh.heap, b)
    requires CutDown(sh.mem, sh.heap, sh'.mem, sh'.heap, IndexOf(sh.heap.blocks, b.off), WordsFor(size))
    requires sh' == sh.(mem := sh'.mem, heap := sh'.heap)
    ensures Trims(sh, sh', b, WordsFor(size))
  {
    LiveInside(sh.heap, |sh.mem|, b);
    TrimLive(sh.heap, |sh.mem|, IndexOf(sh.heap.blocks, b.off), WordsFor(size));
  }

  class Arena {
    const alloc: Allocator
    const maxSize: Word
    var first: Word
    var last: Word
    var num: nat

    ghost predicate Valid()
      reads this, alloc, alloc.mem
    {
      alloc.Valid() && alloc.AllocSize() == WordsFor(maxSize) && num < COUNTER_LIMIT
    }

    /** What the protocol's steps are about. */
    ghost function View(): Shared
      reads this, alloc, alloc.mem
    {
      Shared(alloc.mem[..], alloc.heap, first, last, num)
    }

    /** A new write arena: an empty list and an allocator for messages of up to `maxSize` bytes. */
    constructor (mem: array<Word>, maxSize: Word)
      requires Admits(mem.Length, maxSize + MESSAGE_HEADER_SIZE) && FitsFirstBlock(mem.Length) && mem.Length < SIZE_LIMIT
      modifies mem
      ensures Valid() && fresh(alloc) && alloc.mem == mem && this.maxSize == maxSize
      ensures View() == Shared(mem[..], Fresh(mem.Length), NULL_OFFSET, NULL_OFFSET, 0)
    {
      alloc := new Allocator.Create(mem, maxSize + MESSAGE_HEADER_SIZE);
      this.maxSize := maxSize;
      first, last, num := NULL_OFFSET, NULL_OFFSET, 0;
    }

    // ----- Messages in their blocks -----

    /** The block whose payload is the message at `header`. */
    ghost predicate HasMessage(header: nat, b: Block)
      reads this, alloc, alloc.mem
    {
      Live(alloc.heap, b) && header == HeaderOf(b) && MESSAGE_HEADER + BLOCK_TAGS <= b.size
    }

    /** A client's write to a message of its own. */
    method Put(w: nat, v: Word, ghost b: Block)
      requires Valid() && Live(alloc.heap, b) && b.InPayload(w)
      modifies alloc.mem
      ensures Valid() && View() == WriteWord(old(View()), w, v)
      ensures Preserves(old(alloc.mem[..]), alloc.heap, alloc.mem[..], alloc.heap, b.off)
    {
      ghost var before := alloc.mem[..];
      OwnWrite(before, alloc.heap, b, w, v);
      LiveInside(alloc.heap, |before|, b);
      alloc.mem[w] := v;
      assert alloc.mem[..] == Poke(before, w, v);
    }

    // ----- Sending -----

    method InitMessage(header: nat, ghost b: Block)
      requires Valid() && HasMessage(header, b)
      modifies alloc.mem
      ensures Valid() && View() == InitHeader(old(View()), header, maxSize)
      ensures NewHeader(alloc.mem[..], header, maxSize)
    {
      Put(header, maxSize, b);
      Put(header + NEXT, NULL_OFFSET, b);
    }

    method AllocBlock(ghost given: Option<Block>) returns (header: Option<nat>)
      requires Valid() && given == HeapLive.Given(alloc.heap, WordsFor(maxSize))
      modifies alloc, alloc.mem
      ensures Valid() && Allocates(old(View()), View(), WordsFor(maxSize), given)
      ensures header == (if given.Some? then Some(HeaderOf(given.value)) else None)
      ensures given.Some? ==> HasMessage(HeaderOf(given.value), given.value)
    {
      GivenFits(alloc.heap, alloc.mem.Length, maxSize);
      header := alloc.Alloc();
    }

    /** Allocate a block and set up the message header in it. */
    method MessageInit() returns (header: Option<nat>, ghost taken: Shared)
      requires Valid()
      modifies alloc, alloc.mem
      ensures Valid()
      ensures var given := HeapLive.Given(old(alloc.heap), WordsFor(maxSize));
        && Allocates(old(View()), taken, WordsFor(maxSize), given)
        && header == (if given.Some? then Some(HeaderOf(given.value)) else None)
        && View() == (if given.Some? then InitHeader(taken, HeaderOf(given.value), maxSize) else taken)
      ensures header.Some? ==> NewHeader(alloc.mem[..], header.value, maxSize)
    {
      hide NewHeader, Allocates, InitHeader, Sound, WordsFor;
      ghost var given := HeapLive.Given(alloc.heap, WordsFor(maxSize));
      header := AllocBlock(given);
      taken := View();
      if header.Some? {
        InitMessage(header.value, given.value);
      }
    }

    method TrimTo(header: nat, size: Word, ghost b: Block)
      requires Valid() && HasMessage(header, b) && WordsFor(size) + MIN_BLOCK < SIZE_LIMIT
      modifies alloc, alloc.mem
      ensures Valid() && Trims(old(View()), View(), b, WordsFor(size))
    {
      ghost var before := View();
      BlockOf(before, b);
      hide BlockWords, CutDown, Trims;
      alloc.Trim(header, size + MESSAGE_HEADER_SIZE, IndexOf(before.heap.blocks, b.off));
      TrimsIs(before, View(), b, size);
    }

    /** Set the final size of a message and give back what its block does not need. */
    method Finish(header: nat, size: Word, ghost b: Block)
      requires Valid() && HasMessage(header, b) && WordsFor(size) + MIN_BLOCK < SIZE_LIMIT
      modifies alloc, alloc.mem
      ensures Valid() && Trims(WriteWord(old(View()), header, size), View(), b, WordsFor(size))
    {
      Put(header, size, b);
      TrimTo(header, size, b);
    }

    /** The end of the list is a message, if there is one. */
    ghost predicate EndsAt(end: Block)
      reads this, alloc, alloc.mem
    {
      last != NULL_OFFSET ==> last >= ARENA_HEADER && HasMessage(last - ARENA_HEADER, end)
    }

    /** Under the lock: hang the message at offset `o` behind the last one, or start the list with it. */
    method Append(o: Word, ghost end: Block)
      requires Valid() && EndsAt(end)
      modifies `first, `last, alloc.mem
      ensures Valid() && View() == ShmSteps.Append(old(View()), o)
    {
      if last != NULL_OFFSET {
        Put(last - ARENA_HEADER + NEXT, o, end);
      } else {
        first := o;
      }
      last := o;
    }

    method Count()
      requires Valid()
      modifies `num
      ensures Valid() && View() == CountIn(old(View())) && num == (old(num) + 1) % 0x1_0000_0000
    {
      num := if num + 1 < COUNTER_LIMIT then num + 1 else 0;
    }

    method AppendCounted(o: Word, ghost end: Block)
      requires Valid() && EndsAt(end)
      modifies this, alloc.mem
      ensures Valid() && View() == CountIn(ShmSteps.Append(old(View()), o))
    {
      Append(o, end);
      Count();
    }

    /** `transport_shm_message_send`, up to the wake-up: nobody else is at work on this arena. */
    method MessageSend(header: nat, size: Word, ghost b: Block, ghost end: Block) returns (ghost trimmed: Shared)
      requires Valid() && HasMessage(header, b) && WordsFor(size) + MIN_BLOCK < SIZE_LIMIT
      requires EndsAt(end) && end != b
      modifies this, alloc, alloc.mem
      ensures Valid() && Trims(WriteWord(old(View()), header, size), trimmed, b, WordsFor(size))
      ensures OffsetOf(b) < NULL_OFFSET && View() == CountIn(ShmSteps.Append(trimmed, OffsetOf(b)))
    {
      ghost var written := WriteWord(View(), header, size);
      InArenaBounds(View(), b, end);
      Finish(header, size, b);
      trimmed := View();
      if last != NULL_OFFSET { TrimsKeep(written, trimmed, b, WordsFor(size), end); }
      AppendCounted(header + ARENA_HEADER, end);
    }

    // ----- Receiving -----

    /** `transport_shm_message_receive`, when nobody else is at work on this arena. `stopped` reports the failure of an
        assertion: the head of the list is NULL or outside the arena although messages are counted. */
    method MessageReceive() returns (stopped: bool, header: Option<nat>)
      requires Valid()
      requires num > 0 && first != NULL_OFFSET && InArena(alloc.mem[..], first) ==>
        ARENA_HEADER <= first && first - ARENA_HEADER + NEXT < alloc.mem.Length
      modifies `first, `last, `num
      ensures Valid()
      ensures stopped <==> old(num) > 0 && (old(first) == NULL_OFFSET || !InArena(alloc.mem[..], old(first)))
      ensures stopped || old(num) == 0 ==> header == None && View() == old(View())
      ensures !stopped && old(num) > 0 ==>
        old(first) >= 4 && header == Some(old(first) - 4) && View() == CountOut(UnlinkHead(old(View()), old(first)))
    {
      if num == 0 {
        return false, None;
      }
      if first == NULL_OFFSET || !(0 < first < alloc.mem.Length + ARENA_HEADER) {
        return true, None;
      }
      var incoming := first - ARENA_HEADER;
      first := alloc.mem[incoming + NEXT];
      if first == NULL_OFFSET {
        last := NULL_OFFSET;
      }
      num := num - 1;
      return false, Some(incoming);
    }

    /** `transport_shm_message_release`. Returns false where `Allocator.Free` does. */
    method MessageRelease(header: nat, ghost b: Block) returns (completed: bool)
      requires Valid() && HasMessage(header, b)
      modifies alloc, alloc.mem
      ensures Valid() && Frees(old(View()), View(), b) && (completed <==> b.End() != alloc.mem.Length)
    {
      ghost var before := View();
      BlockOf(before, b);
      completed := alloc.Free(header, IndexOf(before.heap.blocks, b.off));
    }
  }
}
