/** The calls of src/shmem/transport_shm.c, as `ShmArena` makes them, are steps of the interleaving machine. */
module ShmExecution {
  import opened Layout
  import opened Heaps
  import opened HeapBounds
  import HeapRuns
  import opened HeapLive
  import opened Region
  import opened Allocator
  import opened ShmSteps
  import opened ShmProtocol
  import opened ShmArena
  import ShmInvariants
  import ShmQueue
  import opened ShmTheorems
  import opened Wrappers

  lemma RunMore(states: seq<State>, actions: seq<Action>, maxSize: nat, action: Action, s': State)
    requires Run(states, actions, maxSize) && Step(states[|states| - 1], maxSize, action, s')
    ensures Run(states + [s'], actions + [action], maxSize)
  {
    hide Step, Start;
  }

  // ----- What one call amounts to -----

  /** transport_shm_message_init is Alloc and Init. */
  lemma InitSteps(s: State, maxSize: Word, i: nat, b: Block, taken: Shared) returns (s1: State, s2: State)
    requires !s.crashed && At(s, i) && s.senders[i] == Idle
    requires Allocates(s.sh, taken, WordsFor(maxSize), Some(b))
    ensures Step(s, maxSize, Alloc(i), s1) && Step(s1, maxSize, Init(i), s2)
    ensures s2 == SetSender(s, i, Writing(b)).(sh := InitHeader(taken, HeaderOf(b), maxSize),
                                               owner := s.owner[b := Writer(i)])
  {
    s1 := SetSender(s, i, Given(b)).(sh := taken, owner := s.owner[b := Writer(i)]);
    s2 := SetSender(s1, i, Writing(b)).(sh := InitHeader(taken, HeaderOf(b), maxSize));
    assert SenderStep(s, maxSize, Alloc(i), s1);
    assert SenderStep(s1, maxSize, Init(i), s2);
  }

  /** transport_shm_message_send, up to the wake-up, is SetSize, Trim, Append and Count. */
  lemma SendSteps(s: State, maxSize: Word, i: nat, b: Block, size: Word, trimmed: Shared)
    returns (s1: State, s2: State, s3: State, s4: State)
    requires !s.crashed && At(s, i) && s.senders[i] == Writing(b) && size <= maxSize && OffsetOf(b) < WORD_LIMIT
    requires Trims(WriteWord(s.sh, HeaderOf(b), size), trimmed, b, WordsFor(size))
    requires s.sh.last == NULL_OFFSET || InArena(trimmed.mem, s.sh.last)
    ensures Step(s, maxSize, SetSize(i, size), s1) && Step(s1, maxSize, Trim(i), s2)
    ensures Step(s2, maxSize, Append(i), s3) && Step(s3, maxSize, Count(i), s4)
    ensures s4.sh == CountIn(ShmSteps.Append(trimmed, OffsetOf(b)))
    ensures s4.sent == s.sent + [Composed(s, b, size).(b := Trimmed(b, WordsFor(size)))]
    ensures s4 == SetSender(s, i, Counted).(sh := s4.sh, sent := s4.sent, owner := s4.owner)
  {
    hide Trims;
    var msg := Composed(s, b, size);
    var left := Trimmed(b, WordsFor(size));
    s1 := SetSender(s, i, Sized(msg)).(sh := WriteWord(s.sh, HeaderOf(b), size));
    s2 := SetSender(s1, i, Ready(msg.(b := left))).(sh := trimmed, owner := (s.owner - {b})[left := Writer(i)]);
    s3 := SetSender(s2, i, Appended).(sh := ShmSteps.Append(trimmed, OffsetOf(left)), sent := s.sent + [msg.(b := left)],
                                      owner := s2.owner[left := Queued(|s.sent|)]);
    s4 := SetSender(s3, i, Counted).(sh := CountIn(s3.sh));
    assert SenderStep(s, maxSize, SetSize(i, size), s1);
    assert SenderStep(s1, maxSize, Trim(i), s2);
    TrimsLast(WriteWord(s.sh, HeaderOf(b), size), trimmed, b, WordsFor(size));
    assert SenderStep(s2, maxSize, Append(i), s3);
    assert SenderStep(s3, maxSize, Count(i), s4);
  }

  lemma TrimsLast(sh: Shared, sh': Shared, b: Block, words: nat)
    requires Trims(sh, sh', b, words)
    ensures sh' == sh.(mem := sh'.mem, heap := sh'.heap)
  {
  }

  /** transport_shm_message_receive is Load, ReadHead, Unlink and Uncount. */
  lemma ReceiveSteps(s: State, maxSize: Word) returns (s1: State, s2: State, s3: State, s4: State)
    requires !s.crashed && s.receiver.Outside? && s.sh.num > 0 && s.taken < |s.sent|
    requires s.sh.first != NULL_OFFSET && InArena(s.sh.mem, s.sh.first)
    ensures Step(s, maxSize, Load, s1) && Step(s1, maxSize, ReadHead, s2)
    ensures Step(s2, maxSize, Unlink, s3) && Step(s3, maxSize, Uncount, s4)
    ensures s4.sh == CountOut(UnlinkHead(s.sh, s.sh.first)) && s4.held == s.held + {s.sh.first as nat}
    ensures s4.taken == s.taken + 1 && s4.sent == s.sent && !s4.crashed
  {
    var o := s.sh.first;
    s1 := s.(receiver := Loaded);
    s2 := s.(receiver := HeadRead(o));
    s3 := s.(sh := UnlinkHead(s.sh, o), receiver := Unlinked(o), taken := s.taken + 1,
             inHand := s.inHand[o as nat := s.taken], owner := s.owner[s.sent[s.taken].b := Reading(s.taken)]);
    s4 := s3.(sh := CountOut(s3.sh), receiver := Outside, held := s.held + {o as nat});
    assert ReceiverStep(s, Load, s1);
    assert ReceiverStep(s1, ReadHead, s2);
    assert ReceiverStep(s2, Unlink, s3);
    assert ReceiverStep(s3, Uncount, s4);
  }

  /** transport_shm_message_release is Release. */
  lemma ReleaseSteps(s: State, maxSize: Word, b: Block, after: Shared) returns (s': State)
    requires !s.crashed && OffsetOf(b) in s.held && Live(s.sh.heap, b) && Frees(s.sh, after, b)
    ensures Step(s, maxSize, Release(b), s') && s'.sh == after && s'.held == s.held - {OffsetOf(b)}
    ensures s'.crashed <==> b.End() == |s.sh.mem|
    ensures s'.sent == s.sent && s'.taken == s.taken && s'.senders == s.senders
  {
    s' := s.(sh := after, held := s.held - {OffsetOf(b)}, inHand := s.inHand - {OffsetOf(b)}, owner := s.owner - {b},
             crashed := b.End() == |s.sh.mem|);
    assert ReceiverStep(s, Release(b), s');
  }

  // ----- A run that delivers a message -----

  lemma FirstBlock(end: nat, maxSize: nat)
    requires end >= REGION_HEADER + WordsFor(maxSize)
    ensures WellFormed(Fresh(end), end)
    ensures HeapLive.Given(Fresh(end), WordsFor(maxSize)).Some?
  {
    HeapRuns.FreshWellFormed(end);
    AllocFailsIff(Fresh(end), end, WordsFor(maxSize));
    AllocLive(Fresh(end), end, WordsFor(maxSize));
    assert Fresh(end).blocks[0] in Fresh(end).blocks;
  }

  /** Before anything has happened. */
  function Before(sh: Shared): State {
    State(sh, [Idle], Outside, {}, Unarmed, false, [], 0, map[], map[])
  }

  lemma BeforeRuns(sh: Shared, maxSize: Word)
    requires Holds(sh.mem, sh.heap) && Countable(sh.mem)
    requires sh == Shared(sh.mem, Fresh(|sh.mem|), NULL_OFFSET, NULL_OFFSET, 0)
    ensures Run([Before(sh)], [], maxSize)
  {
    assert Start(Before(sh));
  }

  /** A run that has brought sender 0 of one to a writer on block `b`, with nothing sent yet. */
  ghost predicate Opened(states: seq<State>, actions: seq<Action>, maxSize: Word, sh: Shared, b: Block) {
    && Run(states, actions, maxSize)
    && var s := states[|states| - 1];
       && s.sh == sh && s.senders == [Writing(b)] && s.receiver == Outside && s.held == {} && s.taken == 0
       && s.sent == [] && !s.crashed && sh.first == sh.last == NULL_OFFSET && sh.num == 0
  }

  lemma Opens(sh: Shared, maxSize: Word, b: Block, taken: Shared) returns (states: seq<State>, actions: seq<Action>)
    requires Run([Before(sh)], [], maxSize) && Allocates(sh, taken, WordsFor(maxSize), Some(b))
    ensures Opened(states, actions, maxSize, InitHeader(taken, HeaderOf(b), maxSize), b)
  {
    var s := Before(sh);
    var s1, s2 := InitSteps(s, maxSize, 0, b, taken);
    RunMore([s], [], maxSize, Alloc(0), s1);
    RunMore([s] + [s1], [] + [Alloc(0)], maxSize, Init(0), s2);
    states, actions := [s] + [s1] + [s2], [] + [Alloc(0)] + [Init(0)];
    assert Start(s);
  }

  /** What an open writer's block allows. */
  lemma OpenFacts(states: seq<State>, actions: seq<Action>, maxSize: Word, sh: Shared, b: Block)
    requires Opened(states, actions, maxSize, sh, b)
    ensures Live(sh.heap, b) && WordsFor(maxSize) <= b.size && b.End() <= |sh.mem| && OffsetOf(b) < WORD_LIMIT
  {
    var s := states[|states| - 1];
    RunKeeps(states, actions, maxSize, |states| - 1);
    assert s.senders[0].Holds(b);
    ShmInvariants.WriterFacts(s, maxSize, 0, b);
  }

  lemma OpenWrites(states: seq<State>, actions: seq<Action>, maxSize: Word, sh: Shared, b: Block, w: nat, v: Word)
    returns (states': seq<State>, actions': seq<Action>)
    requires Opened(states, actions, maxSize, sh, b) && InBody(b, maxSize, w)
    ensures Opened(states', actions', maxSize, WriteWord(sh, w, v), b)
  {
    var s := states[|states| - 1];
    var s' := s.(sh := WriteWord(sh, w, v));
    assert SenderStep(s, maxSize, Write(0, w, v), s');
    RunMore(states, actions, maxSize, Write(0, w, v), s');
    states', actions' := states + [s'], actions + [Write(0, w, v)];
  }

  /** The same run has sent `msg`, and delivered it if `taken` is 1. */
  ghost predicate Delivering(states: seq<State>, actions: seq<Action>, maxSize: Word, sh: Shared, msg: Msg, taken: nat) {
    && Run(states, actions, maxSize)
    && var s := states[|states| - 1];
       && s.sh == sh && s.sent == [msg] && s.taken == taken && s.receiver == Outside && !s.crashed
       && s.held == if taken == 1 then {OffsetOf(msg.b)} else {}
  }

  lemma OpenSends(states: seq<State>, actions: seq<Action>, maxSize: Word, sh: Shared, b: Block, size: Word,
                  trimmed: Shared)
    returns (states': seq<State>, actions': seq<Action>)
    requires Opened(states, actions, maxSize, sh, b) && size <= maxSize && OffsetOf(b) < WORD_LIMIT
    requires Trims(WriteWord(sh, HeaderOf(b), size), trimmed, b, WordsFor(size))
    ensures Delivering(states', actions', maxSize, CountIn(ShmSteps.Append(trimmed, OffsetOf(b))),
                       Msg(Trimmed(b, WordsFor(size)), size, Slice(sh.mem, BodyOf(b), Align(size))), 0)
  {
    hide Start, Step, Trims;
    var s := states[|states| - 1];
    var s1, s2, s3, s4 := SendSteps(s, maxSize, 0, b, size, trimmed);
    RunMore(states, actions, maxSize, SetSize(0, size), s1);
    RunMore(states + [s1], actions + [SetSize(0, size)], maxSize, Trim(0), s2);
    RunMore(states + [s1] + [s2], actions + [SetSize(0, size)] + [Trim(0)], maxSize, Append(0), s3);
    states' := states + [s1] + [s2] + [s3] + [s4];
    actions' := actions + [SetSize(0, size)] + [Trim(0)] + [Append(0)] + [Count(0)];
    RunMore(states + [s1] + [s2] + [s3], actions + [SetSize(0, size)] + [Trim(0)] + [Append(0)], maxSize, Count(0), s4);
  }

  /** The message on its way is the head of the list, inside the arena. */
  lemma HeadOnItsWay(states: seq<State>, actions: seq<Action>, maxSize: Word, sh: Shared, msg: Msg)
    requires Delivering(states, actions, maxSize, sh, msg, 0)
    ensures sh.first == OffsetOf(msg.b) != NULL_OFFSET && InArena(sh.mem, sh.first)
    ensures ARENA_HEADER <= sh.first && sh.first - ARENA_HEADER + NEXT < |sh.mem|
    ensures Stored(sh.mem, sh.heap, msg)
  {
    RunKeeps(states, actions, maxSize, |states| - 1);
    ShmQueue.QueuedFacts(states[|states| - 1], maxSize, 0);
  }

  lemma Delivers(states: seq<State>, actions: seq<Action>, maxSize: Word, sh: Shared, msg: Msg)
    returns (states': seq<State>, actions': seq<Action>)
    requires Delivering(states, actions, maxSize, sh, msg, 0) && sh.num > 0
    ensures OffsetOf(msg.b) < WORD_LIMIT
    ensures Delivering(states', actions', maxSize, CountOut(UnlinkHead(sh, OffsetOf(msg.b))), msg, 1)
  {
    HeadOnItsWay(states, actions, maxSize, sh, msg);
    hide Start, Step;
    var s := states[|states| - 1];
    var s1, s2, s3, s4 := ReceiveSteps(s, maxSize);
    RunMore(states, actions, maxSize, Load, s1);
    RunMore(states + [s1], actions + [Load], maxSize, ReadHead, s2);
    RunMore(states + [s1] + [s2], actions + [Load] + [ReadHead], maxSize, Unlink, s3);
    RunMore(states + [s1] + [s2] + [s3], actions + [Load] + [ReadHead] + [Unlink], maxSize, Uncount, s4);
    states' := states + [s1] + [s2] + [s3] + [s4];
    actions' := actions + [Load] + [ReadHead] + [Unlink] + [Uncount];
  }

  /** The message in the receiver's hands is in memory. */
  lemma StoredInHands(states: seq<State>, actions: seq<Action>, maxSize: Word, sh: Shared, msg: Msg)
    requires Delivering(states, actions, maxSize, sh, msg, 1)
    ensures Stored(sh.mem, sh.heap, msg)
  {
    hide Stored;
    RunKeeps(states, actions, maxSize, |states| - 1);
    var s, o := states[|states| - 1], OffsetOf(msg.b);
    assert o in s.inHand;
    assert InHand(s.owner, s.sent, s.taken, o, s.inHand[o]);
    assert Stored(sh.mem, sh.heap, s.sent[s.inHand[o]]);
  }

  /** The same run has released the message again; it has stopped if that was the region's last block. */
  ghost predicate Released(states: seq<State>, actions: seq<Action>, maxSize: Word, sh: Shared, msg: Msg) {
    && Run(states, actions, maxSize)
    && var s := states[|states| - 1];
       && s.sh == sh && s.sent == [msg] && s.taken == 1 && s.held == {}
       && (s.crashed <==> msg.b.End() == |sh.mem|)
  }

  lemma Releases(states: seq<State>, actions: seq<Action>, maxSize: Word, sh: Shared, msg: Msg, after: Shared)
    returns (states': seq<State>, actions': seq<Action>)
    requires Delivering(states, actions, maxSize, sh, msg, 1) && Live(sh.heap, msg.b) && Frees(sh, after, msg.b)
    requires |after.mem| == |sh.mem|
    ensures Released(states', actions', maxSize, after, msg)
  {
    hide Start, Step, Frees;
    var s := states[|states| - 1];
    var s' := ReleaseSteps(s, maxSize, msg.b, after);
    RunMore(states, actions, maxSize, Release(msg.b), s');
    states', actions' := states + [s'], actions + [Release(msg.b)];
  }

  /** A new arena with room for one message, and a writer for it. */
  method OpenOne(mem: array<Word>, maxSize: Word)
    returns (arena: Arena, header: nat, ghost b: Block, ghost states: seq<State>, ghost actions: seq<Action>)
    requires Admits(mem.Length, maxSize + MESSAGE_HEADER_SIZE) && FitsFirstBlock(mem.Length) && mem.Length < SIZE_LIMIT
    requires REGION_HEADER + WordsFor(maxSize) <= mem.Length && Countable(mem[..])
    modifies mem
    ensures fresh(arena) && fresh(arena.alloc) && arena.Valid() && arena.alloc.mem == mem && arena.maxSize == maxSize
    ensures header == HeaderOf(b) && Opened(states, actions, maxSize, arena.View(), b)
  {
    arena := new Arena(mem, maxSize);
    ghost var sh := arena.View();
    BeforeRuns(sh, maxSize);
    FirstBlock(mem.Length, maxSize);
    var got;
    ghost var taken;
    got, taken := arena.MessageInit();
    header := got.value;
    b := HeapLive.Given(sh.heap, WordsFor(maxSize)).value;
    states, actions := Opens(sh, maxSize, b, taken);
  }

  /** Write one word and send it. */
  method SendOne(arena: Arena, header: nat, v: Word, ghost b: Block, ghost states: seq<State>,
                 ghost actions: seq<Action>)
    returns (ghost states': seq<State>, ghost actions': seq<Action>, ghost msg: Msg)
    requires arena.Valid() && header == HeaderOf(b) && Opened(states, actions, arena.maxSize, arena.View(), b)
    requires 8 <= arena.maxSize
    modifies arena, arena.alloc, arena.alloc.mem
    ensures arena.Valid() && Delivering(states', actions', arena.maxSize, arena.View(), msg, 0) && arena.View().num == 1
    ensures msg.size == 8 && msg.body == [v] && msg.b.off == b.off
  {
    hide Run, Stored;
    OpenFacts(states, actions, arena.maxSize, arena.View(), b);
    states', actions' := OpenWrites(states, actions, arena.maxSize, arena.View(), b, BodyOf(b), v);
    arena.Put(header + MESSAGE_HEADER, v, b);
    OpenFacts(states', actions', arena.maxSize, arena.View(), b);
    ghost var before := arena.View();
    ghost var trimmed := arena.MessageSend(header, 8, b, Block(0, 0, false));
    states', actions' := OpenSends(states', actions', arena.maxSize, before, b, 8, trimmed);
    msg := Msg(Trimmed(b, WordsFor(8)), 8, Slice(before.mem, BodyOf(b), Align(8)));
  }

  /** Receive what is on its way. */
  method ReceiveOne(arena: Arena, ghost msg: Msg, ghost states: seq<State>, ghost actions: seq<Action>)
    returns (header: Option<nat>, ghost states': seq<State>, ghost actions': seq<Action>)
    requires arena.Valid() && Delivering(states, actions, arena.maxSize, arena.View(), msg, 0) && arena.num > 0
    modifies arena
    ensures arena.Valid() && header == Some(HeaderOf(msg.b))
    ensures Delivering(states', actions', arena.maxSize, arena.View(), msg, 1)
  {
    hide Run, Stored;
    ghost var sent := arena.View();
    HeadOnItsWay(states, actions, arena.maxSize, sent, msg);
    var stopped;
    stopped, header := arena.MessageReceive();
    states', actions' := Delivers(states, actions, arena.maxSize, sent, msg);
  }

  /** So its first word can be read, and its block released. */
  lemma WordInHands(states: seq<State>, actions: seq<Action>, maxSize: Word, sh: Shared, msg: Msg)
    requires Delivering(states, actions, maxSize, sh, msg, 1) && |msg.body| == 1
    ensures BodyOf(msg.b) < |sh.mem| && [sh.mem[BodyOf(msg.b)]] == msg.body
    ensures Live(sh.heap, msg.b) && MESSAGE_HEADER + BLOCK_TAGS <= msg.b.size
  {
    hide Run;
    StoredInHands(states, actions, maxSize, sh, msg);
    assert Peek(sh.mem, BodyOf(msg.b) + 0) == msg.body[0];
  }

  /** Read the word and release the message. */
  method ReleaseOne(arena: Arena, header: nat, ghost msg: Msg, ghost states: seq<State>, ghost actions: seq<Action>)
    returns (got: Word, completed: bool, ghost states': seq<State>, ghost actions': seq<Action>)
    requires arena.Valid() && Delivering(states, actions, arena.maxSize, arena.View(), msg, 1)
    requires header == HeaderOf(msg.b) && |msg.body| == 1
    modifies arena.alloc, arena.alloc.mem
    ensures arena.Valid() && [got] == msg.body && (completed <==> msg.b.End() != arena.alloc.mem.Length)
    ensures Released(states', actions', arena.maxSize, arena.View(), msg)
  {
    hide Run, Delivering, Frees, Released, Stored;
    ghost var before := arena.View();
    WordInHands(states, actions, arena.maxSize, before, msg);
    got := arena.alloc.mem[header + MESSAGE_HEADER];
    completed := arena.MessageRelease(header, msg.b);
    states', actions' := Releases(states, actions, arena.maxSize, before, msg, arena.View());
  }

  /** In an arena with room for one message: create it, write a word, send it, receive it, read it and release it. The
      word read is the word written, and the calls are a run of the machine. */
  method DeliverOne(mem: array<Word>, maxSize: Word, v: Word)
    returns (arena: Arena, got: Word, completed: bool, ghost states: seq<State>, ghost actions: seq<Action>,
             ghost msg: Msg)
    requires Admits(mem.Length, maxSize + MESSAGE_HEADER_SIZE) && FitsFirstBlock(mem.Length) && mem.Length < SIZE_LIMIT
    requires 8 <= maxSize && REGION_HEADER + WordsFor(maxSize) <= mem.Length && Countable(mem[..])
    modifies mem
    ensures arena.Valid() && arena.alloc.mem == mem && got == v && (completed <==> msg.b.End() != mem.Length)
    ensures Released(states, actions, maxSize, arena.View(), msg) && msg.size == 8 && msg.body == [v]
  {
    hide Delivering, Opened, Released;
    var writer, header;
    ghost var b;
    arena, writer, b, states, actions := OpenOne(mem, maxSize);
    states, actions, msg := SendOne(arena, writer, v, b, states, actions);
    header, states, actions := ReceiveOne(arena, msg, states, actions);
    got, completed, states, actions := ReleaseOne(arena, header.value, msg, states, actions);
  }
}
