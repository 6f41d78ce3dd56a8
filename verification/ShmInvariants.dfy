/** Every step of the message arena keeps its invariant. */
module ShmInvariants {
  import opened Layout
  import opened Heaps
  import opened HeapLive
  import opened HeapBounds
  import opened Region
  import opened ShmSteps
  import opened ShmProtocol

  // ----- Counting senders -----

  lemma {:induction false} UncountedSet(senders: seq<Sender>, i: nat, pc: Sender)
    requires i < |senders|
    ensures Uncounted(senders[i := pc]) ==
      Uncounted(senders) - (if senders[i].Appended? then 1 else 0) + (if pc.Appended? then 1 else 0)
  {
    if i == 0 {
      assert senders[i := pc][1..] == senders[1..];
    } else {
      assert senders[i := pc][1..] == senders[1..][i - 1 := pc];
      UncountedSet(senders[1..], i - 1, pc);
    }
  }

  // ----- The counter cannot wrap -----

  lemma {:induction false} QueuedBlocks(owner: map<Block, Owner>, sent: seq<Msg>, taken: nat, n: nat)
    returns (bs: set<Block>)
    requires OwnsQueued(owner, sent, taken) && taken <= n <= |sent|
    ensures |bs| == n - taken
    ensures forall b :: b in bs ==> b in owner && owner[b].Queued? && owner[b].n < n
    decreases n - taken
  {
    if n == taken {
      bs := {};
    } else {
      var rest := QueuedBlocks(owner, sent, taken, n - 1);
      assert owner[sent[n - 1].b] == Queued(n - 1);
      bs := rest + {sent[n - 1].b};
    }
  }

  lemma {:induction false} FewBlocks(bs: seq<Block>, some: set<Block>)
    requires forall b :: b in some ==> b in bs
    ensures |some| <= |bs|
  {
    if bs == [] {
      assert some == {};
    } else {
      FewBlocks(bs[1..], some - {bs[0]});
    }
  }

  lemma {:induction false} ManyWords(bs: seq<Block>)
    requires forall i :: 0 <= i < |bs| ==> bs[i].size >= LEAST_BLOCK
    ensures LEAST_BLOCK * |bs| <= Words(bs)
  {
    if bs != [] { ManyWords(bs[1..]); }
  }

  lemma FewLive(m: Memory, h: Heap, blocks: set<Block>)
    requires Holds(m, h) && forall b :: b in blocks ==> Live(h, b)
    ensures LEAST_BLOCK * |blocks| <= |m|
  {
    FewBlocks(h.blocks, blocks);
    ManyWords(h.blocks);
    TiledWords(h.blocks, REGION_HEADER, |m|);
  }

  /** There are fewer messages than 2^32, on the list and just off it. */
  lemma FewMessages(s: State, maxSize: nat)
    requires Owned(s) && InMemory(s, maxSize)
    ensures |s.sent| - s.taken + (if s.receiver.Unlinked? then 1 else 0) < COUNTER_LIMIT
  {
    var blocks := QueuedBlocks(s.owner, s.sent, s.taken, |s.sent|);
    if s.receiver.Unlinked? {
      var o := s.receiver.o as nat;
      assert o in s.inHand && InHand(s.owner, s.sent, s.taken, o, s.inHand[o]);
      blocks := blocks + {s.sent[s.inHand[o]].b};
    }
    FewLive(s.sh.mem, s.sh.heap, blocks);
  }

  // ----- One sender moves on -----

  lemma WritersSame(owner: map<Block, Owner>, senders: seq<Sender>, i: nat, pc: Sender)
    requires OwnsWriters(owner, senders) && i < |senders|
    requires forall b :: pc.Holds(b) <==> senders[i].Holds(b)
    ensures OwnsWriters(owner, senders[i := pc])
  {
  }

  lemma SendersMemorySet(m: Memory, h: Heap, maxSize: nat, senders: seq<Sender>, i: nat, pc: Sender)
    requires SendersMemory(m, h, maxSize, senders) && i < |senders| && SenderMemory(m, h, maxSize, pc)
    ensures SendersMemory(m, h, maxSize, senders[i := pc])
  {
  }

  lemma AwakeSet(wait: Wait, num: nat, senders: seq<Sender>, i: nat, pc: Sender)
    requires Awake(wait, num, senders) && i < |senders| && senders[i] != Counted
    ensures Awake(wait, num, senders[i := pc])
  {
    if j :| 0 <= j < |senders| && senders[j] == Counted {
      assert senders[i := pc][j] == Counted;
    }
  }

  // ----- Steps that leave memory and ownership alone -----

  lemma CountKeeps(s: State, maxSize: nat, i: nat, s': State)
    requires Inv(s, maxSize) && SenderStep(s, maxSize, Count(i), s')
    ensures Inv(s', maxSize)
  {
    hide OwnsLive, OwnsQueued, OwnsRead, Hands, Holds, QueueMemory, ReadMemory, Ends;
    FewMessages(s, maxSize);
    UncountedSet(s.senders, i, Counted);
    WritersSame(s.owner, s.senders, i, Counted);
    SendersMemorySet(s.sh.mem, s.sh.heap, maxSize, s.senders, i, Counted);
    assert s'.senders[i] == Counted;
  }

  lemma WakeKeeps(s: State, maxSize: nat, i: nat, s': State)
    requires Inv(s, maxSize) && SenderStep(s, maxSize, Wake(i), s')
    ensures Inv(s', maxSize)
  {
    hide OwnsLive, OwnsQueued, OwnsRead, Hands, Holds, QueueMemory, ReadMemory, Ends;
    UncountedSet(s.senders, i, Idle);
    WritersSame(s.owner, s.senders, i, Idle);
    SendersMemorySet(s.sh.mem, s.sh.heap, maxSize, s.senders, i, Idle);
  }

  lemma LoadKeeps(s: State, maxSize: nat, s': State)
    requires Inv(s, maxSize) && ReceiverStep(s, Load, s')
    ensures Inv(s', maxSize)
  {
    hide OwnsLive, OwnsWriters, OwnsQueued, OwnsRead, Holds, SendersMemory, QueueMemory, ReadMemory, Ends, Awake;
  }

  lemma ReadHeadKeeps(s: State, maxSize: nat, s': State)
    requires Inv(s, maxSize) && ReceiverStep(s, ReadHead, s')
    ensures Inv(s', maxSize)
  {
    assert s.taken < |s.sent|;
    var b := s.sent[s.taken].b;
    LiveInside(s.sh.heap, |s.sh.mem|, b);
  }

  lemma UncountKeeps(s: State, maxSize: nat, s': State)
    requires Inv(s, maxSize) && ReceiverStep(s, Uncount, s')
    ensures Inv(s', maxSize)
  {
    hide OwnsLive, OwnsWriters, OwnsQueued, OwnsRead, Holds, SendersMemory, QueueMemory, ReadMemory, Ends;
  }

  lemma WaitKeeps(s: State, maxSize: nat, action: Action, s': State)
    requires Inv(s, maxSize) && ReceiverStep(s, action, s') && (action.Arm? || action.Interrupt? || action.Handle?)
    ensures Inv(s', maxSize)
  {
    hide OwnsLive, OwnsWriters, OwnsQueued, OwnsRead, Hands, Holds, SendersMemory, QueueMemory, ReadMemory, Ends;
  }

  // ----- What a change of one block leaves alone -----

  lemma SenderKept(m: Memory, h: Heap, n: Memory, h': Heap, maxSize: nat, pc: Sender, off: nat)
    requires Preserves(m, h, n, h', off) && SenderMemory(m, h, maxSize, pc)
    requires forall b :: pc.Holds(b) ==> Live(h, b) && b.off != off && LEAST_BLOCK <= b.size
    ensures SenderMemory(n, h', maxSize, pc)
  {
    match pc
    case Writing(b) => assert pc.Holds(b) && Untouched(m, n, b);
    case Sized(msg) => assert pc.Holds(msg.b); StoredKept(m, h, n, h', msg, off);
    case Ready(msg) => assert pc.Holds(msg.b); StoredKept(m, h, n, h', msg, off);
    case _ =>
  }

  lemma QueueMemoryKept(m: Memory, h: Heap, n: Memory, h': Heap, sent: seq<Msg>, taken: nat, off: nat)
    requires Preserves(m, h, n, h', off) && QueueMemory(m, h, sent, taken)
    requires forall k :: taken <= k < |sent| ==> sent[k].b.off != off
    ensures QueueMemory(n, h', sent, taken)
  {
    forall k | taken <= k < |sent| ensures Stored(n, h', sent[k]) { StoredKept(m, h, n, h', sent[k], off); }
    forall k | taken < k <= |sent| ensures NextOf(n, sent[k - 1].b) == OffsetAt(sent, k) {
      StoredKept(m, h, n, h', sent[k - 1], off);
      assert NextOf(m, sent[k - 1].b) == OffsetAt(sent, k);
    }
  }

  lemma ReadMemoryKept(m: Memory, h: Heap, n: Memory, h': Heap, sent: seq<Msg>, inHand: map<nat, nat>, off: nat)
    requires Preserves(m, h, n, h', off) && ReadMemory(m, h, sent, inHand)
    requires forall o :: o in inHand && inHand[o] < |sent| ==> sent[inHand[o]].b.off != off
    ensures ReadMemory(n, h', sent, inHand)
  {
    forall o | o in inHand && inHand[o] < |sent| ensures Stored(n, h', sent[inHand[o]]) {
      StoredKept(m, h, n, h', sent[inHand[o]], off);
    }
  }

  predicate SameRole(owner: map<Block, Owner>, owner': map<Block, Owner>, b: Block) {
    && (b in owner' && (owner'[b].Queued? || owner'[b].Reading?) ==> b in owner && owner[b] == owner'[b])
    && (b in owner && (owner[b].Queued? || owner[b].Reading?) ==> b in owner' && owner'[b] == owner[b])
  }

  lemma OwnsKept(owner: map<Block, Owner>, owner': map<Block, Owner>, sent: seq<Msg>, taken: nat, inHand: map<nat, nat>)
    requires OwnsQueued(owner, sent, taken) && OwnsRead(owner, sent, taken, inHand)
    requires forall b :: SameRole(owner, owner', b)
    ensures OwnsQueued(owner', sent, taken) && OwnsRead(owner', sent, taken, inHand)
  {
    forall n | taken <= n < |sent| ensures sent[n].b in owner' && owner'[sent[n].b] == Queued(n) {
      assert SameRole(owner, owner', sent[n].b);
    }
    forall o | o in inHand ensures InHand(owner', sent, taken, o, inHand[o]) {
      assert InHand(owner, sent, taken, o, inHand[o]);
      assert SameRole(owner, owner', sent[inHand[o]].b);
    }
    forall b | b in owner' && (owner'[b].Queued? || owner'[b].Reading?) ensures b in owner && owner[b] == owner'[b] {
      assert SameRole(owner, owner', b);
    }
  }

  lemma WriterOwns(owner: map<Block, Owner>, senders: seq<Sender>, i: nat, b: Block)
    requires OwnsWriters(owner, senders) && i < |senders| && senders[i].Holds(b)
    ensures b in owner && owner[b] == Writer(i)
  {
  }

  lemma WriterStays(owner: map<Block, Owner>, i: nat, b: Block)
    requires b in owner && owner[b] == Writer(i)
    ensures owner == (owner - {b})[b := Writer(i)]
  {
  }

  ghost predicate HoldsJust(pc: Sender, b: Block) {
    forall c :: pc.Holds(c) <==> c == b
  }

  /** Among the live blocks, `b'` has replaced `b`. */
  ghost predicate Replaced(h: Heap, h': Heap, b: Block, b': Block) {
    forall c :: Live(h', c) <==> (Live(h, c) && c != b) || c == b'
  }

  lemma MovesWriter(owner: map<Block, Owner>, senders: seq<Sender>, i: nat, b: Block, b': Block, pc: Sender)
    requires OwnsWriters(owner, senders) && i < |senders| && senders[i].Holds(b) && (b' in owner ==> b' == b)
    requires HoldsJust(pc, b')
    ensures OwnsWriters((owner - {b})[b' := Writer(i)], senders[i := pc])
  {
    var owner', senders' := (owner - {b})[b' := Writer(i)], senders[i := pc];
    forall j, c | 0 <= j < |senders| && senders'[j].Holds(c) ensures c in owner' && owner'[c] == Writer(j) {
      if j != i {
        WriterOwns(owner, senders, j, c);
        WriterOwns(owner, senders, i, b);
      }
    }
  }

  lemma MovesOthers(owner: map<Block, Owner>, owner': map<Block, Owner>, i: nat, b: Block, b': Block)
    requires b in owner && owner[b] == Writer(i) && (b' in owner ==> b' == b)
    requires owner' == (owner - {b})[b' := Writer(i)]
    ensures forall c :: SameRole(owner, owner', c)
  {
  }

  /** Sender `i` goes from block `b` to block `b'` at the same place. */
  lemma WriterMoves(s: State, i: nat, b: Block, b': Block, h': Heap, pc: Sender)
    requires Owned(s) && WellFormed(s.sh.heap, |s.sh.mem|) && At(s, i) && s.senders[i].Holds(b) && b'.off == b.off
    requires Replaced(s.sh.heap, h', b, b') && HoldsJust(pc, b')
    ensures var owner' := (s.owner - {b})[b' := Writer(i)];
      && OwnsLive(owner', h') && OwnsWriters(owner', s.senders[i := pc])
      && OwnsQueued(owner', s.sent, s.taken) && OwnsRead(owner', s.sent, s.taken, s.inHand)
  {
    hide OwnsQueued, OwnsRead, OwnsWriters, HoldsJust, SameRole, WellFormed, Hands;
    WriterOwns(s.owner, s.senders, i, b);
    assert b' in s.owner ==> b' == b by {
      if b' in s.owner && b' != b { LiveApart(s.sh.heap, |s.sh.mem|, b, b'); }
    }
    MovesWriter(s.owner, s.senders, i, b, b', pc);
    var owner' := (s.owner - {b})[b' := Writer(i)];
    MovesOthers(s.owner, owner', i, b, b');
    OwnsKept(s.owner, owner', s.sent, s.taken, s.inHand);
  }

  /** A step of sender `i` that changes memory or heap at its own block only. */
  lemma WriterStep(s: State, maxSize: nat, i: nat, b: Block, b': Block, pc: Sender, s': State)
    requires Inv(s, maxSize) && At(s, i) && s.senders[i].Holds(b) && b'.off == b.off
    requires s' == SetSender(s, i, pc).(sh := s.sh.(mem := s'.sh.mem, heap := s'.sh.heap),
                                        owner := (s.owner - {b})[b' := Writer(i)])
    requires Holds(s'.sh.mem, s'.sh.heap) && Preserves(s.sh.mem, s.sh.heap, s'.sh.mem, s'.sh.heap, b.off)
    requires Replaced(s.sh.heap, s'.sh.heap, b, b') && HoldsJust(pc, b')
    requires SenderMemory(s'.sh.mem, s'.sh.heap, maxSize, pc)
    ensures Inv(s', maxSize)
  {
    WriterMoves(s, i, b, b', s'.sh.heap, pc);
    WriterMemory(s, maxSize, i, b, s'.sh.mem, s'.sh.heap, pc);
    assert pc.Holds(b');
    UncountedSet(s.senders, i, pc);
    AwakeSet(s.wait, s.sh.num, s.senders, i, pc);
  }

  /** The same, with the heap as it was. */
  lemma WriterWrites(s: State, maxSize: nat, i: nat, b: Block, pc: Sender, s': State)
    requires Inv(s, maxSize) && At(s, i) && s.senders[i].Holds(b)
    requires s' == SetSender(s, i, pc).(sh := s.sh.(mem := s'.sh.mem))
    requires Holds(s'.sh.mem, s.sh.heap) && Preserves(s.sh.mem, s.sh.heap, s'.sh.mem, s.sh.heap, b.off)
    requires HoldsJust(pc, b)
    requires SenderMemory(s'.sh.mem, s.sh.heap, maxSize, pc)
    ensures Inv(s', maxSize)
  {
    hide SenderMemory, Preserves, Holds;
    WriterOwns(s.owner, s.senders, i, b);
    WriterStays(s.owner, i, b);
    WriterStep(s, maxSize, i, b, b, pc, s');
  }

  /** What the invariant says about a sender's block. */
  lemma WriterFacts(s: State, maxSize: nat, i: nat, b: Block)
    requires Inv(s, maxSize) && At(s, i) && s.senders[i].Holds(b)
    ensures Holds(s.sh.mem, s.sh.heap) && Live(s.sh.heap, b) && SenderMemory(s.sh.mem, s.sh.heap, maxSize, s.senders[i])
    ensures IndexOf(s.sh.heap.blocks, b.off) < |s.sh.heap.blocks|
    ensures s.sh.heap.blocks[IndexOf(s.sh.heap.blocks, b.off)] == b
    ensures b.End() <= |s.sh.mem|
  {
    assert b in s.owner;
    LiveInside(s.sh.heap, |s.sh.mem|, b);
  }

  lemma OthersElsewhere(s: State, maxSize: nat, i: nat, b: Block)
    requires Owned(s) && InMemory(s, maxSize) && At(s, i) && s.senders[i].Holds(b)
    ensures forall k :: s.taken <= k < |s.sent| ==> s.sent[k].b.off != b.off
    ensures forall o :: o in s.inHand && s.inHand[o] < |s.sent| ==> s.sent[s.inHand[o]].b.off != b.off
    ensures forall j, c :: 0 <= j < |s.senders| && j != i && s.senders[j].Holds(c) ==>
      Live(s.sh.heap, c) && c.off != b.off && LEAST_BLOCK <= c.size
  {
    hide QueueMemory, ReadMemory, SendersMemory, Stored, Linked, Tagged;
    WriterOwns(s.owner, s.senders, i, b);
    forall c | c in s.owner && s.owner[c] != Writer(i) ensures c.off != b.off && LEAST_BLOCK <= c.size {
      LiveApart(s.sh.heap, |s.sh.mem|, b, c);
      LiveInside(s.sh.heap, |s.sh.mem|, c);
    }
    forall j, c | 0 <= j < |s.senders| && j != i && s.senders[j].Holds(c)
      ensures c in s.owner && s.owner[c] == Writer(j)
    {
      WriterOwns(s.owner, s.senders, j, c);
    }
    forall o | o in s.inHand ensures InHand(s.owner, s.sent, s.taken, o, s.inHand[o]) {}
  }

  lemma WriterMemory(s: State, maxSize: nat, i: nat, b: Block, n: Memory, h': Heap, pc: Sender)
    requires Owned(s) && InMemory(s, maxSize) && At(s, i) && s.senders[i].Holds(b)
    requires Preserves(s.sh.mem, s.sh.heap, n, h', b.off) && SenderMemory(n, h', maxSize, pc)
    ensures SendersMemory(n, h', maxSize, s.senders[i := pc])
    ensures QueueMemory(n, h', s.sent, s.taken) && ReadMemory(n, h', s.sent, s.inHand)
  {
    var m, h := s.sh.mem, s.sh.heap;
    OthersElsewhere(s, maxSize, i, b);
    forall j | 0 <= j < |s.senders| && j != i ensures SenderMemory(n, h', maxSize, s.senders[j]) {
      SenderKept(m, h, n, h', maxSize, s.senders[j], b.off);
    }
    QueueMemoryKept(m, h, n, h', s.sent, s.taken, b.off);
    ReadMemoryKept(m, h, n, h', s.sent, s.inHand, b.off);
  }

  // ----- A writer's own steps -----

  lemma InitWrites(m: Memory, h: Heap, b: Block, maxSize: Word)
    requires Holds(m, h) && Live(h, b) && AllocWords(maxSize) <= b.size
    ensures var n := Poke(Poke(m, HeaderOf(b), maxSize), HeaderOf(b) + NEXT, NULL_OFFSET);
      Holds(n, h) && Preserves(m, h, n, h, b.off) && SenderMemory(n, h, maxSize, Writing(b))
  {
    var half := Poke(m, HeaderOf(b), maxSize);
    OwnWrite(m, h, b, HeaderOf(b), maxSize);
    OwnWrite(half, h, b, HeaderOf(b) + NEXT, NULL_OFFSET);
    PreservesBoth(m, h, half, h, Poke(half, HeaderOf(b) + NEXT, NULL_OFFSET), h, b.off, b.off);
  }

  lemma InitKeeps(s: State, maxSize: nat, i: nat, s': State)
    requires Inv(s, maxSize) && SenderStep(s, maxSize, Init(i), s')
    ensures Inv(s', maxSize)
  {
    hide Inv;
    var b := s.senders[i].b;
    WriterFacts(s, maxSize, i, b);
    InitWrites(s.sh.mem, s.sh.heap, b, maxSize);
    WriterWrites(s, maxSize, i, b, Writing(b), s');
  }

  lemma WriteWrites(m: Memory, h: Heap, b: Block, maxSize: nat, w: nat, v: Word)
    requires Holds(m, h) && Live(h, b) && SenderMemory(m, h, maxSize, Writing(b)) && InBody(b, maxSize, w)
    ensures Holds(Poke(m, w, v), h) && Preserves(m, h, Poke(m, w, v), h, b.off)
    ensures SenderMemory(Poke(m, w, v), h, maxSize, Writing(b))
  {
    OwnWrite(m, h, b, w, v);
  }

  lemma WriteKeeps(s: State, maxSize: nat, i: nat, w: nat, v: Word, s': State)
    requires Inv(s, maxSize) && SenderStep(s, maxSize, Write(i, w, v), s')
    ensures Inv(s', maxSize)
  {
    hide Inv;
    var b := s.senders[i].b;
    WriterFacts(s, maxSize, i, b);
    WriteWrites(s.sh.mem, s.sh.heap, b, maxSize, w, v);
    assert s.senders == s.senders[i := Writing(b)];
    WriterWrites(s, maxSize, i, b, Writing(b), s');
  }

  lemma SizeStored(m: Memory, h: Heap, b: Block, size: Word)
    requires Live(h, b) && WordsFor(size) <= b.size && b.End() <= |m|
    ensures Stored(Poke(m, HeaderOf(b), size), h, Msg(b, size, Slice(m, BodyOf(b), Align(size))))
    ensures NextOf(Poke(m, HeaderOf(b), size), b) == NextOf(m, b)
  {
    WordsForBody(size);
    hide Align, Slice, WordsFor;
  }

  lemma SizeWrites(m: Memory, h: Heap, b: Block, maxSize: nat, size: Word)
    requires Holds(m, h) && Live(h, b) && SenderMemory(m, h, maxSize, Writing(b)) && size <= maxSize
    ensures var n := Poke(m, HeaderOf(b), size);
      && Holds(n, h) && Preserves(m, h, n, h, b.off)
      && SenderMemory(n, h, maxSize, Sized(Msg(b, size, Slice(m, BodyOf(b), Align(size)))))
  {
    LiveInside(h, |m|, b);
    OwnWrite(m, h, b, HeaderOf(b), size);
    SizeStored(m, h, b, size);
  }

  lemma SetSizeKeeps(s: State, maxSize: nat, i: nat, size: nat, s': State)
    requires Inv(s, maxSize) && SenderStep(s, maxSize, SetSize(i, size), s')
    ensures Inv(s', maxSize)
  {
    hide Inv;
    var b := s.senders[i].b;
    WriterFacts(s, maxSize, i, b);
    SizeWrites(s.sh.mem, s.sh.heap, b, maxSize, size);
    WriterWrites(s, maxSize, i, b, Sized(Composed(s, b, size)), s');
  }

  lemma TrimStored(m: Memory, n: Memory, h: Heap, h': Heap, msg: Msg)
    requires Stored(m, h, msg) && Holds(n, h')
    requires var left := Trimmed(msg.b, WordsFor(msg.size)); Live(h', left) && SamePayload(m, n, left)
    ensures var left := Trimmed(msg.b, WordsFor(msg.size));
      Stored(n, h', msg.(b := left)) && NextOf(n, left) == NextOf(m, msg.b)
  {
    WordsForBody(msg.size);
    hide Align, WordsFor;
    var left := Trimmed(msg.b, WordsFor(msg.size));
    LiveInside(h', |n|, left);
    PayloadStored(m, n, msg, left);
  }

  /** A message is stored where its payload is kept. */
  lemma PayloadStored(m: Memory, n: Memory, msg: Msg, left: Block)
    requires Fits(msg) && Fits(msg.(b := left)) && left.off == msg.b.off && left.End() <= |n| == |m|
    requires SamePayload(m, n, left)
    requires forall k :: 0 <= k < |msg.body| ==> Peek(m, BodyOf(msg.b) + k) == msg.body[k]
    ensures n[HeaderOf(left)] == m[HeaderOf(left)] && NextOf(n, left) == NextOf(m, msg.b)
    ensures forall k :: 0 <= k < |msg.body| ==> Peek(n, BodyOf(left) + k) == msg.body[k]
  {
    assert left.InPayload(HeaderOf(left)) && left.InPayload(HeaderOf(left) + NEXT);
    forall k | 0 <= k < |msg.body| ensures Peek(n, BodyOf(left) + k) == msg.body[k] {
      assert left.InPayload(BodyOf(left) + k);
    }
  }

  lemma TrimMemory(m: Memory, n: Memory, h: Heap, h': Heap, maxSize: nat, msg: Msg)
    requires SenderMemory(m, h, maxSize, Sized(msg)) && Holds(n, h')
    requires var left := Trimmed(msg.b, WordsFor(msg.size)); Live(h', left) && SamePayload(m, n, left)
    ensures SenderMemory(n, h', maxSize, Ready(msg.(b := Trimmed(msg.b, WordsFor(msg.size)))))
  {
    TrimStored(m, n, h, h', msg);
  }

  lemma TrimReplaces(h: Heap, end: nat, h': Heap, b: Block, words: nat)
    requires WellFormed(h, end) && Live(h, b) && LEAST_BLOCK <= words
    requires IndexOf(h.blocks, b.off) < |h.blocks| && h' == Heaps.Trim(h, IndexOf(h.blocks, b.off), words)
    ensures Replaced(h, h', b, Trimmed(b, words)) && Live(h', Trimmed(b, words))
  {
    LiveInside(h, end, b);
    TrimLive(h, end, IndexOf(h.blocks, b.off), words);
  }

  lemma TrimKeepsInv(s: State, maxSize: nat, i: nat, s': State)
    requires Inv(s, maxSize) && SenderStep(s, maxSize, Trim(i), s')
    ensures Inv(s', maxSize)
  {
    hide Inv;
    var h, msg := s.sh.heap, s.senders[i].msg;
    var left := Trimmed(msg.b, WordsFor(msg.size));
    WriterFacts(s, maxSize, i, msg.b);
    TrimReplaces(h, |s.sh.mem|, s'.sh.heap, msg.b, WordsFor(msg.size));
    TrimMemory(s.sh.mem, s'.sh.mem, h, s'.sh.heap, maxSize, msg);
    WriterStep(s, maxSize, i, msg.b, left, Ready(msg.(b := left)), s');
  }

  // ----- Taking a block and giving it up -----

  lemma SendersKept(m: Memory, h: Heap, n: Memory, h': Heap, maxSize: nat, senders: seq<Sender>, off: nat)
    requires Preserves(m, h, n, h', off) && SendersMemory(m, h, maxSize, senders)
    requires forall j, c :: 0 <= j < |senders| && senders[j].Holds(c) ==>
      Live(h, c) && c.off != off && LEAST_BLOCK <= c.size
    ensures SendersMemory(n, h', maxSize, senders)
  {
    forall j | 0 <= j < |senders| ensures SenderMemory(n, h', maxSize, senders[j]) {
      SenderKept(m, h, n, h', maxSize, senders[j], off);
    }
  }

  /** Every block someone owns is live and lies behind the header. */
  lemma OwnedInside(s: State)
    requires Owned(s) && WellFormed(s.sh.heap, |s.sh.mem|)
    ensures forall b :: b in s.owner ==> Live(s.sh.heap, b) && b.off != 0 && LEAST_BLOCK <= b.size
    ensures forall k :: s.taken <= k < |s.sent| ==> s.sent[k].b in s.owner
    ensures forall o :: o in s.inHand ==> s.inHand[o] < |s.sent| && s.sent[s.inHand[o]].b in s.owner
    ensures forall j, c :: 0 <= j < |s.senders| && s.senders[j].Holds(c) ==> c in s.owner
  {
    forall b | b in s.owner ensures b.off != 0 && LEAST_BLOCK <= b.size {
      LiveInside(s.sh.heap, |s.sh.mem|, b);
    }
    forall o | o in s.inHand ensures s.inHand[o] < |s.sent| && s.sent[s.inHand[o]].b in s.owner {
      assert InHand(s.owner, s.sent, s.taken, o, s.inHand[o]);
    }
  }

  lemma AllocMemory(s: State, maxSize: nat, n: Memory, h': Heap)
    requires Owned(s) && InMemory(s, maxSize) && Preserves(s.sh.mem, s.sh.heap, n, h', 0)
    ensures SendersMemory(n, h', maxSize, s.senders)
    ensures QueueMemory(n, h', s.sent, s.taken) && ReadMemory(n, h', s.sent, s.inHand)
  {
    var m, h := s.sh.mem, s.sh.heap;
    OwnedInside(s);
    SendersKept(m, h, n, h', maxSize, s.senders, 0);
    QueueMemoryKept(m, h, n, h', s.sent, s.taken, 0);
    ReadMemoryKept(m, h, n, h', s.sent, s.inHand, 0);
  }

  lemma AllocOwned(s: State, i: nat, given: Block, h': Heap)
    requires Owned(s) && At(s, i) && s.senders[i] == Idle && !Live(s.sh.heap, given)
    requires forall c :: Live(h', c) <==> Live(s.sh.heap, c) || c == given
    ensures var owner' := s.owner[given := Writer(i)];
      && OwnsLive(owner', h') && OwnsWriters(owner', s.senders[i := Given(given)])
      && OwnsQueued(owner', s.sent, s.taken) && OwnsRead(owner', s.sent, s.taken, s.inHand)
  {
    var owner' := s.owner[given := Writer(i)];
    assert given !in s.owner;
    forall c ensures SameRole(s.owner, owner', c) {}
    OwnsKept(s.owner, owner', s.sent, s.taken, s.inHand);
    forall j, c | 0 <= j < |s.senders| && s.senders[i := Given(given)][j].Holds(c)
      ensures c in owner' && owner'[c] == Writer(j)
    {
      if j != i { assert s.senders[j].Holds(c); }
    }
  }

  lemma AllocGives(s: State, maxSize: nat, i: nat, b: Block, s': State)
    requires Inv(s, maxSize) && At(s, i) && s.senders[i] == Idle && !Live(s.sh.heap, b) && b.size >= AllocWords(maxSize)
    requires Holds(s'.sh.mem, s'.sh.heap) && Preserves(s.sh.mem, s.sh.heap, s'.sh.mem, s'.sh.heap, 0)
    requires forall c :: Live(s'.sh.heap, c) <==> Live(s.sh.heap, c) || c == b
    requires s' == SetSender(s, i, Given(b)).(sh := s.sh.(mem := s'.sh.mem, heap := s'.sh.heap),
                                              owner := s.owner[b := Writer(i)])
    ensures Inv(s', maxSize)
  {
    hide Holds, OwnsLive, OwnsWriters, OwnsQueued, OwnsRead, QueueMemory, ReadMemory;
    AllocMemory(s, maxSize, s'.sh.mem, s'.sh.heap);
    AllocOwned(s, i, b, s'.sh.heap);
    UncountedSet(s.senders, i, Given(b));
    SendersMemorySet(s'.sh.mem, s'.sh.heap, maxSize, s.senders, i, Given(b));
    AwakeSet(s.wait, s.sh.num, s.senders, i, Given(b));
    assert |s'.sh.mem| == |s.sh.mem|;
  }

  lemma AllocKeepsInv(s: State, maxSize: nat, i: nat, s': State)
    requires Inv(s, maxSize) && SenderStep(s, maxSize, Alloc(i), s')
    ensures Inv(s', maxSize)
  {
    hide OwnsWriters, OwnsQueued, OwnsRead, SendersMemory, QueueMemory, ReadMemory;
    hide Preserves, Linked, Tagged, HeapLive.Given;
    AllocLive(s.sh.heap, |s.sh.mem|, AllocWords(maxSize));
    var given := HeapLive.Given(s.sh.heap, AllocWords(maxSize));
    if given.Some? {
      AllocGives(s, maxSize, i, given.value, s');
    } else {
      AllocMemory(s, maxSize, s'.sh.mem, s'.sh.heap);
    }
  }

  lemma CancelOwned(s: State, i: nat, b: Block)
    requires Owned(s) && At(s, i) && s.senders[i] == Writing(b)
    ensures var owner' := s.owner[b := Dropped];
      && OwnsLive(owner', s.sh.heap) && OwnsWriters(owner', s.senders[i := Idle])
      && OwnsQueued(owner', s.sent, s.taken) && OwnsRead(owner', s.sent, s.taken, s.inHand)
  {
    var owner' := s.owner[b := Dropped];
    WriterOwns(s.owner, s.senders, i, b);
    forall c ensures SameRole(s.owner, owner', c) {}
    OwnsKept(s.owner, owner', s.sent, s.taken, s.inHand);
    forall j, c | 0 <= j < |s.senders| && s.senders[i := Idle][j].Holds(c)
      ensures c in owner' && owner'[c] == Writer(j)
    {
      assert j != i && s.senders[j].Holds(c);
    }
  }

  lemma CancelKeeps(s: State, maxSize: nat, i: nat, s': State)
    requires Inv(s, maxSize) && SenderStep(s, maxSize, Cancel(i), s')
    ensures Inv(s', maxSize)
  {
    CancelOwned(s, i, s.senders[i].b);
    UncountedSet(s.senders, i, Idle);
    SendersMemorySet(s.sh.mem, s.sh.heap, maxSize, s.senders, i, Idle);
    AwakeSet(s.wait, s.sh.num, s.senders, i, Idle);
  }
}
