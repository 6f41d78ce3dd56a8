/** The steps that move a message: onto the list, off the list, and out of the receiver's hands. */
module ShmQueue {
  import opened Layout
  import opened Heaps
  import opened HeapLive
  import opened Region
  import opened ShmSteps
  import opened ShmProtocol
  import opened ShmInvariants

  // ----- Facts about queued messages -----

  /** A queued message is in a live block whose offset is in the arena. */
  lemma QueuedFacts(s: State, maxSize: nat, k: nat)
    requires Owned(s) && InMemory(s, maxSize) && s.taken <= k < |s.sent|
    ensures var b := s.sent[k].b;
      && b in s.owner && s.owner[b] == Queued(k) && Live(s.sh.heap, b) && Stored(s.sh.mem, s.sh.heap, s.sent[k])
      && REGION_HEADER <= b.off && b.End() <= |s.sh.mem| && InArena(s.sh.mem, OffsetOf(b)) && OffsetOf(b) < NULL_OFFSET
      && b.InPayload(HeaderOf(b) + NEXT)
  {
    LiveInside(s.sh.heap, |s.sh.mem|, s.sent[k].b);
  }

  /** Different owners, different offsets. */
  lemma OwnersApart(s: State, b: Block, c: Block)
    requires Owned(s) && WellFormed(s.sh.heap, |s.sh.mem|) && b in s.owner && c in s.owner && s.owner[b] != s.owner[c]
    ensures b.off != c.off
  {
    LiveApart(s.sh.heap, |s.sh.mem|, b, c);
  }

  // ----- Append -----

  lemma AppendOwned(s: State, i: nat, msg: Msg)
    requires Owned(s) && At(s, i) && s.senders[i] == Ready(msg)
    ensures var owner', sent' := s.owner[msg.b := Queued(|s.sent|)], s.sent + [msg];
      && OwnsLive(owner', s.sh.heap) && OwnsWriters(owner', s.senders[i := Appended])
      && OwnsQueued(owner', sent', s.taken) && OwnsRead(owner', sent', s.taken, s.inHand)
  {
    var owner', sent' := s.owner[msg.b := Queued(|s.sent|)], s.sent + [msg];
    WriterOwns(s.owner, s.senders, i, msg.b);
    forall j, c | 0 <= j < |s.senders| && s.senders[i := Appended][j].Holds(c)
      ensures c in owner' && owner'[c] == Writer(j)
    {
      assert j != i && s.senders[j].Holds(c);
      WriterOwns(s.owner, s.senders, j, c);
    }
    forall o | o in s.inHand ensures InHand(owner', sent', s.taken, o, s.inHand[o]) {
      assert InHand(s.owner, s.sent, s.taken, o, s.inHand[o]);
    }
    forall k | s.taken <= k < |sent'| ensures sent'[k].b in owner' && owner'[sent'[k].b] == Queued(k) {
      if k < |s.sent| { assert s.owner[s.sent[k].b] == Queued(k); }
    }
  }

  /** The link of the last message now leads to the new one. */
  lemma LinkNext(m: Memory, h: Heap, msg: Msg, o: Word)
    requires Holds(m, h) && Stored(m, h, msg) && msg.b.InPayload(HeaderOf(msg.b) + NEXT)
    ensures var n := Poke(m, HeaderOf(msg.b) + NEXT, o);
      Holds(n, h) && Preserves(m, h, n, h, msg.b.off) && Stored(n, h, msg) && NextOf(n, msg.b) == o
  {
    hide Holds, Preserves;
    OwnWrite(m, h, msg.b, HeaderOf(msg.b) + NEXT, o);
  }

  ghost predicate LastLinked(m: Memory, h: Heap, n: Memory, sent: seq<Msg>, o: nat)
    requires |sent| > 0
  {
    var last := sent[|sent| - 1];
    Preserves(m, h, n, h, last.b.off) && Stored(n, h, last) && NextOf(n, last.b) == o
  }

  ghost predicate LastAlone(sent: seq<Msg>, taken: nat)
    requires |sent| > 0
  {
    forall k :: taken <= k < |sent| - 1 ==> sent[k].b.off != sent[|sent| - 1].b.off
  }

  lemma AppendQueue(m: Memory, h: Heap, n: Memory, sent: seq<Msg>, taken: nat, msg: Msg)
    requires taken <= |sent| && QueueMemory(m, h, sent, taken)
    requires Stored(n, h, msg) && NextOf(n, msg.b) == NULL_OFFSET
    requires taken == |sent| ==> n == m
    requires taken < |sent| ==> LastLinked(m, h, n, sent, OffsetOf(msg.b)) && LastAlone(sent, taken)
    ensures QueueMemory(n, h, sent + [msg], taken)
  {
    var sent' := sent + [msg];
    forall k | taken <= k < |sent'| ensures Stored(n, h, sent'[k]) {
      if k < |sent| - 1 { StoredKept(m, h, n, h, sent[k], sent[|sent| - 1].b.off); }
    }
    forall k | taken < k <= |sent'| ensures NextOf(n, sent'[k - 1].b) == OffsetAt(sent', k) {
      if k < |sent| {
        StoredKept(m, h, n, h, sent[k - 1], sent[|sent| - 1].b.off);
        assert NextOf(m, sent[k - 1].b) == OffsetAt(sent, k);
      }
    }
  }

  lemma AppendReads(m: Memory, h: Heap, sent: seq<Msg>, msg: Msg, inHand: map<nat, nat>)
    requires ReadMemory(m, h, sent, inHand) && forall o :: o in inHand ==> inHand[o] < |sent|
    ensures ReadMemory(m, h, sent + [msg], inHand)
  {
    forall o | o in inHand ensures Stored(m, h, (sent + [msg])[inHand[o]]) {
      assert (sent + [msg])[inHand[o]] == sent[inHand[o]];
    }
  }

  /** Every block but the last queued one is somewhere else. */
  lemma LastApart(s: State, maxSize: nat)
    requires Owned(s) && InMemory(s, maxSize) && s.taken < |s.sent|
    ensures LastAlone(s.sent, s.taken)
    ensures var off := s.sent[|s.sent| - 1].b.off;
      && (forall o :: o in s.inHand && s.inHand[o] < |s.sent| ==> s.sent[s.inHand[o]].b.off != off)
      && (forall j, c :: 0 <= j < |s.senders| && s.senders[j].Holds(c) ==>
        Live(s.sh.heap, c) && c.off != off && LEAST_BLOCK <= c.size)
  {
    hide QueueMemory, ReadMemory, SendersMemory, Stored, Linked, Tagged;
    var k0 := |s.sent| - 1;
    var b := s.sent[k0].b;
    QueuedFacts(s, maxSize, k0);
    OwnedInside(s);
    forall k | s.taken <= k < k0 ensures s.sent[k].b.off != b.off {
      QueuedFacts(s, maxSize, k);
      OwnersApart(s, s.sent[k].b, b);
    }
    forall o | o in s.inHand ensures s.sent[s.inHand[o]].b.off != b.off {
      assert InHand(s.owner, s.sent, s.taken, o, s.inHand[o]);
      OwnersApart(s, s.sent[s.inHand[o]].b, b);
    }
    forall j, c | 0 <= j < |s.senders| && s.senders[j].Holds(c) ensures c.off != b.off {
      WriterOwns(s.owner, s.senders, j, c);
      OwnersApart(s, c, b);
    }
  }

  lemma AppendBehind(s: State, maxSize: nat, o: Word, n: Memory)
    requires Owned(s) && InMemory(s, maxSize) && s.taken < |s.sent|
    requires n == Poke(s.sh.mem, HeaderOf(s.sent[|s.sent| - 1].b) + NEXT, o)
    ensures Holds(n, s.sh.heap) && |n| == |s.sh.mem| && LastLinked(s.sh.mem, s.sh.heap, n, s.sent, o)
    ensures SendersMemory(n, s.sh.heap, maxSize, s.senders) && ReadMemory(n, s.sh.heap, s.sent, s.inHand)
  {
    hide QueueMemory, Tagged, Linked;
    var m, h := s.sh.mem, s.sh.heap;
    var last := s.sent[|s.sent| - 1];
    QueuedFacts(s, maxSize, |s.sent| - 1);
    LinkNext(m, h, last, o);
    LastApart(s, maxSize);
    SendersKept(m, h, n, h, maxSize, s.senders, last.b.off);
    ReadMemoryKept(m, h, n, h, s.sent, s.inHand, last.b.off);
  }

  lemma ReadyStored(m: Memory, h: Heap, maxSize: nat, senders: seq<Sender>, i: nat, msg: Msg)
    requires SendersMemory(m, h, maxSize, senders) && i < |senders| && senders[i] == Ready(msg)
    ensures Stored(m, h, msg) && NextOf(m, msg.b) == NULL_OFFSET
  {
    assert SenderMemory(m, h, maxSize, senders[i]);
  }

  ghost predicate AppendDone(s: State, maxSize: nat, msg: Msg, n: Memory) {
    && Holds(n, s.sh.heap) && |n| == |s.sh.mem| && SendersMemory(n, s.sh.heap, maxSize, s.senders)
    && QueueMemory(n, s.sh.heap, s.sent + [msg], s.taken) && ReadMemory(n, s.sh.heap, s.sent + [msg], s.inHand)
  }

  /** The list was not empty. */
  lemma AppendMore(s: State, maxSize: nat, i: nat, msg: Msg, n: Memory)
    requires Owned(s) && InMemory(s, maxSize) && At(s, i) && s.senders[i] == Ready(msg) && OffsetOf(msg.b) < WORD_LIMIT
    requires s.taken < |s.sent|
    requires n == Poke(s.sh.mem, HeaderOf(s.sent[|s.sent| - 1].b) + NEXT, OffsetOf(msg.b))
    ensures AppendDone(s, maxSize, msg, n)
  {
    AppendBehind(s, maxSize, OffsetOf(msg.b), n);
    assert QueueMemory(n, s.sh.heap, s.sent + [msg], s.taken) by {
      ReadyStored(n, s.sh.heap, maxSize, s.senders, i, msg);
      LastApart(s, maxSize);
      AppendQueue(s.sh.mem, s.sh.heap, n, s.sent, s.taken, msg);
    }
    assert ReadMemory(n, s.sh.heap, s.sent + [msg], s.inHand) by {
      OwnedInside(s);
      AppendReads(n, s.sh.heap, s.sent, msg, s.inHand);
    }
  }

  /** The list was empty. */
  lemma AppendFirst(s: State, maxSize: nat, i: nat, msg: Msg)
    requires Owned(s) && InMemory(s, maxSize) && At(s, i) && s.senders[i] == Ready(msg) && s.taken == |s.sent|
    ensures AppendDone(s, maxSize, msg, s.sh.mem)
  {
    var n := s.sh.mem;
    ReadyStored(n, s.sh.heap, maxSize, s.senders, i, msg);
    AppendQueue(n, s.sh.heap, n, s.sent, s.taken, msg);
    OwnedInside(s);
    AppendReads(n, s.sh.heap, s.sent, msg, s.inHand);
  }

  predicate AppendMem(s: State, msg: Msg, n: Memory)
    requires OffsetOf(msg.b) < WORD_LIMIT
  {
    n == if s.taken < |s.sent|
         then Poke(s.sh.mem, HeaderOf(s.sent[|s.sent| - 1].b) + NEXT, OffsetOf(msg.b))
         else s.sh.mem
  }

  /** What Append writes: the link of the last message, if there is one, and the ends of the list. */
  lemma AppendEnds(sh: Shared, sh': Shared, o: Word, receiver: Receiver, sent: seq<Msg>, taken: nat, msg: Msg)
    requires taken <= |sent| && o == OffsetOf(msg.b) < NULL_OFFSET && sh' == ShmSteps.Append(sh, o)
    requires Ends(sh.first, sh.last, sent, taken) && HeadKnown(receiver, sent, taken)
    requires taken < |sent| ==> OffsetOf(sent[|sent| - 1].b) < NULL_OFFSET
    ensures Ends(sh'.first, sh'.last, sent + [msg], taken) && HeadKnown(receiver, sent + [msg], taken)
    ensures sh'.heap == sh.heap && sh'.num == sh.num
    ensures sh'.mem == if taken < |sent| then Poke(sh.mem, HeaderOf(sent[|sent| - 1].b) + NEXT, o) else sh.mem
  {
  }

  /** The bounds check on the last message's offset does not fail. */
  lemma LastInArena(s: State, maxSize: nat)
    requires Inv(s, maxSize)
    ensures s.sh.last == NULL_OFFSET || InArena(s.sh.mem, s.sh.last)
  {
    if s.taken < |s.sent| { QueuedFacts(s, maxSize, |s.sent| - 1); }
  }

  predicate Appends(s: State, i: nat, msg: Msg, s': State) {
    && At(s, i) && s.senders[i] == Ready(msg) && OffsetOf(msg.b) < WORD_LIMIT
    && s' == SetSender(s, i, Appended).(sh := ShmSteps.Append(s.sh, OffsetOf(msg.b)),
                                        sent := s.sent + [msg], owner := s.owner[msg.b := Queued(|s.sent|)])
  }

  lemma AppendSteps(s: State, maxSize: nat, i: nat, s': State)
    requires Inv(s, maxSize) && SenderStep(s, maxSize, ShmProtocol.Append(i), s')
    ensures At(s, i) && s.senders[i].Ready? && Appends(s, i, s.senders[i].msg, s')
  {
    LastInArena(s, maxSize);
  }

  lemma AppendListed(s: State, maxSize: nat, i: nat, msg: Msg, s': State)
    requires Inv(s, maxSize) && Appends(s, i, msg, s')
    ensures ShmProtocol.Listed(s') && s'.sh.heap == s.sh.heap && s'.sh.num == s.sh.num && AppendMem(s, msg, s'.sh.mem)
  {
    hide QueueMemory, ReadMemory, SendersMemory, HoldsBut, OwnsLive, OwnsWriters, OwnsRead, Hands, Stored;
    if s.taken < |s.sent| { QueuedFacts(s, maxSize, |s.sent| - 1); }
    WriterFacts(s, maxSize, i, msg.b);
    AppendEnds(s.sh, s'.sh, OffsetOf(msg.b), s.receiver, s.sent, s.taken, msg);
  }

  lemma AppendInMemory(s: State, maxSize: nat, i: nat, msg: Msg, s': State)
    requires Owned(s) && InMemory(s, maxSize) && Appends(s, i, msg, s')
    requires s'.sh.heap == s.sh.heap && AppendMem(s, msg, s'.sh.mem)
    ensures InMemory(s', maxSize)
  {
    if s.taken < |s.sent| { AppendMore(s, maxSize, i, msg, s'.sh.mem); } else { AppendFirst(s, maxSize, i, msg); }
    assert AppendDone(s, maxSize, msg, s'.sh.mem);
    SendersMemorySet(s'.sh.mem, s.sh.heap, maxSize, s.senders, i, Appended);
  }

  lemma AppendKeeps(s: State, maxSize: nat, i: nat, s': State)
    requires Inv(s, maxSize) && SenderStep(s, maxSize, ShmProtocol.Append(i), s')
    ensures Inv(s', maxSize)
  {
    AppendSteps(s, maxSize, i, s');
    var msg := s.senders[i].msg;
    AppendListed(s, maxSize, i, msg, s');
    AppendInMemory(s, maxSize, i, msg, s');
    AppendOwned(s, i, msg);
    UncountedSet(s.senders, i, Appended);
    AwakeSet(s.wait, s.sh.num, s.senders, i, Appended);
  }

  // ----- Unlink -----

  lemma HandsApart(s: State, k: nat)
    requires Owned(s) && WellFormed(s.sh.heap, |s.sh.mem|) && s.taken <= k < |s.sent|
    ensures OffsetOf(s.sent[k].b) !in s.inHand
  {
    var b := s.sent[k].b;
    assert s.owner[b] == Queued(k);
    if OffsetOf(b) in s.inHand {
      assert InHand(s.owner, s.sent, s.taken, OffsetOf(b), s.inHand[OffsetOf(b)]);
      OwnersApart(s, s.sent[s.inHand[OffsetOf(b)]].b, b);
    }
  }

  lemma UnlinkRead(s: State, o: nat)
    requires Owned(s) && s.taken < |s.sent| && o == OffsetOf(s.sent[s.taken].b) && o !in s.inHand
    ensures OwnsRead(s.owner[s.sent[s.taken].b := Reading(s.taken)], s.sent, s.taken + 1, s.inHand[o := s.taken])
  {
    var b := s.sent[s.taken].b;
    var owner', inHand' := s.owner[b := Reading(s.taken)], s.inHand[o := s.taken];
    assert s.owner[b] == Queued(s.taken);
    forall p | p in inHand' ensures InHand(owner', s.sent, s.taken + 1, p, inHand'[p]) {
      if p != o { assert InHand(s.owner, s.sent, s.taken, p, s.inHand[p]); }
    }
  }

  lemma UnlinkOwned(s: State)
    requires Owned(s) && s.taken < |s.sent|
    ensures var owner' := s.owner[s.sent[s.taken].b := Reading(s.taken)];
      OwnsLive(owner', s.sh.heap) && OwnsWriters(owner', s.senders) && OwnsQueued(owner', s.sent, s.taken + 1)
  {
    var b := s.sent[s.taken].b;
    var owner' := s.owner[b := Reading(s.taken)];
    assert s.owner[b] == Queued(s.taken);
    forall k | s.taken + 1 <= k < |s.sent| ensures s.sent[k].b in owner' && owner'[s.sent[k].b] == Queued(k) {
      assert s.owner[s.sent[k].b] == Queued(k);
    }
    forall j, c | 0 <= j < |s.senders| && s.senders[j].Holds(c) ensures c in owner' && owner'[c] == Writer(j) {
      WriterOwns(s.owner, s.senders, j, c);
    }
  }

  lemma UnlinkMemory(s: State, maxSize: nat, o: nat)
    requires InMemory(s, maxSize) && s.taken < |s.sent|
    ensures QueueMemory(s.sh.mem, s.sh.heap, s.sent, s.taken + 1)
    ensures ReadMemory(s.sh.mem, s.sh.heap, s.sent, s.inHand[o := s.taken])
    ensures NextOf(s.sh.mem, s.sent[s.taken].b) == OffsetAt(s.sent, s.taken + 1)
  {
    assert NextOf(s.sh.mem, s.sent[(s.taken + 1) - 1].b) == OffsetAt(s.sent, s.taken + 1);
  }

  lemma UnlinkEnds(sh: Shared, sh': Shared, o: Word, sent: seq<Msg>, taken: nat)
    requires taken < |sent| && o == OffsetOf(sent[taken].b) && sh' == UnlinkHead(sh, o)
    requires taken < |sent| && Ends(sh.first, sh.last, sent, taken) && OffsetOf(sent[taken].b) < NULL_OFFSET
    requires NextOf(sh.mem, sent[taken].b) == OffsetAt(sent, taken + 1)
    requires taken + 1 < |sent| ==> OffsetOf(sent[taken + 1].b) < NULL_OFFSET
    ensures Ends(sh'.first, sh'.last, sent, taken + 1) && sh'.mem == sh.mem && sh'.heap == sh.heap && sh'.num == sh.num
  {
    assert FromOffset(o) + NEXT == HeaderOf(sent[taken].b) + NEXT;
  }

  lemma UnlinkHands(inHand: map<nat, nat>, held: set<nat>, n: nat, o: Word)
    requires Hands(inHand, held, HeadRead(o)) && o as nat !in inHand
    ensures Hands(inHand[o as nat := n], held, Unlinked(o))
  {
    assert inHand[o as nat := n].Keys == inHand.Keys + {o as nat};
  }

  /** What Unlink does when there is a head. */
  predicate Unlinks(s: State, o: Word, s': State) {
    && s.receiver == HeadRead(o) && s.taken < |s.sent| && o == OffsetOf(s.sent[s.taken].b)
    && s' == s.(sh := UnlinkHead(s.sh, o), receiver := Unlinked(o), taken := s.taken + 1,
                inHand := s.inHand[o as nat := s.taken], owner := s.owner[s.sent[s.taken].b := Reading(s.taken)])
  }

  lemma UnlinkOwns(s: State, o: Word, s': State)
    requires Owned(s) && WellFormed(s.sh.heap, |s.sh.mem|) && Unlinks(s, o, s')
    ensures Owned(s')
  {
    HandsApart(s, s.taken);
    UnlinkOwned(s);
    UnlinkRead(s, o as nat);
    UnlinkHands(s.inHand, s.held, s.taken, o);
    hide OwnsLive, OwnsWriters, OwnsQueued, OwnsRead, Hands;
  }

  lemma UnlinkListed(s: State, maxSize: nat, o: Word, s': State)
    requires Owned(s) && InMemory(s, maxSize) && ShmProtocol.Listed(s) && Unlinks(s, o, s')
    ensures InMemory(s', maxSize) && ShmProtocol.Listed(s') && s'.sh.num == s.sh.num
  {
    hide ReadMemory, SendersMemory, OwnsLive, OwnsWriters, OwnsRead, Hands, Stored;
    UnlinkMemory(s, maxSize, o as nat);
    QueuedFacts(s, maxSize, s.taken);
    if s.taken + 1 < |s.sent| { QueuedFacts(s, maxSize, s.taken + 1); }
    UnlinkEnds(s.sh, s'.sh, o, s.sent, s.taken);
  }

  lemma UnlinkSteps(s: State, maxSize: nat, s': State)
    requires Inv(s, maxSize) && ReceiverStep(s, ShmProtocol.Unlink, s')
    ensures s.receiver.HeadRead? && Unlinks(s, s.receiver.o, s') && WellFormed(s.sh.heap, |s.sh.mem|)
  {
    hide Awake, Counter, Owned, SendersMemory, QueueMemory, ReadMemory, UnlinkHead;
  }

  lemma UnlinkKeepsInv(s: State, maxSize: nat, s': State)
    requires Inv(s, maxSize) && ReceiverStep(s, ShmProtocol.Unlink, s')
    ensures Inv(s', maxSize)
  {
    hide ReceiverStep, Owned, InMemory, ShmProtocol.Listed, Awake, UnlinkHead, Uncounted;
    UnlinkSteps(s, maxSize, s');
    UnlinkOwns(s, s.receiver.o, s');
    UnlinkListed(s, maxSize, s.receiver.o, s');
  }

  // ----- Release -----

  lemma HeldFacts(s: State, o: nat)
    requires Owned(s) && o in s.held
    ensures o in s.inHand && InHand(s.owner, s.sent, s.taken, o, s.inHand[o])
  {
  }

  lemma ReleaseRead(s: State, b: Block)
    requires Owned(s) && WellFormed(s.sh.heap, |s.sh.mem|) && b in s.owner && s.owner[b].Reading?
    ensures OwnsRead(s.owner - {b}, s.sent, s.taken, s.inHand - {OffsetOf(b)})
  {
    hide OwnsWriters, OwnsQueued, Hands, WellFormed;
    var owner', inHand' := s.owner - {b}, s.inHand - {OffsetOf(b)};
    forall o | o in inHand' ensures InHand(owner', s.sent, s.taken, o, inHand'[o]) {
      assert InHand(s.owner, s.sent, s.taken, o, s.inHand[o]);
    }
    forall c | c in owner' && owner'[c].Reading? ensures OffsetOf(c) in inHand' && inHand'[OffsetOf(c)] == owner'[c].n {
      LiveApart(s.sh.heap, |s.sh.mem|, b, c);
    }
  }

  lemma ReleaseOwned(s: State, b: Block, h': Heap)
    requires Owned(s) && WellFormed(s.sh.heap, |s.sh.mem|) && b in s.owner && s.owner[b].Reading?
    requires forall c :: Live(h', c) <==> Live(s.sh.heap, c) && c != b
    ensures var owner', inHand' := s.owner - {b}, s.inHand - {OffsetOf(b)};
      && OwnsLive(owner', h') && OwnsWriters(owner', s.senders)
      && OwnsQueued(owner', s.sent, s.taken) && OwnsRead(owner', s.sent, s.taken, inHand')
  {
    ReleaseRead(s, b);
    hide OwnsRead, Hands, WellFormed;
    var owner' := s.owner - {b};
    forall k | s.taken <= k < |s.sent| ensures s.sent[k].b in owner' && owner'[s.sent[k].b] == Queued(k) {
      assert s.owner[s.sent[k].b] == Queued(k);
    }
    forall j, c | 0 <= j < |s.senders| && s.senders[j].Holds(c) ensures c in owner' && owner'[c] == Writer(j) {
      WriterOwns(s.owner, s.senders, j, c);
    }
  }

  lemma ReleaseMemory(s: State, maxSize: nat, b: Block, n: Memory, h': Heap)
    requires Owned(s) && InMemory(s, maxSize) && b in s.owner && s.owner[b].Reading?
    requires Preserves(s.sh.mem, s.sh.heap, n, h', b.off)
    ensures SendersMemory(n, h', maxSize, s.senders)
    ensures QueueMemory(n, h', s.sent, s.taken) && ReadMemory(n, h', s.sent, s.inHand - {OffsetOf(b)})
  {
    var m, h := s.sh.mem, s.sh.heap;
    OwnedInside(s);
    forall j, c | 0 <= j < |s.senders| && s.senders[j].Holds(c) ensures c.off != b.off {
      WriterOwns(s.owner, s.senders, j, c);
      OwnersApart(s, c, b);
    }
    SendersKept(m, h, n, h', maxSize, s.senders, b.off);
    forall k | s.taken <= k < |s.sent| ensures s.sent[k].b.off != b.off {
      QueuedFacts(s, maxSize, k);
      OwnersApart(s, s.sent[k].b, b);
    }
    QueueMemoryKept(m, h, n, h', s.sent, s.taken, b.off);
    forall o | o in s.inHand && o != OffsetOf(b) ensures s.sent[s.inHand[o]].b.off != b.off {
      assert InHand(s.owner, s.sent, s.taken, o, s.inHand[o]);
    }
    ReadMemoryKept(m, h, n, h', s.sent, s.inHand - {OffsetOf(b)}, b.off);
  }

  /** The block a held offset names is the one behind the message. */
  lemma HeldBlock(s: State, b: Block)
    requires Owned(s) && WellFormed(s.sh.heap, |s.sh.mem|) && OffsetOf(b) in s.held && Live(s.sh.heap, b)
    ensures b in s.owner && s.owner[b].Reading?
  {
    HeldFacts(s, OffsetOf(b));
    var c := s.sent[s.inHand[OffsetOf(b)]].b;
    if b != c { LiveApart(s.sh.heap, |s.sh.mem|, b, c); }
  }

  lemma ReleaseHands(inHand: map<nat, nat>, held: set<nat>, receiver: Receiver, o: nat)
    requires Hands(inHand, held, receiver) && o in held
    ensures Hands(inHand - {o}, held - {o}, receiver)
  {
    assert (inHand - {o}).Keys == inHand.Keys - {o};
  }

  lemma ReleaseKeeps(s: State, maxSize: nat, b: Block, s': State)
    requires Inv(s, maxSize) && ReceiverStep(s, Release(b), s')
    ensures Inv(s', maxSize)
  {
    HeldBlock(s, b);
    LiveInside(s.sh.heap, |s.sh.mem|, b);
    FreeLive(s.sh.heap, |s.sh.mem|, IndexOf(s.sh.heap.blocks, b.off));
    ReleaseOwned(s, b, s'.sh.heap);
    ReleaseMemory(s, maxSize, b, s'.sh.mem, s'.sh.heap);
    ReleaseHands(s.inHand, s.held, s.receiver, OffsetOf(b));
    assert Owned(s') && InMemory(s', maxSize);
  }
}
