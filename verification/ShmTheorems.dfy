/** What the message arena guarantees over every run, in terms of the program's own variables. */
module ShmTheorems {
  import opened Layout
  import opened Heaps
  import opened HeapLive
  import opened ShmSteps
  import opened ShmProtocol
  import opened ShmInvariants
  import opened ShmQueue

  // ----- Runs -----

  lemma SenderKeeps(s: State, maxSize: nat, action: Action, s': State)
    requires Inv(s, maxSize) && SenderStep(s, maxSize, action, s')
    ensures Inv(s', maxSize)
  {
    hide Inv;
    match action
    case Alloc(i) => AllocKeepsInv(s, maxSize, i, s');
    case Init(i) => InitKeeps(s, maxSize, i, s');
    case Write(i, w, v) => WriteKeeps(s, maxSize, i, w, v, s');
    case SetSize(i, size) => SetSizeKeeps(s, maxSize, i, size, s');
    case Trim(i) => TrimKeepsInv(s, maxSize, i, s');
    case Append(i) => AppendKeeps(s, maxSize, i, s');
    case Count(i) => CountKeeps(s, maxSize, i, s');
    case Wake(i) => WakeKeeps(s, maxSize, i, s');
    case Cancel(i) => CancelKeeps(s, maxSize, i, s');
    case _ =>
  }

  lemma ReceiverKeeps(s: State, maxSize: nat, action: Action, s': State)
    requires Inv(s, maxSize) && ReceiverStep(s, action, s')
    ensures Inv(s', maxSize)
  {
    hide Inv;
    match action
    case Load => LoadKeeps(s, maxSize, s');
    case ReadHead => ReadHeadKeeps(s, maxSize, s');
    case Unlink => UnlinkKeepsInv(s, maxSize, s');
    case Uncount => UncountKeeps(s, maxSize, s');
    case Release(b) => ReleaseKeeps(s, maxSize, b, s');
    case Arm => WaitKeeps(s, maxSize, action, s');
    case Interrupt => WaitKeeps(s, maxSize, action, s');
    case Handle => WaitKeeps(s, maxSize, action, s');
    case _ =>
  }

  /** Every step of every sender and of the receiver keeps the invariant. */
  lemma StepKeeps(s: State, maxSize: nat, action: Action, s': State)
    requires Inv(s, maxSize) && Step(s, maxSize, action, s')
    ensures Inv(s', maxSize)
  {
    hide Inv, SenderStep, ReceiverStep;
    if SenderStep(s, maxSize, action, s') {
      SenderKeeps(s, maxSize, action, s');
    } else {
      ReceiverKeeps(s, maxSize, action, s');
    }
  }

  lemma {:induction false} IdleUncounted(senders: seq<Sender>)
    requires forall i :: 0 <= i < |senders| ==> !senders[i].Appended?
    ensures Uncounted(senders) == 0
  {
    if senders != [] { IdleUncounted(senders[1..]); }
  }

  lemma StartInv(s: State, maxSize: nat)
    requires Start(s)
    ensures Inv(s, maxSize)
  {
    IdleUncounted(s.senders);
  }

  ghost predicate Run(states: seq<State>, actions: seq<Action>, maxSize: nat) {
    && |states| == |actions| + 1 && Start(states[0])
    && forall k :: 0 <= k < |actions| ==> Step(states[k], maxSize, actions[k], states[k + 1])
  }

  /** A state some interleaving of the senders and the receiver leads to. */
  ghost predicate Reachable(s: State, maxSize: nat) {
    exists states, actions :: Run(states, actions, maxSize) && states[|states| - 1] == s
  }

  lemma {:induction false} RunKeeps(states: seq<State>, actions: seq<Action>, maxSize: nat, k: nat)
    requires Run(states, actions, maxSize) && k < |states|
    ensures Inv(states[k], maxSize)
  {
    hide Start, Step, Inv;
    if k == 0 {
      StartInv(states[0], maxSize);
    } else {
      RunKeeps(states, actions, maxSize, k - 1);
      StepKeeps(states[k - 1], maxSize, actions[k - 1], states[k]);
    }
  }

  lemma ReachableInv(s: State, maxSize: nat)
    requires Reachable(s, maxSize)
    ensures Inv(s, maxSize)
  {
    hide Start, Step, Inv;
    var states, actions :| Run(states, actions, maxSize) && states[|states| - 1] == s;
    RunKeeps(states, actions, maxSize, |states| - 1);
  }

  // ----- Where blocks are -----

  predicate WithWriter(s: State, b: Block) {
    exists i :: 0 <= i < |s.senders| && s.senders[i].Holds(b)
  }

  predicate OnList(s: State, b: Block) {
    exists n :: s.taken <= n < |s.sent| && s.sent[n].b == b
  }

  predicate WithReader(s: State, b: Block) {
    OffsetOf(b) in s.held || (s.receiver.Unlinked? && s.receiver.o == OffsetOf(b))
  }

  predicate CancelledAt(s: State, action: Action, b: Block) {
    action.Cancel? && At(s, action.i) && s.senders[action.i] == Writing(b)
  }

  /** Block `b` was abandoned: one of the first `k` steps cancelled the writer at work on it. */
  predicate Cancelled(states: seq<State>, actions: seq<Action>, k: nat, b: Block)
    requires k <= |actions| < |states|
  {
    exists j :: 0 <= j < k && CancelledAt(states[j], actions[j], b)
  }

  /** In how many places block `b` is after `k` steps. */
  function Places(states: seq<State>, actions: seq<Action>, k: nat, b: Block): nat
    requires k <= |actions| < |states|
  {
    (if WithWriter(states[k], b) then 1 else 0) + (if OnList(states[k], b) then 1 else 0)
    + (if WithReader(states[k], b) then 1 else 0) + (if Cancelled(states, actions, k, b) then 1 else 0)
  }

  // The ghost map of owners agrees with these places.

  predicate IsDropped(owner: map<Block, Owner>, b: Block) {
    b in owner && owner[b] == Dropped
  }

  lemma DropUpdate(owner: map<Block, Owner>, c: Block, o: Owner, b: Block)
    ensures IsDropped(owner[c := o], b) <==> if b == c then o == Dropped else IsDropped(owner, b)
    ensures IsDropped(owner - {c}, b) <==> b != c && IsDropped(owner, b)
  {
  }

  lemma GivenUnowned(s: State, maxSize: nat)
    requires Owned(s) && WellFormed(s.sh.heap, |s.sh.mem|)
    ensures var given := HeapLive.Given(s.sh.heap, AllocWords(maxSize));
      given.Some? ==> !IsDropped(s.owner, given.value)
  {
    AllocLive(s.sh.heap, |s.sh.mem|, AllocWords(maxSize));
  }

  lemma WriterUndropped(s: State, i: nat, b: Block)
    requires Owned(s) && At(s, i) && s.senders[i].Holds(b)
    ensures !IsDropped(s.owner, b)
  {
    WriterOwns(s.owner, s.senders, i, b);
  }

  lemma QueuedUndropped(s: State, n: nat)
    requires Owned(s) && s.taken <= n < |s.sent|
    ensures !IsDropped(s.owner, s.sent[n].b)
  {
    assert s.owner[s.sent[n].b] == Queued(n);
  }

  lemma HeldUndropped(s: State, b: Block)
    requires Owned(s) && WellFormed(s.sh.heap, |s.sh.mem|) && OffsetOf(b) in s.held && Live(s.sh.heap, b)
    ensures !IsDropped(s.owner, b)
  {
    HeldBlock(s, b);
  }

  lemma InvOwned(s: State, maxSize: nat)
    requires Inv(s, maxSize)
    ensures Owned(s) && WellFormed(s.sh.heap, |s.sh.mem|)
  {
  }

  /** What a sender's step does to the owners. */
  lemma SenderOwner(s: State, maxSize: nat, action: Action, s': State)
    requires SenderStep(s, maxSize, action, s')
    ensures match action
      case Alloc(i) =>
        var given := HeapLive.Given(s.sh.heap, AllocWords(maxSize));
        s'.owner == if given.None? then s.owner else s.owner[given.value := Writer(i)]
      case Trim(i) =>
        At(s, i) && s.senders[i].Sized? && var msg := s.senders[i].msg;
        s'.owner == (s.owner - {msg.b})[Trimmed(msg.b, WordsFor(msg.size)) := Writer(i)]
      case Append(i) =>
        At(s, i) && s.senders[i].Ready? &&
        (s'.owner == s.owner || s'.owner == s.owner[s.senders[i].msg.b := Queued(|s.sent|)])
      case Cancel(i) => At(s, i) && s.senders[i].Writing? && s'.owner == s.owner[s.senders[i].b := Dropped]
      case _ => s'.owner == s.owner
  {
    hide Allocates, Trims;
  }

  /** Only a cancel drops a block, and a dropped block stays so. */
  lemma DroppedBySender(s: State, maxSize: nat, action: Action, s': State, b: Block)
    requires Inv(s, maxSize) && SenderStep(s, maxSize, action, s')
    ensures IsDropped(s'.owner, b) <==> IsDropped(s.owner, b) || CancelledAt(s, action, b)
  {
    InvOwned(s, maxSize);
    SenderOwner(s, maxSize, action, s');
    hide Inv, SenderStep, WellFormed, Owned, IsDropped, HeapLive.Given, Trimmed, AllocWords, WordsFor, Slice;
    match action
    case Alloc(i) =>
      GivenUnowned(s, maxSize);
      var given := HeapLive.Given(s.sh.heap, AllocWords(maxSize));
      if given.Some? { DropUpdate(s.owner, given.value, Writer(i), b); }
    case Trim(i) =>
      var msg := s.senders[i].msg;
      WriterUndropped(s, i, msg.b);
      TrimmedOwner(s, i, b);
      DropUpdate(s.owner, msg.b, Dropped, b);
      DropUpdate(s.owner - {msg.b}, Trimmed(msg.b, WordsFor(msg.size)), Writer(i), b);
    case Append(i) =>
      WriterUndropped(s, i, s.senders[i].msg.b);
      DropUpdate(s.owner, s.senders[i].msg.b, Queued(|s.sent|), b);
    case Cancel(i) => DropUpdate(s.owner, s.senders[i].b, Dropped, b);
    case _ =>
  }

  lemma TrimmedOwner(s: State, i: nat, b: Block)
    requires Owned(s) && WellFormed(s.sh.heap, |s.sh.mem|) && At(s, i) && s.senders[i].Sized?
    ensures var msg := s.senders[i].msg; b == Trimmed(msg.b, WordsFor(msg.size)) ==> !IsDropped(s.owner, b)
  {
    var msg := s.senders[i].msg;
    WriterOwns(s.owner, s.senders, i, msg.b);
    if b in s.owner && b == Trimmed(msg.b, WordsFor(msg.size)) && b != msg.b {
      LiveApart(s.sh.heap, |s.sh.mem|, b, msg.b);
    }
  }

  lemma ReceiverOwner(s: State, action: Action, s': State)
    requires ReceiverStep(s, action, s')
    ensures match action
      case Unlink =>
        s'.owner == if s.taken < |s.sent| then s.owner[s.sent[s.taken].b := Reading(s.taken)] else s.owner
      case Release(b) => OffsetOf(b) in s.held && Live(s.sh.heap, b) && s'.owner == s.owner - {b}
      case _ => s'.owner == s.owner
  {
    hide Frees;
  }

  lemma DroppedByReceiver(s: State, maxSize: nat, action: Action, s': State, b: Block)
    requires Inv(s, maxSize) && ReceiverStep(s, action, s')
    ensures IsDropped(s'.owner, b) <==> IsDropped(s.owner, b)
  {
    InvOwned(s, maxSize);
    ReceiverOwner(s, action, s');
    assert s.taken <= |s.sent|;
    hide Inv, ReceiverStep, WellFormed, Owned, IsDropped;
    match action
    case Release(c) =>
      HeldUndropped(s, c);
      DropUpdate(s.owner, c, Dropped, b);
    case Unlink =>
      if s.taken < |s.sent| {
        QueuedUndropped(s, s.taken);
        DropUpdate(s.owner, s.sent[s.taken].b, Reading(s.taken), b);
      }
    case _ =>
  }

  lemma {:induction false} DroppedIsCancelled(states: seq<State>, actions: seq<Action>, maxSize: nat, k: nat, b: Block)
    requires Run(states, actions, maxSize) && k <= |actions|
    ensures IsDropped(states[k].owner, b) <==> Cancelled(states, actions, k, b)
  {
    hide Step, Inv, IsDropped, CancelledAt;
    if k > 0 {
      DroppedIsCancelled(states, actions, maxSize, k - 1, b);
      DroppedStep(states, actions, maxSize, k - 1, b);
    } else {
      NotDroppedYet(states[0], b);
    }
  }

  lemma NotDroppedYet(s: State, b: Block)
    requires Start(s)
    ensures !IsDropped(s.owner, b)
  {
  }

  lemma DroppedStep(states: seq<State>, actions: seq<Action>, maxSize: nat, k: nat, b: Block)
    requires Run(states, actions, maxSize) && k < |actions|
    ensures IsDropped(states[k + 1].owner, b) <==> IsDropped(states[k].owner, b) || CancelledAt(states[k], actions[k], b)
  {
    hide Inv, Start, SenderStep, ReceiverStep;
    var s, action, s' := states[k], actions[k], states[k + 1];
    RunKeeps(states, actions, maxSize, k);
    assert Step(s, maxSize, action, s');
    if SenderStep(s, maxSize, action, s') {
      DroppedBySender(s, maxSize, action, s', b);
    } else {
      DroppedByReceiver(s, maxSize, action, s', b);
      NoCancel(s, action, s', b);
    }
  }

  lemma NoCancel(s: State, action: Action, s': State, b: Block)
    requires ReceiverStep(s, action, s')
    ensures !CancelledAt(s, action, b)
  {
  }

  lemma WriterPlace(s: State, b: Block)
    requires Owned(s)
    ensures WithWriter(s, b) <==> b in s.owner && s.owner[b].Writer?
  {
  }

  lemma ListPlace(s: State, b: Block)
    requires Owned(s)
    ensures OnList(s, b) <==> b in s.owner && s.owner[b].Queued?
  {
    if b in s.owner && s.owner[b].Queued? { assert s.sent[s.owner[b].n].b == b; }
  }

  lemma ReaderPlace(s: State, b: Block)
    requires Owned(s) && WellFormed(s.sh.heap, |s.sh.mem|) && Live(s.sh.heap, b)
    ensures WithReader(s, b) <==> s.owner[b].Reading?
  {
    var o := OffsetOf(b);
    assert WithReader(s, b) <==> o in s.inHand;
    if o in s.inHand {
      assert InHand(s.owner, s.sent, s.taken, o, s.inHand[o]);
      var c := s.sent[s.inHand[o]].b;
      if b != c { LiveApart(s.sh.heap, |s.sh.mem|, b, c); }
    }
  }

  lemma OwnedOnce(s: State, maxSize: nat, b: Block)
    requires Inv(s, maxSize) && Live(s.sh.heap, b)
    ensures (if WithWriter(s, b) then 1 else 0) + (if OnList(s, b) then 1 else 0)
      + (if WithReader(s, b) then 1 else 0) + (if IsDropped(s.owner, b) then 1 else 0) == 1
  {
    WriterPlace(s, b);
    ListPlace(s, b);
    ReaderPlace(s, b);
  }

  /** After any number of steps every allocated block is in exactly one place: with one writer, on the list, with the
      reader, or abandoned by a cancel. */
  lemma OnePlace(states: seq<State>, actions: seq<Action>, maxSize: nat, k: nat, b: Block)
    requires Run(states, actions, maxSize) && k <= |actions| && Live(states[k].sh.heap, b)
    ensures Places(states, actions, k, b) == 1
  {
    hide Start, Step, Inv;
    RunKeeps(states, actions, maxSize, k);
    OwnedOnce(states[k], maxSize, b);
    DroppedIsCancelled(states, actions, maxSize, k, b);
  }

  /** A block whose writer was cancelled stays allocated for ever. */
  lemma NeverFreed(states: seq<State>, actions: seq<Action>, maxSize: nat, k: nat, b: Block)
    requires Run(states, actions, maxSize) && k <= |actions| && Cancelled(states, actions, k, b)
    ensures Live(states[k].sh.heap, b)
  {
    RunKeeps(states, actions, maxSize, k);
    DroppedIsCancelled(states, actions, maxSize, k, b);
  }

  /** No two writers share a block, and no block is on the list twice. */
  lemma OneHolder(s: State, maxSize: nat, b: Block, i: nat, j: nat)
    requires Reachable(s, maxSize)
    ensures At(s, i) && At(s, j) && s.senders[i].Holds(b) && s.senders[j].Holds(b) ==> i == j
    ensures s.taken <= i < |s.sent| && s.taken <= j < |s.sent| && s.sent[i].b == s.sent[j].b ==> i == j
  {
    ReachableInv(s, maxSize);
    if At(s, i) && s.senders[i].Holds(b) { WriterOwns(s.owner, s.senders, i, b); }
    if At(s, j) && s.senders[j].Holds(b) { WriterOwns(s.owner, s.senders, j, b); }
    if s.taken <= i < |s.sent| { assert s.owner[s.sent[i].b] == Queued(i); }
    if s.taken <= j < |s.sent| { assert s.owner[s.sent[j].b] == Queued(j); }
  }

  /** What a writer, the list or the reader refers to is allocated: nothing is freed twice or used after free. */
  lemma InUse(s: State, maxSize: nat, b: Block)
    requires Reachable(s, maxSize)
    ensures WithWriter(s, b) || OnList(s, b) ==> Live(s.sh.heap, b)
    ensures forall o :: o in s.held ==> exists c :: Live(s.sh.heap, c) && OffsetOf(c) == o && WithReader(s, c)
  {
    ReachableInv(s, maxSize);
    WriterPlace(s, b);
    ListPlace(s, b);
    forall o | o in s.held ensures exists c :: Live(s.sh.heap, c) && OffsetOf(c) == o && WithReader(s, c) {
      HeldFacts(s, o);
      var c := s.sent[s.inHand[o]].b;
      assert Live(s.sh.heap, c) && OffsetOf(c) == o && WithReader(s, c);
    }
  }

  predicate AllDone(s: State) {
    && s.held == {} && !s.receiver.Unlinked? && s.sh.first == NULL_OFFSET
    && forall i :: 0 <= i < |s.senders| ==> s.senders[i].Idle? || s.senders[i].Appended? || s.senders[i].Counted?
  }

  lemma NowhereElse(s: State, maxSize: nat, b: Block)
    requires Inv(s, maxSize) && AllDone(s)
    ensures !WithWriter(s, b) && !OnList(s, b) && !WithReader(s, b)
  {
    if s.taken < |s.sent| { QueuedFacts(s, maxSize, s.taken); }
  }

  /** With every message released and no writer at work, exactly the blocks of cancelled writers are still allocated. */
  lemma NothingLeaks(states: seq<State>, actions: seq<Action>, maxSize: nat, k: nat, b: Block)
    requires Run(states, actions, maxSize) && k <= |actions| && AllDone(states[k])
    ensures Live(states[k].sh.heap, b) <==> Cancelled(states, actions, k, b)
  {
    hide Start, Step, Inv;
    RunKeeps(states, actions, maxSize, k);
    NowhereElse(states[k], maxSize, b);
    if Live(states[k].sh.heap, b) { OnePlace(states, actions, maxSize, k, b); }
    if Cancelled(states, actions, k, b) { NeverFreed(states, actions, maxSize, k, b); }
  }

  /** Whoever holds a writer finds the arena's message size in its header, which is the room it has, and no link. */
  lemma WriterHeader(s: State, maxSize: nat, i: nat, b: Block)
    requires Reachable(s, maxSize) && At(s, i) && s.senders[i] == Writing(b)
    ensures NewHeader(s.sh.mem, HeaderOf(b), maxSize)
    ensures HeaderOf(b) + 2 + Align(maxSize) + 2 <= b.End() <= |s.sh.mem|
  {
    hide Inv, Reachable, Align, WordsFor;
    ReachableInv(s, maxSize);
    assert s.senders[i].Holds(b);
    WriterFacts(s, maxSize, i, b);
    WordsForBody(maxSize);
  }

  // ----- What messages occupy -----

  /** The message's block has no room for another block of 104 bytes. */
  predicate Snug(msg: Msg) {
    msg.b.size < Align(msg.size) + 7 + 13
  }

  predicate AllSnug(s: State) {
    && (forall i :: 0 <= i < |s.senders| && s.senders[i].Ready? ==> Snug(s.senders[i].msg))
    && forall n :: 0 <= n < |s.sent| ==> Snug(s.sent[n])
  }

  lemma TrimmedSnug(msg: Msg)
    ensures Snug(msg.(b := Trimmed(msg.b, WordsFor(msg.size))))
  {
    WordsForBody(msg.size);
    hide WordsFor, Align;
  }

  lemma SnugSender(s: State, maxSize: nat, action: Action, s': State)
    requires AllSnug(s) && SenderStep(s, maxSize, action, s')
    ensures AllSnug(s')
  {
    hide Snug, Trims, Allocates, InitHeader, WriteWord, ShmSteps.Append, CountIn;
    if action.Trim? { TrimmedSnug(s.senders[action.i].msg); }
  }

  lemma SnugReceiver(s: State, action: Action, s': State)
    requires ReceiverStep(s, action, s')
    ensures s'.senders == s.senders && s'.sent == s.sent
  {
    hide Frees, UnlinkHead, CountOut;
  }

  lemma SnugStep(s: State, maxSize: nat, action: Action, s': State)
    requires AllSnug(s) && Step(s, maxSize, action, s')
    ensures AllSnug(s')
  {
    hide Snug, SenderStep, ReceiverStep;
    if SenderStep(s, maxSize, action, s') {
      SnugSender(s, maxSize, action, s');
    } else {
      SnugReceiver(s, action, s');
    }
  }

  /** Over every run the messages sent are in blocks that were cut down to them: at most 103 bytes are left over. */
  lemma {:induction false} NoWaste(states: seq<State>, actions: seq<Action>, maxSize: nat, k: nat)
    requires Run(states, actions, maxSize) && k < |states|
    ensures AllSnug(states[k])
  {
    hide Step, Snug;
    if k > 0 {
      NoWaste(states, actions, maxSize, k - 1);
      SnugStep(states[k - 1], maxSize, actions[k - 1], states[k]);
    }
  }

  // ----- The counter and the unlocked accesses -----

  lemma EndsInArena(s: State, maxSize: nat)
    requires Inv(s, maxSize)
    ensures s.receiver.Loaded? ==> s.sh.first != NULL_OFFSET && InArena(s.sh.mem, s.sh.first)
    ensures s.sh.last == NULL_OFFSET || InArena(s.sh.mem, s.sh.last)
  {
    if s.receiver.Loaded? { QueuedFacts(s, maxSize, s.taken); }
    LastInArena(s, maxSize);
  }

  /** No assertion of the send and receive paths ever fails; the one that can fail is the allocator's, and it does
      exactly when the region's last block is released. */
  lemma StopsOnlyAtLastBlock(states: seq<State>, actions: seq<Action>, maxSize: nat, k: nat)
    requires Run(states, actions, maxSize) && k < |actions|
    ensures states[k + 1].crashed <==> actions[k].Release? && actions[k].b.End() == |states[k].sh.mem|
  {
    hide Start, Inv;
    RunKeeps(states, actions, maxSize, k);
    EndsInArena(states[k], maxSize);
    assert Step(states[k], maxSize, actions[k], states[k + 1]);
  }

  /** The head read without the lock is still the head when the lock is held. */
  lemma HeadStands(s: State, maxSize: nat)
    requires Reachable(s, maxSize) && s.receiver.HeadRead?
    ensures s.sh.first == s.receiver.o
  {
    ReachableInv(s, maxSize);
  }

  /** No sleeper is forgotten: some sender has counted its message and not yet issued the wake. */
  lemma NoLostWakeUp(s: State, maxSize: nat)
    requires Reachable(s, maxSize) && s.wait == Asleep && s.sh.num > 0
    ensures exists i :: 0 <= i < |s.senders| && s.senders[i] == Counted
  {
    ReachableInv(s, maxSize);
  }
}
