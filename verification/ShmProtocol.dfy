/** Any number of senders and one receiver on a message arena, one atomic section at a time
    (src/shmem/transport_shm.c, src/shmem/event_manager_shm.c). */
module ShmProtocol {
  import opened Layout
  import opened Heaps
  import opened HeapLive
  import opened Region
  import opened ShmSteps

  /** Where a sender is. It works on one message at a time; a thread with several open writers is several senders. */
  datatype Sender =
    | Idle
    | Given(b: Block)       // allocator_alloc has returned
    | Writing(b: Block)     // the client holds the writer
    | Sized(msg: Msg)       // the size is in the header
    | Ready(msg: Msg)       // allocator_trim has returned
    | Appended              // in the list, not yet counted
    | Counted               // counted, the wake not yet issued
  {
    predicate Holds(b: Block) {
      match this
      case Given(c) => c == b
      case Writing(c) => c == b
      case Sized(msg) => msg.b == b
      case Ready(msg) => msg.b == b
      case _ => false
    }
  }

  /** Where the receiver is in transport_shm_message_receive. */
  datatype Receiver =
    | Outside
    | Loaded               // has seen a non-zero message count
    | HeadRead(o: Word)    // has read the head of the list, without the lock
    | Unlinked(o: Word)    // has taken it off the list, under the lock; not yet counted

  /** The one futex wait of the receiver's event manager. */
  datatype Wait = Unarmed | Asleep | Fired

  datatype Owner = Writer(i: nat) | Queued(n: nat) | Reading(n: nat) | Dropped

  datatype State = State(
    sh: Shared,
    senders: seq<Sender>,
    receiver: Receiver,
    held: set<nat>,          // offsets of the messages handed to the client and not yet released
    wait: Wait,
    crashed: bool,           // an assertion has failed: nothing happens any more
    // History:
    sent: seq<Msg>,          // every message ever appended, as it was then
    taken: nat,              // how many of them have left the list
    inHand: map<nat, nat>,   // which of them is behind each offset the receiver holds
    owner: map<Block, Owner>)

  datatype Action =
    | Alloc(i: nat) | Init(i: nat) | Write(i: nat, w: nat, v: Word) | SetSize(i: nat, size: nat)
    | Trim(i: nat) | Append(i: nat) | Count(i: nat) | Wake(i: nat) | Cancel(i: nat)
    | Load | ReadHead | Unlink | Uncount | Release(b: Block)
    | Arm | Interrupt | Handle

  function AllocWords(maxSize: nat): nat { WordsFor(maxSize) }

  // ----- Steps -----

  predicate At(s: State, i: nat) { i < |s.senders| }

  predicate InBody(b: Block, maxSize: nat, w: nat) {
    BodyOf(b) <= w < BodyOf(b) + Align(maxSize)
  }

  /** The message a sender has written, once its size is known. */
  function Composed(s: State, b: Block, size: nat): Msg {
    Msg(b, size, Slice(s.sh.mem, BodyOf(b), Align(size)))
  }

  function SetSender(s: State, i: nat, pc: Sender): State
    requires At(s, i)
  {
    s.(senders := s.senders[i := pc])
  }

  /** The sender's share of a step, given the shared state afterwards. */
  ghost predicate SenderStep(s: State, maxSize: nat, action: Action, s': State) {
    match action
    case Alloc(i) =>
      At(s, i) && s.senders[i] == Idle &&
      var given := HeapLive.Given(s.sh.heap, AllocWords(maxSize));
      && Allocates(s.sh, s'.sh, AllocWords(maxSize), given)
      && s' == if given.None? then s.(sh := s'.sh)
               else SetSender(s, i, Given(given.value)).(sh := s'.sh, owner := s.owner[given.value := Writer(i)])
    case Init(i) =>
      At(s, i) && s.senders[i].Given? && maxSize < WORD_LIMIT && var b := s.senders[i].b;
      s' == SetSender(s, i, Writing(b)).(sh := InitHeader(s.sh, HeaderOf(b), maxSize))
    case Write(i, w, v) =>
      At(s, i) && s.senders[i].Writing? && InBody(s.senders[i].b, maxSize, w) &&
      s' == s.(sh := WriteWord(s.sh, w, v))
    case SetSize(i, size) =>
      At(s, i) && s.senders[i].Writing? && size <= maxSize && size < WORD_LIMIT && var b := s.senders[i].b;
      s' == SetSender(s, i, Sized(Composed(s, b, size))).(sh := WriteWord(s.sh, HeaderOf(b), size))
    case Trim(i) =>
      At(s, i) && s.senders[i].Sized? && var msg := s.senders[i].msg; var left := Trimmed(msg.b, WordsFor(msg.size));
      && Trims(s.sh, s'.sh, msg.b, WordsFor(msg.size))
      && s' == SetSender(s, i, Ready(msg.(b := left))).(sh := s'.sh, owner := (s.owner - {msg.b})[left := Writer(i)])
    case Append(i) =>
      At(s, i) && s.senders[i].Ready? && OffsetOf(s.senders[i].msg.b) < WORD_LIMIT && var msg := s.senders[i].msg;
      if s.sh.last != NULL_OFFSET && !InArena(s.sh.mem, s.sh.last) then s' == s.(crashed := true)
      else s' == SetSender(s, i, Appended).(sh := ShmSteps.Append(s.sh, OffsetOf(msg.b)),
                                            sent := s.sent + [msg], owner := s.owner[msg.b := Queued(|s.sent|)])
    case Count(i) =>
      At(s, i) && s.senders[i].Appended? &&
      s' == SetSender(s, i, Counted).(sh := CountIn(s.sh))
    case Wake(i) =>
      At(s, i) && s.senders[i].Counted? &&
      s' == SetSender(s, i, Idle).(wait := if s.wait == Asleep then Fired else s.wait)
    case Cancel(i) =>
      At(s, i) && s.senders[i].Writing? &&
      s' == SetSender(s, i, Idle).(owner := s.owner[s.senders[i].b := Dropped])
    case _ => false
  }

  ghost predicate ReceiverStep(s: State, action: Action, s': State) {
    match action
    case Load => s.receiver.Outside? && s' == if s.sh.num == 0 then s else s.(receiver := Loaded)
    case ReadHead =>
      s.receiver.Loaded? &&
      s' == if s.sh.first == NULL_OFFSET || !InArena(s.sh.mem, s.sh.first) then s.(crashed := true)
            else s.(receiver := HeadRead(s.sh.first))
    case Unlink =>
      s.receiver.HeadRead? && var o := s.receiver.o; var after := s.(sh := UnlinkHead(s.sh, o), receiver := Unlinked(o));
      s' == if s.taken < |s.sent|
            then after.(taken := s.taken + 1, inHand := s.inHand[o as nat := s.taken],
                        owner := s.owner[s.sent[s.taken].b := Reading(s.taken)])
            else after
    case Uncount =>
      s.receiver.Unlinked? &&
      s' == s.(sh := CountOut(s.sh), receiver := Outside, held := s.held + {s.receiver.o as nat})
    case Release(b) =>
      OffsetOf(b) in s.held && Live(s.sh.heap, b) && Frees(s.sh, s'.sh, b) &&
      s' == s.(sh := s'.sh, held := s.held - {OffsetOf(b)}, inHand := s.inHand - {OffsetOf(b)}, owner := s.owner - {b},
               crashed := b.End() == |s.sh.mem|)
    case Arm => s.wait.Unarmed? && s' == s.(wait := if s.sh.num == 0 then Asleep else Fired)
    case Interrupt => s.wait.Asleep? && s' == s.(wait := Fired)
    case Handle => s.wait.Fired? && s' == s.(wait := Unarmed)
    case _ => false
  }

  ghost predicate Step(s: State, maxSize: nat, action: Action, s': State) {
    !s.crashed && (SenderStep(s, maxSize, action, s') || ReceiverStep(s, action, s'))
  }

  /** A region in which 2^32 messages do not fit, so that the 32-bit counter cannot wrap. */
  predicate Countable(m: Memory) {
    |m| < LEAST_BLOCK * COUNTER_LIMIT
  }

  ghost predicate Start(s: State) {
    && Holds(s.sh.mem, s.sh.heap) && s.sh.heap == Fresh(|s.sh.mem|) && Countable(s.sh.mem)
    && s.sh.first == s.sh.last == NULL_OFFSET && s.sh.num == 0
    && (forall i :: 0 <= i < |s.senders| ==> s.senders[i] == Idle)
    && s.receiver == Outside && s.held == {} && s.wait == Unarmed && !s.crashed
    && s.sent == [] && s.taken == 0 && s.inHand == map[] && s.owner == map[]
  }

  // ----- The invariant -----

  /** The owned blocks are exactly the live ones. */
  ghost predicate OwnsLive(owner: map<Block, Owner>, heap: Heap) {
    forall b :: b in owner <==> Live(heap, b)
  }

  /** A sender owns exactly the block it works on. */
  ghost predicate OwnsWriters(owner: map<Block, Owner>, senders: seq<Sender>) {
    && (forall i, b :: 0 <= i < |senders| && senders[i].Holds(b) ==> b in owner && owner[b] == Writer(i))
    && (forall b :: b in owner && owner[b].Writer? ==> owner[b].i < |senders| && senders[owner[b].i].Holds(b))
  }

  /** The messages on the list are the sent ones not yet taken, each in a block of its own. */
  ghost predicate OwnsQueued(owner: map<Block, Owner>, sent: seq<Msg>, taken: nat) {
    && taken <= |sent|
    && (forall n :: taken <= n < |sent| ==> sent[n].b in owner && owner[sent[n].b] == Queued(n))
    && (forall b :: b in owner && owner[b].Queued? ==> taken <= owner[b].n < |sent| && sent[owner[b].n].b == b)
  }

  /** The blocks being read are those behind the offsets the receiver holds. */
  ghost predicate OwnsRead(owner: map<Block, Owner>, sent: seq<Msg>, taken: nat, inHand: map<nat, nat>) {
    && (forall o :: o in inHand ==> InHand(owner, sent, taken, o, inHand[o]))
    && (forall b :: b in owner && owner[b].Reading? ==> OffsetOf(b) in inHand && inHand[OffsetOf(b)] == owner[b].n)
  }

  ghost predicate InHand(owner: map<Block, Owner>, sent: seq<Msg>, taken: nat, o: nat, n: nat) {
    && n < taken <= |sent| && OffsetOf(sent[n].b) == o
    && sent[n].b in owner && owner[sent[n].b] == Reading(n)
  }

  ghost predicate Hands(inHand: map<nat, nat>, held: set<nat>, receiver: Receiver) {
    && inHand.Keys == held + (if receiver.Unlinked? then {receiver.o as nat} else {})
    && (receiver.Unlinked? ==> receiver.o as nat !in held)
  }

  /** What is in memory for a sender's message. */
  ghost predicate SenderMemory(m: Memory, h: Heap, maxSize: nat, pc: Sender) {
    match pc
    case Given(b) => b.size >= AllocWords(maxSize)
    case Writing(b) =>
      b.size >= AllocWords(maxSize) && Peek(m, HeaderOf(b)) == maxSize && NextOf(m, b) == NULL_OFFSET
    case Sized(msg) => Stored(m, h, msg) && NextOf(m, msg.b) == NULL_OFFSET
    case Ready(msg) => Stored(m, h, msg) && NextOf(m, msg.b) == NULL_OFFSET
    case _ => true
  }

  ghost predicate SendersMemory(m: Memory, h: Heap, maxSize: nat, senders: seq<Sender>) {
    forall i :: 0 <= i < |senders| ==> SenderMemory(m, h, maxSize, senders[i])
  }

  /** The link to message `n` of the log: its offset, or NULL behind the last message. */
  function OffsetAt(sent: seq<Msg>, n: nat): nat {
    if n < |sent| then OffsetOf(sent[n].b) else NULL_OFFSET
  }

  /** The words of the queued messages are in memory, and each is linked to the next. */
  ghost predicate QueueMemory(m: Memory, h: Heap, sent: seq<Msg>, taken: nat) {
    && (forall n :: taken <= n < |sent| ==> Stored(m, h, sent[n]))
    && (forall n :: taken < n <= |sent| ==> NextOf(m, sent[n - 1].b) == OffsetAt(sent, n))
  }

  ghost predicate ReadMemory(m: Memory, h: Heap, sent: seq<Msg>, inHand: map<nat, nat>) {
    forall o :: o in inHand && inHand[o] < |sent| ==> Stored(m, h, sent[inHand[o]])
  }

  /** The ends of the list. */
  ghost predicate Ends(first: Word, last: Word, sent: seq<Msg>, taken: nat) {
    && first == OffsetAt(sent, taken)
    && last == if taken < |sent| then OffsetOf(sent[|sent| - 1].b) else NULL_OFFSET
  }

  ghost predicate HeadKnown(receiver: Receiver, sent: seq<Msg>, taken: nat) {
    receiver.HeadRead? ==> taken < |sent| && receiver.o == OffsetOf(sent[taken].b)
  }

  function Uncounted(senders: seq<Sender>): nat {
    if senders == [] then 0 else (if senders[0].Appended? then 1 else 0) + Uncounted(senders[1..])
  }

  /** Messages on the list, and one unlinked but not yet counted out, are counted or about to be. */
  ghost predicate Counter(num: nat, queued: int, receiver: Receiver, uncounted: nat) {
    && num < COUNTER_LIMIT
    && queued + (if receiver.Unlinked? then 1 else 0) == num + uncounted
    && (!receiver.Outside? ==> num > 0)
  }

  /** If the receiver sleeps on a non-zero counter, some sender is about to wake it. */
  ghost predicate Awake(wait: Wait, num: nat, senders: seq<Sender>) {
    wait == Asleep && num != 0 ==> exists i :: 0 <= i < |senders| && senders[i] == Counted
  }

  ghost predicate Owned(s: State) {
    && OwnsLive(s.owner, s.sh.heap) && OwnsWriters(s.owner, s.senders) && OwnsQueued(s.owner, s.sent, s.taken)
    && OwnsRead(s.owner, s.sent, s.taken, s.inHand) && Hands(s.inHand, s.held, s.receiver)
  }

  ghost predicate InMemory(s: State, maxSize: nat) {
    && Holds(s.sh.mem, s.sh.heap) && Countable(s.sh.mem) && SendersMemory(s.sh.mem, s.sh.heap, maxSize, s.senders)
    && QueueMemory(s.sh.mem, s.sh.heap, s.sent, s.taken) && ReadMemory(s.sh.mem, s.sh.heap, s.sent, s.inHand)
  }

  ghost predicate Listed(s: State) {
    Ends(s.sh.first, s.sh.last, s.sent, s.taken) && HeadKnown(s.receiver, s.sent, s.taken)
  }

  ghost predicate Inv(s: State, maxSize: nat) {
    && Owned(s) && InMemory(s, maxSize) && Listed(s)
    && Counter(s.sh.num, |s.sent| - s.taken, s.receiver, Uncounted(s.senders))
    && Awake(s.wait, s.sh.num, s.senders)
  }
}
