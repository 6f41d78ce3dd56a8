/** Order and content of messages over every run of the arena: first in, first out, each exactly once, and read as
    they were written. */
module ShmDelivery {
  import opened Layout
  import opened Heaps
  import opened Region
  import opened ShmSteps
  import opened ShmProtocol
  import opened ShmInvariants
  import opened ShmQueue
  import opened ShmTheorems

  // ----- First in, first out, exactly once -----

  /** The messages appended in the first `k` steps. */
  ghost function AppendLog(states: seq<State>, actions: seq<Action>, k: nat): seq<Msg>
    requires k <= |actions| < |states|
  {
    if k == 0 then []
    else
      var s, action := states[k - 1], actions[k - 1];
      AppendLog(states, actions, k - 1)
      + if action.Append? && At(s, action.i) && s.senders[action.i].Ready? then [s.senders[action.i].msg] else []
  }

  /** The offsets unlinked in the first `k` steps. */
  ghost function UnlinkLog(states: seq<State>, actions: seq<Action>, k: nat): seq<nat>
    requires k <= |actions| < |states|
  {
    if k == 0 then []
    else
      var s, action := states[k - 1], actions[k - 1];
      UnlinkLog(states, actions, k - 1) + if action.Unlink? && s.receiver.HeadRead? then [s.receiver.o] else []
  }

  function Offsets(msgs: seq<Msg>): (os: seq<nat>)
    ensures |os| == |msgs| && forall n :: 0 <= n < |msgs| ==> os[n] == OffsetOf(msgs[n].b)
  {
    if msgs == [] then [] else [OffsetOf(msgs[0].b)] + Offsets(msgs[1..])
  }

  /** The list as it is in memory, from offset `o` on, at most `fuel` messages of it. */
  function Walk(m: Memory, o: Word, fuel: nat): seq<nat>
    decreases fuel
  {
    if fuel == 0 || o == NULL_OFFSET then [] else [o] + Walk(m, Peek(m, FromOffset(o) + NEXT), fuel - 1)
  }

  /** Following the link of message `n` leads to message `n + 1`. */
  lemma WalkOne(s: State, maxSize: nat, n: nat, o: Word)
    requires Owned(s) && InMemory(s, maxSize) && s.taken <= n < |s.sent| && o == OffsetAt(s.sent, n)
    ensures o != NULL_OFFSET && o == OffsetOf(s.sent[n].b)
    ensures Peek(s.sh.mem, FromOffset(o) + NEXT) == OffsetAt(s.sent, n + 1)
  {
    QueuedFacts(s, maxSize, n);
    assert NextOf(s.sh.mem, s.sent[(n + 1) - 1].b) == OffsetAt(s.sent, n + 1);
    assert FromOffset(o) + NEXT == HeaderOf(s.sent[n].b) + NEXT;
  }

  lemma {:induction false} WalkQueue(s: State, maxSize: nat, n: nat, o: Word, fuel: nat)
    requires Owned(s) && InMemory(s, maxSize)
    requires s.taken <= n <= |s.sent| && o == OffsetAt(s.sent, n) && |s.sent| - n <= fuel
    ensures Walk(s.sh.mem, o, fuel) == Offsets(s.sent[n..])
    decreases |s.sent| - n
  {
    hide Owned, InMemory, Peek;
    if n < |s.sent| {
      WalkOne(s, maxSize, n, o);
      WalkQueue(s, maxSize, n + 1, Peek(s.sh.mem, FromOffset(o) + NEXT), fuel - 1);
      assert s.sent[n..][1..] == s.sent[n + 1..];
    }
  }

  /** What one step adds to the log of messages. */
  lemma SentStep(s: State, maxSize: nat, action: Action, s': State)
    requires Inv(s, maxSize) && Step(s, maxSize, action, s')
    ensures s'.sent == s.sent +
      if action.Append? && At(s, action.i) && s.senders[action.i].Ready? then [s.senders[action.i].msg] else []
  {
    hide InMemory, Listed, OwnsLive, OwnsWriters, OwnsQueued, OwnsRead, Hands, Counter, Awake, Allocates, Trims, Frees;
    if action.Append? { LastInArena(s, maxSize); }
  }

  /** The one step that takes a message off takes the oldest. */
  lemma TakenStep(s: State, maxSize: nat, action: Action, s': State)
    requires Inv(s, maxSize) && Step(s, maxSize, action, s')
    ensures action.Unlink? ==>
      s.receiver.HeadRead? && s'.taken == s.taken + 1 <= |s.sent| && s.receiver.o == OffsetOf(s.sent[s.taken].b)
    ensures !action.Unlink? ==> s'.taken == s.taken <= |s.sent|
  {
    hide InMemory, OwnsLive, OwnsWriters, OwnsRead, Hands, Counter, Awake, Allocates, Trims, Frees;
  }

  lemma OffsetsGrow(sent: seq<Msg>, sent': seq<Msg>, n: nat)
    requires n < |sent| && sent <= sent'
    ensures Offsets(sent'[..n]) == Offsets(sent[..n])
    ensures Offsets(sent'[..n + 1]) == Offsets(sent[..n]) + [OffsetOf(sent[n].b)]
  {
    assert sent'[..n] == sent[..n];
  }

  lemma TakenLog(s: State, maxSize: nat, action: Action, s': State)
    requires Inv(s, maxSize) && Step(s, maxSize, action, s')
    ensures s.taken <= |s.sent| && s'.taken <= |s'.sent|
    ensures Offsets(s'.sent[..s'.taken]) == Offsets(s.sent[..s.taken]) +
      if action.Unlink? && s.receiver.HeadRead? then [s.receiver.o as nat] else []
  {
    hide Step, Inv;
    SentStep(s, maxSize, action, s');
    TakenStep(s, maxSize, action, s');
    if action.Unlink? {
      OffsetsGrow(s.sent, s'.sent, s.taken);
    } else {
      assert s'.sent[..s'.taken] == s.sent[..s.taken];
    }
  }

  lemma {:induction false} LogsAre(states: seq<State>, actions: seq<Action>, maxSize: nat, k: nat)
    requires Run(states, actions, maxSize) && k <= |actions|
    ensures AppendLog(states, actions, k) == states[k].sent
    ensures states[k].taken <= |states[k].sent|
    ensures UnlinkLog(states, actions, k) == Offsets(states[k].sent[..states[k].taken])
  {
    hide Step, Inv;
    if k > 0 {
      var s, action, s' := states[k - 1], actions[k - 1], states[k];
      RunKeeps(states, actions, maxSize, k - 1);
      LogsAre(states, actions, maxSize, k - 1);
      assert Step(s, maxSize, action, s');
      SentStep(s, maxSize, action, s');
      TakenLog(s, maxSize, action, s');
    }
  }

  lemma ShortQueue(s: State, maxSize: nat)
    requires Owned(s) && InMemory(s, maxSize)
    ensures |s.sent| - s.taken < |s.sh.mem|
  {
    var blocks := QueuedBlocks(s.owner, s.sent, s.taken, |s.sent|);
    FewLive(s.sh.mem, s.sh.heap, blocks);
  }

  /** The list in memory is what was sent and not taken, and `last` is its end. */
  lemma ListIs(s: State, maxSize: nat)
    requires Inv(s, maxSize)
    ensures var list := Walk(s.sh.mem, s.sh.first, |s.sh.mem|);
      && s.taken <= |s.sent| && list == Offsets(s.sent[s.taken..]) && |list| < |s.sh.mem|
      && s.sh.last == if list == [] then NULL_OFFSET else list[|list| - 1]
  {
    ShortQueue(s, maxSize);
    WalkQueue(s, maxSize, s.taken, s.sh.first, |s.sh.mem|);
  }

  /** In every reachable state the messages on the list, and one just taken off, are those counted and those about to be;
      and the 32-bit counter has not wrapped. */
  lemma CounterBalance(s: State, maxSize: nat)
    requires Reachable(s, maxSize)
    ensures var list := Walk(s.sh.mem, s.sh.first, |s.sh.mem|);
      |list| + (if s.receiver.Unlinked? then 1 else 0) == s.sh.num + Uncounted(s.senders)
    ensures s.sh.num < COUNTER_LIMIT
  {
    ReachableInv(s, maxSize);
    ListIs(s, maxSize);
  }

  /** What has been taken off, followed by what is on the list in memory, is what was appended, in that order; and
      `last` is the end of the list. */
  lemma FirstInFirstOut(states: seq<State>, actions: seq<Action>, maxSize: nat, k: nat)
    requires Run(states, actions, maxSize) && k <= |actions|
    ensures var sh := states[k].sh; var list := Walk(sh.mem, sh.first, |sh.mem|);
      && UnlinkLog(states, actions, k) + list == Offsets(AppendLog(states, actions, k))
      && |list| < |sh.mem|
      && sh.last == if list == [] then NULL_OFFSET else list[|list| - 1]
  {
    hide Start, Step, Inv, Walk, Offsets;
    var s := states[k];
    RunKeeps(states, actions, maxSize, k);
    LogsAre(states, actions, maxSize, k);
    ListIs(s, maxSize);
    OffsetsOfParts(s.sent, s.taken);
  }

  lemma {:induction false} OffsetsOfParts(msgs: seq<Msg>, n: nat)
    requires n <= |msgs|
    ensures Offsets(msgs[..n]) + Offsets(msgs[n..]) == Offsets(msgs)
  {
    if n == 0 {
      assert msgs[..0] == [] && msgs[0..] == msgs;
    } else {
      OffsetsOfParts(msgs[1..], n - 1);
      assert msgs[..n][1..] == msgs[1..][..n - 1] && msgs[n..] == msgs[1..][n - 1..];
    }
  }

  // ----- End to end -----

  /** Sender `i` sets the size, and `msg.body` are the words of its body. */
  predicate Composes(s: State, action: Action, i: nat, msg: Msg) {
    && action == SetSize(i, msg.size) && At(s, i) && s.senders[i].Writing?
    && s.senders[i].b.off == msg.b.off && msg.body == Slice(s.sh.mem, BodyOf(s.senders[i].b), Align(msg.size))
  }

  /** Sender `i` is about to send `msg`; its block may be still to be trimmed. */
  predicate Carries(s: State, i: nat, msg: Msg) {
    At(s, i) && match s.senders[i]
    case Sized(m) => m.b.off == msg.b.off && m.size == msg.size && m.body == msg.body
    case Ready(m) => m.b.off == msg.b.off && m.size == msg.size && m.body == msg.body
    case _ => false
  }

  /** A sender carries a message because it did before or because it composes it now. */
  lemma CarriesStep(s: State, maxSize: nat, action: Action, s': State, i: nat, msg: Msg)
    requires Step(s, maxSize, action, s') && Carries(s', i, msg)
    ensures Carries(s, i, msg) || Composes(s, action, i, msg)
  {
    hide Allocates, Trims, Frees;
    if SenderStep(s, maxSize, action, s') {
      if action.SetSize? && action.i == i { assert BodyOf(s.senders[i].b) == BodyOf(msg.b); }
    }
  }

  lemma {:induction false} ComposedBefore(states: seq<State>, actions: seq<Action>, maxSize: nat, k: nat, i: nat,
                                          msg: Msg)
    returns (j: nat)
    requires Run(states, actions, maxSize) && k <= |actions| && Carries(states[k], i, msg)
    ensures j < k && Composes(states[j], actions[j], i, msg)
    ensures forall q :: j < q <= k ==> Carries(states[q], i, msg)
  {
    hide Step;
    if k > 0 {
      assert Step(states[k - 1], maxSize, actions[k - 1], states[k]);
      CarriesStep(states[k - 1], maxSize, actions[k - 1], states[k], i, msg);
      if Carries(states[k - 1], i, msg) {
        j := ComposedBefore(states, actions, maxSize, k - 1, i, msg);
      } else {
        j := k - 1;
      }
    }
  }

  /** Message `n` of the log was appended at step `a`. */
  lemma {:induction false} AppendedAt(states: seq<State>, actions: seq<Action>, k: nat, n: nat) returns (a: nat)
    requires k <= |actions| < |states| && n < |AppendLog(states, actions, k)|
    ensures a < k && |AppendLog(states, actions, a)| == n && actions[a].Append?
    ensures var i := actions[a].i; At(states[a], i) && states[a].senders[i] == Ready(AppendLog(states, actions, k)[n])
  {
    if n < |AppendLog(states, actions, k - 1)| {
      a := AppendedAt(states, actions, k - 1, n);
    } else {
      a := k - 1;
    }
  }

  lemma StoredReads(m: Memory, h: Heap, msg: Msg, o: nat)
    requires Stored(m, h, msg) && o == OffsetOf(msg.b)
    ensures Peek(m, FromOffset(o)) == msg.size
    ensures FromOffset(o) >= 0 && Slice(m, FromOffset(o) + MESSAGE_HEADER, Align(msg.size)) == msg.body
  {
  }

  /** For every offset `o` in the reader's hands: it is the one the list gave out as number `n`, and message `n` was
      appended at step `a`; its body had been composed by the same sender at step `j`, and the sender carried it since;
      and its size and those words are what the reader finds now. */
  lemma EndToEnd(states: seq<State>, actions: seq<Action>, maxSize: nat, k: nat, o: nat) returns (n: nat, a: nat, j: nat)
    requires Run(states, actions, maxSize) && k <= |actions| && o in states[k].held
    ensures n < |UnlinkLog(states, actions, k)| <= |AppendLog(states, actions, k)|
    ensures UnlinkLog(states, actions, k)[n] == o
    ensures j < a < k && |AppendLog(states, actions, a)| == n && actions[a].Append?
    ensures var m, msg, i := states[k].sh.mem, AppendLog(states, actions, k)[n], actions[a].i;
      && OffsetOf(msg.b) == o && At(states[a], i) && states[a].senders[i] == Ready(msg)
      && Composes(states[j], actions[j], i, msg) && (forall q :: j < q <= a ==> Carries(states[q], i, msg))
      && Peek(m, FromOffset(o)) == msg.size
      && Slice(m, FromOffset(o) + MESSAGE_HEADER, Align(msg.size)) == msg.body
  {
    hide Start, Step, Align, Holds, QueueMemory, SendersMemory;
    var s := states[k];
    RunKeeps(states, actions, maxSize, k);
    LogsAre(states, actions, maxSize, k);
    HeldFacts(s, o);
    n := s.inHand[o];
    a := AppendedAt(states, actions, k, n);
    j := ComposedBefore(states, actions, maxSize, a, actions[a].i, s.sent[n]);
    StoredReads(s.sh.mem, s.sh.heap, s.sent[n], o);
  }
}
