/** The write events of src/uds/event_manager_uds.c: when a transport waits for one, over every run. */
module UdsEvents {
  import opened UdsFrames
  import opened UdsQueue

  /** A message is sent; a write event is interrupted; or it completes, the socket replies, and the write loop
      returns `left`. */
  datatype Turn = Sends(body: Bytes) | Interrupted | Fires(replies: seq<Reply>, left: int)

  /** The queue, and how many write events are submitted and not yet completed. */
  datatype Sending = Sending(queue: seq<Out>, armed: nat)

  ghost predicate TurnStep(s: Sending, turn: Turn, s': Sending) {
    match turn
    case Sends(body) => s' == Sending(s.queue + [Out(body, false)], s.armed + if s.queue == [] then 1 else 0)
    case Interrupted => s.armed > 0 && s' == s
    case Fires(replies, left) =>
      && s.armed > 0 && Writes(s.queue, replies, s'.queue, left)
      && s'.armed == s.armed - 1 + if left > 0 then 1 else 0
  }

  ghost predicate Turns(states: seq<Sending>, turns: seq<Turn>) {
    && |states| == |turns| + 1 && states[0] == Sending([], 0)
    && forall k, j :: 0 <= k < |turns| && j == k + 1 ==> TurnStep(states[k], turns[k], states[j])
  }

  /** The socket has refused a `send`. */
  predicate Refused(turn: Turn) {
    turn.Fires? && exists k :: 0 <= k < |turn.replies| && turn.replies[k].n == -1
  }

  predicate RefusedBefore(turns: seq<Turn>, n: nat)
    requires n <= |turns|
  {
    exists k :: 0 <= k < n && Refused(turns[k])
  }

  lemma {:induction false} ReachesTaken(queue: seq<Out>, replies: seq<Reply>, queue': seq<Out>)
    requires Reaches(queue, replies, queue')
    ensures forall k :: 0 <= k < |replies| ==> replies[k].n >= 0
    decreases |replies|
  {
    if replies != [] {
      var first := replies[..|replies| - 1];
      var q := LastPass(queue, replies, queue');
      ReachesTaken(queue, first, q);
      forall k | 0 <= k < |first| ensures replies[k].n >= 0 { assert replies[k] == first[k]; }
    }
  }

  /** The loop returns -1 exactly if the socket refused a `send`. */
  lemma RefusedIff(queue: seq<Out>, replies: seq<Reply>, queue': seq<Out>, left: int)
    requires Writes(queue, replies, queue', left)
    ensures Refused(Fires(replies, left)) <==> left == -1
  {
    var q := LastReply(queue, replies, queue', left);
    if left == 0 {
      ReachesTaken(queue, replies, queue');
    } else {
      var first := replies[..|replies| - 1];
      ReachesTaken(queue, first, q);
      forall k | 0 <= k < |first| ensures replies[k].n >= 0 { assert replies[k] == first[k]; }
    }
  }

  lemma TurnArms(s: Sending, turn: Turn, s': Sending, refused: bool)
    requires TurnStep(s, turn, s') && s.armed == (if s.queue == [] || refused then 0 else 1)
    requires refused ==> s.queue != []
    ensures var refused' := refused || Refused(turn);
      s'.armed == (if s'.queue == [] || refused' then 0 else 1) && (refused' ==> s'.queue != [])
  {
    if turn.Fires? {
      RefusedIff(s.queue, turn.replies, s'.queue, turn.left);
      WritesLeaves(s.queue, turn.replies, s'.queue, turn.left);
    }
  }

  /** In every state of every run a write event is waited for exactly while messages are queued and the socket has not
      refused a `send`. Messages are stuck in the queue if and only if it has. */
  lemma {:induction false} ArmedExactly(states: seq<Sending>, turns: seq<Turn>, n: nat)
    requires Turns(states, turns) && n <= |turns|
    ensures states[n].armed == if states[n].queue == [] || RefusedBefore(turns, n) then 0 else 1
    ensures states[n].queue != [] && states[n].armed == 0 <==> RefusedBefore(turns, n)
  {
    if n > 0 {
      ArmedExactly(states, turns, n - 1);
      TurnArms(states[n - 1], turns[n - 1], states[n], RefusedBefore(turns, n - 1));
    }
  }

  /** From then on nothing is written any more: no event completes, and the queue only grows. */
  lemma {:induction false} StuckForEver(states: seq<Sending>, turns: seq<Turn>, n: nat, m: nat)
    requires Turns(states, turns) && n <= m <= |turns| && RefusedBefore(turns, n)
    ensures forall k :: n <= k < m ==> turns[k].Sends?
    ensures states[m].armed == 0 && states[n].queue <= states[m].queue && |states[m].queue| == |states[n].queue| + m - n
    decreases m - n
  {
    ArmedExactly(states, turns, n);
    if n < m {
      assert TurnStep(states[n], turns[n], states[n + 1]);
      StuckForEver(states, turns, n + 1, m);
    }
  }

  lemma OneRefusal(queue: seq<Out>)
    requires queue != []
    ensures var r := Reply(Offer(queue), -1);
      Writes(queue, [r], queue, -1) && Refused(Fires([r], -1))
  {
    hide Reaches;
    var r := Reply(Offer(queue), -1);
    ReachesSelf(queue);
    WritesLast(queue, [], queue, r, queue, -1);
    assert [] + [r] == [r];
    assert Fires([r], -1).replies[0].n == -1;
  }

  /** One message, one refusal, and the next message is not written either. */
  lemma RefusalSticks(body: Bytes, next: Bytes)
    ensures var queued := [Out(body, false)]; var refusal := Fires([Reply(Header(|body|), -1)], -1);
      && Refused(refusal)
      && Turns([Sending([], 0), Sending(queued, 1), Sending(queued, 0), Sending(queued + [Out(next, false)], 0)],
               [Sends(body), refusal, Sends(next)])
  {
    hide Writes, Header, Refused;
    var queued := [Out(body, false)];
    assert [] + queued == queued;
    OneRefusal(queued);
  }
}
