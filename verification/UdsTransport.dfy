/** src/uds/transport_uds.c and the write events of src/uds/event_manager_uds.c. */
module UdsTransport {
  import opened UdsFrames
  import opened UdsQueue
  import opened UdsHistory
  import opened UdsEvents
  import opened UdsIntake
  import opened Wrappers

  /** One direction of the socket pair: everything ever sent, of which the other end has taken the first `taken` bytes.
      How much a call moves is up to the kernel. */
  class Stream {
    var sent: Bytes
    var taken: nat

    ghost var replies: seq<Reply>    // what the calls of `send` returned
    ghost var asks: seq<Ask>         // what the calls of `recv` returned

    ghost predicate Valid()
      reads this
    {
      taken <= |sent|
    }

    constructor ()
      ensures Valid() && sent == [] && taken == 0 && replies == [] && asks == []
    {
      sent, taken, replies, asks := [], 0, [], [];
    }

    /** `send`: -1, or the number of bytes taken over. */
    method Send(data: Bytes) returns (n: int)
      requires Valid()
      modifies `sent, `replies
      ensures Valid() && -1 <= n <= |data| && replies == old(replies) + [Reply(data, n)]
      ensures n == -1 ==> sent == old(sent)
      ensures n >= 0 ==> sent == old(sent) + data[..n]
    {
      n :| -1 <= n <= |data|;
      if n != -1 { sent := sent + data[..n]; }
      replies := replies + [Reply(data, n)];
    }

    /** `recv` of up to `size` bytes: -1, or some of the bytes that are there; with `peek` they stay there. */
    method Recv(size: nat, peek: bool) returns (n: int, data: Bytes)
      requires Valid()
      modifies `taken, `asks
      ensures Valid() && -1 <= n <= size && old(taken) + n <= |sent| && asks == old(asks) + [Ask(size, peek, n)]
      ensures n == -1 ==> data == [] && taken == old(taken)
      ensures n >= 0 ==> data == sent[old(taken)..old(taken) + n] && taken == old(taken) + if peek then 0 else n
    {
      n :| -1 <= n <= size && n <= |sent| - taken;
      asks := asks + [Ask(size, peek, n)];
      if n == -1 {
        return -1, [];
      }
      data := sent[taken..taken + n];
      if !peek { taken := taken + n; }
    }

    /** `recv` of bytes that a peek has just seen. */
    method Pop(size: nat)
      requires Valid() && taken + size <= |sent|
      modifies `taken, `asks
      ensures Valid() && taken == old(taken) + size && asks == old(asks) + [Ask(size, false, size)]
    {
      taken := taken + size;
      asks := asks + [Ask(size, false, size)];
    }
  }

  /** With at most `peak` writers open at once, queue and writers together stay below the limit plus `peak`. */
  predicate Bounded(total: nat, max: nat, peak: nat) {
    total == 0 || total <= max - 1 + peak
  }

  class Transport {
    const output: Stream
    const input: Stream
    const maxBufferedMessages: nat

    var queue: seq<Out>
    var count: nat

    /** Write events submitted and not yet completed. */
    var armed: nat

    var incoming: In

    ghost var delivered: seq<Bytes>    // every message given to the client
    ghost var log: seq<Bytes>          // every message sent
    ghost var history: seq<Event>      // the messages sent and the replies of the socket, as they came
    ghost var failed: bool             // a `send` has returned -1
    ghost var writers: nat             // writers handed out and neither sent nor cancelled
    ghost var peak: nat                // most of them at any time

    /** Queue and stream are what the history amounts to. */
    ghost predicate Recorded()
      reads this, output
    {
      && output.Valid() && count == |queue| && Possible(history)
      && queue == Replay(history) && log == Bodies(history)
      && output.sent == Emitted(history) && output.replies == Replies(history)
    }

    ghost function State(): Sending
      reads this
    {
      Sending(queue, armed)
    }

    ghost predicate Valid()
      reads this, output
    {
      && Recorded()
      && armed == (if queue == [] || failed then 0 else 1) && (failed ==> queue != [])
      && writers <= peak && Bounded(count + writers, maxBufferedMessages, peak)
    }

    constructor (output: Stream, input: Stream, maxBufferedMessages: nat)
      requires output.Valid() && output.sent == [] && output.replies == []
      ensures Valid() && this.output == output && this.input == input && this.maxBufferedMessages == maxBufferedMessages
      ensures queue == [] && log == [] && history == [] && !failed && writers == 0 && peak == 0
      ensures incoming == Empty && delivered == []
    {
      this.output, this.input, this.maxBufferedMessages := output, input, maxBufferedMessages;
      incoming, delivered := Empty, [];
      queue, count, armed := [], 0, 0;
      log, history, failed, writers, peak := [], [], false, 0, 0;
    }

    // ----- Writers -----

    /** A writer, unless the queue is full. */
    method MessageInit() returns (ok: bool)
      requires Valid()
      modifies `writers, `peak
      ensures Valid() && ok == (count < maxBufferedMessages)
      ensures writers == old(writers) + if ok then 1 else 0
      ensures peak == if writers > old(peak) then writers else old(peak)
    {
      ok := count < maxBufferedMessages;
      if ok {
        writers := writers + 1;
        if writers > peak { peak := writers; }
      }
    }

    method MessageCancel()
      requires Valid() && writers > 0
      modifies `writers
      ensures Valid() && writers == old(writers) - 1
    {
      writers := writers - 1;
    }

    method Enqueue(body: Bytes)
      requires Recorded()
      modifies `queue, `count, `log, `history
      ensures Recorded() && queue == old(queue) + [Out(body, false)] && log == old(log) + [body]
      ensures history == old(history) + [Event.Queued(body)]
    {
      QueuedMore(history, body);
      queue := queue + [Out(body, false)];
      count := count + 1;
      log, history := log + [body], history + [Event.Queued(body)];
    }

    /** Queue a message, and ask for a write event if there was none to wait for. */
    method MessageSend(body: Bytes)
      requires Valid() && writers > 0
      modifies `queue, `count, `armed, `log, `history, `writers
      ensures Valid() && queue == old(queue) + [Out(body, false)] && log == old(log) + [body]
      ensures history == old(history) + [Event.Queued(body)] && writers == old(writers) - 1
      ensures TurnStep(old(State()), Sends(body), State())
    {
      if count == 0 {
        armed := armed + 1;
      }
      Enqueue(body);
      writers := writers - 1;
    }

    // ----- Writing -----

    /** The header of the first message. Whatever part of it the socket takes, the rest is left behind for good. */
    method SendHeader() returns (ok: bool, ghost r: Reply)
      requires Recorded() && queue != [] && !queue[0].headerSent
      modifies `queue, `history, output`sent, output`replies
      ensures Recorded() && history == old(history) + [Offered(r)]
      ensures output.sent == old(output.sent) + Taken(r)
      ensures ok == (r.n != -1) && Shortfall(history) == Shortfall(old(history)) + if ok then HEADER - r.n else 0
      ensures if ok then Passes(old(queue), r, queue) else Returns(old(queue), r, queue, -1)
      ensures |queue| == |old(queue)| && (ok ==> queue[0].headerSent)
    {
      var header := Header(|queue[0].data|);
      var bytesSent := output.Send(header);
      r := Reply(header, bytesSent);
      OfferedMore(history, r);
      history := history + [Offered(r)];
      if bytesSent == -1 {
        return false, r;
      }
      queue := queue[0 := Out(queue[0].data, true)];
      return true, r;
    }

    /** `more` is false if the message has gone out completely and left the queue. */
    method SendBody() returns (ok: bool, more: bool, ghost r: Reply)
      requires Recorded() && queue != [] && queue[0].headerSent
      modifies `queue, `count, `history, output`sent, output`replies
      ensures Recorded() && history == old(history) + [Offered(r)]
      ensures output.sent == old(output.sent) + Taken(r)
      ensures if ok && !more then Passes(old(queue), r, queue)
              else Returns(old(queue), r, queue, if ok then |queue| else -1)
      ensures |queue| == |old(queue)| - if ok && !more then 1 else 0
    {
      var data := queue[0].data;
      var bytesSent := output.Send(data);
      r := Reply(data, bytesSent);
      OfferedMore(history, r);
      history := history + [Offered(r)];
      if bytesSent == -1 {
        return false, false, r;
      }
      if bytesSent < |data| {
        queue := queue[0 := Out(data[bytesSent..], true)];
        return true, true, r;
      }
      queue := queue[1..];
      count := count - 1;
      return true, false, r;
    }

    /** One turn of the loop: the header of the first message, if it is still to come, and its body. `more` is false if
        the message has left the queue. */
    method SendFirst() returns (ok: bool, more: bool, ghost replies: seq<Reply>)
      requires Recorded() && queue != []
      modifies `queue, `count, `history, output`sent, output`replies
      ensures Recorded() && old(output.sent) <= output.sent && history == old(history) + Offers(replies)
      ensures if ok && !more then Reaches(old(queue), replies, queue)
              else Writes(old(queue), replies, queue, if ok then |queue| else -1)
      ensures |queue| == |old(queue)| - if ok && !more then 1 else 0
    {
      ghost var before, start, r := history, queue, Reply([], 0);
      replies := [];
      if !queue[0].headerSent {
        ok, r := SendHeader();
        OneReply(before, start, r, queue, -1);
        replies := [r];
        if !ok {
          return false, false, replies;
        }
      }
      ghost var now, next := history, queue;
      ok, more, r := SendBody();
      OneReply(now, next, r, queue, if ok then |queue| else -1);
      if replies == [] {
        replies := [r];
      } else {
        TwoReplies(before, start, replies[0], next, r, queue, if ok then |queue| else -1);
        replies := [replies[0], r];
      }
    }

    /** Write until the queue is empty, the stream takes no more, or it fails: -1, or the number of messages left. */
    method WriteMessages() returns (left: int, ghost replies: seq<Reply>)
      requires Recorded()
      modifies `queue, `count, `history, output`sent, output`replies
      ensures Recorded() && old(output.sent) <= output.sent
      ensures history == old(history) + Offers(replies) && Writes(old(queue), replies, queue, left)
      ensures left == 0 ==> (output.sent == Frames(log) <==> WholeHeaders(history))
      ensures TookAll(replies) ==> left == 0 && queue == [] && output.sent == old(output.sent) + Pending(old(queue))
    {
      ghost var before, start := history, queue;
      replies := [];
      assert before + Offers([]) == before;
      ReachesSelf(queue);
      while queue != []
        invariant Recorded() && old(output.sent) <= output.sent
        invariant history == before + Offers(replies) && Reaches(start, replies, queue)
        decreases |queue|
      {
        ghost var next, now := queue, replies;
        var ok, more;
        ok, more, replies := SendFirst();
        OffersBoth(before, now, replies);
        if !ok || more {
          WritesAfter(start, now, next, replies, queue, if ok then |queue| else -1);
          TookAllWrites(before, now + replies, queue, if ok then |queue| else -1);
          return if ok then count else -1, now + replies;
        }
        ReachesAfter(start, now, next, replies, queue);
        replies := now + replies;
      }
      WritesAll(start, replies);
      TookAllWrites(before, replies, queue, 0);
      StreamIsFrames(history);
      Drained(output.sent);
      return count, replies;
    }

    /** A write event has completed; `again` says that it was interrupted. */
    method HandleWriteable(again: bool) returns (ghost left: int, ghost replies: seq<Reply>)
      requires Valid() && armed > 0
      modifies `queue, `count, `armed, `history, `failed, output`sent, output`replies
      ensures Valid() && old(output.sent) <= output.sent && history == old(history) + Offers(replies)
      ensures if again then replies == [] && queue == old(queue) && armed == old(armed)
              else Writes(old(queue), replies, queue, left) && failed == (left == -1)
      ensures TurnStep(old(State()), if again then Interrupted else Fires(replies, left), State())
    {
      hide Possible, Offers, Writes, WholeHeaders, Emitted, Replay, Bodies, Replies;
      armed := armed - 1;
      if again {
        armed := armed + 1;
        NoOffers(history);
        return 0, [];
      }
      var remaining;
      remaining, replies := WriteMessages();
      left := remaining;
      WritesLeaves(old(queue), replies, queue, left);
      if remaining > 0 {
        armed := armed + 1;
      }
      failed := left == -1;
      return left, replies;
    }

    // ----- Receiving -----

    ghost predicate Receiving()
      reads this, input
    {
      input.Valid() && (incoming.Partial? ==> |incoming.got| <= incoming.size)
    }

    method ReceiveBody() returns (msg: Option<Bytes>, ghost ask: Ask)
      requires Receiving() && incoming.Partial?
      modifies `incoming, `delivered, input`taken, input`asks
      ensures Receiving() && input.asks == old(input.asks) + [ask]
      ensures Answer(input.sent, old(input.taken), old(incoming), ask)
      ensures Took(input.taken, incoming, msg, false) == BodyIntake(input.sent, old(input.taken), old(incoming), ask.n)
      ensures delivered == old(delivered) + if msg.Some? then [msg.value] else []
    {
      var bytesReceived, data := input.Recv(incoming.size - |incoming.got|, false);
      ask := Ask(incoming.size - |incoming.got|, false, bytesReceived);
      if bytesReceived <= 0 {
        return None, ask;
      }
      incoming := Partial(incoming.size, incoming.got + data);
      if |incoming.got| < incoming.size {
        return None, ask;
      }
      delivered := delivered + [incoming.got];
      return Some(incoming.got), ask;
    }

    /** The next message, if the rest of it is there. `bad` reports a wrong magic byte. */
    method MessageReceive() returns (msg: Option<Bytes>, bad: bool, ghost asks: seq<Ask>)
      requires Receiving()
      modifies `incoming, `delivered, input`taken, input`asks
      ensures Receiving() && input.asks == old(input.asks) + asks
      ensures Answers(input.sent, old(input.taken), old(incoming), asks)
      ensures Took(input.taken, incoming, msg, bad) == Intake(input.sent, old(input.taken), old(incoming), asks)
      ensures Moves(input.sent, old(input.taken), old(incoming), asks, input.taken, bad)
      ensures delivered == old(delivered) + if msg.Some? then [msg.value] else []
    {
      hide Moves;
      asks := [];
      if incoming.Empty? {
        var bytesReceived, header := input.Recv(HEADER, true);
        asks := [Ask(HEADER, true, bytesReceived)];
        if bytesReceived != HEADER {
          IntakeMoves(input.sent, old(input.taken), old(incoming), asks);
          return None, false, asks;
        }
        assert header[0] == input.sent[input.taken];
        input.Pop(HEADER);
        asks := asks + [Ask(HEADER, false, HEADER)];
        if header[0] != MAGIC {
          IntakeMoves(input.sent, old(input.taken), old(incoming), asks);
          return None, true, asks;
        }
        incoming := Partial(LengthOf(header), []);
      }
      ghost var ask;
      msg, ask := ReceiveBody();
      asks := asks + [ask];
      IntakeMoves(input.sent, old(input.taken), old(incoming), asks);
      return msg, false, asks;
    }

    /** The client is done with the message it was given. */
    method MessageRelease()
      requires Receiving() && incoming.Partial? && |incoming.got| == incoming.size
      modifies `incoming
      ensures Receiving() && incoming == Empty
    {
      incoming := Empty;
    }
  }

  /** Whatever the sender does next leaves the receiver in step. */
  lemma Onwards(h: seq<Event>, more: seq<Event>, taken: nat, incoming: In, delivered: seq<Bytes>)
    requires Possible(h + more) && Emitted(h) <= Emitted(h + more) && Bodies(h) <= Bodies(h + more)
    requires WholeHeaders(h) && Deliverable(Bodies(h)) ==> InStep(Emitted(h), taken, incoming, Bodies(h), delivered)
    ensures WholeHeaders(h + more) && Deliverable(Bodies(h + more)) ==>
      InStep(Emitted(h + more), taken, incoming, Bodies(h + more), delivered)
  {
    if WholeHeaders(h + more) && Deliverable(Bodies(h + more)) {
      WholePrefix(h, more);
      assert Deliverable(Bodies(h));
      StreamIsFrames(h + more);
      StaysInStep(Emitted(h), taken, incoming, Bodies(h), delivered, Emitted(h + more), Bodies(h + more));
    }
  }

  /** One direction between two transports. */
  class Connection {
    const sender: Transport
    const receiver: Transport

    /** If the socket never took a header in part and every message can be delivered, the receiver is in step with the
        sender. */
    ghost predicate Valid()
      reads this, sender, receiver, sender.output, receiver.input
    {
      && sender != receiver && sender.output == receiver.input && sender.Valid() && receiver.Receiving()
      && (WholeHeaders(sender.history) && Deliverable(sender.log) ==>
        InStep(receiver.input.sent, receiver.input.taken, receiver.incoming, sender.log, receiver.delivered))
    }

    constructor (sender: Transport, receiver: Transport)
      requires sender != receiver && sender.output == receiver.input && sender.Valid() && receiver.Receiving()
      requires sender.history == [] && receiver.incoming == Empty && receiver.delivered == []
      requires receiver.input.taken == 0
      ensures Valid() && this.sender == sender && this.receiver == receiver
    {
      this.sender, this.receiver := sender, receiver;
    }

    method Send(body: Bytes)
      requires Valid() && sender.writers > 0
      modifies sender
      ensures Valid() && sender.history == old(sender.history) + [Queued(body)]
      ensures sender.log == old(sender.log) + [body] && receiver.delivered == old(receiver.delivered)
    {
      ghost var history := sender.history;
      sender.MessageSend(body);
      Onwards(history, [Queued(body)], receiver.input.taken, receiver.incoming, receiver.delivered);
    }

    method Write(again: bool) returns (ghost left: int, ghost replies: seq<Reply>)
      requires Valid() && sender.armed > 0
      modifies sender, sender.output`sent, sender.output`replies
      ensures Valid() && sender.history == old(sender.history) + Offers(replies)
      ensures if again then replies == [] else Writes(old(sender.queue), replies, sender.queue, left)
      ensures sender.log == old(sender.log) && receiver.delivered == old(receiver.delivered)
    {
      ghost var history := sender.history;
      left, replies := sender.HandleWriteable(again);
      Onwards(history, Offers(replies), receiver.input.taken, receiver.incoming, receiver.delivered);
    }

    method Receive() returns (msg: Option<Bytes>, bad: bool, ghost asks: seq<Ask>)
      requires Valid()
      modifies receiver, receiver.input`taken, receiver.input`asks
      ensures Valid() && receiver.delivered == old(receiver.delivered) + if msg.Some? then [msg.value] else []
      ensures receiver.input.asks == old(receiver.input.asks) + asks
      ensures Moves(receiver.input.sent, old(receiver.input.taken), old(receiver.incoming), asks,
                    receiver.input.taken, bad)
      ensures WholeHeaders(sender.history) && Deliverable(sender.log) ==> !bad && receiver.delivered <= sender.log
      ensures WholeHeaders(sender.history) && Deliverable(sender.log) ==>
        (GaveAll(asks) && !Complete(old(receiver.incoming)) ==>
          |old(receiver.delivered)| < |sender.log| && msg == Some(sender.log[|old(receiver.delivered)|]))
      ensures sender.history == old(sender.history) && sender.log == old(sender.log)
    {
      ghost var taken, incoming, delivered := receiver.input.taken, receiver.incoming, receiver.delivered;
      msg, bad, asks := receiver.MessageReceive();
      if WholeHeaders(sender.history) && Deliverable(sender.log) {
        ReceivesInStep(receiver.input.sent, taken, incoming, asks, sender.log, delivered);
      }
    }

    method Release()
      requires Valid() && receiver.incoming.Partial? && |receiver.incoming.got| == receiver.incoming.size
      modifies receiver
      ensures Valid() && receiver.delivered == old(receiver.delivered)
    {
      receiver.MessageRelease();
    }
  }
}
