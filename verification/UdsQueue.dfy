/** What the queue of outgoing messages still has to put on the stream. */
module UdsQueue {
  import opened UdsFrames

  /** A queued message: what is left of its body, and whether its header has been sent. */
  datatype Out = Out(data: Bytes, headerSent: bool)

  function Encoded(out: Out): Bytes {
    if out.headerSent then out.data else Frame(out.data)
  }

  function Pending(queue: seq<Out>): Bytes {
    if queue == [] then [] else Encoded(queue[0]) + Pending(queue[1..])
  }

  /** All the bytes of `log` are on the stream or still pending, except `lost` bytes of headers; and if none were lost,
      they are so in order. */
  ghost predicate Refines(emitted: Bytes, queue: seq<Out>, log: seq<Bytes>, lost: nat) {
    && |emitted| + |Pending(queue)| + lost == |Frames(log)|
    && (lost == 0 ==> emitted + Pending(queue) == Frames(log))
  }

  /** The stream and the queue make up the frames of the log exactly if no header was sent in part. */
  lemma NothingLost(emitted: Bytes, queue: seq<Out>, log: seq<Bytes>, lost: nat)
    requires Refines(emitted, queue, log, lost)
    ensures emitted + Pending(queue) == Frames(log) <==> lost == 0
  {
    assert |emitted + Pending(queue)| == |emitted| + |Pending(queue)|;
  }

  /** What is queued is the end of the message, all of it if the header is still to come. */
  ghost predicate LeftOf(out: Out, body: Bytes) {
    if out.headerSent then |out.data| <= |body| && out.data == body[|body| - |out.data|..] else out.data == body
  }

  /** The queue holds the last messages of `log`; only its head may have its header sent, and the others are whole. */
  ghost predicate Whole(queue: seq<Out>, log: seq<Bytes>) {
    && |queue| <= |log|
    && forall k :: 0 <= k < |queue| ==>
      LeftOf(queue[k], log[|log| - |queue| + k]) && (k > 0 ==> !queue[k].headerSent)
  }

  lemma {:induction false} PendingPush(queue: seq<Out>, out: Out)
    ensures Pending(queue + [out]) == Pending(queue) + Encoded(out)
  {
    if queue == [] {
      assert Pending([out]) == Encoded(out) + Pending([out][1..]);
    } else {
      PendingPush(queue[1..], out);
      assert (queue + [out])[1..] == queue[1..] + [out];
      Associative(Encoded(queue[0]), Pending(queue[1..]), Encoded(out));
    }
  }

  /** A new message goes to the end of the queue. */
  lemma PushRefines(emitted: Bytes, queue: seq<Out>, log: seq<Bytes>, lost: nat, body: Bytes)
    requires Refines(emitted, queue, log, lost)
    ensures Refines(emitted, queue + [Out(body, false)], log + [body], lost)
  {
    hide Frame;
    PendingPush(queue, Out(body, false));
    FramesPush(log, body);
    if lost == 0 { Associative(emitted, Pending(queue), Frame(body)); }
  }

  lemma PushWhole(queue: seq<Out>, log: seq<Bytes>, body: Bytes)
    requires Whole(queue, log)
    ensures Whole(queue + [Out(body, false)], log + [body])
  {
  }

  /** `n` bytes of the head's header went out, and the header counts as sent. */
  lemma HeaderRefines(emitted: Bytes, queue: seq<Out>, log: seq<Bytes>, lost: nat, n: nat)
    requires Refines(emitted, queue, log, lost) && queue != [] && !queue[0].headerSent && n <= HEADER
    ensures Refines(emitted + Header(|queue[0].data|)[..n], queue[0 := Out(queue[0].data, true)], log,
                    lost + (HEADER - n))
  {
    var data, rest := queue[0].data, Pending(queue[1..]);
    var after := queue[0 := Out(data, true)];
    assert after[1..] == queue[1..];
    assert Pending(after) == data + rest;
    assert Pending(queue) == Header(|data|) + data + rest;
    if n == HEADER {
      assert Header(|data|)[..n] == Header(|data|);
      Associative(Header(|data|), data, rest);
      Associative(emitted, Header(|data|), data + rest);
    }
  }

  lemma HeaderWhole(queue: seq<Out>, log: seq<Bytes>)
    requires Whole(queue, log) && queue != [] && !queue[0].headerSent
    ensures Whole(queue[0 := Out(queue[0].data, true)], log)
  {
  }

  /** What is left of the queue after `n` bytes of the head's body went out. */
  function Sent(queue: seq<Out>, n: nat): seq<Out>
    requires queue != [] && n <= |queue[0].data|
  {
    if n < |queue[0].data| then queue[0 := Out(queue[0].data[n..], true)] else queue[1..]
  }

  lemma BodyRefines(emitted: Bytes, queue: seq<Out>, log: seq<Bytes>, lost: nat, n: nat)
    requires Refines(emitted, queue, log, lost) && queue != [] && queue[0].headerSent && n <= |queue[0].data|
    ensures Refines(emitted + queue[0].data[..n], Sent(queue, n), log, lost)
  {
    var data, rest := queue[0].data, Pending(queue[1..]);
    if n < |data| {
      assert queue[0 := Out(data[n..], true)][1..] == queue[1..];
      assert Pending(Sent(queue, n)) == data[n..] + rest;
    }
    assert data[..n] + data[n..] == data;
    assert Pending(Sent(queue, n)) == data[n..] + rest;
    Associative(data[..n], data[n..], rest);
    Associative(emitted, data[..n], data[n..] + rest);
  }

  lemma BodyWhole(queue: seq<Out>, log: seq<Bytes>, n: nat)
    requires Whole(queue, log) && queue != [] && queue[0].headerSent && n <= |queue[0].data|
    ensures Whole(Sent(queue, n), log)
  {
    var after := Sent(queue, n);
    forall k | 0 <= k < |after| ensures LeftOf(after[k], log[|log| - |after| + k]) && (k > 0 ==> !after[k].headerSent) {
      var j := if n < |queue[0].data| then k else k + 1;
      assert LeftOf(queue[j], log[|log| - |queue| + j]) && (j > 0 ==> !queue[j].headerSent);
      if j == 0 {
        var body := log[|log| - |queue|];
        assert queue[0].data[n..] == body[|body| - |queue[0].data| + n..];
      }
    }
  }

  // ----- One call of transport_uds_write_messages, given the replies of the socket -----

  /** A `send`: what was offered and what it returned. */
  datatype Reply = Reply(offered: Bytes, n: int)

  function Offer(queue: seq<Out>): Bytes
    requires queue != []
  {
    if queue[0].headerSent then queue[0].data else Header(|queue[0].data|)
  }

  /** The loop goes on after this reply: any part of a header will do, but a body has to go out completely. */
  predicate Passes(queue: seq<Out>, r: Reply, queue': seq<Out>) {
    && queue != [] && r.offered == Offer(queue) && 0 <= r.n <= |r.offered|
    && if queue[0].headerSent then r.n == |r.offered| && queue' == queue[1..]
       else queue' == queue[0 := Out(queue[0].data, true)]
  }

  /** The call returns `left` after this reply: an error, or a body sent in part. */
  predicate Returns(queue: seq<Out>, r: Reply, queue': seq<Out>, left: int) {
    && queue != [] && r.offered == Offer(queue)
    && if r.n == -1 then queue' == queue && left == -1
       else queue[0].headerSent && 0 <= r.n < |r.offered| && left == |queue|
            && queue' == queue[0 := Out(queue[0].data[r.n..], true)]
  }

  /** After these replies the loop is at `queue'`. */
  ghost predicate Reaches(queue: seq<Out>, replies: seq<Reply>, queue': seq<Out>)
    decreases |replies|, 0
  {
    if replies == [] then queue' == queue
    else PassesAfter(queue, replies[..|replies| - 1], replies[|replies| - 1], queue')
  }

  ghost predicate PassesAfter(queue: seq<Out>, replies: seq<Reply>, r: Reply, queue': seq<Out>)
    decreases |replies|, 1
  {
    exists q :: Reaches(queue, replies, q) && Passes(q, r, queue')
  }

  ghost predicate ReturnsAfter(queue: seq<Out>, replies: seq<Reply>, r: Reply, queue': seq<Out>, left: int) {
    exists q :: Reaches(queue, replies, q) && Returns(q, r, queue', left)
  }

  /** With these replies the whole call leaves `queue'` and returns `left`. */
  ghost predicate Writes(queue: seq<Out>, replies: seq<Reply>, queue': seq<Out>, left: int) {
    || (Reaches(queue, replies, queue') && queue' == [] && left == 0)
    || (|replies| > 0 && ReturnsAfter(queue, replies[..|replies| - 1], replies[|replies| - 1], queue', left))
  }

  lemma ReachesSelf(queue: seq<Out>)
    ensures Reaches(queue, [], queue)
  {
  }

  lemma WritesAll(queue: seq<Out>, replies: seq<Reply>)
    requires Reaches(queue, replies, [])
    ensures Writes(queue, replies, [], 0)
  {
  }

  lemma Drained(emitted: Bytes)
    ensures emitted + Pending([]) == emitted
  {
  }

  lemma ReachesMore(queue: seq<Out>, replies: seq<Reply>, q: seq<Out>, r: Reply, queue': seq<Out>)
    requires Reaches(queue, replies, q) && Passes(q, r, queue')
    ensures Reaches(queue, replies + [r], queue')
  {
    assert (replies + [r])[..|replies|] == replies;
  }

  lemma LastPass(queue: seq<Out>, replies: seq<Reply>, queue': seq<Out>) returns (q: seq<Out>)
    requires replies != [] && Reaches(queue, replies, queue')
    ensures Reaches(queue, replies[..|replies| - 1], q) && Passes(q, replies[|replies| - 1], queue')
  {
    hide Passes;
    assert PassesAfter(queue, replies[..|replies| - 1], replies[|replies| - 1], queue');
    q :| Reaches(queue, replies[..|replies| - 1], q) && Passes(q, replies[|replies| - 1], queue');
  }

  /** The two ways out of the loop: the queue is empty, or the last reply makes the call return. */
  lemma LastReply(queue: seq<Out>, replies: seq<Reply>, queue': seq<Out>, left: int) returns (q: seq<Out>)
    requires Writes(queue, replies, queue', left)
    ensures left == 0 ==> Reaches(queue, replies, queue') && queue' == []
    ensures left != 0 ==>
      && replies != [] && Reaches(queue, replies[..|replies| - 1], q)
      && Returns(q, replies[|replies| - 1], queue', left)
  {
    q := queue;
    if !(Reaches(queue, replies, queue') && queue' == [] && left == 0) {
      q :| Reaches(queue, replies[..|replies| - 1], q) && Returns(q, replies[|replies| - 1], queue', left);
    }
  }

  lemma WritesLast(queue: seq<Out>, replies: seq<Reply>, q: seq<Out>, r: Reply, queue': seq<Out>, left: int)
    requires Reaches(queue, replies, q) && Returns(q, r, queue', left)
    ensures Writes(queue, replies + [r], queue', left)
  {
    assert (replies + [r])[..|replies|] == replies;
  }

  lemma LastOf(replies: seq<Reply>, more: seq<Reply>)
    requires more != []
    ensures replies + more[..|more| - 1] + [more[|more| - 1]] == replies + more
  {
  }

  lemma ReachesNothing(q: seq<Out>, replies: seq<Reply>, queue': seq<Out>)
    requires Reaches(q, [], queue')
    ensures queue' == q && replies + [] == replies
  {
  }

  lemma {:induction false} ReachesAfter(queue: seq<Out>, replies: seq<Reply>, q: seq<Out>, more: seq<Reply>,
                                        queue': seq<Out>)
    requires Reaches(queue, replies, q) && Reaches(q, more, queue')
    ensures Reaches(queue, replies + more, queue')
    decreases |more|
  {
    hide Reaches, Passes;
    if more == [] {
      ReachesNothing(q, replies, queue');
    } else {
      var first, r := more[..|more| - 1], more[|more| - 1];
      var p := LastPass(q, more, queue');
      ReachesAfter(queue, replies, q, first, p);
      ReachesMore(queue, replies + first, p, r, queue');
      LastOf(replies, more);
    }
  }

  lemma WritesAfter(queue: seq<Out>, replies: seq<Reply>, q: seq<Out>, more: seq<Reply>, queue': seq<Out>, left: int)
    requires Reaches(queue, replies, q) && Writes(q, more, queue', left)
    ensures Writes(queue, replies + more, queue', left)
  {
    hide Reaches, Passes, Returns;
    var p := LastReply(q, more, queue', left);
    if left == 0 {
      ReachesAfter(queue, replies, q, more, queue');
    } else {
      var first, r := more[..|more| - 1], more[|more| - 1];
      ReachesAfter(queue, replies, q, first, p);
      WritesLast(queue, replies + first, p, r, queue', left);
      LastOf(replies, more);
    }
  }

  /** The queue does not grow. */
  lemma {:induction false} ReachesLess(queue: seq<Out>, replies: seq<Reply>, queue': seq<Out>)
    requires Reaches(queue, replies, queue')
    ensures |queue'| <= |queue|
    decreases |replies|
  {
    if replies != [] {
      var q := LastPass(queue, replies, queue');
      ReachesLess(queue, replies[..|replies| - 1], q);
    }
  }

  /** An early return leaves something, and a number of messages only if the last `send` took part of a body. */
  lemma WritesLeaves(queue: seq<Out>, replies: seq<Reply>, queue': seq<Out>, left: int)
    requires Writes(queue, replies, queue', left)
    ensures left == (if left == -1 then -1 else |queue'|) && |queue'| <= |queue|
    ensures left != 0 ==> queue' != [] && replies != [] && (left == -1 <==> replies[|replies| - 1].n == -1)
    ensures left > 0 ==> var r := replies[|replies| - 1];
      0 <= r.n < |r.offered| && queue'[0].headerSent && queue'[0].data == r.offered[r.n..]
  {
    var q := LastReply(queue, replies, queue', left);
    if left == 0 {
      ReachesLess(queue, replies, queue');
    } else {
      ReachesLess(queue, replies[..|replies| - 1], q);
    }
  }
}
