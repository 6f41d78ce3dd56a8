/** A transport's sending side as a function of its history: the messages it was given and the socket's replies. */
module UdsHistory {
  import opened UdsFrames
  import opened UdsQueue

  datatype Event = Queued(body: Bytes) | Offered(r: Reply)

  /** The queue after a reply. */
  function Next(queue: seq<Out>, r: Reply): seq<Out> {
    if queue == [] || r.n < 0 then queue
    else
      var data := queue[0].data;
      if !queue[0].headerSent then queue[0 := Out(data, true)]
      else if r.n < |data| then queue[0 := Out(data[r.n..], true)]
      else queue[1..]
  }

  /** `send` is offered what the loop offers, and returns -1 or a number of bytes. */
  predicate CanReply(queue: seq<Out>, r: Reply) {
    queue != [] && r.offered == Offer(queue) && -1 <= r.n <= |r.offered|
  }

  /** A reply to the write loop is that: the loop goes on or returns with the queue that the reply leaves. */
  lemma NextIs(queue: seq<Out>, r: Reply)
    ensures forall queue' :: Passes(queue, r, queue') ==> CanReply(queue, r) && queue' == Next(queue, r)
    ensures forall queue', left :: Returns(queue, r, queue', left) ==> CanReply(queue, r) && queue' == Next(queue, r)
    ensures CanReply(queue, r) ==>
      (Passes(queue, r, Next(queue, r)) || Returns(queue, r, Next(queue, r), if r.n == -1 then -1 else |queue|))
  {
  }

  predicate HeaderNext(queue: seq<Out>) {
    queue != [] && !queue[0].headerSent
  }

  // ----- What a history amounts to -----

  function Replay(h: seq<Event>): seq<Out> {
    if h == [] then []
    else
      var queue := Replay(h[..|h| - 1]);
      match h[|h| - 1]
      case Queued(body) => queue + [Out(body, false)]
      case Offered(r) => Next(queue, r)
  }

  function Bodies(h: seq<Event>): seq<Bytes> {
    if h == [] then [] else Bodies(h[..|h| - 1]) + if h[|h| - 1].Queued? then [h[|h| - 1].body] else []
  }

  function Replies(h: seq<Event>): seq<Reply> {
    if h == [] then [] else Replies(h[..|h| - 1]) + if h[|h| - 1].Offered? then [h[|h| - 1].r] else []
  }

  function Taken(r: Reply): Bytes {
    if 0 <= r.n <= |r.offered| then r.offered[..r.n] else []
  }

  function Emitted(h: seq<Event>): Bytes {
    if h == [] then [] else Emitted(h[..|h| - 1]) + if h[|h| - 1].Offered? then Taken(h[|h| - 1].r) else []
  }

  /** The bytes of a header that a reply leaves behind for good. */
  function Missing(queue: seq<Out>, r: Reply): nat {
    if HeaderNext(queue) && 0 <= r.n <= HEADER then HEADER - r.n else 0
  }

  function Shortfall(h: seq<Event>): nat {
    if h == [] then 0
    else
      var before := h[..|h| - 1];
      Shortfall(before) + if h[|h| - 1].Offered? then Missing(Replay(before), h[|h| - 1].r) else 0
  }

  ghost predicate Possible(h: seq<Event>) {
    forall k :: 0 <= k < |h| && h[k].Offered? ==> CanReply(Replay(h[..k]), h[k].r)
  }

  /** Every header that was offered was refused with an error or taken whole. */
  ghost predicate WholeHeaders(h: seq<Event>) {
    forall k :: 0 <= k < |h| && h[k].Offered? && HeaderNext(Replay(h[..k])) ==> h[k].r.n == -1 || h[k].r.n == HEADER
  }

  // ----- One more event -----

  lemma Earlier(h: seq<Event>, e: Event)
    ensures (h + [e])[..|h|] == h
    ensures forall k :: 0 <= k <= |h| ==> (h + [e])[..k] == h[..k]
  {
  }

  lemma PossibleMore(h: seq<Event>, e: Event)
    ensures Possible(h + [e]) <==> Possible(h) && (e.Offered? ==> CanReply(Replay(h), e.r))
  {
    Earlier(h, e);
    assert h[..|h|] == h;
    forall k | 0 <= k < |h| ensures (h + [e])[k] == h[k] && (h + [e])[..k] == h[..k] {}
  }

  lemma WholeMore(h: seq<Event>, e: Event)
    ensures WholeHeaders(h + [e]) <==>
      WholeHeaders(h) && (e.Offered? && HeaderNext(Replay(h)) ==> e.r.n == -1 || e.r.n == HEADER)
  {
    Earlier(h, e);
    assert h[..|h|] == h;
    forall k | 0 <= k < |h| ensures (h + [e])[k] == h[k] && (h + [e])[..k] == h[..k] {}
  }

  /** A message is queued. */
  lemma QueuedMore(h: seq<Event>, body: Bytes)
    requires Possible(h)
    ensures var h' := h + [Queued(body)];
      && Possible(h') && Replay(h') == Replay(h) + [Out(body, false)] && Bodies(h') == Bodies(h) + [body]
      && Emitted(h') == Emitted(h) && Replies(h') == Replies(h) && Shortfall(h') == Shortfall(h)
  {
    Earlier(h, Queued(body));
    PossibleMore(h, Queued(body));
  }

  /** The socket replies. */
  lemma OfferedMore(h: seq<Event>, r: Reply)
    requires Possible(h) && CanReply(Replay(h), r)
    ensures var h' := h + [Offered(r)];
      && Possible(h') && Replay(h') == Next(Replay(h), r) && Bodies(h') == Bodies(h)
      && Emitted(h') == Emitted(h) + Taken(r) && Replies(h') == Replies(h) + [r]
      && Shortfall(h') == Shortfall(h) + Missing(Replay(h), r)
  {
    Earlier(h, Offered(r));
    PossibleMore(h, Offered(r));
  }

  // ----- Every history -----

  lemma NextRefines(emitted: Bytes, queue: seq<Out>, log: seq<Bytes>, lost: nat, r: Reply)
    requires Refines(emitted, queue, log, lost) && Whole(queue, log) && CanReply(queue, r)
    ensures Refines(emitted + Taken(r), Next(queue, r), log, lost + Missing(queue, r)) && Whole(Next(queue, r), log)
  {
    if r.n < 0 {
      assert emitted + [] == emitted;
    } else if queue[0].headerSent {
      BodyRefines(emitted, queue, log, lost, r.n);
      BodyWhole(queue, log, r.n);
    } else {
      HeaderRefines(emitted, queue, log, lost, r.n);
      HeaderWhole(queue, log);
    }
  }

  /** Stream and queue are the messages' frames, up to the bytes of headers left behind. */
  lemma {:induction false} HistoryRefines(h: seq<Event>)
    requires Possible(h)
    ensures Refines(Emitted(h), Replay(h), Bodies(h), Shortfall(h)) && Whole(Replay(h), Bodies(h))
  {
    if h != [] {
      var before, e := h[..|h| - 1], h[|h| - 1];
      assert h == before + [e];
      PossibleMore(before, e);
      HistoryRefines(before);
      match e
      case Queued(body) =>
        QueuedMore(before, body);
        PushRefines(Emitted(before), Replay(before), Bodies(before), Shortfall(before), body);
        PushWhole(Replay(before), Bodies(before), body);
      case Offered(r) =>
        OfferedMore(before, r);
        NextRefines(Emitted(before), Replay(before), Bodies(before), Shortfall(before), r);
    }
  }

  lemma {:induction false} NothingMissing(h: seq<Event>)
    requires Possible(h)
    ensures Shortfall(h) == 0 <==> WholeHeaders(h)
  {
    if h != [] {
      var before, e := h[..|h| - 1], h[|h| - 1];
      assert h == before + [e];
      PossibleMore(before, e);
      WholeMore(before, e);
      NothingMissing(before);
    }
  }

  /** Over every history: the bytes on the stream and those still queued are the frames of all messages, in order, if and
      only if every header offered to the socket was refused with an error or taken whole. */
  lemma StreamIsFrames(h: seq<Event>)
    requires Possible(h)
    ensures Emitted(h) + Pending(Replay(h)) == Frames(Bodies(h)) <==> WholeHeaders(h)
  {
    HistoryRefines(h);
    NothingMissing(h);
    NothingLost(Emitted(h), Replay(h), Bodies(h), Shortfall(h));
  }

  lemma ShortStep(one: seq<Event>, r: Reply)
    requires Possible(one) && Replay(one) == [Out([7], false)] && Emitted(one) == []
    requires r == Reply(Header(1), 1)
    ensures var h := one + [Offered(r)];
      Possible(h) && !WholeHeaders(h) && Replay(h) == [Out([7], true)] && Emitted(h) == [MAGIC]
  {
    hide Replay, Emitted, Possible, WholeHeaders;
    OfferedMore(one, r);
    WholeMore(one, Offered(r));
    assert [] + r.offered[..1] == [MAGIC];
  }

  lemma ShortReply()
    ensures var h := [Queued([7]), Offered(Reply(Header(1), 1))];
      Possible(h) && !WholeHeaders(h) && Replay(h) == [Out([7], true)] && Emitted(h) == [MAGIC]
  {
    var one, r := [Queued([7])], Reply(Header(1), 1);
    assert [] + [Queued([7])] == one && one + [Offered(r)] == [Queued([7]), Offered(r)];
    QueuedMore([], [7]);
    hide Header;
    ShortStep(one, r);
  }

  /** One byte of a header taken, and the stream is no sequence of frames any more. */
  lemma ShortHeader()
    ensures var h := [Queued([7]), Offered(Reply(Header(1), 1))];
      Possible(h) && Emitted(h) + Pending(Replay(h)) == [MAGIC, 7] != Frames(Bodies(h))
  {
    var h := [Queued([7]), Offered(Reply(Header(1), 1))];
    ShortReply();
    hide Replay, Emitted, Bodies, Possible, WholeHeaders;
    StreamIsFrames(h);
    assert [Out([7], true)][1..] == [];
    assert Pending([Out([7], true)]) == [7];
  }

  // ----- The replies to one call -----

  function Offers(replies: seq<Reply>): (events: seq<Event>)
    ensures |events| == |replies| && forall k :: 0 <= k < |replies| ==> events[k] == Offered(replies[k])
  {
    if replies == [] then [] else Offers(replies[..|replies| - 1]) + [Offered(replies[|replies| - 1])]
  }

  lemma OffersMore(h: seq<Event>, replies: seq<Reply>, r: Reply)
    ensures h + Offers(replies) + [Offered(r)] == h + Offers(replies + [r])
  {
    assert (replies + [r])[..|replies|] == replies;
  }

  lemma NoOffers(h: seq<Event>)
    ensures h + Offers([]) == h
  {
  }

  lemma OneReply(h: seq<Event>, queue: seq<Out>, r: Reply, queue': seq<Out>, left: int)
    ensures h + [Offered(r)] == h + Offers([r])
    ensures Passes(queue, r, queue') ==> Reaches(queue, [r], queue')
    ensures Returns(queue, r, queue', left) ==> Writes(queue, [r], queue', left)
  {
    assert [] + [r] == [r] && Offers([r]) == [Offered(r)];
    ReachesSelf(queue);
    if Passes(queue, r, queue') { ReachesMore(queue, [], queue, r, queue'); }
    if Returns(queue, r, queue', left) { WritesLast(queue, [], queue, r, queue', left); }
  }

  lemma TwoReplies(h: seq<Event>, queue: seq<Out>, r: Reply, q: seq<Out>, r': Reply, queue': seq<Out>, left: int)
    requires Reaches(queue, [r], q)
    ensures h + [Offered(r)] + [Offered(r')] == h + Offers([r, r'])
    ensures Passes(q, r', queue') ==> Reaches(queue, [r, r'], queue')
    ensures Returns(q, r', queue', left) ==> Writes(queue, [r, r'], queue', left)
  {
    assert [r] + [r'] == [r, r'] && Offers([r, r']) == [Offered(r), Offered(r')];
    if Passes(q, r', queue') { ReachesMore(queue, [r], q, r', queue'); }
    if Returns(q, r', queue', left) { WritesLast(queue, [r], q, r', queue', left); }
  }

  lemma OffersBoth(h: seq<Event>, replies: seq<Reply>, more: seq<Reply>)
    ensures h + Offers(replies) + Offers(more) == h + Offers(replies + more)
  {
  }

  lemma ReplayMore(h: seq<Event>, replies: seq<Reply>, q: seq<Out>, r: Reply)
    requires Possible(h + Offers(replies)) && Replay(h + Offers(replies)) == q && CanReply(q, r)
    ensures Possible(h + Offers(replies + [r])) && Replay(h + Offers(replies + [r])) == Next(q, r)
  {
    hide Replay, Possible, Offers, Next, CanReply;
    OfferedMore(h + Offers(replies), r);
    OffersMore(h, replies, r);
  }

  lemma {:induction false} ReachesReplay(h: seq<Event>, replies: seq<Reply>, queue': seq<Out>)
    requires Possible(h) && Reaches(Replay(h), replies, queue')
    ensures Possible(h + Offers(replies)) && Replay(h + Offers(replies)) == queue'
    decreases |replies|
  {
    hide Replay, Possible, Offers, Next, CanReply, Passes, PassesAfter;
    if replies == [] {
      NoOffers(h);
    } else {
      var first, r := replies[..|replies| - 1], replies[|replies| - 1];
      assert first + [r] == replies;
      var q := LastPass(Replay(h), replies, queue');
      ReachesReplay(h, first, q);
      NextIs(q, r);
      ReplayMore(h, first, q, r);
    }
  }

  /** A whole call of the write loop leaves the queue that its replies add up to. */
  lemma WritesReplay(h: seq<Event>, replies: seq<Reply>, queue': seq<Out>, left: int)
    requires Possible(h) && Writes(Replay(h), replies, queue', left)
    ensures Possible(h + Offers(replies)) && Replay(h + Offers(replies)) == queue'
  {
    hide Replay, Possible, Offers, Next, CanReply, Returns, Writes, Reaches;
    var q := LastReply(Replay(h), replies, queue', left);
    if left == 0 {
      ReachesReplay(h, replies, queue');
    } else {
      var first, r := replies[..|replies| - 1], replies[|replies| - 1];
      assert first + [r] == replies;
      ReachesReplay(h, first, q);
      NextIs(q, r);
      ReplayMore(h, first, q, r);
    }
  }

  /** The socket took everything it was offered. */
  predicate TookAll(replies: seq<Reply>) {
    forall k :: 0 <= k < |replies| ==> replies[k].n == |replies[k].offered|
  }

  lemma TookAllMoves(queue: seq<Out>, r: Reply)
    requires CanReply(queue, r) && r.n == |r.offered|
    ensures Taken(r) + Pending(Next(queue, r)) == Pending(queue)
  {
    var data := queue[0].data;
    assert Taken(r) == r.offered;
    if queue[0].headerSent {
      assert Next(queue, r) == queue[1..];
    } else {
      var after := queue[0 := Out(data, true)];
      assert after[1..] == queue[1..];
      Associative(Header(|data|), data, Pending(queue[1..]));
    }
  }

  lemma TookAllMore(h: seq<Event>, replies: seq<Reply>, q: seq<Out>, r: Reply, all: Bytes)
    requires Possible(h + Offers(replies)) && Replay(h + Offers(replies)) == q && CanReply(q, r) && r.n == |r.offered|
    requires Emitted(h + Offers(replies)) + Pending(q) == all
    ensures Emitted(h + Offers(replies + [r])) + Pending(Next(q, r)) == all
  {
    hide Replay, Possible, Emitted, Offers, Next, CanReply, Taken, Pending;
    OfferedMore(h + Offers(replies), r);
    OffersMore(h, replies, r);
    TookAllMoves(q, r);
    Associative(Emitted(h + Offers(replies)), Taken(r), Pending(Next(q, r)));
  }

  lemma {:induction false} TookAllReaches(h: seq<Event>, replies: seq<Reply>, queue': seq<Out>)
    requires Possible(h) && Reaches(Replay(h), replies, queue') && TookAll(replies)
    ensures Emitted(h + Offers(replies)) + Pending(queue') == Emitted(h) + Pending(Replay(h))
    decreases |replies|
  {
    hide Replay, Possible, Emitted, Offers, Next, CanReply, Passes, PassesAfter, Pending;
    if replies == [] {
      NoOffers(h);
    } else {
      var first, r := replies[..|replies| - 1], replies[|replies| - 1];
      assert first + [r] == replies;
      var q := LastPass(Replay(h), replies, queue');
      TookAllReaches(h, first, q);
      ReachesReplay(h, first, q);
      NextIs(q, r);
      TookAllMore(h, first, q, r, Emitted(h) + Pending(Replay(h)));
    }
  }

  /** If the socket takes everything, one call of the write loop puts all that was pending on the stream, and the queue
      is empty. */
  lemma TookAllWrites(h: seq<Event>, replies: seq<Reply>, queue': seq<Out>, left: int)
    requires Possible(h) && Writes(Replay(h), replies, queue', left)
    ensures TookAll(replies) ==>
      left == 0 && queue' == [] && Emitted(h + Offers(replies)) == Emitted(h) + Pending(Replay(h))
  {
    hide Replay, Possible, Emitted, Offers, Writes, Reaches;
    if TookAll(replies) {
      var q := LastReply(Replay(h), replies, queue', left);
      TookAllReaches(h, replies, queue');
      Drained(Emitted(h + Offers(replies)));
    }
  }

  /** Headers that were whole later on were whole before. */
  lemma WholePrefix(h: seq<Event>, more: seq<Event>)
    requires WholeHeaders(h + more)
    ensures WholeHeaders(h)
  {
    forall k | 0 <= k < |h| && h[k].Offered? && HeaderNext(Replay(h[..k])) ensures h[k].r.n == -1 || h[k].r.n == HEADER {
      assert (h + more)[k] == h[k] && (h + more)[..k] == h[..k];
    }
  }

  /** If the socket takes offers of a header's length whole or not at all, then headers go out whole, however bodies are
      cut up. */
  lemma {:induction false} WholeReplies(h: seq<Event>, replies: seq<Reply>)
    requires Possible(h + Offers(replies)) && WholeHeaders(h)
    requires forall k :: 0 <= k < |replies| && |replies[k].offered| == HEADER ==>
      replies[k].n == -1 || replies[k].n == HEADER
    ensures WholeHeaders(h + Offers(replies))
    decreases |replies|
  {
    if replies == [] {
      assert h + Offers(replies) == h;
    } else {
      var first, r := replies[..|replies| - 1], replies[|replies| - 1];
      var before := h + Offers(first);
      OffersMore(h, first, r);
      assert first + [r] == replies;
      PossibleMore(before, Offered(r));
      WholeReplies(h, first);
      WholeMore(before, Offered(r));
    }
  }
}
