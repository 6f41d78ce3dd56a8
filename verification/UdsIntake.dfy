/** What the receiving end of a stream has understood of it. */
module UdsIntake {
  import opened UdsFrames
  import opened Wrappers

  /** `in_message`: nothing, or a message of `size` bytes of which `got` have arrived. Once all of them have, the
      message is with the client, until it releases it. */
  datatype In = Empty | Partial(size: nat, got: Bytes)

  /** A `recv` of up to `size` bytes, and what it returned. */
  datatype Ask = Ask(size: nat, peek: bool, n: int)

  datatype Took = Took(taken: nat, incoming: In, msg: Option<Bytes>, bad: bool)

  /** The `recv` for the rest of a body. */
  predicate Answer(sent: Bytes, taken: nat, incoming: In, ask: Ask) {
    && incoming.Partial? && |incoming.got| <= incoming.size && taken <= |sent|
    && ask == Ask(incoming.size - |incoming.got|, false, ask.n) && -1 <= ask.n <= ask.size && ask.n <= |sent| - taken
  }

  function BodyIntake(sent: Bytes, taken: nat, incoming: In, n: int): Took
    requires incoming.Partial? && taken <= |sent| && n <= |sent| - taken
  {
    if n <= 0 then Took(taken, incoming, None, false)
    else
      var got := incoming.got + sent[taken..taken + n];
      Took(taken + n, Partial(incoming.size, got), if |got| < incoming.size then None else Some(got), false)
  }

  /** What the calls of `recv` may return that one call of transport_uds_message_receive makes. */
  predicate Answers(sent: Bytes, taken: nat, incoming: In, asks: seq<Ask>) {
    if incoming.Partial? then |asks| == 1 && Answer(sent, taken, incoming, asks[0])
    else
      && |asks| > 0 && asks[0] == Ask(HEADER, true, asks[0].n) && taken <= |sent|
      && if asks[0].n != HEADER then |asks| == 1
         else
           && |asks| > 1 && asks[1] == Ask(HEADER, false, HEADER) && taken + HEADER <= |sent|
           && if sent[taken] != MAGIC then |asks| == 2
              else
                && |asks| == 3
                && Answer(sent, taken + HEADER, Partial(LengthOf(sent[taken..taken + HEADER]), []), asks[2])
  }

  /** What that call does. */
  function Intake(sent: Bytes, taken: nat, incoming: In, asks: seq<Ask>): Took
    requires Answers(sent, taken, incoming, asks)
  {
    if incoming.Partial? then BodyIntake(sent, taken, incoming, asks[0].n)
    else if |asks| == 1 then Took(taken, Empty, None, false)
    else if |asks| == 2 then Took(taken + HEADER, Empty, None, true)
    else BodyIntake(sent, taken + HEADER, Partial(LengthOf(sent[taken..taken + HEADER]), []), asks[2].n)
  }

  lemma IntakeTakes(sent: Bytes, taken: nat, incoming: In, asks: seq<Ask>)
    requires Answers(sent, taken, incoming, asks)
    ensures var took := Intake(sent, taken, incoming, asks);
      Takes(sent, taken, incoming, took.taken, took.incoming, took.msg, took.bad)
  {
    if incoming.Partial? && asks[0].n <= 0 { assert incoming.got + sent[taken..taken] == incoming.got; }
  }

  /** What holds of such a call whatever is on the stream and however little the socket gives: the position moves from
      `taken` to `taken'`. */
  ghost predicate Takes(sent: Bytes, taken: nat, before: In, taken': nat, after: In, msg: Option<Bytes>, bad: bool) {
    && taken <= taken' <= |sent|
    && (bad ==> before == after == Empty && msg == None && taken' == taken + HEADER && sent[taken] != MAGIC)
    && (!bad && before == Empty && after == Empty ==> taken' == taken && msg == None)
    && (!bad && before == Empty && after != Empty ==>
      && taken + HEADER <= taken' && sent[taken] == MAGIC
      && after == Partial(LengthOf(sent[taken..taken + HEADER]), sent[taken + HEADER..taken'])
      && msg == (if taken' > taken + HEADER && |after.got| == after.size then Some(after.got) else None))
    && (before != Empty ==>
      && !bad && after == Partial(before.size, before.got + sent[taken..taken'])
      && (|before.got| <= before.size ==> |after.got| <= after.size)
      && msg == (if taken' > taken && |after.got| == after.size then Some(after.got) else None))
    && (after != Empty && before == Empty ==> |after.got| <= after.size)
  }

  /** Messages that can be delivered at all: not empty, and with a length of 32 bits. */
  ghost predicate Deliverable(log: seq<Bytes>) {
    forall k :: 0 <= k < |log| ==> 0 < |log[k]| < LENGTH_LIMIT
  }

  /** The receiver is in step with the sender's `log`: it has delivered the first messages of it, and what it has of the
      next one is the beginning of that. */
  ghost predicate InStep(sent: Bytes, taken: nat, incoming: In, log: seq<Bytes>, delivered: seq<Bytes>) {
    && taken <= |sent| && sent <= Frames(log) && Deliverable(log) && delivered <= log
    && match incoming
       case Empty => sent[..taken] == Frames(delivered)
       case Partial(size, got) =>
         if |got| < size
         then
           && |delivered| < |log| && PartOf(log[|delivered|], size, got)
           && sent[..taken] == Frames(delivered) + Header(size) + got
         else
           && |delivered| > 0 && got == delivered[|delivered| - 1] && size == |got|
           && sent[..taken] == Frames(delivered)
  }

  predicate PartOf(body: Bytes, size: nat, got: Bytes) {
    size == |body| && got <= body
  }

  /** With a whole frame header to read, that is the header of the next message. */
  lemma NextHeader(sent: Bytes, taken: nat, log: seq<Bytes>, delivered: seq<Bytes>)
    requires InStep(sent, taken, Empty, log, delivered) && taken + HEADER <= |sent|
    ensures |delivered| < |log| && sent[taken..taken + HEADER] == Header(|log[|delivered|]|)
  {
    var d := |delivered|;
    assert delivered == log[..d];
    assert log[..|log|] == log;
    if d < |log| {
      FramesAt(log, d);
      assert sent[taken..taken + HEADER] == Frames(log)[taken..taken + HEADER];
    }
  }

  lemma ByteOf(all: Bytes, sent: Bytes, start: Bytes, body: Bytes, rest: Bytes, k: nat)
    requires all == start + body + rest && sent <= all && k < |body| && |start| + k < |sent|
    ensures sent[|start| + k] == body[k]
  {
    assert all[|start| + k] == (start + body)[|start| + k];
  }

  lemma MoreOf(all: Bytes, sent: Bytes, start: Bytes, body: Bytes, rest: Bytes, got: Bytes, n: nat)
    requires all == start + body + rest && sent <= all && got <= body && |got| + n <= |body|
    requires |start| + |got| + n <= |sent| && sent[..|start| + |got|] == start + got
    ensures var more := sent[|start| + |got|..|start| + |got| + n];
      got + more <= body && sent[..|start| + |got| + n] == start + (got + more)
  {
    var taken := |start| + |got|;
    var more := sent[taken..taken + n];
    forall k | 0 <= k < n ensures more[k] == body[|got| + k] {
      ByteOf(all, sent, start, body, rest, |got| + k);
    }
    MoreJoins(sent, start, body, got, more);
  }

  lemma MoreJoins(sent: Bytes, start: Bytes, body: Bytes, got: Bytes, more: Bytes)
    requires got <= body && |got| + |more| <= |body| && forall k :: 0 <= k < |more| ==> more[k] == body[|got| + k]
    requires |start| + |got| + |more| <= |sent| && sent[..|start| + |got|] == start + got
    requires more == sent[|start| + |got|..|start| + |got| + |more|]
    ensures got + more <= body && sent[..|start| + |got| + |more|] == start + (got + more)
  {
    assert sent[..|start| + |got| + |more|] == sent[..|start| + |got|] + more;
    Associative(start, got, more);
  }

  lemma FramesSplit(log: seq<Bytes>, d: nat)
    requires d < |log|
    ensures Frames(log) == Frames(log[..d]) + Header(|log[d]|) + log[d] + Frames(log[d + 1..])
  {
    FramesAt(log, d);
    Associative(Frames(log[..d]), Header(|log[d]|), log[d]);
  }

  lemma NextBodyAt(sent: Bytes, taken: nat, start: Bytes, got: Bytes, log: seq<Bytes>, d: nat, n: nat)
    requires d < |log| && sent <= Frames(log) && got <= log[d] && |got| + n <= |log[d]| && taken + n <= |sent|
    requires start == Frames(log[..d]) + Header(|log[d]|) && sent[..taken] == start + got
    ensures got + sent[taken..taken + n] <= log[d] && sent[..taken + n] == start + (got + sent[taken..taken + n])
  {
    hide Frames, Header, Frame;
    FramesSplit(log, d);
    assert |start| + |got| == taken by { assert |sent[..taken]| == |start + got|; }
    MoreOf(Frames(log), sent, start, log[d], Frames(log[d + 1..]), got, n);
  }

  /** The next bytes to read are the next bytes of the message. */
  lemma NextBody(sent: Bytes, taken: nat, size: nat, got: Bytes, log: seq<Bytes>, delivered: seq<Bytes>, n: nat)
    requires InStep(sent, taken, Partial(size, got), log, delivered) && |got| < size
    requires n <= size - |got| && taken + n <= |sent|
    ensures got + sent[taken..taken + n] <= log[|delivered|]
    ensures sent[..taken + n] == Frames(delivered) + Header(size) + (got + sent[taken..taken + n])
  {
    assert delivered == log[..|delivered|];
    hide Frames, Header, Frame;
    NextBodyAt(sent, taken, Frames(delivered) + Header(size), got, log, |delivered|, n);
  }

  // ----- One call keeps in step -----

  /** The message is complete, and delivered. */
  lemma Completed(sent: Bytes, taken: nat, body: Bytes, log: seq<Bytes>, delivered: seq<Bytes>)
    requires taken <= |sent| && sent <= Frames(log) && Deliverable(log) && delivered <= log
    requires |delivered| < |log| && body == log[|delivered|]
    requires sent[..taken] == Frames(delivered) + Header(|body|) + body
    ensures InStep(sent, taken, Partial(|body|, body), log, delivered + [body])
  {
    hide Frames, Header, Frame;
    FrameEnds(delivered, body);
    PrefixPush(delivered, log);
  }

  lemma FrameEnds(delivered: seq<Bytes>, body: Bytes)
    ensures Frames(delivered + [body]) == Frames(delivered) + Header(|body|) + body
  {
    FramesPush(delivered, body);
    Associative(Frames(delivered), Header(|body|), body);
  }

  lemma PrefixPush(delivered: seq<Bytes>, log: seq<Bytes>)
    requires delivered <= log && |delivered| < |log|
    ensures delivered + [log[|delivered|]] <= log
  {
  }

  /** The header is read; nothing of the body is yet. */
  lemma HeaderTaken(sent: Bytes, taken: nat, log: seq<Bytes>, delivered: seq<Bytes>)
    requires InStep(sent, taken, Empty, log, delivered) && taken + HEADER <= |sent|
    ensures sent[taken] == MAGIC && LengthOf(sent[taken..taken + HEADER]) > 0
    ensures InStep(sent, taken + HEADER, Partial(LengthOf(sent[taken..taken + HEADER]), []), log, delivered)
  {
    NextHeader(sent, taken, log, delivered);
    var size := |log[|delivered|]|;
    HeaderRoundTrip(size);
    assert sent[taken] == sent[taken..taken + HEADER][0];
    assert sent[..taken + HEADER] == sent[..taken] + sent[taken..taken + HEADER];
    assert Frames(delivered) + Header(size) + [] == Frames(delivered) + Header(size);
  }

  lemma BodyTaken(sent: Bytes, taken: nat, size: nat, got: Bytes, log: seq<Bytes>, delivered: seq<Bytes>, taken': nat)
    requires InStep(sent, taken, Partial(size, got), log, delivered) && |got| < size
    requires taken <= taken' <= |sent| && taken' - taken <= size - |got|
    ensures var got' := got + sent[taken..taken'];
      if |got'| < size then InStep(sent, taken', Partial(size, got'), log, delivered)
      else got' == log[|delivered|] && InStep(sent, taken', Partial(size, got'), log, delivered + [got'])
  {
    hide Frames, Header;
    NextBody(sent, taken, size, got, log, delivered, taken' - taken);
    var got' := got + sent[taken..taken'];
    if |got'| == size {
      assert got' == log[|delivered|];
      Completed(sent, taken', got', log, delivered);
    }
  }

  /** However the bytes arrive, the magic is right, and what is delivered is the next message of the log. */
  lemma TakesInStep(sent: Bytes, taken: nat, before: In, taken': nat, after: In, msg: Option<Bytes>, bad: bool,
                    log: seq<Bytes>, delivered: seq<Bytes>)
    requires InStep(sent, taken, before, log, delivered) && Takes(sent, taken, before, taken', after, msg, bad)
    ensures !bad
    ensures msg.Some? ==> |delivered| < |log| && msg.value == log[|delivered|]
    ensures InStep(sent, taken', after, log, delivered + if msg.Some? then [msg.value] else [])
  {
    assert delivered + [] == delivered;
    match before
    case Empty =>
      if bad || after != Empty {
        HeaderTaken(sent, taken, log, delivered);
        if !bad { BodyTaken(sent, taken + HEADER, after.size, [], log, delivered, taken'); }
      }
    case Partial(size, got) =>
      if |got| < size {
        BodyTaken(sent, taken, size, got, log, delivered, taken');
      }
  }

  // ----- Progress -----

  /** Every `recv` returned all it was asked for. */
  predicate GaveAll(asks: seq<Ask>) {
    forall k :: 0 <= k < |asks| ==> asks[k].n == asks[k].size
  }

  /** All of the message has arrived; it is with the client. */
  predicate Complete(incoming: In) {
    incoming.Partial? && |incoming.got| == incoming.size
  }

  /** The bytes that the calls of `recv` took off the stream. */
  function Consumed(asks: seq<Ask>): nat {
    if asks == [] then 0
    else (if !asks[0].peek && asks[0].n > 0 then asks[0].n else 0) + Consumed(asks[1..])
  }

  /** A call moves by what its calls of `recv` took: past the header whenever a peek shows all of it, whatever its magic,
      and not at all if the peek does not. */
  ghost predicate Moves(sent: Bytes, taken: nat, before: In, asks: seq<Ask>, taken': nat, bad: bool) {
    && |asks| > 0 && taken' == taken + Consumed(asks) && taken' <= |sent|
    && (before.Empty? && asks[0].n != 5 ==> taken' == taken && !bad)
    && (before.Empty? && asks[0].n == 5 ==> taken + 5 <= taken' && (bad <==> sent[taken] != 0x42))
    && (before.Partial? ==> taken' == taken + (if asks[0].n > 0 then asks[0].n else 0) && !bad)
  }

  lemma ConsumedStep(asks: seq<Ask>)
    requires asks != []
    ensures Consumed(asks) ==
      (if !asks[0].peek && asks[0].n > 0 then asks[0].n else 0) + if |asks| == 1 then 0 else Consumed(asks[1..])
    ensures |asks| > 1 ==> asks[1..][0] == asks[1] && |asks[1..]| == |asks| - 1
    ensures |asks| > 2 ==> asks[1..][1..][0] == asks[2] && |asks[1..][1..]| == |asks| - 2
  {
    if |asks| == 1 { assert asks[1..] == []; }
  }

  lemma IntakeMoves(sent: Bytes, taken: nat, before: In, asks: seq<Ask>)
    requires Answers(sent, taken, before, asks) && taken <= |sent|
    ensures var took := Intake(sent, taken, before, asks); Moves(sent, taken, before, asks, took.taken, took.bad)
  {
    ConsumedStep(asks);
    if |asks| > 1 { ConsumedStep(asks[1..]); }
    if |asks| > 2 { ConsumedStep(asks[1..][1..]); }
  }

  /** If every `recv` gives all it is asked for, a call delivers the next message. */
  lemma NextReceived(sent: Bytes, taken: nat, incoming: In, asks: seq<Ask>, log: seq<Bytes>, delivered: seq<Bytes>)
    requires InStep(sent, taken, incoming, log, delivered) && !Complete(incoming)
    requires Answers(sent, taken, incoming, asks) && GaveAll(asks)
    ensures |delivered| < |log| && Intake(sent, taken, incoming, asks).msg == Some(log[|delivered|])
    ensures var took := Intake(sent, taken, incoming, asks);
      InStep(sent, took.taken, Empty, log, delivered + [log[|delivered|]])
  {
    var took := Intake(sent, taken, incoming, asks);
    if incoming.Empty? { HeaderTaken(sent, taken, log, delivered); }
    IntakeTakes(sent, taken, incoming, asks);
    TakesInStep(sent, taken, incoming, took.taken, took.incoming, took.msg, took.bad, log, delivered);
  }

  /** Calls that follow one another, each with the release of what it delivered, and each given all it asks for. */
  ghost predicate Rounds(sent: Bytes, taken: nat, rounds: seq<seq<Ask>>)
    decreases |rounds|
  {
    rounds == [] ||
    (Answers(sent, taken, Empty, rounds[0]) && GaveAll(rounds[0])
     && Rounds(sent, Intake(sent, taken, Empty, rounds[0]).taken, rounds[1..]))
  }

  function Received(sent: Bytes, taken: nat, rounds: seq<seq<Ask>>): seq<Bytes>
    requires Rounds(sent, taken, rounds)
    decreases |rounds|
  {
    if rounds == [] then []
    else
      var took := Intake(sent, taken, Empty, rounds[0]);
      (if took.msg.Some? then [took.msg.value] else []) + Received(sent, took.taken, rounds[1..])
  }

  /** Each round delivers one message, in order: as many rounds as there are messages left deliver them all. */
  lemma {:induction false} RoundsReceive(sent: Bytes, taken: nat, rounds: seq<seq<Ask>>, log: seq<Bytes>,
                                         delivered: seq<Bytes>)
    requires InStep(sent, taken, Empty, log, delivered) && Rounds(sent, taken, rounds)
    ensures |delivered| + |rounds| <= |log|
    ensures delivered + Received(sent, taken, rounds) == log[..|delivered| + |rounds|]
    decreases |rounds|
  {
    if rounds != [] {
      NextReceived(sent, taken, Empty, rounds[0], log, delivered);
      var took := Intake(sent, taken, Empty, rounds[0]);
      var next := delivered + [log[|delivered|]];
      RoundsReceive(sent, took.taken, rounds[1..], log, next);
      assert delivered + Received(sent, taken, rounds) == next + Received(sent, took.taken, rounds[1..]);
    }
  }

  /** With a whole frame there, the socket can give all that is asked for. */
  lemma FrameThere(sent: Bytes, taken: nat, log: seq<Bytes>, delivered: seq<Bytes>)
    requires InStep(sent, taken, Empty, log, delivered) && |delivered| < |log|
    requires taken + 5 + |log[|delivered|]| <= |sent|
    ensures var size := |log[|delivered|]|; var asks := [Ask(5, true, 5), Ask(5, false, 5), Ask(size, false, size)];
      Answers(sent, taken, Empty, asks) && GaveAll(asks)
  {
    NextHeader(sent, taken, log, delivered);
    HeaderTaken(sent, taken, log, delivered);
    HeaderRoundTrip(|log[|delivered|]|);
  }

  /** What one call does for a receiver in step. */
  lemma ReceivesInStep(sent: Bytes, taken: nat, before: In, asks: seq<Ask>, log: seq<Bytes>, delivered: seq<Bytes>)
    requires InStep(sent, taken, before, log, delivered) && Answers(sent, taken, before, asks)
    ensures var took := Intake(sent, taken, before, asks);
      && !took.bad
      && InStep(sent, took.taken, took.incoming, log, delivered + if took.msg.Some? then [took.msg.value] else [])
      && (GaveAll(asks) && !Complete(before) ==> |delivered| < |log| && took.msg == Some(log[|delivered|]))
  {
    var took := Intake(sent, taken, before, asks);
    IntakeTakes(sent, taken, before, asks);
    TakesInStep(sent, taken, before, took.taken, took.incoming, took.msg, took.bad, log, delivered);
    if GaveAll(asks) && !Complete(before) { NextReceived(sent, taken, before, asks, log, delivered); }
  }

  /** The sender going on does not put the receiver out of step. */
  lemma StaysInStep(sent: Bytes, taken: nat, incoming: In, log: seq<Bytes>, delivered: seq<Bytes>,
                    sent': Bytes, log': seq<Bytes>)
    requires InStep(sent, taken, incoming, log, delivered)
    requires sent <= sent' <= Frames(log') && log <= log' && Deliverable(log')
    ensures InStep(sent', taken, incoming, log', delivered)
  {
    assert sent'[..taken] == sent[..taken];
  }

  /** A call, with the stream as it is by then. */
  datatype Call = Call(sent: Bytes, asks: seq<Ask>)

  /** These calls follow one another, without a release in between. */
  ghost predicate CallsFrom(taken: nat, incoming: In, calls: seq<Call>)
    decreases |calls|
  {
    if calls == [] then true
    else
      && Answers(calls[0].sent, taken, incoming, calls[0].asks)
      && var took := Intake(calls[0].sent, taken, incoming, calls[0].asks);
         CallsFrom(took.taken, took.incoming, calls[1..])
  }

  /** A message that is complete, and an empty one is from the start, keeps all later calls from reading or delivering
      anything until it is released, however far the stream has grown. */
  lemma {:induction false} BlocksForever(taken: nat, size: nat, got: Bytes, calls: seq<Call>)
    requires CallsFrom(taken, Partial(size, got), calls) && |got| == size
    ensures forall k :: 0 <= k < |calls| ==>
      && Answers(calls[k].sent, taken, Partial(size, got), calls[k].asks)
      && Intake(calls[k].sent, taken, Partial(size, got), calls[k].asks) == Took(taken, Partial(size, got), None, false)
  {
    if calls != [] {
      assert calls[0].asks[0].n <= 0;
      BlocksForever(taken, size, got, calls[1..]);
      forall k | 0 < k < |calls| ensures calls[k] == calls[1..][k - 1] {}
    }
  }

  /** Once everything is written and read, everything has been delivered. */
  lemma AllDelivered(sent: Bytes, log: seq<Bytes>, delivered: seq<Bytes>)
    requires InStep(sent, |sent|, Empty, log, delivered) && sent == Frames(log)
    ensures delivered == log
  {
    var d := |delivered|;
    assert delivered == log[..d] && sent[..|sent|] == sent;
    if d < |log| { FramesAt(log, d); }
  }
}
