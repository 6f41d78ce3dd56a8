/** src/rpc.c: ids, the registry of calls, and the responses that come back. */
module Rpc {
  import opened RpcLog
  import opened Wrappers

  const ID_LIMIT := 0x1_0000_0000_0000_0000

  /** A registry entry keeps an `int`, the low 32 bits of the id. */
  datatype Entry = Entry(key: nat, kind: Kind, callback: nat)

  datatype Writer = Writer(id: nat, kind: Kind, callback: nat)

  /** `ids` are the full ids of the entries: keys match, and together they are what the log says is live. */
  ghost predicate Tracks(entries: seq<Entry>, ids: seq<nat>, live: map<nat, Waiting>) {
    && |ids| == |entries|
    && (forall k :: 0 <= k < |ids| ==>
      && ids[k] in live && live[ids[k]] == Waiting(entries[k].kind, entries[k].callback)
      && entries[k].key == Key(ids[k]))
    && (forall j, k :: 0 <= j < k < |ids| ==> ids[j] != ids[k])
    && (forall id :: id in live ==> id in ids)
  }

  /** No id is registered twice, and the ids of open writers are still unused. */
  ghost predicate Unused(log: seq<Event>, open: set<nat>, issued: nat) {
    && Distinct(log) && (forall id :: id in open ==> id <= issued)
    && (forall p :: 0 <= p < |log| && log[p].Registered? ==> log[p].id <= issued && log[p].id !in open)
  }

  /** Ids are different as long as fewer than 2^64 have been given out in between. */
  lemma IdsDiffer(m: nat, n: nat)
    requires m < n
    ensures m % ID_LIMIT == n % ID_LIMIT <==> (n - m) % 0x1_0000_0000_0000_0000 == 0
    ensures n - m < 0x1_0000_0000_0000_0000 ==> m % ID_LIMIT != n % ID_LIMIT
  {
  }

  function Dropped<T>(s: seq<T>, k: nat): (rest: seq<T>)
    requires k < |s|
    ensures |rest| == |s| - 1 && forall j :: 0 <= j < |rest| ==> rest[j] == s[if j < k then j else j + 1]
  {
    s[..k] + s[k + 1..]
  }

  /** Entry `hit` is one with the key of `id`, or there is none; its callback fires, and it leaves if it is a call. */
  ghost predicate Responds(entries: seq<Entry>, ids: seq<nat>, id: nat, hit: Option<nat>,
                           entries': seq<Entry>, ids': seq<nat>, fired: Option<nat>) {
    && |ids| == |entries|
    && match hit
       case None =>
         && (forall j :: 0 <= j < |entries| ==> entries[j].key != Key(id))
         && entries' == entries && ids' == ids && fired == None
       case Some(k) =>
         && k < |entries| && entries[k].key == Key(id) && fired == Some(entries[k].callback)
         && entries' == (if entries[k].kind == Call then Dropped(entries, k) else entries)
         && ids' == (if entries[k].kind == Call then Dropped(ids, k) else ids)
  }

  lemma UnusedSent(log: seq<Event>, open: set<nat>, issued: nat, writer: Writer)
    requires Unused(log, open, issued) && writer.id in open
    ensures Unused(log + [Registered(writer.id, writer.kind, writer.callback)], open - {writer.id}, issued)
  {
  }

  lemma UnusedAnswered(log: seq<Event>, open: set<nat>, issued: nat, e: Event)
    requires Unused(log, open, issued) && e.Answered?
    ensures Unused(log + [e], open, issued)
  {
  }

  lemma BeforeDistinct(log: seq<Event>, e: Event)
    requires Distinct(log + [e])
    ensures Distinct(log)
  {
    forall p, q | 0 <= p < q < |log| && log[p].Registered? && log[q].Registered? ensures log[p].id != log[q].id {
      assert (log + [e])[p] == log[p] && (log + [e])[q] == log[q];
    }
  }

  lemma HonestPush(log: seq<Event>, e: Event)
    requires Honest(log)
    requires e.Answered? ==> Hits(Live(log), e.incoming, e.hit) && e.fired == CallbackOf(Live(log), e.hit)
    ensures Honest(log + [e])
  {
    forall p | 0 <= p <= |log| ensures (log + [e])[..p] == log[..p] {}
    assert log[..|log|] == log;
  }

  /** An id that is registered only now was not live before. */
  lemma {:induction false} NotLive(log: seq<Event>, id: nat, kind: Kind, callback: nat)
    requires Distinct(log + [Registered(id, kind, callback)])
    ensures id !in Live(log)
  {
    if log != [] {
      var before, e := log[..|log| - 1], Registered(id, kind, callback);
      assert (log + [e])[|log| - 1] == log[|log| - 1] && (log + [e])[|log|] == e;
      forall p, q | 0 <= p < q < |before + [e]| && (before + [e])[p].Registered? && (before + [e])[q].Registered?
        ensures (before + [e])[p].id != (before + [e])[q].id
      {
        assert (log + [e])[p] == (before + [e])[p];
        assert (log + [e])[if q == |before| then |log| else q] == (before + [e])[q];
      }
      NotLive(before, id, kind, callback);
    }
  }

  lemma RegisterTracks(log: seq<Event>, entries: seq<Entry>, ids: seq<nat>, writer: Writer)
    requires Distinct(log + [Registered(writer.id, writer.kind, writer.callback)])
    requires Distinct(log) ==> Honest(log) && Tracks(entries, ids, Live(log))
    ensures var after := log + [Registered(writer.id, writer.kind, writer.callback)];
      && Honest(after)
      && Tracks(entries + [Entry(Key(writer.id), writer.kind, writer.callback)], ids + [writer.id], Live(after))
  {
    var e := Registered(writer.id, writer.kind, writer.callback);
    BeforeDistinct(log, e);
    HonestPush(log, e);
    assert (log + [e])[..|log|] == log;
    assert writer.id !in Live(log) by { NotLive(log, writer.id, writer.kind, writer.callback); }
  }

  lemma DropDistinct(ids: seq<nat>, k: nat)
    requires k < |ids| && forall i, j :: 0 <= i < j < |ids| ==> ids[i] != ids[j]
    ensures forall i, j :: 0 <= i < j < |ids| - 1 ==> Dropped(ids, k)[i] != Dropped(ids, k)[j]
  {
    forall i, j | 0 <= i < j < |ids| - 1 ensures Dropped(ids, k)[i] != Dropped(ids, k)[j] {
      assert ids[if i < k then i else i + 1] != ids[if j < k then j else j + 1];
    }
  }

  lemma DropTracks(entries: seq<Entry>, ids: seq<nat>, live: map<nat, Waiting>, k: nat)
    requires Tracks(entries, ids, live) && k < |ids|
    ensures Tracks(Dropped(entries, k), Dropped(ids, k), live - {ids[k]})
  {
    var entries', ids' := Dropped(entries, k), Dropped(ids, k);
    forall x | x in live && x != ids[k] ensures x in ids' {
      var j :| 0 <= j < |ids| && ids[j] == x;
      assert ids'[if j < k then j else j - 1] == x;
    }
    forall j | 0 <= j < |ids'|
      ensures ids'[j] in live && ids'[j] != ids[k]
      ensures live[ids'[j]] == Waiting(entries'[j].kind, entries'[j].callback) && entries'[j].key == Key(ids'[j])
    {
      var i := if j < k then j else j + 1;
      assert ids'[j] == ids[i] && entries'[j] == entries[i];
    }
    DropDistinct(ids, k);
  }

  /** The event of a response to `id`. */
  function ResponseTo(ids: seq<nat>, id: nat, hit: Option<nat>, fired: Option<nat>): Event
    requires hit.Some? ==> hit.value < |ids|
  {
    Answered(id, if hit.Some? then Some(ids[hit.value]) else None, fired)
  }

  lemma RespondHits(entries: seq<Entry>, ids: seq<nat>, live: map<nat, Waiting>, id: nat, hit: Option<nat>,
                    entries': seq<Entry>, ids': seq<nat>, fired: Option<nat>)
    requires Responds(entries, ids, id, hit, entries', ids', fired) && Tracks(entries, ids, live)
    ensures var e := ResponseTo(ids, id, hit, fired); Hits(live, id, e.hit) && fired == CallbackOf(live, e.hit)
  {
    if hit.None? {
      forall x | x in live ensures Key(x) != Key(id) {
        var j :| 0 <= j < |ids| && ids[j] == x;
      }
    }
  }

  lemma RespondTracks(log: seq<Event>, entries: seq<Entry>, ids: seq<nat>, id: nat, hit: Option<nat>,
                      entries': seq<Entry>, ids': seq<nat>, fired: Option<nat>)
    requires Responds(entries, ids, id, hit, entries', ids', fired)
    requires Distinct(log + [ResponseTo(ids, id, hit, fired)])
    requires Distinct(log) ==> Honest(log) && Tracks(entries, ids, Live(log))
    ensures var after := log + [ResponseTo(ids, id, hit, fired)]; Honest(after) && Tracks(entries', ids', Live(after))
  {
    var e := ResponseTo(ids, id, hit, fired);
    BeforeDistinct(log, e);
    RespondHits(entries, ids, Live(log), id, hit, entries', ids', fired);
    HonestPush(log, e);
    assert (log + [e])[..|log|] == log;
    if hit.Some? && entries[hit.value].kind == Call { DropTracks(entries, ids, Live(log), hit.value); }
  }

  /** Without aliases a response fires exactly the callback that waits for its id. */
  lemma RespondsRight(entries: seq<Entry>, ids: seq<nat>, live: map<nat, Waiting>, id: nat, hit: Option<nat>,
                      entries': seq<Entry>, ids': seq<nat>, fired: Option<nat>)
    requires Responds(entries, ids, id, hit, entries', ids', fired) && Tracks(entries, ids, live) && NoAlias(live, id)
    ensures fired == if id in live then Some(live[id].callback) else None
  {
    RespondHits(entries, ids, live, id, hit, entries', ids', fired);
    LookupExact(live, id);
  }

  /** The table holds the unanswered calls and everything else that was ever registered, and nothing more. */
  lemma TableHolds(entries: seq<Entry>, ids: seq<nat>, log: seq<Event>, id: nat, kind: Kind, callback: nat)
    requires Tracks(entries, ids, Live(log)) && Distinct(log) && Honest(log) && Unaliased(log)
    ensures IsRegistered(log, id, kind, callback) ==> (id in ids <==> kind != Call || Answers(log, id) == 0)
    ensures forall k :: 0 <= k < |ids| ==>
      IsRegistered(log, ids[k], entries[k].kind, entries[k].callback) && entries[k].key == ids[k] % 0x1_0000_0000
  {
    if IsRegistered(log, id, kind, callback) { FiresAsAnswered(log, id, kind, callback, callback); }
    forall k | 0 <= k < |ids| ensures IsRegistered(log, ids[k], entries[k].kind, entries[k].callback) {
      LiveIsRegistered(log, ids[k]);
    }
  }

  class Rpc {
    var idCounter: nat

    /** The hash table; which of several entries with one key a lookup finds is not specified. */
    var entries: seq<Entry>

    ghost var ids: seq<nat>
    ghost var log: seq<Event>
    ghost var issued: nat       // ids handed out so far
    ghost var open: set<nat>    // ids of the writers not yet sent

    /** The table is what the log says, as long as no id is given out twice. */
    ghost predicate Valid()
      reads this
    {
      && idCounter == (issued + 1) % ID_LIMIT && (issued < ID_LIMIT ==> Unused(log, open, issued))
      && |ids| == |entries| && (Distinct(log) ==> Honest(log) && Tracks(entries, ids, Live(log)))
    }

    constructor ()
      ensures Valid() && idCounter == 1 && entries == [] && log == [] && issued == 0 && open == {}
    {
      idCounter, entries, ids, log, issued, open := 1, [], [], [], 0, {};
    }

    method NextId() returns (id: nat)
      requires Valid()
      modifies `idCounter, `issued
      ensures Valid() && id == old(idCounter) == issued % ID_LIMIT && issued == old(issued) + 1
      ensures issued < ID_LIMIT ==> id !in open && forall p :: 0 <= p < |log| && log[p].Registered? ==> log[p].id != id
    {
      id := idCounter;
      issued := issued + 1;
      idCounter := if id + 1 < ID_LIMIT then id + 1 else 0;
    }

    /** A one-way message takes an id and is not registered. `transportReady` says that the transport has given out a
        writer. */
    method SendMessage(transportReady: bool) returns (id: Option<nat>)
      requires Valid()
      modifies `idCounter, `issued
      ensures Valid() && id == (if transportReady then Some(old(idCounter)) else None)
      ensures issued == old(issued) + if transportReady then 1 else 0
    {
      if !transportReady {
        return None;
      }
      var next := NextId();
      return Some(next);
    }

    /** `rpc_wrap_transport_message`: a call or subscription gets its id now and is registered when it is sent. */
    method Wrap(transportReady: bool, kind: Kind, callback: nat) returns (writer: Option<Writer>)
      requires Valid()
      modifies `idCounter, `issued, `open
      ensures Valid() && writer == (if transportReady then Some(Writer(old(idCounter), kind, callback)) else None)
      ensures issued == old(issued) + if transportReady then 1 else 0
      ensures open == old(open) + if transportReady then {old(idCounter)} else {}
    {
      if !transportReady {
        return None;
      }
      var id := NextId();
      open := open + {id};
      return Some(Writer(id, kind, callback));
    }

    /** Send a wrapped message, of which the transport says `result`, and register it if that is 0. A writer is good for
        one successful send. */
    method Send(writer: Writer, result: int) returns (r: int)
      requires Valid() && writer.id in open
      modifies `entries, `ids, `log, `open
      ensures Valid() && r == result
      ensures result != 0 ==> entries == old(entries) && ids == old(ids) && log == old(log) && open == old(open)
      ensures result == 0 ==>
        && open == old(open) - {writer.id}
        && entries == old(entries) + [Entry(Key(writer.id), writer.kind, writer.callback)]
        && ids == old(ids) + [writer.id] && log == old(log) + [Registered(writer.id, writer.kind, writer.callback)]
    {
      if result != 0 {
        return result;
      }
      ghost var before := log;
      if issued < ID_LIMIT { UnusedSent(log, open, issued, writer); }
      open := open - {writer.id};
      entries := entries + [Entry(Key(writer.id), writer.kind, writer.callback)];
      ids := ids + [writer.id];
      log := log + [Registered(writer.id, writer.kind, writer.callback)];
      if Distinct(log) { RegisterTracks(before, old(entries), old(ids), writer); }
      return 0;
    }

    /** The entry a lookup finds, if any has the key. */
    method Find(key: nat) returns (k: Option<nat>)
      ensures k.Some? ==> k.value < |entries| && entries[k.value].key == key
      ensures k.None? ==> forall j :: 0 <= j < |entries| ==> entries[j].key != key
    {
      if j: nat :| j < |entries| && entries[j].key == key {
        return Some(j);
      }
      return None;
    }

    /** An incoming message with this id and type: a response fires a callback, if there is one, and goes no further;
        anything else is passed on. */
    method HandleIncoming(id: nat, kind: Kind) returns (fired: Option<nat>, passed: bool, ghost hit: Option<nat>)
      requires Valid()
      modifies `entries, `ids, `log
      ensures Valid() && passed == (kind != Response)
      ensures kind != Response ==> fired == None && entries == old(entries) && ids == old(ids) && log == old(log)
      ensures kind == Response ==>
        && Responds(old(entries), old(ids), id, hit, entries, ids, fired)
        && log == old(log) + [ResponseTo(old(ids), id, hit, fired)]
      ensures kind == Response && issued < 0x1_0000_0000_0000_0000 && NoAlias(Live(old(log)), id) ==>
        fired == if id in Live(old(log)) then Some(Live(old(log))[id].callback) else None
    {
      if kind != Response {
        return None, true, None;
      }
      var found := Find(Key(id));
      hit := found;
      ghost var before, was, events := entries, ids, log;
      fired := None;
      if found.Some? {
        var entry := entries[found.value];
        fired := Some(entry.callback);
        if entry.kind == Call {
          entries := Dropped(entries, found.value);
          ids := Dropped(ids, found.value);
        }
      }
      log := log + [ResponseTo(was, id, hit, fired)];
      assert Responds(before, was, id, hit, entries, ids, fired);
      if issued < ID_LIMIT { UnusedAnswered(events, open, issued, ResponseTo(was, id, hit, fired)); }
      if Distinct(log) { RespondTracks(events, before, was, id, hit, entries, ids, fired); }
      if issued < ID_LIMIT && NoAlias(Live(events), id) {
        RespondsRight(before, was, Live(events), id, hit, entries, ids, fired);
      }
      return fired, false, hit;
    }

    /** Free every entry; the registry is gone then. */
    method Destroy() returns (freed: nat)
      requires Valid()
      modifies `entries, `ids
      ensures entries == [] && freed == |old(entries)|
    {
      freed := 0;
      while entries != []
        invariant freed + |entries| == |old(entries)|
        decreases |entries|
      {
        entries := entries[1..];
        freed := freed + 1;
      }
      ids := [];
    }
  }
}
