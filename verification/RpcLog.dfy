/** What a registry of calls should do, as a function of what happened to it. */
module RpcLog {
  import opened Wrappers

  const KEY_LIMIT := 0x1_0000_0000

  datatype Kind = Message | Call | Subscription | Response

  /** Callbacks are numbers here. `hit` is the id that the response was taken for, and `fired` the callback that was
      called, if any was. */
  datatype Event =
    | Registered(id: nat, kind: Kind, callback: nat)
    | Answered(incoming: nat, hit: Option<nat>, fired: Option<nat>)

  /** What is waiting for responses to an id. */
  datatype Waiting = Waiting(kind: Kind, callback: nat)

  /** `int` keeps the low 32 bits of an id. */
  function Key(id: nat): nat {
    id % KEY_LIMIT
  }

  /** The registered ids: calls leave with the first response that hits them. */
  function Live(log: seq<Event>): map<nat, Waiting> {
    if log == [] then map[]
    else
      var before := Live(log[..|log| - 1]);
      match log[|log| - 1]
      case Registered(id, kind, callback) => before[id := Waiting(kind, callback)]
      case Answered(_, Some(hit), _) => if hit in before && before[hit].kind == Call then before - {hit} else before
      case Answered(_, None, _) => before
  }

  /** No id is registered twice. */
  ghost predicate Distinct(log: seq<Event>) {
    forall p, q :: 0 <= p < q < |log| && log[p].Registered? && log[q].Registered? ==> log[p].id != log[q].id
  }

  /** A response hits some live id with its key, if there is one, and fires what is waiting there. */
  ghost predicate Honest(log: seq<Event>) {
    forall p :: 0 <= p < |log| && log[p].Answered? ==>
      Hits(Live(log[..p]), log[p].incoming, log[p].hit) && log[p].fired == CallbackOf(Live(log[..p]), log[p].hit)
  }

  /** The callback waiting at an id. */
  function CallbackOf(live: map<nat, Waiting>, hit: Option<nat>): Option<nat> {
    if hit.Some? && hit.value in live then Some(live[hit.value].callback) else None
  }

  ghost predicate Hits(live: map<nat, Waiting>, incoming: nat, hit: Option<nat>) {
    if hit.Some? then hit.value in live && Key(hit.value) == Key(incoming)
    else forall id :: id in live ==> Key(id) != Key(incoming)
  }

  /** No response arrives while another live id has its key. */
  ghost predicate Unaliased(log: seq<Event>) {
    forall p :: 0 <= p < |log| && log[p].Answered? ==> NoAlias(Live(log[..p]), log[p].incoming)
  }

  /** Every response arrives while all live ids are less than 2^32 away from its own. */
  ghost predicate Windowed(log: seq<Event>) {
    forall p :: 0 <= p < |log| && log[p].Answered? ==> Near(Live(log[..p]), log[p].incoming)
  }

  ghost predicate Near(live: map<nat, Waiting>, incoming: nat) {
    forall id :: id in live ==> id < incoming + 0x1_0000_0000 && incoming < id + 0x1_0000_0000
  }

  // ----- Keys against ids -----

  lemma SameKey(a: nat, b: nat)
    requires a < b + KEY_LIMIT && b < a + KEY_LIMIT && Key(a) == Key(b)
    ensures a == b
  {
    var p, q := a / KEY_LIMIT, b / KEY_LIMIT;
    assert a == p * KEY_LIMIT + Key(a) && b == q * KEY_LIMIT + Key(b);
  }

  /** What looking up the full id finds. */
  function Ideal(live: map<nat, Waiting>, incoming: nat): Option<nat> {
    if incoming in live then Some(incoming) else None
  }

  /** No other live id has the key of this one. */
  ghost predicate NoAlias(live: map<nat, Waiting>, incoming: nat) {
    forall id :: id in live && Key(id) == Key(incoming) ==> id == incoming
  }

  /** Looking up the key finds what looking up the id would, whichever of several entries it meets, if and only if no
      other live id has that key. */
  lemma LookupExact(live: map<nat, Waiting>, incoming: nat)
    ensures (forall hit :: Hits(live, incoming, hit) ==> hit == Ideal(live, incoming)) <==> NoAlias(live, incoming)
  {
    if id :| id in live && Key(id) == Key(incoming) && id != incoming {
      assert Hits(live, incoming, Some(id));
    }
  }

  /** Near ids have no aliases. */
  lemma LookupAgrees(live: map<nat, Waiting>, incoming: nat, hit: Option<nat>)
    requires Near(live, incoming) && Hits(live, incoming, hit)
    ensures NoAlias(live, incoming) && hit == Ideal(live, incoming)
  {
    forall id | id in live && Key(id) == Key(incoming) ensures id == incoming { SameKey(id, incoming); }
    LookupExact(live, incoming);
  }

  ghost predicate InWindow(live: map<nat, Waiting>, incoming: nat, lo: nat, width: nat) {
    lo <= incoming < lo + width && forall id :: id in live ==> lo <= id < lo + width
  }

  /** Every lookup of ids from a window is right if and only if the window is no wider than 2^32. */
  lemma WindowExact(lo: nat, width: nat)
    ensures (forall live, incoming, hit :: InWindow(live, incoming, lo, width) && Hits(live, incoming, hit) ==>
      hit == Ideal(live, incoming)) <==> width <= 0x1_0000_0000
  {
    if width <= 0x1_0000_0000 {
      forall live, incoming, hit | InWindow(live, incoming, lo, width) && Hits(live, incoming, hit)
        ensures hit == Ideal(live, incoming)
      {
        LookupAgrees(live, incoming, hit);
      }
    } else {
      var live: map<nat, Waiting> := map[lo := Waiting(Call, 0)];
      assert Key(lo + KEY_LIMIT) == Key(lo);
      assert InWindow(live, lo + KEY_LIMIT, lo, width) && Hits(live, lo + KEY_LIMIT, Some(lo));
    }
  }

  /** The table finds something for a key: whatever that is, of two live ids with one key it is wrong for one. */
  lemma OneGoesWrong(live: map<nat, Waiting>, find: nat -> Option<nat>, a: nat, b: nat)
    requires a in live && b in live && a != b && Key(a) == Key(b)
    requires Hits(live, a, find(Key(a))) && Hits(live, b, find(Key(b)))
    ensures find(Key(a)) != Ideal(live, a) || find(Key(b)) != Ideal(live, b)
  {
  }

  /** After two calls 2^32 ids apart one of their responses fires the other's callback, in whatever order the table keeps
      its entries. */
  lemma WrongCallback(find: nat -> Option<nat>, a: nat, b: nat)
    requires var live := Live([Registered(1, Call, a), Registered(0x1_0000_0001, Call, b)]);
      Hits(live, 1, find(Key(1))) && Hits(live, 0x1_0000_0001, find(Key(0x1_0000_0001)))
    ensures var live := Live([Registered(1, Call, a), Registered(0x1_0000_0001, Call, b)]);
      CallbackOf(live, find(Key(1))) == Some(b) || CallbackOf(live, find(Key(0x1_0000_0001))) == Some(a)
  {
    var first, second := Registered(1, Call, a), Registered(0x1_0000_0001, Call, b);
    var log := [first, second];
    assert log[..1] == [first] && log[..1][..0] == [];
    assert Live(log[..1]) == map[1 := Waiting(Call, a)];
    var live := Live(log);
    assert live == map[1 := Waiting(Call, a), 0x1_0000_0001 := Waiting(Call, b)];
    OneGoesWrong(live, find, 1, 0x1_0000_0001);
  }

  lemma WindowsUnaliased(log: seq<Event>)
    requires Windowed(log)
    ensures Unaliased(log)
  {
    forall p | 0 <= p < |log| && log[p].Answered? ensures NoAlias(Live(log[..p]), log[p].incoming) {
      var live, incoming := Live(log[..p]), log[p].incoming;
      forall id | id in live && Key(id) == Key(incoming) ensures id == incoming { SameKey(id, incoming); }
    }
  }

  // ----- Counting -----

  /** How often a response to `id` fired this callback. */
  function Fires(log: seq<Event>, id: nat, callback: nat): nat {
    if log == [] then 0
    else
      var e := log[|log| - 1];
      Fires(log[..|log| - 1], id, callback)
      + if e.Answered? && e.incoming == id && e.fired == Some(callback) then 1 else 0
  }

  ghost predicate IsRegistered(log: seq<Event>, id: nat, kind: Kind, callback: nat) {
    exists p :: 0 <= p < |log| && log[p] == Registered(id, kind, callback)
  }

  ghost predicate Known(log: seq<Event>, id: nat) {
    exists p :: 0 <= p < |log| && log[p].Registered? && log[p].id == id
  }

  /** How many responses to `id` came in after it was registered. */
  ghost function Answers(log: seq<Event>, id: nat): nat {
    if log == [] then 0
    else
      var e, before := log[|log| - 1], log[..|log| - 1];
      Answers(before, id) + if e.Answered? && e.incoming == id && Known(before, id) then 1 else 0
  }

  lemma Shorter(log: seq<Event>)
    requires log != [] && Distinct(log) && Honest(log) && Unaliased(log)
    ensures var before := log[..|log| - 1]; Distinct(before) && Honest(before) && Unaliased(before)
  {
    assert forall p :: 0 <= p < |log| - 1 ==> log[..|log| - 1][..p] == log[..p];
  }

  lemma {:induction false} Unknown(log: seq<Event>, id: nat, callback: nat)
    requires Distinct(log) && Honest(log) && Unaliased(log) && !Known(log, id)
    ensures id !in Live(log) && Fires(log, id, callback) == 0 && Answers(log, id) == 0
  {
    if log != [] {
      var e, before := log[|log| - 1], log[..|log| - 1];
      Shorter(log);
      assert forall p :: 0 <= p < |before| ==> log[p] == before[p];
      Unknown(before, id, callback);
      if e.Answered? { LookupExact(Live(before), e.incoming); }
    }
  }

  /** What the responses to a known id have done: each has fired the id's callback and no other, once if it is a call's;
      and the id is live unless it is an answered call. */
  predicate FiredRight(live: map<nat, Waiting>, id: nat, own: Waiting, callback: nat, fires: nat, answers: nat) {
    && fires == (if callback != own.callback then 0 else if own.kind == Call && answers > 0 then 1 else answers)
    && (id in live <==> own.kind != Call || answers == 0)
    && (id in live ==> live[id] == own)
  }

  /** The responses to a call fire the call's callback once if there are any, those to anything else that was registered
      fire its callback each, and none of them fires another one; what is live is what was registered, less the answered
      calls. */
  lemma {:induction false} FiresAsAnswered(log: seq<Event>, id: nat, kind: Kind, own: nat, callback: nat)
    requires Distinct(log) && Honest(log) && Unaliased(log) && IsRegistered(log, id, kind, own)
    ensures FiredRight(Live(log), id, Waiting(kind, own), callback, Fires(log, id, callback), Answers(log, id))
  {
    var e, before := log[|log| - 1], log[..|log| - 1];
    var p :| 0 <= p < |log| && log[p] == Registered(id, kind, own);
    Shorter(log);
    if p == |log| - 1 {
      assert !Known(before, id);
      Unknown(before, id, callback);
    } else {
      assert before[p] == log[p];
      FiresAsAnswered(before, id, kind, own, callback);
      if e.Answered? {
        assert Known(before, id);
        LookupExact(Live(before), e.incoming);
      }
    }
  }

  /** What is live was registered, with that kind and that callback. */
  lemma {:induction false} LiveIsRegistered(log: seq<Event>, id: nat)
    requires id in Live(log)
    ensures IsRegistered(log, id, Live(log)[id].kind, Live(log)[id].callback) && Known(log, id)
  {
    var e, before := log[|log| - 1], log[..|log| - 1];
    if e.Registered? && e.id == id {
      assert log[|log| - 1] == Registered(id, e.kind, e.callback);
    } else {
      LiveIsRegistered(before, id);
      var p :| 0 <= p < |before| && before[p] == Registered(id, Live(before)[id].kind, Live(before)[id].callback);
      assert log[p] == before[p];
    }
  }
}
