/**
 The in-memory event bus of internal/eventbus/bus.go: a topic index kept beside the
 subscriptions, and the choice of subscriptions an event is delivered to.
 */
module EventBus {

  datatype Filter =
    | NoFilter
    | Filter(sourceAgents: seq<string>, priorityThreshold: int, metadata: map<string, string>)

  datatype Subscription = Subscription(
    id: string, clientId: string, eventTypes: seq<string>, targetAgent: string, filter: Filter, active: bool)

  datatype Event = Event(kind: string, source: string, target: string, priority: int, metadata: map<string, string>)

  /** The bus: subscriptions by id, ids by event type, and the ids that have a handler. */
  datatype Bus = Bus(subs: map<string, Subscription>, topics: map<string, set<string>>, handlers: set<string>)

  datatype Outcome = Ok | NoClientId | NoEventTypes | NotFound

  // ----- Matching

  predicate MatchesFilter(e: Event, f: Filter) {
    match f
    case NoFilter => true
    case Filter(agents, threshold, metadata) =>
      && (|agents| > 0 ==> e.source in agents)
      && !(threshold > 0 && e.priority < threshold)
      && (forall key :: key in metadata ==> key in e.metadata && e.metadata[key] == metadata[key])
  }

  predicate MatchesType(e: Event, sub: Subscription) {
    e.kind in sub.eventTypes || "" in sub.eventTypes
  }

  predicate Targeted(e: Event, sub: Subscription) {
    e.target != "" && sub.targetAgent == e.target && MatchesType(e, sub)
  }

  /** A filter accepts an event exactly if each of its three parts, on its own, does. */
  lemma FilterByParts(e: Event, agents: seq<string>, threshold: int, metadata: map<string, string>)
    ensures MatchesFilter(e, Filter(agents, threshold, metadata)) <==>
      && MatchesFilter(e, Filter(agents, 0, map[]))
      && MatchesFilter(e, Filter([], threshold, map[]))
      && MatchesFilter(e, Filter([], 0, metadata))
  {
  }

  /** No list of agents accepts any source; a threshold is a lower bound; all metadata asked for must be there. */
  lemma FilterParts(e: Event, agents: seq<string>, threshold: int, metadata: map<string, string>)
    ensures MatchesFilter(e, Filter(agents, 0, map[])) <==>
      |agents| == 0 || exists i :: 0 <= i < |agents| && agents[i] == e.source
    ensures MatchesFilter(e, Filter([], threshold, map[])) <==> threshold <= 0 || threshold <= e.priority
    ensures MatchesFilter(e, Filter([], 0, metadata)) <==> metadata.Items <= e.metadata.Items
    ensures MatchesFilter(e, NoFilter)
  {
    if metadata.Items <= e.metadata.Items {
      forall key | key in metadata
        ensures key in e.metadata && e.metadata[key] == metadata[key]
      {
        assert (key, metadata[key]) in metadata.Items;
      }
    }
    if MatchesFilter(e, Filter([], 0, metadata)) {
      forall item | item in metadata.Items
        ensures item in e.metadata.Items
      {
        assert item.0 in metadata;
      }
    }
  }

  /** `matchesFilter`, with the metadata keys visited in any order. */
  method CheckFilter(e: Event, f: Filter) returns (ok: bool)
    ensures ok == MatchesFilter(e, f)
  {
    if f.NoFilter? { return true; }
    if |f.sourceAgents| > 0 {
      var found, i := false, 0;
      while i < |f.sourceAgents| && !found
        invariant 0 <= i <= |f.sourceAgents|
        invariant found ==> e.source in f.sourceAgents
        invariant !found ==> e.source !in f.sourceAgents[..i]
      {
        found := f.sourceAgents[i] == e.source;
        i := i + 1;
      }
      if !found { return false; }
    }
    if f.priorityThreshold > 0 && e.priority < f.priorityThreshold { return false; }
    var rest := f.metadata.Keys;
    while rest != {}
      invariant rest <= f.metadata.Keys
      invariant forall k :: k in f.metadata.Keys - rest ==> k in e.metadata && e.metadata[k] == f.metadata[k]
      decreases |rest|
    {
      var key :| key in rest;
      if key !in e.metadata { return false; }
      if e.metadata[key] != f.metadata[key] { return false; }
      rest := rest - {key};
    }
    ok := true;
  }

  // ----- The operations on the index

  function Topic(topics: map<string, set<string>>, t: string): set<string> {
    if t in topics then topics[t] else {}
  }

  /** What `Subscribe` leaves behind for a valid subscription, apart from which topics exist but are empty. */
  ghost predicate AfterSubscribe(b: Bus, sub: Subscription, hasHandler: bool, b': Bus) {
    && b'.subs == b.subs[sub.id := sub.(active := true)]
    && (forall t :: Topic(b'.topics, t) == Topic(b.topics, t) + if t in sub.eventTypes then {sub.id} else {})
    && b'.handlers == b.handlers + if hasHandler then {sub.id} else {}
  }

  ghost predicate AfterUnsubscribe(b: Bus, id: string, b': Bus)
    requires id in b.subs
  {
    && b'.subs == b.subs[id := b.subs[id].(active := false)]
    && (forall t :: Topic(b'.topics, t) == Topic(b.topics, t) - if t in b.subs[id].eventTypes then {id} else {})
    && b'.handlers == b.handlers - {id}
  }

  /** How often an id is listed for an event: by type, by wildcard, and by target. */
  ghost function TimesListed(b: Bus, e: Event, id: string): nat {
    (if id in Topic(b.topics, e.kind) then 1 else 0)
    + (if id in Topic(b.topics, "") then 1 else 0)
    + (if id in b.subs && Targeted(e, b.subs[id]) then 1 else 0)
  }

  /** A listed subscription gets the event when it has a handler, is active and its filter accepts the event. */
  predicate Accepts(b: Bus, e: Event, id: string) {
    id in b.handlers && id in b.subs && b.subs[id].active && MatchesFilter(e, b.subs[id].filter)
  }

  class LocalEventBus {
    var subs: map<string, Subscription>
    var topics: map<string, set<string>>
    var handlers: set<string>
    const hasHandler: bool

    function View(): Bus
      reads this
    {
      Bus(subs, topics, handlers)
    }

    constructor (hasHandler: bool)
      ensures this.hasHandler == hasHandler && subs == map[] && handlers == {}
      ensures forall t :: Topic(topics, t) == {}
    {
      this.hasHandler := hasHandler;
      subs, handlers := map[], {};
      topics := map["agent.intent" := {}, "agent.decision" := {}, "agent.approval" := {},
                    "agent.rejection" := {}, "agent.error" := {}];
    }

    method Subscribe(sub: Subscription) returns (r: Outcome)
      modifies this
      ensures sub.clientId == "" ==> r == NoClientId
      ensures sub.clientId != "" && sub.eventTypes == [] ==> r == NoEventTypes
      ensures sub.clientId != "" && sub.eventTypes != [] ==>
        r == Ok && AfterSubscribe(old(View()), sub, hasHandler, View())
      ensures r != Ok ==> View() == old(View())
    {
      if sub.clientId == "" { return NoClientId; }
      if |sub.eventTypes| == 0 { return NoEventTypes; }
      subs := subs[sub.id := sub.(active := true)];
      var i := 0;
      while i < |sub.eventTypes|
        invariant 0 <= i <= |sub.eventTypes|
        invariant subs == old(subs)[sub.id := sub.(active := true)] && handlers == old(handlers)
        invariant forall t ::
          Topic(topics, t) == Topic(old(topics), t) + if t in sub.eventTypes[..i] then {sub.id} else {}
      {
        var t := sub.eventTypes[i];
        assert sub.eventTypes[..i + 1] == sub.eventTypes[..i] + [t];
        if t !in topics {
          topics := topics[t := {}];
        }
        topics := topics[t := topics[t] + {sub.id}];
        i := i + 1;
      }
      assert sub.eventTypes[..i] == sub.eventTypes;
      if hasHandler {
        handlers := handlers + {sub.id};
      }
      r := Ok;
    }

    method Unsubscribe(id: string) returns (r: Outcome)
      modifies this
      ensures id !in old(subs) ==> r == NotFound && View() == old(View())
      ensures id in old(subs) ==> r == Ok && AfterUnsubscribe(old(View()), id, View())
    {
      if id !in subs { return NotFound; }
      var sub := subs[id];
      var i := 0;
      while i < |sub.eventTypes|
        invariant 0 <= i <= |sub.eventTypes|
        invariant subs == old(subs) && handlers == old(handlers)
        invariant forall t ::
          Topic(topics, t) == Topic(old(topics), t) - if t in sub.eventTypes[..i] then {id} else {}
      {
        var t := sub.eventTypes[i];
        assert sub.eventTypes[..i + 1] == sub.eventTypes[..i] + [t];
        if t in topics {
          topics := topics[t := topics[t] - {id}];
        }
        i := i + 1;
      }
      assert sub.eventTypes[..i] == sub.eventTypes;
      handlers := handlers - {id};
      subs := subs[id := sub.(active := false)];
      r := Ok;
    }

    /** The ids listed for an event, in any order; each is listed as often as `TimesListed` says. */
    method FindSubscribers(e: Event) returns (ids: seq<string>)
      ensures forall id :: multiset(ids)[id] == TimesListed(View(), e, id)
    {
      var byType := Listing(Topic(topics, e.kind));
      var wildcard := Listing(Topic(topics, ""));
      var targeted := Listing(set id | id in subs && Targeted(e, subs[id]));
      ids := byType + wildcard + targeted;
    }

    /** The ids an event is handed to: the listed ones that accept it. */
    method Publish(e: Event) returns (delivered: seq<string>)
      ensures forall id :: multiset(delivered)[id] == if Accepts(View(), e, id) then TimesListed(View(), e, id) else 0
      ensures forall id :: id in delivered <==> Delivered(View(), e, id)
    {
      var ids := FindSubscribers(e);
      delivered := [];
      var i := 0;
      while i < |ids|
        invariant 0 <= i <= |ids|
        invariant forall id :: multiset(delivered)[id] == if Accepts(View(), e, id) then multiset(ids[..i])[id] else 0
      {
        assert ids[..i + 1] == ids[..i] + [ids[i]];
        if ids[i] in handlers && ids[i] in subs && subs[ids[i]].active {
          var matches := CheckFilter(e, subs[ids[i]].filter);
          if matches {
            delivered := delivered + [ids[i]];
          }
        }
        i := i + 1;
      }
      assert ids[..i] == ids;
    }
  }

  /** The elements of a set, in any order. */
  method Listing(s: set<string>) returns (r: seq<string>)
    ensures forall x :: multiset(r)[x] == if x in s then 1 else 0
  {
    r := [];
    var rest := s;
    while rest != {}
      invariant rest <= s
      invariant forall x :: multiset(r)[x] == if x in s - rest then 1 else 0
      decreases |rest|
    {
      var x :| x in rest;
      r := r + [x];
      rest := rest - {x};
    }
  }

  // ----- Delivery and the plain scan

  /** The event reaches the subscription: it is listed at least once, and accepts. */
  ghost predicate Delivered(b: Bus, e: Event, id: string) {
    Accepts(b, e, id) && TimesListed(b, e, id) > 0
  }

  /** Scanning all active subscriptions for a type or wildcard match and applying the filter. */
  ghost predicate Scanned(b: Bus, e: Event, id: string) {
    id in b.subs && b.subs[id].active && MatchesType(e, b.subs[id]) && MatchesFilter(e, b.subs[id].filter)
  }

  ghost predicate DeliversScan(b: Bus) {
    forall e, id :: Delivered(b, e, id) <==> Scanned(b, e, id)
  }

  predicate Active(b: Bus, id: string) {
    id in b.subs && b.subs[id].active
  }

  /** Active subscriptions are listed under all their types, and with a handler they all have it. */
  ghost predicate Complete(b: Bus, hasHandler: bool) {
    && (forall id, t :: Active(b, id) && t in b.subs[id].eventTypes ==> id in Topic(b.topics, t))
    && (forall id :: id in b.handlers <==> hasHandler && Active(b, id))
  }

  /** `types` account for everything the id is listed under: it names each such type, or all types. */
  ghost predicate CoversListed(b: Bus, id: string, types: seq<string>) {
    "" in types || forall t :: id in Topic(b.topics, t) ==> t in types
  }

  /** An event of the given type that the filter accepts. */
  function Accepted(kind: string, f: Filter): (e: Event)
    ensures e.kind == kind && e.target == "" && MatchesFilter(e, f)
  {
    match f
    case NoFilter => Event(kind, "", "", 0, map[])
    case Filter(agents, threshold, metadata) =>
      Event(kind, if agents == [] then "" else agents[0], "", threshold, metadata)
  }

  /** What the scan finds is delivered; conversely, if no active subscription is listed under foreign types. */
  lemma DeliversScanIff(b: Bus)
    requires Complete(b, true)
    ensures forall e, id :: Scanned(b, e, id) ==> Delivered(b, e, id)
    ensures DeliversScan(b) <==> forall id :: Active(b, id) ==> CoversListed(b, id, b.subs[id].eventTypes)
  {
    if id :| Active(b, id) && !CoversListed(b, id, b.subs[id].eventTypes) {
      var t :| id in Topic(b.topics, t) && t !in b.subs[id].eventTypes;
      var e := Accepted(t, b.subs[id].filter);
      assert Delivered(b, e, id) && !Scanned(b, e, id);
    }
  }

  /** A subscription keeps delivery right exactly when its types cover all types its id is still listed under. */
  lemma SubscribeDeliversScanIff(b: Bus, sub: Subscription, b': Bus)
    requires Complete(b, true) && DeliversScan(b) && AfterSubscribe(b, sub, true, b')
    ensures DeliversScan(b') <==> CoversListed(b, sub.id, sub.eventTypes)
  {
    SubscribeComplete(b, sub, true, b');
    DeliversScanIff(b);
    DeliversScanIff(b');
    forall id | id != sub.id && Active(b, id)
      ensures CoversListed(b', id, b'.subs[id].eventTypes)
    {
      assert CoversListed(b, id, b.subs[id].eventTypes);
    }
    CoversAfter(b, sub, b');
  }

  lemma CoversAfter(b: Bus, sub: Subscription, b': Bus)
    requires AfterSubscribe(b, sub, true, b')
    ensures CoversListed(b', sub.id, sub.eventTypes) <==> CoversListed(b, sub.id, sub.eventTypes)
  {
  }

  lemma SubscribeComplete(b: Bus, sub: Subscription, hasHandler: bool, b': Bus)
    requires Complete(b, hasHandler) && AfterSubscribe(b, sub, hasHandler, b')
    ensures Complete(b', hasHandler)
  {
  }

  lemma UnsubscribeKeepsDelivery(b: Bus, id: string, hasHandler: bool, b': Bus)
    requires Complete(b, hasHandler) && id in b.subs && AfterUnsubscribe(b, id, b')
    ensures Complete(b', hasHandler)
    ensures hasHandler && DeliversScan(b) ==> DeliversScan(b')
  {
    if hasHandler && DeliversScan(b) {
      DeliversScanIff(b);
      DeliversScanIff(b');
      forall other | Active(b', other)
        ensures CoversListed(b', other, b'.subs[other].eventTypes)
      {
        assert CoversListed(b, other, b.subs[other].eventTypes);
      }
    }
  }

  // ----- Runs

  datatype Op = Subscribe(sub: Subscription) | Unsubscribe(id: string)

  /** The operation is a subscription that is not refused. */
  predicate Admitted(op: Op) {
    op.Subscribe? && op.sub.clientId != "" && op.sub.eventTypes != []
  }

  /** One operation; a refused one changes nothing. */
  ghost predicate Step(b: Bus, op: Op, hasHandler: bool, b': Bus) {
    match op
    case Subscribe(sub) => if Admitted(op) then AfterSubscribe(b, sub, hasHandler, b') else b' == b
    case Unsubscribe(id) => if id in b.subs then AfterUnsubscribe(b, id, b') else b' == b
  }

  /** A run: the states between any operations, from an empty bus. */
  ghost predicate Run(states: seq<Bus>, ops: seq<Op>, hasHandler: bool) {
    && |states| == |ops| + 1
    && states[0].subs == map[] && states[0].handlers == {} && (forall t :: Topic(states[0].topics, t) == {})
    && (forall i :: 0 <= i < |ops| ==> Step(states[i], ops[i], hasHandler, states[i + 1]))
  }

  lemma {:induction false} AlwaysComplete(states: seq<Bus>, ops: seq<Op>, hasHandler: bool, n: nat)
    requires Run(states, ops, hasHandler) && n < |states|
    ensures Complete(states[n], hasHandler)
  {
    if n > 0 {
      AlwaysComplete(states, ops, hasHandler, n - 1);
      var b, op, b' := states[n - 1], ops[n - 1], states[n];
      assert Step(b, op, hasHandler, b');
      if Admitted(op) {
        SubscribeComplete(b, op.sub, hasHandler, b');
      } else if op.Unsubscribe? && op.id in b.subs {
        UnsubscribeKeepsDelivery(b, op.id, hasHandler, b');
      }
    }
  }

  /** After any run every scanned subscription is reached; without a handler nothing is delivered. */
  lemma ScanIsDelivered(states: seq<Bus>, ops: seq<Op>, hasHandler: bool, n: nat, e: Event, id: string)
    requires Run(states, ops, hasHandler) && n < |states|
    ensures hasHandler && Scanned(states[n], e, id) ==> Delivered(states[n], e, id)
    ensures !hasHandler ==> !Delivered(states[n], e, id)
  {
    AlwaysComplete(states, ops, hasHandler, n);
    if hasHandler {
      DeliversScanIff(states[n]);
    }
  }

  /** Every subscription made covers the types its id is still listed under. */
  ghost predicate AllCovered(states: seq<Bus>, ops: seq<Op>)
    requires |states| == |ops| + 1
  {
    forall i :: 0 <= i < |ops| && Admitted(ops[i]) ==> CoversListed(states[i], ops[i].sub.id, ops[i].sub.eventTypes)
  }

  lemma {:induction false} CoveredDelivers(states: seq<Bus>, ops: seq<Op>, n: nat)
    requires Run(states, ops, true) && AllCovered(states, ops) && n < |states|
    ensures DeliversScan(states[n])
  {
    if n > 0 {
      CoveredDelivers(states, ops, n - 1);
      AlwaysComplete(states, ops, true, n - 1);
      var b, op, b' := states[n - 1], ops[n - 1], states[n];
      assert Step(b, op, true, b');
      if Admitted(op) {
        SubscribeDeliversScanIff(b, op.sub, b');
      } else if op.Unsubscribe? && op.id in b.subs {
        UnsubscribeKeepsDelivery(b, op.id, true, b');
      }
    }
  }

  /**
   Throughout a run delivery through the index and a plain scan choose the same subscriptions
   for every event, exactly when every subscription covered what its id was still listed under.
   */
  lemma DeliveryIsScanIff(states: seq<Bus>, ops: seq<Op>)
    requires Run(states, ops, true)
    ensures (forall n :: 0 <= n < |states| ==> DeliversScan(states[n])) <==> AllCovered(states, ops)
  {
    if AllCovered(states, ops) {
      forall n | 0 <= n < |states|
        ensures DeliversScan(states[n])
      {
        CoveredDelivers(states, ops, n);
      }
    } else {
      var i :| 0 <= i < |ops| && Admitted(ops[i]) && !CoversListed(states[i], ops[i].sub.id, ops[i].sub.eventTypes);
      AlwaysComplete(states, ops, true, i);
      assert Step(states[i], ops[i], true, states[i + 1]);
      if DeliversScan(states[i]) {
        SubscribeDeliversScanIff(states[i], ops[i].sub, states[i + 1]);
        assert !DeliversScan(states[i + 1]);
      }
    }
  }

  // ----- The index as a function of the operations

  /** The types of the latest subscription made under an id. */
  function LatestTypes(ops: seq<Op>, id: string): seq<string> {
    if ops == [] then []
    else
      var op := ops[|ops| - 1];
      if Admitted(op) && op.sub.id == id then op.sub.eventTypes else LatestTypes(ops[..|ops| - 1], id)
  }

  /** Some subscription named the type, and no unsubscription since removed it: that removes the latest types only. */
  predicate StillListed(ops: seq<Op>, id: string, t: string) {
    if ops == [] then false
    else
      var front, op := ops[..|ops| - 1], ops[|ops| - 1];
      if Admitted(op) && op.sub.id == id then t in op.sub.eventTypes || StillListed(front, id, t)
      else if op == Unsubscribe(id) then t !in LatestTypes(front, id) && StillListed(front, id, t)
      else StillListed(front, id, t)
  }

  /** After any run the index lists exactly what the operations on the id left listed. */
  lemma {:induction false} IndexIsHistory(
    states: seq<Bus>, ops: seq<Op>, hasHandler: bool, n: nat, id: string, t: string)
    requires Run(states, ops, hasHandler) && n < |states|
    ensures id in Topic(states[n].topics, t) <==> StillListed(ops[..n], id, t)
    ensures LatestTypes(ops[..n], id) == if id in states[n].subs then states[n].subs[id].eventTypes else []
  {
    if n > 0 {
      var b, op, b' := states[n - 1], ops[n - 1], states[n];
      IndexIsHistory(states, ops, hasHandler, n - 1, id, t);
      assert ops[..n][..n - 1] == ops[..n - 1] && ops[..n][n - 1] == op;
      assert Step(b, op, hasHandler, b');
      assert Admitted(op) ==>
        Topic(b'.topics, t) == Topic(b.topics, t) + if t in op.sub.eventTypes then {op.sub.id} else {};
    }
  }

  // ----- Runs that replace no active subscription by one for other types

  /** The index lists exactly the types of the active subscriptions. */
  ghost predicate Indexed(b: Bus) {
    forall t, id :: id in Topic(b.topics, t) <==> Active(b, id) && t in b.subs[id].eventTypes
  }

  /** The id is unused or inactive, or the new types include the old ones. */
  predicate CoversOldTypes(b: Bus, sub: Subscription) {
    Active(b, sub.id) ==> forall t :: t in b.subs[sub.id].eventTypes ==> t in sub.eventTypes
  }

  /** Subscribing keeps the index exact when no type of an active subscription is left behind, and only then. */
  lemma SubscribeKeepsIndexIff(b: Bus, sub: Subscription, hasHandler: bool, b': Bus)
    requires Indexed(b) && AfterSubscribe(b, sub, hasHandler, b')
    ensures Indexed(b') <==> CoversOldTypes(b, sub)
    ensures CoversListed(b, sub.id, sub.eventTypes) <==> CoversOldTypes(b, sub) || "" in sub.eventTypes
  {
    if CoversOldTypes(b, sub) {
      forall t, id
        ensures id in Topic(b'.topics, t) <==> Active(b', id) && t in b'.subs[id].eventTypes
      {
        assert id in Topic(b.topics, t) <==> Active(b, id) && t in b.subs[id].eventTypes;
      }
    } else {
      var t :| t in b.subs[sub.id].eventTypes && t !in sub.eventTypes;
      assert sub.id in Topic(b.topics, t);
      assert Topic(b'.topics, t) == Topic(b.topics, t);
      assert t !in b'.subs[sub.id].eventTypes;
    }
  }

  lemma UnsubscribeKeepsIndex(b: Bus, id: string, b': Bus)
    requires Indexed(b) && id in b.subs && AfterUnsubscribe(b, id, b')
    ensures Indexed(b')
  {
  }

  ghost predicate NoTypeLeftBehind(states: seq<Bus>, ops: seq<Op>)
    requires |states| == |ops| + 1
  {
    forall i :: 0 <= i < |ops| && Admitted(ops[i]) ==> CoversOldTypes(states[i], ops[i].sub)
  }

  lemma {:induction false} AlwaysIndexed(states: seq<Bus>, ops: seq<Op>, hasHandler: bool, n: nat)
    requires Run(states, ops, hasHandler) && NoTypeLeftBehind(states, ops) && n < |states|
    ensures Indexed(states[n])
  {
    if n > 0 {
      AlwaysIndexed(states, ops, hasHandler, n - 1);
      var b, op, b' := states[n - 1], ops[n - 1], states[n];
      assert Step(b, op, hasHandler, b');
      if Admitted(op) {
        SubscribeKeepsIndexIff(b, op.sub, hasHandler, b');
      } else if op.Unsubscribe? && op.id in b.subs {
        UnsubscribeKeepsIndex(b, op.id, b');
      }
    }
  }

  /** If ids are subscribed only while unused or inactive, or with all their old types, delivery is the scan. */
  lemma DeliveryIsScan(states: seq<Bus>, ops: seq<Op>, hasHandler: bool, n: nat, e: Event, id: string)
    requires Run(states, ops, hasHandler) && NoTypeLeftBehind(states, ops) && n < |states|
    ensures Delivered(states[n], e, id) <==> hasHandler && Scanned(states[n], e, id)
  {
    AlwaysIndexed(states, ops, hasHandler, n);
    AlwaysComplete(states, ops, hasHandler, n);
  }

  /**
   How often an id is listed for an event after any run: once if the type is still listed for it,
   once if the wildcard is, and once if it is the target. In a run that leaves no type behind
   these are the types of the subscription itself.
   */
  lemma ExactMultiplicity(states: seq<Bus>, ops: seq<Op>, hasHandler: bool, n: nat, e: Event, id: string)
    requires Run(states, ops, hasHandler) && n < |states|
    ensures TimesListed(states[n], e, id)
         == (if StillListed(ops[..n], id, e.kind) then 1 else 0)
            + (if StillListed(ops[..n], id, "") then 1 else 0)
            + (if id in states[n].subs && e.target != "" && states[n].subs[id].targetAgent == e.target
                  && (e.kind in states[n].subs[id].eventTypes || "" in states[n].subs[id].eventTypes)
               then 1 else 0)
    ensures NoTypeLeftBehind(states, ops) && Active(states[n], id) ==>
      forall t :: StillListed(ops[..n], id, t) <==> t in states[n].subs[id].eventTypes
  {
    IndexIsHistory(states, ops, hasHandler, n, id, e.kind);
    IndexIsHistory(states, ops, hasHandler, n, id, "");
    if NoTypeLeftBehind(states, ops) && Active(states[n], id) {
      AlwaysIndexed(states, ops, hasHandler, n);
      forall t
        ensures StillListed(ops[..n], id, t) <==> t in states[n].subs[id].eventTypes
      {
        IndexIsHistory(states, ops, hasHandler, n, id, t);
      }
    }
  }

  /** After any run: once unsubscribed, an id receives nothing until it is subscribed again. */
  lemma {:induction false} SilentAfterUnsubscribe(
    states: seq<Bus>, ops: seq<Op>, hasHandler: bool, m: nat, n: nat, e: Event, id: string)
    requires Run(states, ops, hasHandler) && m < n < |states|
    requires ops[m] == Unsubscribe(id)
    requires forall i :: m < i < n ==> !(ops[i].Subscribe? && ops[i].sub.id == id)
    ensures !Delivered(states[n], e, id)
  {
    InactiveAfterUnsubscribe(states, ops, hasHandler, m, n, id);
  }

  lemma {:induction false} InactiveAfterUnsubscribe(
    states: seq<Bus>, ops: seq<Op>, hasHandler: bool, m: nat, n: nat, id: string)
    requires Run(states, ops, hasHandler) && m < n < |states|
    requires ops[m] == Unsubscribe(id)
    requires forall i :: m < i < n ==> !(ops[i].Subscribe? && ops[i].sub.id == id)
    ensures !Active(states[n], id)
    decreases n
  {
    assert Step(states[n - 1], ops[n - 1], hasHandler, states[n]);
    if n - 1 > m {
      InactiveAfterUnsubscribe(states, ops, hasHandler, m, n - 1, id);
      assert !(ops[n - 1].Subscribe? && ops[n - 1].sub.id == id);
    }
  }

  // ----- A dropped type is still delivered

  function To(kind: string): Subscription {
    Subscription("s", "client", [kind], "", NoFilter, true)
  }

  const REPLACED: seq<Op> := [Subscribe(To("a")), Subscribe(To("b")), Unsubscribe("s"), Subscribe(To("b"))]

  /**
   Subscribed to `a` and then, still active, to `b`: events of type `a` keep arriving. Unsubscribing
   stops them, but subscribing to `b` alone brings them back.
   */
  lemma DroppedTypeExample(states: seq<Bus>)
    requires Run(states, REPLACED, true)
    ensures var e := Event("a", "", "", 0, map[]);
      && Delivered(states[2], e, "s") && !Scanned(states[2], e, "s")
      && !Delivered(states[3], e, "s")
      && Delivered(states[4], e, "s") && !Scanned(states[4], e, "s")
  {
    var e := Event("a", "", "", 0, map[]);
    assert "a"[0] != "b"[0];
    assert Step(states[0], REPLACED[0], true, states[1]);
    assert Step(states[1], REPLACED[1], true, states[2]);
    assert Step(states[2], REPLACED[2], true, states[3]);
    assert Step(states[3], REPLACED[3], true, states[4]);
    assert "s" in Topic(states[1].topics, "a");
    assert "s" in Topic(states[4].topics, "a");
  }

  // ----- One event, delivered three times

  /** Subscribed to `a` and to the wildcard for agent `x`: an event of type `a` for `x` is delivered three times. */
  lemma TripleDeliveryExample(states: seq<Bus>)
    requires Run(states, [Subscribe(Subscription("s", "client", ["a", ""], "x", NoFilter, true))], true)
    ensures var e := Event("a", "", "x", 0, map[]);
      Delivered(states[1], e, "s") && TimesListed(states[1], e, "s") == 3
  {
    var sub := Subscription("s", "client", ["a", ""], "x", NoFilter, true);
    assert Step(states[0], [Subscribe(sub)][0], true, states[1]);
    assert "s" in Topic(states[1].topics, "a") && "s" in Topic(states[1].topics, "") by {
      assert sub.eventTypes[0] == "a" && sub.eventTypes[1] == "";
    }
  }
}
