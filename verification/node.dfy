/** A node: its registry of resident entities, its storage and its pending requests. */
module Nodes {
  import opened Bytes
  import opened Entities
  import opened Registries
  import Flood
  import Requests

  function KeyOf(event: Event): Key { Key(event.entityId, event.collection) }

  /** Every event of one key, in order. */
  function EventsFor(events: seq<Event>, key: Key): seq<Event> {
    if events == [] then []
    else
      var last := events[|events| - 1];
      EventsFor(events[..|events| - 1], key) + if KeyOf(last) == key then [last] else []
  }

  function ApplyAll(s: State, events: seq<Event>): State {
    if events == [] then s else Applied(ApplyAll(s, events[..|events| - 1]), events[|events| - 1])
  }

  function StoredAfter(before: Flood.Copy, events: seq<Event>): Option<State> {
    if events == [] then before.stored else Some(ApplyAll(Flood.Fetched(before), events))
  }

  /** The events, of one key, that change its stored state when they are applied in order. */
  function Changing(before: Flood.Copy, events: seq<Event>): seq<Event> {
    if events == [] then []
    else
      var earlier := events[..|events| - 1];
      Changing(before, earlier) + if StoredAfter(before, events) != StoredAfter(before, earlier) then [events[|events| - 1]] else []
  }

  /** What becomes of one copy: after its events the stored state is what they make of the fetched one,
      and exactly the events that changed it are reported. */
  predicate Committed(before: Flood.Copy, after: Flood.Copy, events: seq<Event>, reported: seq<Event>) {
    && after.stored == StoredAfter(before, events) && reported == Changing(before, events)
    && if events == [] then after == before else after.resident.None? || after.resident == after.stored
  }

  lemma OneMoreEvent(before: Flood.Copy, now: Flood.Copy, after: Flood.Copy, events: seq<Event>, reported: seq<Event>, e: Event)
    requires Committed(before, now, events, reported)
    requires after == Flood.AfterEvent(now, e) || after == Flood.AfterEvent(now, e).(resident := None)
    ensures Committed(before, after, events + [e], if Flood.ChangesStored(now, e) then reported + [e] else reported)
  {
    var all := events + [e];
    assert all[..|all| - 1] == events && all[|all| - 1] == e;
    assert Flood.Fetched(now) == ApplyAll(Flood.Fetched(before), events);
    assert StoredAfter(before, all) == Some(Applied(Flood.Fetched(now), e));
  }

  lemma EventsForOneMore(events: seq<Event>, e: Event, key: Key)
    ensures EventsFor(events + [e], key) == if KeyOf(e) == key then EventsFor(events, key) + [e] else EventsFor(events, key)
  {
    assert (events + [e])[..|events|] == events;
  }

  datatype Change = Change(entity: Entity, event: Event)

  function EventsOf(changes: seq<Change>): seq<Event> {
    if changes == [] then [] else EventsOf(changes[..|changes| - 1]) + [changes[|changes| - 1].event]
  }

  lemma EventsOfOneMore(changes: seq<Change>, c: Change)
    ensures EventsOf(changes + [c]) == EventsOf(changes) + [c.event]
  {
    assert (changes + [c])[..|changes|] == changes;
  }

  function KeysOf(events: seq<Event>): set<Key> {
    set e | e in events :: KeyOf(e)
  }

  lemma KeyIsAmong(events: seq<Event>, i: nat)
    requires i < |events|
    ensures KeyOf(events[i]) in KeysOf(events)
  {
    assert events[i] in events;
  }

  lemma OneMore<T>(s: seq<T>, i: nat)
    requires i <= |s|
    ensures i < |s| ==> s[..i + 1] == s[..i] + [s[i]]
    ensures s[..|s|] == s
  {
  }

  predicate AllCommitted(before: map<Key, Flood.Copy>, after: map<Key, Flood.Copy>, events: seq<Event>, reported: seq<Event>) {
    && before.Keys == after.Keys
    && forall k | k in before :: Committed(before[k], after[k], EventsFor(events, k), EventsFor(reported, k))
  }

  lemma OneKeyMore(k: Key, start: Flood.Copy, now: Flood.Copy, after: Flood.Copy,
                   events: seq<Event>, reported: seq<Event>, e: Event, changed: bool)
    requires Committed(start, now, EventsFor(events, k), EventsFor(reported, k))
    requires k != KeyOf(e) ==> after == now
    requires k == KeyOf(e) ==>
      && (after == Flood.AfterEvent(now, e) || after == Flood.AfterEvent(now, e).(resident := None))
      && changed == Flood.ChangesStored(now, e)
    ensures Committed(start, after, EventsFor(events + [e], k), EventsFor(if changed then reported + [e] else reported, k))
  {
    EventsForOneMore(events, e, k);
    EventsForOneMore(reported, e, k);
    if k == KeyOf(e) {
      OneMoreEvent(start, now, after, EventsFor(events, k), EventsFor(reported, k), e);
    }
  }

  lemma AllOneMore(start: map<Key, Flood.Copy>, now: map<Key, Flood.Copy>, after: map<Key, Flood.Copy>,
                   events: seq<Event>, reported: seq<Event>, e: Event, changed: bool)
    requires AllCommitted(start, now, events, reported) && KeyOf(e) in start && after.Keys == now.Keys
    requires forall k | k in start && k != KeyOf(e) :: after[k] == now[k]
    requires var next := Flood.AfterEvent(now[KeyOf(e)], e);
      after[KeyOf(e)] == next || after[KeyOf(e)] == next.(resident := None)
    requires changed == Flood.ChangesStored(now[KeyOf(e)], e)
    ensures AllCommitted(start, after, events + [e], if changed then reported + [e] else reported)
  {
    forall k | k in start
      ensures Committed(start[k], after[k], EventsFor(events + [e], k), EventsFor(if changed then reported + [e] else reported, k))
    {
      OneKeyMore(k, start[k], now[k], after[k], events, reported, e, changed);
    }
  }

  class Node {
    const id: Requests.NodeId
    var peers: set<Requests.NodeId>
    var pending: map<Requests.RequestId, bool>
    ghost var serving: multiset<Requests.Request>
    var entities: map<Key, Entity>
    /** One element per strong reference that some task, view or change holds. */
    var held: multiset<Entity>
    ghost var keys: map<Entity, Key>
    var storage: map<Key, State>

    constructor (id: Requests.NodeId)
      ensures this.id == id && Valid() && Traffic() == Requests.NodeState({}, map[], multiset{})
      ensures entities == map[] && held == multiset{} && storage == map[]
    {
      this.id := id;
      peers, pending, serving := {}, map[], multiset{};
      entities, held, keys, storage := map[], multiset{}, map[], map[];
    }

    ghost function Traffic(): Requests.NodeState
      reads this`peers, this`pending, this`serving
    {
      Requests.NodeState(peers, pending, serving)
    }

    ghost function Residents(): Registry<Entity>
      reads this`entities, this`held, this`keys
    {
      Registry(entities, held, keys)
    }

    ghost predicate Valid()
      reads this`entities, this`held, this`keys
    {
      && Registries.Valid(Residents())
      && forall key | key in entities :: entities[key].key == key
    }

    /** What the node has of one entity: the resident state and the stored one. */
    ghost function CopyAt(key: Key): Flood.Copy
      reads this`entities, this`held, this`storage, Upgraded(key)
    {
      Flood.Copy(if key in entities && entities[key] in held then Some(entities[key].ToState()) else None,
                 if key in storage then Some(storage[key]) else None)
    }

    /** The entity a weak reference upgrades to, if any. */
    ghost function Upgraded(key: Key): set<Entity>
      reads this`entities, this`held
    {
      if key in entities && entities[key] in held then {entities[key]} else {}
    }

    // ---------- the registry ----------

    method FetchEntityFromNode(key: Key) returns (found: Option<Entity>)
      requires Valid()
      modifies this`held
      ensures Valid() && Next(old(Residents()), Looked(key, found), Residents())
      ensures found.Some? ==> found.value.key == key
      ensures forall k :: CopyAt(k) == old(CopyAt(k))
    {
      if key in entities && entities[key] in held {
        found := Some(entities[key]);
        Hold(entities[key]);
      } else {
        found := None;
      }
    }

    /** Puts an entity under its key, in place of whatever was there. */
    method Enter(e: Entity)
      requires Valid() && e !in keys && Upgraded(e.key) == {}
      modifies this`entities, this`keys
      ensures Valid() && Residents() == Register(old(Residents()), e.key, e)
    {
      RegisteringKeepsValid(Residents(), e.key, e);
      entities, keys := entities[e.key := e], keys[e := e.key];
    }

    method Hold(e: Entity)
      requires Valid() && e.key in entities && entities[e.key] == e
      modifies this`held
      ensures Valid() && Residents() == Registries.Hold(old(Residents()), e)
      ensures forall k | k != e.key :: CopyAt(k) == old(CopyAt(k))
    {
      held := held + multiset{e};
    }

    method Admit(key: Key, state: State) returns (e: Entity)
      requires Valid() && Upgraded(key) == {}
      modifies this`entities, this`held, this`keys
      ensures Valid() && Next(old(Residents()), Asserted(key, e), Residents())
      ensures fresh(e) && e.key == key && e.ToState() == state
      ensures forall k | k != key :: CopyAt(k) == old(CopyAt(k))
    {
      e := new Entity.FromState(key, state);
      Enter(e);
      Hold(e);
    }

    /** The resident entity with the state applied to it, or a new one made from the state. */
    method AssertEntity(key: Key, state: State) returns (e: Entity)
      requires Valid()
      modifies this`entities, this`held, this`keys, Upgraded(key)
      ensures Valid() && e.key == key && Next(old(Residents()), Asserted(key, e), Residents())
      ensures old(CopyAt(key)).resident.None? ==> fresh(e) && e.ToState() == state
      ensures old(CopyAt(key)).resident.Some? ==>
        e.ToState() == State(old(CopyAt(key)).resident.value.buffers + state.buffers, state.head)
      ensures forall k | k != key :: CopyAt(k) == old(CopyAt(k))
    {
      if key in entities && entities[key] in held {
        e := entities[key];
        e.ApplyState(state);
        Hold(e);
      } else {
        e := Admit(key, state);
      }
    }

    /** Refused whenever the key has an entry, be the entity behind it alive or not. */
    method InsertEntity(e: Entity) returns (ok: bool)
      requires Valid() && e in held && e !in keys
      modifies this`entities, this`keys
      ensures Valid() && Next(old(Residents()), Inserted(e.key, e, ok), Residents())
    {
      ok := e.key !in entities;
      if ok {
        Enter(e);
      }
    }

    method Drop(e: Entity)
      requires Valid() && e in held
      modifies this`held
      ensures Valid() && Next(old(Residents()), Dropped(e), Residents())
      ensures CopyAt(e.key) == old(CopyAt(e.key)) || CopyAt(e.key) == old(CopyAt(e.key)).(resident := None)
      ensures forall k | k != e.key :: CopyAt(k) == old(CopyAt(k))
    {
      held := held - multiset{e};
    }

    method FetchEntity(key: Key) returns (e: Entity)
      requires Valid()
      modifies this`entities, this`held, this`keys
      ensures Valid() && e.key == key && Next(old(Residents()), Asserted(key, e), Residents())
      ensures old(CopyAt(key)).resident.None? ==> fresh(e)
      ensures e in held && key in entities && entities[key] == e
      ensures var copy := old(CopyAt(key));
        e.ToState() == if copy.resident.Some? then copy.resident.value else if copy.stored.Some? then copy.stored.value else DefaultState()
      ensures e.ToState() == Flood.Fetched(old(CopyAt(key))) && CopyAt(key).stored == old(CopyAt(key)).stored
      ensures forall k | k != key :: CopyAt(k) == old(CopyAt(k))
    {
      var local := FetchEntityFromNode(key);
      if local.Some? {
        return local.value;
      }
      var state := if key in storage then storage[key] else DefaultState();
      e := AssertEntity(key, state);
    }

    /** Says whether the stored state changed. */
    method SetState(key: Key, state: State) returns (changed: bool)
      modifies this`storage
      ensures storage == old(storage)[key := state]
      ensures changed == (key !in old(storage) || old(storage)[key] != state)
    {
      changed := key !in storage || storage[key] != state;
      storage := storage[key := state];
    }

    // ---------- committing ----------

    /** Applies the event to a fetched entity and stores the outcome; says whether that changed anything. */
    method ApplyAndStore(e: Entity, event: Event) returns (changed: bool)
      requires Valid() && e in held && e.key in entities && entities[e.key] == e
      modifies this`storage, e
      ensures Valid() && Residents() == old(Residents())
      ensures var s := Applied(old(e.ToState()), event);
        && CopyAt(e.key) == Flood.Copy(Some(s), Some(s))
        && changed == (old(CopyAt(e.key)).stored != Some(s))
      ensures forall k | k != e.key :: CopyAt(k) == old(CopyAt(k))
    {
      e.ApplyEvent(event);
      changed := SetState(e.key, e.ToState());
    }

    /** One round of the commit loop; the caller holds the entity afterwards. */
    method CommitEvent(event: Event) returns (e: Entity, changed: bool)
      requires Valid()
      modifies this`entities, this`held, this`keys, this`storage,
               Upgraded(KeyOf(event))
      ensures var key := KeyOf(event);
        && Valid() && e in held && e.key == key && Next(old(Residents()), Asserted(key, e), Residents())
        && CopyAt(key) == Flood.AfterEvent(old(CopyAt(key)), event)
        && changed == Flood.ChangesStored(old(CopyAt(key)), event)
        && (old(CopyAt(key)).resident.None? ==> fresh(e))
      ensures forall k | k != KeyOf(event) :: CopyAt(k) == old(CopyAt(k))
    {
      var key := KeyOf(event);
      e := FetchEntity(key);
      changed := ApplyAndStore(e, event);
    }

    /** One round of the commit loop. Unless the change is reported, the entity is let go again. */
    method CommitAndReport(event: Event) returns (change: Option<Change>)
      requires Valid()
      modifies this`entities, this`held, this`keys, this`storage, Upgraded(KeyOf(event))
      ensures Valid()
      ensures change.Some? <==> Flood.ChangesStored(old(CopyAt(KeyOf(event))), event)
      ensures change.Some? ==> change.value.event == event && change.value.entity in held && change.value.entity.key == KeyOf(event)
      ensures var after := Flood.AfterEvent(old(CopyAt(KeyOf(event))), event);
        CopyAt(KeyOf(event)) == after || CopyAt(KeyOf(event)) == after.(resident := None)
      ensures forall k | k != KeyOf(event) :: CopyAt(k) == old(CopyAt(k))
      ensures forall k | k in entities :: (k in old(entities) && entities[k] == old(entities)[k]) || fresh(entities[k])
    {
      var e, changed := CommitEvent(event);
      if changed {
        change := Some(Change(e, event));
      } else {
        change := None;
        Drop(e);
      }
    }

    ghost function Copies(among: set<Key>): map<Key, Flood.Copy>
      reads this`entities, this`held, this`storage, entities.Values
    {
      map k | k in among :: CopyAt(k)
    }

    /** Applies the events one by one and returns the changes to notify. */
    method CommitEventsLocal(events: seq<Event>) returns (changes: seq<Change>)
      requires Valid()
      modifies this`entities, this`held, this`keys, this`storage, entities.Values
      ensures Valid()
      ensures AllCommitted(old(Copies(KeysOf(events))), Copies(KeysOf(events)), events, EventsOf(changes))
      ensures forall k | k !in KeysOf(events) :: CopyAt(k) == old(CopyAt(k))
    {
      changes := [];
      ghost var among := KeysOf(events);
      ghost var start := Copies(among);
      for i := 0 to |events|
        invariant Valid()
        invariant forall k | k in entities :: (k in old(entities) && entities[k] == old(entities)[k]) || fresh(entities[k])
        invariant AllCommitted(start, Copies(among), events[..i], EventsOf(changes))
        invariant forall k | k !in among :: CopyAt(k) == old(CopyAt(k))
      {
        ghost var now := Copies(among);
        KeyIsAmong(events, i);
        var change := CommitAndReport(events[i]);
        AllOneMore(start, now, Copies(among), events[..i], EventsOf(changes), events[i], change.Some?);
        OneMore(events, i);
        if change.Some? {
          EventsOfOneMore(changes, change.value);
          changes := changes + [change.value];
        }
      }
      OneMore(events, |events|);
    }

    // ---------- requests ----------

    /** Requests to and from the peer go through from now on. */
    method RegisterPeer(peer: Requests.NodeId)
      modifies this`peers
      ensures Traffic() == old(Traffic()).(peers := old(peers) + {peer})
    {
      peers := peers + {peer};
    }

    /** Its pending requests stay, its requests are no longer accepted. */
    method DeregisterPeer(peer: Requests.NodeId)
      modifies this`peers
      ensures Traffic() == old(Traffic()).(peers := old(peers) - {peer})
    {
      peers := peers - {peer};
    }

    /** Starts a request under a new id; `delivers` says whether sending succeeds once there is a
        connection. Without one the pending entry has been made all the same. */
    method Ask(requestId: Requests.RequestId, to: Requests.NodeId, body: Requests.RequestBody, delivers: bool)
      returns (request: Option<Requests.Request>)
      modifies this`pending
      ensures Traffic() == Requests.AfterAsking(old(Traffic()), requestId, request.Some?)
      ensures pending == old(pending)[requestId := request.Some?]
      ensures request == if to in peers && delivers then Some(Requests.Request(requestId, to, id, body)) else None
    {
      pending := pending[requestId := false];
      if to !in peers {
        return None;
      }
      if !delivers {
        return None;
      }
      pending := pending[requestId := true];
      request := Some(Requests.Request(requestId, to, id, body));
    }

    /** A request from a peer without a connection is ignored; one addressed to another node is not. */
    method Accept(request: Requests.Request) returns (accepted: bool)
      modifies this`serving
      ensures Traffic() == Requests.AfterAccepting(old(Traffic()), request)
      ensures accepted == (request.from in peers)
      ensures serving == if accepted then old(serving) + multiset{request} else old(serving)
    {
      accepted := request.from in peers;
      if accepted {
        serving := serving + multiset{request};
      }
    }

    /** `effect` is what a fetch from storage, or that and the making of a subscription, come to. Events are
        committed here. */
    method HandleRequest(request: Requests.Request, effect: Requests.Effect)
      returns (body: Requests.ResponseBody, changes: seq<Change>)
      requires Valid()
      modifies this`entities, this`held, this`keys, this`storage, entities.Values
      ensures Valid()
      ensures request.body.CommitEvents? ==>
        var events := request.body.events;
        && body == Requests.CommitComplete
        && AllCommitted(old(Copies(KeysOf(events))), Copies(KeysOf(events)), events, EventsOf(changes))
        && forall k | k !in KeysOf(events) :: CopyAt(k) == old(CopyAt(k))
      ensures !request.body.CommitEvents? ==>
        && Requests.Reports(request.body, effect, body)
        && Residents() == old(Residents()) && storage == old(storage) && changes == []
    {
      changes := [];
      match request.body {
        case CommitEvents(events) =>
          changes := CommitEventsLocal(events);
          body := Requests.CommitComplete;
        case Fetch(_, _) =>
          body := if effect.Done? then Requests.Fetched(effect.found) else Requests.Failure;
        case Subscribe(_, _) =>
          body := if effect.Done? then Requests.Subscribed(effect.found, effect.subscription) else Requests.Failure;
        case Unsubscribe(_) =>
          body := Requests.Success;
      }
    }

    /** Sends what was computed for an accepted request back to where it came from. */
    method Answer(request: Requests.Request, body: Requests.ResponseBody) returns (response: Requests.Response)
      requires request in serving
      modifies this`serving
      ensures Traffic() == old(Traffic()).(serving := old(serving) - multiset{request})
      ensures response == Requests.Response(request.id, id, request.from, body)
    {
      serving := serving - multiset{request};
      response := Requests.Response(request.id, id, request.from, body);
    }

    /** Completes the waiting call, if the response is for a pending request. */
    method HandleResponse(response: Requests.Response) returns (completed: Option<Requests.ResponseBody>)
      modifies this`pending
      ensures Traffic() == Requests.AfterResponse(old(Traffic()), response.id)
      ensures completed == if Requests.Completes(old(Traffic()), response.id) then Some(response.body) else None
      ensures completed.Some? <==> response.id in old(pending) && old(pending)[response.id]
      ensures pending == old(pending) - {response.id}
    {
      completed := if response.id in pending && pending[response.id] then Some(response.body) else None;
      pending := pending - {response.id};
    }
  }
}
