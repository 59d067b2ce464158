/** Flooding over real subscriptions: which peers a node forwards an event to is decided by its reactor,
    from the registrations its peers made. */
module Replication {
  import opened Bytes
  import opened Entities
  import opened Flood
  import opened Followers
  import Filter
  import LiveQueries
  import Watching

  /** A peer's subscription at a node. */
  datatype Following = Following(peer: NodeId, reg: LiveQueries.Registration)

  type Subscriptions = map<NodeId, seq<Following>>

  /** How the fields of an entity read from its documents; Yrs decides that. */
  type Reading = State -> map<Text, Text>

  function EntityOf(key: Key, read: Reading, s: State): Filter.Entity {
    Filter.Entity(key.id, key.collection, read(s))
  }

  function ChangeOf(key: Key, read: Reading, s: State, e: Event): LiveQueries.EntityChange {
    LiveQueries.EntityChange(EntityOf(key, read, s), [LiveQueries.Event(e.id)])
  }

  /** What the subscription's callback forwards when the changed entity is notified. */
  function ForwardedTo(f: Following, c: LiveQueries.EntityChange): seq<LiveQueries.Event> {
    LiveQueries.Forwarded(LiveQueries.Steps(LiveQueries.Interested, LiveQueries.Work(f.reg, []), [c]).pending)
  }

  /** The peers of the subscriptions that forward anything. */
  function Hearers(fs: seq<Following>, c: LiveQueries.EntityChange): seq<NodeId> {
    if fs == [] then []
    else (if ForwardedTo(fs[0], c) == [] then [] else [fs[0].peer]) + Hearers(fs[1..], c)
  }

  function At(subs: Subscriptions, n: NodeId): seq<Following> {
    if n in subs then subs[n] else []
  }

  /** A delivery that changes the stored state is notified, and forwarded by the subscriptions, in any
      order. The registrations are those from before the event: it changes each stored state once. */
  predicate ReactorDecides(s: System, step: Step, subs: Subscriptions, key: Key, read: Reading) {
    step.Delivered? ==>
      && step.to in s.nodes
      && var c := s.nodes[step.to];
         if ChangesStored(c, step.event)
         then multiset(step.targets) ==
           multiset(Hearers(At(subs, step.to), ChangeOf(key, read, Applied(Fetched(c), step.event), step.event)))
         else step.targets == []
  }

  // ---------- what one subscription forwards ----------

  /** The reactor notices the change, and the query held the entity before it or selects it after. */
  predicate Hears(reg: LiveQueries.Registration, e: Filter.Entity) {
    LiveQueries.Interested(reg, e) && (e.id in reg.matching || Filter.Matches(e, reg.query))
  }

  /** One change is forwarded by a subscription exactly if it is heard of. */
  lemma HeardChangesAreForwarded(f: Following, c: LiveQueries.EntityChange)
    ensures ForwardedTo(f, c) == if Hears(f.reg, c.entity) then c.events else []
  {
    var w := LiveQueries.Work(f.reg, []);
    assert [c][..0] == [];
    assert LiveQueries.Steps(LiveQueries.Interested, w, [c]) == LiveQueries.Step(LiveQueries.Interested, w, c);
    var kind := LiveQueries.KindOf(c.entity.id in f.reg.matching, Filter.Matches(c.entity, f.reg.query));
    if kind.Some? {
      var change := LiveQueries.ItemChange(kind.value, c.entity.id, c.events);
      LiveQueries.ForwardedOneMore([], change);
      assert [] + [change] == [change];
      assert LiveQueries.Forwarded([]) + c.events == c.events;
    }
  }

  /** With a complete predicate and result sets of its own collection only, that is, exactly if the change
      concerns it. */
  lemma ConcernedSubscriptionsForward(f: Following, c: LiveQueries.EntityChange, home: int -> Text)
    requires LiveQueries.AtHome(home, f.reg) && Watching.Complete(f.reg.collection, f.reg.query)
    requires c.entity.collection == home(c.entity.id)
    ensures Hears(f.reg, c.entity) <==> LiveQueries.Concerns(f.reg, c.entity)
    ensures ForwardedTo(f, c) == if LiveQueries.Concerns(f.reg, c.entity) then c.events else []
  {
    HeardChangesAreForwarded(f, c);
  }

  lemma {:induction false} HearersHear(fs: seq<Following>, c: LiveQueries.EntityChange, m: NodeId)
    requires c.events != []
    ensures m in Hearers(fs, c) <==> exists f :: f in fs && f.peer == m && Hears(f.reg, c.entity)
  {
    if fs != [] {
      HeardChangesAreForwarded(fs[0], c);
      HearersHear(fs[1..], c, m);
      assert forall f :: f in fs <==> f == fs[0] || f in fs[1..];
    }
  }

  // ---------- runs decided by the reactors follow the links ----------

  /** The links of an event: from each node to the peers whose subscription there hears of what the event
      makes of the node's state. */
  function LinksOf(nodes: set<NodeId>, subs: Subscriptions, key: Key, read: Reading, base: NodeId -> State, e: Event): Links {
    map n | n in nodes ::
      set f | f in At(subs, n) && Hears(f.reg, EntityOf(key, read, Applied(base(n), e))) :: f.peer
  }

  /** While nodes are at rest but for the event, a delivery forwards to exactly the linked nodes. */
  lemma DecidedStepFollowsLinks(s: System, step: Step, subs: Subscriptions, key: Key, read: Reading, base: NodeId -> State, e: Event)
    requires ReactorDecides(s, step, subs, key, read) && !step.Lost? && (step.Delivered? ==> step.event == e)
    requires CopiesOf(s, base, e)
    ensures var links := LinksOf(s.nodes.Keys, subs, key, read, base, e);
      Forwards(s, step, links) && Confined(step, links)
  {
    if step.Delivered? && ChangesStored(s.nodes[step.to], e) {
      var n := step.to;
      EventKeepsCopy(s.nodes[n], base(n), e);
      var c := ChangeOf(key, read, Applied(base(n), e), e);
      forall m
        ensures m in step.targets <==> Linked(LinksOf(s.nodes.Keys, subs, key, read, base, e), n, m)
      {
        HearersHear(At(subs, n), c, m);
        assert m in step.targets <==> m in multiset(step.targets);
      }
    }
  }

  ghost predicate DecidedRun(states: seq<System>, steps: seq<Step>, subs: Subscriptions, key: Key, read: Reading) {
    && IsRun(states, steps)
    && forall i {:trigger steps[i]} | 0 <= i < |steps| ::
      ReactorDecides(states[i], steps[i], subs, key, read) && !steps[i].Lost?
  }

  /** So every run of the nodes' own reactors is faithful to the links, and confined to them. */
  lemma DecidedRunsFollowLinks(states: seq<System>, steps: seq<Step>, subs: Subscriptions, key: Key, read: Reading,
                               base: NodeId -> State, e: Event)
    requires DecidedRun(states, steps, subs, key, read) && Only(states[0].net, e) && CopiesOf(states[0], base, e)
    ensures var links := LinksOf(states[0].nodes.Keys, subs, key, read, base, e);
      FaithfulRun(states, steps, links) && forall step | step in steps :: Confined(step, links)
  {
    var links := LinksOf(states[0].nodes.Keys, subs, key, read, base, e);
    forall i | 0 <= i < |steps|
      ensures Forwards(states[i], steps[i], links) && Confined(steps[i], links)
    {
      RunSendsOnly(states, steps, e, i);
      RunKeepsCopies(states, steps, base, e, i);
      assert Next(states[i], steps[i], states[i + 1]) && ReactorDecides(states[i], steps[i], subs, key, read);
      DecidedStepFollowsLinks(states[i], steps[i], subs, key, read, base, e);
    }
  }

  /** `n` ends up as it should: it has stored the event if and only if it lies on a walk along the links
      from a node that was told, and then it stores exactly what the event makes of its own state. */
  ghost predicate ReachedExactly(start: System, end: System, links: Links, base: NodeId -> State, e: Event, n: NodeId) {
    && (n in end.nodes && Knows(end.nodes[n], e) <==> Follows(start, links, e, n))
    && (Follows(start, links, e, n) ==> n in end.nodes && end.nodes[n].stored == Some(Applied(base(n), e)))
  }

  /** When the flood of an event is over, it has reached exactly the nodes on a chain of subscriptions that
      each hear of what the event makes of the entity, whatever their predicates. */
  lemma EventReachesExactlyWhoHears(states: seq<System>, steps: seq<Step>, subs: Subscriptions, key: Key, read: Reading,
                                    base: NodeId -> State, e: Event, n: NodeId)
    requires DecidedRun(states, steps, subs, key, read) && Only(states[0].net, e) && CopiesOf(states[0], base, e)
    requires PassedOn(states[0], LinksOf(states[0].nodes.Keys, subs, key, read, base, e), e)
    requires states[|steps|].net == multiset{}
    ensures ReachedExactly(states[0], states[|steps|], LinksOf(states[0].nodes.Keys, subs, key, read, base, e), base, e, n)
  {
    var links := LinksOf(states[0].nodes.Keys, subs, key, read, base, e);
    DecidedRunsFollowLinks(states, steps, subs, key, read, base, e);
    FloodReachesExactlyTheFollowers(states, steps, links, e, n);
    if Follows(states[0], links, e, n) {
      var path :| IsPath(path, links) && Informed(states[0], path[0], e) && path[|path| - 1] == n;
      FollowersAgree(states, steps, links, base, e, path);
    }
  }

  // ---------- complete predicates ----------

  /** Predicates are complete in their collection, and result sets hold ids of their own collection. */
  ghost predicate Proper(subs: Subscriptions, home: int -> Text) {
    forall n, f | n in subs && f in subs[n] ::
      LiveQueries.AtHome(home, f.reg) && Watching.Complete(f.reg.collection, f.reg.query)
  }

  /** From each node to the peers whose subscription there is concerned by what the event makes of the
      node's state: this does not speak of indexes. */
  function ConcernedLinks(nodes: set<NodeId>, subs: Subscriptions, key: Key, read: Reading, base: NodeId -> State, e: Event): Links {
    map n | n in nodes ::
      set f | f in At(subs, n) && LiveQueries.Concerns(f.reg, EntityOf(key, read, Applied(base(n), e))) :: f.peer
  }

  lemma LinksAreConcerned(nodes: set<NodeId>, subs: Subscriptions, key: Key, read: Reading, base: NodeId -> State, e: Event,
                          home: int -> Text)
    requires Proper(subs, home) && home(key.id) == key.collection
    ensures LinksOf(nodes, subs, key, read, base, e) == ConcernedLinks(nodes, subs, key, read, base, e)
  {
    var links, concerned := LinksOf(nodes, subs, key, read, base, e), ConcernedLinks(nodes, subs, key, read, base, e);
    forall n | n in nodes
      ensures links[n] == concerned[n]
    {
      var c := ChangeOf(key, read, Applied(base(n), e), e);
      forall f | f in At(subs, n)
        ensures Hears(f.reg, c.entity) <==> LiveQueries.Concerns(f.reg, c.entity)
      {
        ConcernedSubscriptionsForward(f, c, home);
      }
    }
  }

  /** With complete predicates the flood of an event reaches exactly the nodes on a chain of subscriptions
      that each are concerned by what the event makes of the entity. */
  lemma EventReachesExactlyTheConcerned(states: seq<System>, steps: seq<Step>, subs: Subscriptions, key: Key, read: Reading,
                                        base: NodeId -> State, e: Event, home: int -> Text, n: NodeId)
    requires DecidedRun(states, steps, subs, key, read) && Only(states[0].net, e) && CopiesOf(states[0], base, e)
    requires Proper(subs, home) && home(key.id) == key.collection
    requires PassedOn(states[0], ConcernedLinks(states[0].nodes.Keys, subs, key, read, base, e), e)
    requires states[|steps|].net == multiset{}
    ensures ReachedExactly(states[0], states[|steps|], ConcernedLinks(states[0].nodes.Keys, subs, key, read, base, e), base, e, n)
  {
    LinksAreConcerned(states[0].nodes.Keys, subs, key, read, base, e, home);
    EventReachesExactlyWhoHears(states, steps, subs, key, read, base, e, n);
  }
}
