/** Several events in flight at once: they flood finitely on every graph of followers without a cycle, and
    on every cycle two concurrent commits may flood for ever. */
module ConcurrentFloods {
  import opened Bytes
  import opened Entities
  import opened Flood
  import opened Followers

  // ---------- any number of events, no cycle ----------

  /** What a message can cost at most: itself, and what the node it goes to forwards, when each node
      forwards at most d messages and only to nodes of lower rank. */
  function Cost(rank: nat, d: nat): (c: nat)
    ensures c >= 1
  {
    if rank == 0 then 1 else 1 + d * Cost(rank - 1, d)
  }

  lemma {:induction false} CostGrows(r: nat, q: nat, d: nat)
    requires r <= q && d >= 1
    ensures Cost(r, d) <= Cost(q, d)
    decreases q
  {
    if r < q {
      CostGrows(r, q - 1, d);
      assert d * Cost(q - 1, d) >= Cost(q - 1, d);
    }
  }

  /** The cost of all messages in flight. */
  ghost function Load(net: multiset<Message>, rank: NodeId -> nat, d: nat): nat
    decreases |net|
  {
    if net == multiset{} then 0
    else
      assert !(net <= multiset{});
      var m :| m in net;
      Cost(rank(m.to), d) + Load(net - multiset{m}, rank, d)
  }

  /** The message the load counts first. */
  lemma CountedFirst(net: multiset<Message>, rank: NodeId -> nat, d: nat) returns (x: Message)
    requires net != multiset{}
    ensures x in net && Load(net, rank, d) == Cost(rank(x.to), d) + Load(net - multiset{x}, rank, d)
  {
    assert !(net <= multiset{});
    x :| x in net && Load(net, rank, d) == Cost(rank(x.to), d) + Load(net - multiset{x}, rank, d);
  }

  lemma {:induction false} LoadWithout(net: multiset<Message>, m: Message, rank: NodeId -> nat, d: nat)
    requires m in net
    ensures Load(net, rank, d) == Cost(rank(m.to), d) + Load(net - multiset{m}, rank, d)
    decreases |net|
  {
    var x := CountedFirst(net, rank, d);
    if x != m {
      LoadWithout(net - multiset{x}, m, rank, d);
      LoadWithout(net - multiset{m}, x, rank, d);
      InEitherOrder(net, x, m);
    }
  }

  lemma InEitherOrder<T>(net: multiset<T>, x: T, y: T)
    ensures net - multiset{x} - multiset{y} == net - multiset{y} - multiset{x}
  {
  }

  lemma OneLess<T>(net: multiset<T>, m: T, rest: multiset<T>)
    ensures net + (multiset{m} + rest) - multiset{m} == net + rest
  {
  }

  lemma OneProductMore(n: nat, c: nat)
    ensures (n + 1) * c == c + n * c
  {
  }

  lemma {:induction false} LoadOfSent(net: multiset<Message>, e: Event, targets: seq<NodeId>, rank: NodeId -> nat, d: nat, top: nat)
    requires d >= 1 && forall t | t in targets :: rank(t) <= top
    ensures Load(net + Sent(e, targets), rank, d) <= Load(net, rank, d) + |targets| * Cost(top, d)
    decreases |targets|
  {
    if targets == [] {
      assert net + Sent(e, targets) == net;
    } else {
      var m, rest := Message(targets[0], e), targets[1..];
      LoadOfSent(net, e, rest, rank, d, top);
      LoadWithout(net + Sent(e, targets), m, rank, d);
      OneLess(net, m, Sent(e, rest));
      CostGrows(rank(m.to), top, d);
      OneProductMore(|rest|, Cost(top, d));
    }
  }

  /** Forwarding goes down the ranks, as it does when nobody follows a follower of its own. */
  predicate Downward(step: Step, rank: NodeId -> nat, d: nat) {
    step.Delivered? ==> |step.targets| <= d && forall t | t in step.targets :: rank(t) < rank(step.to)
  }

  lemma ProductGrows(a: nat, b: nat, c: nat)
    requires a <= b
    ensures a * c <= b * c
  {
  }

  lemma HandlingReducesTheLoad(s: System, step: Step, s': System, rank: NodeId -> nat, d: nat)
    requires Next(s, step, s') && Downward(step, rank, d) && d >= 1
    ensures Load(s'.net, rank, d) + (if Handles(step) then 1 else 0) <= Load(s.net, rank, d)
  {
    match step
    case Delivered(to, e, targets) =>
      var rest := s.net - multiset{Message(to, e)};
      LoadWithout(s.net, Message(to, e), rank, d);
      if targets == [] {
        assert s'.net == rest;
      } else {
        assert targets[0] in targets;
        var top := rank(to) - 1;
        LoadOfSent(rest, e, targets, rank, d, top);
        ProductGrows(|targets|, d, Cost(top, d));
      }
    case Lost(m) => LoadWithout(s.net, m, rank, d);
    case _ =>
  }

  lemma {:induction false} DownwardFloodIsFinite(states: seq<System>, steps: seq<Step>, rank: NodeId -> nat, d: nat)
    requires IsRun(states, steps) && d >= 1 && forall step | step in steps :: Downward(step, rank, d)
    ensures Handled(steps) + Load(states[|steps|].net, rank, d) <= Load(states[0].net, rank, d)
    decreases |steps|
  {
    if steps != [] {
      var k := |steps| - 1;
      DownwardFloodIsFinite(states[..k + 1], steps[..k], rank, d);
      assert Next(states[k], steps[k], states[k + 1]) && steps[k] in steps;
      HandlingReducesTheLoad(states[k], steps[k], states[k + 1], rank, d);
    }
  }

  /** A delivery is forwarded to at most d followers of the node. */
  predicate Within(step: Step, links: Links, d: nat) {
    step.Delivered? ==> |step.targets| <= d && forall t | t in step.targets :: Linked(links, step.to, t)
  }

  ghost predicate RunFrom(start: System, states: seq<System>, steps: seq<Step>, links: Links, d: nat) {
    IsRun(states, steps) && states[0] == start && forall step | step in steps :: Within(step, links, d)
  }

  ghost predicate Bounds(bound: nat, start: System, links: Links, d: nat) {
    forall states, steps | RunFrom(start, states, steps, links, d) :: Handled(steps) <= bound
  }

  /** Whatever events are in flight, there is an end to the messages handled from here. */
  ghost predicate FloodsFinitely(start: System, links: Links, d: nat) {
    exists bound :: Bounds(bound, start, links, d)
  }

  /** On followers without a cycle any number of concurrent events floods finitely. */
  lemma AcyclicFloodIsFinite(start: System, links: Links, d: nat)
    requires Acyclic(links) && d >= 1
    ensures FloodsFinitely(start, links, d)
  {
    var rank := AcyclicHasARank(links);
    forall states, steps | RunFrom(start, states, steps, links, d)
      ensures Handled(steps) <= Load(start.net, rank, d)
    {
      forall step | step in steps
        ensures Downward(step, rank, d)
      {
        assert Within(step, links, d);
      }
      DownwardFloodIsFinite(states, steps, rank, d);
    }
    assert Bounds(Load(start.net, rank, d), start, links, d);
  }

  // ---------- an event travelling along a ring ----------

  function SameAs(s: State): Copy { Copy(Some(s), Some(s)) }

  lemma AfterSame(s: State, e: Event)
    ensures AfterEvent(SameAs(s), e) == SameAs(Applied(s, e))
  {
  }

  lemma SentToOne(e: Event, target: NodeId)
    ensures Sent(e, [target]) == multiset{Message(target, e)}
  {
    assert [target][1..] == [];
  }

  /** The first k nodes have applied the event and passed it on to the next, while another message waits. */
  function Passed(ring: seq<NodeId>, k: nat, before: NodeId -> Copy, e: Event, other: Message): System
    requires ring != [] && k <= |ring|
  {
    System(map n | n in ring :: if n in ring[..k] then AfterEvent(before(n), e) else before(n),
           multiset{Message(Follower(ring, k), e), other})
  }

  function Passing(ring: seq<NodeId>, k: nat, e: Event): Step
    requires k < |ring|
  {
    Delivered(ring[k], e, [Follower(ring, k + 1)])
  }

  lemma NextNodeApplies(ring: seq<NodeId>, k: nat, before: NodeId -> Copy, e: Event, other: Message)
    requires IsRing(ring) && k < |ring|
    ensures var now := Passed(ring, k, before, e, other);
      && ring[k] in now.nodes && now.nodes[ring[k]] == before(ring[k])
      && Passed(ring, k + 1, before, e, other).nodes == now.nodes[ring[k] := AfterEvent(before(ring[k]), e)]
  {
    assert ring[k] !in ring[..k] && ring[k] in ring;
    assert ring[..k + 1] == ring[..k] + [ring[k]];
  }

  lemma MessageMoves<T>(m: T, n: T, other: T)
    ensures multiset{m, other} - multiset{m} + multiset{n} == multiset{n, other}
  {
  }

  lemma PassedAlong(s: System, n: NodeId, e: Event, target: NodeId)
    requires n in s.nodes && Message(n, e) in s.net && ChangesStored(s.nodes[n], e)
    ensures Next(s, Delivered(n, e, [target]),
                 System(s.nodes[n := AfterEvent(s.nodes[n], e)], s.net - multiset{Message(n, e)} + multiset{Message(target, e)}))
  {
    SentToOne(e, target);
  }

  lemma OneFurther(ring: seq<NodeId>, k: nat, before: NodeId -> Copy, e: Event, other: Message)
    requires IsRing(ring) && k < |ring| && ChangesStored(before(ring[k]), e)
    ensures Next(Passed(ring, k, before, e, other), Passing(ring, k, e), Passed(ring, k + 1, before, e, other))
  {
    NextNodeApplies(ring, k, before, e, other);
    MessageMoves(Message(ring[k], e), Message(Follower(ring, k + 1), e), other);
    PassedAlong(Passed(ring, k, before, e, other), ring[k], e, Follower(ring, k + 1));
  }

  /** Every step is a delivery that is forwarded once, along the ring. */
  predicate AlongRing(steps: seq<Step>, ring: seq<NodeId>) {
    forall step | step in steps :: OnRing(step, ring)
  }

  predicate OnRing(step: Step, ring: seq<NodeId>) {
    step.Delivered? && exists k | 0 <= k < |ring| :: step == Passing(ring, k, step.event)
  }

  /** From the k-th node on, if every node is changed by the event, it comes round to the first one. */
  lemma {:induction false} TheRestOfTheWay(ring: seq<NodeId>, k: nat, before: NodeId -> Copy, e: Event, other: Message)
    returns (states: seq<System>, steps: seq<Step>)
    requires IsRing(ring) && k <= |ring| && forall i | k <= i < |ring| :: ChangesStored(before(ring[i]), e)
    ensures IsRun(states, steps) && |steps| == |ring| - k && AlongRing(steps, ring)
    ensures states[0] == Passed(ring, k, before, e, other) && states[|steps|] == Passed(ring, |ring|, before, e, other)
    decreases |ring| - k
  {
    var now := Passed(ring, k, before, e, other);
    if k == |ring| {
      return [now], [];
    }
    var later, rest := TheRestOfTheWay(ring, k + 1, before, e, other);
    OneFurther(ring, k, before, e, other);
    states, steps := [now] + later, [Passing(ring, k, e)] + rest;
    Prepended(now, Passing(ring, k, e), later, rest);
    OneStepMoreAlong(ring, k, e, rest);
  }

  lemma OneStepMoreAlong(ring: seq<NodeId>, k: nat, e: Event, rest: seq<Step>)
    requires k < |ring| && AlongRing(rest, ring)
    ensures AlongRing([Passing(ring, k, e)] + rest, ring)
  {
    assert OnRing(Passing(ring, k, e), ring);
  }

  lemma Prepended(s: System, step: Step, states: seq<System>, steps: seq<Step>)
    requires IsRun(states, steps) && Next(s, step, states[0])
    ensures IsRun([s] + states, [step] + steps)
    ensures ([s] + states)[0] == s && ([s] + states)[|steps| + 1] == states[|steps|]
  {
    var all, way := [s] + states, [step] + steps;
    forall i | 0 <= i < |way|
      ensures Next(all[i], way[i], all[i + 1])
    {
      if i > 0 {
        assert way[i] == steps[i - 1] && all[i] == states[i - 1];
      }
    }
  }

  lemma RunsJoin(first: seq<System>, before: seq<Step>, second: seq<System>, after: seq<Step>)
    requires IsRun(first, before) && IsRun(second, after) && first[|before|] == second[0]
    ensures IsRun(first + second[1..], before + after)
    ensures (first + second[1..])[0] == first[0] && (first + second[1..])[|before + after|] == second[|after|]
  {
    var states, steps := first + second[1..], before + after;
    forall i | 0 <= i < |steps|
      ensures Next(states[i], steps[i], states[i + 1])
    {
      if i < |before| {
        assert steps[i] == before[i];
      } else {
        assert steps[i] == after[i - |before|];
        assert states[i] == second[i - |before|];
      }
    }
  }

  // ---------- two events on a cycle ----------

  lemma HeadFlips(s: State, a: Event, b: Event)
    requires a.id != b.id && b.operations != [] && Holds(s.buffers, b.operations)
    ensures Applied(State(s.buffers, {a.id}), b) == State(s.buffers, {b.id}) != State(s.buffers, {a.id})
  {
    MergingHeldOperations(s.buffers, b.operations);
    assert a.id in {a.id} && a.id !in {b.id};
  }

  /** Two events merged everywhere, `b` applied last at every node, and both about to reach the first node. */
  function Crossed(ring: seq<NodeId>, s: State, a: Event, b: Event): System
    requires ring != []
  {
    Passed(ring, 0, _ => SameAs(State(s.buffers, {b.id})), a, Message(ring[0], b))
  }

  lemma FlippedCopy(s: State, a: Event, b: Event)
    requires a.id != b.id && a.operations != [] && Holds(s.buffers, a.operations)
    ensures var c := SameAs(State(s.buffers, {b.id}));
      ChangesStored(c, a) && AfterEvent(c, a) == SameAs(State(s.buffers, {a.id}))
  {
    HeadFlips(s, b, a);
  }

  lemma RolesChange(ring: seq<NodeId>, s: State, a: Event, b: Event)
    requires ring != [] && a.id != b.id && a.operations != [] && Holds(s.buffers, a.operations)
    ensures Passed(ring, |ring|, _ => SameAs(State(s.buffers, {b.id})), a, Message(ring[0], b)) == Crossed(ring, s, b, a)
  {
    FlippedCopy(s, a, b);
    assert ring[..|ring|] == ring && ring[..0] == [];
    var l, r := Passed(ring, |ring|, _ => SameAs(State(s.buffers, {b.id})), a, Message(ring[0], b)), Crossed(ring, s, b, a);
    assert l.nodes == r.nodes && l.net == r.net;
  }

  /** One event travels once round the cycle, changing and being forwarded by every node, and then the two
      events have changed places. */
  lemma OnceAround(ring: seq<NodeId>, s: State, a: Event, b: Event) returns (states: seq<System>, steps: seq<Step>)
    requires IsRing(ring) && a.id != b.id && a.operations != [] && Holds(s.buffers, a.operations)
    ensures IsRun(states, steps) && |steps| == |ring| && AlongRing(steps, ring)
    ensures states[0] == Crossed(ring, s, a, b) && states[|steps|] == Crossed(ring, s, b, a)
  {
    FlippedCopy(s, a, b);
    states, steps := TheRestOfTheWay(ring, 0, _ => SameAs(State(s.buffers, {b.id})), a, Message(ring[0], b));
    RolesChange(ring, s, a, b);
  }

  /** On every cycle of followers two concurrent events may flood for ever: with both merged everywhere
      each delivery still overwrites the head, counts as a change and is forwarded, and after two
      rounds the system and the messages in flight are what they were. */
  lemma TwoEventsMayFloodForEver(ring: seq<NodeId>, s: State, a: Event, b: Event) returns (states: seq<System>, steps: seq<Step>)
    requires IsRing(ring) && a.id != b.id && a.operations != [] && b.operations != []
    requires Holds(s.buffers, a.operations) && Holds(s.buffers, b.operations)
    ensures IsRun(states, steps) && |steps| == 2 * |ring| && AlongRing(steps, ring)
    ensures states[0] == states[|steps|] == Crossed(ring, s, a, b)
  {
    var first, before := OnceAround(ring, s, a, b);
    var second, after := OnceAround(ring, s, b, a);
    RunsJoin(first, before, second, after);
    states, steps := first + second[1..], before + after;
  }

  lemma {:induction false} AsLongAsYouLike(ring: seq<NodeId>, s: State, a: Event, b: Event, m: nat)
    returns (states: seq<System>, steps: seq<Step>)
    requires IsRing(ring) && a.id != b.id && a.operations != [] && b.operations != []
    requires Holds(s.buffers, a.operations) && Holds(s.buffers, b.operations)
    ensures IsRun(states, steps) && |steps| >= m && AlongRing(steps, ring) && states[0] == Crossed(ring, s, a, b)
    decreases m
  {
    if m == 0 {
      return [Crossed(ring, s, a, b)], [];
    }
    var first, before := TwoEventsMayFloodForEver(ring, s, a, b);
    var second, after := AsLongAsYouLike(ring, s, a, b, m - 1);
    RunsJoin(first, before, second, after);
    states, steps := first + second[1..], before + after;
  }

  // ---------- two concurrent commits ----------

  /** Where two nodes of the cycle have each committed an event and told their follower: the first node
      `a`, the last one `b`. On a cycle of one node both are its own. */
  function TwoCommits(ring: seq<NodeId>, s: State, a: Event, b: Event): System
    requires IsRing(ring)
  {
    if |ring| == 1 then
      System(map[ring[0] := SameAs(Applied(Applied(s, a), b))], multiset{Message(ring[0], a), Message(ring[0], b)})
    else
      System(map n | n in ring :: SameAs(
               if n == ring[0] then Applied(s, a) else if n == ring[|ring| - 1] then Applied(s, b) else s),
             multiset{Message(ring[1], a), Message(ring[0], b)})
  }

  lemma HoldsMore(docs: Documents, more: Documents, operations: seq<(Text, set<Operation>)>)
    requires Holds(docs, operations) && Extends(docs, more)
    ensures Holds(more, operations)
  {
  }

  lemma BothAreHeld(s: State, a: Event, b: Event)
    ensures var both := Applied(Applied(s, a), b);
      Holds(both.buffers, a.operations) && Holds(both.buffers, b.operations)
  {
    AppliedTwice(s, a);
    AppliedTwice(Applied(s, a), b);
    HoldsMore(Applied(s, a).buffers, Applied(Applied(s, a), b).buffers, a.operations);
  }

  /** The order does not matter for the documents, and a second application of `b` restores its head. */
  lemma LastCatchesUp(s: State, a: Event, b: Event)
    requires a.operations != [] && b.operations != []
    ensures Applied(Applied(Applied(s, b), a), b) == Applied(Applied(s, a), b)
    ensures Applied(Applied(s, a), b) == State(Applied(Applied(s, a), b).buffers, {b.id})
  {
    var l, r := Applied(Applied(s, b), a), Applied(Applied(s, a), b);
    HeadsAreOverwritten(s, a, b);
    BothAreHeld(s, a, b);
    MergingHeldOperations(r.buffers, b.operations);
  }

  function BeforeFirstRound(ring: seq<NodeId>, s: State, b: Event): NodeId -> Copy
    requires ring != []
  {
    n => SameAs(if n == ring[|ring| - 1] then Applied(s, b) else s)
  }

  function BeforeSecondRound(ring: seq<NodeId>, s: State, a: Event, b: Event): NodeId -> Copy
    requires ring != []
  {
    n => SameAs(if n == ring[|ring| - 1] then Applied(Applied(s, b), a) else Applied(s, a))
  }

  lemma CommitsStartTheFirstRound(ring: seq<NodeId>, s: State, a: Event, b: Event)
    requires IsRing(ring) && |ring| > 1
    ensures TwoCommits(ring, s, a, b) == Passed(ring, 1, BeforeFirstRound(ring, s, b), a, Message(ring[0], b))
  {
    var l, r := TwoCommits(ring, s, a, b), Passed(ring, 1, BeforeFirstRound(ring, s, b), a, Message(ring[0], b));
    assert ring[..1] == [ring[0]];
    assert ring[0] != ring[|ring| - 1];
    forall n | n in ring
      ensures l.nodes[n] == r.nodes[n]
    {
      var before := BeforeFirstRound(ring, s, b)(n);
      assert before == SameAs(if n == ring[|ring| - 1] then Applied(s, b) else s);
      assert n in ring[..1] <==> n == ring[0];
      if n == ring[0] {
        AfterSame(s, a);
      }
    }
    assert l.nodes == r.nodes;
  }

  lemma FirstRoundEnds(ring: seq<NodeId>, s: State, a: Event, b: Event)
    requires IsRing(ring)
    ensures Passed(ring, |ring|, BeforeFirstRound(ring, s, b), a, Message(ring[0], b)) ==
      Passed(ring, 0, BeforeSecondRound(ring, s, a, b), b, Message(ring[0], a))
  {
    var l := Passed(ring, |ring|, BeforeFirstRound(ring, s, b), a, Message(ring[0], b));
    var r := Passed(ring, 0, BeforeSecondRound(ring, s, a, b), b, Message(ring[0], a));
    assert ring[..|ring|] == ring && ring[..0] == [];
    forall n | n in ring
      ensures l.nodes[n] == r.nodes[n]
    {
      var before := if n == ring[|ring| - 1] then Applied(s, b) else s;
      assert BeforeFirstRound(ring, s, b)(n) == SameAs(before);
      AfterSame(before, a);
      assert BeforeSecondRound(ring, s, a, b)(n) == SameAs(Applied(before, a));
    }
    assert l.nodes == r.nodes && l.net == r.net;
  }

  lemma SecondRoundEnds(ring: seq<NodeId>, s: State, a: Event, b: Event)
    requires IsRing(ring) && a.operations != [] && b.operations != []
    ensures Passed(ring, |ring|, BeforeSecondRound(ring, s, a, b), b, Message(ring[0], a)) ==
      Crossed(ring, Applied(Applied(s, a), b), a, b)
  {
    var both := Applied(Applied(s, a), b);
    var l := Passed(ring, |ring|, BeforeSecondRound(ring, s, a, b), b, Message(ring[0], a));
    var r := Crossed(ring, both, a, b);
    LastCatchesUp(s, a, b);
    assert ring[..|ring|] == ring && ring[..0] == [];
    forall n | n in ring
      ensures l.nodes[n] == r.nodes[n]
    {
      var before := if n == ring[|ring| - 1] then Applied(Applied(s, b), a) else Applied(s, a);
      assert BeforeSecondRound(ring, s, a, b)(n) == SameAs(before);
      AfterSame(before, b);
      assert l.nodes[n] == SameAs(both);
    }
    assert l.nodes == r.nodes && l.net == r.net;
  }

  /** New ids are in no head, so both events change what they meet on the way. */
  lemma NewEventsChange(s: State, a: Event, b: Event)
    requires a.id != b.id && a.id !in s.head && a.operations != [] && b.operations != []
    ensures ChangesStored(SameAs(s), a) && ChangesStored(SameAs(Applied(s, b)), a)
    ensures ChangesStored(SameAs(Applied(s, a)), b) && ChangesStored(SameAs(Applied(Applied(s, b), a)), b)
  {
    assert a.id in {a.id} && a.id !in {b.id};
  }

  /** `a` travels on to the first node, where `b` waits, and then `b` once round. */
  lemma TwoRounds(ring: seq<NodeId>, s: State, a: Event, b: Event) returns (states: seq<System>, steps: seq<Step>)
    requires IsRing(ring) && a.id != b.id && a.id !in s.head && a.operations != [] && b.operations != []
    ensures IsRun(states, steps) && AlongRing(steps, ring)
    ensures states[0] == Passed(ring, 1, BeforeFirstRound(ring, s, b), a, Message(ring[0], b))
    ensures states[|steps|] == Crossed(ring, Applied(Applied(s, a), b), a, b)
  {
    NewEventsChange(s, a, b);
    var first, before := TheRestOfTheWay(ring, 1, BeforeFirstRound(ring, s, b), a, Message(ring[0], b));
    FirstRoundEnds(ring, s, a, b);
    var second, after := TheRestOfTheWay(ring, 0, BeforeSecondRound(ring, s, a, b), b, Message(ring[0], a));
    SecondRoundEnds(ring, s, a, b);
    RunsJoin(first, before, second, after);
    states, steps := first + second[1..], before + after;
  }

  /** From two concurrent commits on any cycle of followers the events get to where they cross for ever. */
  lemma ConcurrentCommitsCross(ring: seq<NodeId>, s: State, a: Event, b: Event) returns (states: seq<System>, steps: seq<Step>)
    requires IsRing(ring) && a.id != b.id && a.id !in s.head && a.operations != [] && b.operations != []
    ensures IsRun(states, steps) && AlongRing(steps, ring)
    ensures states[0] == TwoCommits(ring, s, a, b)
    ensures states[|steps|] == Crossed(ring, Applied(Applied(s, a), b), a, b)
  {
    if |ring| == 1 {
      AloneAtOnce(ring, s, a, b);
      states, steps := [TwoCommits(ring, s, a, b)], [];
    } else {
      CommitsStartTheFirstRound(ring, s, a, b);
      states, steps := TwoRounds(ring, s, a, b);
    }
  }

  lemma AloneAtOnce(ring: seq<NodeId>, s: State, a: Event, b: Event)
    requires IsRing(ring) && |ring| == 1 && a.operations != [] && b.operations != []
    ensures TwoCommits(ring, s, a, b) == Crossed(ring, Applied(Applied(s, a), b), a, b)
  {
    var l, r := TwoCommits(ring, s, a, b), Crossed(ring, Applied(Applied(s, a), b), a, b);
    LastCatchesUp(s, a, b);
    assert ring[..0] == [] && ring == [ring[0]];
    assert l.nodes == r.nodes && l.net == r.net;
  }

  // ---------- the exact condition ----------

  lemma {:induction false} DeliveriesAreHandled(steps: seq<Step>)
    requires forall step | step in steps :: step.Delivered?
    ensures Handled(steps) == |steps|
  {
    if steps != [] {
      assert steps[|steps| - 1] in steps;
      DeliveriesAreHandled(steps[..|steps| - 1]);
    }
  }

  lemma AlongRingIsWithin(steps: seq<Step>, ring: seq<NodeId>, links: Links, d: nat)
    requires AlongRing(steps, ring) && IsCycle(ring, links) && d >= 1
    ensures forall step | step in steps :: step.Delivered? && Within(step, links, d)
  {
    forall step | step in steps
      ensures step.Delivered? && Within(step, links, d)
    {
      assert OnRing(step, ring);
      var k :| 0 <= k < |ring| && step == Passing(ring, k, step.event);
      assert Linked(links, ring[k], Follower(ring, k + 1));
    }
  }

  /** From two concurrent commits on a cycle the deliveries go on as long as you like. */
  lemma LongRunFromTwoCommits(ring: seq<NodeId>, s: State, a: Event, b: Event, m: nat) returns (states: seq<System>, steps: seq<Step>)
    requires IsRing(ring) && a.id != b.id && a.id !in s.head && a.operations != [] && b.operations != []
    ensures IsRun(states, steps) && |steps| >= m && AlongRing(steps, ring) && states[0] == TwoCommits(ring, s, a, b)
  {
    BothAreHeld(s, a, b);
    var first, before := ConcurrentCommitsCross(ring, s, a, b);
    var second, after := AsLongAsYouLike(ring, Applied(Applied(s, a), b), a, b, m);
    RunsJoin(first, before, second, after);
    states, steps := first + second[1..], before + after;
  }

  /** Two concurrent commits on a cycle of followers: no bound holds for all runs from there. */
  lemma CommitsOnACycleFloodWithoutEnd(ring: seq<NodeId>, links: Links, d: nat, s: State, a: Event, b: Event)
    requires IsCycle(ring, links) && d >= 1
    requires a.id != b.id && a.id !in s.head && a.operations != [] && b.operations != []
    ensures !FloodsFinitely(TwoCommits(ring, s, a, b), links, d)
  {
    var start := TwoCommits(ring, s, a, b);
    forall bound: nat
      ensures !Bounds(bound, start, links, d)
    {
      var states, steps := LongRunFromTwoCommits(ring, s, a, b, bound + 1);
      AlongRingIsWithin(steps, ring, links, d);
      DeliveriesAreHandled(steps);
      assert RunFrom(start, states, steps, links, d);
    }
  }

  /** Any number of concurrent events floods finitely from anywhere if and only if nobody follows, through
      others, itself. */
  lemma ConcurrentFloodsEndIffAcyclic(links: Links, d: nat)
    requires d >= 1
    ensures (forall start :: FloodsFinitely(start, links, d)) <==> Acyclic(links)
  {
    if Acyclic(links) {
      forall start
        ensures FloodsFinitely(start, links, d)
      {
        AcyclicFloodIsFinite(start, links, d);
      }
    } else {
      var ring :| IsCycle(ring, links);
      var a, b := Event(1, 0, [], [([], {})], {}), Event(2, 0, [], [([], {})], {});
      CommitsOnACycleFloodWithoutEnd(ring, links, d, DefaultState(), a, b);
    }
  }
}
