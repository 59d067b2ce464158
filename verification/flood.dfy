/** Event flooding: nodes that subscribed to one another forward a committed event whenever it changed
    their stored state. One event floods finitely; two concurrent ones may flood for ever. */
module Flood {
  import opened Bytes
  import opened Entities
  import opened Followers

  /** One entity at one node: the state of the resident entity, if one is alive, and the stored state. */
  datatype Copy = Copy(resident: Option<State>, stored: Option<State>)

  function Stored(c: Copy): State {
    if c.stored.Some? then c.stored.value else DefaultState()
  }

  function Fetched(c: Copy): State {
    if c.resident.Some? then c.resident.value else Stored(c)
  }

  /** Apply the event to the fetched entity and store the result. */
  function AfterEvent(c: Copy, e: Event): Copy {
    var s := Applied(Fetched(c), e);
    Copy(Some(s), Some(s))
  }

  /** What `set_state` answers for it. */
  predicate ChangesStored(c: Copy, e: Event) {
    c.stored != Some(Applied(Fetched(c), e))
  }

  /** A query that read the stored state asserts it on the resident entity. */
  function AfterQuery(c: Copy): Copy {
    var s := Stored(c);
    c.(resident := Some(if c.resident.Some? then State(c.resident.value.buffers + s.buffers, s.head) else s))
  }

  datatype Message = Message(to: NodeId, event: Event)

  datatype System = System(nodes: map<NodeId, Copy>, net: multiset<Message>)

  /** A delivery that changes the stored state sends the event to the subscribed peers, whichever they
      are; entities are dropped and queried at any time; messages get lost with their connection. */
  datatype Step =
    | Delivered(to: NodeId, event: Event, targets: seq<NodeId>)
    | Lost(message: Message)
    | Evicted(node: NodeId)
    | Queried(node: NodeId)

  function Sent(e: Event, targets: seq<NodeId>): multiset<Message> {
    if targets == [] then multiset{} else multiset{Message(targets[0], e)} + Sent(e, targets[1..])
  }

  predicate Next(s: System, step: Step, s': System) {
    match step
    case Delivered(to, e, targets) =>
      && to in s.nodes && Message(to, e) in s.net
      && (!ChangesStored(s.nodes[to], e) ==> targets == [])
      && s' == System(s.nodes[to := AfterEvent(s.nodes[to], e)], s.net - multiset{Message(to, e)} + Sent(e, targets))
    case Lost(m) => m in s.net && s' == s.(net := s.net - multiset{m})
    case Evicted(n) => n in s.nodes && s' == s.(nodes := s.nodes[n := s.nodes[n].(resident := None)])
    case Queried(n) => n in s.nodes && s' == s.(nodes := s.nodes[n := AfterQuery(s.nodes[n])])
  }

  ghost predicate IsRun(states: seq<System>, steps: seq<Step>) {
    && |states| == |steps| + 1
    && forall i {:trigger steps[i]} | 0 <= i < |steps| :: Next(states[i], steps[i], states[i + 1])
  }

  // ---------- one event ----------

  /** The stored state has absorbed the event. */
  predicate Knows(c: Copy, e: Event) {
    c.stored.Some? && Applied(c.stored.value, e) == c.stored.value
  }

  /** Nothing about the event can change this copy again. */
  predicate Settled(c: Copy, e: Event) {
    Knows(c, e) && (c.resident.None? || c.resident == c.stored)
  }

  predicate Only(net: multiset<Message>, e: Event) {
    forall m | m in net :: m.event == e
  }

  function Unsettled(s: System, e: Event): set<NodeId> {
    set n | n in s.nodes && !Settled(s.nodes[n], e)
  }

  lemma {:induction false} SentCounts(e: Event, targets: seq<NodeId>)
    ensures |Sent(e, targets)| == |targets| && Only(Sent(e, targets), e)
    ensures forall t :: t in targets <==> Message(t, e) in Sent(e, targets)
  {
    if targets != [] {
      SentCounts(e, targets[1..]);
      assert forall t :: t in targets <==> t == targets[0] || t in targets[1..];
    }
  }

  lemma EventSettles(c: Copy, e: Event)
    ensures Settled(AfterEvent(c, e), e)
    ensures Settled(c, e) ==> !ChangesStored(c, e) && AfterEvent(c, e).stored == c.stored
    ensures Knows(c, e) && c.resident.None? ==> !ChangesStored(c, e)
    ensures !ChangesStored(c, e) ==> Knows(c, e) && AfterEvent(c, e).stored == c.stored
  {
    AppliedTwice(Fetched(c), e);
  }

  lemma QueriesKeepSettled(c: Copy, e: Event)
    requires Settled(c, e)
    ensures Settled(AfterQuery(c), e) && Settled(c.(resident := None), e)
  {
    var s := c.stored.value;
    assert s.buffers + s.buffers == s.buffers;
  }

  /** A settled copy stays settled and stored as it is; one whose stored state changes is settled then. */
  predicate Settles(c: Copy, c': Copy, e: Event) {
    && (Settled(c, e) ==> Settled(c', e) && c'.stored == c.stored)
    && (c'.stored != c.stored ==> Settled(c', e))
  }

  lemma CopySettles(c: Copy, e: Event)
    ensures Settles(c, AfterEvent(c, e), e) && Settles(c, AfterQuery(c), e) && Settles(c, c.(resident := None), e)
  {
    EventSettles(c, e);
    if Settled(c, e) {
      QueriesKeepSettled(c, e);
    }
  }

  lemma OnlyTheEventIsSent(s: System, step: Step, s': System, e: Event)
    requires Next(s, step, s') && Only(s.net, e)
    ensures s'.nodes.Keys == s.nodes.Keys && Only(s'.net, e)
  {
    if step.Delivered? {
      SentCounts(e, step.targets);
    }
  }

  lemma StepSettles(s: System, step: Step, s': System, e: Event, n: NodeId)
    requires Next(s, step, s') && Only(s.net, e) && n in s.nodes
    ensures n in s'.nodes && Settles(s.nodes[n], s'.nodes[n], e)
  {
    CopySettles(s.nodes[n], e);
  }

  /** Messages handled so far. */
  predicate Handles(step: Step) {
    step.Delivered? || step.Lost?
  }

  lemma SubsetCounts<T>(a: set<T>, b: set<T>)
    requires a <= b
    ensures |a| <= |b| && (a != b ==> |a| < |b|)
  {
    assert b == a + (b - a) && |b| == |a| + |b - a|;
  }

  /** Every message handled decreases (nodes that are not settled, messages in flight)
      lexicographically; the steps in between increase neither. */
  lemma MessagesDecreaseTheMeasure(s: System, step: Step, s': System, e: Event)
    requires Next(s, step, s') && Only(s.net, e)
    ensures |Unsettled(s', e)| <= |Unsettled(s, e)|
    ensures !Handles(step) ==> s'.net == s.net
    ensures Handles(step) ==> |Unsettled(s', e)| < |Unsettled(s, e)| || |s'.net| < |s.net|
    ensures step.Delivered? && step.targets != [] ==> |Unsettled(s', e)| < |Unsettled(s, e)|
    ensures step.Delivered? ==> |s'.net| == |s.net| - 1 + |step.targets|
    ensures step.Lost? ==> |s'.net| == |s.net| - 1
  {
    OnlyTheEventIsSent(s, step, s', e);
    forall n | n in s.nodes && Settled(s.nodes[n], e)
      ensures n in s'.nodes && Settled(s'.nodes[n], e)
    {
      StepSettles(s, step, s', e, n);
    }
    SubsetCounts(Unsettled(s', e), Unsettled(s, e));
    if step.Delivered? {
      SentCounts(e, step.targets);
      EventSettles(s.nodes[step.to], e);
      if step.targets != [] {
        assert step.to in Unsettled(s, e) && step.to !in Unsettled(s', e);
      }
    }
  }

  lemma {:induction false} RunSendsOnly(states: seq<System>, steps: seq<Step>, e: Event, j: nat)
    requires IsRun(states, steps) && Only(states[0].net, e) && j < |states|
    ensures Only(states[j].net, e) && states[j].nodes.Keys == states[0].nodes.Keys
  {
    if j > 0 {
      RunSendsOnly(states, steps, e, j - 1);
      assert Next(states[j - 1], steps[j - 1], states[j]);
      OnlyTheEventIsSent(states[j - 1], steps[j - 1], states[j], e);
    }
  }

  lemma {:induction false} SettledForGood(states: seq<System>, steps: seq<Step>, e: Event, n: NodeId, i: nat, j: nat)
    requires IsRun(states, steps) && Only(states[0].net, e) && i <= j < |states|
    requires n in states[i].nodes && Settled(states[i].nodes[n], e)
    ensures n in states[j].nodes && Settled(states[j].nodes[n], e) && states[j].nodes[n].stored == states[i].nodes[n].stored
  {
    if i < j {
      SettledForGood(states, steps, e, n, i, j - 1);
      RunSendsOnly(states, steps, e, j - 1);
      assert Next(states[j - 1], steps[j - 1], states[j]);
      StepSettles(states[j - 1], steps[j - 1], states[j], e, n);
    }
  }

  lemma ChangeSettles(states: seq<System>, steps: seq<Step>, e: Event, n: NodeId, i: nat)
    requires IsRun(states, steps) && Only(states[0].net, e) && n in states[0].nodes && i < |steps|
    ensures n in states[i].nodes && n in states[i + 1].nodes
    ensures states[i + 1].nodes[n].stored != states[i].nodes[n].stored ==> Settled(states[i + 1].nodes[n], e)
  {
    RunSendsOnly(states, steps, e, i);
    RunSendsOnly(states, steps, e, i + 1);
    assert Next(states[i], steps[i], states[i + 1]);
    StepSettles(states[i], steps[i], states[i + 1], e, n);
  }

  /** With one event in flight, whatever the nodes know before and whoever subscribed to whom, no
      node's stored state changes twice. */
  lemma StoredStateChangesAtMostOnce(states: seq<System>, steps: seq<Step>, e: Event, n: NodeId, i: nat, j: nat)
    requires IsRun(states, steps) && Only(states[0].net, e) && n in states[0].nodes && i < j < |steps|
    ensures n in states[i].nodes && n in states[i + 1].nodes && n in states[j].nodes && n in states[j + 1].nodes
    ensures states[i + 1].nodes[n].stored != states[i].nodes[n].stored ==>
      states[j + 1].nodes[n].stored == states[j].nodes[n].stored
  {
    ChangeSettles(states, steps, e, n, i);
    ChangeSettles(states, steps, e, n, j);
    if states[i + 1].nodes[n].stored != states[i].nodes[n].stored {
      SettledForGood(states, steps, e, n, i + 1, j);
      SettledForGood(states, steps, e, n, i + 1, j + 1);
    }
  }

  function Handled(steps: seq<Step>): nat {
    if steps == [] then 0 else Handled(steps[..|steps| - 1]) + if Handles(steps[|steps| - 1]) then 1 else 0
  }

  predicate FanOut(steps: seq<Step>, d: nat) {
    forall i | 0 <= i < |steps| && steps[i].Delivered? :: |steps[i].targets| <= d
  }

  lemma Times(d: nat, a: nat, b: nat)
    requires a < b
    ensures d * a + d <= d * b
  {
    var rest := b - a - 1;
    assert d * b == d * a + d + d * rest;
  }

  /** What a step handles and sends is paid for by the node it settles. */
  lemma StepPays(s: System, step: Step, s': System, e: Event, d: nat)
    requires Next(s, step, s') && Only(s.net, e) && (step.Delivered? ==> |step.targets| <= d)
    ensures (if Handles(step) then 1 else 0) + |s'.net| + d * |Unsettled(s', e)| <= |s.net| + d * |Unsettled(s, e)|
  {
    MessagesDecreaseTheMeasure(s, step, s', e);
    if |Unsettled(s', e)| < |Unsettled(s, e)| {
      Times(d, |Unsettled(s', e)|, |Unsettled(s, e)|);
    }
  }

  /** The flood is finite: with at most d subscriptions forwarded from each node, no run handles more
      messages than were in flight plus d for each node that had not settled. */
  lemma {:induction false} FloodIsFinite(states: seq<System>, steps: seq<Step>, e: Event, d: nat)
    requires IsRun(states, steps) && Only(states[0].net, e) && FanOut(steps, d)
    ensures Handled(steps) + |states[|steps|].net| + d * |Unsettled(states[|steps|], e)|
         <= |states[0].net| + d * |Unsettled(states[0], e)|
    decreases |steps|
  {
    if steps != [] {
      var k := |steps| - 1;
      FloodIsFinite(states[..k + 1], steps[..k], e, d);
      RunSendsOnly(states, steps, e, k);
      assert Next(states[k], steps[k], states[k + 1]);
      StepPays(states[k], steps[k], states[k + 1], e, d);
    }
  }

  // ---------- where the flood ends ----------

  /** Every change is forwarded to at least the linked nodes, and no message is lost. */
  predicate Forwards(s: System, step: Step, links: Links) {
    match step
    case Delivered(to, e, targets) =>
      to in s.nodes && (ChangesStored(s.nodes[to], e) && to in links ==> forall m | m in links[to] :: m in targets)
    case Lost(_) => false
    case _ => true
  }

  ghost predicate FaithfulRun(states: seq<System>, steps: seq<Step>, links: Links) {
    && IsRun(states, steps)
    && forall i {:trigger steps[i]} | 0 <= i < |steps| :: Forwards(states[i], steps[i], links)
  }

  predicate Informed(s: System, n: NodeId, e: Event) {
    (n in s.nodes && Knows(s.nodes[n], e)) || Message(n, e) in s.net
  }

  /** The nodes linked from a node that knows the event know it too or are about to be told. */
  predicate PassedOn(s: System, links: Links, e: Event) {
    forall n, m | n in s.nodes && Knows(s.nodes[n], e) && n in links && m in links[n] :: Informed(s, m, e)
  }

  lemma StepInforms(s: System, step: Step, s': System, links: Links, e: Event, m: NodeId)
    requires Next(s, step, s') && Only(s.net, e) && !step.Lost? && Informed(s, m, e)
    ensures Informed(s', m, e)
  {
    if step.Delivered? {
      EventSettles(s.nodes[step.to], e);
    }
  }

  lemma NewlyKnown(s: System, step: Step, s': System, e: Event, n: NodeId)
    requires Next(s, step, s') && Only(s.net, e) && n in s.nodes && Knows(s'.nodes[n], e) && !Knows(s.nodes[n], e)
    ensures step.Delivered? && step.to == n && step.event == e && ChangesStored(s.nodes[n], e)
  {
    if step.Delivered? {
      EventSettles(s.nodes[step.to], e);
    }
  }

  lemma StepPassesOn(s: System, step: Step, s': System, links: Links, e: Event)
    requires Next(s, step, s') && Only(s.net, e) && PassedOn(s, links, e)
    requires Forwards(s, step, links)
    ensures PassedOn(s', links, e)
  {
    forall n, m | n in s'.nodes && Knows(s'.nodes[n], e) && n in links && m in links[n]
      ensures Informed(s', m, e)
    {
      if Knows(s.nodes[n], e) {
        StepInforms(s, step, s', links, e, m);
      } else {
        NewlyKnown(s, step, s', e, n);
        SentCounts(e, step.targets);
        assert m in step.targets && Message(m, e) in Sent(e, step.targets);
      }
    }
  }

  lemma {:induction false} RunPassesOn(states: seq<System>, steps: seq<Step>, links: Links, e: Event, j: nat, origin: NodeId)
    requires FaithfulRun(states, steps, links) && Only(states[0].net, e) && PassedOn(states[0], links, e) && j < |states|
    requires Informed(states[0], origin, e)
    ensures Only(states[j].net, e) && PassedOn(states[j], links, e) && Informed(states[j], origin, e)
  {
    if j > 0 {
      RunPassesOn(states, steps, links, e, j - 1, origin);
      var step := steps[j - 1];
      OnlyTheEventIsSent(states[j - 1], step, states[j], e);
      StepPassesOn(states[j - 1], step, states[j], links, e);
      StepInforms(states[j - 1], step, states[j], links, e, origin);
    }
  }

  lemma {:induction false} KnowledgeSpreads(s: System, links: Links, e: Event, path: seq<NodeId>, i: nat)
    requires s.net == multiset{} && PassedOn(s, links, e) && IsPath(path, links) && Informed(s, path[0], e) && i < |path|
    ensures path[i] in s.nodes && Knows(s.nodes[path[i]], e)
  {
    if i > 0 {
      KnowledgeSpreads(s, links, e, path, i - 1);
      var n, m := path[i - 1], path[i - 1 + 1];
      assert Linked(links, n, m);
      assert Informed(s, m, e);
    }
  }

  /** When the last message has been handled, every node on any walk along subscriptions from a node
      that was told has stored the event. */
  lemma FloodReachesEveryFollower(states: seq<System>, steps: seq<Step>, links: Links, e: Event, path: seq<NodeId>)
    requires FaithfulRun(states, steps, links) && Only(states[0].net, e) && PassedOn(states[0], links, e)
    requires states[|steps|].net == multiset{} && IsPath(path, links) && Informed(states[0], path[0], e)
    ensures var last, s := path[|path| - 1], states[|steps|];
      last in s.nodes && Knows(s.nodes[last], e)
  {
    RunPassesOn(states, steps, links, e, |steps|, path[0]);
    KnowledgeSpreads(states[|steps|], links, e, path, |path| - 1);
  }

  /** The node lies on a walk along subscriptions from a node that was told at the start. */
  ghost predicate Follows(start: System, links: Links, e: Event, n: NodeId) {
    exists path :: IsPath(path, links) && Informed(start, path[0], e) && path[|path| - 1] == n
  }

  /** Nothing is forwarded but along the links. */
  predicate Confined(step: Step, links: Links) {
    step.Delivered? ==> forall t | t in step.targets :: Linked(links, step.to, t)
  }

  lemma FollowsOneMore(start: System, links: Links, e: Event, n: NodeId, m: NodeId)
    requires Follows(start, links, e, n) && Linked(links, n, m)
    ensures Follows(start, links, e, m)
  {
    var path :| IsPath(path, links) && Informed(start, path[0], e) && path[|path| - 1] == n;
    var longer := path + [m];
    forall i | 0 <= i < |longer| - 1
      ensures Linked(links, longer[i], longer[i + 1])
    {
      assert i < |path| - 1 ==> longer[i + 1] == path[i + 1];
    }
    assert IsPath(longer, links) && longer[0] == path[0] && longer[|longer| - 1] == m;
  }

  /** Who is newly informed was sent the event, by a node that was informed. */
  lemma NewlyInformed(s: System, step: Step, s': System, e: Event, m: NodeId)
    requires Next(s, step, s') && Only(s.net, e) && Informed(s', m, e) && !Informed(s, m, e)
    ensures step.Delivered? && m in step.targets && Informed(s, step.to, e)
  {
    if step.Delivered? {
      SentCounts(e, step.targets);
    }
  }

  /** Nobody hears of the event but by a walk along the links. */
  lemma {:induction false} OnlyFollowersHear(states: seq<System>, steps: seq<Step>, links: Links, e: Event, n: NodeId, j: nat)
    requires IsRun(states, steps) && Only(states[0].net, e) && j < |states| && Informed(states[j], n, e)
    requires forall step | step in steps :: Confined(step, links)
    ensures Follows(states[0], links, e, n)
    decreases j
  {
    if j == 0 {
      assert IsPath([n], links);
    } else {
      RunSendsOnly(states, steps, e, j - 1);
      assert Next(states[j - 1], steps[j - 1], states[j]) && steps[j - 1] in steps;
      if Informed(states[j - 1], n, e) {
        OnlyFollowersHear(states, steps, links, e, n, j - 1);
      } else {
        NewlyInformed(states[j - 1], steps[j - 1], states[j], e, n);
        OnlyFollowersHear(states, steps, links, e, steps[j - 1].to, j - 1);
        FollowsOneMore(states[0], links, e, steps[j - 1].to, n);
      }
    }
  }

  /** So when the last message has been handled, a node has stored the event if and only if it lies on a
      walk along subscriptions from a node that was told at the start. */
  lemma FloodReachesExactlyTheFollowers(states: seq<System>, steps: seq<Step>, links: Links, e: Event, n: NodeId)
    requires FaithfulRun(states, steps, links) && Only(states[0].net, e) && PassedOn(states[0], links, e)
    requires states[|steps|].net == multiset{} && forall step | step in steps :: Confined(step, links)
    ensures var s := states[|steps|];
      n in s.nodes && Knows(s.nodes[n], e) <==> Follows(states[0], links, e, n)
  {
    if Follows(states[0], links, e, n) {
      var path :| IsPath(path, links) && Informed(states[0], path[0], e) && path[|path| - 1] == n;
      FloodReachesEveryFollower(states, steps, links, e, path);
    }
    if Informed(states[|steps|], n, e) {
      OnlyFollowersHear(states, steps, links, e, n, |steps|);
    }
  }

  // ---------- agreement ----------

  /** A copy of the state `s`, resident, stored or neither where it is the default state, or else of
      what the event makes of it. */
  predicate CopyOf(c: Copy, s: State, e: Event) {
    || (Stored(c) == s && (c.resident.None? || c.resident == Some(s)))
    || (c.stored == Some(Applied(s, e)) && (c.resident.None? || c.resident == c.stored))
  }

  /** Every node is at rest at a state of its own, or has absorbed the event from there. */
  predicate CopiesOf(sys: System, base: NodeId -> State, e: Event) {
    forall n | n in sys.nodes :: CopyOf(sys.nodes[n], base(n), e)
  }

  lemma EventKeepsCopy(c: Copy, s: State, e: Event)
    requires CopyOf(c, s, e)
    ensures CopyOf(AfterEvent(c, e), s, e) && CopyOf(AfterQuery(c), s, e) && CopyOf(c.(resident := None), s, e)
    ensures ChangesStored(c, e) ==> Fetched(c) == s
  {
    AppliedTwice(s, e);
    var stored := Stored(c);
    assert stored.buffers + stored.buffers == stored.buffers;
  }

  lemma StepKeepsCopies(sys: System, step: Step, sys': System, base: NodeId -> State, e: Event)
    requires Next(sys, step, sys') && Only(sys.net, e) && CopiesOf(sys, base, e)
    ensures CopiesOf(sys', base, e)
  {
    forall n | n in sys'.nodes
      ensures CopyOf(sys'.nodes[n], base(n), e)
    {
      EventKeepsCopy(sys.nodes[n], base(n), e);
    }
  }

  lemma {:induction false} RunKeepsCopies(states: seq<System>, steps: seq<Step>, base: NodeId -> State, e: Event, j: nat)
    requires IsRun(states, steps) && Only(states[0].net, e) && CopiesOf(states[0], base, e) && j < |states|
    ensures CopiesOf(states[j], base, e)
  {
    if j > 0 {
      RunKeepsCopies(states, steps, base, e, j - 1);
      RunSendsOnly(states, steps, e, j - 1);
      assert Next(states[j - 1], steps[j - 1], states[j]);
      StepKeepsCopies(states[j - 1], steps[j - 1], states[j], base, e);
    }
  }

  /** Wherever each node started from, when the flood is over every follower of an informed node stores
      exactly what the event makes of its own starting state; nodes that started from one state end with
      one state. */
  lemma FollowersAgree(states: seq<System>, steps: seq<Step>, links: Links, base: NodeId -> State, e: Event, path: seq<NodeId>)
    requires FaithfulRun(states, steps, links) && Only(states[0].net, e) && PassedOn(states[0], links, e)
    requires CopiesOf(states[0], base, e)
    requires states[|steps|].net == multiset{} && IsPath(path, links) && Informed(states[0], path[0], e)
    ensures var last, end := path[|path| - 1], states[|steps|];
      last in end.nodes && end.nodes[last].stored == Some(Applied(base(last), e))
  {
    FloodReachesEveryFollower(states, steps, links, e, path);
    RunKeepsCopies(states, steps, base, e, |steps|);
    AppliedTwice(base(path[|path| - 1]), e);
  }
}
