/** Requests and responses between nodes: every interleaving of asking, serving, answering and giving
    up, over a network that may lose, repeat, reorder and misroute messages. */
module Requests {
  import opened Bytes
  import opened Ast
  import opened Entities

  type NodeId = int
  type RequestId = int

  datatype RequestBody =
    | CommitEvents(events: seq<Event>)
    | Fetch(collection: Text, selection: Predicate)
    | Subscribe(collection: Text, selection: Predicate)
    | Unsubscribe(subscription: int)

  datatype ResponseBody =
    | CommitComplete
    | Fetched(states: seq<(int, State)>)
    | Subscribed(initial: seq<(int, State)>, subscription: int)
    | Success
    | Failure

  datatype Request = Request(id: RequestId, to: NodeId, from: NodeId, body: RequestBody)
  datatype Response = Response(id: RequestId, from: NodeId, to: NodeId, body: ResponseBody)
  datatype Message = Asking(request: Request) | Answering(response: Response)

  /** What carrying a request out comes to: a failure of storage, or else the states found, where the
      request asks for any, and the id of the subscription made, where it asks for one. */
  datatype Effect = Failed | Done(found: seq<(int, State)>, subscription: int)

  /** The body tells what came of the request: failures and nothing else are reported as failures, a
      fetch returns exactly the states found, a subscription these and its id. */
  predicate Reports(request: RequestBody, effect: Effect, body: ResponseBody) {
    && (body.Failure? <==> effect.Failed? && !request.Unsubscribe?)
    && (body.CommitComplete? <==> request.CommitEvents? && effect.Done?)
    && (body.Success? <==> request.Unsubscribe?)
    && (body.Fetched? ==> request.Fetch? && effect.Done? && body.states == effect.found)
    && (body.Subscribed? ==> request.Subscribe? && effect.Done? && body.initial == effect.found && body.subscription == effect.subscription)
  }

  /** There is exactly one such body. */
  lemma ReportIsUnique(request: RequestBody, effect: Effect) returns (body: ResponseBody)
    ensures Reports(request, effect, body)
    ensures forall other | Reports(request, effect, other) :: other == body
  {
    body := match request
      case CommitEvents(_) => if effect.Done? then CommitComplete else Failure
      case Fetch(_, _) => if effect.Done? then Fetched(effect.found) else Failure
      case Subscribe(_, _) => if effect.Done? then Subscribed(effect.found, effect.subscription) else Failure
      case Unsubscribe(_) => Success;
  }

  /** A node's part: its connected peers, its pending requests with whether a caller still waits, and
      the requests it has accepted but not answered. */
  datatype NodeState = NodeState(peers: set<NodeId>, pending: map<RequestId, bool>, serving: multiset<Request>)

  /** `request`: the pending entry is made before the connection is looked up, and stays when there is
      no connection or sending fails. */
  function AfterAsking(s: NodeState, id: RequestId, sent: bool): NodeState {
    s.(pending := s.pending[id := sent])
  }

  function AfterAccepting(s: NodeState, request: Request): NodeState {
    if request.from in s.peers then s.(serving := s.serving + multiset{request}) else s
  }

  function AfterResponse(s: NodeState, id: RequestId): NodeState {
    s.(pending := s.pending - {id})
  }

  /** The caller that a response completes, if the request is pending and somebody still waits. */
  predicate Completes(s: NodeState, id: RequestId) {
    id in s.pending && s.pending[id]
  }

  datatype Handling = Handling(node: NodeId, request: Request, effect: Effect, body: ResponseBody)
  datatype Resolution = Resolution(node: NodeId, id: RequestId, body: ResponseBody)

  /** `sent` holds every message ever sent; delivering one does not remove it. The rest is history: the
      requests ever made, the answers ever computed, the calls ever completed. */
  datatype System = System(nodes: map<NodeId, NodeState>, sent: set<Message>,
                           issued: map<RequestId, Request>, handled: set<Handling>, resolved: seq<Resolution>)

  datatype Step =
    | Asked(request: Request, transmitted: bool)
    | Accepted(node: NodeId, request: Request)
    | Answered(node: NodeId, request: Request, effect: Effect, body: ResponseBody, transmitted: bool)
    | Heard(node: NodeId, response: Response)
    | GaveUp(node: NodeId, id: RequestId)
    | Connected(node: NodeId, peers: set<NodeId>)

  predicate Next(s: System, step: Step, s': System) {
    match step
    case Asked(r, transmitted) =>
      && r.from in s.nodes && r.id !in s.issued && (transmitted ==> r.to in s.nodes[r.from].peers)
      && s' == s.(nodes := s.nodes[r.from := AfterAsking(s.nodes[r.from], r.id, transmitted)],
                  issued := s.issued[r.id := r],
                  sent := s.sent + if transmitted then {Asking(r)} else {})
    case Accepted(n, r) =>
      && n in s.nodes && Asking(r) in s.sent
      && s' == s.(nodes := s.nodes[n := AfterAccepting(s.nodes[n], r)])
    case Answered(n, r, effect, body, transmitted) =>
      && n in s.nodes && r in s.nodes[n].serving && Reports(r.body, effect, body)
      && s' == s.(nodes := s.nodes[n := s.nodes[n].(serving := s.nodes[n].serving - multiset{r})],
                  handled := s.handled + {Handling(n, r, effect, body)},
                  sent := s.sent + if transmitted then {Answering(Response(r.id, n, r.from, body))} else {})
    case Heard(n, r) =>
      && n in s.nodes && Answering(r) in s.sent
      && s' == s.(nodes := s.nodes[n := AfterResponse(s.nodes[n], r.id)],
                  resolved := s.resolved + if Completes(s.nodes[n], r.id) then [Resolution(n, r.id, r.body)] else [])
    case GaveUp(n, id) =>
      && n in s.nodes && id in s.nodes[n].pending
      && s' == s.(nodes := s.nodes[n := s.nodes[n].(pending := s.nodes[n].pending[id := false])])
    case Connected(n, peers) =>
      && n in s.nodes && s' == s.(nodes := s.nodes[n := s.nodes[n].(peers := peers)])
  }

  function Start(nodes: map<NodeId, NodeState>): System {
    System(nodes, {}, map[], {}, [])
  }

  predicate Fresh(nodes: map<NodeId, NodeState>) {
    forall n | n in nodes :: nodes[n].pending == map[] && nodes[n].serving == multiset{}
  }

  ghost predicate IsRun(states: seq<System>, steps: seq<Step>) {
    && |states| == |steps| + 1
    && Fresh(states[0].nodes) && states[0] == Start(states[0].nodes)
    && forall i {:trigger steps[i]} | 0 <= i < |steps| :: Next(states[i], steps[i], states[i + 1])
  }

  // ---------- the invariant ----------

  /** Messages and accepted requests come from requests made and answers computed. */
  ghost predicate Honest(s: System) {
    && (forall r | Asking(r) in s.sent :: r.id in s.issued && s.issued[r.id] == r)
    && (forall n, r | n in s.nodes && r in s.nodes[n].serving :: Asking(r) in s.sent)
    && (forall h | h in s.handled :: Asking(h.request) in s.sent && Reports(h.request.body, h.effect, h.body))
  }

  predicate Answers(h: Handling, r: Response) {
    h.request.id == r.id && h.node == r.from && h.request.from == r.to && h.body == r.body
  }

  ghost predicate Backed(s: System) {
    forall r | Answering(r) in s.sent :: exists h :: h in s.handled && Answers(h, r)
  }

  predicate Pends(s: System, n: NodeId, id: RequestId) {
    n in s.nodes && id in s.nodes[n].pending
  }

  /** Requests are pending only at the node that made them. */
  ghost predicate PendingWhereMade(s: System) {
    forall n, id | Pends(s, n, id) :: id in s.issued && s.issued[id].from == n && s.issued[id].id == id
  }

  predicate Produced(h: Handling, request: Request, body: ResponseBody) {
    h.request == request && h.body == body
  }

  /** A completed call is no longer pending, and its body was computed for exactly its request. */
  ghost predicate Sound(s: System, x: Resolution) {
    && x.id in s.issued && s.issued[x.id].from == x.node && !Pends(s, x.node, x.id)
    && exists h :: h in s.handled && Produced(h, s.issued[x.id], x.body)
  }

  ghost predicate Resolves(s: System) {
    && (forall x | x in s.resolved :: Sound(s, x))
    && (forall i, j | 0 <= i < j < |s.resolved| :: s.resolved[i].id != s.resolved[j].id)
  }

  ghost predicate Good(s: System) {
    Honest(s) && Backed(s) && PendingWhereMade(s) && Resolves(s)
  }

  lemma StepKeepsHonest(s: System, step: Step, s': System)
    requires Good(s) && Next(s, step, s')
    ensures Honest(s')
  {
    StepKeepsAsked(s, step, s');
    StepKeepsServed(s, step, s');
    StepKeepsHandled(s, step, s');
  }

  lemma StepKeepsAsked(s: System, step: Step, s': System)
    requires Good(s) && Next(s, step, s')
    ensures forall r | Asking(r) in s'.sent :: r.id in s'.issued && s'.issued[r.id] == r
  {
  }

  lemma StepKeepsServed(s: System, step: Step, s': System)
    requires Good(s) && Next(s, step, s')
    ensures forall n, r | n in s'.nodes && r in s'.nodes[n].serving :: Asking(r) in s'.sent
  {
  }

  lemma StepKeepsHandled(s: System, step: Step, s': System)
    requires Good(s) && Next(s, step, s')
    ensures forall h | h in s'.handled :: Asking(h.request) in s'.sent && Reports(h.request.body, h.effect, h.body)
  {
  }

  lemma StepKeepsBacked(s: System, step: Step, s': System)
    requires Good(s) && Next(s, step, s')
    ensures Backed(s')
  {
    forall r | Answering(r) in s'.sent
      ensures exists h :: h in s'.handled && Answers(h, r)
    {
      if Answering(r) in s.sent {
        var h :| h in s.handled && Answers(h, r);
        assert h in s'.handled;
      } else {
        assert Answers(Handling(step.node, step.request, step.effect, step.body), r);
      }
    }
  }

  lemma StepKeepsPending(s: System, step: Step, s': System)
    requires Good(s) && Next(s, step, s')
    ensures PendingWhereMade(s')
  {
    forall n, id | Pends(s', n, id)
      ensures id in s'.issued && s'.issued[id].from == n && s'.issued[id].id == id
    {
      assert Pends(s, n, id) || (step.Asked? && step.request.id == id && step.request.from == n);
    }
  }

  lemma StepKeepsSound(s: System, step: Step, s': System, x: Resolution)
    requires Good(s) && Next(s, step, s') && Sound(s, x)
    ensures Sound(s', x)
  {
    var h :| h in s.handled && Produced(h, s.issued[x.id], x.body);
    assert h in s'.handled && s'.issued[x.id] == s.issued[x.id];
    assert Pends(s', x.node, x.id) ==> Pends(s, x.node, x.id);
  }

  /** The response that completes a call answers the very request the call made. */
  lemma CompletionIsSound(s: System, n: NodeId, r: Response, s': System)
    requires Good(s) && Next(s, Heard(n, r), s') && Completes(s.nodes[n], r.id)
    ensures Sound(s', Resolution(n, r.id, r.body))
    ensures forall x | x in s.resolved :: x.id != r.id
  {
    assert Pends(s, n, r.id);
    var h :| h in s.handled && Answers(h, r);
    assert Asking(h.request) in s.sent;
    assert Produced(h, s'.issued[r.id], r.body) && h in s'.handled;
    forall x | x in s.resolved
      ensures x.id != r.id
    {
      assert Sound(s, x);
    }
  }

  lemma StepKeepsResolves(s: System, step: Step, s': System)
    requires Good(s) && Next(s, step, s')
    ensures Resolves(s')
  {
    if step.Heard? && Completes(s.nodes[step.node], step.response.id) {
      CompletionIsSound(s, step.node, step.response, s');
    }
    forall x | x in s'.resolved
      ensures Sound(s', x)
    {
      if x in s.resolved {
        StepKeepsSound(s, step, s', x);
      }
    }
  }

  lemma StepKeepsGood(s: System, step: Step, s': System)
    requires Good(s) && Next(s, step, s')
    ensures Good(s') && s.resolved <= s'.resolved
  {
    StepKeepsHonest(s, step, s');
    StepKeepsBacked(s, step, s');
    StepKeepsPending(s, step, s');
    StepKeepsResolves(s, step, s');
  }

  lemma {:induction false} RunIsGood(states: seq<System>, steps: seq<Step>, i: nat)
    requires IsRun(states, steps) && i < |states|
    ensures Good(states[i])
  {
    if i > 0 {
      RunIsGood(states, steps, i - 1);
      assert Next(states[i - 1], steps[i - 1], states[i]);
      StepKeepsGood(states[i - 1], steps[i - 1], states[i]);
    }
  }

  // ---------- what every run keeps ----------

  /** In every run each call completes at most once, with a body that `handle_request` computed for
      that very request and of the kind that goes with it; completions are never taken back. */
  lemma CompletedCallsAreAnswered(states: seq<System>, steps: seq<Step>, i: nat, k: nat)
    requires IsRun(states, steps) && i < |states| && k < |states[i].resolved|
    ensures var s, x := states[i], states[i].resolved[k];
      && x.id in s.issued && s.issued[x.id].from == x.node
      && (exists h :: h in s.handled && Produced(h, s.issued[x.id], x.body) && Reports(s.issued[x.id].body, h.effect, x.body))
      && (forall j | 0 <= j < |s.resolved| :: s.resolved[j].id == x.id <==> j == k)
  {
    RunIsGood(states, steps, i);
    var s, x := states[i], states[i].resolved[k];
    assert Sound(s, x);
    var h :| h in s.handled && Produced(h, s.issued[x.id], x.body);
    forall j | 0 <= j < |s.resolved| && j != k
      ensures s.resolved[j].id != x.id
    {
      if j < k {
        assert s.resolved[j].id != s.resolved[k].id;
      } else {
        assert s.resolved[k].id != s.resolved[j].id;
      }
    }
  }

  lemma {:induction false} CompletionsStay(states: seq<System>, steps: seq<Step>, i: nat, j: nat)
    requires IsRun(states, steps) && i <= j < |states|
    ensures states[i].resolved <= states[j].resolved
  {
    if i < j {
      CompletionsStay(states, steps, i, j - 1);
      RunIsGood(states, steps, j - 1);
      assert Next(states[j - 1], steps[j - 1], states[j]);
      StepKeepsGood(states[j - 1], steps[j - 1], states[j]);
    }
  }

  /** A response for an id that is not pending, like a second response to one request, changes nothing. */
  lemma UnknownResponsesChangeNothing(s: System, n: NodeId, r: Response, s': System)
    requires Next(s, Heard(n, r), s') && r.id !in s.nodes[n].pending
    ensures s' == s
  {
    assert s.nodes[n].pending - {r.id} == s.nodes[n].pending;
    assert s.nodes[n := s.nodes[n]] == s.nodes;
    assert s.resolved + [] == s.resolved;
  }

  predicate Unsent(s: System, n: NodeId, id: RequestId) {
    Pends(s, n, id) && id in s.issued && Asking(s.issued[id]) !in s.sent
  }

  lemma UnsentStaysUnsent(s: System, step: Step, s': System, n: NodeId, id: RequestId)
    requires Good(s) && Next(s, step, s') && Unsent(s, n, id)
    ensures Unsent(s', n, id)
  {
  }

  /** A request that could not be sent, for want of a connection or because sending failed, leaves its
      pending entry behind for ever: nothing that can happen removes it. */
  lemma {:induction false} UnsentRequestsLeak(states: seq<System>, steps: seq<Step>, i: nat, j: nat)
    requires IsRun(states, steps) && i < |steps| && i < j < |states| && steps[i].Asked? && !steps[i].transmitted
    ensures Unsent(states[j], steps[i].request.from, steps[i].request.id)
  {
    RunIsGood(states, steps, j - 1);
    assert Next(states[j - 1], steps[j - 1], states[j]);
    if j == i + 1 {
      assert Asking(steps[i].request) !in states[i].sent;
    } else {
      UnsentRequestsLeak(states, steps, i, j - 1);
      UnsentStaysUnsent(states[j - 1], steps[j - 1], states[j], steps[i].request.from, steps[i].request.id);
    }
  }

  /** The call is over without a completion: nobody waits for it any more. */
  ghost predicate GivenUp(s: System, n: NodeId, id: RequestId) {
    && id in s.issued && s.issued[id].from == n
    && (Pends(s, n, id) ==> !s.nodes[n].pending[id])
    && forall x | x in s.resolved :: x.id != id
  }

  lemma StepKeepsGivenUp(s: System, step: Step, s': System, n: NodeId, id: RequestId)
    requires Good(s) && Next(s, step, s') && GivenUp(s, n, id)
    ensures GivenUp(s', n, id)
  {
    if step.Heard? && Completes(s.nodes[step.node], step.response.id) {
      assert Pends(s, step.node, step.response.id);
    }
  }

  /** A call that was given up never completes, whatever is still answered. */
  lemma {:induction false} GivenUpCallsNeverComplete(states: seq<System>, steps: seq<Step>, i: nat, j: nat)
    requires IsRun(states, steps) && i < |steps| && i < j < |states| && steps[i].GaveUp?
    ensures GivenUp(states[j], steps[i].node, steps[i].id)
    ensures forall x | x in states[j].resolved :: x.id != steps[i].id
  {
    RunIsGood(states, steps, j - 1);
    assert Next(states[j - 1], steps[j - 1], states[j]);
    if j == i + 1 {
      var s, n, id := states[i], steps[i].node, steps[i].id;
      assert Pends(s, n, id);
      forall x | x in s.resolved
        ensures x.id != id
      {
        assert Sound(s, x);
      }
    } else {
      GivenUpCallsNeverComplete(states, steps, i, j - 1);
      StepKeepsGivenUp(states[j - 1], steps[j - 1], states[j], steps[i].node, steps[i].id);
    }
  }

  // ---------- which pending entries can end ----------

  ghost predicate Continues(s: System, states: seq<System>, steps: seq<Step>) {
    && |states| == |steps| + 1 && states[0] == s
    && forall i {:trigger steps[i]} | 0 <= i < |steps| :: Next(states[i], steps[i], states[i + 1])
  }

  lemma {:induction false} ContinuationStaysUnsent(s: System, states: seq<System>, steps: seq<Step>, n: NodeId, id: RequestId, j: nat)
    requires Good(s) && Continues(s, states, steps) && Unsent(s, n, id) && j < |states|
    ensures Good(states[j]) && Unsent(states[j], n, id)
  {
    if j > 0 {
      ContinuationStaysUnsent(s, states, steps, n, id, j - 1);
      assert Next(states[j - 1], steps[j - 1], states[j]);
      StepKeepsGood(states[j - 1], steps[j - 1], states[j]);
      UnsentStaysUnsent(states[j - 1], steps[j - 1], states[j], n, id);
    }
  }

  function After(s: System, n: NodeId, node: NodeState): System
    requires n in s.nodes
  {
    s.(nodes := s.nodes[n := node])
  }

  lemma OneStepMore(s: System, states: seq<System>, steps: seq<Step>, step: Step, s': System)
    requires Continues(s, states, steps) && Next(states[|steps|], step, s')
    ensures Continues(s, states + [s'], steps + [step])
  {
  }

  /** Three steps give a sent request the answer that reports what carrying it out comes to: whoever it is
      taken to is connected, accepts it and answers it. Nothing pending changes. */
  lemma SentRequestsCanBeAnswered(s: System, n: NodeId, id: RequestId, to: NodeId, effect: Effect, body: ResponseBody)
    returns (states: seq<System>, steps: seq<Step>)
    requires Good(s) && Pends(s, n, id) && Asking(s.issued[id]) in s.sent && to in s.nodes
    requires Reports(s.issued[id].body, effect, body)
    ensures Continues(s, states, steps) && |steps| == 3
    ensures var end := states[3];
      Pends(end, n, id) && end.nodes[n].pending == s.nodes[n].pending && end.resolved == s.resolved
      && Answering(Response(id, to, n, body)) in end.sent
  {
    var r := s.issued[id];
    var connected := s.nodes[to].(peers := s.nodes[to].peers + {n});
    var accepted := AfterAccepting(connected, r);
    var answered := accepted.(serving := accepted.serving - multiset{r});
    var s1, s2 := After(s, to, connected), After(s, to, accepted);
    var s3 := After(s, to, answered).(
      handled := s.handled + {Handling(to, r, effect, body)}, sent := s.sent + {Answering(Response(id, to, n, body))});
    states, steps := [s, s1, s2, s3], [Connected(to, connected.peers), Accepted(to, r), Answered(to, r, effect, body, true)];
    assert Next(s, steps[0], s1);
    assert Next(s1, steps[1], s2);
    assert Next(s2, steps[2], s3);
  }

  /** Four steps end a sent request, whatever carrying it out comes to: its addressee, or where that is
      none of the nodes whoever the network takes it to, is connected, accepts it and answers it, and the
      answer is heard. */
  lemma SentRequestsCanEnd(s: System, n: NodeId, id: RequestId, effect: Effect, body: ResponseBody)
    returns (states: seq<System>, steps: seq<Step>)
    requires Good(s) && Pends(s, n, id) && Asking(s.issued[id]) in s.sent && Reports(s.issued[id].body, effect, body)
    ensures Continues(s, states, steps) && |steps| == 4 && !Pends(states[4], n, id)
    ensures states[4].resolved == s.resolved + if s.nodes[n].pending[id] then [Resolution(n, id, body)] else []
  {
    var to := if s.issued[id].to in s.nodes then s.issued[id].to else n;
    states, steps := SentRequestsCanBeAnswered(s, n, id, to, effect, body);
    var s3, heard := states[3], Heard(n, Response(id, to, n, body));
    var s4 := After(s3, n, AfterResponse(s3.nodes[n], id)).(
      resolved := s3.resolved + if Completes(s3.nodes[n], id) then [Resolution(n, id, body)] else []);
    OneStepMore(s, states, steps, heard, s4);
    states, steps := states + [s4], steps + [heard];
  }

  /** A pending entry can still end if and only if its request was sent. */
  lemma PendingCanEndIffSent(s: System, n: NodeId, id: RequestId)
    requires Good(s) && Pends(s, n, id)
    ensures Asking(s.issued[id]) in s.sent <==>
      exists states, steps :: Continues(s, states, steps) && !Pends(states[|steps|], n, id)
  {
    if Asking(s.issued[id]) in s.sent {
      var body := ReportIsUnique(s.issued[id].body, Failed);
      var states, steps := SentRequestsCanEnd(s, n, id, Failed, body);
      assert Continues(s, states, steps) && !Pends(states[|steps|], n, id);
    } else {
      forall states, steps | Continues(s, states, steps)
        ensures Pends(states[|steps|], n, id)
      {
        ContinuationStaysUnsent(s, states, steps, n, id, |steps|);
      }
    }
  }
}
