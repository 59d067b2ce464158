/** Who follows whom: subscriptions between nodes as a finite graph, its cycles, and the rank that a graph
    without a cycle has. */
module Followers {
  import opened Bytes

  type NodeId = int

  type Links = map<NodeId, set<NodeId>>

  predicate Linked(links: Links, n: NodeId, m: NodeId) {
    n in links && m in links[n]
  }

  predicate Distinct(ring: seq<NodeId>) {
    forall i, j | 0 <= i < j < |ring| :: ring[i] != ring[j]
  }

  predicate IsRing(ring: seq<NodeId>) {
    ring != [] && Distinct(ring)
  }

  /** The node after the first k ones, going round. */
  function Follower(ring: seq<NodeId>, k: nat): NodeId
    requires ring != [] && k <= |ring|
  {
    if k == |ring| then ring[0] else ring[k]
  }

  predicate IsCycle(ring: seq<NodeId>, links: Links) {
    IsRing(ring) && forall k | 0 <= k < |ring| :: Linked(links, ring[k], Follower(ring, k + 1))
  }

  ghost predicate Acyclic(links: Links) {
    forall ring :: !IsCycle(ring, links)
  }

  /** A walk along subscriptions. */
  predicate IsPath(path: seq<NodeId>, links: Links) {
    path != [] && forall i | 0 <= i < |path| - 1 :: Linked(links, path[i], path[i + 1])
  }

  predicate FollowedIn(nodes: set<NodeId>, links: Links, n: NodeId) {
    exists m :: m in nodes && Linked(links, n, m)
  }

  /** Every node of the set has a follower in it. */
  predicate NoSink(nodes: set<NodeId>, links: Links) {
    forall n {:trigger FollowedIn(nodes, links, n)} | n in nodes :: FollowedIn(nodes, links, n)
  }

  lemma {:induction false} DistinctFits(walk: seq<NodeId>, nodes: set<NodeId>)
    requires Distinct(walk) && forall n | n in walk :: n in nodes
    ensures |walk| <= |nodes|
  {
    if walk != [] {
      var last := walk[|walk| - 1];
      forall n | n in walk[..|walk| - 1]
        ensures n in nodes - {last}
      {
      }
      DistinctFits(walk[..|walk| - 1], nodes - {last});
      assert last in walk;
    }
  }

  /** A walk that comes back to one of its nodes closes a cycle. */
  lemma WalkCloses(walk: seq<NodeId>, i: nat, links: Links)
    requires IsPath(walk, links) && Distinct(walk) && i < |walk| && Linked(links, walk[|walk| - 1], walk[i])
    ensures IsCycle(walk[i..], links)
  {
    var ring := walk[i..];
    forall k | 0 <= k < |ring|
      ensures Linked(links, ring[k], Follower(ring, k + 1))
    {
      if k + 1 < |ring| {
        assert ring[k] == walk[i + k] && Follower(ring, k + 1) == walk[i + k + 1];
      } else {
        assert Follower(ring, k + 1) == ring[0];
      }
    }
  }

  lemma OneStepOn(walk: seq<NodeId>, next: NodeId, links: Links, nodes: set<NodeId>)
    requires IsPath(walk, links) && Distinct(walk) && (forall n | n in walk :: n in nodes)
    requires next !in walk && next in nodes && Linked(links, walk[|walk| - 1], next)
    ensures IsPath(walk + [next], links) && Distinct(walk + [next]) && forall n | n in walk + [next] :: n in nodes
    ensures |walk| < |nodes|
  {
    DistinctFits(walk + [next], nodes);
  }

  /** Walking on and on among finitely many nodes leads into a cycle. */
  lemma {:induction false} WalkingLeadsIntoACycle(nodes: set<NodeId>, links: Links, walk: seq<NodeId>) returns (ring: seq<NodeId>)
    requires NoSink(nodes, links)
    requires IsPath(walk, links) && Distinct(walk) && forall n | n in walk :: n in nodes
    ensures IsCycle(ring, links)
    decreases |nodes| - |walk|
  {
    DistinctFits(walk, nodes);
    var last := walk[|walk| - 1];
    assert last in walk && FollowedIn(nodes, links, last);
    var next :| next in nodes && Linked(links, last, next);
    if next in walk {
      var i: nat :| i < |walk| && walk[i] == next;
      WalkCloses(walk, i, links);
      ring := walk[i..];
    } else {
      OneStepOn(walk, next, links, nodes);
      ring := WalkingLeadsIntoACycle(nodes, links, walk + [next]);
    }
  }

  lemma SinkExists(nodes: set<NodeId>, links: Links)
    requires Acyclic(links) && nodes != {}
    ensures !NoSink(nodes, links)
  {
    if NoSink(nodes, links) {
      var start := Inhabited(nodes);
      var ring := WalkingLeadsIntoACycle(nodes, links, [start]);
      assert false;
    }
  }

  lemma RankAbove(nodes: set<NodeId>, links: Links, sink: NodeId, rest: map<NodeId, nat>) returns (rank: map<NodeId, nat>)
    requires sink in nodes && rest.Keys == nodes - {sink} && forall m | m in nodes :: !Linked(links, sink, m)
    requires forall n, m | n in rest && m in rest && Linked(links, n, m) :: rest[m] < rest[n]
    ensures rank.Keys == nodes
    ensures forall n, m | n in nodes && m in nodes && Linked(links, n, m) :: rank[m] < rank[n]
  {
    rank := map n | n in nodes :: if n == sink then 0 else rest[n] + 1;
  }

  /** Peeling off a node without followers, then another among the rest, and so on, ranks the nodes. */
  lemma {:induction false} AcyclicNodesHaveARank(nodes: set<NodeId>, links: Links) returns (rank: map<NodeId, nat>)
    requires Acyclic(links)
    ensures rank.Keys == nodes
    ensures forall n, m | n in nodes && m in nodes && Linked(links, n, m) :: rank[m] < rank[n]
    decreases |nodes|
  {
    if nodes == {} {
      return map[];
    }
    SinkExists(nodes, links);
    var sink :| sink in nodes && !FollowedIn(nodes, links, sink);
    var rest := AcyclicNodesHaveARank(nodes - {sink}, links);
    rank := RankAbove(nodes, links, sink, rest);
  }

  function Nodes(links: Links): set<NodeId> {
    links.Keys + set n, m | n in links && m in links[n] :: m
  }

  /** Without a cycle every subscription leads down a rank. */
  lemma AcyclicHasARank(links: Links) returns (rank: NodeId -> nat)
    requires Acyclic(links)
    ensures forall n, m | Linked(links, n, m) :: rank(m) < rank(n)
  {
    var ranks := AcyclicNodesHaveARank(Nodes(links), links);
    rank := n => if n in ranks then ranks[n] else 0;
  }
}
