/** Entities: per-backend documents with a head clock, and the transitions commit, apply an event and
    apply a state. A Yrs document is modelled by the set of operations merged into it. */
module Entities {
  import opened Bytes

  type EventId = int
  type Operation = int
  type Clock = set<EventId>
  type Documents = map<Text, set<Operation>>

  datatype State = State(buffers: Documents, head: Clock)

  /** Operations by backend name; the parent is the head the committing entity had. */
  datatype Event = Event(id: EventId, entityId: int, collection: Text, operations: seq<(Text, set<Operation>)>, parent: Clock)

  function DefaultState(): State { State(map[], {}) }

  function Merge(docs: Documents, name: Text, ops: set<Operation>): Documents {
    docs[name := (if name in docs then docs[name] else {}) + ops]
  }

  function MergeAll(docs: Documents, operations: seq<(Text, set<Operation>)>): Documents
    decreases |operations|
  {
    if operations == [] then docs
    else MergeAll(Merge(docs, operations[0].0, operations[0].1), operations[1..])
  }

  /** The state after an event: everything merged, and the event alone as the head. An event without
      operations reaches no backend and leaves the stored head alone. */
  function Applied(s: State, e: Event): State {
    State(MergeAll(s.buffers, e.operations), if e.operations == [] then s.head else {e.id})
  }

  predicate Holds(docs: Documents, operations: seq<(Text, set<Operation>)>) {
    forall x | x in operations :: x.0 in docs && x.1 <= docs[x.0]
  }

  predicate Extends(docs: Documents, more: Documents) {
    forall name | name in docs :: name in more && docs[name] <= more[name]
  }

  lemma {:induction false} MergeAllExtends(docs: Documents, operations: seq<(Text, set<Operation>)>)
    ensures Extends(docs, MergeAll(docs, operations)) && Holds(MergeAll(docs, operations), operations)
    decreases |operations|
  {
    if operations != [] {
      var next, first := Merge(docs, operations[0].0, operations[0].1), operations[0];
      MergeAllExtends(next, operations[1..]);
      forall x | x in operations
        ensures x.0 in MergeAll(docs, operations) && x.1 <= MergeAll(docs, operations)[x.0]
      {
        assert x == first || x in operations[1..];
      }
    }
  }

  lemma {:induction false} MergingHeldOperations(docs: Documents, operations: seq<(Text, set<Operation>)>)
    requires Holds(docs, operations)
    ensures MergeAll(docs, operations) == docs
  {
    if operations != [] {
      assert operations[0] in operations;
      assert docs[operations[0].0] + operations[0].1 == docs[operations[0].0];
      assert Merge(docs, operations[0].0, operations[0].1) == docs;
      MergingHeldOperations(docs, operations[1..]);
    }
  }

  /** Applying an event twice is applying it once, whatever the state. */
  lemma AppliedTwice(s: State, e: Event)
    ensures Applied(Applied(s, e), e) == Applied(s, e)
    ensures Extends(s.buffers, Applied(s, e).buffers) && Holds(Applied(s, e).buffers, e.operations)
  {
    MergeAllExtends(s.buffers, e.operations);
    MergingHeldOperations(MergeAll(s.buffers, e.operations), e.operations);
  }

  /** Two events merge to the same documents in either order, but the head is the last one applied. */
  lemma HeadsAreOverwritten(s: State, a: Event, b: Event)
    requires a.operations != [] && b.operations != []
    ensures Applied(Applied(s, a), b).head == {b.id}
    ensures Applied(Applied(s, b), a).head == {a.id}
    ensures Applied(Applied(s, a), b).buffers == Applied(Applied(s, b), a).buffers
  {
    MergeAllCommutes(s.buffers, a.operations, b.operations);
  }

  lemma MergeCommutes(docs: Documents, x: (Text, set<Operation>), y: (Text, set<Operation>))
    ensures Merge(Merge(docs, x.0, x.1), y.0, y.1) == Merge(Merge(docs, y.0, y.1), x.0, x.1)
  {
    var l, r := Merge(Merge(docs, x.0, x.1), y.0, y.1), Merge(Merge(docs, y.0, y.1), x.0, x.1);
    if x.0 == y.0 {
      assert l[x.0] == r[x.0];
    }
    assert l == r;
  }

  lemma {:induction false} MergeOneLate(docs: Documents, x: (Text, set<Operation>), ys: seq<(Text, set<Operation>)>)
    ensures MergeAll(Merge(docs, x.0, x.1), ys) == Merge(MergeAll(docs, ys), x.0, x.1)
    decreases |ys|
  {
    if ys != [] {
      MergeCommutes(docs, x, ys[0]);
      MergeOneLate(Merge(docs, ys[0].0, ys[0].1), x, ys[1..]);
    }
  }

  lemma {:induction false} MergeAllCommutes(docs: Documents, xs: seq<(Text, set<Operation>)>, ys: seq<(Text, set<Operation>)>)
    ensures MergeAll(MergeAll(docs, xs), ys) == MergeAll(MergeAll(docs, ys), xs)
    decreases |xs|
  {
    if xs != [] {
      MergeOneLate(docs, xs[0], ys);
      MergeAllCommutes(Merge(docs, xs[0].0, xs[0].1), xs[1..], ys);
    }
  }

  // ---------- committing a transaction ----------

  function At(docs: Documents, name: Text): set<Operation> {
    if name in docs then docs[name] else {}
  }

  /** One entry per backend: the operations it has beyond those collected before. */
  predicate Difference(operations: seq<(Text, set<Operation>)>, docs: Documents, collected: Documents) {
    && (forall x | x in operations :: x.0 in docs && x.1 == docs[x.0] - At(collected, x.0))
    && (forall name | name in docs :: (name, docs[name] - At(collected, name)) in operations)
  }

  lemma {:induction false} MergeAllMembers(docs: Documents, operations: seq<(Text, set<Operation>)>, name: Text, o: Operation)
    ensures name in MergeAll(docs, operations) <==> name in docs || exists x :: x in operations && x.0 == name
    ensures o in At(MergeAll(docs, operations), name) <==>
      o in At(docs, name) || exists x :: x in operations && x.0 == name && o in x.1
    decreases |operations|
  {
    if operations != [] {
      var first, rest := operations[0], operations[1..];
      MergeAllMembers(Merge(docs, first.0, first.1), rest, name, o);
      assert forall x :: x in operations <==> x == first || x in rest;
    }
  }

  /** The operations a transaction collects carry exactly its edits: applied to what the snapshot was
      taken from they give the edited documents, and applied to anything later they add the edits and
      change nothing else. */
  lemma EditsSurviveTheCommit(base: Documents, edited: Documents, later: Documents, operations: seq<(Text, set<Operation>)>, name: Text)
    requires Extends(base, edited) && Extends(base, later) && Difference(operations, edited, base)
    ensures name in MergeAll(later, operations) <==> name in later || name in edited
    ensures At(MergeAll(later, operations), name) == At(later, name) + At(edited, name)
  {
    if name in edited {
      assert (name, edited[name] - At(base, name)) in operations;
    }
    forall o
      ensures o in At(MergeAll(later, operations), name) <==> o in At(later, name) + At(edited, name)
    {
      MergeAllMembers(later, operations, name, o);
      if exists x :: x in operations && x.0 == name && o in x.1 {
        var x :| x in operations && x.0 == name && o in x.1;
        assert o in edited[name];
      }
    }
    MergeAllMembers(later, operations, name, 0);
  }

  lemma CommitAppliesCleanly(base: Documents, edited: Documents, operations: seq<(Text, set<Operation>)>)
    requires Extends(base, edited) && Difference(operations, edited, base)
    ensures MergeAll(base, operations) == edited
  {
    var merged := MergeAll(base, operations);
    forall name
      ensures name in merged <==> name in edited
      ensures At(merged, name) == At(edited, name)
    {
      EditsSurviveTheCommit(base, edited, base, operations, name);
    }
    assert forall name | name in merged :: At(merged, name) == merged[name] && At(edited, name) == edited[name];
  }

  /** The key of an entity in a node's registry. */
  datatype Key = Key(id: int, collection: Text)

  class Entity {
    const key: Key
    var backends: Documents
    var backendsHead: Clock
    var head: Clock
    /** The operations each backend had when they were last collected. */
    var collected: Documents

    function ToState(): State
      reads this
    {
      State(backends, backendsHead)
    }

    constructor FromState(key: Key, state: State)
      ensures this.key == key && ToState() == state && head == state.head && collected == state.buffers
    {
      this.key := key;
      backends, backendsHead, head := state.buffers, state.head, state.head;
      collected := state.buffers;
    }

    /** A new entity inside a transaction: nothing collected yet, no head. */
    constructor Create(key: Key, docs: Documents)
      ensures this.key == key && ToState() == State(docs, {}) && head == {} && collected == map[]
    {
      this.key := key;
      backends, backendsHead, head, collected := docs, {}, {}, map[];
    }

    /** A detached copy, as a transaction edits it. */
    method Snapshot() returns (copy: Entity)
      ensures fresh(copy) && copy.key == key && copy.ToState() == ToState() && copy.head == head
      ensures copy.collected == backends
    {
      copy := new Entity.FromState(key, ToState());
      copy.head := head;
    }

    /** A local change to one backend, created if missing: nothing the entity held is lost, and nothing
        but the change is added. */
    method Edit(name: Text, ops: set<Operation>)
      modifies this`backends
      ensures Extends(old(backends), backends) && Holds(backends, [(name, ops)])
      ensures forall n :: At(backends, n) - At(old(backends), n) <= if n == name then ops else {}
      ensures backends.Keys == old(backends).Keys + {name}
    {
      backends := Merge(backends, name, ops);
    }

    /** The event holding everything since operations were last collected. It names the old head as
        its parent and becomes the head; the head that is stored with the state stays behind. */
    method Commit(id: EventId) returns (event: Option<Event>)
      modifies this`head, this`collected
      ensures event.None? <==> backends == map[]
      ensures event.Some? ==>
        && event.value.id == id && event.value.entityId == key.id && event.value.collection == key.collection
        && event.value.parent == old(head) && head == {id}
        && Difference(event.value.operations, backends, old(collected))
      ensures event.None? ==> head == old(head)
      ensures collected == backends
    {
      var operations: seq<(Text, set<Operation>)> := [];
      var todo := backends.Keys;
      while todo != {}
        invariant todo <= backends.Keys
        invariant forall x | x in operations :: x.0 in backends && x.1 == backends[x.0] - At(collected, x.0)
        invariant forall name | name in backends.Keys - todo :: (name, backends[name] - At(collected, name)) in operations
        invariant |operations| + |todo| == |backends.Keys|
        decreases |todo|
      {
        var name :| name in todo;
        operations := operations + [(name, backends[name] - At(collected, name))];
        todo := todo - {name};
      }
      collected := backends;
      if operations == [] {
        return None;
      }
      event := Some(Event(id, key.id, key.collection, operations, head));
      head := {id};
    }

    /** Every backend named by the event is created if missing and merges its operations. The head is
        replaced, not extended. */
    method ApplyEvent(e: Event)
      modifies this`backends, this`backendsHead, this`head
      ensures ToState() == Applied(old(ToState()), e)
      ensures head == {e.id}
    {
      for i := 0 to |e.operations|
        invariant MergeAll(old(backends), e.operations) == MergeAll(backends, e.operations[i..])
        invariant backendsHead == if i == 0 then old(backendsHead) else {e.id}
      {
        backends := Merge(backends, e.operations[i].0, e.operations[i].1);
        backendsHead := {e.id};
        assert e.operations[i..][1..] == e.operations[i + 1..];
      }
      head := {e.id};
    }

    /** The documents named by the state replace the entity's own; others stay, and so does the head
        that the next commit names as its parent. */
    method ApplyState(state: State)
      modifies this`backends, this`backendsHead, this`collected
      ensures ToState() == State(old(backends) + state.buffers, state.head)
      ensures head == old(head)
    {
      backends, collected := backends + state.buffers, collected + state.buffers;
      backendsHead := state.head;
    }
  }

  /** The end of a transaction for an entity with an upstream: its edits are collected as an event and
      applied to the upstream, which may have moved on since the snapshot. */
  method CommitUpstream(copy: Entity, upstream: Entity, id: EventId) returns (event: Option<Event>)
    requires copy != upstream
    requires Extends(copy.collected, copy.backends) && Extends(copy.collected, upstream.backends)
    modifies copy`head, copy`collected, upstream`backends, upstream`backendsHead, upstream`head
    ensures event.None? <==> copy.backends == map[]
    ensures forall name ::
      && At(upstream.backends, name) == At(old(upstream.backends), name) + At(copy.backends, name)
      && (name in upstream.backends <==> name in old(upstream.backends) || name in copy.backends)
    ensures event.Some? ==> upstream.ToState().head == upstream.head == copy.head == {id}
    ensures event.None? ==> upstream.ToState() == old(upstream.ToState())
  {
    ghost var base, later := copy.collected, upstream.backends;
    event := copy.Commit(id);
    if event.Some? {
      upstream.ApplyEvent(event.value);
      forall name
        ensures At(upstream.backends, name) == At(later, name) + At(copy.backends, name)
        ensures name in upstream.backends <==> name in later || name in copy.backends
      {
        EditsSurviveTheCommit(base, copy.backends, later, event.value.operations, name);
      }
      assert event.value.operations != [];
    }
  }
}
