/** What subscribers see. Every subscription is a registration (collection, predicate, ids matching
    now) and the change sets delivered to it; a selector says which changes are evaluated against
    which registration. The reactor's selector consults the indexes; the naive one is a full scan. */
module LiveQueries {
  import opened Bytes
  import opened Ast
  import opened Filter
  import opened ComparisonIndices
  import opened Watching

  datatype Event = Event(id: int)

  datatype EntityChange = EntityChange(entity: Entity, events: seq<Event>)

  datatype Kind = Initial | Add | Update | Remove

  datatype ItemChange = ItemChange(kind: Kind, item: EntityId, events: seq<Event>)

  datatype ChangeSet = ChangeSet(resultset: seq<EntityId>, changes: seq<ItemChange>)

  datatype Registration = Registration(collection: Text, query: Predicate, matching: seq<EntityId>)

  datatype Sub = Sub(reg: Registration, log: seq<ChangeSet>)

  type Subs = map<SubId, Sub>

  type Selector = (Registration, Entity) -> bool

  // ---------- one change, one subscription ----------

  /** `Vec::retain(|r| r != x)`. */
  function Without<T(==,!new)>(xs: seq<T>, x: T): (rest: seq<T>)
    ensures forall y :: y in rest <==> y in xs && y != x
  {
    if xs == [] then []
    else
      assert xs == [xs[0]] + xs[1..];
      (if xs[0] == x then [] else [xs[0]]) + Without(xs[1..], x)
  }

  function NextMatching(matching: seq<EntityId>, id: EntityId, now: bool): seq<EntityId> {
    var did := id in matching;
    if !did && now then matching + [id]
    else if did && !now then Without(matching, id)
    else matching
  }

  function KindOf(did: bool, now: bool): Option<Kind> {
    if did != now then Some(if now then Kind.Add else Kind.Remove)
    else if now then Some(Update)
    else None
  }

  /** A registration during a notification, with the item changes collected for it so far. */
  datatype Work = Work(reg: Registration, pending: seq<ItemChange>)

  function Evaluate(w: Work, c: EntityChange): Work {
    var id, now := c.entity.id, Matches(c.entity, w.reg.query);
    var kind := KindOf(id in w.reg.matching, now);
    Work(
      w.reg.(matching := NextMatching(w.reg.matching, id, now)),
      if kind.Some? then w.pending + [ItemChange(kind.value, id, c.events)] else w.pending)
  }

  function Step(sel: Selector, w: Work, c: EntityChange): Work {
    if sel(w.reg, c.entity) then Evaluate(w, c) else w
  }

  function Steps(sel: Selector, w: Work, cs: seq<EntityChange>): Work {
    if cs == [] then w else Step(sel, Steps(sel, w, cs[..|cs| - 1]), cs[|cs| - 1])
  }

  function Delivered(w: Work, log: seq<ChangeSet>): Sub {
    Sub(w.reg, if w.pending == [] then log else log + [ChangeSet(w.reg.matching, w.pending)])
  }

  function Notified(sel: Selector, sub: Sub, cs: seq<EntityChange>): Sub {
    Delivered(Steps(sel, Work(sub.reg, []), cs), sub.log)
  }

  // ---------- the two selectors ----------

  /** What the index, the wildcard set and the entity watchers let through. */
  predicate Interested(reg: Registration, e: Entity) {
    (reg.collection == e.collection && Reached(reg.query, e)) || e.id in reg.matching
  }

  /** Every subscription on the collection is evaluated on every change. */
  predicate FullScan(reg: Registration, e: Entity) {
    reg.collection == e.collection
  }

  // ---------- operations and runs ----------

  datatype Op =
    | Subscribe(sub: SubId, collection: Text, query: Predicate, rows: seq<Entity>)
    | Notify(changes: seq<EntityChange>)
    | Unsubscribe(sub: SubId)

  /** The ids of the fetched rows the predicate accepts, in order. */
  function MatchingIds(rows: seq<Entity>, p: Predicate): seq<EntityId> {
    if rows == [] then []
    else
      MatchingIds(rows[..|rows| - 1], p) + (if Matches(rows[|rows| - 1], p) then [rows[|rows| - 1].id] else [])
  }

  function InitialChanges(ids: seq<EntityId>): seq<ItemChange> {
    if ids == [] then [] else InitialChanges(ids[..|ids| - 1]) + [ItemChange(Initial, ids[|ids| - 1], [])]
  }

  function NewSub(collection: Text, p: Predicate, rows: seq<Entity>): Sub {
    Started(collection, p, MatchingIds(rows, p))
  }

  /** A subscription that starts with these ids, told about them unless there are none. */
  function Started(collection: Text, p: Predicate, ids: seq<EntityId>): Sub {
    Sub(Registration(collection, p, ids), if ids == [] then [] else [ChangeSet(ids, InitialChanges(ids))])
  }

  function Apply(sel: Selector, subs: Subs, op: Op): Subs {
    match op
    case Subscribe(s, collection, p, rows) => subs[s := NewSub(collection, p, rows)]
    case Notify(cs) => map s | s in subs :: Notified(sel, subs[s], cs)
    case Unsubscribe(s) => subs - {s}
  }

  function Run(sel: Selector, ops: seq<Op>): Subs {
    if ops == [] then map[] else Apply(sel, Run(sel, ops[..|ops| - 1]), ops[|ops| - 1])
  }

  // ---------- well-formed runs ----------

  predicate DistinctIds(rows: seq<Entity>) {
    forall i, j | 0 <= i < j < |rows| :: rows[i].id != rows[j].id
  }

  /** Entity ids are unique across collections (`home` tells which one), and a fetch returns each
      entity of the collection at most once. */
  ghost predicate WellFormed(home: EntityId -> Text, op: Op) {
    match op
    case Subscribe(_, collection, p, rows) =>
      Supported(p) && Watchable(p) && DistinctIds(rows)
      && forall e | e in rows :: e.collection == collection && home(e.id) == collection
    case Notify(cs) => forall c | c in cs :: c.entity.collection == home(c.entity.id)
    case Unsubscribe(_) => true
  }

  ghost predicate WellFormedRun(home: EntityId -> Text, ops: seq<Op>) {
    forall op | op in ops :: WellFormed(home, op)
  }

  ghost predicate AtHome(home: EntityId -> Text, reg: Registration) {
    forall id | id in reg.matching :: home(id) == reg.collection
  }

  // ---------- the fast path refines the full scan ----------

  lemma StepsAgree(home: EntityId -> Text, w: Work, c: EntityChange)
    requires AtHome(home, w.reg) && c.entity.collection == home(c.entity.id)
    requires Complete(w.reg.collection, w.reg.query)
    ensures Step(Interested, w, c) == Step(FullScan, w, c)
    ensures AtHome(home, Step(FullScan, w, c).reg)
  {
  }

  lemma {:induction false} NotificationsAgree(home: EntityId -> Text, w: Work, cs: seq<EntityChange>)
    requires AtHome(home, w.reg) && WellFormed(home, Notify(cs))
    requires Complete(w.reg.collection, w.reg.query)
    ensures Steps(Interested, w, cs) == Steps(FullScan, w, cs)
    ensures var r := Steps(FullScan, w, cs).reg;
      AtHome(home, r) && r.collection == w.reg.collection && r.query == w.reg.query
  {
    if cs != [] {
      NotificationsAgree(home, w, cs[..|cs| - 1]);
      StepsAgree(home, Steps(FullScan, w, cs[..|cs| - 1]), cs[|cs| - 1]);
    }
  }

  lemma {:induction false} MatchingIdsAreRows(rows: seq<Entity>, p: Predicate, id: EntityId)
    ensures id in MatchingIds(rows, p) <==> exists e :: e in rows && Matches(e, p) && e.id == id
  {
    if rows != [] {
      var front, last := rows[..|rows| - 1], rows[|rows| - 1];
      MatchingIdsAreRows(front, p, id);
      assert rows == front + [last];
    }
  }

  ghost predicate AllComplete(ops: seq<Op>) {
    forall op | op in ops && op.Subscribe? :: Complete(op.collection, op.query)
  }

  ghost predicate Sound(home: EntityId -> Text, subs: Subs) {
    forall s | s in subs :: AtHome(home, subs[s].reg) && Complete(subs[s].reg.collection, subs[s].reg.query)
  }

  /** Over every run of subscribe, notify and unsubscribe, with predicates that are complete in their
      collection, each subscriber is delivered exactly the change sets, and keeps exactly the
      result set, that evaluating every subscription on every change would give. */
  lemma {:induction false} FastPathRefinesFullScan(home: EntityId -> Text, ops: seq<Op>)
    requires WellFormedRun(home, ops) && AllComplete(ops)
    ensures Run(Interested, ops) == Run(FullScan, ops)
    ensures Sound(home, Run(FullScan, ops))
  {
    if ops != [] {
      var front, op := ops[..|ops| - 1], ops[|ops| - 1];
      FastPathRefinesFullScan(home, front);
      var subs := Run(FullScan, front);
      assert op in ops && WellFormed(home, op);
      match op {
        case Subscribe(s, collection, p, rows) =>
          forall id | id in MatchingIds(rows, p) ensures home(id) == collection {
            MatchingIdsAreRows(rows, p, id);
          }
        case Notify(cs) =>
          forall s | s in subs
            ensures Notified(Interested, subs[s], cs) == Notified(FullScan, subs[s], cs)
            ensures var r := Notified(FullScan, subs[s], cs).reg;
              AtHome(home, r) && r.collection == subs[s].reg.collection && r.query == subs[s].reg.query
          {
            NotificationsAgree(home, Work(subs[s].reg, []), cs);
          }
        case Unsubscribe(_) =>
      }
    }
  }

  /** The same for predicates that pass the syntactic check of `Covered`. */
  lemma CoveredRunsAgree(home: EntityId -> Text, ops: seq<Op>)
    requires WellFormedRun(home, ops)
    requires forall op | op in ops && op.Subscribe? :: Supported(op.query) && Covered(op.collection, op.query)
    ensures Run(Interested, ops) == Run(FullScan, ops)
  {
    forall op | op in ops && op.Subscribe? ensures Complete(op.collection, op.query) {
      assert WellFormed(home, op);
      forall e: Entity | e.collection == op.collection && Matches(e, op.query) ensures Reached(op.query, e) {
        CoveredIsReached(e, op.query);
      }
    }
    FastPathRefinesFullScan(home, ops);
  }

  /** The run that exposes an incomplete predicate: subscribe on empty storage, then one change. */
  function Exposing(collection: Text, p: Predicate, e: Entity): seq<Op> {
    [Subscribe(0, collection, p, []), Notify([EntityChange(e, [])])]
  }

  /** Completeness is also necessary: a predicate with one unreached match misses an Add that the
      full scan delivers. */
  lemma IncompletePredicateMissesAnAdd(home: EntityId -> Text, collection: Text, p: Predicate, e: Entity)
    requires Supported(p) && Watchable(p)
    requires e.collection == collection == home(e.id) && Matches(e, p) && !Reached(p, e)
    ensures WellFormedRun(home, Exposing(collection, p, e))
    ensures var fast, scan := Run(Interested, Exposing(collection, p, e)), Run(FullScan, Exposing(collection, p, e));
      0 in fast && 0 in scan && fast[0].log == [] && scan[0].log == [ChangeSet([e.id], [ItemChange(Kind.Add, e.id, [])])]
  {
    var ops, c := Exposing(collection, p, e), EntityChange(e, []);
    var empty := NewSub(collection, p, []);
    RunOfTwo(Interested, ops[0], ops[1]);
    RunOfTwo(FullScan, ops[0], ops[1]);
    OneChange(Interested, empty, c);
    OneChange(FullScan, empty, c);
    assert Run(FullScan, ops)[0] == Notified(FullScan, empty, [c]);
    assert Step(FullScan, Work(empty.reg, []), c).pending == [ItemChange(Kind.Add, e.id, [])];
    assert Step(FullScan, Work(empty.reg, []), c).reg.matching == [e.id];
    assert Run(Interested, ops)[0] == Notified(Interested, empty, [c]);
  }

  lemma RunOfTwo(sel: Selector, a: Op, b: Op)
    ensures Run(sel, [a, b]) == Apply(sel, Apply(sel, map[], a), b)
  {
    assert [a, b][..1] == [a] && [a][..0] == [];
    assert Run(sel, [a]) == Apply(sel, Run(sel, []), a);
  }

  lemma OneChange(sel: Selector, sub: Sub, c: EntityChange)
    ensures Notified(sel, sub, [c]) == Delivered(Step(sel, Work(sub.reg, []), c), sub.log)
  {
    assert [c][..0] == [];
    assert Steps(sel, Work(sub.reg, []), [c]) == Step(sel, Steps(sel, Work(sub.reg, []), []), c);
  }

  // ---------- the delivered log rebuilds the result set ----------

  /** Initial and Add append an absent id, Remove filters a present one, Update needs one present. */
  function ReplayOne(ids: seq<EntityId>, c: ItemChange): Option<seq<EntityId>> {
    match c.kind
    case Update => if c.item in ids then Some(ids) else None
    case Remove => if c.item in ids then Some(Without(ids, c.item)) else None
    case _ => if c.item in ids then None else Some(ids + [c.item])
  }

  function ReplayChanges(ids: seq<EntityId>, cs: seq<ItemChange>): Option<seq<EntityId>> {
    if cs == [] then Some(ids)
    else match ReplayChanges(ids, cs[..|cs| - 1])
      case Some(before) => ReplayOne(before, cs[|cs| - 1])
      case None => None
  }

  /** Replays a whole log, insisting that every change set ends at its own result set. */
  function ReplayLog(log: seq<ChangeSet>): Option<seq<EntityId>> {
    if log == [] then Some([])
    else match ReplayLog(log[..|log| - 1])
      case Some(ids) =>
        var last := log[|log| - 1];
        if ReplayChanges(ids, last.changes) == Some(last.resultset) then Some(last.resultset) else None
      case None => None
  }

  lemma ReplayAppend(ids: seq<EntityId>, cs: seq<ItemChange>, c: ItemChange)
    requires ReplayChanges(ids, cs).Some?
    ensures ReplayChanges(ids, cs + [c]) == ReplayOne(ReplayChanges(ids, cs).value, c)
  {
    assert (cs + [c])[..|cs|] == cs;
  }

  /** The change collected for an entity says how the result set moves. */
  lemma KindSaysHowItMoves(matching: seq<EntityId>, id: EntityId, now: bool, events: seq<Event>)
    ensures var kind := KindOf(id in matching, now);
      if kind.Some? then ReplayOne(matching, ItemChange(kind.value, id, events)) == Some(NextMatching(matching, id, now))
      else NextMatching(matching, id, now) == matching
  {
  }

  lemma EvaluationReplays(ids: seq<EntityId>, w: Work, c: EntityChange)
    requires ReplayChanges(ids, w.pending) == Some(w.reg.matching)
    ensures ReplayChanges(ids, Evaluate(w, c).pending) == Some(Evaluate(w, c).reg.matching)
  {
    var kind := KindOf(c.entity.id in w.reg.matching, Matches(c.entity, w.reg.query));
    KindSaysHowItMoves(w.reg.matching, c.entity.id, Matches(c.entity, w.reg.query), c.events);
    if kind.Some? {
      ReplayAppend(ids, w.pending, ItemChange(kind.value, c.entity.id, c.events));
    }
  }

  lemma {:induction false} PendingReplays(sel: Selector, w: Work, cs: seq<EntityChange>)
    requires w.pending == []
    ensures var r := Steps(sel, w, cs);
      ReplayChanges(w.reg.matching, r.pending) == Some(r.reg.matching)
  {
    if cs != [] {
      PendingReplays(sel, w, cs[..|cs| - 1]);
      EvaluationReplays(w.reg.matching, Steps(sel, w, cs[..|cs| - 1]), cs[|cs| - 1]);
    }
  }

  predicate NoRepeats(ids: seq<EntityId>) {
    forall i, j | 0 <= i < j < |ids| :: ids[i] != ids[j]
  }

  lemma {:induction false} MatchingIdsDistinct(rows: seq<Entity>, p: Predicate)
    requires DistinctIds(rows)
    ensures NoRepeats(MatchingIds(rows, p))
  {
    if rows != [] {
      var front, last := rows[..|rows| - 1], rows[|rows| - 1];
      MatchingIdsDistinct(front, p);
      MatchingIdsAreRows(front, p, last.id);
    }
  }

  lemma {:induction false} InitialReplays(ids: seq<EntityId>)
    requires NoRepeats(ids)
    ensures ReplayChanges([], InitialChanges(ids)) == Some(ids)
  {
    if ids != [] {
      var front, last := ids[..|ids| - 1], ids[|ids| - 1];
      InitialReplays(front);
      ReplayAppend([], InitialChanges(front), ItemChange(Initial, last, []));
      assert front + [last] == ids;
    }
  }

  lemma StartedReplays(collection: Text, p: Predicate, ids: seq<EntityId>)
    requires NoRepeats(ids)
    ensures ReplayLog(Started(collection, p, ids).log) == Some(ids)
  {
    InitialReplays(ids);
    var log := Started(collection, p, ids).log;
    assert ids != [] ==> log[..|log| - 1] == [];
  }

  lemma NotifiedReplays(sel: Selector, sub: Sub, cs: seq<EntityChange>)
    requires ReplayLog(sub.log) == Some(sub.reg.matching)
    ensures var r := Notified(sel, sub, cs);
      ReplayLog(r.log) == Some(r.reg.matching)
  {
    PendingReplays(sel, Work(sub.reg, []), cs);
    DeliveredReplays(Steps(sel, Work(sub.reg, []), cs), sub);
  }

  lemma DeliveredReplays(w: Work, sub: Sub)
    requires ReplayLog(sub.log) == Some(sub.reg.matching)
    requires ReplayChanges(sub.reg.matching, w.pending) == Some(w.reg.matching)
    ensures ReplayLog(Delivered(w, sub.log).log) == Some(w.reg.matching)
  {
    if w.pending != [] {
      var log := Delivered(w, sub.log).log;
      assert log[..|log| - 1] == sub.log;
    }
  }

  /** Over every run, for the reactor as for the scan, replaying a live subscription's log rebuilds,
      as a sequence, every delivered result set and the current one. So per entity Adds and Removes
      alternate and Updates fall in between. */
  lemma {:induction false} LogsReplay(sel: Selector, home: EntityId -> Text, ops: seq<Op>, s: SubId)
    requires WellFormedRun(home, ops) && s in Run(sel, ops)
    ensures ReplayLog(Run(sel, ops)[s].log) == Some(Run(sel, ops)[s].reg.matching)
  {
    var front, op := ops[..|ops| - 1], ops[|ops| - 1];
    assert op in ops && WellFormed(home, op);
    if op.Subscribe? && op.sub == s {
      MatchingIdsDistinct(op.rows, op.query);
      StartedReplays(op.collection, op.query, MatchingIds(op.rows, op.query));
    } else {
      LogsReplay(sel, home, front, s);
      if op.Notify? {
        NotifiedReplays(sel, Run(sel, front)[s], op.changes);
      }
    }
  }

  // ---------- Adds and Removes alternate ----------

  /** All changes ever delivered, in order. */
  function Flattened(log: seq<ChangeSet>): seq<ItemChange> {
    if log == [] then [] else Flattened(log[..|log| - 1]) + log[|log| - 1].changes
  }

  /** What was said about one entity. */
  function KindsOf(cs: seq<ItemChange>, id: EntityId): seq<Kind> {
    if cs == [] then []
    else KindsOf(cs[..|cs| - 1], id) + if cs[|cs| - 1].item == id then [cs[|cs| - 1].kind] else []
  }

  /** An Initial or Add comes exactly at the start and after a Remove; so Adds and Removes alternate, and
      every Update falls after the one and before the other. */
  predicate Alternates(kinds: seq<Kind>) {
    forall i | 0 <= i < |kinds| :: InTurn(kinds, i)
  }

  predicate InTurn(kinds: seq<Kind>, i: nat)
    requires i < |kinds|
  {
    (kinds[i].Initial? || kinds[i].Add?) <==> (i == 0 || kinds[i - 1].Remove?)
  }

  lemma {:induction false} ReplayConcat(ids: seq<EntityId>, a: seq<ItemChange>, b: seq<ItemChange>)
    requires ReplayChanges(ids, a).Some?
    ensures ReplayChanges(ids, a + b) == ReplayChanges(ReplayChanges(ids, a).value, b)
  {
    if b == [] {
      assert a + b == a;
    } else {
      ReplayConcat(ids, a, b[..|b| - 1]);
      assert (a + b)[..|a + b| - 1] == a + b[..|b| - 1];
    }
  }

  lemma {:induction false} LogIsOneReplay(log: seq<ChangeSet>)
    requires ReplayLog(log).Some?
    ensures ReplayChanges([], Flattened(log)) == ReplayLog(log)
  {
    if log != [] {
      LogIsOneReplay(log[..|log| - 1]);
      ReplayConcat([], Flattened(log[..|log| - 1]), log[|log| - 1].changes);
    }
  }

  /** The last word on the entity was that it is there. */
  predicate There(kinds: seq<Kind>) {
    kinds != [] && !kinds[|kinds| - 1].Remove?
  }

  lemma AlternatesOneMore(kinds: seq<Kind>, k: Kind)
    requires Alternates(kinds) && ((k.Initial? || k.Add?) <==> !There(kinds))
    ensures Alternates(kinds + [k])
  {
    var more := kinds + [k];
    forall i | 0 <= i < |more|
      ensures InTurn(more, i)
    {
      assert i < |kinds| ==> InTurn(kinds, i);
    }
  }

  /** A change of the replay says Initial or Add exactly of what is absent, and afterwards its item is
      there unless it said Remove. */
  lemma OneReplayed(ids: seq<EntityId>, c: ItemChange, id: EntityId)
    requires ReplayOne(ids, c).Some?
    ensures (c.kind.Initial? || c.kind.Add?) <==> c.item !in ids
    ensures id in ReplayOne(ids, c).value <==> if id == c.item then !c.kind.Remove? else id in ids
  {
  }

  /** A replay succeeds from nothing only on alternating changes, and an entity is there at the end if
      and only if the last word on it was no Remove. */
  lemma {:induction false} ReplayAlternates(cs: seq<ItemChange>, id: EntityId)
    requires ReplayChanges([], cs).Some?
    ensures Alternates(KindsOf(cs, id)) && (id in ReplayChanges([], cs).value <==> There(KindsOf(cs, id)))
  {
    if cs != [] {
      var front, c := cs[..|cs| - 1], cs[|cs| - 1];
      ReplayAlternates(front, id);
      OneReplayed(ReplayChanges([], front).value, c, id);
      if c.item == id {
        AlternatesOneMore(KindsOf(front, id), c.kind);
      } else {
        assert KindsOf(cs, id) == KindsOf(front, id);
      }
    }
  }

  /** Over every run, what a live subscription was told about an entity is an Initial or an Add, then
      Updates, then a Remove, then an Add again and so on; and the entity is in its result set if and
      only if the last word was no Remove. */
  lemma AddsAndRemovesAlternate(sel: Selector, home: EntityId -> Text, ops: seq<Op>, s: SubId, id: EntityId)
    requires WellFormedRun(home, ops) && s in Run(sel, ops)
    ensures var sub := Run(sel, ops)[s];
      var kinds := KindsOf(Flattened(sub.log), id);
      Alternates(kinds) && (id in sub.reg.matching <==> There(kinds))
  {
    LogsReplay(sel, home, ops, s);
    LogIsOneReplay(Run(sel, ops)[s].log);
    ReplayAlternates(Flattened(Run(sel, ops)[s].log), id);
  }

  // ---------- when a subscriber is told ----------

  lemma {:induction false} MatchingIdsConcat(a: seq<Entity>, b: seq<Entity>, p: Predicate)
    ensures MatchingIds(a + b, p) == MatchingIds(a, p) + MatchingIds(b, p)
  {
    if b == [] {
      assert a + b == a;
      assert MatchingIds(a, p) + [] == MatchingIds(a, p);
    } else {
      var front, last := b[..|b| - 1], b[|b| - 1];
      MatchingIdsConcat(a, front, p);
      assert (a + b)[..|a + b| - 1] == a + front && (a + b)[|a + b| - 1] == last;
      Associate(MatchingIds(a, p), MatchingIds(front, p), if Matches(last, p) then [last.id] else []);
    }
  }

  /** A row that matches is reported between those before it and those after it, in the order of the fetch. */
  lemma MatchingIdsInOrder(before: seq<Entity>, e: Entity, after: seq<Entity>, p: Predicate)
    ensures MatchingIds(before + [e] + after, p) ==
      MatchingIds(before, p) + (if Matches(e, p) then [e.id] else []) + MatchingIds(after, p)
  {
    MatchingIdsConcat(before + [e], after, p);
    MatchingIdsConcat(before, [e], p);
    assert [e][..0] == [];
  }

  /** Some change of the batch concerns the registration at its turn. */
  ghost predicate Concerned(w: Work, cs: seq<EntityChange>) {
    exists i :: 0 <= i < |cs| && ConcernedAt(w, cs, i)
  }

  predicate ConcernedAt(w: Work, cs: seq<EntityChange>, i: nat)
    requires i < |cs|
  {
    Concerns(Steps(FullScan, w, cs[..i]).reg, cs[i].entity)
  }

  lemma {:induction false} PendingIffConcerned(w: Work, cs: seq<EntityChange>)
    requires w.pending == []
    ensures Steps(FullScan, w, cs).pending != [] <==> Concerned(w, cs)
  {
    if cs != [] {
      var front := cs[..|cs| - 1];
      PendingIffConcerned(w, front);
      forall i | 0 <= i < |front|
        ensures ConcernedAt(w, cs, i) <==> ConcernedAt(w, front, i)
      {
        assert cs[..i] == front[..i];
      }
      assert ConcernedAt(w, cs, |front|) <==> Concerns(Steps(FullScan, w, front).reg, cs[|front|].entity);
      assert Concerned(w, cs) <==> Concerned(w, front) || ConcernedAt(w, cs, |front|);
    }
  }

  /** A notification tells a subscriber once, of something, if any of its changes concerns it at its turn;
      otherwise not at all. */
  lemma ToldOnceIffConcerned(sub: Sub, cs: seq<EntityChange>)
    ensures var w, log := Work(sub.reg, []), Notified(FullScan, sub, cs).log;
      && sub.log <= log
      && |log| == |sub.log| + (if Concerned(w, cs) then 1 else 0)
      && (Concerned(w, cs) ==> log[|sub.log|].changes != [])
  {
    PendingIffConcerned(Work(sub.reg, []), cs);
  }

  // ---------- what is reported as Initial ----------

  /** The ids of the rows that matched when the subscription was made, in the order of the fetch. */
  function FoundAtFirst(ops: seq<Op>, s: SubId): seq<EntityId> {
    if ops == [] then []
    else
      var last := ops[|ops| - 1];
      if last.Subscribe? && last.sub == s then MatchingIds(last.rows, last.query) else FoundAtFirst(ops[..|ops| - 1], s)
  }

  ghost predicate NoneInitial(cs: seq<ItemChange>) {
    forall c | c in cs :: !c.kind.Initial?
  }

  /** The first change set is there if anything was found, and reports each of it once, in order, as
      Initial and without events; nothing later is reported as Initial. */
  ghost predicate StartsWith(log: seq<ChangeSet>, found: seq<EntityId>) {
    && (found != [] ==>
      && log != [] && log[0].resultset == found && |log[0].changes| == |found|
      && forall i | 0 <= i < |found| :: log[0].changes[i] == ItemChange(Kind.Initial, found[i], []))
    && forall j | 0 <= j < |log| && (found == [] || j > 0) :: NoneInitial(log[j].changes)
  }

  lemma {:induction false} InitialChangesReport(ids: seq<EntityId>)
    ensures |InitialChanges(ids)| == |ids|
    ensures forall i | 0 <= i < |ids| :: InitialChanges(ids)[i] == ItemChange(Kind.Initial, ids[i], [])
  {
    if ids != [] {
      InitialChangesReport(ids[..|ids| - 1]);
    }
  }

  lemma {:induction false} StepsReportNoInitial(sel: Selector, w: Work, cs: seq<EntityChange>)
    requires w.pending == []
    ensures NoneInitial(Steps(sel, w, cs).pending)
  {
    if cs != [] {
      StepsReportNoInitial(sel, w, cs[..|cs| - 1]);
    }
  }

  lemma DeliveredStartsWith(w: Work, log: seq<ChangeSet>, found: seq<EntityId>)
    requires StartsWith(log, found) && NoneInitial(w.pending)
    ensures StartsWith(Delivered(w, log).log, found)
  {
  }

  /** Over every run, a live subscription is told of exactly the rows that matched when it was made as
      Initial: in its first change set, one each, in the order of the fetch. */
  lemma {:induction false} InitialsAreWhatWasFound(sel: Selector, ops: seq<Op>, s: SubId)
    requires s in Run(sel, ops)
    ensures StartsWith(Run(sel, ops)[s].log, FoundAtFirst(ops, s))
  {
    var front, op := ops[..|ops| - 1], ops[|ops| - 1];
    if op.Subscribe? && op.sub == s {
      InitialChangesReport(MatchingIds(op.rows, op.query));
    } else {
      InitialsAreWhatWasFound(sel, front, s);
      if op.Notify? {
        var sub := Run(sel, front)[s];
        StepsReportNoInitial(sel, Work(sub.reg, []), op.changes);
        DeliveredStartsWith(Steps(sel, Work(sub.reg, []), op.changes), sub.log, FoundAtFirst(front, s));
      }
    }
  }

  lemma {:induction false} KindsOfConcat(a: seq<ItemChange>, b: seq<ItemChange>, id: EntityId)
    ensures KindsOf(a + b, id) == KindsOf(a, id) + KindsOf(b, id)
  {
    if b == [] {
      assert a + b == a;
    } else {
      KindsOfConcat(a, b[..|b| - 1], id);
      assert (a + b)[..|a + b| - 1] == a + b[..|b| - 1];
    }
  }

  lemma {:induction false} KindsOfNoInitial(cs: seq<ItemChange>, id: EntityId)
    requires NoneInitial(cs)
    ensures forall k | k in KindsOf(cs, id) :: !k.Initial?
  {
    if cs != [] {
      KindsOfNoInitial(cs[..|cs| - 1], id);
    }
  }

  lemma {:induction false} KindsOfInitials(cs: seq<ItemChange>, ids: seq<EntityId>, id: EntityId)
    requires |cs| == |ids| && NoRepeats(ids)
    requires forall i | 0 <= i < |ids| :: cs[i] == ItemChange(Kind.Initial, ids[i], [])
    ensures KindsOf(cs, id) == if id in ids then [Kind.Initial] else []
  {
    if ids != [] {
      var front := ids[..|ids| - 1];
      KindsOfInitials(cs[..|cs| - 1], front, id);
      assert ids == front + [ids[|ids| - 1]];
    }
  }

  /** Initial is said of an entity at most once, and then before anything else. */
  predicate InitialOnlyAtFirst(kinds: seq<Kind>, found: bool) {
    forall i | 0 <= i < |kinds| :: kinds[i].Initial? <==> i == 0 && found
  }

  lemma {:induction false} FlattenedKinds(log: seq<ChangeSet>, found: seq<EntityId>, id: EntityId)
    requires StartsWith(log, found) && NoRepeats(found)
    ensures InitialOnlyAtFirst(KindsOf(Flattened(log), id), id in found)
    ensures log != [] && id in found ==> KindsOf(Flattened(log), id) != []
    decreases |log|
  {
    if log != [] {
      var front, last := log[..|log| - 1], log[|log| - 1].changes;
      KindsOfConcat(Flattened(front), last, id);
      if front == [] && found != [] {
        KindsOfInitials(last, found, id);
        assert KindsOf([], id) + KindsOf(last, id) == KindsOf(last, id);
      } else {
        FlattenedKinds(front, found, id);
        KindsOfNoInitial(last, id);
      }
    }
  }

  predicate SaidInTurn(kinds: seq<Kind>, i: nat, found: bool)
    requires i < |kinds|
  {
    && (kinds[i].Initial? <==> i == 0 && found)
    && (kinds[i].Add? <==> if i == 0 then !found else kinds[i - 1].Remove?)
  }

  /** So what a live subscription is told about an entity begins with Initial exactly if the entity was
      found when the subscription was made, and never says Initial again; otherwise it begins with Add. */
  lemma InitialIsSaidOnceOfWhatWasFound(sel: Selector, home: EntityId -> Text, ops: seq<Op>, s: SubId, id: EntityId)
    requires WellFormedRun(home, ops) && s in Run(sel, ops)
    ensures var kinds := KindsOf(Flattened(Run(sel, ops)[s].log), id);
      && (forall i | 0 <= i < |kinds| :: SaidInTurn(kinds, i, id in FoundAtFirst(ops, s)))
      && (id in FoundAtFirst(ops, s) ==> kinds != [])
  {
    var found, log := FoundAtFirst(ops, s), Run(sel, ops)[s].log;
    InitialsAreWhatWasFound(sel, ops, s);
    FoundIsDistinct(home, ops, s);
    FlattenedKinds(log, found, id);
    AddsAndRemovesAlternate(sel, home, ops, s, id);
    var kinds := KindsOf(Flattened(log), id);
    forall i | 0 <= i < |kinds|
      ensures SaidInTurn(kinds, i, id in found)
    {
      assert InTurn(kinds, i);
    }
  }

  lemma {:induction false} FoundIsDistinct(home: EntityId -> Text, ops: seq<Op>, s: SubId)
    requires WellFormedRun(home, ops)
    ensures NoRepeats(FoundAtFirst(ops, s))
  {
    if ops != [] {
      var last := ops[|ops| - 1];
      assert last in ops && WellFormed(home, last);
      if last.Subscribe? && last.sub == s {
        MatchingIdsDistinct(last.rows, last.query);
      } else {
        FoundIsDistinct(home, ops[..|ops| - 1], s);
      }
    }
  }

  // ---------- the result set is the query over the latest versions ----------

  /** The versions of entities a subscription was shown: its initial rows, then every change. */
  function Seen(ops: seq<Op>, s: SubId): seq<Entity> {
    if ops == [] then []
    else match ops[|ops| - 1]
      case Subscribe(t, _, _, rows) => if t == s then rows else Seen(ops[..|ops| - 1], s)
      case Notify(cs) => Seen(ops[..|ops| - 1], s) + Entities(cs)
      case Unsubscribe(_) => Seen(ops[..|ops| - 1], s)
  }

  function Entities(cs: seq<EntityChange>): seq<Entity> {
    seq(|cs|, i requires 0 <= i < |cs| => cs[i].entity)
  }

  function Latest(versions: seq<Entity>, id: EntityId): Option<Entity> {
    if versions == [] then None
    else if versions[|versions| - 1].id == id then Some(versions[|versions| - 1])
    else Latest(versions[..|versions| - 1], id)
  }

  /** `id` is in the result of running the query over the latest versions. */
  predicate Selected(versions: seq<Entity>, reg: Registration, id: EntityId) {
    var e := Latest(versions, id);
    e.Some? && e.value.collection == reg.collection && Matches(e.value, reg.query)
  }

  ghost predicate IsQueryResult(versions: seq<Entity>, reg: Registration) {
    forall id :: id in reg.matching <==> Selected(versions, reg, id)
  }

  ghost predicate VersionsAtHome(home: EntityId -> Text, versions: seq<Entity>) {
    forall e | e in versions :: e.collection == home(e.id)
  }

  lemma {:induction false} LatestIsSeen(versions: seq<Entity>, id: EntityId)
    ensures Latest(versions, id).Some? ==> Latest(versions, id).value in versions && Latest(versions, id).value.id == id
  {
    if versions != [] && versions[|versions| - 1].id != id {
      LatestIsSeen(versions[..|versions| - 1], id);
    }
  }

  lemma {:induction false} StepsKeepQueryResult(home: EntityId -> Text, versions: seq<Entity>, w: Work, cs: seq<EntityChange>)
    requires IsQueryResult(versions, w.reg) && VersionsAtHome(home, versions) && WellFormed(home, Notify(cs))
    ensures IsQueryResult(versions + Entities(cs), Steps(FullScan, w, cs).reg)
    ensures VersionsAtHome(home, versions + Entities(cs))
  {
    if cs == [] {
      assert versions + Entities(cs) == versions;
    } else {
      var front, c := cs[..|cs| - 1], cs[|cs| - 1];
      StepsKeepQueryResult(home, versions, w, front);
      var before, after := versions + Entities(front), versions + Entities(cs);
      assert Entities(cs) == Entities(front) + [c.entity];
      assert after == before + [c.entity];
      OneMoreVersion(home, before, Steps(FullScan, w, front), c);
    }
  }

  lemma OneMoreVersion(home: EntityId -> Text, versions: seq<Entity>, w: Work, c: EntityChange)
    requires IsQueryResult(versions, w.reg) && VersionsAtHome(home, versions) && c.entity.collection == home(c.entity.id)
    ensures IsQueryResult(versions + [c.entity], Step(FullScan, w, c).reg)
    ensures VersionsAtHome(home, versions + [c.entity])
  {
    var after, later := versions + [c.entity], Step(FullScan, w, c).reg;
    assert after[..|after| - 1] == versions;
    forall id ensures id in later.matching <==> Selected(after, later, id) {
      assert id in w.reg.matching <==> Selected(versions, w.reg, id);
      LatestIsSeen(versions, id);
    }
  }

  lemma {:induction false} LatestOfDistinct(rows: seq<Entity>, e: Entity)
    requires DistinctIds(rows) && e in rows
    ensures Latest(rows, e.id) == Some(e)
  {
    var front, last := rows[..|rows| - 1], rows[|rows| - 1];
    if last != e {
      assert e in front;
      LatestOfDistinct(front, e);
    }
  }

  lemma {:induction false} RowsGiveQueryResult(rows: seq<Entity>, reg: Registration)
    requires DistinctIds(rows) && reg.matching == MatchingIds(rows, reg.query)
    requires forall e | e in rows :: e.collection == reg.collection
    ensures IsQueryResult(rows, reg)
  {
    forall id ensures id in reg.matching <==> Selected(rows, reg, id) {
      MatchingIdsAreRows(rows, reg.query, id);
      LatestIsSeen(rows, id);
      if e :| e in rows && e.id == id {
        LatestOfDistinct(rows, e);
      }
    }
  }

  /** Incremental maintenance is right: after any run, the ids a live subscription holds are exactly
      those whose latest version it was shown lies in its collection and satisfies its predicate. */
  lemma {:induction false} ResultSetIsTheQuery(home: EntityId -> Text, ops: seq<Op>, s: SubId)
    requires WellFormedRun(home, ops) && s in Run(FullScan, ops)
    ensures VersionsAtHome(home, Seen(ops, s))
    ensures IsQueryResult(Seen(ops, s), Run(FullScan, ops)[s].reg)
  {
    var front, op := ops[..|ops| - 1], ops[|ops| - 1];
    assert op in ops && WellFormed(home, op);
    if op.Subscribe? && op.sub == s {
      RowsGiveQueryResult(op.rows, Run(FullScan, ops)[s].reg);
    } else {
      ResultSetIsTheQuery(home, front, s);
      if op.Notify? {
        var sub := Run(FullScan, front)[s];
        StepsKeepQueryResult(home, Seen(front, s), Work(sub.reg, []), op.changes);
      }
    }
  }

  /** Taken together, for the reactor's own selector: it never misses an entity that starts or stops
      matching, over any run with complete predicates. */
  lemma LiveResultSetIsTheQuery(home: EntityId -> Text, ops: seq<Op>, s: SubId)
    requires WellFormedRun(home, ops) && AllComplete(ops) && s in Run(Interested, ops)
    ensures IsQueryResult(Seen(ops, s), Run(Interested, ops)[s].reg)
  {
    FastPathRefinesFullScan(home, ops);
    ResultSetIsTheQuery(home, ops, s);
  }

  // ---------- what a subscribed peer is sent ----------

  /** The events a peer's subscription forwards out of a change set: all but those of Initial items. */
  function Forwarded(changes: seq<ItemChange>): seq<Event> {
    if changes == [] then []
    else
      var last := changes[|changes| - 1];
      Forwarded(changes[..|changes| - 1]) + if last.kind.Initial? then [] else last.events
  }

  /** The change is about an entity that the query held before it or selects after it. */
  predicate Concerns(reg: Registration, e: Entity) {
    e.collection == reg.collection && (e.id in reg.matching || Matches(e, reg.query))
  }

  /** The events of every change that concerns the registration at its turn. */
  function Concerning(w: Work, cs: seq<EntityChange>): seq<Event> {
    if cs == [] then []
    else
      var front, last := cs[..|cs| - 1], cs[|cs| - 1];
      Concerning(w, front) + if Concerns(Steps(FullScan, w, front).reg, last.entity) then last.events else []
  }

  lemma ForwardedOneMore(changes: seq<ItemChange>, c: ItemChange)
    ensures Forwarded(changes + [c]) == Forwarded(changes) + if c.kind.Initial? then [] else c.events
  {
    assert (changes + [c])[..|changes|] == changes;
  }

  lemma EvaluationForwards(w: Work, c: EntityChange)
    ensures Forwarded(Step(FullScan, w, c).pending) == Forwarded(w.pending) + if Concerns(w.reg, c.entity) then c.events else []
  {
    var id, now := c.entity.id, Matches(c.entity, w.reg.query);
    var kind := KindOf(id in w.reg.matching, now);
    if FullScan(w.reg, c.entity) && kind.Some? {
      ForwardedOneMore(w.pending, ItemChange(kind.value, id, c.events));
    } else {
      assert Forwarded(w.pending) + [] == Forwarded(w.pending);
    }
  }

  lemma {:induction false} BatchForwards(w: Work, cs: seq<EntityChange>)
    requires w.pending == []
    ensures Forwarded(Steps(FullScan, w, cs).pending) == Concerning(w, cs)
  {
    if cs != [] {
      BatchForwards(w, cs[..|cs| - 1]);
      EvaluationForwards(Steps(FullScan, w, cs[..|cs| - 1]), cs[|cs| - 1]);
    }
  }

  /** A peer subscribed with a complete predicate is sent, in order, exactly the events of the changes
      that concern it: those that make an entity match, keep it matching or end its matching. The
      initial rows are not sent as events. */
  lemma PeersHearExactlyWhatConcernsThem(home: EntityId -> Text, reg: Registration, cs: seq<EntityChange>)
    requires AtHome(home, reg) && WellFormed(home, Notify(cs)) && Complete(reg.collection, reg.query)
    ensures Forwarded(Steps(Interested, Work(reg, []), cs).pending) == Concerning(Work(reg, []), cs)
    ensures Forwarded(InitialChanges(reg.matching)) == []
  {
    NotificationsAgree(home, Work(reg, []), cs);
    BatchForwards(Work(reg, []), cs);
    InitialsForwardNothing(reg.matching);
  }

  lemma {:induction false} InitialsForwardNothing(ids: seq<EntityId>)
    ensures Forwarded(InitialChanges(ids)) == []
  {
    if ids != [] {
      InitialsForwardNothing(ids[..|ids| - 1]);
      ForwardedOneMore(InitialChanges(ids[..|ids| - 1]), ItemChange(Initial, ids[|ids| - 1], []));
    }
  }
}
