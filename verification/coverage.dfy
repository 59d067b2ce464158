/** How exact the syntactic check of `Covered` is. It looks at each operand by itself, so it is exact as
    long as no field is named on both sides of a connective, and errs on the safe side otherwise. */
module Coverage {
  import opened Bytes
  import opened Ast
  import opened Filter
  import opened Collation
  import opened Watching
  import opened LiveQueries

  /** The operands of every connective name different fields. */
  predicate ReadOnce(p: Predicate) {
    match p
    case And(l, r) => ReadOnce(l) && ReadOnce(r) && Fields(l) !! Fields(r)
    case Or(l, r) => ReadOnce(l) && ReadOnce(r) && Fields(l) !! Fields(r)
    case Not(q) => ReadOnce(q)
    case _ => true
  }

  /** Nothing in the collection on which the predicate answers b goes unnoticed. */
  ghost predicate CompleteFor(collection: Text, p: Predicate, b: bool) {
    forall e: Entity | e.collection == collection :: Answers(e, p, b) ==> Reached(p, e)
  }

  // ---------- only the named fields matter ----------

  /** The two entities cannot be told apart by looking at these fields. */
  predicate SameOn(e: Entity, f: Entity, names: set<Text>) {
    e.collection == f.collection &&
    forall n | n in names :: if n in e.values then n in f.values && e.values[n] == f.values[n] else n !in f.values
  }

  lemma {:induction false} LeavesWatchFields(p: Predicate, w: Watch)
    requires w in Leaves(p)
    ensures w.field in Fields(p)
  {
    match p
    case Comparison(left, op, right) =>
    case And(l, r) => if w in Leaves(l) { LeavesWatchFields(l, w); } else { LeavesWatchFields(r, w); }
    case Or(l, r) => if w in Leaves(l) { LeavesWatchFields(l, w); } else { LeavesWatchFields(r, w); }
    case Not(q) => LeavesWatchFields(q, w);
  }

  lemma {:induction false} EvaluationReadsFields(e: Entity, f: Entity, p: Predicate)
    requires Supported(p) && SameOn(e, f, Fields(p))
    ensures EvaluatePredicate(e, p) == EvaluatePredicate(f, p)
  {
    match p
    case And(l, r) =>
      EvaluationReadsFields(e, f, l);
      EvaluationReadsFields(e, f, r);
    case Or(l, r) =>
      EvaluationReadsFields(e, f, l);
      EvaluationReadsFields(e, f, r);
    case Not(q) => EvaluationReadsFields(e, f, q);
    case _ =>
  }

  function OperandCollections(e: Expr): set<Text> {
    if e.Name? && e.identifier.CollectionProperty? then {e.identifier.collection} else {}
  }

  /** The collections a predicate names. */
  function Collections(p: Predicate): set<Text> {
    match p
    case Comparison(left, _, right) => OperandCollections(left) + OperandCollections(right)
    case IsNull(e) => OperandCollections(e)
    case And(l, r) => Collections(l) + Collections(r)
    case Or(l, r) => Collections(l) + Collections(r)
    case Not(q) => Collections(q)
    case True => {}
  }

  /** An error says what is wrong: a field the predicate names and the item has not, or a collection the
      predicate names that is not the item's. */
  lemma {:induction false} ErrorsNameTheirCause(item: Entity, p: Predicate)
    requires EvaluatePredicate(item, p).Err?
    ensures match EvaluatePredicate(item, p).error
      case PropertyNotFound(name) => name in Fields(p) && name !in item.values
      case CollectionMismatch(expected, actual) => expected in Collections(p) && actual == item.collection && expected != actual
  {
    match p
    case And(l, r) => if EvaluatePredicate(item, l).Err? { ErrorsNameTheirCause(item, l); } else { ErrorsNameTheirCause(item, r); }
    case Or(l, r) => if EvaluatePredicate(item, l).Err? { ErrorsNameTheirCause(item, l); } else { ErrorsNameTheirCause(item, r); }
    case Not(q) => ErrorsNameTheirCause(item, q);
    case _ =>
  }

  lemma ReachingReadsFields(e: Entity, f: Entity, p: Predicate)
    requires SameOn(e, f, Fields(p))
    ensures Reached(p, e) <==> Reached(p, f)
  {
    forall w | w in Leaves(p)
      ensures Fires(w, e) <==> Fires(w, f)
    {
      LeavesWatchFields(p, w);
    }
  }

  /** Without a wildcard, a predicate none of whose fields is there is not reached. */
  lemma UnreadIsNotReached(e: Entity, p: Predicate)
    requires !HasTrue(p) && e.values.Keys !! Fields(p)
    ensures !Reached(p, e)
  {
    forall w | w in Leaves(p)
      ensures !Fires(w, e)
    {
      LeavesWatchFields(p, w);
    }
  }

  // ---------- every uncovered answer is missed somewhere ----------

  /** Both entities' fields in one. */
  function Joined(e: Entity, f: Entity): Entity {
    e.(values := e.values + f.values)
  }

  lemma JoinedIsBoth(e: Entity, f: Entity, l: Predicate, r: Predicate)
    requires Supported(l) && Supported(r) && Fields(l) !! Fields(r) && e.collection == f.collection
    requires e.values.Keys <= Fields(l) && f.values.Keys <= Fields(r)
    ensures Alike(l, e, Joined(e, f)) && Alike(r, f, Joined(e, f))
  {
    assert SameOn(e, Joined(e, f), Fields(l));
    assert SameOn(f, Joined(e, f), Fields(r));
    EvaluationReadsFields(e, Joined(e, f), l);
    EvaluationReadsFields(f, Joined(e, f), r);
    ReachingReadsFields(e, Joined(e, f), l);
    ReachingReadsFields(f, Joined(e, f), r);
  }

  predicate Alike(p: Predicate, e: Entity, f: Entity) {
    EvaluatePredicate(e, p) == EvaluatePredicate(f, p) && (Reached(p, e) <==> Reached(p, f))
  }

  /** For an answer that is not covered, an entity in the collection that gives it and is not reached. */
  lemma {:induction false} MissedAnswer(collection: Text, p: Predicate, b: bool) returns (e: Entity)
    requires Supported(p) && Watchable(p) && ReadOnce(p) && !CoveredFor(collection, p, b)
    ensures e.collection == collection && e.values.Keys <= Fields(p)
    ensures Answers(e, p, b) && !Reached(p, e)
    decreases p, 1
  {
    match p
    case Comparison(left, op, right) =>
      if b {
        e := MissedLeaf(collection, left, op, right);
      } else {
        e := MissedNegatedLeaf(collection, left, op, right);
        NegationMatches(p, e);
      }
    case And(l, r) =>
      e := MissedOperands(collection, p, l, r, b, true);
      ReachedThrough(l, r, e);
    case Or(l, r) =>
      e := MissedOperands(collection, p, l, r, b, false);
      ReachedThrough(l, r, e);
    case Not(q) =>
      e := MissedAnswer(collection, q, !b);
      NegationReaches(q, e);
  }

  /** A connective whose right operand is evaluated only after the left one answered `goOn`. Where the
      left operand settles the answer, its entity lacks the fields of the right one; otherwise the two
      operands' entities are joined. */
  lemma {:induction false} MissedOperands(collection: Text, p: Predicate, l: Predicate, r: Predicate, b: bool, goOn: bool)
      returns (e: Entity)
    requires p == And(l, r) || p == Or(l, r)
    requires Supported(l) && Supported(r) && Watchable(l) && Watchable(r) && ReadOnce(p)
    requires !HasTrue(l) && !HasTrue(r)
    requires if b == goOn then !CoveredFor(collection, l, b) && !CoveredFor(collection, r, b)
             else !(CoveredFor(collection, l, b) && (CoveredFor(collection, l, goOn) || CoveredFor(collection, r, b)))
    ensures e.collection == collection && e.values.Keys <= Fields(p)
    ensures (Answers(e, l, !goOn) && b == !goOn) || (Answers(e, l, goOn) && Answers(e, r, b))
    ensures !Reached(l, e) && !Reached(r, e)
    decreases p, 0
  {
    if b != goOn && !CoveredFor(collection, l, b) {
      e := MissedAnswer(collection, l, b);
      UnreadIsNotReached(e, r);
    } else {
      var left := MissedAnswer(collection, l, goOn);
      var right := MissedAnswer(collection, r, b);
      JoinedIsBoth(left, right, l, r);
      e := Joined(left, right);
    }
  }

  // ---------- the check is exact ----------

  lemma AnswersCompleteIffCovered(collection: Text, p: Predicate, b: bool)
    requires Supported(p) && Watchable(p) && ReadOnce(p)
    ensures CompleteFor(collection, p, b) <==> CoveredFor(collection, p, b)
  {
    if CoveredFor(collection, p, b) {
      forall e: Entity | e.collection == collection && Answers(e, p, b)
        ensures Reached(p, e)
      {
        AnswerIsReached(e, p, b);
      }
    } else {
      var e := MissedAnswer(collection, p, b);
      assert e.collection == collection && Answers(e, p, b) && !Reached(p, e);
    }
  }

  /** No match of a predicate is ever missed exactly when the check accepts it: for AND, OR, NOT and TRUE
      over any comparisons, as long as the operands of a connective share no field. */
  lemma CompleteIffCovered(collection: Text, p: Predicate)
    requires Supported(p) && Watchable(p) && ReadOnce(p)
    ensures Complete(collection, p) <==> Covered(collection, p)
  {
    AnswersCompleteIffCovered(collection, p, true);
    assert Complete(collection, p) <==> CompleteFor(collection, p, true);
  }

  /** `NOT field op text`, for any operator that is not covered under NOT */
  function NotCompared(field: Text, op: ComparisonOperator, text: Text): (p: Predicate)
    requires op == GreaterThan || op == LessThanOrEqual
    ensures Supported(p) && Watchable(p) && Fields(p) == {field} && !HasTrue(p)
    ensures forall collection :: !CoveredFor(collection, p, true)
  {
    var q := Comparison(Name(Property(field)), op, Constant(Literal.String(text)));
    assert Supported(q) && Watchable(q) && Fields(q) == {field} && !HasTrue(q);
    assert forall collection :: !CoveredFor(collection, q, false);
    Not(q)
  }

  /** A shared field is what breaks it: one operand may exclude what the other one misses. No entity
      satisfies `NOT field > text AND NOT field <= text`, and the check does not see it. */
  lemma SharedFieldHidesAMiss(collection: Text, field: Text, text: Text)
    ensures var p := And(NotCompared(field, GreaterThan, text), NotCompared(field, LessThanOrEqual, text));
      Supported(p) && Watchable(p) && !ReadOnce(p) && Complete(collection, p) && !Covered(collection, p)
  {
    var l, r := NotCompared(field, GreaterThan, text), NotCompared(field, LessThanOrEqual, text);
    assert field in Fields(l) && field in Fields(r);
    forall e: Entity
      ensures !Matches(e, And(l, r))
    {
      NegationMatches(l.p, e);
      NegationMatches(r.p, e);
      assert Matches(e, And(l, r)) ==> Matches(e, l) && Matches(e, r);
      assert Answers(e, l.p, false) ==> Matches(e, r.p);
    }
    assert !CoveredFor(collection, l, true) && !CoveredFor(collection, r, true) && !HasTrue(And(l, r));
    assert !Covered(collection, And(l, r));
  }

  // ---------- what it means for the subscribers ----------

  /** All subscriptions of the run are to this predicate in this collection. */
  predicate OnlySubscribes(ops: seq<Op>, collection: Text, p: Predicate) {
    forall op | op in ops && op.Subscribe? :: op.collection == collection && op.query == p
  }

  /** No run tells the reactor's subscribers of this predicate from those of a full scan. */
  ghost predicate RunsAgree(collection: Text, p: Predicate) {
    forall home: EntityId -> Text, ops: seq<Op> | WellFormedRun(home, ops) && OnlySubscribes(ops, collection, p) ::
      Run(Interested, ops) == Run(FullScan, ops)
  }

  /** The fast path is right on every run exactly for the complete predicates. */
  lemma RunsAgreeIffComplete(collection: Text, p: Predicate)
    requires Supported(p) && Watchable(p)
    ensures RunsAgree(collection, p) <==> Complete(collection, p)
  {
    if Complete(collection, p) {
      forall home: EntityId -> Text, ops: seq<Op> | WellFormedRun(home, ops) && OnlySubscribes(ops, collection, p)
        ensures Run(Interested, ops) == Run(FullScan, ops)
      {
        FastPathRefinesFullScan(home, ops);
      }
    } else {
      var e: Entity :| e.collection == collection && Matches(e, p) && !Reached(p, e);
      UnreachedMatchShows(collection, p, e);
    }
  }

  lemma UnreachedMatchShows(collection: Text, p: Predicate, e: Entity)
    requires Supported(p) && Watchable(p)
    requires e.collection == collection && Matches(e, p) && !Reached(p, e)
    ensures !RunsAgree(collection, p)
  {
    var home: EntityId -> Text, ops := _ => collection, Exposing(collection, p, e);
    IncompletePredicateMissesAnAdd(home, collection, p, e);
    ExposingOnlySubscribes(collection, p, e);
    assert Run(Interested, ops)[0].log != Run(FullScan, ops)[0].log;
  }

  lemma ExposingOnlySubscribes(collection: Text, p: Predicate, e: Entity)
    ensures OnlySubscribes(Exposing(collection, p, e), collection, p)
  {
  }

  /** And so, for predicates that share no field, exactly for those the check accepts. */
  lemma RunsAgreeIffCovered(collection: Text, p: Predicate)
    requires Supported(p) && Watchable(p) && ReadOnce(p)
    ensures RunsAgree(collection, p) <==> Covered(collection, p)
  {
    RunsAgreeIffComplete(collection, p);
    CompleteIffCovered(collection, p);
  }
}
