/** Which index entries a predicate registers, and whether they are enough to notice every entity
    that starts to match it. */
module Watching {
  import opened Bytes
  import opened Ast
  import opened Filter
  import opened Collation
  import opened ComparisonIndices
  import opened IndexTheorems

  datatype Target = Target(field: Text, literal: Literal)

  /** One registration of a predicate: a bucket in the index of a field. */
  datatype Watch = Watch(field: Text, bucket: Bucket)

  function FieldName(id: Identifier): Text { id.name }

  /** A comparison is watched when it compares a field with a literal, on either side. */
  function ComparisonTarget(left: Expr, right: Expr): Option<Target> {
    match (left, right)
    case (Name(id), Constant(lit)) => Some(Target(FieldName(id), lit))
    case (Constant(lit), Name(id)) => Some(Target(FieldName(id), lit))
    case _ => None
  }

  /** Predicates whose watchers can be registered without a panic. */
  predicate Watchable(p: Predicate) {
    match p
    case Comparison(left, op, right) => ComparisonTarget(left, right).Some? ==> Indexable(op)
    case And(l, r) => Watchable(l) && Watchable(r)
    case Or(l, r) => Watchable(l) && Watchable(r)
    case Not(q) => Watchable(q)
    case IsNull(_) => false
    case True => true
  }

  function LeafWatch(left: Expr, op: ComparisonOperator, right: Expr): multiset<Watch> {
    var target := ComparisonTarget(left, right);
    if target.None? then multiset{}
    else match Normalise(target.value.literal, op)
      case Some(bucket) => multiset{Watch(target.value.field, bucket)}
      case None => multiset{}
  }

  /** All registrations of a predicate, with multiplicity. */
  function Leaves(p: Predicate): multiset<Watch> {
    match p
    case Comparison(left, op, right) => LeafWatch(left, op, right)
    case And(l, r) => Leaves(l) + Leaves(r)
    case Or(l, r) => Leaves(l) + Leaves(r)
    case Not(q) => Leaves(q)
    case _ => multiset{}
  }

  /** Whether the predicate registers a wildcard watcher. */
  predicate HasTrue(p: Predicate) {
    match p
    case And(l, r) => HasTrue(l) || HasTrue(r)
    case Or(l, r) => HasTrue(l) || HasTrue(r)
    case Not(q) => HasTrue(q)
    case True => true
    case _ => false
  }

  function OperandFields(e: Expr): set<Text> {
    if e.Name? then {FieldName(e.identifier)} else {}
  }

  /** The fields a predicate names. */
  function Fields(p: Predicate): set<Text> {
    match p
    case Comparison(left, _, right) => OperandFields(left) + OperandFields(right)
    case IsNull(e) => OperandFields(e)
    case And(l, r) => Fields(l) + Fields(r)
    case Or(l, r) => Fields(l) + Fields(r)
    case Not(q) => Fields(q)
    case True => {}
  }

  predicate Fires(w: Watch, e: Entity) {
    w.field in e.values && Hits(w.bucket, Value.String(e.values[w.field]))
  }

  /** A changed entity reaches the predicate through its index entries or its wildcard. */
  predicate Reached(p: Predicate, e: Entity) {
    HasTrue(p) || exists w :: w in Leaves(p) && Fires(w, e)
  }

  /** Nothing that matches in the collection goes unnoticed. */
  ghost predicate Complete(collection: Text, p: Predicate) {
    forall e: Entity | e.collection == collection :: Matches(e, p) ==> Reached(p, e)
  }

  // ---------- one comparison: the exact condition ----------

  predicate Foreign(collection: Text, e: Expr) {
    e.Name? && e.identifier.CollectionProperty? && e.identifier.collection != collection
  }

  /** `field op literal`: the registered key lies on the right side of the literal's text. */
  predicate KeyReachesText(lit: Literal, op: ComparisonOperator) {
    var t, bucket := LiteralText(lit), Normalise(lit, op);
    bucket.Some? &&
    match op
    case Equal => bucket.value.key == t
    case GreaterThan => AtMost(bucket.value.key, t)
    case GreaterThanOrEqual => Less(bucket.value.key, t)
    case LessThan => AtMost(t, bucket.value.key)
    case LessThanOrEqual => Less(t, bucket.value.key)
    case _ => false
  }

  /** A condition on the comparison alone, checkable before subscribing. With the literal on the
      left the operator is not flipped, so only equality (and the unsatisfiable `'' > field`) works. */
  predicate LeafCovered(collection: Text, left: Expr, op: ComparisonOperator, right: Expr)
    requires Simple(left) && Basic(op) && Simple(right)
  {
    Foreign(collection, left) || Foreign(collection, right) ||
    match (left, right)
    case (Name(_), Constant(lit)) => KeyReachesText(lit, op)
    case (Constant(lit), Name(_)) =>
      (op == Equal && LiteralKey(lit) == LiteralText(lit)) || (op == GreaterThan && LiteralText(lit) == [])
    case (Constant(a), Constant(b)) => !Compare(LiteralText(a), op, LiteralText(b))
    case (Name(x), Name(y)) => FieldName(x) == FieldName(y) && (op == NotEqual || op == GreaterThan || op == LessThan)
  }

  lemma WatchedLeaf(e: Entity, left: Expr, op: ComparisonOperator, right: Expr)
    requires Indexable(op) && ComparisonTarget(left, right).Some?
    ensures var t := ComparisonTarget(left, right).value;
      Reached(Comparison(left, op, right), e) <==>
        t.field in e.values && AtomHits(t.literal, op, Value.String(e.values[t.field]))
  {
    var t := ComparisonTarget(left, right).value;
    var p := Comparison(left, op, right);
    if Normalise(t.literal, op).Some? {
      var w := Watch(t.field, Normalise(t.literal, op).value);
      assert Leaves(p) == multiset{w};
      assert w in Leaves(p);
    } else {
      assert Leaves(p) == multiset{};
    }
  }

  /** An entity holding a single field. */
  function Probe(collection: Text, field: Text, v: Text): Entity {
    Entity(0, collection, map[field := v])
  }

  /** `t op v` and `v op t` for the watched direction, as the filter compares them. */
  predicate LeafMatches(left: Expr, op: ComparisonOperator, lit: Literal, v: Text)
    requires Basic(op)
  {
    if left.Name? then Compare(v, op, LiteralText(lit)) else Compare(LiteralText(lit), op, v)
  }

  lemma LeafMeaning(e: Entity, left: Expr, op: ComparisonOperator, right: Expr)
    requires Indexable(op) && ComparisonTarget(left, right).Some?
    requires !Foreign(e.collection, left) && !Foreign(e.collection, right)
    ensures var t := ComparisonTarget(left, right).value;
      Matches(e, Comparison(left, op, right)) <==> t.field in e.values && LeafMatches(left, op, t.literal, e.values[t.field])
  {
  }

  lemma StraightLeaf(lit: Literal, op: ComparisonOperator, v: Text)
    requires Indexable(op) && KeyReachesText(lit, op) && Compare(v, op, LiteralText(lit))
    ensures AtomHits(lit, op, Value.String(v))
  {
    TextHits(lit, op, v);
    var t, key := LiteralText(lit), Normalise(lit, op).value.key;
    LessIsStrictTotalOrder(v, t);
    if Less(t, v) && Less(key, t) { LessTransitive(key, t, v); }
    if Less(v, t) && Less(t, key) { LessTransitive(v, t, key); }
  }

  /** Where the key is on the wrong side, this value matches and is not hit. */
  function StraightMiss(lit: Literal, op: ComparisonOperator): Text {
    match op
    case GreaterThan => LiteralKey(lit)
    case LessThan => LiteralKey(lit)
    case _ => LiteralText(lit)
  }

  lemma StraightMissIsMissed(lit: Literal, op: ComparisonOperator)
    requires Indexable(op) && !KeyReachesText(lit, op)
    ensures Compare(StraightMiss(lit, op), op, LiteralText(lit))
    ensures !AtomHits(lit, op, Value.String(StraightMiss(lit, op)))
  {
    TextHits(lit, op, StraightMiss(lit, op));
    LessIsStrictTotalOrder(LiteralKey(lit), LiteralText(lit));
    LessIsStrictTotalOrder(LiteralText(lit), LiteralText(lit));
    LessIsStrictTotalOrder(LiteralKey(lit), LiteralKey(lit));
  }

  function FlippedMiss(lit: Literal, op: ComparisonOperator): Text {
    match op
    case Equal => LiteralText(lit)
    case GreaterThan => []
    case GreaterThanOrEqual => []
    case _ =>
      var t := LiteralText(lit);
      match Normalise(lit, op)
      case Some(bucket) => if Less(t, bucket.key) then bucket.key + [0] else t + [0]
      case None => t
  }

  lemma FlippedMissIsMissed(lit: Literal, op: ComparisonOperator)
    requires Indexable(op)
    requires !(op == Equal && LiteralKey(lit) == LiteralText(lit)) && !(op == GreaterThan && LiteralText(lit) == [])
    ensures Compare(LiteralText(lit), op, FlippedMiss(lit, op))
    ensures !AtomHits(lit, op, Value.String(FlippedMiss(lit, op)))
  {
    var v, t, bucket := FlippedMiss(lit, op), LiteralText(lit), Normalise(lit, op);
    TextHits(lit, op, v);
    LessIsStrictTotalOrder(t, v);
    LessIsStrictTotalOrder(t, t);
    if (op == LessThan || op == LessThanOrEqual) && bucket.Some? {
      var key := bucket.value.key;
      LessIsStrictTotalOrder(v, key);
      LessIsStrictTotalOrder(t, key);
      AppendZeroIsSuccessor(t, t + [0]);
      AppendZeroIsSuccessor(key, key + [0]);
      if Less(t, key) {
        LessTransitive(t, key, v);
      } else if key != t {
        LessTransitive(key, t, v);
      }
    }
  }

  /** Two values in the relation an operator asks for. */
  function RelatedPair(op: ComparisonOperator): (Text, Text) {
    match op
    case NotEqual => ([], [0])
    case LessThan => ([], [0])
    case GreaterThan => ([0], [])
    case _ => ([], [])
  }

  /** A single comparison is never missed exactly when `LeafCovered` holds: both directions, for
      every literal type, either orientation, and comparisons that are not watched at all. */
  lemma LeafIsCompleteIffCovered(collection: Text, left: Expr, op: ComparisonOperator, right: Expr)
    requires Simple(left) && Basic(op) && Simple(right) && Watchable(Comparison(left, op, right))
    ensures Complete(collection, Comparison(left, op, right)) <==> LeafCovered(collection, left, op, right)
  {
    var p := Comparison(left, op, right);
    if LeafCovered(collection, left, op, right) {
      forall e: Entity | e.collection == collection && Matches(e, p) ensures Reached(p, e) {
        CoveredLeafIsReached(e, left, op, right);
      }
    } else {
      var e := MissedLeaf(collection, left, op, right);
      assert e.collection == collection && Matches(e, p) && !Reached(p, e);
    }
  }

  lemma CoveredLeafIsReached(e: Entity, left: Expr, op: ComparisonOperator, right: Expr)
    requires Simple(left) && Basic(op) && Simple(right) && Watchable(Comparison(left, op, right))
    requires LeafCovered(e.collection, left, op, right) && Matches(e, Comparison(left, op, right))
    ensures Reached(Comparison(left, op, right), e)
  {
    if ComparisonTarget(left, right).Some? {
      var t := ComparisonTarget(left, right).value;
      LeafMeaning(e, left, op, right);
      WatchedLeaf(e, left, op, right);
      var v := e.values[t.field];
      if left.Name? {
        StraightLeaf(t.literal, op, v);
      } else {
        TextHits(t.literal, op, v);
        LessIsStrictTotalOrder(v, []);
      }
    } else if left.Name? {
      var v := e.values[FieldName(left.identifier)];
      LessIsStrictTotalOrder(v, v);
    }
  }

  lemma MissedLeaf(collection: Text, left: Expr, op: ComparisonOperator, right: Expr) returns (e: Entity)
    requires Simple(left) && Basic(op) && Simple(right) && Watchable(Comparison(left, op, right))
    requires !LeafCovered(collection, left, op, right)
    ensures e.collection == collection && Matches(e, Comparison(left, op, right))
    ensures !Reached(Comparison(left, op, right), e)
    ensures e.values.Keys <= Fields(Comparison(left, op, right))
  {
    if ComparisonTarget(left, right).Some? {
      var t := ComparisonTarget(left, right).value;
      if left.Name? {
        e := Probe(collection, t.field, StraightMiss(t.literal, op));
        StraightMissIsMissed(t.literal, op);
      } else {
        e := Probe(collection, t.field, FlippedMiss(t.literal, op));
        FlippedMissIsMissed(t.literal, op);
      }
      LeafMeaning(e, left, op, right);
      WatchedLeaf(e, left, op, right);
    } else if left.Name? {
      var pair := RelatedPair(op);
      if FieldName(left.identifier) == FieldName(right.identifier) {
        e := Probe(collection, FieldName(left.identifier), []);
      } else {
        e := Entity(0, collection, map[FieldName(left.identifier) := pair.0, FieldName(right.identifier) := pair.1]);
      }
    } else {
      e := Entity(0, collection, map[]);
    }
  }

  // ---------- one negated comparison: the exact condition ----------

  /** `literal op field` under NOT: the key registered for the unflipped operator reaches all values on
      the other side of the literal's text. */
  predicate KeyReachesNegation(lit: Literal, op: ComparisonOperator) {
    var t, bucket := LiteralText(lit), Normalise(lit, op);
    match op
    case GreaterThan => Less(LiteralKey(lit), t)
    case GreaterThanOrEqual => bucket.Some? && AtMost(bucket.value.key, t)
    case LessThan => Less(t, LiteralKey(lit))
    case LessThanOrEqual => t == [] || (bucket.Some? && AtMost(t, bucket.value.key))
    case _ => false
  }

  /** NOT registers the watchers of the comparison as it stands. With the field on the left that helps
      only where nothing matches (`NOT field >= ''`); with the literal on the left the two flips cancel
      out for the orders, not for equality. */
  predicate NegatedLeafCovered(collection: Text, left: Expr, op: ComparisonOperator, right: Expr)
    requires Simple(left) && Basic(op) && Simple(right)
  {
    Foreign(collection, left) || Foreign(collection, right) ||
    match (left, right)
    case (Name(_), Constant(lit)) => op == GreaterThanOrEqual && LiteralText(lit) == []
    case (Constant(lit), Name(_)) => KeyReachesNegation(lit, op)
    case (Constant(a), Constant(b)) => Compare(LiteralText(a), op, LiteralText(b))
    case (Name(x), Name(y)) => FieldName(x) == FieldName(y) && (op == Equal || op == GreaterThanOrEqual || op == LessThanOrEqual)
  }

  predicate Answers(e: Entity, p: Predicate, b: bool) {
    EvaluatePredicate(e, p) == Ok(b)
  }

  lemma NegationMatches(p: Predicate, e: Entity)
    ensures Matches(e, Not(p)) <==> Answers(e, p, false)
    ensures Answers(e, Not(p), false) <==> Matches(e, p)
  {
  }

  lemma NegatedLeafMeaning(e: Entity, left: Expr, op: ComparisonOperator, right: Expr)
    requires Indexable(op) && ComparisonTarget(left, right).Some?
    requires !Foreign(e.collection, left) && !Foreign(e.collection, right)
    ensures var t := ComparisonTarget(left, right).value;
      Matches(e, Not(Comparison(left, op, right))) <==>
        t.field in e.values && !LeafMatches(left, op, t.literal, e.values[t.field])
  {
    NegationMatches(Comparison(left, op, right), e);
  }

  /** The negation registers what its operand registers. */
  lemma NegationReaches(p: Predicate, e: Entity)
    ensures Reached(Not(p), e) <==> Reached(p, e)
  {
    assert Leaves(Not(p)) == Leaves(p);
  }

  lemma FlippedNegationIsReached(lit: Literal, op: ComparisonOperator, v: Text)
    requires Indexable(op) && KeyReachesNegation(lit, op) && !Compare(LiteralText(lit), op, v)
    ensures AtomHits(lit, op, Value.String(v))
  {
    TextHits(lit, op, v);
    var t := LiteralText(lit);
    LessIsStrictTotalOrder(v, t);
    if t == [] && op == LessThanOrEqual {
      LessIsStrictTotalOrder(v, []);
    } else {
      var key := Normalise(lit, op).value.key;
      if Less(key, t) && Less(t, v) { LessTransitive(key, t, v); }
      if Less(v, t) && Less(t, key) { LessTransitive(v, t, key); }
    }
  }

  /** A value that equals neither text. */
  function Third(a: Text, b: Text): Text {
    if a + [0] != b then a + [0] else a + [0, 0]
  }

  lemma ThirdDiffers(a: Text, b: Text)
    ensures Third(a, b) != a && Third(a, b) != b
  {
    assert |a + [0]| == |a| + 1 && |a + [0, 0]| == |a| + 2;
  }

  /** Where the flipped key does not reach the negation, this value matches and is not hit. */
  function FlippedNegationMiss(lit: Literal, op: ComparisonOperator): Text {
    var t := LiteralText(lit);
    match op
    case Equal => Third(t, LiteralKey(lit))
    case GreaterThanOrEqual => t + [0]
    case LessThanOrEqual => if Normalise(lit, op).Some? then Normalise(lit, op).value.key else []
    case _ => t
  }

  lemma FlippedNegationIsMissed(lit: Literal, op: ComparisonOperator)
    requires Indexable(op) && !KeyReachesNegation(lit, op)
    ensures !Compare(LiteralText(lit), op, FlippedNegationMiss(lit, op))
    ensures !AtomHits(lit, op, Value.String(FlippedNegationMiss(lit, op)))
  {
    var t, v := LiteralText(lit), FlippedNegationMiss(lit, op);
    TextHits(lit, op, v);
    LessIsStrictTotalOrder(t, v);
    LessIsStrictTotalOrder(t, t);
    ThirdDiffers(t, LiteralKey(lit));
    AppendZeroIsSuccessor(t, t + [0]);
    if op == GreaterThanOrEqual {
      var key := Normalise(lit, op).value.key;
      AppendZeroIsSuccessor(key, t + [0]);
      AppendZeroKeepsOrder(key, t);
    } else if op == LessThanOrEqual {
      LessIsStrictTotalOrder(v, v);
      LessIsStrictTotalOrder(t, []);
    }
  }

  /** With the field on the left, this value matches the negation and is not hit. */
  function StraightNegationMiss(lit: Literal, op: ComparisonOperator): Text {
    var t, bucket := LiteralText(lit), Normalise(lit, op);
    match op
    case Equal => Third(t, LiteralKey(lit))
    case LessThan => if Less(t, LiteralKey(lit)) then LiteralKey(lit) else t
    case LessThanOrEqual => if bucket.Some? && Less(t, bucket.value.key) then bucket.value.key else t + [0]
    case _ => []
  }

  lemma StraightNegationIsMissed(lit: Literal, op: ComparisonOperator)
    requires Indexable(op) && !(op == GreaterThanOrEqual && LiteralText(lit) == [])
    ensures !Compare(StraightNegationMiss(lit, op), op, LiteralText(lit))
    ensures !AtomHits(lit, op, Value.String(StraightNegationMiss(lit, op)))
  {
    var t, v := LiteralText(lit), StraightNegationMiss(lit, op);
    TextHits(lit, op, v);
    LessIsStrictTotalOrder(t, v);
    ThirdDiffers(t, LiteralKey(lit));
    AppendZeroIsSuccessor(t, t + [0]);
    if (op == LessThan || op == LessThanOrEqual) && Normalise(lit, op).Some? {
      var key := Normalise(lit, op).value.key;
      LessIsStrictTotalOrder(t, key);
      LessIsStrictTotalOrder(v, key);
      if Less(key, t) && Less(t, v) { LessTransitive(key, t, v); }
    }
  }

  lemma CoveredNegatedLeafIsReached(e: Entity, left: Expr, op: ComparisonOperator, right: Expr)
    requires Simple(left) && Basic(op) && Simple(right) && Watchable(Comparison(left, op, right))
    requires NegatedLeafCovered(e.collection, left, op, right) && Matches(e, Not(Comparison(left, op, right)))
    ensures Reached(Comparison(left, op, right), e)
  {
    NegationMatches(Comparison(left, op, right), e);
    if ComparisonTarget(left, right).Some? {
      var t := ComparisonTarget(left, right).value;
      NegatedLeafMeaning(e, left, op, right);
      WatchedLeaf(e, left, op, right);
      var v := e.values[t.field];
      if left.Name? {
        LessIsStrictTotalOrder(v, []);
      } else {
        FlippedNegationIsReached(t.literal, op, v);
      }
    } else if left.Name? {
      var v := e.values[FieldName(left.identifier)];
      LessIsStrictTotalOrder(v, v);
    }
  }

  /** Two values not in the relation an operator asks for. */
  function UnrelatedPair(op: ComparisonOperator): (Text, Text) {
    match op
    case Equal => ([], [0])
    case GreaterThanOrEqual => ([], [0])
    case LessThanOrEqual => ([0], [])
    case _ => ([], [])
  }

  lemma MissedNegatedLeaf(collection: Text, left: Expr, op: ComparisonOperator, right: Expr) returns (e: Entity)
    requires Simple(left) && Basic(op) && Simple(right) && Watchable(Comparison(left, op, right))
    requires !NegatedLeafCovered(collection, left, op, right)
    ensures e.collection == collection && Matches(e, Not(Comparison(left, op, right)))
    ensures !Reached(Comparison(left, op, right), e)
    ensures e.values.Keys <= Fields(Comparison(left, op, right))
  {
    if ComparisonTarget(left, right).Some? {
      var t := ComparisonTarget(left, right).value;
      if left.Name? {
        e := Probe(collection, t.field, StraightNegationMiss(t.literal, op));
        StraightNegationIsMissed(t.literal, op);
      } else {
        e := Probe(collection, t.field, FlippedNegationMiss(t.literal, op));
        FlippedNegationIsMissed(t.literal, op);
      }
      NegatedLeafMeaning(e, left, op, right);
      WatchedLeaf(e, left, op, right);
    } else if left.Name? {
      NegationMatches(Comparison(left, op, right), Probe(collection, FieldName(left.identifier), []));
      var pair := UnrelatedPair(op);
      if FieldName(left.identifier) == FieldName(right.identifier) {
        e := Probe(collection, FieldName(left.identifier), []);
      } else {
        e := Entity(0, collection, map[FieldName(left.identifier) := pair.0, FieldName(right.identifier) := pair.1]);
      }
    } else {
      e := Entity(0, collection, map[]);
    }
  }

  /** A negated comparison is never missed exactly when `NegatedLeafCovered` holds: both directions, for
      every operator, every literal type, either orientation, and comparisons that are not watched. */
  lemma NegatedLeafIsCompleteIffCovered(collection: Text, left: Expr, op: ComparisonOperator, right: Expr)
    requires Simple(left) && Basic(op) && Simple(right) && Watchable(Comparison(left, op, right))
    ensures Complete(collection, Not(Comparison(left, op, right))) <==> NegatedLeafCovered(collection, left, op, right)
  {
    var q := Comparison(left, op, right);
    if NegatedLeafCovered(collection, left, op, right) {
      forall e: Entity | e.collection == collection && Matches(e, Not(q)) ensures Reached(Not(q), e) {
        CoveredNegatedLeafIsReached(e, left, op, right);
        NegationReaches(q, e);
      }
    } else {
      var e := MissedNegatedLeaf(collection, left, op, right);
      NegationReaches(q, e);
      assert e.collection == collection && Matches(e, Not(q)) && !Reached(Not(q), e);
    }
  }

  // ---------- whole predicates ----------

  /** A syntactic condition under which no entity on which p answers b goes unreached. NOT turns the
      answer round. A conjunction answers true through either operand; it answers false through its left
      operand, or through the right one after the left answered true, and then either may be reached.
      Disjunctions are dual, and a wildcard covers everything. */
  predicate CoveredFor(collection: Text, p: Predicate, b: bool)
    requires Supported(p)
  {
    HasTrue(p) ||
    match p
    case Comparison(left, op, right) =>
      if b then LeafCovered(collection, left, op, right) else NegatedLeafCovered(collection, left, op, right)
    case And(l, r) =>
      if b then CoveredFor(collection, l, true) || CoveredFor(collection, r, true)
      else CoveredFor(collection, l, false) && (CoveredFor(collection, l, true) || CoveredFor(collection, r, false))
    case Or(l, r) =>
      if b then CoveredFor(collection, l, true) && (CoveredFor(collection, l, false) || CoveredFor(collection, r, true))
      else CoveredFor(collection, l, false) || CoveredFor(collection, r, false)
    case Not(q) => CoveredFor(collection, q, !b)
    case _ => false
  }

  /** No match of the predicate goes unreached. */
  predicate Covered(collection: Text, p: Predicate)
    requires Supported(p)
  {
    CoveredFor(collection, p, true)
  }

  lemma ReachedThrough(l: Predicate, r: Predicate, e: Entity)
    ensures Reached(And(l, r), e) <==> Reached(l, e) || Reached(r, e)
    ensures Reached(Or(l, r), e) <==> Reached(l, e) || Reached(r, e)
  {
    FiresInSum(Leaves(l), Leaves(r), e);
    assert Leaves(And(l, r)) == Leaves(l) + Leaves(r) && Leaves(Or(l, r)) == Leaves(l) + Leaves(r);
  }

  lemma FiresInSum(m: multiset<Watch>, n: multiset<Watch>, e: Entity)
    ensures (exists w :: w in m + n && Fires(w, e)) <==> (exists w :: w in m && Fires(w, e)) || (exists w :: w in n && Fires(w, e))
  {
    assert forall w :: w in m + n <==> w in m || w in n;
  }

  /** Every entity on which a predicate answers in a covered way is reached. */
  lemma {:induction false} AnswerIsReached(e: Entity, p: Predicate, b: bool)
    requires Supported(p) && Watchable(p) && CoveredFor(e.collection, p, b) && Answers(e, p, b)
    ensures Reached(p, e)
    decreases p, 1
  {
    if !HasTrue(p) {
      match p {
        case Comparison(left, op, right) =>
          if b {
            CoveredLeafIsReached(e, left, op, right);
          } else {
            CoveredNegatedLeafIsReached(e, left, op, right);
          }
        case And(l, r) =>
          OperandIsReached(e, p, l, r, b, true);
          ReachedThrough(l, r, e);
        case Or(l, r) =>
          OperandIsReached(e, p, l, r, b, false);
          ReachedThrough(l, r, e);
        case Not(q) =>
          AnswerIsReached(e, q, !b);
          NegationReaches(q, e);
      }
    }
  }

  /** A connective whose right operand is evaluated only after the left one answered `goOn`. */
  lemma {:induction false} OperandIsReached(e: Entity, p: Predicate, l: Predicate, r: Predicate, b: bool, goOn: bool)
    requires p == And(l, r) || p == Or(l, r)
    requires Supported(l) && Supported(r) && Watchable(l) && Watchable(r)
    requires Answers(e, l, !goOn) || (Answers(e, l, goOn) && Answers(e, r, b))
    requires Answers(e, l, !goOn) ==> b == !goOn
    requires if b == goOn then CoveredFor(e.collection, l, b) || CoveredFor(e.collection, r, b)
             else CoveredFor(e.collection, l, b) && (CoveredFor(e.collection, l, goOn) || CoveredFor(e.collection, r, b))
    ensures Reached(l, e) || Reached(r, e)
    decreases p, 0
  {
    if Answers(e, l, !goOn) {
      AnswerIsReached(e, l, b);
    } else if CoveredFor(e.collection, r, b) {
      AnswerIsReached(e, r, b);
    } else {
      AnswerIsReached(e, l, goOn);
    }
  }

  /** The index lookup over-approximates the filter: a covered predicate is reached by every entity
      it selects. */
  lemma CoveredIsReached(e: Entity, p: Predicate)
    requires Supported(p) && Watchable(p) && Covered(e.collection, p) && Matches(e, p)
    ensures Reached(p, e)
  {
    AnswerIsReached(e, p, true);
  }

  predicate Indistinguishable(e: Entity, p: Predicate, q: Predicate) {
    EvaluatePredicate(e, p) == EvaluatePredicate(e, q) && (Reached(p, e) <==> Reached(q, e))
  }

  /** Negations may be moved inward and cancelled: nothing about evaluation, errors included, or about
      being reached changes. So the exact conditions for comparisons and negated comparisons are
      conditions on the leaves of any predicate. */
  lemma NegationsMoveInward(e: Entity, l: Predicate, r: Predicate)
    ensures Indistinguishable(e, Not(And(l, r)), Or(Not(l), Not(r)))
    ensures Indistinguishable(e, Not(Or(l, r)), And(Not(l), Not(r)))
    ensures Matches(e, Not(Not(l))) <==> Matches(e, l)
    ensures Reached(Not(Not(l)), e) <==> Reached(l, e)
  {
    NegationMatches(Not(l), e);
    NegationMatches(l, e);
    NegationReaches(And(l, r), e);
    NegationReaches(Or(l, r), e);
    NegationReaches(l, e);
    NegationReaches(r, e);
    NegationReaches(Not(l), e);
    ReachedThrough(l, r, e);
    ReachedThrough(Not(l), Not(r), e);
  }

  lemma DoubleNegationIsComplete(collection: Text, p: Predicate)
    ensures Complete(collection, Not(Not(p))) <==> Complete(collection, p)
  {
    forall e: Entity
      ensures (Matches(e, Not(Not(p))) ==> Reached(Not(Not(p)), e)) <==> (Matches(e, p) ==> Reached(p, e))
    {
      NegationsMoveInward(e, p, p);
    }
  }

  /** AND, OR and TRUE over `field op 'text'` with op one of =, <, <=, >, >=, and text non-empty for
      >=. */
  predicate Plain(p: Predicate) {
    match p
    case Comparison(Name(Property(_)), op, Constant(String(s))) => Indexable(op) && (op == GreaterThanOrEqual ==> s != [])
    case And(l, r) => Plain(l) && Plain(r)
    case Or(l, r) => Plain(l) && Plain(r)
    case True => true
    case _ => false
  }

  lemma {:induction false} PlainIsCovered(collection: Text, p: Predicate)
    requires Plain(p)
    ensures Supported(p) && Watchable(p) && Covered(collection, p)
  {
    match p
    case Comparison(left, op, right) =>
      var s := right.literal.s;
      if op == GreaterThanOrEqual { DropLastIsBelow(s); }
      AppendZeroIsSuccessor(s, s + [0]);
    case And(l, r) =>
      PlainIsCovered(collection, l);
      PlainIsCovered(collection, r);
    case Or(l, r) =>
      PlainIsCovered(collection, l);
      PlainIsCovered(collection, r);
    case True =>
  }

  /** NOT registers the watchers of its operand, so an entity that makes `NOT field = text` true by
      taking another value goes unnoticed. */
  lemma NegationIsMissed(collection: Text, field: Text, text: Text, v: Text)
    requires v != text
    ensures var p := Not(Comparison(Name(Property(field)), Equal, Constant(Literal.String(text))));
      Matches(Probe(collection, field, v), p) && !Reached(p, Probe(collection, field, v))
  {
    var q := Comparison(Name(Property(field)), Equal, Constant(Literal.String(text)));
    WatchedLeaf(Probe(collection, field, v), q.left, q.operator, q.right);
    TextHits(Literal.String(text), Equal, v);
    assert !HasTrue(q) && Leaves(Not(q)) == Leaves(q);
  }
}
