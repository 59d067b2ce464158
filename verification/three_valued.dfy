/** SQL's three-valued evaluation of a predicate, and how the error-carrying evaluator relates to it. */
module ThreeValued {
  import opened Bytes
  import opened Ast
  import opened Filter
  import opened Printer
  import opened SqlReader

  datatype Truth = Yes | No | Unknown

  function Both(a: Truth, b: Truth): Truth {
    if a.No? || b.No? then No else if a.Yes? && b.Yes? then Yes else Unknown
  }

  function Either(a: Truth, b: Truth): Truth {
    if a.Yes? || b.Yes? then Yes else if a.No? && b.No? then No else Unknown
  }

  function Opposite(a: Truth): Truth {
    match a case Yes => No case No => Yes case Unknown => Unknown
  }

  /** An operand's value; a missing property, or one of another collection, is NULL. */
  function SqlValue(item: Entity, e: Expr): Option<Text> {
    match e
    case Constant(lit) => Some(LiteralText(lit))
    case Name(id) =>
      if id.name !in item.values || (id.CollectionProperty? && id.collection != item.collection) then None
      else Some(item.values[id.name])
    case _ => None
  }

  /** Comparing texts byte by byte: negative, zero or positive as a collates before, with or after b. */
  function Collation(a: Text, b: Text): int {
    if a == [] && b == [] then 0
    else if a == [] then -1
    else if b == [] then 1
    else if a[0] != b[0] then a[0] - b[0]
    else Collation(a[1..], b[1..])
  }

  /** The comparison predicate of section 8.2 of ISO/IEC 9075:1992. */
  predicate SqlCompares(a: Text, op: ComparisonOperator, b: Text)
    requires Basic(op)
  {
    var c := Collation(a, b);
    match op
    case Equal => c == 0
    case NotEqual => c != 0
    case LessThan => c < 0
    case GreaterThan => c > 0
    case LessThanOrEqual => c <= 0
    case GreaterThanOrEqual => c >= 0
  }

  lemma {:induction false} CollationIsTheOrder(a: Text, b: Text)
    ensures Collation(a, b) < 0 <==> Less(a, b)
    ensures Collation(a, b) == 0 <==> a == b
    ensures Collation(a, b) > 0 <==> Less(b, a)
  {
    if a != [] && b != [] && a[0] == b[0] {
      CollationIsTheOrder(a[1..], b[1..]);
      assert a == [a[0]] + a[1..] && b == [b[0]] + b[1..];
    }
  }

  /** The evaluator and SQL give a comparison the same operands, and then compare alike. */
  lemma ComparesLikeSql(item: Entity, left: Expr, op: ComparisonOperator, right: Expr)
    requires Simple(left) && Basic(op) && Simple(right)
    ensures SqlValue(item, left).Some? <==> EvaluateExpr(item, left).Ok?
    ensures SqlValue(item, right).Some? <==> EvaluateExpr(item, right).Ok?
    ensures var l, r, answer := SqlValue(item, left), SqlValue(item, right), EvaluatePredicate(item, Comparison(left, op, right));
      if l.Some? && r.Some? then answer == Ok(SqlCompares(l.value, op, r.value)) else answer.Err?
  {
    if SqlValue(item, left).Some? && SqlValue(item, right).Some? {
      CollationIsTheOrder(SqlValue(item, left).value, SqlValue(item, right).value);
      ComparisonLaws(SqlValue(item, left).value, SqlValue(item, right).value);
    }
  }

  function SqlTruth(item: Entity, p: Predicate): Truth
    requires Supported(p)
  {
    match p
    case Comparison(left, op, right) =>
      var l, r := SqlValue(item, left), SqlValue(item, right);
      if l.None? || r.None? then Unknown else if SqlCompares(l.value, op, r.value) then Yes else No
    case IsNull(e) => if SqlValue(item, e).None? then Yes else No
    case And(l, r) => Both(SqlTruth(item, l), SqlTruth(item, r))
    case Or(l, r) => Either(SqlTruth(item, l), SqlTruth(item, r))
    case Not(q) => Opposite(SqlTruth(item, q))
    case True => Yes
  }

  /** The evaluator's answer as a truth value: an error decides nothing. */
  function Answer(item: Entity, p: Predicate): Truth {
    match EvaluatePredicate(item, p)
    case Ok(b) => if b then Yes else No
    case _ => Unknown
  }

  /** Whenever the evaluator answers, SQL answers the same: short-circuit error logic lies below
      Kleene logic in the order of information. */
  lemma {:induction false} AnswersAgreeWithSql(item: Entity, p: Predicate)
    requires Supported(p)
    ensures Answer(item, p) == Unknown || Answer(item, p) == SqlTruth(item, p)
  {
    match p
    case And(l, r) =>
      AnswersAgreeWithSql(item, l);
      AnswersAgreeWithSql(item, r);
    case Or(l, r) =>
      AnswersAgreeWithSql(item, l);
      AnswersAgreeWithSql(item, r);
    case Not(q) => AnswersAgreeWithSql(item, q);
    case Comparison(left, op, right) => ComparesLikeSql(item, left, op, right);
    case IsNull(e) =>
    case True =>
  }

  /** The evaluator's own error condition: the left-to-right, short-circuit scan meets an
      undetermined comparison before the answer is settled. */
  predicate Stuck(item: Entity, p: Predicate)
    requires Supported(p)
  {
    match p
    case Comparison(left, _, right) => SqlValue(item, left).None? || SqlValue(item, right).None?
    case And(l, r) => Stuck(item, l) || (SqlTruth(item, l).Yes? && Stuck(item, r))
    case Or(l, r) => Stuck(item, l) || (SqlTruth(item, l).No? && Stuck(item, r))
    case Not(q) => Stuck(item, q)
    case _ => false
  }

  /** An item passes the filter exactly when SQL selects it and the scan does not get stuck. */
  lemma {:induction false} FilterIsSqlUnlessStuck(item: Entity, p: Predicate)
    requires Supported(p)
    ensures Answer(item, p) == if Stuck(item, p) then Unknown else SqlTruth(item, p)
    ensures !Stuck(item, p) ==> SqlTruth(item, p) != Unknown
  {
    match p
    case And(l, r) =>
      FilterIsSqlUnlessStuck(item, l);
      FilterIsSqlUnlessStuck(item, r);
    case Or(l, r) =>
      FilterIsSqlUnlessStuck(item, l);
      FilterIsSqlUnlessStuck(item, r);
    case Not(q) => FilterIsSqlUnlessStuck(item, q);
    case Comparison(left, op, right) => ComparesLikeSql(item, left, op, right);
    case IsNull(e) =>
    case True =>
  }

  predicate Conjunctive(p: Predicate) {
    match p
    case And(l, r) => Conjunctive(l) && Conjunctive(r)
    case Or(_, _) => false
    case Not(_) => false
    case _ => true
  }

  /** For conjunctions the two selections coincide on every item, missing properties or not. */
  lemma {:induction false} ConjunctionsSelectAlike(item: Entity, p: Predicate)
    requires Supported(p) && Conjunctive(p)
    ensures Matches(item, p) <==> SqlTruth(item, p) == Yes
  {
    match p
    case And(l, r) =>
      ConjunctionsSelectAlike(item, l);
      ConjunctionsSelectAlike(item, r);
    case Comparison(left, op, right) => ComparesLikeSql(item, left, op, right);
    case IsNull(e) =>
    case True =>
  }

  /** Every operand of every comparison resolves on the item: each field is there, and belongs to the
      item's own collection where one is named. */
  predicate Resolves(item: Entity, p: Predicate) {
    match p
    case Comparison(left, _, right) => SqlValue(item, left).Some? && SqlValue(item, right).Some?
    case And(l, r) => Resolves(item, l) && Resolves(item, r)
    case Or(l, r) => Resolves(item, l) && Resolves(item, r)
    case Not(q) => Resolves(item, q)
    case _ => true
  }

  /** Below the conjunctions of a predicate only fields that the item has matter. */
  predicate ResolvesBelowAnd(item: Entity, p: Predicate) {
    match p
    case And(l, r) => ResolvesBelowAnd(item, l) && ResolvesBelowAnd(item, r)
    case Or(_, _) => Resolves(item, p)
    case Not(_) => Resolves(item, p)
    case _ => true
  }

  /** If all its fields are there, the evaluator answers on the item, and answers like SQL. */
  lemma {:induction false} ResolvedItemsAreAnswered(item: Entity, p: Predicate)
    requires Supported(p) && Resolves(item, p)
    ensures !Stuck(item, p) && EvaluatePredicate(item, p) == Ok(SqlTruth(item, p).Yes?) && SqlTruth(item, p) != Unknown
  {
    match p
    case And(l, r) =>
      ResolvedItemsAreAnswered(item, l);
      ResolvedItemsAreAnswered(item, r);
    case Or(l, r) =>
      ResolvedItemsAreAnswered(item, l);
      ResolvedItemsAreAnswered(item, r);
    case Not(q) => ResolvedItemsAreAnswered(item, q);
    case Comparison(left, op, right) => ComparesLikeSql(item, left, op, right);
    case IsNull(e) =>
    case True =>
  }

  /** The two selections coincide on every item that has the fields named below an OR or a NOT. */
  lemma {:induction false} ResolvedItemsSelectAlike(item: Entity, p: Predicate)
    requires Supported(p) && ResolvesBelowAnd(item, p)
    ensures Matches(item, p) <==> SqlTruth(item, p) == Yes
  {
    match p
    case And(l, r) =>
      ResolvedItemsSelectAlike(item, l);
      ResolvedItemsSelectAlike(item, r);
    case Or(_, _) => ResolvedItemsAreAnswered(item, p);
    case Not(_) => ResolvedItemsAreAnswered(item, p);
    case Comparison(left, op, right) => ComparesLikeSql(item, left, op, right);
    case IsNull(e) =>
    case True =>
  }

  /** With OR they need not: SQL selects this item, the filter fails on its missing property. */
  lemma DisjunctionLosesAnItem(missing: Text, present: Text, v: Text)
    requires missing != present
    ensures var item := Entity(0, [], map[present := v]);
      var p := Or(Comparison(Name(Property(missing)), Equal, Constant(String(v))),
                  Comparison(Name(Property(present)), Equal, Constant(String(v))));
      Supported(p) && EvaluatePredicate(item, p) == Err(PropertyNotFound(missing)) && SqlTruth(item, p) == Yes
  {
    var item := Entity(0, [], map[present := v]);
    var l := Comparison(Name(Property(missing)), Equal, Constant(String(v)));
    var r := Comparison(Name(Property(present)), Equal, Constant(String(v)));
    assert Supported(l) && EvaluatePredicate(item, l) == Err(PropertyNotFound(missing));
    CollationIsTheOrder(v, v);
    assert Supported(r) && SqlTruth(item, r) == Yes;
  }

  lemma {:induction false} JoinedIsBoth(item: Entity, acc: Predicate, p: Predicate)
    requires Supported(acc) && Supported(p)
    ensures Supported(Joined(acc, p)) && SqlTruth(item, Joined(acc, p)) == Both(SqlTruth(item, acc), SqlTruth(item, p))
    decreases p, 1
  {
    match p
    case And(l, r) =>
      JoinedIsBoth(item, acc, l);
      JoinedIsBoth(item, Joined(acc, l), r);
    case _ => RegroupedIsSqlEqual(item, p);
  }

  lemma {:induction false} RegroupedIsSqlEqual(item: Entity, p: Predicate)
    requires Supported(p)
    ensures Supported(Regrouped(p)) && SqlTruth(item, Regrouped(p)) == SqlTruth(item, p)
    decreases p, 0
  {
    match p
    case And(l, r) =>
      RegroupedIsSqlEqual(item, l);
      JoinedIsBoth(item, Regrouped(l), r);
    case Or(l, r) =>
      RegroupedIsSqlEqual(item, l);
      RegroupedIsSqlEqual(item, r);
    case Not(q) => RegroupedIsSqlEqual(item, q);
    case _ =>
  }
}
