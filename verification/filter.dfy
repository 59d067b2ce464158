/** The reference meaning of a predicate: the short-circuiting, error-carrying evaluator. */
module Filter {
  import opened Bytes
  import opened Ast

  type EntityId = int

  datatype Entity = Entity(id: EntityId, collection: Text, values: map<Text, Text>)

  datatype Error =
    | CollectionMismatch(expected: Text, actual: Text)
    | PropertyNotFound(name: Text)

  /** An evaluation ends with a value, with an error, or in an `unimplemented!` panic. */
  datatype Outcome<+T> = Ok(value: T) | Err(error: Error) | Panic {
    predicate IsFailure() { !Ok? }

    function PropagateFailure<U>(): Outcome<U>
      requires IsFailure()
    {
      if Err? then Err(error) else Panic
    }

    function Extract(): T
      requires Ok?
    {
      value
    }
  }

  function Lookup(item: Entity, name: Text): Outcome<Text> {
    if name in item.values then Ok(item.values[name]) else Err(PropertyNotFound(name))
  }

  function EvaluateExpr(item: Entity, expr: Expr): Outcome<Text> {
    match expr
    case Constant(lit) => Ok(LiteralText(lit))
    case Name(Property(name)) => Lookup(item, name)
    case Name(CollectionProperty(collection, name)) =>
      if collection != item.collection then Err(CollectionMismatch(collection, item.collection)) else Lookup(item, name)
    case _ => Panic
  }

  predicate Compare(left: Text, op: ComparisonOperator, right: Text)
    requires Basic(op)
  {
    match op
    case Equal => left == right
    case NotEqual => left != right
    case GreaterThan => Less(right, left)
    case GreaterThanOrEqual => !Less(left, right)
    case LessThan => Less(left, right)
    case LessThanOrEqual => !Less(right, left)
  }

  function EvaluatePredicate(item: Entity, p: Predicate): Outcome<bool> {
    match p
    case Comparison(left, op, right) =>
      var l :- EvaluateExpr(item, left);
      var r :- EvaluateExpr(item, right);
      if Basic(op) then Ok(Compare(l, op, r)) else Panic
    case And(l, r) =>
      var first :- EvaluatePredicate(item, l);
      if first then EvaluatePredicate(item, r) else Ok(false)
    case Or(l, r) =>
      var first :- EvaluatePredicate(item, l);
      if first then Ok(true) else EvaluatePredicate(item, r)
    case Not(q) =>
      var b :- EvaluatePredicate(item, q);
      Ok(!b)
    case IsNull(e) =>
      var value := EvaluateExpr(item, e);
      if value.Panic? then Panic else Ok(value.Err?)
    case True => Ok(true)
  }

  // ---------- the six operators ----------

  /** Exactly one of <, = and > holds, = holds of equal texts only, < is the order of the first
      differing byte, and the other three operators are the negations of these. */
  lemma ComparisonLaws(a: Text, b: Text)
    ensures Compare(a, Equal, b) <==> a == b
    ensures Compare(a, LessThan, b) <==> exists k: nat :: FirstDifference(a, b, k)
    ensures Compare(a, GreaterThan, b) <==> Compare(b, LessThan, a)
    ensures Compare(a, NotEqual, b) <==> !Compare(a, Equal, b)
    ensures Compare(a, GreaterThanOrEqual, b) <==> !Compare(a, LessThan, b)
    ensures Compare(a, LessThanOrEqual, b) <==> !Compare(a, GreaterThan, b)
    ensures Compare(a, LessThan, b) ==> !Compare(a, Equal, b) && !Compare(a, GreaterThan, b)
    ensures Compare(a, LessThan, b) || Compare(a, Equal, b) || Compare(a, GreaterThan, b)
  {
    LessIsFirstDifference(a, b);
    LessIsStrictTotalOrder(a, b);
  }

  /** The operator that holds where this one does not. */
  function Negated(op: ComparisonOperator): ComparisonOperator {
    match op
    case Equal => NotEqual
    case NotEqual => Equal
    case GreaterThan => LessThanOrEqual
    case GreaterThanOrEqual => LessThan
    case LessThan => GreaterThanOrEqual
    case LessThanOrEqual => GreaterThan
    case _ => op
  }

  /** On every item a comparison evaluates like the negation of the opposite one, errors included. */
  lemma NegatedComparisonsEvaluateAlike(item: Entity, left: Expr, op: ComparisonOperator, right: Expr)
    ensures EvaluatePredicate(item, Comparison(left, Negated(op), right)) == EvaluatePredicate(item, Not(Comparison(left, op, right)))
  {
    var l, r := EvaluateExpr(item, left), EvaluateExpr(item, right);
    if l.Ok? && r.Ok? {
      ComparisonLaws(l.value, r.value);
    }
  }

  /** `evaluate_predicate(..).unwrap_or(false)`. */
  predicate Matches(item: Entity, p: Predicate) {
    EvaluatePredicate(item, p) == Ok(true)
  }

  lemma {:induction false} SupportedNeverPanics(item: Entity, p: Predicate)
    requires Supported(p)
    ensures !EvaluatePredicate(item, p).Panic?
  {
    match p
    case And(l, r) =>
      SupportedNeverPanics(item, l);
      SupportedNeverPanics(item, r);
    case Or(l, r) =>
      SupportedNeverPanics(item, l);
      SupportedNeverPanics(item, r);
    case Not(q) => SupportedNeverPanics(item, q);
    case _ =>
  }
}
