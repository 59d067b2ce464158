/** The AnkQL parser, from the pairs of the grammar onward: a left fold without precedence, and the
    loop that computes it. */
module QueryParser {
  import opened Bytes
  import opened Ast

  /** A pair of the grammar. An expression in parentheses holds the pairs of the expression inside. */
  datatype Pair =
    | Ident(parts: seq<Text>)
    | SingleQuoted(raw: Text)
    | Unsigned(digits: Text)
    | Parenthesised(inner: seq<Pair>)
    | Cmp(op: ComparisonOperator)
    | AndPair
    | OrPair
    | NotPair
    | IsNullPair
    | OtherLiteral

  datatype ParseError =
    | SyntaxError
    | EmptyExpression
    | UnexpectedRule
    | InvalidPredicate
    | MissingOperand(side: string)

  datatype Result<+T> = Ok(value: T) | Err(error: ParseError) {
    predicate IsFailure() { Err? }

    function PropagateFailure<U>(): Result<U>
      requires Err?
    {
      Err(error)
    }

    function Extract(): T
      requires Ok?
    {
      value
    }
  }

  // ---------- the parser ----------

  function ParseNumber(digits: Text): Result<Expr> {
    if digits != [] && AllDigits(digits) && DigitsValue(digits) < 0x8000_0000_0000_0000
    then Ok(Constant(Integer(DigitsValue(digits))))
    else Err(InvalidPredicate)
  }

  function ParseStringLiteral(raw: Text): Result<Expr> {
    if |raw| >= 2 && raw[0] == 39 && raw[|raw| - 1] == 39
    then Ok(Constant(String(raw[1..|raw| - 1])))
    else Err(InvalidPredicate)
  }

  function ParseIdentifier(parts: seq<Text>): Result<Expr> {
    if parts == [] then Err(InvalidPredicate)
    else if |parts| == 1 then Ok(Name(Property(parts[0])))
    else Ok(Name(CollectionProperty(parts[0], parts[1])))
  }

  function AsPredicate(e: Expr): Result<Predicate> {
    if e.Nested? then Ok(e.condition) else Err(InvalidPredicate)
  }

  function ParseAtomicExpr(pair: Pair): Result<Expr>
    decreases pair
  {
    match pair
    case Ident(parts) => ParseIdentifier(parts)
    case SingleQuoted(raw) => ParseStringLiteral(raw)
    case Unsigned(digits) => ParseNumber(digits)
    case Parenthesised(inner) =>
      var p :- ParseExpr(inner);
      Ok(Nested(p))
    case _ => Err(UnexpectedRule)
  }

  /** What `parse_expr` returns for the pairs of an expression. */
  function ParseExpr(pairs: seq<Pair>): Result<Predicate>
    decreases pairs, 1
  {
    if pairs == [] then Err(MissingOperand("first"))
    else
      var first :- ParseAtomicExpr(pairs[0]);
      var result :- ParseRest(first, pairs[1..]);
      AsPredicate(result)
  }

  /** The operator-value pairs left to process, folded onto what was parsed so far. */
  function ParseRest(acc: Expr, pairs: seq<Pair>): Result<Expr>
    decreases pairs, 0
  {
    if pairs == [] then Ok(acc)
    else if |pairs| == 1 then Err(MissingOperand("right"))
    else if pairs[0].Cmp? then
      var right :- ParseAtomicExpr(pairs[1]);
      ParseRest(Nested(Comparison(acc, pairs[0].op, right)), pairs[2..])
    else if pairs[0].AndPair? || pairs[0].OrPair? then
      var left :- AsPredicate(acc);
      var right :- ParseAtomicExpr(pairs[1]);
      if |pairs| == 2 then
        var p :- AsPredicate(right);
        Ok(Nested(Connect(pairs[0], left, p)))
      else if !pairs[2].Cmp? then Err(UnexpectedRule)
      else if |pairs| == 3 then Err(MissingOperand("comparison right"))
      else
        var next :- ParseAtomicExpr(pairs[3]);
        ParseRest(Nested(Connect(pairs[0], left, Comparison(right, pairs[2].op, next))), pairs[4..])
    else Err(UnexpectedRule)
  }

  function Connect(word: Pair, l: Predicate, r: Predicate): Predicate {
    if word.AndPair? then And(l, r) else Or(l, r)
  }

  method ParseAtomic(pair: Pair) returns (r: Result<Expr>)
    ensures r == ParseAtomicExpr(pair)
    decreases pair, 0
  {
    match pair {
      case Ident(parts) => r := ParseIdentifier(parts);
      case SingleQuoted(raw) => r := ParseStringLiteral(raw);
      case Unsigned(digits) => r := ParseNumber(digits);
      case Parenthesised(inner) =>
        var p := Parse(inner);
        r := if p.Ok? then Ok(Nested(p.value)) else Err(p.error);
      case _ => r := Err(UnexpectedRule);
    }
  }

  /** The right operand of AND or OR, taking a comparison with it when one follows; `taken` pairs of
      the rest are consumed. */
  method CreateLogicalOp(word: Pair, left: Expr, right: Pair, rest: seq<Pair>) returns (r: Result<Expr>, taken: nat)
    requires word.AndPair? || word.OrPair?
    ensures taken <= |rest|
    ensures ParseRest(left, [word, right] + rest) == if r.Ok? then ParseRest(r.value, rest[taken..]) else Err(r.error)
    decreases [word, right] + rest, 0
  {
    taken := 0;
    ghost var all := [word, right] + rest;
    assert all[1] == right && all[2..] == rest;
    var leftPred := AsPredicate(left);
    if leftPred.Err? {
      return Err(leftPred.error), 0;
    }
    var rightExpr := ParseAtomic(right);
    if rightExpr.Err? {
      return Err(rightExpr.error), 0;
    }
    if rest == [] {
      var p := AsPredicate(rightExpr.value);
      if p.Err? {
        return Err(p.error), 0;
      }
      return Ok(Nested(Connect(word, leftPred.value, p.value))), 0;
    }
    assert all[2] == rest[0];
    if !rest[0].Cmp? {
      return Err(UnexpectedRule), 0;
    }
    if |rest| == 1 {
      return Err(MissingOperand("comparison right")), 0;
    }
    assert all[3] == rest[1] && all[4..] == rest[2..];
    var next := ParseAtomic(rest[1]);
    if next.Err? {
      return Err(next.error), 0;
    }
    r := Ok(Nested(Connect(word, leftPred.value, Comparison(rightExpr.value, rest[0].op, next.value))));
    taken := 2;
  }

  method CreateComparison(left: Expr, op: ComparisonOperator, right: Pair) returns (r: Result<Expr>)
    ensures var e := ParseAtomicExpr(right);
      r == if e.Ok? then Ok(Nested(Comparison(left, op, e.value))) else Err(e.error)
    decreases right, 1
  {
    var rightExpr := ParseAtomic(right);
    r := if rightExpr.Ok? then Ok(Nested(Comparison(left, op, rightExpr.value))) else Err(rightExpr.error);
  }

  lemma ComparisonStep(acc: Expr, pairs: seq<Pair>, right: Result<Expr>)
    requires |pairs| >= 2 && pairs[0].Cmp? && right == ParseAtomicExpr(pairs[1])
    ensures ParseRest(acc, pairs) ==
      if right.Ok? then ParseRest(Nested(Comparison(acc, pairs[0].op, right.value)), pairs[2..]) else Err(right.error)
  {
  }

  lemma MisplacedStep(acc: Expr, pairs: seq<Pair>)
    requires pairs != [] && (|pairs| == 1 || !(pairs[0].Cmp? || pairs[0].AndPair? || pairs[0].OrPair?))
    ensures ParseRest(acc, pairs) == Err(if |pairs| == 1 then MissingOperand("right") else UnexpectedRule)
  {
  }

  /** An AND or OR and what it takes along. */
  method LogicalStep(acc: Expr, pairs: seq<Pair>) returns (r: Result<Expr>, taken: nat)
    requires |pairs| >= 2 && (pairs[0].AndPair? || pairs[0].OrPair?)
    ensures 2 <= taken <= |pairs|
    ensures ParseRest(acc, pairs) == if r.Ok? then ParseRest(r.value, pairs[taken..]) else Err(r.error)
    decreases pairs, 1
  {
    ghost var all := [pairs[0], pairs[1]] + pairs[2..];
    assert pairs == all;
    var more;
    r, more := CreateLogicalOp(pairs[0], acc, pairs[1], pairs[2..]);
    assert pairs[2..][more..] == pairs[2 + more..];
    taken := 2 + more;
  }

  /** One round of the loop: an operator, its right operand, and what that takes along. */
  method ParseStep(acc: Expr, pairs: seq<Pair>) returns (r: Result<Expr>, taken: nat)
    requires pairs != []
    ensures r.Ok? ==> 0 < taken <= |pairs|
    ensures ParseRest(acc, pairs) == if r.Ok? then ParseRest(r.value, pairs[taken..]) else Err(r.error)
    decreases pairs, 2
  {
    taken := 0;
    if |pairs| == 1 {
      MisplacedStep(acc, pairs);
      return Err(MissingOperand("right")), 0;
    }
    match pairs[0] {
      case Cmp(op) =>
        r := CreateComparison(acc, op, pairs[1]);
        taken := 2;
        ComparisonStep(acc, pairs, ParseAtomicExpr(pairs[1]));
      case AndPair | OrPair =>
        r, taken := LogicalStep(acc, pairs);
      case _ =>
        MisplacedStep(acc, pairs);
        r := Err(UnexpectedRule);
    }
  }

  method Parse(pairs: seq<Pair>) returns (r: Result<Predicate>)
    ensures r == ParseExpr(pairs)
    decreases pairs, 1
  {
    if pairs == [] {
      return Err(MissingOperand("first"));
    }
    var first := ParseAtomic(pairs[0]);
    if first.Err? {
      return Err(first.error);
    }
    var result, rest := first.value, pairs[1..];
    while rest != []
      invariant |rest| < |pairs| && rest == pairs[|pairs| - |rest|..]
      invariant ParseRest(first.value, pairs[1..]) == ParseRest(result, rest)
      decreases |rest|
    {
      var next, taken := ParseStep(result, rest);
      if next.Err? {
        return Err(next.error);
      }
      result, rest := next.value, rest[taken..];
    }
    r := AsPredicate(result);
  }

  // ---------- parsing regroups and does nothing else ----------

  datatype Item = Leaf(e: Expr) | Word(pair: Pair)

  /** Operands and operators from left to right, whatever their grouping. */
  function Items(e: Expr): seq<Item> {
    if e.Nested? then InOrder(e.condition) else [Leaf(e)]
  }

  function InOrder(p: Predicate): seq<Item> {
    match p
    case Comparison(left, op, right) => Items(left) + [Word(Cmp(op))] + Items(right)
    case And(l, r) => InOrder(l) + [Word(AndPair)] + InOrder(r)
    case Or(l, r) => InOrder(l) + [Word(OrPair)] + InOrder(r)
    case _ => []
  }

  predicate IsOperator(pair: Pair) { pair.Cmp? || pair.AndPair? || pair.OrPair? }

  /** The same for pairs, parentheses opened. */
  function ItemsOfPair(pair: Pair): seq<Item>
    decreases pair
  {
    if pair.Parenthesised? then ItemsOfPairs(pair.inner)
    else if IsOperator(pair) then [Word(pair)]
    else match ParseAtomicExpr(pair)
      case Ok(e) => [Leaf(e)]
      case Err(_) => []
  }

  function ItemsOfPairs(pairs: seq<Pair>): seq<Item>
    decreases pairs, 0
  {
    if pairs == [] then [] else ItemsOfPair(pairs[0]) + ItemsOfPairs(pairs[1..])
  }

  lemma ItemsOfTwo(pairs: seq<Pair>)
    requires |pairs| >= 2
    ensures ItemsOfPairs(pairs) == ItemsOfPair(pairs[0]) + ItemsOfPair(pairs[1]) + ItemsOfPairs(pairs[2..])
  {
    assert pairs[1..][1..] == pairs[2..] && pairs[1..][0] == pairs[1];
    Associate(ItemsOfPair(pairs[0]), ItemsOfPair(pairs[1]), ItemsOfPairs(pairs[2..]));
  }

  lemma {:induction false} OperandKeepsItems(pair: Pair)
    requires ParseAtomicExpr(pair).Ok?
    ensures Items(ParseAtomicExpr(pair).value) == ItemsOfPair(pair)
    decreases pair
  {
    if pair.Parenthesised? {
      ParsingKeepsItems(pair.inner);
    }
  }

  lemma ConnectedInOrder(word: Pair, l: Predicate, r: Predicate)
    requires word.AndPair? || word.OrPair?
    ensures InOrder(Connect(word, l, r)) == InOrder(l) + [Word(word)] + InOrder(r)
  {
  }

  lemma ComparedInOrder(acc: Expr, op: ComparisonOperator, operand: Expr, rest: seq<Item>)
    ensures Items(Nested(Comparison(acc, op, operand))) + rest == Items(acc) + ([Word(Cmp(op))] + Items(operand) + rest)
  {
    Associate(Items(acc), [Word(Cmp(op))] + Items(operand), rest);
    Associate(Items(acc), [Word(Cmp(op))], Items(operand));
  }

  lemma JoinedInOrder(word: Pair, l: Predicate, left: Expr, op: ComparisonOperator, right: Expr, rest: seq<Item>)
    requires word.AndPair? || word.OrPair?
    ensures Items(Nested(Connect(word, l, Comparison(left, op, right)))) + rest ==
      InOrder(l) + ([Word(word)] + Items(left) + ([Word(Cmp(op))] + Items(right) + rest))
  {
    ConnectedInOrder(word, l, Comparison(left, op, right));
    FourPairs(InOrder(l), [Word(word)], Items(left), [Word(Cmp(op))], Items(right), rest);
  }

  /** The rest of a level adds its operands and operators after what was parsed so far. */
  lemma {:induction false} RestKeepsItems(acc: Expr, pairs: seq<Pair>)
    requires ParseRest(acc, pairs).Ok?
    ensures Items(ParseRest(acc, pairs).value) == Items(acc) + ItemsOfPairs(pairs) && |pairs| % 2 == 0
    decreases pairs, 1
  {
    if pairs == [] {
      assert Items(acc) + [] == Items(acc);
    } else {
      ItemsOfTwo(pairs);
      OperandKeepsItems(pairs[1]);
      var operand, rest := ParseAtomicExpr(pairs[1]).value, ItemsOfPairs(pairs[2..]);
      if pairs[0].Cmp? {
        RestKeepsItems(Nested(Comparison(acc, pairs[0].op, operand)), pairs[2..]);
        ComparedInOrder(acc, pairs[0].op, operand, rest);
      } else if |pairs| == 2 {
        ConnectedInOrder(pairs[0], acc.condition, operand.condition);
        LastPair(Items(acc), [Word(pairs[0])], Items(operand));
      } else {
        JoinedKeepsItems(acc.condition, operand, pairs);
      }
    }
  }

  lemma {:induction false} JoinedKeepsItems(l: Predicate, left: Expr, pairs: seq<Pair>)
    requires |pairs| >= 4 && (pairs[0].AndPair? || pairs[0].OrPair?) && pairs[2].Cmp?
    requires ParseAtomicExpr(pairs[3]).Ok?
    requires var right := ParseAtomicExpr(pairs[3]).value;
      ParseRest(Nested(Connect(pairs[0], l, Comparison(left, pairs[2].op, right))), pairs[4..]).Ok?
    ensures var right := ParseAtomicExpr(pairs[3]).value;
      var r := ParseRest(Nested(Connect(pairs[0], l, Comparison(left, pairs[2].op, right))), pairs[4..]);
      Items(r.value) == InOrder(l) + ([Word(pairs[0])] + Items(left) + ItemsOfPairs(pairs[2..])) && |pairs| % 2 == 0
    decreases pairs, 0
  {
    var right := ParseAtomicExpr(pairs[3]).value;
    ItemsOfTwo(pairs[2..]);
    OperandKeepsItems(pairs[3]);
    assert pairs[2..][2..] == pairs[4..];
    RestKeepsItems(Nested(Connect(pairs[0], l, Comparison(left, pairs[2].op, right))), pairs[4..]);
    JoinedInOrder(pairs[0], l, left, pairs[2].op, right, ItemsOfPairs(pairs[4..]));
  }

  lemma LastPair<T>(a: seq<T>, b: seq<T>, c: seq<T>)
    ensures a + b + c == a + (b + c + [])
  {
  }

  lemma FourPairs<T>(a: seq<T>, b: seq<T>, c: seq<T>, d: seq<T>, e: seq<T>, f: seq<T>)
    ensures a + b + (c + d + e) + f == a + (b + c + (d + e + f))
  {
  }

  /** Whatever is parsed, the predicate has exactly the operands and operators of the input, in the same
      order: parsing decides their grouping and nothing else. And they alternate. */
  lemma {:induction false} ParsingKeepsItems(pairs: seq<Pair>)
    requires ParseExpr(pairs).Ok?
    ensures InOrder(ParseExpr(pairs).value) == ItemsOfPairs(pairs) && |pairs| % 2 == 1
    decreases pairs, 2
  {
    OperandKeepsItems(pairs[0]);
    RestKeepsItems(ParseAtomicExpr(pairs[0]).value, pairs[1..]);
  }
}
