/** What the Postgres statement of a predicate says when its text is read byte by byte, with `$n` standing
    for the n-th argument. */
module Statements {
  import opened Bytes
  import opened Ast
  import opened Filter
  import opened Printer
  import opened SqlReader
  import opened ThreeValued
  import opened SqlText
  import opened Postgres

  // ---------- the text of a statement ----------

  /** The number of the next placeholder after those of an operand, and of a predicate. */
  function AfterExpr(e: Expr, from: nat): nat {
    if e.Constant? then from + 1 else from
  }

  function After(p: Predicate, from: nat): nat {
    match p
    case Comparison(left, _, right) => AfterExpr(right, AfterExpr(left, from))
    case And(l, r) => After(r, After(l, from))
    case Or(l, r) => After(r, After(l, from))
    case Not(q) => After(q, from)
    case IsNull(e) => AfterExpr(e, from)
    case True => from
  }

  lemma {:induction false} AfterCountsLiterals(p: Predicate, from: nat)
    ensures After(p, from) == from + |Literals(p)|
  {
    match p
    case And(l, r) =>
      AfterCountsLiterals(l, from);
      AfterCountsLiterals(r, After(l, from));
    case Or(l, r) =>
      AfterCountsLiterals(l, from);
      AfterCountsLiterals(r, After(l, from));
    case Not(q) => AfterCountsLiterals(q, from);
    case _ =>
  }

  function ExprStatement(e: Expr, from: nat): Text
    requires Simple(e)
  {
    if e.Constant? then PieceText(Placeholder(from)) else GenerateExprSql(e)
  }

  /** The statement with its placeholders numbered on from `from`. */
  function Statement(p: Predicate, from: nat): Text
    requires Supported(p)
  {
    match p
    case Comparison(left, op, right) =>
      ExprStatement(left, from) + (Ascii(" ") + OperatorSql(op) + Ascii(" ")) + ExprStatement(right, AfterExpr(left, from))
    case And(l, r) => Statement(l, from) + Ascii(" AND ") + Statement(r, After(l, from))
    case Or(l, r) => Ascii("(") + (Statement(l, from) + Ascii(" OR ") + Statement(r, After(l, from))) + Ascii(")")
    case Not(q) => Ascii("NOT (") + Statement(q, from) + Ascii("NOT )")
    case IsNull(e) => ExprStatement(e, from) + Ascii(" IS NULL")
    case True => Ascii("TRUE")
  }

  lemma ExprStatementText(e: Expr, from: nat)
    requires Simple(e)
    ensures StatementText(FlattenExpr(e), from) == ExprStatement(e, from)
    ensures from + |Arguments(FlattenExpr(e))| == AfterExpr(e, from)
  {
    TextOfOne(FlattenExpr(e)[0], from);
  }

  lemma ComparisonStatementText(left: Expr, op: ComparisonOperator, right: Expr, from: nat)
    requires Simple(left) && Basic(op) && Simple(right)
    ensures StatementText(Flatten(Comparison(left, op, right)), from) == Statement(Comparison(left, op, right), from)
  {
    var space, word := SqlText(Ascii(" ")), SqlText(OperatorSql(op));
    var a, next := FlattenExpr(left), AfterExpr(left, from);
    ExprStatementText(left, from);
    ExprStatementText(right, next);
    TextAround(a, Ascii(" "), [word], from);
    TextOfOne(word, next);
    SpellAround(FragmentArguments, a, space, [word]);
    SpellOne(FragmentArguments, word);
    TextAround(a + [space] + [word], Ascii(" "), FlattenExpr(right), from);
    SpacedText(ExprStatement(left, from), Ascii(" "), OperatorSql(op), ExprStatement(right, next));
    Associate(ExprStatement(left, from), Ascii(" ") + OperatorSql(op) + Ascii(" "), ExprStatement(right, next));
  }

  lemma AndText(l: Predicate, r: Predicate, from: nat)
    requires Supported(l) && Supported(r)
    ensures StatementText(Flatten(And(l, r)), from) ==
      StatementText(Flatten(l), from) + Ascii(" AND ") + StatementText(Flatten(r), After(l, from))
  {
    ArgumentsAreTheLiterals(l);
    AfterCountsLiterals(l, from);
    TextAround(Flatten(l), Ascii(" AND "), Flatten(r), from);
  }

  lemma OrText(l: Predicate, r: Predicate, from: nat)
    requires Supported(l) && Supported(r)
    ensures StatementText(Flatten(Or(l, r)), from) ==
      Ascii("(") + (StatementText(Flatten(l), from) + Ascii(" OR ") + StatementText(Flatten(r), After(l, from))) + Ascii(")")
  {
    ArgumentsAreTheLiterals(l);
    AfterCountsLiterals(l, from);
    TextInside(Ascii("("), Flatten(l), Ascii(" OR "), Flatten(r), Ascii(")"), from);
  }

  lemma IsNullText(e: Expr, from: nat)
    requires Simple(e)
    ensures StatementText(Flatten(IsNull(e)), from) == ExprStatement(e, from) + Ascii(" IS NULL")
  {
    var word := SqlText(Ascii(" IS NULL"));
    ExprStatementText(e, from);
    TextOfConcat(FlattenExpr(e), [word], from);
    TextOfOne(word, AfterExpr(e, from));
  }

  /** The flattened fragments spell that statement. */
  lemma {:induction false} FragmentsSpellStatement(p: Predicate, from: nat)
    requires Supported(p)
    ensures StatementText(Flatten(p), from) == Statement(p, from)
  {
    match p
    case Comparison(left, op, right) => ComparisonStatementText(left, op, right, from);
    case And(l, r) =>
      FragmentsSpellStatement(l, from);
      FragmentsSpellStatement(r, After(l, from));
      AndText(l, r, from);
    case Or(l, r) =>
      FragmentsSpellStatement(l, from);
      FragmentsSpellStatement(r, After(l, from));
      OrText(l, r, from);
    case Not(q) =>
      FragmentsSpellStatement(q, from);
      TextBetween(Ascii("NOT ("), Flatten(q), Ascii("NOT )"), from);
    case IsNull(e) => IsNullText(e, from);
    case True => TextOfOne(SqlText(Ascii("TRUE")), from);
  }

  // ---------- the arguments a statement finds ----------

  predicate ExprFilled(e: Expr, from: nat, args: seq<Literal>) {
    e.Constant? ==> 1 <= from <= |args| && args[from - 1] == e.literal
  }

  /** Every placeholder finds the literal it stands for among the arguments. */
  predicate Filled(p: Predicate, from: nat, args: seq<Literal>) {
    match p
    case Comparison(left, _, right) => ExprFilled(left, from, args) && ExprFilled(right, AfterExpr(left, from), args)
    case And(l, r) => Filled(l, from, args) && Filled(r, After(l, from), args)
    case Or(l, r) => Filled(l, from, args) && Filled(r, After(l, from), args)
    case Not(q) => Filled(q, from, args)
    case IsNull(e) => ExprFilled(e, from, args)
    case True => true
  }

  lemma ExprIsFilled(e: Expr, from: nat, args: seq<Literal>)
    requires Supplies(args, from, ExprLiterals(e))
    ensures ExprFilled(e, from, args) && AfterExpr(e, from) == from + |ExprLiterals(e)|
  {
    if e.Constant? {
      assert args[from - 1] == ExprLiterals(e)[0];
    }
  }

  lemma {:induction false} LiteralsFillTheStatement(p: Predicate, from: nat, args: seq<Literal>)
    requires Supplies(args, from, Literals(p))
    ensures Filled(p, from, args)
  {
    match p
    case Comparison(left, _, right) =>
      SuppliesConcat(args, from, ExprLiterals(left), ExprLiterals(right));
      ExprIsFilled(left, from, args);
      ExprIsFilled(right, AfterExpr(left, from), args);
    case And(l, r) => BothFilled(p, l, r, from, args);
    case Or(l, r) => BothFilled(p, l, r, from, args);
    case Not(q) => LiteralsFillTheStatement(q, from, args);
    case IsNull(e) => ExprIsFilled(e, from, args);
    case True =>
  }

  lemma {:induction false} BothFilled(p: Predicate, l: Predicate, r: Predicate, from: nat, args: seq<Literal>)
    requires p == And(l, r) || p == Or(l, r)
    requires Supplies(args, from, Literals(l) + Literals(r))
    ensures Filled(l, from, args) && Filled(r, After(l, from), args)
    decreases p, 0
  {
    SuppliesConcat(args, from, Literals(l), Literals(r));
    AfterCountsLiterals(l, from);
    LiteralsFillTheStatement(l, from, args);
    LiteralsFillTheStatement(r, After(l, from), args);
  }

  // ---------- reading the statement ----------

  /** What the statement of a predicate reads as, before letters or not: a word they are written against
      is no word any more. */
  function StatementReading(p: Predicate, letters: bool): Option<seq<Token>> {
    match p
    case Comparison(left, op, right) => Some([Operand(left), Op(op), Operand(right)])
    case And(l, r) => Chained(Chained(StatementReading(l, false), Some([AndWord])), StatementReading(r, letters))
    case Or(l, r) =>
      Chained(Chained(Some([Open]), Chained(Chained(StatementReading(l, false), Some([OrWord])), StatementReading(r, false))), Some([Close]))
    case Not(q) => Chained(Chained(Some([NotWord, Open]), StatementReading(q, true)), Some([NotWord, Close]))
    case IsNull(e) => if letters then None else Some([Operand(e), IsNullWords])
    case True => if letters then None else Some([TrueWord])
  }

  lemma {:induction false} ReadingIsTheTokens(p: Predicate, letters: bool)
    ensures StatementReading(p, letters).Some? ==> StatementReading(p, letters).value == StatementTokens(p)
    ensures !letters && Nots(p) == 0 ==> StatementReading(p, letters).Some?
  {
    match p
    case And(l, r) =>
      ReadingIsTheTokens(l, false);
      ReadingIsTheTokens(r, letters);
      if letters { ReadingIsTheTokens(r, false); }
    case Or(l, r) =>
      ReadingIsTheTokens(l, false);
      ReadingIsTheTokens(r, false);
      Regroup([Open], StatementTokens(l), [OrWord], StatementTokens(r), [Close]);
    case Not(q) => ReadingIsTheTokens(q, true);
    case _ =>
  }

  /** After a statement comes nothing, a space, a parenthesis or the NOT before one. */
  predicate Ended(rest: Text) {
    rest == [] || rest[0] == 32 || rest[0] == 41 || rest[0] == 78
  }

  lemma ParameterReads(n: nat, rest: Text, args: seq<Literal>)
    requires 1 <= n <= |args| && Stops(IsDigit, rest)
    ensures ReadsAs(PieceText(Placeholder(n)), Some([Operand(Constant(args[n - 1]))]), rest, args)
  {
    SymbolBytes();
    PlaceIsRead(n, rest);
    var text := PieceText(Placeholder(n));
    assert (text + rest)[0] == 36 && (text + rest)[1..] == Decimal(n) + rest;
    TokenReads(text, Next(Operand(Constant(args[n - 1])), rest), args);
  }

  lemma ExprStatementReads(e: Expr, from: nat, rest: Text, args: seq<Literal>)
    requires Simple(e) && (e.Name? ==> LegibleName(e.identifier)) && ExprFilled(e, from, args) && Ended(rest)
    ensures ReadsAs(ExprStatement(e, from), Some([Operand(e)]), rest, args)
  {
    if e.Constant? {
      ParameterReads(from, rest, args);
    } else {
      NameReads(e.identifier, rest, args);
    }
  }

  lemma ComparisonStatementReads(left: Expr, op: ComparisonOperator, right: Expr, from: nat, rest: Text, args: seq<Literal>)
    requires Simple(left) && Basic(op) && Simple(right) && LegibleNames(Comparison(left, op, right)) && Ended(rest)
    requires ExprFilled(left, from, args) && ExprFilled(right, AfterExpr(left, from), args)
    ensures ReadsAs(Statement(Comparison(left, op, right), from), Some([Operand(left), Op(op), Operand(right)]), rest, args)
  {
    var a, b := ExprStatement(left, from), ExprStatement(right, AfterExpr(left, from));
    SymbolBytes();
    ExprStatementReads(left, from, Ascii(" ") + OperatorSql(op) + Ascii(" ") + (b + rest), args);
    ExprStatementReads(right, AfterExpr(left, from), rest, args);
    ComparedReads(a, Some([Operand(left)]), op, b, Some([Operand(right)]), rest, args);
    assert [Operand(left)] + [Op(op)] + [Operand(right)] == [Operand(left), Op(op), Operand(right)];
  }

  lemma NotStatementReads(q: Predicate, from: nat, ts: Option<seq<Token>>, rest: Text, args: seq<Literal>)
    requires Supported(q) && ReadsAs(Statement(q, from), ts, Ascii("NOT )") + rest, args)
    ensures ReadsAs(Statement(Not(q), from), Chained(Chained(Some([NotWord, Open]), ts), Some([NotWord, Close])), rest, args)
  {
    NotBytes();
    NotWordReads(40, Open, Statement(q, from) + (Ascii("NOT )") + rest), args);
    NotWordReads(41, Close, rest, args);
    InsideReads(Ascii("NOT ("), Some([NotWord, Open]), Statement(q, from), ts, Ascii("NOT )"), Some([NotWord, Close]), rest, args);
  }

  lemma IsNullStatementReads(e: Expr, from: nat, rest: Text, args: seq<Literal>)
    requires Simple(e) && (e.Name? ==> LegibleName(e.identifier)) && ExprFilled(e, from, args) && Ended(rest)
    ensures ReadsAs(Statement(IsNull(e), from), StatementReading(IsNull(e), !Stops(IsLetter, rest)), rest, args)
  {
    var word, ts := Ascii(" IS NULL"), if Stops(IsLetter, rest) then Some([IsNullWords]) else None;
    IsNullBytes();
    ExprStatementReads(e, from, word + rest, args);
    IsNullReads(rest, args);
    OneAfterTheOther(ExprStatement(e, from), Some([Operand(e)]), word, ts, rest, args);
    assert [Operand(e)] + [IsNullWords] == [Operand(e), IsNullWords];
  }

  lemma AndStatementReads(l: Predicate, x: Option<seq<Token>>, r: Predicate, y: Option<seq<Token>>, from: nat, rest: Text, args: seq<Literal>)
    requires Supported(l) && Supported(r)
    requires ReadsAs(Statement(l, from), x, Ascii(" AND ") + (Statement(r, After(l, from)) + rest), args)
    requires ReadsAs(Statement(r, After(l, from)), y, rest, args)
    ensures ReadsAs(Statement(And(l, r), from), Chained(Chained(x, Some([AndWord])), y), rest, args)
  {
    ConjoinedReads(Statement(l, from), x, Statement(r, After(l, from)), y, rest, args);
  }

  lemma OrStatementReads(l: Predicate, x: Option<seq<Token>>, r: Predicate, y: Option<seq<Token>>, from: nat, rest: Text, args: seq<Literal>)
    requires Supported(l) && Supported(r)
    requires ReadsAs(Statement(l, from), x, Ascii(" OR ") + (Statement(r, After(l, from)) + (Ascii(")") + rest)), args)
    requires ReadsAs(Statement(r, After(l, from)), y, Ascii(")") + rest, args)
    ensures ReadsAs(Statement(Or(l, r), from), Chained(Chained(Some([Open]), Chained(Chained(x, Some([OrWord])), y)), Some([Close])), rest, args)
  {
    DisjointReads(Statement(l, from), x, Statement(r, After(l, from)), y, rest, args);
  }

  /** Wherever it stands, the statement of a predicate reads as said. */
  lemma {:induction false} StatementReads(p: Predicate, from: nat, rest: Text, args: seq<Literal>)
    requires Supported(p) && LegibleNames(p) && Filled(p, from, args) && Ended(rest)
    ensures ReadsAs(Statement(p, from), StatementReading(p, !Stops(IsLetter, rest)), rest, args)
  {
    match p
    case Comparison(left, op, right) => ComparisonStatementReads(left, op, right, from, rest, args);
    case And(l, r) =>
      ConnectiveBytes();
      StatementReads(l, from, Ascii(" AND ") + (Statement(r, After(l, from)) + rest), args);
      StatementReads(r, After(l, from), rest, args);
      AndStatementReads(l, StatementReading(l, false), r, StatementReading(r, !Stops(IsLetter, rest)), from, rest, args);
    case Or(l, r) =>
      ConnectiveBytes();
      SymbolBytes();
      StatementReads(l, from, Ascii(" OR ") + (Statement(r, After(l, from)) + (Ascii(")") + rest)), args);
      StatementReads(r, After(l, from), Ascii(")") + rest, args);
      OrStatementReads(l, StatementReading(l, false), r, StatementReading(r, false), from, rest, args);
    case Not(q) =>
      NotBytes();
      StatementReads(q, from, Ascii("NOT )") + rest, args);
      NotStatementReads(q, from, StatementReading(q, true), rest, args);
    case IsNull(e) => IsNullStatementReads(e, from, rest, args);
    case True => TrueReads(rest, args);
  }

  /** Read byte by byte with its arguments, the statement of a predicate without NOT is the predicate up to
      re-association of AND, whatever the literals; a NOT in it, whose closing parenthesis is preceded by
      another NOT, makes it no condition. */
  lemma StatementTextReadsBack(p: Predicate)
    requires Supported(p) && LegibleNames(p)
    ensures ReadText(Statement(p, 1), Literals(p)) == if Nots(p) == 0 then Some(Regrouped(p)) else None
  {
    var text, args := Statement(p, 1), Literals(p);
    LiteralsFillTheStatement(p, 1, args);
    StatementReads(p, 1, [], args);
    assert text + [] == text;
    ReadingIsTheTokens(p, false);
    assert StatementTokens(p) + [] == StatementTokens(p);
    StatementReadsBack(p);
  }

  /** The statement of a predicate and its arguments, as handed to the database. */
  method GenerateStatement(p: Predicate) returns (sql: Text, args: seq<Literal>)
    requires Supported(p)
    ensures sql == Statement(p, 1) && args == Literals(p)
    ensures LegibleNames(p) ==> ReadText(sql, args) == if Nots(p) == 0 then Some(Regrouped(p)) else None
  {
    var s := new Sql();
    s.PushPredicate(p);
    sql, args := s.Collapse();
    assert s.fragments == Flatten(p);
    ArgumentsAreTheLiterals(p);
    FragmentsSpellStatement(p, 1);
    if LegibleNames(p) {
      StatementTextReadsBack(p);
    }
  }

  /** So a database handed the statement and its arguments selects every item that passes the filter,
      and rejects every item the filter answers with false. */
  lemma StatementAgreesWithFilter(item: Entity, p: Predicate)
    requires Supported(p) && LegibleNames(p) && Nots(p) == 0
    ensures var q := ReadText(Statement(p, 1), Literals(p));
      q.Some? && Supported(q.value)
      && (EvaluatePredicate(item, p) == Ok(true) ==> SqlTruth(item, q.value) == Yes)
      && (EvaluatePredicate(item, p) == Ok(false) ==> SqlTruth(item, q.value) == No)
  {
    StatementTextReadsBack(p);
    RegroupedIsSqlEqual(item, p);
    AnswersAgreeWithSql(item, p);
  }
}
