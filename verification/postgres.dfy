/** The Postgres generator: a predicate flattened to fragments, the statement with numbered
    placeholders, and what that statement says once its arguments are bound. */
module Postgres {
  import opened Bytes
  import opened Ast
  import opened Filter
  import opened Printer
  import opened SqlReader
  import opened ThreeValued
  import opened SqlText

  datatype Fragment = SqlText(text: Text) | Argument(literal: Literal)

  function FlattenExpr(e: Expr): seq<Fragment>
    requires Simple(e)
  {
    if e.Constant? then [Argument(e.literal)] else [SqlText(GenerateExprSql(e))]
  }

  function Flatten(p: Predicate): seq<Fragment>
    requires Supported(p)
  {
    match p
    case Comparison(left, op, right) =>
      FlattenExpr(left) + [SqlText(Ascii(" "))] + [SqlText(OperatorSql(op))] + [SqlText(Ascii(" "))] + FlattenExpr(right)
    case And(l, r) => Flatten(l) + [SqlText(Ascii(" AND "))] + Flatten(r)
    case Or(l, r) => [SqlText(Ascii("("))] + Flatten(l) + [SqlText(Ascii(" OR "))] + Flatten(r) + [SqlText(Ascii(")"))]
    case Not(q) => [SqlText(Ascii("NOT ("))] + Flatten(q) + [SqlText(Ascii("NOT )"))]
    case IsNull(e) => FlattenExpr(e) + [SqlText(Ascii(" IS NULL"))]
    case True => [SqlText(Ascii("TRUE"))]
  }

  /** A piece of the finished statement. Placeholders count from 1. */
  datatype Piece = Raw(text: Text) | Placeholder(n: nat)

  function PieceText(piece: Piece): Text {
    match piece
    case Raw(text) => text
    case Placeholder(n) => Ascii("$") + Decimal(n)
  }

  function Numbered(fs: seq<Fragment>, from: nat): seq<Piece> {
    if fs == [] then []
    else match fs[0]
      case SqlText(text) => [Raw(text)] + Numbered(fs[1..], from)
      case Argument(_) => [Placeholder(from)] + Numbered(fs[1..], from + 1)
  }

  function FragmentArguments(f: Fragment): seq<Literal> {
    if f.Argument? then [f.literal] else []
  }

  function Arguments(fs: seq<Fragment>): seq<Literal> {
    Spell(FragmentArguments, fs)
  }

  /** The piece of one fragment, and the number that comes next. */
  function PieceOf(f: Fragment, from: nat): Piece {
    if f.Argument? then Placeholder(from) else Raw(f.text)
  }

  function NumberAfter(f: Fragment, from: nat): nat {
    if f.Argument? then from + 1 else from
  }

  lemma NumberedFirst(fs: seq<Fragment>, from: nat)
    requires fs != []
    ensures Numbered(fs, from) == [PieceOf(fs[0], from)] + Numbered(fs[1..], NumberAfter(fs[0], from))
    ensures |Arguments(fs)| == NumberAfter(fs[0], 0) + |Arguments(fs[1..])|
  {
  }

  lemma {:induction false} NumberedConcat(a: seq<Fragment>, b: seq<Fragment>, from: nat)
    ensures Numbered(a + b, from) == Numbered(a, from) + Numbered(b, from + |Arguments(a)|)
  {
    if a == [] {
      assert a + b == b;
      assert [] + Numbered(b, from) == Numbered(b, from);
    } else {
      var next := NumberAfter(a[0], from);
      FirstOfConcat(a, b);
      NumberedFirst(a + b, from);
      NumberedFirst(a, from);
      NumberedConcat(a[1..], b, next);
      Associate([PieceOf(a[0], from)], Numbered(a[1..], next), Numbered(b, from + |Arguments(a)|));
    }
  }

  lemma PushedInOrder<T>(s: seq<T>, a: seq<T>, b: seq<T>, c: seq<T>, d: seq<T>, e: seq<T>)
    ensures s + a + b + c + d + e == s + (a + b + c + d + e)
  {
  }

  lemma PushedAround<T>(s: seq<T>, a: seq<T>, b: seq<T>, c: seq<T>)
    ensures s + a + b + c == s + (a + b + c)
  {
  }

  class Sql {
    var fragments: seq<Fragment>

    constructor ()
      ensures fragments == []
    {
      fragments := [];
    }

    method Push(f: Fragment)
      modifies this
      ensures fragments == old(fragments) + [f]
    {
      fragments := fragments + [f];
    }

    method PushExpr(e: Expr)
      requires Simple(e)
      modifies this
      ensures fragments == old(fragments) + FlattenExpr(e)
    {
      if e.Constant? {
        Push(Argument(e.literal));
      } else if e.identifier.Property? {
        Push(SqlText(Quoted(e.identifier.name)));
      } else {
        Push(SqlText(Quoted(e.identifier.collection) + Ascii(".") + Quoted(e.identifier.name)));
      }
    }

    method PushComparison(left: Expr, op: ComparisonOperator, right: Expr)
      requires Simple(left) && Basic(op) && Simple(right)
      modifies this
      ensures fragments == old(fragments) + Flatten(Comparison(left, op, right))
    {
      PushExpr(left);
      Push(SqlText(Ascii(" ")));
      Push(SqlText(OperatorSql(op)));
      Push(SqlText(Ascii(" ")));
      PushExpr(right);
      var space, word := [SqlText(Ascii(" "))], [SqlText(OperatorSql(op))];
      PushedInOrder(old(fragments), FlattenExpr(left), space, word, space, FlattenExpr(right));
    }

    method PushPredicate(p: Predicate)
      requires Supported(p)
      modifies this
      ensures fragments == old(fragments) + Flatten(p)
    {
      match p {
        case Comparison(left, op, right) =>
          PushComparison(left, op, right);
        case And(l, r) =>
          PushedAround(old(fragments), Flatten(l), [SqlText(Ascii(" AND "))], Flatten(r));
          PushPredicate(l);
          Push(SqlText(Ascii(" AND ")));
          PushPredicate(r);
        case Or(l, r) =>
          PushedInOrder(old(fragments), [SqlText(Ascii("("))], Flatten(l), [SqlText(Ascii(" OR "))], Flatten(r), [SqlText(Ascii(")"))]);
          Push(SqlText(Ascii("(")));
          PushPredicate(l);
          Push(SqlText(Ascii(" OR ")));
          PushPredicate(r);
          Push(SqlText(Ascii(")")));
        case Not(q) =>
          PushedAround(old(fragments), [SqlText(Ascii("NOT ("))], Flatten(q), [SqlText(Ascii("NOT )"))]);
          Push(SqlText(Ascii("NOT (")));
          PushPredicate(q);
          Push(SqlText(Ascii("NOT )")));
        case IsNull(e) =>
          PushExpr(e);
          Push(SqlText(Ascii(" IS NULL")));
        case True => Push(SqlText(Ascii("TRUE")));
      }
    }

    /** The statement with its placeholders, and the arguments in the order of the placeholders. */
    method Collapse() returns (sql: Text, args: seq<Literal>)
      ensures sql == Spell(PieceText, Numbered(fragments, 1))
      ensures args == Arguments(fragments)
      ensures Bindable(fragments, false) ==> BindText(sql, args) == Some(Spell(FragmentText, fragments))
    {
      var counter := 1;
      sql, args := [], [];
      for i := 0 to |fragments|
        invariant counter == |args| + 1
        invariant args == Arguments(fragments[..i])
        invariant sql == Spell(PieceText, Numbered(fragments[..i], 1))
      {
        CollapseStep(fragments[..i], fragments[i]);
        assert fragments[..i + 1] == fragments[..i] + [fragments[i]];
        match fragments[i] {
          case Argument(lit) =>
            sql := sql + (Ascii("$") + Decimal(counter));
            args := args + [lit];
            counter := counter + 1;
          case SqlText(text) => sql := sql + text;
        }
      }
      assert fragments[..|fragments|] == fragments;
      if Bindable(fragments, false) {
        TextBindsEveryPlace(fragments, false, 1, args);
      }
    }
  }

  lemma CollapseStep(before: seq<Fragment>, f: Fragment)
    ensures Arguments(before + [f]) == Arguments(before) + FragmentArguments(f)
    ensures Spell(PieceText, Numbered(before + [f], 1)) ==
      Spell(PieceText, Numbered(before, 1)) + PieceText(if f.Argument? then Placeholder(|Arguments(before)| + 1) else Raw(f.text))
  {
    var piece := if f.Argument? then Placeholder(|Arguments(before)| + 1) else Raw(f.text);
    SpellConcat(FragmentArguments, before, [f]);
    SpellOne(FragmentArguments, f);
    NumberedConcat(before, [f], 1);
    assert Numbered([f], |Arguments(before)| + 1) == [piece];
    SpellConcat(PieceText, Numbered(before, 1), [piece]);
    SpellOne(PieceText, piece);
  }

  // ---------- numbering ----------

  function ExprLiterals(e: Expr): seq<Literal> {
    if e.Constant? then [e.literal] else []
  }

  /** The literals of a predicate, from left to right. */
  function Literals(p: Predicate): seq<Literal> {
    match p
    case Comparison(left, _, right) => ExprLiterals(left) + ExprLiterals(right)
    case And(l, r) => Literals(l) + Literals(r)
    case Or(l, r) => Literals(l) + Literals(r)
    case Not(q) => Literals(q)
    case IsNull(e) => ExprLiterals(e)
    case True => []
  }

  lemma ExprArguments(e: Expr)
    requires Simple(e)
    ensures Arguments(FlattenExpr(e)) == ExprLiterals(e)
  {
    SpellOne(FragmentArguments, if e.Constant? then Argument(e.literal) else SqlText(GenerateExprSql(e)));
  }

  lemma ComparisonArguments(left: Expr, op: ComparisonOperator, right: Expr)
    requires Simple(left) && Basic(op) && Simple(right)
    ensures Arguments(Flatten(Comparison(left, op, right))) == ExprLiterals(left) + ExprLiterals(right)
  {
    var space, word := SqlText(Ascii(" ")), SqlText(OperatorSql(op));
    ExprArguments(left);
    ExprArguments(right);
    SpellAround(FragmentArguments, FlattenExpr(left), space, [word]);
    SpellOne(FragmentArguments, word);
    SpellAround(FragmentArguments, FlattenExpr(left) + [space] + [word], space, FlattenExpr(right));
  }

  lemma ArgumentsAround(l: seq<Fragment>, word: Text, r: seq<Fragment>)
    ensures Arguments(l + [SqlText(word)] + r) == Arguments(l) + Arguments(r)
  {
    SpellAround(FragmentArguments, l, SqlText(word), r);
  }

  lemma ArgumentsInside(open: Text, l: seq<Fragment>, word: Text, r: seq<Fragment>, close: Text)
    ensures Arguments([SqlText(open)] + l + [SqlText(word)] + r + [SqlText(close)]) == Arguments(l) + Arguments(r)
  {
    SpellInside(FragmentArguments, SqlText(open), l, SqlText(word), r, SqlText(close));
  }

  lemma ArgumentsBetween(open: Text, mid: seq<Fragment>, close: Text)
    ensures Arguments([SqlText(open)] + mid + [SqlText(close)]) == Arguments(mid)
  {
    SpellBetween(FragmentArguments, SqlText(open), mid, SqlText(close));
  }

  lemma IsNullArguments(e: Expr)
    requires Simple(e)
    ensures Arguments(Flatten(IsNull(e))) == ExprLiterals(e)
  {
    ExprArguments(e);
    SpellConcat(FragmentArguments, FlattenExpr(e), [SqlText(Ascii(" IS NULL"))]);
    SpellOne(FragmentArguments, SqlText(Ascii(" IS NULL")));
  }

  lemma {:induction false} ArgumentsAreTheLiterals(p: Predicate)
    requires Supported(p)
    ensures Arguments(Flatten(p)) == Literals(p)
  {
    match p
    case Comparison(left, op, right) => ComparisonArguments(left, op, right);
    case And(l, r) =>
      ArgumentsAreTheLiterals(l);
      ArgumentsAreTheLiterals(r);
      ArgumentsAround(Flatten(l), Ascii(" AND "), Flatten(r));
    case Or(l, r) =>
      ArgumentsAreTheLiterals(l);
      ArgumentsAreTheLiterals(r);
      ArgumentsInside(Ascii("("), Flatten(l), Ascii(" OR "), Flatten(r), Ascii(")"));
    case Not(q) =>
      ArgumentsAreTheLiterals(q);
      ArgumentsBetween(Ascii("NOT ("), Flatten(q), Ascii("NOT )"));
    case IsNull(e) =>
      IsNullArguments(e);
    case True => SpellOne(FragmentArguments, SqlText(Ascii("TRUE")));
  }

  function Places(pieces: seq<Piece>): seq<nat> {
    if pieces == [] then []
    else (if pieces[0].Placeholder? then [pieces[0].n] else []) + Places(pieces[1..])
  }

  lemma {:induction false} PlacesCountUp(fs: seq<Fragment>, from: nat)
    ensures var places := Places(Numbered(fs, from));
      |places| == |Arguments(fs)| && forall i | 0 <= i < |places| :: places[i] == from + i
  {
    if fs != [] {
      PlacesCountUp(fs[1..], if fs[0].Argument? then from + 1 else from);
    }
  }

  /** For every predicate the placeholders are $1 to $k from left to right, one for each literal, and
      the arguments are those literals in order. */
  lemma PlaceholdersAreNumberedInOrder(p: Predicate)
    requires Supported(p)
    ensures Arguments(Flatten(p)) == Literals(p)
    ensures var places := Places(Numbered(Flatten(p), 1));
      |places| == |Literals(p)| && forall i | 0 <= i < |places| :: places[i] == i + 1
  {
    ArgumentsAreTheLiterals(p);
    PlacesCountUp(Flatten(p), 1);
  }

  // ---------- the statement with its arguments bound ----------

  /** The statement with every placeholder $n replaced by the text of the n-th argument. */
  function Bind(pieces: seq<Piece>, args: seq<Literal>): Option<Text> {
    if pieces == [] then Some([])
    else
      match Bind(pieces[1..], args)
      case None => None
      case Some(rest) =>
        match pieces[0]
        case Raw(text) => Some(text + rest)
        case Placeholder(n) => if 1 <= n <= |args| then Some(LiteralSql(args[n - 1]) + rest) else None
  }

  function FragmentText(f: Fragment): Text {
    match f
    case SqlText(text) => text
    case Argument(lit) => LiteralSql(lit)
  }

  lemma {:induction false} BindingFillsEveryPlace(fs: seq<Fragment>, from: nat, args: seq<Literal>)
    requires from >= 1 && |args| == from - 1 + |Arguments(fs)| && args[from - 1..] == Arguments(fs)
    ensures Bind(Numbered(fs, from), args) == Some(Spell(FragmentText, fs))
  {
    if fs != [] {
      if fs[0].Argument? {
        assert args[from - 1] == args[from - 1..][0] == fs[0].literal;
        assert args[from..] == args[from - 1..][1..] == Arguments(fs[1..]);
        BindingFillsEveryPlace(fs[1..], from + 1, args);
      } else {
        BindingFillsEveryPlace(fs[1..], from, args);
      }
    }
  }

  /** The tokens of the Postgres statement: TRUE is spelled out, and a second NOT stands before the
      parenthesis that closes a negation. */
  function StatementTokens(p: Predicate): seq<Token> {
    match p
    case Comparison(left, op, right) => [Operand(left), Op(op), Operand(right)]
    case And(l, r) => StatementTokens(l) + [AndWord] + StatementTokens(r)
    case Or(l, r) => [Open] + StatementTokens(l) + [OrWord] + StatementTokens(r) + [Close]
    case Not(q) => [NotWord, Open] + StatementTokens(q) + [NotWord, Close]
    case IsNull(e) => [Operand(e), IsNullWords]
    case True => [TrueWord]
  }

  function Nots(p: Predicate): nat {
    match p
    case And(l, r) => Nots(l) + Nots(r)
    case Or(l, r) => Nots(l) + Nots(r)
    case Not(q) => 1 + Nots(q)
    case _ => 0
  }

  lemma ExprFragments(e: Expr)
    requires Simple(e)
    ensures Spell(FragmentText, FlattenExpr(e)) == TokenText(Operand(e))
  {
    assert FlattenExpr(e)[1..] == [];
  }

  lemma ComparisonFragments(left: Expr, op: ComparisonOperator, right: Expr)
    requires Simple(left) && Basic(op) && Simple(right)
    ensures Spell(FragmentText, Flatten(Comparison(left, op, right))) == GenerateSelectionSql(Comparison(left, op, right))
  {
    var space, word := SqlText(Ascii(" ")), SqlText(OperatorSql(op));
    ExprFragments(left);
    ExprFragments(right);
    SpellAround(FragmentText, FlattenExpr(left), space, [word]);
    SpellOne(FragmentText, word);
    SpellAround(FragmentText, FlattenExpr(left) + [space] + [word], space, FlattenExpr(right));
  }

  predicate Spelled(p: Predicate)
    requires Supported(p)
  {
    Spell(FragmentText, Flatten(p)) == Spell(TokenText, StatementTokens(p))
  }

  lemma NotFragments(q: Predicate)
    requires Supported(q) && Spelled(q)
    ensures Spelled(Not(q))
  {
    SpellBetween(FragmentText, SqlText(Ascii("NOT (")), Flatten(q), SqlText(Ascii("NOT )")));
    NotStatement(StatementTokens(q));
  }

  lemma AndFragments(l: Predicate, r: Predicate)
    requires Supported(l) && Supported(r) && Spelled(l) && Spelled(r)
    ensures Spelled(And(l, r))
  {
    SpellAround(FragmentText, Flatten(l), SqlText(Ascii(" AND ")), Flatten(r));
    SpellAround(TokenText, StatementTokens(l), AndWord, StatementTokens(r));
  }

  lemma OrFragments(l: Predicate, r: Predicate)
    requires Supported(l) && Supported(r) && Spelled(l) && Spelled(r)
    ensures Spelled(Or(l, r))
  {
    OrFlattened(l, r);
    OrStatement(l, r);
  }

  lemma OrFlattened(l: Predicate, r: Predicate)
    requires Supported(l) && Supported(r)
    ensures Spell(FragmentText, Flatten(Or(l, r))) ==
      Ascii("(") + Spell(FragmentText, Flatten(l)) + Ascii(" OR ") + Spell(FragmentText, Flatten(r)) + Ascii(")")
  {
    SpellInside(FragmentText, SqlText(Ascii("(")), Flatten(l), SqlText(Ascii(" OR ")), Flatten(r), SqlText(Ascii(")")));
  }

  lemma OrStatement(l: Predicate, r: Predicate)
    ensures Spell(TokenText, StatementTokens(Or(l, r))) ==
      Ascii("(") + Spell(TokenText, StatementTokens(l)) + Ascii(" OR ") + Spell(TokenText, StatementTokens(r)) + Ascii(")")
  {
    OrSpelled(StatementTokens(l), StatementTokens(r));
  }

  lemma OrSpelled(l: seq<Token>, r: seq<Token>)
    ensures Spell(TokenText, [Open] + l + [OrWord] + r + [Close]) ==
      Ascii("(") + Spell(TokenText, l) + Ascii(" OR ") + Spell(TokenText, r) + Ascii(")")
  {
    SpellInside(TokenText, Open, l, OrWord, r, Close);
  }

  lemma NotStatement(ts: seq<Token>)
    ensures Spell(TokenText, [NotWord, Open] + ts + [NotWord, Close]) == Ascii("NOT (") + Spell(TokenText, ts) + Ascii("NOT )")
  {
    SpellAfterTwo(TokenText, NotWord, Open, ts, NotWord);
    SpellConcat(TokenText, [NotWord, Open] + ts + [NotWord], [Close]);
    SpellOne(TokenText, Close);
    NotTokensSplit(ts);
    StrayNotText(Spell(TokenText, ts));
  }

  lemma NotTokensSplit(ts: seq<Token>)
    ensures [NotWord, Open] + ts + [NotWord, Close] == [NotWord, Open] + ts + [NotWord] + [Close]
  {
  }

  lemma StrayNotText(t: Text)
    ensures Ascii("NOT (") + t + Ascii("NOT )") == Ascii("NOT ") + Ascii("(") + t + Ascii("NOT ") + Ascii(")")
  {
    assert Ascii("NOT ") + Ascii("(") == Ascii("NOT (");
    assert Ascii("NOT ") + Ascii(")") == Ascii("NOT )");
  }

  lemma {:induction false} FragmentsSpellTheStatement(p: Predicate)
    requires Supported(p)
    ensures Spelled(p)
  {
    match p
    case Comparison(left, op, right) =>
      ComparisonFragments(left, op, right);
      ComparisonSpelled(left, op, right);
    case And(l, r) =>
      FragmentsSpellTheStatement(l);
      FragmentsSpellTheStatement(r);
      AndFragments(l, r);
    case Or(l, r) =>
      FragmentsSpellTheStatement(l);
      FragmentsSpellTheStatement(r);
      OrFragments(l, r);
    case Not(q) =>
      FragmentsSpellTheStatement(q);
      NotFragments(q);
    case IsNull(e) =>
      ExprFragments(e);
      SpellConcat(FragmentText, FlattenExpr(e), [SqlText(Ascii(" IS NULL"))]);
      SpellOne(FragmentText, SqlText(Ascii(" IS NULL")));
      IsNullSpelled(e);
    case True =>
      SpellOne(FragmentText, SqlText(Ascii("TRUE")));
      SpellOne(TokenText, TrueWord);
  }

  lemma {:induction false} StatementLength(p: Predicate)
    requires Supported(p)
    ensures |Spell(FragmentText, Flatten(p))| == |GenerateSelectionSql(p)| + 4 * Trues(p) + 4 * Nots(p)
  {
    match p
    case Comparison(left, op, right) => ComparisonFragments(left, op, right);
    case And(l, r) =>
      StatementLength(l);
      StatementLength(r);
      SpellAround(FragmentText, Flatten(l), SqlText(Ascii(" AND ")), Flatten(r));
    case Or(l, r) =>
      StatementLength(l);
      StatementLength(r);
      SpellInside(FragmentText, SqlText(Ascii("(")), Flatten(l), SqlText(Ascii(" OR ")), Flatten(r), SqlText(Ascii(")")));
    case Not(q) =>
      StatementLength(q);
      SpellBetween(FragmentText, SqlText(Ascii("NOT (")), Flatten(q), SqlText(Ascii("NOT )")));
    case IsNull(e) =>
      ExprFragments(e);
      SpellConcat(FragmentText, FlattenExpr(e), [SqlText(Ascii(" IS NULL"))]);
      SpellOne(FragmentText, SqlText(Ascii(" IS NULL")));
    case True => SpellOne(FragmentText, SqlText(Ascii("TRUE")));
  }

  lemma {:induction false} PlainStatement(p: Predicate)
    requires Trues(p) == 0 && Nots(p) == 0
    ensures StatementTokens(p) == Tokens(p)
  {
    match p
    case And(l, r) =>
      PlainStatement(l);
      PlainStatement(r);
    case Or(l, r) =>
      PlainStatement(l);
      PlainStatement(r);
    case _ =>
  }

  /** Binding the arguments gives the statement's tokens with every literal in its place; that is the
      text of the plain SQL printer if and only if the predicate has no NOT and no TRUE. */
  lemma BoundStatement(p: Predicate)
    requires Supported(p)
    ensures var bound := Bind(Numbered(Flatten(p), 1), Arguments(Flatten(p)));
      && bound == Some(Spell(TokenText, StatementTokens(p)))
      && (bound == Some(GenerateSelectionSql(p)) <==> Nots(p) == 0 && Trues(p) == 0)
  {
    BindingFillsEveryPlace(Flatten(p), 1, Arguments(Flatten(p)));
    FragmentsSpellTheStatement(p);
    StatementLength(p);
    if Nots(p) == 0 && Trues(p) == 0 {
      PlainStatement(p);
      TokensSpellTheText(p);
    }
  }

  // ---------- the statement as SQL ----------

  lemma {:induction false} StraysConcat(a: seq<Token>, b: seq<Token>)
    requires a == [] || !a[|a| - 1].NotWord?
    ensures Strays(a + b) == Strays(a) + Strays(b)
  {
    if a == [] {
      assert a + b == b;
    } else {
      StraysConcat(a[1..], b);
      assert (a + b)[1..] == a[1..] + b;
    }
  }

  lemma StraysAround(a: seq<Token>, t: Token, b: seq<Token>)
    requires (a == [] || !a[|a| - 1].NotWord?) && !t.NotWord?
    ensures Strays(a + [t] + b) == Strays(a) + Strays(b)
  {
    assert [t][1..] == [];
    StraysConcat(a, [t]);
    StraysConcat(a + [t], b);
  }

  lemma NotStrays(q: seq<Token>)
    requires q != [] && !q[|q| - 1].NotWord?
    ensures Strays([NotWord, Open] + q + [NotWord, Close]) == 1 + Strays(q)
  {
    assert [NotWord, Open][1..] == [Open] && [NotWord, Close][1..] == [Close] && [Open][1..] == [] && [Close][1..] == [];
    assert Strays([Open]) == 0 && Strays([Close]) == 0;
    StraysConcat([NotWord, Open], q);
    StraysConcat([NotWord, Open] + q, [NotWord, Close]);
  }

  lemma {:induction false} StraysOfStatement(p: Predicate)
    ensures var ts := StatementTokens(p);
      ts != [] && !ts[|ts| - 1].NotWord? && Strays(ts) == Nots(p)
  {
    match p
    case Comparison(left, op, right) =>
      StraysAround([Operand(left)], Op(op), [Operand(right)]);
      StraysAround([], Operand(left), []);
      StraysAround([], Operand(right), []);
      assert [] + [Operand(left)] + [] == [Operand(left)] && [] + [Operand(right)] + [] == [Operand(right)];
      assert StatementTokens(p) == [Operand(left)] + [Op(op)] + [Operand(right)];
    case And(l, r) =>
      StraysOfStatement(l);
      StraysOfStatement(r);
      StraysAround(StatementTokens(l), AndWord, StatementTokens(r));
    case Or(l, r) =>
      StraysOfStatement(l);
      StraysOfStatement(r);
      OrStrays(StatementTokens(l), StatementTokens(r));
    case Not(q) =>
      StraysOfStatement(q);
      NotStrays(StatementTokens(q));
    case IsNull(e) => IsNullStrays(e);
    case True =>
  }

  lemma IsNullStrays(e: Expr)
    ensures Strays([Operand(e), IsNullWords]) == 0
  {
    StraysConcat([Operand(e)], [IsNullWords]);
    assert [Operand(e)][1..] == [] && [IsNullWords][1..] == [];
    assert [Operand(e)] + [IsNullWords] == [Operand(e), IsNullWords];
  }

  lemma OrStrays(l: seq<Token>, r: seq<Token>)
    requires l != [] && !l[|l| - 1].NotWord? && r != [] && !r[|r| - 1].NotWord?
    ensures Strays([Open] + l + [OrWord] + r + [Close]) == Strays(l) + Strays(r)
  {
    StraysAround([], Open, l);
    assert [] + [Open] + l == [Open] + l;
    StraysAround([Open] + l, OrWord, r);
    StraysAround([Open] + l + [OrWord] + r, Close, []);
    assert [Open] + l + [OrWord] + r + [Close] + [] == [Open] + l + [OrWord] + r + [Close];
  }

  lemma {:induction false} NotFreeStatement(p: Predicate)
    requires Nots(p) == 0
    ensures StatementTokens(p) == Rendered(p)
  {
    match p
    case And(l, r) =>
      NotFreeStatement(l);
      NotFreeStatement(r);
    case Or(l, r) =>
      NotFreeStatement(l);
      NotFreeStatement(r);
    case _ =>
  }

  /** Read with SQL's precedence, the statement of a predicate without NOT is that predicate up to
      re-association of AND, TRUE included; a predicate with a NOT in it gives no condition at all. */
  lemma StatementReadsBack(p: Predicate)
    ensures ReadSelection(StatementTokens(p)) == if Nots(p) == 0 then Some(Regrouped(p)) else None
  {
    if Nots(p) == 0 {
      NotFreeStatement(p);
      RenderedReadsBack(p);
    } else {
      StraysOfStatement(p);
    }
  }

  // ---------- the statement as bytes ----------

  /** The text of fragments whose first placeholder has the number `from`. */
  function StatementText(fs: seq<Fragment>, from: nat): Text {
    Spell(PieceText, Numbered(fs, from))
  }

  lemma TextOfConcat(a: seq<Fragment>, b: seq<Fragment>, from: nat)
    ensures StatementText(a + b, from) == StatementText(a, from) + StatementText(b, from + |Arguments(a)|)
  {
    NumberedConcat(a, b, from);
    SpellConcat(PieceText, Numbered(a, from), Numbered(b, from + |Arguments(a)|));
  }

  lemma TextOfOne(f: Fragment, from: nat)
    ensures StatementText([f], from) == PieceText(PieceOf(f, from))
    ensures |Arguments([f])| == if f.Argument? then 1 else 0
  {
    assert Numbered([f], from) == [PieceOf(f, from)];
    SpellOne(PieceText, PieceOf(f, from));
    SpellOne(FragmentArguments, f);
  }

  lemma TextAround(a: seq<Fragment>, word: Text, b: seq<Fragment>, from: nat)
    ensures StatementText(a + [SqlText(word)] + b, from) == StatementText(a, from) + word + StatementText(b, from + |Arguments(a)|)
  {
    TextOfOne(SqlText(word), from + |Arguments(a)|);
    TextOfConcat(a, [SqlText(word)], from);
    TextOfConcat(a + [SqlText(word)], b, from);
    SpellConcat(FragmentArguments, a, [SqlText(word)]);
  }

  lemma TextBetween(open: Text, mid: seq<Fragment>, close: Text, from: nat)
    ensures StatementText([SqlText(open)] + mid + [SqlText(close)], from) == open + StatementText(mid, from) + close
  {
    TextOfOne(SqlText(open), from);
    TextOfConcat([SqlText(open)], mid, from);
    SpellConcat(FragmentArguments, [SqlText(open)], mid);
    TextOfOne(SqlText(close), from + |Arguments(mid)|);
    TextOfConcat([SqlText(open)] + mid, [SqlText(close)], from);
  }

  lemma TextInside(open: Text, a: seq<Fragment>, word: Text, b: seq<Fragment>, close: Text, from: nat)
    ensures StatementText([SqlText(open)] + a + [SqlText(word)] + b + [SqlText(close)], from) ==
      open + (StatementText(a, from) + word + StatementText(b, from + |Arguments(a)|)) + close
  {
    Regroup([SqlText(open)], a, [SqlText(word)], b, [SqlText(close)]);
    TextBetween(open, a + [SqlText(word)] + b, close, from);
    TextAround(a, word, b, from);
  }

  // ---------- binding on the bytes ----------

  /** A text with every `$n` in it replaced by the text of the n-th argument. */
  function BindText(t: Text, args: seq<Literal>): Option<Text>
    decreases |t|
  {
    if t == [] then Some([])
    else if t[0] != 36 then Chained(Some([t[0]]), BindText(t[1..], args))
    else match PlaceOf(t[1..])
      case None => None
      case Some(place) => if 1 <= place.n <= |args| then Chained(Some(Bound(args, place.n)), BindText(place.rest, args)) else None
  }

  function Bound(args: seq<Literal>, n: nat): Text
    requires 1 <= n <= |args|
  {
    FragmentText(Argument(args[n - 1]))
  }

  lemma {:induction false} PlainTextBinds(text: Text, rest: Text, args: seq<Literal>)
    requires 36 !in text
    ensures BindText(text + rest, args) == Chained(Some(text), BindText(rest, args))
  {
    if text == [] {
      assert text + rest == rest;
      if BindText(rest, args).Some? {
        assert [] + BindText(rest, args).value == BindText(rest, args).value;
      }
    } else {
      assert (text + rest)[1..] == text[1..] + rest;
      PlainTextBinds(text[1..], rest, args);
      ChainedAssociates(Some([text[0]]), Some(text[1..]), BindText(rest, args));
      assert [text[0]] + text[1..] == text;
    }
  }

  lemma PlaceIsRead(n: nat, rest: Text)
    requires Stops(IsDigit, rest)
    ensures PlaceOf(Decimal(n) + rest) == Some(Place(n, rest))
  {
    DecimalReadsBack(n);
    RunIsTaken(IsDigit, Decimal(n), rest);
  }

  lemma PlaceholderBinds(n: nat, rest: Text, args: seq<Literal>)
    requires 1 <= n <= |args| && Stops(IsDigit, rest)
    ensures BindText(PieceText(Placeholder(n)) + rest, args) == Chained(Some(Bound(args, n)), BindText(rest, args))
  {
    SymbolBytes();
    PlaceIsRead(n, rest);
    DollarBinds(Decimal(n), n, rest, args);
  }

  lemma DollarBinds(digits: Text, n: nat, rest: Text, args: seq<Literal>)
    requires 1 <= n <= |args| && PlaceOf(digits + rest) == Some(Place(n, rest))
    ensures BindText([36] + digits + rest, args) == Chained(Some(Bound(args, n)), BindText(rest, args))
  {
    Associate([36], digits, rest);
    FirstOfConcat([36], digits + rest);
    assert ([36] + (digits + rest))[1..] == digits + rest;
  }

  /** No SQL text holds a dollar sign, and none continues the digits of a placeholder. */
  predicate Bindable(fs: seq<Fragment>, afterPlace: bool) {
    fs == [] ||
    match fs[0]
    case Argument(_) => Bindable(fs[1..], true)
    case SqlText(text) => 36 !in text && (afterPlace ==> Stops(IsDigit, text)) && Bindable(fs[1..], afterPlace && text == [])
  }

  lemma {:induction false} PlacesEnd(fs: seq<Fragment>, from: nat)
    requires Bindable(fs, true)
    ensures Stops(IsDigit, StatementText(fs, from))
  {
    if fs != [] {
      SymbolBytes();
      NumberedFirst(fs, from);
      if fs[0].SqlText? && fs[0].text == [] {
        PlacesEnd(fs[1..], from);
      }
    }
  }

  /** Bound byte by byte, the text of any such fragments has every literal in its place. */
  lemma {:induction false} TextBindsEveryPlace(fs: seq<Fragment>, afterPlace: bool, from: nat, args: seq<Literal>)
    requires Bindable(fs, afterPlace) && Supplies(args, from, Arguments(fs))
    ensures BindText(StatementText(fs, from), args) == Some(Spell(FragmentText, fs))
  {
    if fs != [] {
      var f, next := fs[0], NumberAfter(fs[0], from);
      NumberedFirst(fs, from);
      SuppliesConcat(args, from, FragmentArguments(f), Arguments(fs[1..]));
      TextOfFirst(fs, from);
      if f.Argument? {
        assert args[from - 1] == FragmentArguments(f)[0];
        PlacesEnd(fs[1..], next);
        PlaceholderBinds(from, StatementText(fs[1..], next), args);
        TextBindsEveryPlace(fs[1..], true, next, args);
      } else {
        PlainTextBinds(f.text, StatementText(fs[1..], next), args);
        TextBindsEveryPlace(fs[1..], afterPlace && f.text == [], next, args);
      }
    }
  }

  lemma TextOfFirst(fs: seq<Fragment>, from: nat)
    requires fs != []
    ensures StatementText(fs, from) == PieceText(PieceOf(fs[0], from)) + StatementText(fs[1..], NumberAfter(fs[0], from))
  {
    NumberedFirst(fs, from);
  }

  /** The arguments from the number `from` on begin with these literals. */
  predicate Supplies(args: seq<Literal>, from: nat, lits: seq<Literal>) {
    from >= 1 && from - 1 + |lits| <= |args| && forall i | 0 <= i < |lits| :: args[from - 1 + i] == lits[i]
  }

  lemma SuppliesConcat(args: seq<Literal>, from: nat, a: seq<Literal>, b: seq<Literal>)
    requires Supplies(args, from, a + b)
    ensures Supplies(args, from, a) && Supplies(args, from + |a|, b)
  {
    forall i | 0 <= i < |a|
      ensures args[from - 1 + i] == a[i]
    {
      assert (a + b)[i] == a[i];
    }
    forall i | 0 <= i < |b|
      ensures args[from + |a| - 1 + i] == b[i]
    {
      assert (a + b)[|a| + i] == b[i];
    }
  }
}
