/** The SQL printer, as text and as the token sequence that text consists of. */
module Printer {
  import opened Bytes
  import opened Ast

  function Quoted(name: Text): Text { Ascii("\"") + name + Ascii("\"") }

  function LiteralSql(lit: Literal): Text {
    match lit
    case String(s) => Ascii("'") + s + Ascii("'")
    case _ => LiteralText(lit)
  }

  function GenerateExprSql(e: Expr): Text
    requires Simple(e)
  {
    match e
    case Constant(lit) => LiteralSql(lit)
    case Name(Property(name)) => Quoted(name)
    case Name(CollectionProperty(collection, name)) => Quoted(collection) + Ascii(".") + Quoted(name)
  }

  function OperatorSql(op: ComparisonOperator): Text
    requires Basic(op)
  {
    match op
    case Equal => Ascii("=")
    case NotEqual => Ascii("<>")
    case GreaterThan => Ascii(">")
    case GreaterThanOrEqual => Ascii(">=")
    case LessThan => Ascii("<")
    case LessThanOrEqual => Ascii("<=")
  }

  /** The printed condition. Only OR and the operand of NOT are parenthesised. */
  function GenerateSelectionSql(p: Predicate): Text
    requires Supported(p)
  {
    match p
    case Comparison(left, op, right) =>
      GenerateExprSql(left) + Ascii(" ") + OperatorSql(op) + Ascii(" ") + GenerateExprSql(right)
    case And(l, r) => GenerateSelectionSql(l) + Ascii(" AND ") + GenerateSelectionSql(r)
    case Or(l, r) => Ascii("(") + GenerateSelectionSql(l) + Ascii(" OR ") + GenerateSelectionSql(r) + Ascii(")")
    case Not(q) => Ascii("NOT (") + GenerateSelectionSql(q) + Ascii(")")
    case IsNull(e) => GenerateExprSql(e) + Ascii(" IS NULL")
    case True => []
  }

  datatype Token =
    | Operand(expr: Expr)
    | Op(op: ComparisonOperator)
    | AndWord
    | OrWord
    | NotWord
    | IsNullWords
    | TrueWord
    | Open
    | Close

  function Tokens(p: Predicate): seq<Token> {
    match p
    case Comparison(left, op, right) => [Operand(left), Op(op), Operand(right)]
    case And(l, r) => Tokens(l) + [AndWord] + Tokens(r)
    case Or(l, r) => [Open] + Tokens(l) + [OrWord] + Tokens(r) + [Close]
    case Not(q) => [NotWord, Open] + Tokens(q) + [Close]
    case IsNull(e) => [Operand(e), IsNullWords]
    case True => []
  }

  predicate Printable(t: Token) {
    (t.Operand? ==> Simple(t.expr)) && (t.Op? ==> Basic(t.op))
  }

  function TokenText(t: Token): Text {
    if !Printable(t) then [] else
    match t
    case Operand(e) => GenerateExprSql(e)
    case Op(op) => Ascii(" ") + OperatorSql(op) + Ascii(" ")
    case AndWord => Ascii(" AND ")
    case OrWord => Ascii(" OR ")
    case NotWord => Ascii("NOT ")
    case IsNullWords => Ascii(" IS NULL")
    case TrueWord => Ascii("TRUE")
    case Open => Ascii("(")
    case Close => Ascii(")")
  }

  lemma ComparisonSpelled(left: Expr, op: ComparisonOperator, right: Expr)
    requires Simple(left) && Basic(op) && Simple(right)
    ensures Spell(TokenText, Tokens(Comparison(left, op, right))) == GenerateSelectionSql(Comparison(left, op, right))
  {
    SpellBetween(TokenText, Operand(left), [Op(op)], Operand(right));
    SpellBetween(TokenText, Op(op), [], Operand(right));
    assert [Operand(left)] + [Op(op)] + [Operand(right)] == Tokens(Comparison(left, op, right));
  }

  lemma NotSpelled(q: Predicate)
    requires Supported(q) && Spell(TokenText, Tokens(q)) == GenerateSelectionSql(q)
    ensures Spell(TokenText, Tokens(Not(q))) == GenerateSelectionSql(Not(q))
  {
    NotTokensSpelled(Tokens(q));
  }

  lemma NotTokensSpelled(ts: seq<Token>)
    ensures Spell(TokenText, [NotWord, Open] + ts + [Close]) == Ascii("NOT (") + Spell(TokenText, ts) + Ascii(")")
  {
    SpellAfterTwo(TokenText, NotWord, Open, ts, Close);
    NotText(Spell(TokenText, ts));
  }

  lemma NotText(t: Text)
    ensures Ascii("NOT ") + Ascii("(") + t + Ascii(")") == Ascii("NOT (") + t + Ascii(")")
  {
    assert Ascii("NOT ") + Ascii("(") == Ascii("NOT (");
  }

  lemma IsNullSpelled(e: Expr)
    requires Simple(e)
    ensures Spell(TokenText, Tokens(IsNull(e))) == GenerateSelectionSql(IsNull(e))
  {
    SpellBetween(TokenText, Operand(e), [], IsNullWords);
    assert [Operand(e)] + [] + [IsNullWords] == Tokens(IsNull(e));
  }

  /** The tokens of a predicate spell exactly the printed text. */
  lemma {:induction false} TokensSpellTheText(p: Predicate)
    requires Supported(p)
    ensures Spell(TokenText, Tokens(p)) == GenerateSelectionSql(p)
  {
    match p
    case Comparison(left, op, right) => ComparisonSpelled(left, op, right);
    case And(l, r) =>
      TokensSpellTheText(l);
      TokensSpellTheText(r);
      SpellAround(TokenText, Tokens(l), AndWord, Tokens(r));
    case Or(l, r) =>
      TokensSpellTheText(l);
      TokensSpellTheText(r);
      SpellInside(TokenText, Open, Tokens(l), OrWord, Tokens(r), Close);
    case Not(q) =>
      TokensSpellTheText(q);
      NotSpelled(q);
    case IsNull(e) => IsNullSpelled(e);
    case True =>
  }

  // ---------- counting tokens ----------

  /** Operands minus binary operators: one for every complete condition. */
  function Excess(ts: seq<Token>): int {
    if ts == [] then 0
    else
      (match ts[0]
       case Operand(_) => 1
       case TrueWord => 1
       case Op(_) => -1
       case AndWord => -1
       case OrWord => -1
       case _ => 0) + Excess(ts[1..])
  }

  lemma {:induction false} ExcessConcat(a: seq<Token>, b: seq<Token>)
    ensures Excess(a + b) == Excess(a) + Excess(b)
  {
    if a == [] {
      assert a + b == b;
    } else {
      ExcessConcat(a[1..], b);
      assert (a + b)[1..] == a[1..] + b;
    }
  }

  function Trues(p: Predicate): nat {
    match p
    case And(l, r) => Trues(l) + Trues(r)
    case Or(l, r) => Trues(l) + Trues(r)
    case Not(q) => Trues(q)
    case True => 1
    case _ => 0
  }

  /** TRUE prints as nothing, so each one leaves its neighbours short of an operand. */
  lemma {:induction false} ExcessOfTokens(p: Predicate)
    ensures Excess(Tokens(p)) == 1 - Trues(p)
  {
    match p
    case And(l, r) =>
      ExcessOfTokens(l);
      ExcessOfTokens(r);
      ExcessConcat(Tokens(l), [AndWord]);
      ExcessConcat(Tokens(l) + [AndWord], Tokens(r));
    case Or(l, r) =>
      ExcessOfTokens(l);
      ExcessOfTokens(r);
      ExcessConcat([Open], Tokens(l));
      ExcessConcat([Open] + Tokens(l), [OrWord]);
      ExcessConcat([Open] + Tokens(l) + [OrWord], Tokens(r));
      ExcessConcat([Open] + Tokens(l) + [OrWord] + Tokens(r), [Close]);
    case Not(q) =>
      ExcessOfTokens(q);
      ExcessConcat([NotWord, Open], Tokens(q));
      ExcessConcat([NotWord, Open] + Tokens(q), [Close]);
    case Comparison(left, op, right) =>
      ExcessConcat([Operand(left)], [Op(op)]);
      ExcessConcat([Operand(left), Op(op)], [Operand(right)]);
    case IsNull(e) =>
      ExcessConcat([Operand(e)], [IsNullWords]);
    case True =>
  }
}
