/** Printing a predicate and parsing the text again: exactly which predicates come back. */
module RoundTrip {
  import opened Bytes
  import opened Ast
  import opened Printer
  import opened QueryParser

  // ---------- the grammar on tokens ----------

  /** The pair the grammar builds for the printed text of an operand. Quotes belong to the text of an
      identifier. Signed, fractional and boolean literals get rules the parser has no case for. */
  function Lexeme(e: Expr): Pair {
    match e
    case Name(Property(name)) => Ident([Quoted(name)])
    case Name(CollectionProperty(collection, name)) => Ident([Quoted(collection), Quoted(name)])
    case Constant(String(_)) => SingleQuoted(LiteralSql(e.literal))
    case Constant(Integer(i)) => if i >= 0 then Unsigned(Decimal(i)) else OtherLiteral
    case Constant(Float(_, shown)) =>
      if shown != [] && AllDigits(shown) then Unsigned(shown)
      else if shown == Ascii("inf") || shown == Ascii("-inf") || shown == Ascii("NaN") then Ident([shown])
      else OtherLiteral
    case _ => OtherLiteral
  }

  function InfixPair(t: Token): Option<Pair> {
    match t
    case Op(op) => Some(if Basic(op) then Cmp(op) else OtherLiteral)
    case AndWord => Some(AndPair)
    case OrWord => Some(OrPair)
    case _ => None
  }

  datatype Match = Match(pairs: seq<Pair>, rest: seq<Token>)

  /** `IsNullPostfix?` */
  function MatchPostfix(pair: Pair, ts: seq<Token>): (m: Match)
    ensures |m.rest| <= |ts| && Excess(m.rest) == Excess(ts)
  {
    if ts != [] && ts[0].IsNullWords? then Match([pair, IsNullPair], ts[1..]) else Match([pair], ts)
  }

  /** `UnaryNot* ~ AtomicExpr ~ IsNullPostfix?` */
  function MatchAtom(ts: seq<Token>): (m: Option<Match>)
    ensures m.Some? ==> |m.value.rest| < |ts| && Excess(ts) == Excess(m.value.rest) + 1
    decreases |ts|, 0
  {
    if ts == [] then None
    else match ts[0]
      case NotWord =>
        (match MatchAtom(ts[1..])
         case Some(m) => Some(Match([NotPair] + m.pairs, m.rest))
         case None => None)
      case Operand(e) => Some(MatchPostfix(Lexeme(e), ts[1..]))
      case TrueWord => Some(MatchPostfix(OtherLiteral, ts[1..]))
      case Open =>
        (match MatchExpr([], ts[1..])
         case Some(m) =>
           if m.rest != [] && m.rest[0].Close? then Some(MatchPostfix(Parenthesised(m.pairs), m.rest[1..])) else None
         case None => None)
      case _ => None
  }

  /** An atom and then the infix tail, appended to the pairs matched before. */
  function MatchExpr(before: seq<Pair>, ts: seq<Token>): (m: Option<Match>)
    ensures m.Some? ==> |m.value.rest| < |ts| && Excess(ts) == Excess(m.value.rest) + 1
    decreases |ts|, 2
  {
    match MatchAtom(ts)
    case Some(m) => Some(MatchTail(before + m.pairs, m.rest))
    case None => None
  }

  /** `(ExprInfixOp ~ ExprAtomValue)*`: stops before an operator that no atom follows. */
  function MatchTail(before: seq<Pair>, ts: seq<Token>): (m: Match)
    ensures |m.rest| <= |ts| && Excess(ts) == Excess(m.rest)
    decreases |ts|, 1
  {
    if ts == [] || InfixPair(ts[0]).None? || MatchAtom(ts[1..]).None? then Match(before, ts)
    else
      var m := MatchAtom(ts[1..]).value;
      MatchTail(before + [InfixPair(ts[0]).value] + m.pairs, m.rest)
  }

  /** The pairs of a whole selection, and what the parser makes of them. */
  function ParseTokens(ts: seq<Token>): Result<Predicate> {
    match MatchExpr([], ts)
    case Some(m) => if m.rest == [] then ParseExpr(m.pairs) else Err(SyntaxError)
    case None => Err(SyntaxError)
  }

  // ---------- the pairs of printed text ----------

  function Chain(p: Predicate): seq<Pair> {
    match p
    case Comparison(left, op, right) => [Lexeme(left), Cmp(op), Lexeme(right)]
    case And(l, r) => Chain(l) + [AndPair] + Chain(r)
    case Or(l, r) => [Parenthesised(Chain(l) + [OrPair] + Chain(r))]
    case Not(q) => [NotPair, Parenthesised(Chain(q))]
    case IsNull(e) => [Lexeme(e), IsNullPair]
    case True => []
  }

  predicate NoPostfix(rest: seq<Token>) {
    rest == [] || !rest[0].IsNullWords?
  }

  lemma TailContinues(before: seq<Pair>, t: Token, ts: seq<Token>)
    requires InfixPair(t).Some? && MatchAtom(ts).Some?
    ensures Some(MatchTail(before, [t] + ts)) == MatchExpr(before + [InfixPair(t).value], ts)
  {
    assert ([t] + ts)[1..] == ts;
  }

  lemma ComparisonMatches(before: seq<Pair>, left: Expr, op: ComparisonOperator, right: Expr, rest: seq<Token>)
    requires NoPostfix(rest) && Basic(op)
    ensures MatchAtom(Tokens(Comparison(left, op, right)) + rest).Some?
    ensures MatchExpr(before, Tokens(Comparison(left, op, right)) + rest)
         == Some(MatchTail(before + Chain(Comparison(left, op, right)), rest))
  {
    var ts, second := Tokens(Comparison(left, op, right)) + rest, [Operand(right)] + rest;
    assert ts[1..] == [Op(op)] + second;
    assert second[1..] == rest;
    assert MatchAtom(second) == Some(Match([Lexeme(right)], rest));
    assert MatchAtom(ts) == Some(Match([Lexeme(left)], [Op(op)] + second));
    TailContinues(before + [Lexeme(left)], Op(op), second);
    assert before + [Lexeme(left)] + [Cmp(op)] + [Lexeme(right)] == before + Chain(Comparison(left, op, right));
  }

  lemma ParenthesesMatch(pairs: seq<Pair>, inside: seq<Token>, rest: seq<Token>)
    requires NoPostfix(rest) && MatchExpr([], inside + ([Close] + rest)) == Some(MatchTail(pairs, [Close] + rest))
    ensures MatchAtom([Open] + inside + [Close] + rest) == Some(Match([Parenthesised(pairs)], rest))
  {
    var ts := [Open] + inside + [Close] + rest;
    assert ts[1..] == inside + ([Close] + rest);
    assert ([Close] + rest)[1..] == rest;
  }

  /** Two operands that match one after the other, joined by a connective. */
  lemma ConnectedMatch(before: seq<Pair>, ls: seq<Token>, l: seq<Pair>, word: Token, rs: seq<Token>, r: seq<Pair>, rest: seq<Token>)
    requires InfixPair(word).Some? && MatchAtom(rs + rest).Some?
    requires MatchExpr(before, ls + ([word] + (rs + rest))) == Some(MatchTail(before + l, [word] + (rs + rest)))
    requires MatchExpr(before + l + [InfixPair(word).value], rs + rest) == Some(MatchTail(before + l + [InfixPair(word).value] + r, rest))
    ensures MatchExpr(before, ls + [word] + rs + rest) == Some(MatchTail(before + (l + [InfixPair(word).value] + r), rest))
  {
    TailContinues(before + l, word, rs + rest);
    AndTokens(ls, word, rs, rest);
    ThreeAppended(before, l, [InfixPair(word).value], r);
  }

  lemma ThreeAppended<T>(before: seq<T>, l: seq<T>, word: seq<T>, r: seq<T>)
    ensures before + l + word + r == before + (l + word + r)
  {
  }

  lemma AtomAlone(before: seq<Pair>, ts: seq<Token>, pairs: seq<Pair>, rest: seq<Token>)
    requires MatchAtom(ts) == Some(Match(pairs, rest))
    ensures MatchExpr(before, ts) == Some(MatchTail(before + pairs, rest))
  {
  }

  lemma NotPrefix(ts: seq<Token>, pair: Pair, rest: seq<Token>)
    requires MatchAtom(ts) == Some(Match([pair], rest))
    ensures MatchAtom([NotWord] + ts) == Some(Match([NotPair, pair], rest))
  {
    assert ([NotWord] + ts)[1..] == ts;
    assert [NotPair] + [pair] == [NotPair, pair];
  }

  lemma OrTokens<T>(open: T, l: seq<T>, word: T, r: seq<T>, close: T, rest: seq<T>)
    ensures [open] + (l + [word] + r) + [close] + rest == [open] + l + [word] + r + [close] + rest
  {
  }

  lemma NotTokens<T>(no: T, open: T, q: seq<T>, close: T, rest: seq<T>)
    ensures [no] + ([open] + q + [close] + rest) == [no, open] + q + [close] + rest
  {
  }

  lemma AndTokens<T>(l: seq<T>, word: T, r: seq<T>, rest: seq<T>)
    ensures l + [word] + r + rest == l + ([word] + (r + rest))
  {
  }

  lemma NothingBefore<T>(s: seq<T>)
    ensures [] + s == s
  {
  }

  lemma DisjunctionMatches(ls: seq<Token>, l: seq<Pair>, rs: seq<Token>, r: seq<Pair>, rest: seq<Token>)
    requires NoPostfix(rest) && MatchAtom(rs + ([Close] + rest)).Some?
    requires var tail := rs + ([Close] + rest);
      && MatchExpr([], ls + ([OrWord] + tail)) == Some(MatchTail([] + l, [OrWord] + tail))
      && MatchExpr([] + l + [OrPair], tail) == Some(MatchTail([] + l + [OrPair] + r, [Close] + rest))
    ensures MatchAtom([Open] + ls + [OrWord] + rs + [Close] + rest) == Some(Match([Parenthesised(l + [OrPair] + r)], rest))
  {
    ConnectedMatch([], ls, l, OrWord, rs, r, [Close] + rest);
    NothingBefore(l + [OrPair] + r);
    ParenthesesMatch(l + [OrPair] + r, ls + [OrWord] + rs, rest);
    OrTokens(Open, ls, OrWord, rs, Close, rest);
  }

  lemma OrMatches(l: Predicate, r: Predicate, rest: seq<Token>)
    requires Trues(l) == 0 && Trues(r) == 0 && Supported(l) && Supported(r) && NoPostfix(rest)
    requires var rs := Tokens(r) + ([Close] + rest);
      && MatchAtom(rs).Some?
      && MatchExpr([], Tokens(l) + ([OrWord] + rs)) == Some(MatchTail([] + Chain(l), [OrWord] + rs))
      && MatchExpr([] + Chain(l) + [OrPair], rs) == Some(MatchTail([] + Chain(l) + [OrPair] + Chain(r), [Close] + rest))
    ensures MatchAtom(Tokens(Or(l, r)) + rest) == Some(Match(Chain(Or(l, r)), rest))
  {
    DisjunctionMatches(Tokens(l), Chain(l), Tokens(r), Chain(r), rest);
  }

  lemma NotMatches(q: Predicate, rest: seq<Token>)
    requires NoPostfix(rest) && MatchExpr([], Tokens(q) + ([Close] + rest)) == Some(MatchTail([] + Chain(q), [Close] + rest))
    ensures MatchAtom(Tokens(Not(q)) + rest) == Some(Match(Chain(Not(q)), rest))
  {
    NothingBefore(Chain(q));
    ParenthesesMatch(Chain(q), Tokens(q), rest);
    NotPrefix([Open] + Tokens(q) + [Close] + rest, Parenthesised(Chain(q)), rest);
    NotTokens(NotWord, Open, Tokens(q), Close, rest);
  }

  lemma AndMatches(before: seq<Pair>, l: Predicate, r: Predicate, rest: seq<Token>)
    requires var rs := Tokens(r) + rest;
      && MatchAtom(rs).Some? && MatchAtom(Tokens(l) + ([AndWord] + rs)).Some?
      && MatchExpr(before, Tokens(l) + ([AndWord] + rs)) == Some(MatchTail(before + Chain(l), [AndWord] + rs))
      && MatchExpr(before + Chain(l) + [AndPair], rs) == Some(MatchTail(before + Chain(l) + [AndPair] + Chain(r), rest))
    ensures MatchAtom(Tokens(And(l, r)) + rest).Some?
    ensures MatchExpr(before, Tokens(And(l, r)) + rest) == Some(MatchTail(before + Chain(And(l, r)), rest))
  {
    ConnectedMatch(before, Tokens(l), Chain(l), AndWord, Tokens(r), Chain(r), rest);
    AndTokens(Tokens(l), AndWord, Tokens(r), rest);
  }

  /** The tokens of a predicate without TRUE match as its chain of pairs. */
  lemma {:induction false} PrintedMatches(before: seq<Pair>, p: Predicate, rest: seq<Token>)
    requires Trues(p) == 0 && Supported(p) && NoPostfix(rest)
    ensures MatchAtom(Tokens(p) + rest).Some?
    ensures MatchExpr(before, Tokens(p) + rest) == Some(MatchTail(before + Chain(p), rest))
    decreases p
  {
    match p
    case Comparison(left, op, right) => ComparisonMatches(before, left, op, right, rest);
    case And(l, r) =>
      PrintedMatches(before, l, [AndWord] + (Tokens(r) + rest));
      PrintedMatches(before + Chain(l) + [AndPair], r, rest);
      AndMatches(before, l, r, rest);
    case Or(l, r) =>
      PrintedMatches([], l, [OrWord] + (Tokens(r) + ([Close] + rest)));
      PrintedMatches([] + Chain(l) + [OrPair], r, [Close] + rest);
      OrMatches(l, r, rest);
      AtomAlone(before, Tokens(p) + rest, Chain(p), rest);
    case Not(q) =>
      PrintedMatches([], q, [Close] + rest);
      NotMatches(q, rest);
      AtomAlone(before, Tokens(p) + rest, Chain(p), rest);
    case IsNull(e) =>
      assert (Tokens(p) + rest)[1..][1..] == rest;
      AtomAlone(before, Tokens(p) + rest, Chain(p), rest);
  }

  // ---------- what the parser makes of a chain ----------

  function ParseOperands(left: Expr, op: ComparisonOperator, right: Expr): Option<Predicate> {
    var l, r := ParseAtomicExpr(Lexeme(left)), ParseAtomicExpr(Lexeme(right));
    if l.Ok? && r.Ok? then Some(Comparison(l.value, op, r.value)) else None
  }

  /** The chain of p at the start of an expression: left to right, without precedence. `more` says
      whether pairs follow on the same level. */
  function Refold(p: Predicate, more: bool): Option<Predicate>
    decreases p, 1
  {
    match p
    case Comparison(left, op, right) => ParseOperands(left, op, right)
    case And(l, r) =>
      (match Refold(l, true)
       case Some(acc) => Append(acc, AndPair, r, more)
       case None => None)
    case Or(l, r) => RefoldInside(l, r)
    case _ => None
  }

  /** The chain of `l OR r` inside its parentheses. */
  function RefoldInside(l: Predicate, r: Predicate): Option<Predicate>
    decreases Or(l, r), 0
  {
    match Refold(l, true)
    case Some(acc) => Append(acc, OrPair, r, false)
    case None => None
  }

  /** A connective and the chain of p after what was parsed so far. A parenthesised right operand is
      accepted only at the end of the level. */
  function Append(acc: Predicate, word: Pair, p: Predicate, more: bool): Option<Predicate>
    decreases p, 2
  {
    match p
    case Comparison(left, op, right) =>
      (match ParseOperands(left, op, right)
       case Some(c) => Some(Connect(word, acc, c))
       case None => None)
    case And(l, r) =>
      (match Append(acc, word, l, true)
       case Some(next) => Append(next, AndPair, r, more)
       case None => None)
    case Or(l, r) =>
      (match RefoldInside(l, r)
       case Some(inside) => if more then None else Some(Connect(word, acc, inside))
       case None => None)
    case _ => None
  }

  function ParseStart(pairs: seq<Pair>): Result<Expr> {
    if pairs == [] then Err(MissingOperand("first"))
    else
      var first :- ParseAtomicExpr(pairs[0]);
      ParseRest(first, pairs[1..])
  }

  /** `r` is what parsing continues to from `refolded`, or an error if there is none. */
  predicate Continues(r: Result<Expr>, refolded: Option<Predicate>, tail: seq<Pair>) {
    match refolded
    case Some(q) => r == ParseRest(Nested(q), tail)
    case None => r.Err?
  }

  predicate Yields(r: Result<Predicate>, refolded: Option<Predicate>) {
    match refolded
    case Some(q) => r == Ok(q)
    case None => r.Err?
  }

  /** On the same level only a connective can follow. */
  predicate Joint(tail: seq<Pair>) {
    tail == [] || tail[0].AndPair? || tail[0].OrPair?
  }

  lemma ComparisonStarts(left: Expr, op: ComparisonOperator, right: Expr, tail: seq<Pair>)
    ensures Continues(ParseStart(Chain(Comparison(left, op, right)) + tail), ParseOperands(left, op, right), tail)
  {
    var pairs := Chain(Comparison(left, op, right)) + tail;
    assert pairs[1..][2..] == tail;
  }

  lemma ComparisonAppends(acc: Predicate, word: Pair, left: Expr, op: ComparisonOperator, right: Expr, tail: seq<Pair>)
    requires word.AndPair? || word.OrPair?
    ensures Continues(ParseRest(Nested(acc), [word] + Chain(Comparison(left, op, right)) + tail),
                      Append(acc, word, Comparison(left, op, right), tail != []), tail)
  {
    var pairs := [word] + Chain(Comparison(left, op, right)) + tail;
    assert pairs[4..] == tail;
  }

  lemma ParenthesesStart(inside: seq<Pair>, refolded: Option<Predicate>, tail: seq<Pair>)
    requires Yields(ParseExpr(inside), refolded)
    ensures Continues(ParseStart([Parenthesised(inside)] + tail), refolded, tail)
  {
    assert ([Parenthesised(inside)] + tail)[1..] == tail;
  }

  lemma ParenthesesAppend(acc: Predicate, word: Pair, inside: seq<Pair>, refolded: Option<Predicate>, tail: seq<Pair>)
    requires (word.AndPair? || word.OrPair?) && Joint(tail) && Yields(ParseExpr(inside), refolded)
    ensures Continues(ParseRest(Nested(acc), [word, Parenthesised(inside)] + tail),
                      if refolded.None? || tail != [] then None else Some(Connect(word, acc, refolded.value)), tail)
  {
    var pairs := [word, Parenthesised(inside)] + tail;
    if tail != [] {
      assert pairs[2] == tail[0];
    }
  }

  lemma UnparsableStarts(p: Predicate, tail: seq<Pair>)
    requires p.Not? || p.IsNull?
    ensures ParseStart(Chain(p) + tail).Err?
  {
    if p.IsNull? {
      assert (Chain(p) + tail)[1..][0] == IsNullPair;
    }
  }

  lemma UnparsableAppends(acc: Predicate, word: Pair, p: Predicate, tail: seq<Pair>)
    requires (p.Not? || p.IsNull?) && (word.AndPair? || word.OrPair?)
    ensures ParseRest(Nested(acc), [word] + Chain(p) + tail).Err?
  {
    var pairs := [word] + Chain(p) + tail;
    assert pairs[1] == Chain(p)[0] && pairs[2] == Chain(p)[1];
  }

  lemma OrAppends(acc: Predicate, word: Pair, l: Predicate, r: Predicate, tail: seq<Pair>)
    requires (word.AndPair? || word.OrPair?) && Joint(tail)
    requires Yields(ParseExpr(Chain(l) + [OrPair] + Chain(r)), RefoldInside(l, r))
    ensures Continues(ParseRest(Nested(acc), [word] + Chain(Or(l, r)) + tail), Append(acc, word, Or(l, r), tail != []), tail)
  {
    ParenthesesAppend(acc, word, Chain(l) + [OrPair] + Chain(r), RefoldInside(l, r), tail);
    OrIsParenthesised(word, l, r, tail);
  }

  lemma OrIsParenthesised(word: Pair, l: Predicate, r: Predicate, tail: seq<Pair>)
    ensures [word] + Chain(Or(l, r)) + tail == [word, Parenthesised(Chain(l) + [OrPair] + Chain(r))] + tail
  {
  }

  lemma AndAppends(word: Pair, l: Predicate, r: Predicate, tail: seq<Pair>)
    ensures [word] + Chain(And(l, r)) + tail == [word] + Chain(l) + ([AndPair] + Chain(r) + tail)
  {
    TwoChains([word], Chain(l), [AndPair], Chain(r), tail);
  }

  lemma TwoChains<T>(word: seq<T>, l: seq<T>, and: seq<T>, r: seq<T>, tail: seq<T>)
    ensures word + (l + and + r) + tail == word + l + (and + r + tail)
  {
  }

  lemma ThenTheRest<T>(l: seq<T>, and: seq<T>, r: seq<T>, tail: seq<T>)
    ensures l + and + r + tail == l + (and + r + tail)
  {
  }

  lemma {:induction false} StartParses(p: Predicate, tail: seq<Pair>)
    requires Trues(p) == 0 && Joint(tail)
    ensures Continues(ParseStart(Chain(p) + tail), Refold(p, tail != []), tail)
    decreases p, 1
  {
    match p
    case Comparison(left, op, right) => ComparisonStarts(left, op, right, tail);
    case And(l, r) =>
      StartParses(l, [AndPair] + Chain(r) + tail);
      ThenTheRest(Chain(l), [AndPair], Chain(r), tail);
      if Refold(l, true).Some? {
        AppendParses(Refold(l, true).value, AndPair, r, tail);
      }
    case Or(l, r) =>
      InsideParses(l, r);
      ParenthesesStart(Chain(l) + [OrPair] + Chain(r), RefoldInside(l, r), tail);
    case _ => UnparsableStarts(p, tail);
  }

  lemma {:induction false} AppendParses(acc: Predicate, word: Pair, p: Predicate, tail: seq<Pair>)
    requires Trues(p) == 0 && Joint(tail) && (word.AndPair? || word.OrPair?)
    ensures Continues(ParseRest(Nested(acc), [word] + Chain(p) + tail), Append(acc, word, p, tail != []), tail)
    decreases p, 2
  {
    match p
    case Comparison(left, op, right) => ComparisonAppends(acc, word, left, op, right, tail);
    case And(l, r) =>
      AppendParses(acc, word, l, [AndPair] + Chain(r) + tail);
      AndAppends(word, l, r, tail);
      if Append(acc, word, l, true).Some? {
        AppendParses(Append(acc, word, l, true).value, AndPair, r, tail);
      }
    case Or(l, r) =>
      InsideParses(l, r);
      OrAppends(acc, word, l, r, tail);
    case _ => UnparsableAppends(acc, word, p, tail);
  }

  lemma NothingAfter<T>(l: seq<T>, word: seq<T>, r: seq<T>)
    ensures l + (word + r + []) == l + word + r
  {
  }

  lemma {:induction false} InsideParses(l: Predicate, r: Predicate)
    requires Trues(l) == 0 && Trues(r) == 0
    ensures Yields(ParseExpr(Chain(l) + [OrPair] + Chain(r)), RefoldInside(l, r))
    decreases Or(l, r), 0
  {
    var rest := [OrPair] + Chain(r) + [];
    StartParses(l, rest);
    NothingAfter(Chain(l), [OrPair], Chain(r));
    if Refold(l, true).Some? {
      AppendParses(Refold(l, true).value, OrPair, r, []);
    }
  }

  lemma WholeMatch(ts: seq<Token>, pairs: seq<Pair>)
    requires MatchExpr([], ts) == Some(MatchTail(pairs, []))
    ensures ParseTokens(ts) == ParseExpr(pairs)
  {
  }

  lemma WholeLevel(pairs: seq<Pair>, refolded: Option<Predicate>)
    requires Continues(ParseStart(pairs), refolded, [])
    ensures Yields(ParseExpr(pairs), refolded)
  {
  }

  /** Parsing the printed tokens gives the refolded predicate or fails where there is none. */
  lemma PrintedParses(p: Predicate)
    requires Trues(p) == 0 && Supported(p)
    ensures Yields(ParseTokens(Tokens(p)), Refold(p, false))
  {
    PrintedMatches([], p, []);
    assert Tokens(p) + [] == Tokens(p) && [] + Chain(p) == Chain(p) && Chain(p) + [] == Chain(p);
    WholeMatch(Tokens(p), Chain(p));
    StartParses(p, []);
    WholeLevel(Chain(p), Refold(p, false));
  }

  // ---------- which predicates come back ----------

  function QuoteExpr(e: Expr): Expr {
    match e
    case Name(Property(name)) => Name(Property(Quoted(name)))
    case Name(CollectionProperty(collection, name)) => Name(CollectionProperty(Quoted(collection), Quoted(name)))
    case _ => e
  }

  /** The predicate with every identifier in the double quotes the printer adds and the parser keeps. */
  function QuoteNames(p: Predicate): Predicate {
    match p
    case Comparison(left, op, right) => Comparison(QuoteExpr(left), op, QuoteExpr(right))
    case And(l, r) => And(QuoteNames(l), QuoteNames(r))
    case Or(l, r) => Or(QuoteNames(l), QuoteNames(r))
    case Not(q) => Not(QuoteNames(q))
    case IsNull(e) => IsNull(QuoteExpr(e))
    case True => True
  }

  /** Operands whose text the parser reads back: identifiers, strings, and integers without a sign. */
  predicate Readable(e: Expr) {
    e.Name? || (e.Constant? && (e.literal.String? || (e.literal.Integer? && e.literal.i >= 0)))
  }

  predicate EndsInParentheses(p: Predicate) {
    p.And? && p.r.Or?
  }

  /** Comparisons of readable operands, joined so that no right operand is an AND, and a right operand
      OR is the last thing on its level. */
  predicate ComesBack(p: Predicate) {
    match p
    case Comparison(left, op, right) => Readable(left) && Readable(right)
    case And(l, r) => ComesBack(l) && ComesBack(r) && !r.And? && !EndsInParentheses(l)
    case Or(l, r) => ComesBack(l) && ComesBack(r) && !r.And? && !EndsInParentheses(l)
    case _ => false
  }

  lemma OperandReadsBack(e: Expr)
    requires Simple(e)
    ensures ParseAtomicExpr(Lexeme(e)) == Ok(QuoteExpr(e)) <==> Readable(e)
  {
    match e
    case Constant(String(s)) =>
      var raw := LiteralSql(e.literal);
      assert raw[0] == 39 && raw[|raw| - 1] == 39 && raw[1..|raw| - 1] == s;
    case Constant(Integer(i)) =>
      if i >= 0 {
        DecimalReadsBack(i);
      }
    case _ =>
  }

  /** What becomes of the others: a double without a point comes back as an integer, NaN and the infinities
      as names, and everything else is refused. */
  lemma UnreadableOperandsBecome(e: Expr)
    requires Simple(e) && !Readable(e)
    ensures var r := ParseAtomicExpr(Lexeme(e));
      if !e.literal.Float? then r.Err?
      else
        var t := e.literal.shown;
        if t != [] && AllDigits(t) then if DigitsValue(t) < 0x8000_0000_0000_0000 then r == Ok(Constant(Integer(DigitsValue(t)))) else r.Err?
        else if t == [78, 97, 78] || t == [105, 110, 102] || t == [45, 105, 110, 102] then r == Ok(Name(Property(t)))
        else r.Err?
  {
    assert Ascii("NaN") == [78, 97, 78] && Ascii("inf") == [105, 110, 102] && Ascii("-inf") == [45, 105, 110, 102];
  }

  function Comparisons(p: Predicate): nat {
    match p
    case And(l, r) => Comparisons(l) + Comparisons(r)
    case Or(l, r) => Comparisons(l) + Comparisons(r)
    case _ => 1
  }

  /** Parsing keeps the number of comparisons, and what follows an operator stays on its right, but
      an appended AND is torn apart: only its last factor ends up as the right operand. */
  lemma {:induction false} RefoldCounts(p: Predicate, more: bool)
    ensures Refold(p, more).Some? ==> Comparisons(Refold(p, more).value) == Comparisons(p)
    decreases p, 1
  {
    match p
    case And(l, r) =>
      RefoldCounts(l, true);
      if Refold(l, true).Some? {
        AppendCounts(Refold(l, true).value, AndPair, r, more);
      }
    case Or(l, r) => InsideCounts(l, r);
    case _ =>
  }

  lemma {:induction false} InsideCounts(l: Predicate, r: Predicate)
    ensures RefoldInside(l, r).Some? ==> Comparisons(RefoldInside(l, r).value) == Comparisons(l) + Comparisons(r)
    decreases Or(l, r), 0
  {
    RefoldCounts(l, true);
    if Refold(l, true).Some? {
      AppendCounts(Refold(l, true).value, OrPair, r, false);
    }
  }

  lemma {:induction false} AppendCounts(acc: Predicate, word: Pair, p: Predicate, more: bool)
    ensures var q := Append(acc, word, p, more);
      q.Some? ==>
        && Comparisons(q.value) == Comparisons(acc) + Comparisons(p)
        && (q.value.And? || q.value.Or?)
        && Comparisons(q.value.r) <= Comparisons(p)
        && (p.And? ==> Comparisons(q.value.r) < Comparisons(p))
    decreases p, 2
  {
    match p
    case And(l, r) =>
      AppendCounts(acc, word, l, true);
      if Append(acc, word, l, true).Some? {
        AppendCounts(Append(acc, word, l, true).value, AndPair, r, more);
      }
      ComparisonsPositive(l);
    case Or(l, r) => InsideCounts(l, r);
    case _ =>
  }

  lemma {:induction false} ComparisonsPositive(p: Predicate)
    ensures Comparisons(p) >= 1
  {
    match p
    case And(l, r) => ComparisonsPositive(l);
    case Or(l, r) => ComparisonsPositive(l);
    case _ =>
  }

  lemma {:induction false} QuotingCounts(p: Predicate)
    ensures Comparisons(QuoteNames(p)) == Comparisons(p)
  {
    match p
    case And(l, r) =>
      QuotingCounts(l);
      QuotingCounts(r);
    case Or(l, r) =>
      QuotingCounts(l);
      QuotingCounts(r);
    case _ =>
  }

  lemma {:induction false} RefoldIsQuotedIff(p: Predicate, more: bool)
    requires Supported(p)
    ensures Refold(p, more) == Some(QuoteNames(p)) <==> ComesBack(p) && (more ==> !EndsInParentheses(p))
    decreases p, 1
  {
    match p
    case Comparison(left, op, right) =>
      OperandReadsBack(left);
      OperandReadsBack(right);
    case And(l, r) =>
      RefoldIsQuotedIff(l, true);
      if Refold(l, true).Some? {
        AppendIsQuotedIff(Refold(l, true).value, AndPair, l, r, more);
      }
    case Or(l, r) => InsideIsQuotedIff(l, r);
    case _ =>
  }

  lemma {:induction false} InsideIsQuotedIff(l: Predicate, r: Predicate)
    requires Supported(l) && Supported(r)
    ensures RefoldInside(l, r) == Some(QuoteNames(Or(l, r))) <==> ComesBack(Or(l, r))
    decreases Or(l, r), 0
  {
    RefoldIsQuotedIff(l, true);
    if Refold(l, true).Some? {
      AppendIsQuotedIff(Refold(l, true).value, OrPair, l, r, false);
    }
  }

  lemma {:induction false} AppendIsQuotedIff(acc: Predicate, word: Pair, l: Predicate, r: Predicate, more: bool)
    requires Supported(r)
    ensures Append(acc, word, r, more) == Some(Connect(word, QuoteNames(l), QuoteNames(r))) <==>
      acc == QuoteNames(l) && ComesBack(r) && !r.And? && (more ==> !r.Or?)
    decreases r, 2
  {
    match r
    case Comparison(left, op, right) => AppendedComparisonIsQuotedIff(acc, word, l, left, op, right, more);
    case And(_, _) =>
      AppendCounts(acc, word, r, more);
      QuotingCounts(r);
    case Or(a, b) => InsideIsQuotedIff(a, b);
    case _ =>
  }

  lemma AppendedComparisonIsQuotedIff(acc: Predicate, word: Pair, l: Predicate, left: Expr, op: ComparisonOperator, right: Expr, more: bool)
    requires Simple(left) && Basic(op) && Simple(right)
    ensures var r := Comparison(left, op, right);
      Append(acc, word, r, more) == Some(Connect(word, QuoteNames(l), QuoteNames(r))) <==> acc == QuoteNames(l) && ComesBack(r)
  {
    OperandReadsBack(left);
    OperandReadsBack(right);
  }

  /** The round trip, exactly: printing and parsing gives the same tree, with the identifiers quoted,
      if and only if the predicate is in the class `ComesBack`. */
  lemma RoundTripIffComesBack(p: Predicate)
    requires Supported(p)
    ensures ParseTokens(Tokens(p)) == Ok(QuoteNames(p)) <==> ComesBack(p)
  {
    if Trues(p) == 0 {
      PrintedParses(p);
      RefoldIsQuotedIff(p, false);
    } else {
      ExcessOfTokens(p);
      TruesDoNotComeBack(p);
    }
  }

  lemma {:induction false} TruesDoNotComeBack(p: Predicate)
    requires Trues(p) > 0
    ensures !ComesBack(p)
  {
    match p
    case And(l, r) =>
      if Trues(l) > 0 { TruesDoNotComeBack(l); } else { TruesDoNotComeBack(r); }
    case Or(l, r) =>
      if Trues(l) > 0 { TruesDoNotComeBack(l); } else { TruesDoNotComeBack(r); }
    case _ =>
  }

  predicate HasName(p: Predicate) {
    match p
    case Comparison(left, _, right) => left.Name? || right.Name?
    case And(l, r) => HasName(l) || HasName(r)
    case Or(l, r) => HasName(l) || HasName(r)
    case Not(q) => HasName(q)
    case IsNull(e) => e.Name?
    case True => false
  }

  lemma QuotingChangesExpr(e: Expr)
    ensures QuoteExpr(e) == e <==> !e.Name?
  {
    if e.Name? {
      assert |Quoted(e.identifier.name)| == |e.identifier.name| + 2;
    }
  }

  lemma {:induction false} QuotingChangesNames(p: Predicate)
    ensures QuoteNames(p) == p <==> !HasName(p)
  {
    match p
    case And(l, r) =>
      QuotingChangesNames(l);
      QuotingChangesNames(r);
    case Or(l, r) =>
      QuotingChangesNames(l);
      QuotingChangesNames(r);
    case Not(q) => QuotingChangesNames(q);
    case Comparison(left, _, right) =>
      QuotingChangesExpr(left);
      QuotingChangesExpr(right);
    case IsNull(e) => QuotingChangesExpr(e);
    case True =>
  }

  /** To the letter, a predicate in the class comes back unchanged only if it names no field. */
  lemma LiteralRoundTripIffNameless(p: Predicate)
    requires Supported(p) && ComesBack(p)
    ensures ParseTokens(Tokens(p)) == Ok(p) <==> !HasName(p)
  {
    RoundTripIffComesBack(p);
    QuotingChangesNames(p);
  }
}
