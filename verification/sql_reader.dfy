/** Reading a printed condition the way SQL does: the search condition grammar of section 8.12 of
    ISO/IEC 9075:1992, where AND binds tighter than OR, NOT tighter than both, and chains associate
    to the left. */
module SqlReader {
  import opened Bytes
  import opened Ast
  import opened Filter
  import opened Printer

  /** How often NOT stands directly before a closing parenthesis, where no condition may end. */
  function Strays(ts: seq<Token>): nat {
    if ts == [] then 0
    else (if |ts| >= 2 && ts[0].NotWord? && ts[1].Close? then 1 else 0) + Strays(ts[1..])
  }

  datatype Reading = Reading(p: Predicate, rest: seq<Token>)

  function ReadCondition(ts: seq<Token>): (r: Option<Reading>)
    ensures r.Some? ==> |r.value.rest| < |ts| && Excess(ts) == Excess(r.value.rest) + 1 && Strays(ts) == Strays(r.value.rest)
    decreases |ts|, 3
  {
    match ReadTerm(ts)
    case Some(first) => ReadConditionTail(first.p, first.rest)
    case None => None
  }

  function ReadConditionTail(acc: Predicate, ts: seq<Token>): (r: Option<Reading>)
    ensures r.Some? ==> |r.value.rest| <= |ts| && Excess(ts) == Excess(r.value.rest) && Strays(ts) == Strays(r.value.rest)
    decreases |ts|, 4
  {
    if ts == [] || !ts[0].OrWord? then Some(Reading(acc, ts))
    else match ReadTerm(ts[1..])
      case Some(next) => ReadConditionTail(Or(acc, next.p), next.rest)
      case None => None
  }

  function ReadTerm(ts: seq<Token>): (r: Option<Reading>)
    ensures r.Some? ==> |r.value.rest| < |ts| && Excess(ts) == Excess(r.value.rest) + 1 && Strays(ts) == Strays(r.value.rest)
    decreases |ts|, 2
  {
    match ReadFactor(ts)
    case Some(first) => ReadTermTail(first.p, first.rest)
    case None => None
  }

  function ReadTermTail(acc: Predicate, ts: seq<Token>): (r: Option<Reading>)
    ensures r.Some? ==> |r.value.rest| <= |ts| && Excess(ts) == Excess(r.value.rest) && Strays(ts) == Strays(r.value.rest)
    decreases |ts|, 3
  {
    if ts == [] || !ts[0].AndWord? then Some(Reading(acc, ts))
    else match ReadFactor(ts[1..])
      case Some(next) => ReadTermTail(And(acc, next.p), next.rest)
      case None => None
  }

  function ReadFactor(ts: seq<Token>): (r: Option<Reading>)
    ensures r.Some? ==> |r.value.rest| < |ts| && Excess(ts) == Excess(r.value.rest) + 1 && Strays(ts) == Strays(r.value.rest)
    decreases |ts|, 1
  {
    if ts != [] && ts[0].NotWord? then
      match ReadPrimary(ts[1..])
      case Some(inner) => Some(Reading(Not(inner.p), inner.rest))
      case None => None
    else ReadPrimary(ts)
  }

  function ReadPrimary(ts: seq<Token>): (r: Option<Reading>)
    ensures r.Some? ==> |r.value.rest| < |ts| && Excess(ts) == Excess(r.value.rest) + 1 && Strays(ts) == Strays(r.value.rest)
    decreases |ts|, 0
  {
    if ts == [] then None
    else if ts[0].Open? then
      match ReadCondition(ts[1..])
      case Some(inner) =>
        if inner.rest != [] && inner.rest[0].Close? then Some(Reading(inner.p, inner.rest[1..])) else None
      case None => None
    else if |ts| >= 3 && ts[0].Operand? && ts[1].Op? && ts[2].Operand? then
      assert ts[1..][1..] == ts[2..] && ts[2..][1..] == ts[3..];
      assert Excess(ts) == 1 + Excess(ts[1..]) && Excess(ts[1..]) == -1 + Excess(ts[2..]);
      assert Strays(ts) == Strays(ts[1..]) && Strays(ts[1..]) == Strays(ts[2..]);
      Some(Reading(Comparison(ts[0].expr, ts[1].op, ts[2].expr), ts[3..]))
    else if |ts| >= 2 && ts[0].Operand? && ts[1].IsNullWords? then
      assert ts[1..][1..] == ts[2..];
      assert Excess(ts) == 1 + Excess(ts[1..]) && Strays(ts) == Strays(ts[1..]);
      Some(Reading(IsNull(ts[0].expr), ts[2..]))
    else if ts[0].TrueWord? then Some(Reading(True, ts[1..]))
    else None
  }

  /** A whole condition. */
  function ReadSelection(ts: seq<Token>): Option<Predicate> {
    match ReadCondition(ts)
    case Some(r) => if r.rest == [] then Some(r.p) else None
    case None => None
  }

  // ---------- what correct SQL text reads as ----------

  /** The predicate with its AND chains re-associated to the left. */
  function Regrouped(p: Predicate): Predicate
    decreases p, 0
  {
    match p
    case And(l, r) => Joined(Regrouped(l), r)
    case Or(l, r) => Or(Regrouped(l), Regrouped(r))
    case Not(q) => Not(Regrouped(q))
    case _ => p
  }

  /** `acc AND p` with the conjuncts of p appended one by one. */
  function Joined(acc: Predicate, p: Predicate): Predicate
    decreases p, 1
  {
    match p
    case And(l, r) => Joined(Joined(acc, l), r)
    case _ => And(acc, Regrouped(p))
  }

  /** The tokens of correct SQL text: like the printed ones, with TRUE spelled out. */
  function Rendered(p: Predicate): seq<Token> {
    match p
    case Comparison(left, op, right) => [Operand(left), Op(op), Operand(right)]
    case And(l, r) => Rendered(l) + [AndWord] + Rendered(r)
    case Or(l, r) => [Open] + Rendered(l) + [OrWord] + Rendered(r) + [Close]
    case Not(q) => [NotWord, Open] + Rendered(q) + [Close]
    case IsNull(e) => [Operand(e), IsNullWords]
    case True => [TrueWord]
  }

  lemma AndTokensSplit<T>(l: seq<T>, word: T, r: seq<T>, rest: seq<T>)
    ensures l + [word] + r + rest == l + ([word] + r + rest)
    ensures [word] + (l + [word] + r) + rest == [word] + l + ([word] + r + rest)
  {
  }

  lemma {:induction false} TermReads(p: Predicate, rest: seq<Token>)
    ensures ReadTerm(Rendered(p) + rest) == ReadTermTail(Regrouped(p), rest)
    decreases p, 1
  {
    match p
    case And(l, r) =>
      AndTokensSplit(Rendered(l), AndWord, Rendered(r), rest);
      TermReads(l, [AndWord] + Rendered(r) + rest);
      TailReads(Regrouped(l), r, rest);
    case _ => FactorReads(p, rest);
  }

  lemma TailStep(acc: Predicate, ts: seq<Token>, q: Predicate, rest: seq<Token>)
    requires ReadFactor(ts) == Some(Reading(q, rest))
    ensures ReadTermTail(acc, [AndWord] + ts) == ReadTermTail(And(acc, q), rest)
  {
    assert ([AndWord] + ts)[1..] == ts;
  }

  lemma {:induction false} TailReads(acc: Predicate, p: Predicate, rest: seq<Token>)
    ensures ReadTermTail(acc, [AndWord] + Rendered(p) + rest) == ReadTermTail(Joined(acc, p), rest)
    decreases p, 1
  {
    if p.And? {
      AndTokensSplit(Rendered(p.l), AndWord, Rendered(p.r), rest);
      TailReads(acc, p.l, [AndWord] + Rendered(p.r) + rest);
      TailReads(Joined(acc, p.l), p.r, rest);
    } else {
      FactorReads(p, rest);
      TailStep(acc, Rendered(p) + rest, Regrouped(p), rest);
      Associate([AndWord], Rendered(p), rest);
    }
  }

  /** Neither connective follows. */
  predicate Ends(rest: seq<Token>) {
    rest == [] || rest[0].Close?
  }

  lemma ConditionReads(p: Predicate, ts: seq<Token>, rest: seq<Token>)
    requires Ends(rest) && ReadTerm(ts) == ReadTermTail(Regrouped(p), rest)
    ensures ReadCondition(ts) == Some(Reading(Regrouped(p), rest))
  {
  }

  lemma DisjunctionReads(l: Predicate, r: Predicate, ts: seq<Token>, right: seq<Token>, rest: seq<Token>)
    requires Ends(rest)
    requires ReadTerm(ts) == ReadTermTail(Regrouped(l), [OrWord] + right)
    requires ReadTerm(right) == ReadTermTail(Regrouped(r), rest)
    ensures ReadCondition(ts) == Some(Reading(Or(Regrouped(l), Regrouped(r)), rest))
  {
    var p, tail := Or(Regrouped(l), Regrouped(r)), [OrWord] + right;
    assert tail[1..] == right;
    assert ReadTermTail(Regrouped(l), tail) == Some(Reading(Regrouped(l), tail));
    assert ReadTermTail(Regrouped(r), rest) == Some(Reading(Regrouped(r), rest));
    assert ReadConditionTail(p, rest) == Some(Reading(p, rest));
  }

  lemma ParenthesesRead(q: Predicate, inside: seq<Token>, rest: seq<Token>)
    requires ReadCondition(inside) == Some(Reading(q, [Close] + rest))
    ensures ReadPrimary([Open] + inside) == Some(Reading(q, rest))
  {
    assert ([Open] + inside)[1..] == inside;
    assert ([Close] + rest)[1..] == rest;
  }

  lemma NegationReads(q: Predicate, ts: seq<Token>, rest: seq<Token>)
    requires ReadPrimary(ts) == Some(Reading(q, rest))
    ensures ReadFactor([NotWord] + ts) == Some(Reading(Not(q), rest))
  {
    assert ([NotWord] + ts)[1..] == ts;
  }

  lemma OrTokensSplit<T>(open: T, l: seq<T>, word: T, r: seq<T>, close: T, rest: seq<T>)
    ensures [open] + (l + ([word] + (r + ([close] + rest)))) == [open] + l + [word] + r + [close] + rest
    ensures [word] + r + ([close] + rest) == [word] + (r + ([close] + rest))
  {
  }

  lemma NotTokensSplit<T>(no: T, open: T, q: seq<T>, close: T, rest: seq<T>)
    ensures [no] + ([open] + (q + ([close] + rest))) == [no, open] + q + [close] + rest
  {
  }

  lemma OrReads(l: Predicate, r: Predicate, rest: seq<Token>)
    requires ReadTerm(Rendered(l) + ([OrWord] + Rendered(r) + ([Close] + rest))) == ReadTermTail(Regrouped(l), [OrWord] + Rendered(r) + ([Close] + rest))
    requires ReadTerm(Rendered(r) + ([Close] + rest)) == ReadTermTail(Regrouped(r), [Close] + rest)
    ensures ReadPrimary(Rendered(Or(l, r)) + rest) == Some(Reading(Regrouped(Or(l, r)), rest))
  {
    var right := Rendered(r) + ([Close] + rest);
    var inside := Rendered(l) + ([OrWord] + right);
    OrTokensSplit(Open, Rendered(l), OrWord, Rendered(r), Close, rest);
    DisjunctionReads(l, r, inside, right, [Close] + rest);
    ParenthesesRead(Regrouped(Or(l, r)), inside, rest);
  }

  lemma NotReads(q: Predicate, rest: seq<Token>)
    requires ReadTerm(Rendered(q) + ([Close] + rest)) == ReadTermTail(Regrouped(q), [Close] + rest)
    ensures ReadFactor(Rendered(Not(q)) + rest) == Some(Reading(Regrouped(Not(q)), rest))
  {
    var inside := Rendered(q) + ([Close] + rest);
    NotTokensSplit(NotWord, Open, Rendered(q), Close, rest);
    ConditionReads(q, inside, [Close] + rest);
    ParenthesesRead(Regrouped(q), inside, rest);
    NegationReads(Regrouped(q), [Open] + inside, rest);
  }

  lemma {:induction false} FactorReads(p: Predicate, rest: seq<Token>)
    requires !p.And?
    ensures ReadFactor(Rendered(p) + rest) == Some(Reading(Regrouped(p), rest))
    decreases p, 0
  {
    match p
    case Comparison(left, op, right) => assert (Rendered(p) + rest)[3..] == rest;
    case IsNull(e) => assert (Rendered(p) + rest)[2..] == rest;
    case Or(l, r) =>
      TermReads(l, [OrWord] + Rendered(r) + ([Close] + rest));
      TermReads(r, [Close] + rest);
      OrReads(l, r, rest);
      assert ReadFactor(Rendered(p) + rest) == ReadPrimary(Rendered(p) + rest);
    case Not(q) =>
      TermReads(q, [Close] + rest);
      NotReads(q, rest);
    case True => assert (Rendered(p) + rest)[1..] == rest;
  }

  /** Read with SQL's precedence, every predicate's text is that predicate up to re-association of AND. */
  lemma RenderedReadsBack(p: Predicate)
    ensures ReadSelection(Rendered(p)) == Some(Regrouped(p))
  {
    assert Rendered(p) + [] == Rendered(p);
    TermReads(p, []);
    ConditionReads(p, Rendered(p), []);
  }

  lemma {:induction false} PrintedIsRendered(p: Predicate)
    requires Trues(p) == 0
    ensures Tokens(p) == Rendered(p)
  {
    match p
    case And(l, r) =>
      PrintedIsRendered(l);
      PrintedIsRendered(r);
    case Or(l, r) =>
      PrintedIsRendered(l);
      PrintedIsRendered(r);
    case Not(q) => PrintedIsRendered(q);
    case _ =>
  }

  /** Read with SQL's precedence, the text printed for a predicate without TRUE is that predicate up
      to re-association of AND; a predicate with TRUE in it prints text that is no condition. */
  lemma PrintedTokensReadBack(p: Predicate)
    ensures ReadSelection(Tokens(p)) == if Trues(p) == 0 then Some(Regrouped(p)) else None
  {
    if Trues(p) == 0 {
      PrintedIsRendered(p);
      RenderedReadsBack(p);
    } else {
      ExcessOfTokens(p);
    }
  }

  // ---------- re-association does not change the meaning ----------

  lemma {:induction false} JoinedMeansAnd(item: Entity, acc: Predicate, p: Predicate)
    ensures EvaluatePredicate(item, Joined(acc, p)) == EvaluatePredicate(item, And(acc, p))
    decreases p, 1
  {
    match p
    case And(l, r) =>
      JoinedMeansAnd(item, Joined(acc, l), r);
      JoinedMeansAnd(item, acc, l);
    case _ => RegroupedMeansTheSame(item, p);
  }

  /** The regrouped predicate evaluates alike on every item, errors and panics included. */
  lemma {:induction false} RegroupedMeansTheSame(item: Entity, p: Predicate)
    ensures EvaluatePredicate(item, Regrouped(p)) == EvaluatePredicate(item, p)
    decreases p, 0
  {
    match p
    case And(l, r) =>
      JoinedMeansAnd(item, Regrouped(l), r);
      RegroupedMeansTheSame(item, l);
    case Or(l, r) =>
      RegroupedMeansTheSame(item, l);
      RegroupedMeansTheSame(item, r);
    case Not(q) => RegroupedMeansTheSame(item, q);
    case _ =>
  }
}
