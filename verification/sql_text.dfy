/** Reading SQL text byte by byte: the lexical rules of section 5 of ISO/IEC 9075:1992, as far as printed
    conditions need them, and what the printed text of a predicate says when it is read. */
module SqlText {
  import opened Bytes
  import opened Ast
  import opened Filter
  import opened Printer
  import opened SqlReader
  import opened ThreeValued

  // ---------- the lexer ----------

  predicate IsLetter(b: Byte) { 65 <= b <= 90 || 97 <= b <= 122 }

  /** Digits, the decimal point and the minus sign. */
  predicate IsNumberByte(b: Byte) { IsDigit(b) || b == 45 || b == 46 }

  predicate NoDoubleQuote(b: Byte) { b != 34 }

  predicate NoSingleQuote(b: Byte) { b != 39 }

  /** Digits, with a minus sign before and a decimal point and more digits after them if need be. */
  predicate Numeric(t: Text) {
    var unsigned := Unsigned(t);
    var n := RunLength(IsDigit, unsigned);
    n > 0 && (n == |unsigned| || (unsigned[n] == 46 && n + 1 < |unsigned| && AllDigits(unsigned[n + 1..])))
  }

  predicate Negative(t: Text) { t != [] && t[0] == 45 }

  function Unsigned(t: Text): Text {
    if Negative(t) then t[1..] else t
  }

  function Signed(negative: bool, n: int): int {
    if negative then -n else n
  }

  /** The integer that prints as t, or else a number known by its text only. */
  function NumberLiteral(t: Text): (lit: Literal)
    requires Numeric(t)
  {
    var digits := Unsigned(t);
    if AllDigits(digits) && (digits[0] != 48 || t == [48]) then
      var value := Signed(Negative(t), DigitsValue(digits));
      if -0x8000_0000_0000_0000 <= value < 0x8000_0000_0000_0000 then Integer(value) else Float(0, t)
    else Float(0, t)
  }

  datatype Next = Next(token: Token, rest: Text)

  function NextOperator(t: Text): (r: Option<Next>)
    requires t != []
    ensures r.Some? ==> |r.value.rest| < |t|
  {
    if |t| >= 2 && t[0] == 60 && t[1] == 61 then Some(Next(Op(LessThanOrEqual), t[2..]))
    else if |t| >= 2 && t[0] == 60 && t[1] == 62 then Some(Next(Op(NotEqual), t[2..]))
    else if |t| >= 2 && t[0] == 62 && t[1] == 61 then Some(Next(Op(GreaterThanOrEqual), t[2..]))
    else if t[0] == 60 then Some(Next(Op(LessThan), t[1..]))
    else if t[0] == 62 then Some(Next(Op(GreaterThan), t[1..]))
    else if t[0] == 61 then Some(Next(Op(Equal), t[1..]))
    else None
  }

  datatype Delimited = Delimited(inside: Text, rest: Text)

  /** What stands between two quotes; a doubled quote, which would stand for itself, is not read. */
  function NextDelimited(kind: Byte -> bool, t: Text): (r: Option<Delimited>)
    requires t != []
    ensures r.Some? ==> |r.value.rest| < |t|
  {
    var n := RunLength(kind, t[1..]);
    if n == |t[1..]| then None
    else
      var rest := t[1..][n..][1..];
      if rest != [] && rest[0] == t[0] then None else Some(Delimited(t[1..][..n], rest))
  }

  /** `"name"` or `"collection"."name"` */
  function NextName(t: Text): (r: Option<Next>)
    requires t != []
    ensures r.Some? ==> |r.value.rest| < |t|
  {
    match NextDelimited(NoDoubleQuote, t)
    case None => None
    case Some(first) =>
      if |first.rest| < 2 || first.rest[0] != 46 then Some(Next(Operand(Name(Property(first.inside))), first.rest))
      else if first.rest[1] != 34 then None
      else match NextDelimited(NoDoubleQuote, first.rest[1..])
        case None => None
        case Some(second) => Some(Next(Operand(Name(CollectionProperty(first.inside, second.inside))), second.rest))
  }

  function NextString(t: Text): (r: Option<Next>)
    requires t != []
    ensures r.Some? ==> |r.value.rest| < |t|
  {
    match NextDelimited(NoSingleQuote, t)
    case None => None
    case Some(s) => Some(Next(Operand(Constant(Literal.String(s.inside))), s.rest))
  }

  function NextNumber(t: Text): (r: Option<Next>)
    ensures r.Some? ==> |r.value.rest| < |t|
  {
    var n := RunLength(IsNumberByte, t);
    if Numeric(t[..n]) then Some(Next(Operand(Constant(NumberLiteral(t[..n]))), t[n..])) else None
  }

  datatype Place = Place(n: nat, rest: Text)

  /** The number at the start of a text. */
  function PlaceOf(t: Text): (r: Option<Place>)
    ensures r.Some? ==> |r.value.rest| < |t|
  {
    var n := RunLength(IsDigit, t);
    if n == 0 || !AllDigits(t[..n]) then None else Some(Place(DigitsValue(t[..n]), t[n..]))
  }

  /** `$n` stands for the n-th argument, counting from 1. */
  function NextParameter(t: Text, args: seq<Literal>): (r: Option<Next>)
    requires t != []
    ensures r.Some? ==> |r.value.rest| < |t|
  {
    match PlaceOf(t[1..])
    case None => None
    case Some(place) =>
      if 1 <= place.n <= |args| then Some(Next(Operand(Constant(args[place.n - 1])), place.rest)) else None
  }

  /** AND, OR, NOT, IS NULL, TRUE, true and false; a run of letters is one word. */
  function NextWord(t: Text): (r: Option<Next>)
    requires t != [] && IsLetter(t[0])
    ensures r.Some? ==> |r.value.rest| < |t|
  {
    var n := RunLength(IsLetter, t);
    var word, rest := t[..n], t[n..];
    if word == [65, 78, 68] then Some(Next(AndWord, rest))
    else if word == [79, 82] then Some(Next(OrWord, rest))
    else if word == [78, 79, 84] then Some(Next(NotWord, rest))
    else if word == [84, 82, 85, 69] then Some(Next(TrueWord, rest))
    else if word == [116, 114, 117, 101] then Some(Next(Operand(Constant(Boolean(true))), rest))
    else if word == [102, 97, 108, 115, 101] then Some(Next(Operand(Constant(Boolean(false))), rest))
    else if word == [73, 83] then NextNull(rest)
    else None
  }

  /** What follows IS. */
  function NextNull(t: Text): (r: Option<Next>)
    ensures r.Some? ==> |r.value.rest| < |t|
  {
    if t == [] || t[0] != 32 then None
    else
      var n := RunLength(IsLetter, t[1..]);
      if t[1..][..n] == [78, 85, 76, 76] then Some(Next(IsNullWords, t[1..][n..])) else None
  }

  function NextToken(t: Text, args: seq<Literal>): (r: Option<Next>)
    requires t != []
    ensures r.Some? ==> |r.value.rest| < |t|
  {
    var b := t[0];
    if b == 40 then Some(Next(Open, t[1..]))
    else if b == 41 then Some(Next(Close, t[1..]))
    else if 60 <= b <= 62 then NextOperator(t)
    else if b == 34 then NextName(t)
    else if b == 39 then NextString(t)
    else if b == 36 then NextParameter(t, args)
    else if IsNumberByte(b) then NextNumber(t)
    else if IsLetter(b) then NextWord(t)
    else None
  }

  function Chained<T>(a: Option<seq<T>>, b: Option<seq<T>>): Option<seq<T>> {
    if a.None? || b.None? then None else Some(a.value + b.value)
  }

  /** The tokens of a text; spaces separate and mean nothing else. */
  function Lex(t: Text, args: seq<Literal>): Option<seq<Token>>
    decreases |t|
  {
    if t == [] then Some([])
    else if t[0] == 32 then Lex(t[1..], args)
    else match NextToken(t, args)
      case Some(next) => Chained(Some([next.token]), Lex(next.rest, args))
      case None => None
  }

  /** What a text says as a condition with these arguments. */
  function ReadText(t: Text, args: seq<Literal>): Option<Predicate> {
    match Lex(t, args)
    case Some(ts) => ReadSelection(ts)
    case None => None
  }

  // ---------- reading a text piece by piece ----------

  /** Before this rest, the text reads as these tokens, or makes the whole unreadable. */
  predicate ReadsAs(text: Text, ts: Option<seq<Token>>, rest: Text, args: seq<Literal>) {
    Lex(text + rest, args) == Chained(ts, Lex(rest, args))
  }

  lemma ChainedAssociates<T>(a: Option<seq<T>>, b: Option<seq<T>>, c: Option<seq<T>>)
    ensures Chained(Chained(a, b), c) == Chained(a, Chained(b, c))
  {
    if a.Some? && b.Some? && c.Some? {
      Associate(a.value, b.value, c.value);
    }
  }

  lemma OneAfterTheOther(a: Text, x: Option<seq<Token>>, b: Text, y: Option<seq<Token>>, rest: Text, args: seq<Literal>)
    requires ReadsAs(a, x, b + rest, args) && ReadsAs(b, y, rest, args)
    ensures ReadsAs(a + b, Chained(x, y), rest, args)
  {
    Associate(a, b, rest);
    ChainedAssociates(x, y, Lex(rest, args));
  }

  lemma NothingReads(rest: Text, args: seq<Literal>)
    ensures ReadsAs([], Some([]), rest, args)
  {
    assert [] + rest == rest;
    if Lex(rest, args).Some? {
      assert [] + Lex(rest, args).value == Lex(rest, args).value;
    }
  }

  lemma SpaceReads(rest: Text, args: seq<Literal>)
    ensures ReadsAs([32], Some([]), rest, args)
  {
    assert ([32] + rest)[1..] == rest;
    if Lex(rest, args).Some? {
      assert [] + Lex(rest, args).value == Lex(rest, args).value;
    }
  }

  lemma TokenReads(text: Text, next: Next, args: seq<Literal>)
    requires text != [] && text[0] != 32 && NextToken(text + next.rest, args) == Some(next)
    ensures ReadsAs(text, Some([next.token]), next.rest, args)
  {
  }

  lemma UnreadableReads(text: Text, rest: Text, args: seq<Literal>)
    requires text != [] && text[0] != 32 && NextToken(text + rest, args) == None
    ensures ReadsAs(text, None, rest, args)
  {
  }

  /** A token between two spaces. */
  lemma SpacedReads(text: Text, token: Token, rest: Text, args: seq<Literal>)
    requires ReadsAs(text, Some([token]), [32] + rest, args)
    ensures ReadsAs([32] + text + [32], Some([token]), rest, args)
  {
    SpaceReads(rest, args);
    OneAfterTheOther(text, Some([token]), [32], Some([]), rest, args);
    SpaceReads((text + [32]) + rest, args);
    OneAfterTheOther([32], Some([]), text + [32], Chained(Some([token]), Some([])), rest, args);
    Associate([32], text, [32]);
    assert [] + ([token] + []) == [token];
  }

  // ---------- the words ----------

  lemma SymbolBytes()
    ensures Ascii("(") == [40] && Ascii(")") == [41] && Ascii(" ") == [32] && Ascii(".") == [46] && Ascii("-") == [45]
    ensures Ascii("\"") == [34] && Ascii("'") == [39] && Ascii("$") == [36]
  {
  }

  lemma ConnectiveBytes()
    ensures Ascii(" AND ") == [32] + [65, 78, 68] + [32]
    ensures Ascii(" OR ") == [32] + [79, 82] + [32]
  {
  }

  lemma NotBytes()
    ensures Ascii("NOT (") == [78, 79, 84] + [32] + [40]
    ensures Ascii("NOT )") == [78, 79, 84] + [32] + [41]
  {
  }

  lemma IsNullBytes()
    ensures Ascii(" IS NULL") == [32] + ([73, 83] + [32] + [78, 85, 76, 76])
  {
  }

  lemma BooleanBytes()
    ensures Ascii("TRUE") == [84, 82, 85, 69]
    ensures Ascii("true") == [116, 114, 117, 101] && Ascii("false") == [102, 97, 108, 115, 101]
  {
  }

  lemma FloatWordBytes()
    ensures Ascii("NaN") == [78, 97, 78] && Ascii("inf") == [105, 110, 102] && Ascii("-inf") == [45] + [105, 110, 102]
  {
  }

  lemma OperatorBytes()
    ensures OperatorSql(Equal) == [61] && OperatorSql(LessThan) == [60] && OperatorSql(GreaterThan) == [62]
    ensures OperatorSql(NotEqual) == [60, 62] && OperatorSql(LessThanOrEqual) == [60, 61]
    ensures OperatorSql(GreaterThanOrEqual) == [62, 61]
  {
  }

  /** A run of letters reads as the word it is. */
  lemma WordReads(word: Text, rest: Text, args: seq<Literal>)
    requires word != [] && (forall b | b in word :: IsLetter(b)) && Stops(IsLetter, rest)
    requires word != [73, 83]
    ensures ReadsAs(word,
      if word == [65, 78, 68] then Some([AndWord])
      else if word == [79, 82] then Some([OrWord])
      else if word == [78, 79, 84] then Some([NotWord])
      else if word == [84, 82, 85, 69] then Some([TrueWord])
      else if word == [116, 114, 117, 101] then Some([Operand(Constant(Boolean(true)))])
      else if word == [102, 97, 108, 115, 101] then Some([Operand(Constant(Boolean(false)))])
      else None, rest, args)
  {
    RunIsTaken(IsLetter, word, rest);
    assert IsLetter(word[0]);
    var next := NextToken(word + rest, args);
    assert next == NextWord(word + rest);
    if next.Some? {
      TokenReads(word, next.value, args);
    } else {
      UnreadableReads(word, rest, args);
    }
  }

  lemma SymbolReads(b: Byte, token: Token, rest: Text, args: seq<Literal>)
    requires (b == 40 && token == Open) || (b == 41 && token == Close)
    ensures ReadsAs([b], Some([token]), rest, args)
  {
    assert ([b] + rest)[1..] == rest;
    TokenReads([b], Next(token, rest), args);
  }

  /** An operator with the spaces around it. */
  lemma OperatorReads(op: ComparisonOperator, rest: Text, args: seq<Literal>)
    requires Basic(op)
    ensures ReadsAs(Ascii(" ") + OperatorSql(op) + Ascii(" "), Some([Op(op)]), rest, args)
  {
    SymbolBytes();
    OperatorBytes();
    var text := OperatorSql(op);
    var all := text + ([32] + rest);
    assert all[|text|..] == [32] + rest;
    assert all[0] == text[0] && all[1] == if |text| == 2 then text[1] else 32;
    TokenReads(text, Next(Op(op), [32] + rest), args);
    SpacedReads(text, Op(op), rest, args);
  }

  lemma AndWordReads(rest: Text, args: seq<Literal>)
    ensures ReadsAs(Ascii(" AND "), Some([AndWord]), rest, args)
  {
    ConnectiveBytes();
    WordReads([65, 78, 68], [32] + rest, args);
    SpacedReads([65, 78, 68], AndWord, rest, args);
  }

  lemma OrWordReads(rest: Text, args: seq<Literal>)
    ensures ReadsAs(Ascii(" OR "), Some([OrWord]), rest, args)
  {
    ConnectiveBytes();
    WordReads([79, 82], [32] + rest, args);
    SpacedReads([79, 82], OrWord, rest, args);
  }

  /** NOT and a parenthesis, with the space between them. */
  lemma NotWordReads(b: Byte, token: Token, rest: Text, args: seq<Literal>)
    requires (b == 40 && token == Open) || (b == 41 && token == Close)
    ensures ReadsAs([78, 79, 84] + [32] + [b], Some([NotWord, token]), rest, args)
  {
    var word, text := [78, 79, 84], [32] + [b];
    SymbolReads(b, token, rest, args);
    SpaceReads([b] + rest, args);
    OneAfterTheOther([32], Some([]), [b], Some([token]), rest, args);
    WordReads(word, text + rest, args);
    OneAfterTheOther(word, Some([NotWord]), text, Chained(Some([]), Some([token])), rest, args);
    Associate(word, [32], [b]);
    assert [NotWord] + ([] + [token]) == [NotWord, token];
  }

  lemma IsNullReads(rest: Text, args: seq<Literal>)
    ensures ReadsAs(Ascii(" IS NULL"), if Stops(IsLetter, rest) then Some([IsNullWords]) else None, rest, args)
  {
    IsNullBytes();
    var text := [73, 83] + [32] + [78, 85, 76, 76];
    var ts := if Stops(IsLetter, rest) then Some([IsNullWords]) else None;
    IsNullIsNext(rest, args);
    if Stops(IsLetter, rest) {
      TokenReads(text, Next(IsNullWords, rest), args);
    } else {
      UnreadableReads(text, rest, args);
    }
    SpaceReads(text + rest, args);
    OneAfterTheOther([32], Some([]), text, ts, rest, args);
    assert [] + [IsNullWords] == [IsNullWords];
  }

  lemma IsNullIsNext(rest: Text, args: seq<Literal>)
    ensures NextToken([73, 83] + [32] + [78, 85, 76, 76] + rest, args) ==
      if Stops(IsLetter, rest) then Some(Next(IsNullWords, rest)) else None
  {
    var first, after := [73, 83], [32] + ([78, 85, 76, 76] + rest);
    QualifiedText(first, [32], [78, 85, 76, 76], rest);
    RunIsTaken(IsLetter, first, after);
    assert (first + after)[0] == 73 && NextToken(first + after, args) == NextWord(first + after) == NextNull(after);
    NullIsNext(rest);
  }

  lemma NullIsNext(rest: Text)
    ensures NextNull([32] + ([78, 85, 76, 76] + rest)) == if Stops(IsLetter, rest) then Some(Next(IsNullWords, rest)) else None
  {
    var word := [78, 85, 76, 76];
    assert ([32] + (word + rest))[1..] == word + rest;
    if Stops(IsLetter, rest) {
      RunIsTaken(IsLetter, word, rest);
    } else {
      LongerRun(IsLetter, word, rest);
    }
  }

  /** A run that goes on is longer than its beginning. */
  lemma {:induction false} LongerRun(kind: Byte -> bool, a: Text, rest: Text)
    requires (forall c | c in a :: kind(c)) && !Stops(kind, rest)
    ensures RunLength(kind, a + rest) > |a|
  {
    if a == [] {
      assert a + rest == rest;
    } else {
      assert (a + rest)[1..] == a[1..] + rest;
      LongerRun(kind, a[1..], rest);
    }
  }

  lemma TrueReads(rest: Text, args: seq<Literal>)
    ensures ReadsAs(Ascii("TRUE"), if Stops(IsLetter, rest) then Some([TrueWord]) else None, rest, args)
  {
    BooleanBytes();
    var word := [84, 82, 85, 69];
    if Stops(IsLetter, rest) {
      WordReads(word, rest, args);
    } else {
      LongerRun(IsLetter, word, rest);
      var n := RunLength(IsLetter, word + rest);
      assert (word + rest)[..n][..4] == word;
      UnreadableReads(word, rest, args);
    }
  }

  // ---------- the operands ----------

  predicate LegibleName(id: Identifier) {
    34 !in id.name && (id.CollectionProperty? ==> 34 !in id.collection)
  }

  /** After a name only a quote or a point would be read on with it. */
  predicate NameEnds(rest: Text) {
    rest == [] || (rest[0] != 34 && rest[0] != 46)
  }

  lemma DelimitedIsTaken(kind: Byte -> bool, quote: Byte, inside: Text, rest: Text)
    requires !kind(quote) && (forall b | b in inside :: kind(b)) && (rest == [] || rest[0] != quote)
    ensures NextDelimited(kind, [quote] + inside + [quote] + rest) == Some(Delimited(inside, rest))
  {
    var t := [quote] + inside + [quote] + rest;
    assert t[1..] == inside + ([quote] + rest);
    RunIsTaken(kind, inside, [quote] + rest);
    assert ([quote] + rest)[1..] == rest;
  }

  lemma QuotedIsTaken(name: Text, rest: Text)
    requires 34 !in name && (rest == [] || rest[0] != 34)
    ensures Quoted(name)[0] == 34 && NextDelimited(NoDoubleQuote, Quoted(name) + rest) == Some(Delimited(name, rest))
  {
    SymbolBytes();
    DelimitedIsTaken(NoDoubleQuote, 34, name, rest);
  }

  lemma NameReads(id: Identifier, rest: Text, args: seq<Literal>)
    requires LegibleName(id) && NameEnds(rest)
    ensures ReadsAs(GenerateExprSql(Name(id)), Some([Operand(Name(id))]), rest, args)
  {
    match id
    case Property(name) =>
      QuotedIsTaken(name, rest);
      TokenReads(Quoted(name), Next(Operand(Name(id)), rest), args);
    case CollectionProperty(collection, name) => QualifiedNameReads(collection, name, rest, args);
  }

  lemma QualifiedNameReads(collection: Text, name: Text, rest: Text, args: seq<Literal>)
    requires 34 !in collection && 34 !in name && NameEnds(rest)
    ensures var e := Name(CollectionProperty(collection, name));
      ReadsAs(GenerateExprSql(e), Some([Operand(e)]), rest, args)
  {
    var e := Name(CollectionProperty(collection, name));
    QualifiedIsNext(collection, name, Quoted(collection) + [46] + Quoted(name) + rest, rest, args);
    SymbolBytes();
    TokenReads(GenerateExprSql(e), Next(Operand(e), rest), args);
  }

  lemma QualifiedIsNext(collection: Text, name: Text, all: Text, rest: Text, args: seq<Literal>)
    requires 34 !in collection && 34 !in name && NameEnds(rest)
    requires all == Quoted(collection) + [46] + Quoted(name) + rest
    ensures all != [] && NextToken(all, args) == Some(Next(Operand(Name(CollectionProperty(collection, name))), rest))
  {
    var after := Quoted(name) + rest;
    var tail := [46] + after;
    QuotedIsTaken(name, rest);
    QuotedIsTaken(collection, tail);
    QualifiedText(Quoted(collection), [46], Quoted(name), rest);
    assert all == Quoted(collection) + tail && tail[1..] == after && tail[1] == 34;
  }

  lemma QualifiedText<T>(a: seq<T>, b: seq<T>, c: seq<T>, rest: seq<T>)
    ensures a + b + c + rest == a + (b + (c + rest))
  {
  }

  lemma StringReads(s: Text, rest: Text, args: seq<Literal>)
    requires 39 !in s && (rest == [] || rest[0] != 39)
    ensures ReadsAs(LiteralSql(Literal.String(s)), Some([Operand(Constant(Literal.String(s)))]), rest, args)
  {
    SymbolBytes();
    DelimitedIsTaken(NoSingleQuote, 39, s, rest);
    TokenReads(LiteralSql(Literal.String(s)), Next(Operand(Constant(Literal.String(s))), rest), args);
  }

  lemma NumericBytes(t: Text)
    requires Numeric(t)
    ensures t != [] && IsNumberByte(t[0]) && forall b | b in t :: IsNumberByte(b)
  {
    var u := Unsigned(t);
    var n := RunLength(IsDigit, u);
    RunIsOfItsKind(IsDigit, u);
    forall b | b in t
      ensures IsNumberByte(b)
    {
      var i :| 0 <= i < |t| && t[i] == b;
      var k := if Negative(t) then i - 1 else i;
      assert k >= 0 ==> u[k] == b;
      if k > n {
        assert u[n + 1..][k - n - 1] == b && IsDigit(b);
      }
    }
  }

  lemma {:induction false} RunIsOfItsKind(kind: Byte -> bool, t: Text)
    ensures forall i | 0 <= i < RunLength(kind, t) :: kind(t[i])
  {
    if t != [] && kind(t[0]) {
      RunIsOfItsKind(kind, t[1..]);
      assert forall i | 0 < i < RunLength(kind, t) :: t[i] == t[1..][i - 1];
    }
  }

  lemma NumberReads(t: Text, rest: Text, args: seq<Literal>)
    requires Numeric(t) && Stops(IsNumberByte, rest)
    ensures ReadsAs(t, Some([Operand(Constant(NumberLiteral(t)))]), rest, args)
  {
    NumericBytes(t);
    RunIsTaken(IsNumberByte, t, rest);
    TokenReads(t, Next(Operand(Constant(NumberLiteral(t))), rest), args);
  }

  /** The text of a number is the text of what it is read as. */
  lemma NumberKeepsItsText(t: Text)
    requires Numeric(t)
    ensures LiteralText(NumberLiteral(t)) == t
  {
    var digits := Unsigned(t);
    SymbolBytes();
    if AllDigits(digits) && (digits[0] != 48 || t == [48]) {
      DecimalIsTheNumeral(digits, DigitsValue(digits));
      assert Negative(t) ==> t == [45] + digits;
    }
  }

  /** The text of an integer reads as that integer. */
  lemma IntegerIsNumeric(i: Int64)
    ensures Numeric(IntegerText(i)) && NumberLiteral(IntegerText(i)) == Integer(i)
  {
    SymbolBytes();
    var magnitude := Signed(i < 0, i);
    var digits, t := Decimal(magnitude), IntegerText(i);
    DecimalReadsBack(magnitude);
    assert IsDigit(digits[0]);
    assert i < 0 ==> t[0] == 45 && t[1..] == digits;
    assert Unsigned(t) == digits;
    RunIsTaken(IsDigit, digits, []);
    assert digits + [] == digits;
    if i == 0 {
      assert Decimal(0) == [48];
    }
  }

  /** The texts the evaluator compares and the printer prints: a boolean is one of two words, an integer has
      a minus sign exactly if it is negative, and digits of its magnitude. */
  lemma TextsOfLiterals(b: bool, i: Int64)
    ensures LiteralText(Boolean(b)) == if b then [116, 114, 117, 101] else [102, 97, 108, 115, 101]
    ensures var t := LiteralText(Integer(i));
      && (i < 0 <==> Negative(t)) && AllDigits(Unsigned(t)) && Signed(Negative(t), DigitsValue(Unsigned(t))) == i
  {
    BooleanBytes();
    SymbolBytes();
    var magnitude := Signed(i < 0, i);
    DecimalReadsBack(magnitude);
    assert IsDigit(Decimal(magnitude)[0]);
    assert i < 0 ==> IntegerText(i)[1..] == Decimal(magnitude);
  }

  // ---------- literals as the text shows them ----------

  /** The display of a double: a numeral, or one of three words. */
  predicate Displayed(shown: Text) {
    Numeric(shown) || shown == Ascii("NaN") || shown == Ascii("inf") || shown == Ascii("-inf")
  }

  /** Strings without quotes, and doubles with a text that Rust displays. */
  predicate LegibleLiteral(lit: Literal) {
    match lit
    case String(s) => 39 !in s
    case Float(_, shown) => Displayed(shown)
    case _ => true
  }

  predicate LegibleExpr(e: Expr) {
    match e
    case Constant(lit) => LegibleLiteral(lit)
    case Name(id) => LegibleName(id)
    case _ => true
  }

  predicate Legible(p: Predicate) {
    match p
    case Comparison(left, _, right) => LegibleExpr(left) && LegibleExpr(right)
    case IsNull(e) => LegibleExpr(e)
    case And(l, r) => Legible(l) && Legible(r)
    case Or(l, r) => Legible(l) && Legible(r)
    case Not(q) => Legible(q)
    case True => true
  }

  /** NaN and the infinities have no numeral. */
  predicate FiniteExpr(e: Expr) {
    e.Constant? && e.literal.Float? ==> Numeric(e.literal.shown)
  }

  predicate Finite(p: Predicate) {
    match p
    case Comparison(left, _, right) => FiniteExpr(left) && FiniteExpr(right)
    case IsNull(e) => FiniteExpr(e)
    case And(l, r) => Finite(l) && Finite(r)
    case Or(l, r) => Finite(l) && Finite(r)
    case Not(q) => Finite(q)
    case True => true
  }

  /** A double is read as the number its text denotes, an integer if it is shown without a point. */
  function RereadExpr(e: Expr): Expr {
    if e.Constant? && e.literal.Float? && Numeric(e.literal.shown) then Constant(NumberLiteral(e.literal.shown)) else e
  }

  function Reread(p: Predicate): Predicate {
    match p
    case Comparison(left, op, right) => Comparison(RereadExpr(left), op, RereadExpr(right))
    case IsNull(e) => IsNull(RereadExpr(e))
    case And(l, r) => And(Reread(l), Reread(r))
    case Or(l, r) => Or(Reread(l), Reread(r))
    case Not(q) => Not(Reread(q))
    case True => True
  }

  predicate LegibleNames(p: Predicate) {
    match p
    case Comparison(left, _, right) => (left.Name? ==> LegibleName(left.identifier)) && (right.Name? ==> LegibleName(right.identifier))
    case IsNull(e) => e.Name? ==> LegibleName(e.identifier)
    case And(l, r) => LegibleNames(l) && LegibleNames(r)
    case Or(l, r) => LegibleNames(l) && LegibleNames(r)
    case Not(q) => LegibleNames(q)
    case True => true
  }

  predicate FloatFree(p: Predicate) {
    match p
    case Comparison(left, _, right) => !IsFloat(left) && !IsFloat(right)
    case IsNull(e) => !IsFloat(e)
    case And(l, r) => FloatFree(l) && FloatFree(r)
    case Or(l, r) => FloatFree(l) && FloatFree(r)
    case Not(q) => FloatFree(q)
    case True => true
  }

  predicate IsFloat(e: Expr) { e.Constant? && e.literal.Float? }

  lemma {:induction false} FloatFreeIsReread(p: Predicate)
    requires FloatFree(p)
    ensures Reread(p) == p && Finite(p)
  {
    match p
    case And(l, r) =>
      FloatFreeIsReread(l);
      FloatFreeIsReread(r);
    case Or(l, r) =>
      FloatFreeIsReread(l);
      FloatFreeIsReread(r);
    case Not(q) => FloatFreeIsReread(q);
    case _ =>
  }

  /** Reading a double by its text changes nothing: the evaluator compares texts. */
  lemma {:induction false} RereadMeansTheSame(item: Entity, p: Predicate)
    ensures EvaluatePredicate(item, Reread(p)) == EvaluatePredicate(item, p)
    ensures Trues(Reread(p)) == Trues(p) && (Supported(p) ==> Supported(Reread(p)))
  {
    match p
    case Comparison(left, op, right) =>
      RereadExprMeansTheSame(item, left);
      RereadExprMeansTheSame(item, right);
    case IsNull(e) => RereadExprMeansTheSame(item, e);
    case And(l, r) =>
      RereadMeansTheSame(item, l);
      RereadMeansTheSame(item, r);
    case Or(l, r) =>
      RereadMeansTheSame(item, l);
      RereadMeansTheSame(item, r);
    case Not(q) => RereadMeansTheSame(item, q);
    case True =>
  }

  lemma RereadExprMeansTheSame(item: Entity, e: Expr)
    ensures EvaluateExpr(item, RereadExpr(e)) == EvaluateExpr(item, e) && (Simple(e) ==> Simple(RereadExpr(e)))
  {
    if IsFloat(e) && Numeric(e.literal.shown) {
      NumberKeepsItsText(e.literal.shown);
    }
  }

  // ---------- what the printed text reads as ----------

  /** Printed text is followed by a space, a closing parenthesis or nothing. */
  predicate Apart(rest: Text) {
    rest == [] || rest[0] == 32 || rest[0] == 41
  }

  function ExprReading(e: Expr): Option<seq<Token>> {
    if FiniteExpr(e) then Some([Operand(RereadExpr(e))]) else None
  }

  function Reading(p: Predicate): Option<seq<Token>> {
    if Finite(p) then Some(Tokens(Reread(p))) else None
  }

  lemma FloatReads(shown: Text, rest: Text, args: seq<Literal>)
    requires Displayed(shown) && Apart(rest)
    ensures ReadsAs(shown, if Numeric(shown) then Some([Operand(Constant(NumberLiteral(shown)))]) else None, rest, args)
  {
    if Numeric(shown) {
      NumberReads(shown, rest, args);
    } else if shown == Ascii("-inf") {
      FloatWordBytes();
      var after := [105, 110, 102] + rest;
      Associate([45], [105, 110, 102], rest);
      RunIsTaken(IsNumberByte, [45], after);
      UnreadableReads(shown, rest, args);
    } else {
      FloatWordBytes();
      WordReads(shown, rest, args);
    }
  }

  lemma ExprReads(e: Expr, rest: Text, args: seq<Literal>)
    requires Simple(e) && LegibleExpr(e) && Apart(rest)
    ensures ReadsAs(GenerateExprSql(e), ExprReading(e), rest, args)
  {
    BooleanBytes();
    match e
    case Name(id) => NameReads(id, rest, args);
    case Constant(String(s)) => StringReads(s, rest, args);
    case Constant(Integer(i)) =>
      IntegerIsNumeric(i);
      NumberReads(IntegerText(i), rest, args);
    case Constant(Float(_, shown)) => FloatReads(shown, rest, args);
    case Constant(Boolean(b)) => WordReads(LiteralText(e.literal), rest, args);
  }

  lemma ComparisonReads(left: Expr, op: ComparisonOperator, right: Expr, rest: Text, args: seq<Literal>)
    requires Simple(left) && Basic(op) && Simple(right) && LegibleExpr(left) && LegibleExpr(right) && Apart(rest)
    ensures ReadsAs(GenerateSelectionSql(Comparison(left, op, right)), Reading(Comparison(left, op, right)), rest, args)
  {
    var a, b := GenerateExprSql(left), GenerateExprSql(right);
    SymbolBytes();
    ExprReads(left, Ascii(" ") + OperatorSql(op) + Ascii(" ") + (b + rest), args);
    ExprReads(right, rest, args);
    ComparedReads(a, ExprReading(left), op, b, ExprReading(right), rest, args);
    SpacedText(a, Ascii(" "), OperatorSql(op), b);
    Associate(a, Ascii(" ") + OperatorSql(op) + Ascii(" "), b);
    if FiniteExpr(left) && FiniteExpr(right) {
      assert [Operand(RereadExpr(left))] + [Op(op)] + [Operand(RereadExpr(right))]
          == Tokens(Comparison(RereadExpr(left), op, RereadExpr(right)));
    }
  }

  lemma ComparedReads(a: Text, x: Option<seq<Token>>, op: ComparisonOperator, b: Text, y: Option<seq<Token>>, rest: Text, args: seq<Literal>)
    requires Basic(op) && ReadsAs(a, x, Ascii(" ") + OperatorSql(op) + Ascii(" ") + (b + rest), args) && ReadsAs(b, y, rest, args)
    ensures ReadsAs(a + (Ascii(" ") + OperatorSql(op) + Ascii(" ")) + b, Chained(Chained(x, Some([Op(op)])), y), rest, args)
  {
    OperatorReads(op, b + rest, args);
    AroundReads(a, x, Ascii(" ") + OperatorSql(op) + Ascii(" "), Op(op), b, y, rest, args);
  }

  lemma SpacedText<T>(a: seq<T>, space: seq<T>, word: seq<T>, b: seq<T>)
    ensures a + space + word + space + b == a + ((space + word + space) + b)
  {
  }

  /** Two texts with a word between them. */
  lemma AroundReads(a: Text, x: Option<seq<Token>>, word: Text, token: Token, b: Text, y: Option<seq<Token>>, rest: Text, args: seq<Literal>)
    requires ReadsAs(a, x, word + (b + rest), args)
    requires ReadsAs(word, Some([token]), b + rest, args)
    requires ReadsAs(b, y, rest, args)
    ensures ReadsAs(a + word + b, Chained(Chained(x, Some([token])), y), rest, args)
  {
    OneAfterTheOther(a, x, word, Some([token]), b + rest, args);
    OneAfterTheOther(a + word, Chained(x, Some([token])), b, y, rest, args);
  }

  /** A text between two others. */
  lemma InsideReads(a: Text, x: Option<seq<Token>>, mid: Text, y: Option<seq<Token>>, b: Text, z: Option<seq<Token>>, rest: Text, args: seq<Literal>)
    requires ReadsAs(a, x, mid + (b + rest), args)
    requires ReadsAs(mid, y, b + rest, args)
    requires ReadsAs(b, z, rest, args)
    ensures ReadsAs(a + mid + b, Chained(Chained(x, y), z), rest, args)
  {
    OneAfterTheOther(a, x, mid, y, b + rest, args);
    OneAfterTheOther(a + mid, Chained(x, y), b, z, rest, args);
  }

  /** A text in parentheses. */
  lemma ParenthesizedReads(inside: Text, ts: Option<seq<Token>>, rest: Text, args: seq<Literal>)
    requires ReadsAs(inside, ts, Ascii(")") + rest, args)
    ensures ReadsAs(Ascii("(") + inside + Ascii(")"), Chained(Chained(Some([Open]), ts), Some([Close])), rest, args)
  {
    SymbolBytes();
    SymbolReads(40, Open, inside + (Ascii(")") + rest), args);
    SymbolReads(41, Close, rest, args);
    InsideReads(Ascii("("), Some([Open]), inside, ts, Ascii(")"), Some([Close]), rest, args);
  }

  lemma ConjoinedReads(a: Text, x: Option<seq<Token>>, b: Text, y: Option<seq<Token>>, rest: Text, args: seq<Literal>)
    requires ReadsAs(a, x, Ascii(" AND ") + (b + rest), args) && ReadsAs(b, y, rest, args)
    ensures ReadsAs(a + Ascii(" AND ") + b, Chained(Chained(x, Some([AndWord])), y), rest, args)
  {
    AndWordReads(b + rest, args);
    AroundReads(a, x, Ascii(" AND "), AndWord, b, y, rest, args);
  }

  lemma DisjointReads(a: Text, x: Option<seq<Token>>, b: Text, y: Option<seq<Token>>, rest: Text, args: seq<Literal>)
    requires ReadsAs(a, x, Ascii(" OR ") + (b + (Ascii(")") + rest)), args) && ReadsAs(b, y, Ascii(")") + rest, args)
    ensures ReadsAs(Ascii("(") + (a + Ascii(" OR ") + b) + Ascii(")"),
      Chained(Chained(Some([Open]), Chained(Chained(x, Some([OrWord])), y)), Some([Close])), rest, args)
  {
    var close := Ascii(")") + rest;
    OrWordReads(b + close, args);
    AroundReads(a, x, Ascii(" OR "), OrWord, b, y, close, args);
    ParenthesizedReads(a + Ascii(" OR ") + b, Chained(Chained(x, Some([OrWord])), y), rest, args);
  }

  lemma AndTextReads(l: Predicate, r: Predicate, rest: Text, args: seq<Literal>)
    requires Supported(l) && Supported(r)
    requires ReadsAs(GenerateSelectionSql(l), Reading(l), Ascii(" AND ") + (GenerateSelectionSql(r) + rest), args)
    requires ReadsAs(GenerateSelectionSql(r), Reading(r), rest, args)
    ensures ReadsAs(GenerateSelectionSql(And(l, r)), Reading(And(l, r)), rest, args)
  {
    ConjoinedReads(GenerateSelectionSql(l), Reading(l), GenerateSelectionSql(r), Reading(r), rest, args);
  }

  lemma OrTextReads(l: Predicate, r: Predicate, rest: Text, args: seq<Literal>)
    requires Supported(l) && Supported(r)
    requires ReadsAs(GenerateSelectionSql(l), Reading(l), Ascii(" OR ") + (GenerateSelectionSql(r) + (Ascii(")") + rest)), args)
    requires ReadsAs(GenerateSelectionSql(r), Reading(r), Ascii(")") + rest, args)
    ensures ReadsAs(GenerateSelectionSql(Or(l, r)), Reading(Or(l, r)), rest, args)
  {
    var a, b := GenerateSelectionSql(l), GenerateSelectionSql(r);
    DisjointReads(a, Reading(l), b, Reading(r), rest, args);
    Regroup(Ascii("("), a, Ascii(" OR "), b, Ascii(")"));
    OrReading(l, r);
  }

  lemma OrReading(l: Predicate, r: Predicate)
    ensures Chained(Chained(Some([Open]), Chained(Chained(Reading(l), Some([OrWord])), Reading(r))), Some([Close])) == Reading(Or(l, r))
  {
    if Finite(l) && Finite(r) {
      Regroup([Open], Tokens(Reread(l)), [OrWord], Tokens(Reread(r)), [Close]);
    }
  }

  lemma NotTextReads(q: Predicate, rest: Text, args: seq<Literal>)
    requires Supported(q) && ReadsAs(GenerateSelectionSql(q), Reading(q), Ascii(")") + rest, args)
    ensures ReadsAs(GenerateSelectionSql(Not(q)), Reading(Not(q)), rest, args)
  {
    NegatedTextReads(GenerateSelectionSql(q), Reading(q), rest, args);
    assert Reading(Not(q)) == Chained(Chained(Some([NotWord, Open]), Reading(q)), Some([Close]));
  }

  lemma NegatedTextReads(inside: Text, ts: Option<seq<Token>>, rest: Text, args: seq<Literal>)
    requires ReadsAs(inside, ts, Ascii(")") + rest, args)
    ensures ReadsAs(Ascii("NOT (") + inside + Ascii(")"), Chained(Chained(Some([NotWord, Open]), ts), Some([Close])), rest, args)
  {
    NotBytes();
    SymbolBytes();
    NotWordReads(40, Open, inside + (Ascii(")") + rest), args);
    SymbolReads(41, Close, rest, args);
    InsideReads(Ascii("NOT ("), Some([NotWord, Open]), inside, ts, Ascii(")"), Some([Close]), rest, args);
  }

  lemma IsNullTextReads(e: Expr, rest: Text, args: seq<Literal>)
    requires Simple(e) && LegibleExpr(e) && Apart(rest)
    ensures ReadsAs(GenerateSelectionSql(IsNull(e)), Reading(IsNull(e)), rest, args)
  {
    IsNullBytes();
    ExprReads(e, Ascii(" IS NULL") + rest, args);
    IsNullReads(rest, args);
    OneAfterTheOther(GenerateExprSql(e), ExprReading(e), Ascii(" IS NULL"), Some([IsNullWords]), rest, args);
    assert [Operand(RereadExpr(e))] + [IsNullWords] == Tokens(IsNull(RereadExpr(e)));
  }

  /** Wherever it stands, the printed text of a predicate reads as its tokens, or spoils the whole if it
      shows a double that has no numeral. */
  lemma {:induction false} PrintedReads(p: Predicate, rest: Text, args: seq<Literal>)
    requires Supported(p) && Legible(p) && Apart(rest)
    ensures ReadsAs(GenerateSelectionSql(p), Reading(p), rest, args)
  {
    SymbolBytes();
    match p
    case Comparison(left, op, right) => ComparisonReads(left, op, right, rest, args);
    case And(l, r) =>
      ConnectiveBytes();
      PrintedReads(l, Ascii(" AND ") + (GenerateSelectionSql(r) + rest), args);
      PrintedReads(r, rest, args);
      AndTextReads(l, r, rest, args);
    case Or(l, r) =>
      ConnectiveBytes();
      PrintedReads(l, Ascii(" OR ") + (GenerateSelectionSql(r) + (Ascii(")") + rest)), args);
      PrintedReads(r, Ascii(")") + rest, args);
      OrTextReads(l, r, rest, args);
    case Not(q) =>
      PrintedReads(q, Ascii(")") + rest, args);
      NotTextReads(q, rest, args);
    case IsNull(e) => IsNullTextReads(e, rest, args);
    case True => NothingReads(rest, args);
  }

  /** The bytes of the printed text are read as exactly the predicate's tokens: names, strings, integers,
      booleans and operators come back as they were, a double as what its numeral denotes. NaN and the
      infinities are printed as words that SQL does not know. */
  lemma PrintedTextLexes(p: Predicate)
    requires Supported(p) && Legible(p)
    ensures Lex(GenerateSelectionSql(p), []) == if Finite(p) then Some(Tokens(Reread(p))) else None
    ensures FloatFree(p) ==> Lex(GenerateSelectionSql(p), []) == Some(Tokens(p))
  {
    var text := GenerateSelectionSql(p);
    PrintedReads(p, [], []);
    assert text + [] == text;
    if Finite(p) {
      assert Tokens(Reread(p)) + [] == Tokens(Reread(p));
    }
    if FloatFree(p) {
      FloatFreeIsReread(p);
    }
  }

  /** Read as SQL, the printed text is the predicate up to re-association of AND, unless there is a TRUE
      in it or a double without a numeral; then it is no condition. */
  lemma PrintedTextReadsBack(p: Predicate)
    requires Supported(p) && Legible(p)
    ensures ReadText(GenerateSelectionSql(p), []) == if Trues(p) == 0 && Finite(p) then Some(Regrouped(Reread(p))) else None
    ensures FloatFree(p) && Trues(p) == 0 ==> ReadText(GenerateSelectionSql(p), []) == Some(Regrouped(p))
  {
    PrintedTextLexes(p);
    PrintedTokensReadBack(Reread(p));
    RereadMeansTheSame(Entity(0, [], map[]), p);
    if FloatFree(p) {
      FloatFreeIsReread(p);
    }
  }

  /** So the printed text, read as SQL, evaluates like the original on every item, errors included. */
  lemma PrintedTextMeansTheSame(item: Entity, p: Predicate)
    requires Supported(p) && Legible(p) && Finite(p) && Trues(p) == 0
    ensures ReadText(GenerateSelectionSql(p), []).Some?
    ensures EvaluatePredicate(item, ReadText(GenerateSelectionSql(p), []).value) == EvaluatePredicate(item, p)
  {
    PrintedTextReadsBack(p);
    RegroupedMeansTheSame(item, Reread(p));
    RereadMeansTheSame(item, p);
  }

  /** End to end: a SQL database handed the printed text selects every item that passes the filter, and
      rejects every item the filter answers with false. */
  lemma PrintedSqlAgreesWithFilter(item: Entity, p: Predicate)
    requires Supported(p) && Legible(p) && Finite(p) && Trues(p) == 0
    ensures var q := ReadText(GenerateSelectionSql(p), []);
      q.Some? && Supported(q.value)
      && (EvaluatePredicate(item, p) == Ok(true) ==> SqlTruth(item, q.value) == Yes)
      && (EvaluatePredicate(item, p) == Ok(false) ==> SqlTruth(item, q.value) == No)
  {
    PrintedTextReadsBack(p);
    RereadMeansTheSame(item, p);
    RegroupedIsSqlEqual(item, Reread(p));
    AnswersAgreeWithSql(item, Reread(p));
  }
}
