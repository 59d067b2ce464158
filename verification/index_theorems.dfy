/** What the comparison index answers over any history of registrations, and which atoms it answers
    exactly. */
module IndexTheorems {
  import opened Bytes
  import opened Ast
  import opened Collation
  import opened ComparisonIndices
  import Filter

  // ---------- histories ----------

  datatype Atom = Atom(lit: Literal, op: ComparisonOperator, sub: SubId)

  datatype IndexOp = Register(atom: Atom) | Withdraw(atom: Atom)

  /** The index contents after a history: what `Add` and `Remove` do one after the other. */
  function After(h: seq<IndexOp>): multiset<Entry> {
    if h == [] then multiset{}
    else
      var before, last := After(h[..|h| - 1]), h[|h| - 1];
      if last.Register? then before + FiledAtom(last.atom) else before - FiledAtom(last.atom)
  }

  function FiledAtom(a: Atom): multiset<Entry> {
    Filed(a.lit, a.op, a.sub)
  }

  /** The naive index: a list of the atoms registered and not yet withdrawn. */
  function Outstanding(h: seq<IndexOp>): seq<Atom> {
    if h == [] then []
    else
      var before, last := Outstanding(h[..|h| - 1]), h[|h| - 1];
      if last.Register? then before + [last.atom] else WithoutFirst(before, last.atom)
  }

  /** Nothing outstanding is filed where the atom is: withdrawing it then takes nothing away. */
  predicate Harmless(a: Atom, outstanding: seq<Atom>) {
    Normalise(a.lit, a.op).None? ||
    forall b | b in outstanding && b.sub == a.sub :: Normalise(b.lit, b.op) != Normalise(a.lit, a.op)
  }

  /** Withdrawals are of outstanding atoms, or harmless. */
  predicate Balanced(h: seq<IndexOp>) {
    h == [] || (Balanced(h[..|h| - 1])
                && (h[|h| - 1].Withdraw? ==>
                      h[|h| - 1].atom in Outstanding(h[..|h| - 1]) || Harmless(h[|h| - 1].atom, Outstanding(h[..|h| - 1]))))
  }

  /** The registrations left after any history: a withdrawal takes away one filed in the same place for
      the same subscription, be it of the same atom or not, if there is one. */
  function Remaining(h: seq<IndexOp>): seq<Atom> {
    if h == [] then []
    else
      var before, last := Remaining(h[..|h| - 1]), h[|h| - 1];
      if last.Register? then before + [last.atom] else WithoutAlike(before, last.atom)
  }

  predicate Alike(a: Atom, b: Atom) {
    a.sub == b.sub && Normalise(a.lit, a.op) == Normalise(b.lit, b.op)
  }

  function WithoutAlike(atoms: seq<Atom>, a: Atom): seq<Atom> {
    if atoms == [] then [] else if Alike(atoms[0], a) then atoms[1..] else [atoms[0]] + WithoutAlike(atoms[1..], a)
  }

  /** Looking `v` up finds an atom when it is filed in a bucket that `v` collects. */
  predicate AtomHits(lit: Literal, op: ComparisonOperator, v: Value) {
    Normalise(lit, op).Some? && Hits(Normalise(lit, op).value, v)
  }

  /** The entries contributed by a list of things, with multiplicity. */
  function Gather<T>(f: T -> multiset<Entry>, xs: seq<T>): multiset<Entry> {
    if xs == [] then multiset{} else f(xs[0]) + Gather(f, xs[1..])
  }

  lemma {:induction false} GatherAppend<T>(f: T -> multiset<Entry>, xs: seq<T>, x: T)
    ensures Gather(f, xs + [x]) == Gather(f, xs) + f(x)
  {
    if xs == [] {
      assert Gather(f, [x][1..]) == multiset{};
    } else {
      GatherAppend(f, xs[1..], x);
      assert (xs + [x])[1..] == xs[1..] + [x];
    }
  }

  lemma {:induction false} GatherWithout<T>(f: T -> multiset<Entry>, xs: seq<T>, x: T)
    requires x in xs
    ensures Gather(f, xs) == Gather(f, WithoutFirst(xs, x)) + f(x)
  {
    if xs[0] != x {
      GatherWithout(f, xs[1..], x);
      var rest := WithoutFirst(xs[1..], x);
      assert ([xs[0]] + rest)[1..] == rest;
    }
  }

  lemma {:induction false} GatherMembers<T>(f: T -> multiset<Entry>, xs: seq<T>, e: Entry)
    ensures e in Gather(f, xs) <==> exists x :: x in xs && e in f(x)
  {
    if xs != [] {
      GatherMembers(f, xs[1..], e);
      assert forall x :: x in xs <==> x == xs[0] || x in xs[1..];
    }
  }

  lemma FiledOnce(a: Atom, e: Entry)
    ensures e in FiledAtom(a) <==> Normalise(a.lit, a.op) == Some(Bucket(e.bound, e.key)) && e.sub == a.sub
    ensures FiledAtom(a)[e] <= 1
  {
  }

  lemma {:induction false} GatherWithoutAlike(xs: seq<Atom>, a: Atom)
    ensures Gather(FiledAtom, WithoutAlike(xs, a)) == Gather(FiledAtom, xs) - FiledAtom(a)
  {
    if xs != [] && !Alike(xs[0], a) {
      var rest := WithoutAlike(xs[1..], a);
      GatherWithoutAlike(xs[1..], a);
      assert ([xs[0]] + rest)[1..] == rest;
      FiledApart(xs[0], a);
      DisjointDifference(FiledAtom(xs[0]), Gather(FiledAtom, xs[1..]), FiledAtom(a));
    } else if xs != [] {
      assert FiledAtom(xs[0]) == FiledAtom(a);
    }
  }

  lemma FiledApart(a: Atom, b: Atom)
    requires !Alike(a, b)
    ensures FiledAtom(a) !! FiledAtom(b)
  {
  }

  lemma DisjointDifference<T>(x: multiset<T>, y: multiset<T>, z: multiset<T>)
    requires x !! z
    ensures x + (y - z) == (x + y) - z
  {
  }

  /** After any history whatsoever the three maps hold, bucket by bucket and with multiplicity, the
      normal forms of the remaining registrations. */
  lemma {:induction false} ContentsAreRemaining(h: seq<IndexOp>)
    ensures After(h) == Gather(FiledAtom, Remaining(h))
  {
    if h != [] {
      var before, last := Remaining(h[..|h| - 1]), h[|h| - 1];
      ContentsAreRemaining(h[..|h| - 1]);
      if last.Register? {
        GatherAppend(FiledAtom, before, last.atom);
      } else {
        GatherWithoutAlike(before, last.atom);
      }
    }
  }

  lemma {:induction false} AbsentIsKept<T>(xs: seq<T>, x: T)
    requires x !in xs
    ensures WithoutFirst(xs, x) == xs
  {
    if xs != [] {
      AbsentIsKept(xs[1..], x);
    }
  }

  lemma HarmlessIsDisjoint(a: Atom, atoms: seq<Atom>)
    ensures Harmless(a, atoms) <==> Gather(FiledAtom, atoms) - FiledAtom(a) == Gather(FiledAtom, atoms)
  {
    if Normalise(a.lit, a.op).Some? {
      var b := Normalise(a.lit, a.op).value;
      var e := Entry(b.bound, b.key, a.sub);
      assert FiledAtom(a) == multiset{e};
      GatherMembers(FiledAtom, atoms, e);
      RemovalKeeps(Gather(FiledAtom, atoms), e);
      forall x ensures e in FiledAtom(x) <==> Alike(x, a) {
        FiledOnce(x, e);
      }
      assert Harmless(a, atoms) <==> !exists x :: x in atoms && e in FiledAtom(x);
    } else {
      assert FiledAtom(a) == multiset{};
    }
  }

  lemma RemovalKeeps<T>(m: multiset<T>, x: T)
    ensures m - multiset{x} == m <==> x !in m
  {
    if x in m {
      assert (m - multiset{x})[x] == m[x] - 1;
    }
  }

  /** The three maps hold, bucket by bucket and with multiplicity, the normal forms of exactly the
      outstanding atoms. */
  lemma {:induction false} ContentsAreOutstanding(h: seq<IndexOp>)
    requires Balanced(h)
    ensures After(h) == Gather(FiledAtom, Outstanding(h))
  {
    if h != [] {
      var before, last := Outstanding(h[..|h| - 1]), h[|h| - 1];
      ContentsAreOutstanding(h[..|h| - 1]);
      if last.Register? {
        GatherAppend(FiledAtom, before, last.atom);
      } else if last.atom in before {
        GatherWithout(FiledAtom, before, last.atom);
      } else {
        AbsentIsKept(before, last.atom);
        HarmlessIsDisjoint(last.atom, before);
      }
    }
  }

  /** And no more can be said: as soon as an atom is withdrawn that is neither outstanding nor harmless,
      the maps lose what an outstanding atom put there. */
  lemma ContentsStayOutstandingIff(h: seq<IndexOp>, next: IndexOp)
    requires Balanced(h)
    ensures After(h + [next]) == Gather(FiledAtom, Outstanding(h + [next])) <==> Balanced(h + [next])
  {
    assert (h + [next])[..|h|] == h;
    ContentsAreOutstanding(h);
    if Balanced(h + [next]) {
      ContentsAreOutstanding(h + [next]);
    } else {
      AbsentIsKept(Outstanding(h), next.atom);
      HarmlessIsDisjoint(next.atom, Outstanding(h));
    }
  }

  /** What a lookup sees of gathered atoms: the ids of those the value hits. */
  lemma GatheredAnswers(atoms: seq<Atom>, v: Value, s: SubId)
    ensures s in Matching(Gather(FiledAtom, atoms), v) <==> exists a :: a in atoms && AtomHits(a.lit, a.op, v) && a.sub == s
  {
    var entries := Gather(FiledAtom, atoms);
    if e :| e in entries && Hits(Bucket(e.bound, e.key), v) && e.sub == s {
      GatherMembers(FiledAtom, atoms, e);
      var a :| a in atoms && e in FiledAtom(a);
      FiledOnce(a, e);
    }
    if a :| a in atoms && AtomHits(a.lit, a.op, v) && a.sub == s {
      var b := Normalise(a.lit, a.op).value;
      var e := Entry(b.bound, b.key, s);
      FiledOnce(a, e);
      GatherMembers(FiledAtom, atoms, e);
    }
  }

  /** Over any history whatsoever a lookup returns exactly the ids of the remaining registrations the
      value hits. */
  lemma AnyHistoryAnswers(h: seq<IndexOp>, v: Value, s: SubId)
    ensures s in Matching(After(h), v) <==> exists a :: a in Remaining(h) && AtomHits(a.lit, a.op, v) && a.sub == s
  {
    ContentsAreRemaining(h);
    GatheredAnswers(Remaining(h), v, s);
  }

  /** Over any balanced history a lookup returns exactly the ids of the outstanding atoms the value
      hits. */
  lemma HistoryAnswers(h: seq<IndexOp>, v: Value, s: SubId)
    requires Balanced(h)
    ensures s in Matching(After(h), v) <==> exists a :: a in Outstanding(h) && AtomHits(a.lit, a.op, v) && a.sub == s
  {
    ContentsAreOutstanding(h);
    GatheredAnswers(Outstanding(h), v, s);
  }

  // ---------- which atoms are hit ----------

  /** A looked-up string is compared byte by byte with the key a literal of any type is filed under. */
  lemma TextHits(lit: Literal, op: ComparisonOperator, v: Text)
    requires Indexable(op)
    ensures AtomHits(lit, op, Value.String(v)) <==>
      var bucket := Normalise(lit, op);
      bucket.Some? &&
      match op
      case Equal => bucket.value.key == v
      case GreaterThan => Less(bucket.value.key, v)
      case GreaterThanOrEqual => Less(bucket.value.key, v)
      case LessThan => Less(v, bucket.value.key)
      case LessThanOrEqual => Less(v, bucket.value.key)
  {
    var bucket := Normalise(lit, op);
    if bucket.Some? {
      AppendZeroIsSuccessor(v, bucket.value.key);
      LessIsStrictTotalOrder(v + [0], bucket.value.key);
    }
  }

  /** Strings: exact for every operator but `>=`. There, dropping the last byte of the literal makes the
      answer a superset; and the empty literal, which every string satisfies, is not hit by the empty
      string. */
  lemma StringHits(l: Text, op: ComparisonOperator, v: Text)
    requires Indexable(op)
    ensures op != GreaterThanOrEqual ==> (AtomHits(Literal.String(l), op, Value.String(v)) <==> Filter.Compare(v, op, l))
    ensures op == GreaterThanOrEqual && l != [] && Filter.Compare(v, op, l) ==> AtomHits(Literal.String(l), op, Value.String(v))
    ensures op == GreaterThanOrEqual && l != [] ==> (AtomHits(Literal.String(l), op, Value.String(v)) <==> Less(l[..|l| - 1], v))
    ensures op == GreaterThanOrEqual && l == [] ==> (AtomHits(Literal.String(l), op, Value.String(v)) <==> v != [])
  {
    TextHits(Literal.String(l), op, v);
    if op == LessThanOrEqual {
      AppendZeroIsSuccessor(v, l + [0]);
      AppendZeroKeepsOrder(v, l);
      LessIsStrictTotalOrder(l, v);
    } else if op == GreaterThanOrEqual && l != [] && !Less(v, l) {
      DropLastIsBelow(l);
      LessIsStrictTotalOrder(l, v);
      if l != v { LessTransitive(l[..|l| - 1], l, v); }
    }
  }

  /** The string that is reported for `field >= l` although the comparison does not hold, or the other
      way round. */
  function Misjudged(l: Text): Text {
    if l == [] then [] else l[..|l| - 1] + [0]
  }

  /** So `>=` is answered right for all values exactly if the literal ends in a zero byte. */
  lemma StringGreaterOrEqualIsExactIff(l: Text)
    ensures (forall v: Text :: AtomHits(Literal.String(l), GreaterThanOrEqual, Value.String(v)) <==> Filter.Compare(v, GreaterThanOrEqual, l))
      <==> l != [] && l[|l| - 1] == 0
    ensures !(l != [] && l[|l| - 1] == 0) ==>
      !(AtomHits(Literal.String(l), GreaterThanOrEqual, Value.String(Misjudged(l))) <==> Filter.Compare(Misjudged(l), GreaterThanOrEqual, l))
  {
    if l != [] { StringPredecessorIsTightIff(l); }
    if l != [] && l[|l| - 1] == 0 {
      forall v: Text
        ensures AtomHits(Literal.String(l), GreaterThanOrEqual, Value.String(v)) <==> Filter.Compare(v, GreaterThanOrEqual, l)
      {
        TextHits(Literal.String(l), GreaterThanOrEqual, v);
        LessIsStrictTotalOrder(l, v);
      }
    } else {
      TextHits(Literal.String(l), GreaterThanOrEqual, Misjudged(l));
    }
  }

  predicate CompareIntegers(v: int, op: ComparisonOperator, l: int)
    requires Indexable(op)
  {
    match op
    case Equal => v == l
    case GreaterThan => v > l
    case GreaterThanOrEqual => v >= l
    case LessThan => v < l
    case LessThanOrEqual => v <= l
  }

  /** When the index answers an integer atom like the integers compare. */
  predicate IntegerAnswerIsExact(l: Int64, op: ComparisonOperator, v: Int64)
    requires Indexable(op)
  {
    match op
    case Equal => true
    case GreaterThan => (l < 0) == (v < 0)
    case GreaterThanOrEqual => l == I64_MIN || (l - 1 < 0) == (v < 0)
    case LessThan => v == I64_MAX || (if v == -1 then l >= 0 else (l < 0) == (v < 0))
    case LessThanOrEqual =>
      if l == I64_MAX then false
      else if v == I64_MAX then true
      else if v == -1 then l >= -1
      else (l + 1 < 0) == (v < 0)
  }

  /** An integer atom is hit according to the unsigned bit patterns. */
  lemma IntegerHitsByPattern(l: Int64, op: ComparisonOperator, v: Int64)
    requires Indexable(op)
    ensures AtomHits(Literal.Integer(l), op, Value.Integer(v)) <==>
      match op
      case Equal => l == v
      case GreaterThan => Pattern(l) < Pattern(v)
      case GreaterThanOrEqual => l == I64_MIN || Pattern(l - 1) < Pattern(v)
      case LessThan => v != I64_MAX && Pattern(v + 1) <= Pattern(l)
      case LessThanOrEqual => v != I64_MAX && l != I64_MAX && Pattern(v + 1) <= Pattern(l + 1)
  {
    var lit, value := Literal.Integer(l), Value.Integer(v);
    match op {
      case GreaterThanOrEqual =>
        if l != I64_MIN {
          WordsOrder(Pattern(l - 1), Pattern(v));
          assert Normalise(lit, op) == Some(Bucket(Gt, IntegerKey(l - 1)));
        } else {
          assert Normalise(lit, op) == Some(Bucket(Gt, []));
        }
      case LessThan =>
        assert Normalise(lit, op) == Some(Bucket(Lt, IntegerKey(l)));
        if v != I64_MAX {
          WordsOrder(Pattern(l), Pattern(v + 1));
        }
      case LessThanOrEqual =>
        if l != I64_MAX {
          assert Normalise(lit, op) == Some(Bucket(Lt, IntegerKey(l + 1)));
          if v != I64_MAX {
            WordsOrder(Pattern(l + 1), Pattern(v + 1));
          }
        }
      case _ => WordsOrder(Pattern(l), Pattern(v));
    }
  }

  /** Integers: exact on non-negative literals and values (at least 1 for `>=`, below the maximum for
      `<=`), and in general exactly when `IntegerAnswerIsExact` says so: big-endian two's complement
      does not order across the sign. */
  lemma IntegerHits(l: Int64, op: ComparisonOperator, v: Int64)
    requires Indexable(op)
    ensures (AtomHits(Literal.Integer(l), op, Value.Integer(v)) <==> CompareIntegers(v, op, l)) <==> IntegerAnswerIsExact(l, op, v)
    ensures 0 <= l && 0 <= v && (op == GreaterThanOrEqual ==> l >= 1) && (op == LessThanOrEqual ==> l < I64_MAX) ==>
      (AtomHits(Literal.Integer(l), op, Value.Integer(v)) <==> CompareIntegers(v, op, l))
  {
    IntegerHitsByPattern(l, op, v);
  }

  lemma FloatGreaterOrEqualByKey(l: UInt64, shown: Text, v: UInt64)
    ensures AtomHits(Literal.Float(l, shown), GreaterThanOrEqual, Value.Float(v)) <==>
      IsNaN(l) || l == SIGN_BIT + INFINITY_BITS || (l != NEGATIVE_ZERO && KeyOrdinal(l) <= KeyOrdinal(v))
  {
    var lit := Literal.Float(l, shown);
    if IsNaN(l) || l == SIGN_BIT + INFINITY_BITS {
      assert Normalise(lit, GreaterThanOrEqual) == Some(Bucket(Gt, []));
    } else if l == NEGATIVE_ZERO {
      NegativeZeroWrapsAround(v);
      LessIsStrictTotalOrder(FloatKey(v), FloatPredecessor(l).value);
    } else {
      PredecessorOrdinal(l, v);
      assert Normalise(lit, GreaterThanOrEqual) == Some(Bucket(Gt, FloatPredecessor(l).value));
    }
  }

  lemma FloatLessByKey(l: UInt64, shown: Text, v: UInt64)
    ensures AtomHits(Literal.Float(l, shown), LessThan, Value.Float(v)) <==>
      !IsNaN(v) && v != INFINITY_BITS && KeyOrdinal(v) < KeyOrdinal(l)
  {
    assert Normalise(Literal.Float(l, shown), LessThan) == Some(Bucket(Lt, FloatKey(l)));
    if FloatSuccessor(v).Some? {
      SuccessorOrdinal(v, l);
      LessIsStrictTotalOrder(FloatSuccessor(v).value, FloatKey(l));
    }
  }

  lemma SuccessorsCompare(l: UInt64, v: UInt64)
    requires FloatSuccessor(l).Some? && FloatSuccessor(v).Some?
    ensures Less(FloatSuccessor(l).value, FloatSuccessor(v).value) <==> KeyOrdinal(l) < KeyOrdinal(v)
  {
    WordsOrder(FloatOrdinal(l) + 1, FloatOrdinal(v) + 1);
  }

  lemma FloatLessOrEqualByKey(l: UInt64, shown: Text, v: UInt64)
    ensures AtomHits(Literal.Float(l, shown), LessThanOrEqual, Value.Float(v)) <==>
      !IsNaN(v) && v != INFINITY_BITS && !IsNaN(l) && l != INFINITY_BITS && KeyOrdinal(v) <= KeyOrdinal(l)
  {
    if FloatSuccessor(l).Some? {
      assert Normalise(Literal.Float(l, shown), LessThanOrEqual) == Some(Bucket(Lt, FloatSuccessor(l).value));
      if FloatSuccessor(v).Some? {
        SuccessorsCompare(l, v);
      }
    }
  }

  /** A float atom is hit according to the numbers behind the keys, for all doubles. */
  lemma FloatHitsByKey(l: UInt64, shown: Text, op: ComparisonOperator, v: UInt64)
    requires Indexable(op)
    ensures AtomHits(Literal.Float(l, shown), op, Value.Float(v)) <==>
      match op
      case Equal => KeyOrdinal(l) == KeyOrdinal(v)
      case GreaterThan => KeyOrdinal(l) < KeyOrdinal(v)
      case GreaterThanOrEqual =>
        IsNaN(l) || l == SIGN_BIT + INFINITY_BITS || (l != NEGATIVE_ZERO && KeyOrdinal(l) <= KeyOrdinal(v))
      case LessThan => !IsNaN(v) && v != INFINITY_BITS && KeyOrdinal(v) < KeyOrdinal(l)
      case LessThanOrEqual =>
        !IsNaN(v) && v != INFINITY_BITS && !IsNaN(l) && l != INFINITY_BITS && KeyOrdinal(v) <= KeyOrdinal(l)
  {
    match op {
      case GreaterThanOrEqual => FloatGreaterOrEqualByKey(l, shown, v);
      case LessThan => FloatLessByKey(l, shown, v);
      case LessThanOrEqual => FloatLessOrEqualByKey(l, shown, v);
      case _ => WordsOrder(KeyOrdinal(l), KeyOrdinal(v));
    }
  }

  /** Comparison of doubles (section 5.11 of IEEE 754-2019): a NaN compares to nothing, the two zeros
      are equal. */
  predicate CompareFloats(v: UInt64, op: ComparisonOperator, l: UInt64)
    requires Indexable(op)
  {
    !IsNaN(v) && !IsNaN(l) && CompareIntegers(Denoted(v), op, Denoted(l))
  }

  /** When the index answers a float atom like the doubles compare. */
  predicate FloatAnswerIsExact(l: UInt64, op: ComparisonOperator, v: UInt64)
    requires Indexable(op)
  {
    if IsNaN(l) then
      match op
      case Equal => !IsNaN(v)
      case GreaterThanOrEqual => false
      case LessThan => IsNaN(v) || v == INFINITY_BITS
      case _ => true
    else if IsNaN(v) then
      match op
      case GreaterThan => false
      case GreaterThanOrEqual => l == NEGATIVE_ZERO
      case _ => true
    else if l == NEGATIVE_ZERO then
      match op
      case Equal => v != 0
      case GreaterThan => v == NEGATIVE_ZERO || Denoted(v) > 0
      case GreaterThanOrEqual => Denoted(v) < 0
      case LessThan => Denoted(v) >= 0
      case LessThanOrEqual => v == NEGATIVE_ZERO || Denoted(v) > 0
    else if v == NEGATIVE_ZERO then
      match op
      case Equal => l != 0
      case GreaterThan => Denoted(l) >= 0
      case GreaterThanOrEqual => l == SIGN_BIT + INFINITY_BITS || Denoted(l) > 0
      case LessThan => Denoted(l) > 0
      case LessThanOrEqual => l != INFINITY_BITS && Denoted(l) >= 0
    else !(op == LessThanOrEqual && l == INFINITY_BITS)
  }

  /** Two doubles of which neither is NaN or negative zero. */
  lemma OrdinaryFloatHits(l: UInt64, shown: Text, op: ComparisonOperator, v: UInt64)
    requires Indexable(op) && Ordinary(l) && Ordinary(v)
    ensures (AtomHits(Literal.Float(l, shown), op, Value.Float(v)) <==> CompareFloats(v, op, l))
       <==> !(op == LessThanOrEqual && l == INFINITY_BITS)
  {
    FloatHitsByKey(l, shown, op, v);
    OrdinalOrder(l, v);
    OrdinalOrder(v, l);
    InfinitiesAreExtreme(v);
    InfinitiesAreExtreme(l);
    OrdinalOrder(l, INFINITY_BITS);
    OrdinalOrder(v, INFINITY_BITS);
  }

  /** Negative zero against a number. */
  lemma NegativeZeroHits(l: UInt64, shown: Text, op: ComparisonOperator, v: UInt64)
    requires Indexable(op) && !IsNaN(l) && !IsNaN(v) && (l == NEGATIVE_ZERO || v == NEGATIVE_ZERO)
    ensures (AtomHits(Literal.Float(l, shown), op, Value.Float(v)) <==> CompareFloats(v, op, l)) <==> FloatAnswerIsExact(l, op, v)
  {
    FloatHitsByKey(l, shown, op, v);
    DenotedSign(l);
    DenotedSign(v);
    if l != NEGATIVE_ZERO { OrdinalRange(l); }
    if v != NEGATIVE_ZERO { OrdinalRange(v); }
  }

  lemma NaNHits(l: UInt64, shown: Text, op: ComparisonOperator, v: UInt64)
    requires Indexable(op) && (IsNaN(l) || IsNaN(v))
    ensures (AtomHits(Literal.Float(l, shown), op, Value.Float(v)) <==> CompareFloats(v, op, l)) <==> FloatAnswerIsExact(l, op, v)
  {
    FloatHitsByKey(l, shown, op, v);
    if Ordinary(l) { OrdinalRange(l); }
    if Ordinary(v) { OrdinalRange(v); }
  }

  /** Doubles, all of them: the index answers like the doubles compare exactly when
      `FloatAnswerIsExact` says so. Away from NaN and negative zero only `<= inf`, filed nowhere and so
      never hit, is wrong. */
  lemma FloatHits(l: UInt64, shown: Text, op: ComparisonOperator, v: UInt64)
    requires Indexable(op)
    ensures (AtomHits(Literal.Float(l, shown), op, Value.Float(v)) <==> CompareFloats(v, op, l)) <==> FloatAnswerIsExact(l, op, v)
  {
    if IsNaN(l) || IsNaN(v) {
      NaNHits(l, shown, op, v);
    } else if l == NEGATIVE_ZERO || v == NEGATIVE_ZERO {
      NegativeZeroHits(l, shown, op, v);
    } else {
      OrdinaryFloatHits(l, shown, op, v);
    }
  }

  predicate CompareBooleans(v: bool, op: ComparisonOperator, l: bool)
    requires Indexable(op)
  {
    CompareIntegers(if v then 1 else 0, op, if l then 1 else 0)
  }

  /** Booleans: the two successor functions disagree, so `<=` misses the literal's own value. */
  lemma BooleanHits(l: bool, op: ComparisonOperator, v: bool)
    requires Indexable(op)
    ensures (AtomHits(Literal.Boolean(l), op, Value.Boolean(v)) <==> CompareBooleans(v, op, l))
       <==> !(op == LessThanOrEqual && v == l)
  {
  }

  /** A boolean literal is filed under a single byte, 0 or 1, and that is what a looked-up string is
      compared with; `<= false` is filed nowhere. */
  lemma BooleanTextHits(l: bool, op: ComparisonOperator, v: Text)
    requires Indexable(op)
    ensures AtomHits(Literal.Boolean(l), op, Value.String(v)) <==>
      match op
      case Equal => v == if l then [1] else [0]
      case GreaterThan => Less(if l then [1] else [0], v)
      case GreaterThanOrEqual => if l then Less([0], v) else v != []
      case LessThan => Less(v, if l then [1] else [0])
      case LessThanOrEqual => l && Less(v, [1])
  {
    TextHits(Literal.Boolean(l), op, v);
  }
}
