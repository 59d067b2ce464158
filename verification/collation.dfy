/** Byte keys for literals and for looked-up values, with their successor and predecessor keys. */
module Collation {
  import opened Bytes
  import opened Ast

  datatype Value =
    | String(s: Text)
    | Integer(i: Int64)
    | Float(bits: UInt64)
    | Boolean(b: bool)

  // ---------- strings ----------

  function StringSuccessor(s: Text): Text { s + [0] }

  function StringPredecessor(s: Text): Option<Text> {
    if s == [] then None else Some(s[..|s| - 1])
  }

  // ---------- 64-bit integers ----------

  const I64_MIN: Int64 := -0x8000_0000_0000_0000
  const I64_MAX: Int64 := 0x7FFF_FFFF_FFFF_FFFF

  /** The two's complement bit pattern of an `i64`. */
  function Pattern(i: Int64): UInt64 {
    if i < 0 then i + 0x1_0000_0000_0000_0000 else i
  }

  function IntegerKey(i: Int64): Text { BigEndian(Pattern(i), 8) }

  function IntegerSuccessor(i: Int64): Option<Text> {
    if i == I64_MAX then None else Some(IntegerKey(i + 1))
  }

  function IntegerPredecessor(i: Int64): Option<Text> {
    if i == I64_MIN then None else Some(IntegerKey(i - 1))
  }

  // ---------- doubles, by their bits ----------

  const SIGN_BIT: UInt64 := 0x8000_0000_0000_0000
  const INFINITY_BITS: UInt64 := 0x7FF0_0000_0000_0000
  const NEGATIVE_ZERO: UInt64 := SIGN_BIT

  function FlipSign(bits: UInt64): UInt64 {
    if bits < SIGN_BIT then bits + SIGN_BIT else bits - SIGN_BIT
  }

  function Magnitude(bits: UInt64): UInt64 {
    if bits < SIGN_BIT then bits else bits - SIGN_BIT
  }

  predicate IsNaN(bits: UInt64) { Magnitude(bits) > INFINITY_BITS }

  /** `f >= 0.0` for a double that is not NaN; negative zero passes this test. */
  predicate AtLeastZero(bits: UInt64) { bits < SIGN_BIT || bits == NEGATIVE_ZERO }

  /** The sign bit flipped when `f >= 0.0`, all bits flipped otherwise. */
  function FloatOrdinal(bits: UInt64): UInt64 {
    if AtLeastZero(bits) then FlipSign(bits) else 0xFFFF_FFFF_FFFF_FFFF - bits
  }

  function FloatKey(bits: UInt64): Text {
    BigEndian(if IsNaN(bits) then 0xFFFF_FFFF_FFFF_FFFF else FloatOrdinal(bits), 8)
  }

  function FloatSuccessor(bits: UInt64): Option<Text> {
    if IsNaN(bits) || bits == INFINITY_BITS then None
    else Some(BigEndian(FloatOrdinal(bits) + 1, 8))
  }

  function FloatPredecessor(bits: UInt64): Option<Text> {
    if IsNaN(bits) || bits == SIGN_BIT + INFINITY_BITS then None
    else Some(BigEndian(if FloatOrdinal(bits) == 0 then 0xFFFF_FFFF_FFFF_FFFF else FloatOrdinal(bits) - 1, 8))
  }

  // ---------- the two implementations of the trait ----------

  function LiteralKey(lit: Literal): Text {
    match lit
    case String(s) => s
    case Integer(i) => IntegerKey(i)
    case Float(bits, _) => FloatKey(bits)
    case Boolean(b) => [if b then 1 else 0]
  }

  function LiteralSuccessor(lit: Literal): Option<Text> {
    match lit
    case String(s) => Some(StringSuccessor(s))
    case Integer(i) => IntegerSuccessor(i)
    case Float(bits, _) => FloatSuccessor(bits)
    case Boolean(b) => if !b then None else Some([1])
  }

  function LiteralPredecessor(lit: Literal): Option<Text> {
    match lit
    case String(s) => StringPredecessor(s)
    case Integer(i) => IntegerPredecessor(i)
    case Float(bits, _) => FloatPredecessor(bits)
    case Boolean(b) => if b then Some([0]) else None
  }

  function ValueKey(v: Value): Text {
    match v
    case String(s) => s
    case Integer(i) => IntegerKey(i)
    case Float(bits) => FloatKey(bits)
    case Boolean(b) => [if b then 1 else 0]
  }

  function ValueSuccessor(v: Value): Option<Text> {
    match v
    case String(s) => Some(StringSuccessor(s))
    case Integer(i) => IntegerSuccessor(i)
    case Float(bits) => FloatSuccessor(bits)
    case Boolean(b) => if b then None else Some([1])
  }

  // ---------- integer keys ----------

  lemma WordsOrder(a: UInt64, b: UInt64)
    ensures Less(BigEndian(a, 8), BigEndian(b, 8)) <==> a < b
    ensures BigEndian(a, 8) == BigEndian(b, 8) <==> a == b
  {
    assert Pow256(8) == 0x1_0000_0000_0000_0000 by {
      assert Pow256(2) == 0x1_0000;
      assert Pow256(4) == 0x1_0000_0000;
      assert Pow256(6) == 0x1_0000_0000_0000;
    }
    BigEndianOrder(a, b, 8);
  }

  /** Integer keys sort numerically exactly when the two integers have the same sign. */
  lemma IntegerKeyOrder(a: Int64, b: Int64)
    ensures (Less(IntegerKey(a), IntegerKey(b)) <==> a < b) <==> ((a < 0) == (b < 0))
    ensures IntegerKey(a) == IntegerKey(b) <==> a == b
  {
    WordsOrder(Pattern(a), Pattern(b));
  }

  // ---------- double keys ----------

  function Pow2(n: nat): (p: nat)
    ensures p > 0
  {
    if n == 0 then 1 else 2 * Pow2(n - 1)
  }

  /** The absolute value of a double in units of 2^-1074 (IEEE 754-2019, section 3.4): an 11-bit
      biased exponent over a 52-bit fraction. Infinity continues the pattern above all finite values. */
  function Absolute(m: nat): nat {
    var exponent, fraction := m / 0x10_0000_0000_0000, m % 0x10_0000_0000_0000;
    if exponent == 0 then fraction else (0x10_0000_0000_0000 + fraction) * Pow2(exponent - 1)
  }

  function Signed(bits: UInt64, n: nat): int {
    if bits >= SIGN_BIT then 0 - n else n
  }

  /** The number a non-NaN double denotes, in the same units. */
  function Denoted(bits: UInt64): int
    requires !IsNaN(bits)
  {
    Signed(bits, Absolute(Magnitude(bits)))
  }

  lemma AbsoluteStep(m: nat)
    ensures Absolute(m) < Absolute(m + 1)
  {
    var h := 0x10_0000_0000_0000;
    var e, f := m / h, m % h;
    if f + 1 < h {
      assert (m + 1) / h == e && (m + 1) % h == f + 1;
      if e > 0 {
        assert (h + (f + 1)) * Pow2(e - 1) == (h + f) * Pow2(e - 1) + Pow2(e - 1);
      }
    } else {
      assert (m + 1) / h == e + 1 && (m + 1) % h == 0;
      if e > 0 {
        var p := Pow2(e - 1);
        assert Pow2(e) == 2 * p;
        assert (h + f) * p == 2 * h * p - p;
      }
    }
  }

  lemma {:induction false} AbsoluteMonotone(a: nat, b: nat)
    requires a < b
    ensures Absolute(a) < Absolute(b)
    decreases b
  {
    AbsoluteStep(b - 1);
    if a < b - 1 {
      AbsoluteMonotone(a, b - 1);
    }
  }

  lemma AbsoluteOrder(x: nat, y: nat)
    ensures Absolute(x) < Absolute(y) <==> x < y
    ensures Absolute(x) == Absolute(y) <==> x == y
  {
    if x < y { AbsoluteMonotone(x, y); }
    if y < x { AbsoluteMonotone(y, x); }
  }

  /** The ordinal of a double is ordered like its magnitude under its sign, for any monotone reading
      `x`, `y` of the two magnitudes. */
  lemma SignedOrder(a: UInt64, b: UInt64, x: nat, y: nat)
    requires a != NEGATIVE_ZERO && b != NEGATIVE_ZERO
    requires (x < y <==> Magnitude(a) < Magnitude(b)) && (x == y <==> Magnitude(a) == Magnitude(b))
    requires (x == 0 <==> Magnitude(a) == 0) && (y == 0 <==> Magnitude(b) == 0)
    ensures FloatOrdinal(a) < FloatOrdinal(b) <==> Signed(a, x) < Signed(b, y)
    ensures a == b <==> Signed(a, x) == Signed(b, y)
    ensures FloatOrdinal(a) == FloatOrdinal(b) <==> a == b
  {
  }

  /** Away from negative zero, the ordinal of a double is ordered like the number it denotes. */
  lemma OrdinalOrder(a: UInt64, b: UInt64)
    requires !IsNaN(a) && !IsNaN(b) && a != NEGATIVE_ZERO && b != NEGATIVE_ZERO
    ensures FloatOrdinal(a) < FloatOrdinal(b) <==> Denoted(a) < Denoted(b)
    ensures FloatOrdinal(a) == FloatOrdinal(b) <==> a == b
    ensures Denoted(a) == Denoted(b) <==> a == b
  {
    AbsoluteOrder(Magnitude(a), Magnitude(b));
    AbsoluteOrder(0, Magnitude(a));
    AbsoluteOrder(0, Magnitude(b));
    SignedOrder(a, b, Absolute(Magnitude(a)), Absolute(Magnitude(b)));
  }

  lemma DenotedSign(a: UInt64)
    requires !IsNaN(a)
    ensures Denoted(a) < 0 <==> a > NEGATIVE_ZERO
    ensures Denoted(a) == 0 <==> a == 0 || a == NEGATIVE_ZERO
  {
    AbsoluteOrder(0, Magnitude(a));
  }

  /** The byte key orders two doubles like the numbers they denote, except around negative zero,
      whose key is the smallest of all: it fails exactly for -0 against +0 or a negative number. */
  lemma FloatKeyOrder(a: UInt64, b: UInt64)
    requires !IsNaN(a) && !IsNaN(b)
    ensures (Less(FloatKey(a), FloatKey(b)) <==> Denoted(a) < Denoted(b))
       <==> !(a == NEGATIVE_ZERO && (b == 0 || b > NEGATIVE_ZERO)) && !(a > NEGATIVE_ZERO && b == NEGATIVE_ZERO)
    ensures FloatKey(a) == FloatKey(b) <==> a == b
  {
    WordsOrder(FloatOrdinal(a), FloatOrdinal(b));
    if a != NEGATIVE_ZERO && b != NEGATIVE_ZERO {
      OrdinalOrder(a, b);
    }
    DenotedSign(a);
    DenotedSign(b);
  }

  /** Every NaN shares one key, above the key of every number. */
  lemma NaNSortsLast(nan: UInt64, b: UInt64)
    requires IsNaN(nan)
    ensures if IsNaN(b) then FloatKey(nan) == FloatKey(b) else Less(FloatKey(b), FloatKey(nan))
  {
    WordsOrder(FloatOrdinal(b), 0xFFFF_FFFF_FFFF_FFFF);
  }

  /** Away from negative zero the ordinal stays clear of both ends of the 64-bit range. */
  lemma OrdinalRange(a: UInt64)
    requires !IsNaN(a) && a != NEGATIVE_ZERO
    ensures 0xF_FFFF_FFFF_FFFF <= FloatOrdinal(a) <= 0xFFF0_0000_0000_0000
    ensures FloatOrdinal(a) == 0xFFF0_0000_0000_0000 ==> a == INFINITY_BITS
    ensures FloatOrdinal(a) == 0xF_FFFF_FFFF_FFFF ==> a == SIGN_BIT + INFINITY_BITS
  {
  }

  lemma InfinitiesAreExtreme(v: UInt64)
    requires !IsNaN(v) && v != NEGATIVE_ZERO
    ensures Denoted(SIGN_BIT + INFINITY_BITS) <= Denoted(v) <= Denoted(INFINITY_BITS)
  {
    OrdinalRange(v);
    OrdinalOrder(v, INFINITY_BITS);
    OrdinalOrder(v, SIGN_BIT + INFINITY_BITS);
  }

  /** The number behind the key of any double. */
  function KeyOrdinal(bits: UInt64): UInt64 {
    if IsNaN(bits) then 0xFFFF_FFFF_FFFF_FFFF else FloatOrdinal(bits)
  }

  /** Where the keys place a double: negative zero below everything, NaN above everything, every other
      double at the number it denotes. */
  function Position(bits: UInt64): int {
    if IsNaN(bits) then Denoted(INFINITY_BITS) + 1
    else if bits == NEGATIVE_ZERO then Denoted(SIGN_BIT + INFINITY_BITS) - 1
    else Denoted(bits)
  }

  lemma PositionOrder(a: UInt64, b: UInt64)
    ensures KeyOrdinal(a) < KeyOrdinal(b) <==> Position(a) < Position(b)
    ensures KeyOrdinal(a) == KeyOrdinal(b) <==> Position(a) == Position(b)
    ensures Position(a) == Position(b) <==> a == b || (IsNaN(a) && IsNaN(b))
  {
    InfinitiesAreExtreme(0);
    if Ordinary(a) {
      InfinitiesAreExtreme(a);
      OrdinalRange(a);
    }
    if Ordinary(b) {
      InfinitiesAreExtreme(b);
      OrdinalRange(b);
    }
    if Ordinary(a) && Ordinary(b) {
      OrdinalOrder(a, b);
    }
  }

  /** The keys of all doubles sort by position: a total order with one place for all NaNs. */
  lemma FloatKeysSortByPosition(a: UInt64, b: UInt64)
    ensures Less(FloatKey(a), FloatKey(b)) <==> Position(a) < Position(b)
    ensures FloatKey(a) == FloatKey(b) <==> Position(a) == Position(b)
  {
    WordsOrder(KeyOrdinal(a), KeyOrdinal(b));
    PositionOrder(a, b);
  }

  predicate Ordinary(bits: UInt64) { !IsNaN(bits) && bits != NEGATIVE_ZERO }

  lemma SuccessorOrdinal(a: UInt64, b: UInt64)
    requires !IsNaN(a) && a != INFINITY_BITS
    ensures FloatSuccessor(a) == Some(BigEndian(FloatOrdinal(a) + 1, 8))
    ensures Less(FloatKey(a), FloatSuccessor(a).value)
    ensures AtMost(FloatSuccessor(a).value, FloatKey(b)) <==> FloatOrdinal(a) < KeyOrdinal(b)
  {
    var n := FloatOrdinal(a);
    WordsOrder(n, n + 1);
    WordsOrder(n + 1, KeyOrdinal(b));
  }

  lemma PredecessorOrdinal(a: UInt64, b: UInt64)
    requires Ordinary(a) && a != SIGN_BIT + INFINITY_BITS
    ensures FloatOrdinal(a) > 0
    ensures FloatPredecessor(a) == Some(BigEndian(FloatOrdinal(a) - 1, 8))
    ensures Less(FloatPredecessor(a).value, FloatKey(a))
    ensures Less(FloatPredecessor(a).value, FloatKey(b)) <==> FloatOrdinal(a) <= KeyOrdinal(b)
  {
    var n := FloatOrdinal(a);
    OrdinalRange(a);
    WordsOrder(n - 1, n);
    WordsOrder(n - 1, KeyOrdinal(b));
  }

  /** The successor key lies just above the key of `a`, whichever double that is: a double's key reaches
      it exactly when the double is placed after `a`, so no key falls in between. Only NaN and infinity
      have none. */
  lemma FloatSuccessorIsTight(a: UInt64, b: UInt64)
    ensures FloatSuccessor(a).None? <==> IsNaN(a) || a == INFINITY_BITS
    ensures FloatSuccessor(a).Some? ==>
      && Less(FloatKey(a), FloatSuccessor(a).value)
      && (AtMost(FloatSuccessor(a).value, FloatKey(b)) <==> Position(a) < Position(b))
  {
    if FloatSuccessor(a).Some? {
      SuccessorOrdinal(a, b);
      PositionOrder(a, b);
    }
  }

  /** The predecessor key lies just below the key of `a`: a double's key stays above it exactly when
      the double is placed at `a` or after it. Only NaN and negative infinity have none, and only
      negative zero's wraps around to the top. */
  lemma FloatPredecessorIsTight(a: UInt64, b: UInt64)
    ensures FloatPredecessor(a).None? <==> IsNaN(a) || a == SIGN_BIT + INFINITY_BITS
    ensures FloatPredecessor(a).Some? && a != NEGATIVE_ZERO ==>
      && Less(FloatPredecessor(a).value, FloatKey(a))
      && (Less(FloatPredecessor(a).value, FloatKey(b)) <==> Position(a) <= Position(b))
  {
    if FloatPredecessor(a).Some? && a != NEGATIVE_ZERO {
      PredecessorOrdinal(a, b);
      PositionOrder(a, b);
    }
  }

  /** Subtracting one from negative zero's key, the smallest of all, wraps around to the key of NaN:
      no double's key lies above it. */
  lemma NegativeZeroWrapsAround(b: UInt64)
    ensures AtMost(FloatKey(NEGATIVE_ZERO), FloatKey(b))
    ensures FloatPredecessor(NEGATIVE_ZERO) == Some(FloatKey(INFINITY_BITS + 1))
    ensures IsNaN(INFINITY_BITS + 1) && AtMost(FloatKey(b), FloatPredecessor(NEGATIVE_ZERO).value)
  {
    WordsOrder(0, KeyOrdinal(b));
    WordsOrder(KeyOrdinal(b), 0xFFFF_FFFF_FFFF_FFFF);
  }

  /** Numbers are filed under eight bytes: an integer under its two's complement, a double under its bits
      with the sign bit flipped, or all bits flipped if it is negative; -0 counts as not negative, and
      every NaN has all bits set. Booleans are filed under one byte. */
  lemma KeysAreTheseBytes(i: Int64, bits: UInt64, b: bool)
    ensures |IntegerKey(i)| == 8 && BytesValue(IntegerKey(i)) == i % 0x1_0000_0000_0000_0000
    ensures |FloatKey(bits)| == 8 && BytesValue(FloatKey(bits)) ==
      if IsNaN(bits) then 0xFFFF_FFFF_FFFF_FFFF
      else if bits < SIGN_BIT then bits + SIGN_BIT
      else if bits == NEGATIVE_ZERO then 0
      else 0xFFFF_FFFF_FFFF_FFFF - bits
    ensures LiteralKey(Literal.Boolean(b)) == ValueKey(Value.Boolean(b)) == if b then [1] else [0]
  {
    assert Pow256(8) == 0x1_0000_0000_0000_0000;
    BigEndianIsRead(Pattern(i), 8);
    BigEndianIsRead(KeyOrdinal(bits), 8);
  }

  // ---------- ranges ----------

  datatype RangeBound<+T> = Included(bound: T) | Excluded(bound: T) | Unbounded

  /** `is_in_range`, on keys. */
  predicate IsInRange(key: Text, lower: RangeBound<Text>, upper: RangeBound<Text>) {
    match (lower, upper)
    case (Included(l), Included(u)) => !Less(key, l) && !Less(u, key)
    case (Included(l), Excluded(u)) => !Less(key, l) && Less(key, u)
    case (Excluded(l), Included(u)) => Less(l, key) && !Less(u, key)
    case (Excluded(l), Excluded(u)) => Less(l, key) && Less(key, u)
    case (Unbounded, Included(u)) => !Less(u, key)
    case (Unbounded, Excluded(u)) => Less(key, u)
    case (Included(l), Unbounded) => !Less(key, l)
    case (Excluded(l), Unbounded) => Less(l, key)
    case (Unbounded, Unbounded) => true
  }

  /** For strings an excluded lower bound is the same as its successor included. */
  lemma ExcludedIsTheSuccessorIncluded(s: Text, l: Text, upper: RangeBound<Text>)
    ensures IsInRange(s, Excluded(l), upper) <==> IsInRange(s, Included(StringSuccessor(l)), upper)
  {
    AppendZeroIsSuccessor(l, s);
    LessIsStrictTotalOrder(s, StringSuccessor(l));
  }

  /** The predecessor of a string decides the order like the string itself, so that excluding the one is
      including the other, exactly if the byte it drops is zero. Otherwise a string lies in between. */
  lemma StringPredecessorIsTightIff(s: Text)
    requires s != []
    ensures var below := StringPredecessor(s).value;
      && Less(below, s)
      && ((forall b :: Less(below, b) <==> AtMost(s, b)) <==> s[|s| - 1] == 0)
      && (s[|s| - 1] > 0 ==> Less(below, below + [0]) && Less(below + [0], s))
  {
    var below := s[..|s| - 1];
    DropLastIsBelow(s);
    if s[|s| - 1] == 0 {
      assert s == below + [0];
      forall b ensures Less(below, b) <==> AtMost(s, b) {
        AppendZeroIsSuccessor(below, b);
      }
    } else {
      var between := below + [0];
      AppendZeroIsSuccessor(below, between);
      AppendZeroIsSuccessor(below, s);
      assert between[|s| - 1] == 0;
      LessIsStrictTotalOrder(between, s);
      assert Less(below, between) && !AtMost(s, between);
    }
  }

  function FloatBound(b: RangeBound<UInt64>): RangeBound<Text> {
    match b
    case Included(n) => Included(FloatKey(n))
    case Excluded(n) => Excluded(FloatKey(n))
    case Unbounded => Unbounded
  }

  predicate AboveBound(a: UInt64, lower: RangeBound<UInt64>) {
    && (lower.Included? ==> Position(a) >= Position(lower.bound))
    && (lower.Excluded? ==> Position(a) > Position(lower.bound))
  }

  predicate BelowBound(a: UInt64, upper: RangeBound<UInt64>) {
    && (upper.Included? ==> Position(a) <= Position(upper.bound))
    && (upper.Excluded? ==> Position(a) < Position(upper.bound))
  }

  /** Ranges of doubles are decided by position, for all doubles and all nine kinds of bounds: like the
      numbers, except that negative zero lies below every number and NaN above. */
  lemma FloatRange(a: UInt64, lower: RangeBound<UInt64>, upper: RangeBound<UInt64>)
    ensures IsInRange(FloatKey(a), FloatBound(lower), FloatBound(upper)) <==> AboveBound(a, lower) && BelowBound(a, upper)
  {
    if !lower.Unbounded? {
      FloatKeysSortByPosition(a, lower.bound);
      FloatKeysSortByPosition(lower.bound, a);
    }
    if !upper.Unbounded? {
      FloatKeysSortByPosition(a, upper.bound);
      FloatKeysSortByPosition(upper.bound, a);
    }
  }
}
