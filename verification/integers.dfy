/** Fixed-width integers: the eight types a counter may have and the casts between them and i64. */
module Integers {
  datatype Width = W8 | W16 | W32 | W64

  datatype IntegerType = IntegerType(width: Width, signed: bool)

  const I64 := IntegerType(W64, true)

  /** The number of values of the width, two to the power of its bits. */
  function Size(w: Width): (n: int)
    ensures n > 0
  {
    match w
    case W8 => 0x100
    case W16 => 0x1_0000
    case W32 => 0x1_0000_0000
    case W64 => 0x1_0000_0000_0000_0000
  }

  function Half(w: Width): (n: int)
    ensures 2 * n == Size(w)
  {
    match w
    case W8 => 0x80
    case W16 => 0x8000
    case W32 => 0x8000_0000
    case W64 => 0x8000_0000_0000_0000
  }

  function Lowest(t: IntegerType): int { if t.signed then -Half(t.width) else 0 }

  predicate InRange(t: IntegerType, n: int) {
    Lowest(t) <= n < Lowest(t) + Size(t.width)
  }

  /** The ranges of the eight types, as Rust defines them. */
  lemma RangesOfTheTypes(n: int)
    ensures InRange(IntegerType(W8, true), n) <==> -128 <= n <= 127
    ensures InRange(IntegerType(W16, true), n) <==> -32_768 <= n <= 32_767
    ensures InRange(IntegerType(W32, true), n) <==> -2_147_483_648 <= n <= 2_147_483_647
    ensures InRange(I64, n) <==> -9_223_372_036_854_775_808 <= n <= 9_223_372_036_854_775_807
    ensures InRange(IntegerType(W8, false), n) <==> 0 <= n <= 255
    ensures InRange(IntegerType(W16, false), n) <==> 0 <= n <= 65_535
    ensures InRange(IntegerType(W32, false), n) <==> 0 <= n <= 4_294_967_295
    ensures InRange(IntegerType(W64, false), n) <==> 0 <= n <= 18_446_744_073_709_551_615
  {
    assert forall w: Width :: 2 * Half(w) == Size(w);
  }

  /** Two's-complement wrap-around: what an `as` cast to the type gives, and what addition in the type
      gives for the exact sum. */
  function Reduce(t: IntegerType, n: int): int {
    (n - Lowest(t)) % Size(t.width) + Lowest(t)
  }

  ghost predicate Congruent(a: int, b: int, m: int)
    requires m > 0
  {
    exists k: int :: a - b == Times(k, m)
  }

  function Times(k: int, m: int): int { k * m }

  lemma NoSmallMultiples(d: int, m: int)
    requires m > 0 && -m < Times(d, m) < m
    ensures d == 0
  {
  }

  lemma DifferenceOfMultiples(k: int, q: int, m: int)
    ensures Times(k, m) - Times(q, m) == Times(k - q, m)
  {
    assert k * m - q * m == (k - q) * m;
  }

  lemma QuotientIsUnique(x: int, r: int, k: int, m: int)
    requires m > 0 && 0 <= r < m && x - r == Times(k, m)
    ensures x % m == r
  {
    var q, s := x / m, x % m;
    assert x - s == Times(q, m);
    DifferenceOfMultiples(k, q, m);
    NoSmallMultiples(k - q, m);
    assert Times(0, m) == 0;
  }

  /** The reduced number is the only one in range that differs by a multiple of the size. */
  lemma ReducedIsTheRepresentative(t: IntegerType, n: int, r: int)
    ensures r == Reduce(t, n) <==> InRange(t, r) && Congruent(n, r, Size(t.width))
  {
    var m, x := Size(t.width), n - Lowest(t);
    if r == Reduce(t, n) {
      assert x == Times(x / m, m) + x % m;
      assert n - r == Times(x / m, m);
    }
    if InRange(t, r) && Congruent(n, r, m) {
      var k :| n - r == Times(k, m);
      QuotientIsUnique(x, r - Lowest(t), k, m);
    }
  }

  lemma InRangeIsKept(t: IntegerType, n: int)
    ensures InRange(t, n) <==> Reduce(t, n) == n
  {
    ReducedIsTheRepresentative(t, n, n);
    assert n - n == Times(0, Size(t.width));
  }

  /** How often a width fits into 64 bits. */
  function Ratio(w: Width): (q: int)
    ensures Times(q, Size(w)) == Size(W64)
  {
    match w
    case W8 => 0x100_0000_0000_0000
    case W16 => 0x1_0000_0000_0000
    case W32 => 0x1_0000_0000
    case W64 => 1
  }

  lemma Distribute(k: int, q: int, m: int)
    ensures Times(k, Times(q, m)) == Times(Times(k, q), m)
  {
    assert k * (q * m) == k * q * m;
  }

  /** Going through i64 loses nothing that a narrower type would keep. */
  lemma ReduceThroughI64(t: IntegerType, n: int)
    ensures Reduce(t, Reduce(I64, n)) == Reduce(t, n)
  {
    var wide, r, m := Reduce(I64, n), Reduce(t, n), Size(t.width);
    ReducedIsTheRepresentative(I64, n, wide);
    var k :| n - wide == Times(k, Size(W64));
    ReducedIsTheRepresentative(t, n, r);
    var j :| n - r == Times(j, m);
    Distribute(k, Ratio(t.width), m);
    var l := j - Times(k, Ratio(t.width));
    assert wide - r == Times(l, m) by {
      assert Times(j, m) - Times(Times(k, Ratio(t.width)), m) == Times(l, m);
    }
    ReducedIsTheRepresentative(t, wide, r);
  }

  /** Wrapping an operand first does not change a wrapped sum. */
  lemma ReduceOfSum(t: IntegerType, a: int, b: int)
    ensures Reduce(t, Reduce(t, a) + b) == Reduce(t, a + b)
  {
    var x, r, m := Reduce(t, a), Reduce(t, a + b), Size(t.width);
    ReducedIsTheRepresentative(t, a, x);
    var k :| a - x == Times(k, m);
    ReducedIsTheRepresentative(t, a + b, r);
    var j :| a + b - r == Times(j, m);
    assert x + b - r == Times(j - k, m);
    ReducedIsTheRepresentative(t, x + b, r);
  }

  lemma ReduceOfDifference(t: IntegerType, a: int, b: int)
    ensures Reduce(t, Reduce(t, a) - b) == Reduce(t, a - b)
  {
    ReduceOfSum(t, a, -b);
  }
}
