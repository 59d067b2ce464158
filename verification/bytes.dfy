/** Byte strings and their order. A Rust `String` is modelled by its UTF-8 bytes, because both the
    filter and the comparison index compare strings byte by byte. */
module Bytes {
  type Byte = b: nat | b < 256
  type Text = seq<Byte>

  datatype Option<+T> = None | Some(value: T)

  /** Lexicographic order on bytes: the order of `Vec<u8>` and of `String`. */
  predicate Less(a: Text, b: Text) {
    b != [] && (a == [] || a[0] < b[0] || (a[0] == b[0] && Less(a[1..], b[1..])))
  }

  predicate AtMost(a: Text, b: Text) {
    a == b || Less(a, b)
  }

  lemma {:induction false} LessIsStrictTotalOrder(a: Text, b: Text)
    ensures !(Less(a, b) && Less(b, a))
    ensures Less(a, b) || Less(b, a) || a == b
    ensures !Less(a, a)
  {
    if a != [] {
      LessIsStrictTotalOrder(a[1..], a[1..]);
      if b != [] && a[0] == b[0] {
        LessIsStrictTotalOrder(a[1..], b[1..]);
        assert a == [a[0]] + a[1..] && b == [b[0]] + b[1..];
      }
    }
  }

  lemma {:induction false} LessTransitive(a: Text, b: Text, c: Text)
    requires Less(a, b) && Less(b, c)
    ensures Less(a, c)
  {
    if a != [] && a[0] == b[0] && b[0] == c[0] {
      LessTransitive(a[1..], b[1..], c[1..]);
    }
  }

  /** At the first place where they differ, a has the smaller byte or has ended. */
  ghost predicate FirstDifference(a: Text, b: Text, k: nat) {
    k <= |a| && k < |b| && a[..k] == b[..k] && (k == |a| || a[k] < b[k])
  }

  lemma {:induction false} LessIsFirstDifference(a: Text, b: Text)
    ensures Less(a, b) <==> exists k: nat :: FirstDifference(a, b, k)
  {
    if Less(a, b) {
      var k := SmallerAt(a, b);
    } else if k: nat :| FirstDifference(a, b, k) {
      SmallerThere(a, b, k);
      assert false;
    }
  }

  lemma {:induction false} SmallerAt(a: Text, b: Text) returns (k: nat)
    requires Less(a, b)
    ensures FirstDifference(a, b, k)
  {
    if a == [] || a[0] < b[0] {
      k := 0;
    } else {
      var n := SmallerAt(a[1..], b[1..]);
      k := n + 1;
      assert a[..k] == [a[0]] + a[1..][..n] && b[..k] == [b[0]] + b[1..][..n];
    }
  }

  lemma {:induction false} SmallerThere(a: Text, b: Text, k: nat)
    requires FirstDifference(a, b, k)
    ensures Less(a, b)
  {
    if k > 0 {
      assert a[..k][0] == a[0] && b[..k][0] == b[0];
      assert a[1..][..k - 1] == a[..k][1..] && b[1..][..k - 1] == b[..k][1..];
      SmallerThere(a[1..], b[1..], k - 1);
    }
  }

  /** Appending a zero byte gives the immediate successor: nothing lies strictly between. */
  lemma {:induction false} AppendZeroIsSuccessor(a: Text, b: Text)
    ensures Less(a, b) <==> AtMost(a + [0], b)
  {
    if a == [] {
      assert a + [0] == [0];
      if b != [] && b[0] == 0 {
        assert Less([0], b) <==> Less([], b[1..]);
        assert b[1..] == [] ==> b == [0];
      }
    } else if b != [] && a[0] == b[0] {
      AppendZeroIsSuccessor(a[1..], b[1..]);
      assert (a + [0])[1..] == a[1..] + [0];
      assert b == [b[0]] + b[1..] && a + [0] == [a[0]] + (a[1..] + [0]);
    } else {
      assert (a + [0])[0] == a[0];
    }
  }

  lemma {:induction false} AppendZeroKeepsOrder(a: Text, b: Text)
    ensures AtMost(a + [0], b + [0]) <==> AtMost(a, b)
  {
    AppendZeroIsSuccessor(a, b + [0]);
    AppendZeroIsSuccessor(b, b + [0]);
    AppendZeroIsSuccessor(b, a);
    LessIsStrictTotalOrder(a, b);
    LessIsStrictTotalOrder(a, b + [0]);
    if Less(a, b) {
      LessTransitive(a, b, b + [0]);
    }
    if Less(a, b + [0]) && Less(b + [0], a) {
      assert false;
    }
  }

  /** Dropping the last byte gives a strictly smaller string. */
  lemma {:induction false} DropLastIsBelow(a: Text)
    requires a != []
    ensures Less(a[..|a| - 1], a)
  {
    if |a| > 1 {
      DropLastIsBelow(a[1..]);
      assert a[..|a| - 1][1..] == a[1..][..|a| - 2];
    }
  }

  /** For equal-length heads the order is decided by the heads first, then by the tails. */
  lemma {:induction false} LessOfConcat(a: Text, b: Text, x: Text, y: Text)
    requires |a| == |b|
    ensures Less(a + x, b + y) <==> Less(a, b) || (a == b && Less(x, y))
  {
    if a == [] {
      assert a + x == x && b + y == y;
    } else {
      LessOfConcat(a[1..], b[1..], x, y);
      assert (a + x)[1..] == a[1..] + x && (b + y)[1..] == b[1..] + y;
      assert a == [a[0]] + a[1..] && b == [b[0]] + b[1..];
    }
  }

  /** The number `n` on exactly `width` bytes, most significant first (`to_be_bytes`). */
  function BigEndian(n: nat, width: nat): (bytes: Text)
    ensures |bytes| == width
  {
    if width == 0 then [] else BigEndian(n / 256, width - 1) + [n % 256]
  }

  function Pow256(width: nat): (p: nat)
    ensures p > 0
  {
    if width == 0 then 1 else 256 * Pow256(width - 1)
  }

  /** Big-endian bytes of one width sort exactly like the numbers they encode. */
  lemma {:induction false} BigEndianOrder(a: nat, b: nat, width: nat)
    requires a < Pow256(width) && b < Pow256(width)
    ensures Less(BigEndian(a, width), BigEndian(b, width)) <==> a < b
    ensures BigEndian(a, width) == BigEndian(b, width) <==> a == b
  {
    if width > 0 {
      var x, y := BigEndian(a / 256, width - 1), BigEndian(b / 256, width - 1);
      BigEndianOrder(a / 256, b / 256, width - 1);
      LessOfConcat(x, y, [a % 256], [b % 256]);
      assert (x + [a % 256])[..width - 1] == x && (y + [b % 256])[..width - 1] == y;
      assert (x + [a % 256])[width - 1] == a % 256 && (y + [b % 256])[width - 1] == b % 256;
      assert [a % 256][1..] == [] && [b % 256][1..] == [];
    }
  }

  /** The number that bytes stand for, most significant first. */
  function BytesValue(t: Text): nat {
    if t == [] then 0 else 256 * BytesValue(t[..|t| - 1]) + t[|t| - 1]
  }

  lemma {:induction false} BigEndianIsRead(n: nat, width: nat)
    requires n < Pow256(width)
    ensures BytesValue(BigEndian(n, width)) == n
  {
    if width > 0 {
      BigEndianIsRead(n / 256, width - 1);
      assert BigEndian(n, width)[..width - 1] == BigEndian(n / 256, width - 1);
    }
  }

  /** The bytes of an ASCII string constant. */
  function Ascii(s: string): (t: Text)
    ensures |t| == |s|
  {
    seq(|s|, i requires 0 <= i < |s| => s[i] as int % 256)
  }

  /** The decimal digits of a natural number. */
  function Decimal(n: nat): (t: Text)
    ensures t != []
  {
    if n < 10 then [48 + n] else Decimal(n / 10) + [48 + n % 10]
  }

  /** What `to_string` prints for an integer. */
  function IntegerText(i: int): Text {
    if i < 0 then Ascii("-") + Decimal(-i) else Decimal(i)
  }

  // ---------- reading bytes ----------

  predicate IsDigit(c: Byte) { 48 <= c <= 57 }

  predicate AllDigits(t: Text) {
    forall c | c in t :: IsDigit(c)
  }

  function DigitsValue(t: Text): nat
    requires AllDigits(t)
  {
    if t == [] then 0
    else
      assert IsDigit(t[|t| - 1]);
      10 * DigitsValue(t[..|t| - 1]) + (t[|t| - 1] - 48)
  }

  /** The digits printed for a number read as that number, and do not begin with a zero needlessly. */
  lemma {:induction false} DecimalReadsBack(n: nat)
    ensures AllDigits(Decimal(n)) && DigitsValue(Decimal(n)) == n
    ensures Decimal(n)[0] == 48 <==> n == 0
  {
    var t := Decimal(n);
    if n < 10 {
      assert t[..0] == [];
    } else {
      DecimalReadsBack(n / 10);
      assert t[..|t| - 1] == Decimal(n / 10);
    }
  }

  /** And those are the only digits that do. */
  lemma {:induction false} DecimalIsTheNumeral(t: Text, n: nat)
    requires t != [] && AllDigits(t) && (|t| == 1 || t[0] != 48) && n == DigitsValue(t)
    ensures Decimal(n) == t && (t[0] != 48 ==> n > 0)
  {
    var front, last := t[..|t| - 1], t[|t| - 1];
    assert t == front + [last] && IsDigit(last);
    if |t| == 1 {
      assert front == [];
      assert n == last - 48;
    } else {
      assert front[0] == t[0];
      var m := DigitsValue(front);
      DecimalIsTheNumeral(front, m);
      OneDigitMore(m, last - 48);
    }
  }

  lemma OneDigitMore(n: nat, digit: nat)
    requires n > 0 && digit < 10
    ensures Decimal(10 * n + digit) == Decimal(n) + [48 + digit]
  {
    var m := 10 * n + digit;
    assert m / 10 == n && m % 10 == digit;
  }

  /** How many bytes at the start are of a kind. */
  function RunLength(kind: Byte -> bool, t: Text): (n: nat)
    ensures n <= |t|
  {
    if t == [] || !kind(t[0]) then 0 else 1 + RunLength(kind, t[1..])
  }

  /** What follows a run of one kind does not go on with that kind. */
  predicate Stops(kind: Byte -> bool, rest: Text) {
    rest == [] || !kind(rest[0])
  }

  lemma {:induction false} RunIsTaken(kind: Byte -> bool, a: Text, rest: Text)
    requires (forall c | c in a :: kind(c)) && Stops(kind, rest)
    ensures RunLength(kind, a + rest) == |a|
    ensures (a + rest)[..|a|] == a && (a + rest)[|a|..] == rest
  {
    if a == [] {
      assert a + rest == rest;
    } else {
      assert (a + rest)[1..] == a[1..] + rest;
      RunIsTaken(kind, a[1..], rest);
    }
  }

  /** The texts of the elements, one after the other. */
  function Spell<T, U>(f: T -> seq<U>, xs: seq<T>): seq<U> {
    if xs == [] then [] else f(xs[0]) + Spell(f, xs[1..])
  }

  /** A member of a set: its existence is not seen unaided where the elements are integers. */
  lemma Inhabited<T>(s: set<T>) returns (x: T)
    requires s != {}
    ensures x in s
  {
    x :| x in s;
  }

  lemma Associate<T>(a: seq<T>, b: seq<T>, c: seq<T>)
    ensures a + (b + c) == a + b + c
  {
  }

  lemma FirstOfConcat<T>(a: seq<T>, b: seq<T>)
    requires a != []
    ensures a + b != [] && (a + b)[0] == a[0] && (a + b)[1..] == a[1..] + b
  {
  }

  lemma {:induction false} SpellConcat<T, U>(f: T -> seq<U>, a: seq<T>, b: seq<T>)
    ensures Spell(f, a + b) == Spell(f, a) + Spell(f, b)
  {
    if a == [] {
      assert a + b == b;
      assert [] + Spell(f, b) == Spell(f, b);
    } else {
      FirstOfConcat(a, b);
      SpellConcat(f, a[1..], b);
      Associate(f(a[0]), Spell(f, a[1..]), Spell(f, b));
    }
  }

  lemma SpellOne<T, U>(f: T -> seq<U>, x: T)
    ensures Spell(f, [x]) == f(x)
  {
    assert [x][1..] == [];
  }

  /** A list spelled between two single elements. */
  lemma SpellBetween<T, U>(f: T -> seq<U>, x: T, mid: seq<T>, y: T)
    ensures Spell(f, [x] + mid + [y]) == f(x) + Spell(f, mid) + f(y)
  {
    SpellOne(f, x);
    SpellOne(f, y);
    SpellConcat(f, [x], mid);
    SpellConcat(f, [x] + mid, [y]);
  }

  /** Two lists spelled around a single element. */
  lemma SpellAround<T, U>(f: T -> seq<U>, a: seq<T>, x: T, b: seq<T>)
    ensures Spell(f, a + [x] + b) == Spell(f, a) + f(x) + Spell(f, b)
  {
    SpellOne(f, x);
    SpellConcat(f, a, [x]);
    SpellConcat(f, a + [x], b);
  }

  /** Two lists spelled around a single element, between two others. */
  lemma SpellInside<T, U>(f: T -> seq<U>, open: T, l: seq<T>, word: T, r: seq<T>, close: T)
    ensures Spell(f, [open] + l + [word] + r + [close]) == f(open) + Spell(f, l) + f(word) + Spell(f, r) + f(close)
  {
    SpellAround(f, l, word, r);
    SpellBetween(f, open, l + [word] + r, close);
    Regroup([open], l, [word], r, [close]);
    Regroup(f(open), Spell(f, l), f(word), Spell(f, r), f(close));
  }

  /** A list spelled after two single elements and before one. */
  lemma SpellAfterTwo<T, U>(f: T -> seq<U>, x: T, y: T, mid: seq<T>, close: T)
    ensures Spell(f, [x, y] + mid + [close]) == f(x) + f(y) + Spell(f, mid) + f(close)
  {
    assert [x, y] == [x] + [] + [y];
    SpellInside(f, x, [], y, mid, close);
    assert f(x) + [] == f(x);
  }

  lemma Regroup<T>(a: seq<T>, b: seq<T>, c: seq<T>, d: seq<T>, e: seq<T>)
    ensures a + (b + c + d) + e == a + b + c + d + e
    ensures a + (b + c + d + e) == a + b + c + d + e
  {
  }
}
