/** The comparison index: which subscriptions compare one field with which literal. */
module ComparisonIndices {
  import opened Bytes
  import opened Ast
  import opened Collation

  /** A ULID: all that matters is that ids are totally ordered. */
  type SubId = int

  /** The three maps of the index. */
  datatype Bound = Eq | Gt | Lt

  /** One stored registration: `sub` is listed under `key` in the map for `bound`. */
  datatype Entry = Entry(bound: Bound, key: Text, sub: SubId)

  datatype Bucket = Bucket(bound: Bound, key: Text)

  /** Operators on which the index does not panic. */
  predicate Indexable(op: ComparisonOperator) {
    Basic(op) && !op.NotEqual?
  }

  /** The bucket an atom is filed under: `x >= l` as "above the key before l", `x <= l` as "below
      the key after l". A literal without a successor is filed nowhere, and so, here, are the
      operators the index panics on. */
  function Normalise(lit: Literal, op: ComparisonOperator): Option<Bucket> {
    match op
    case Equal => Some(Bucket(Eq, LiteralKey(lit)))
    case GreaterThan => Some(Bucket(Gt, LiteralKey(lit)))
    case LessThan => Some(Bucket(Lt, LiteralKey(lit)))
    case GreaterThanOrEqual =>
      (match LiteralPredecessor(lit)
       case Some(key) => Some(Bucket(Gt, key))
       case None => Some(Bucket(Gt, [])))
    case LessThanOrEqual =>
      (match LiteralSuccessor(lit)
       case Some(key) => Some(Bucket(Lt, key))
       case None => None)
    case _ => None
  }

  /** The buckets a looked-up value collects. */
  predicate Hits(b: Bucket, v: Value) {
    match b.bound
    case Eq => b.key == ValueKey(v)
    case Gt => Less(b.key, ValueKey(v))
    case Lt => ValueSuccessor(v).Some? && !Less(b.key, ValueSuccessor(v).value)
  }

  /** The subscriptions registered in some bucket that `v` collects. */
  function Matching(entries: multiset<Entry>, v: Value): set<SubId> {
    set e | e in entries && Hits(Bucket(e.bound, e.key), v) :: e.sub
  }

  function Filed(lit: Literal, op: ComparisonOperator, sub: SubId): multiset<Entry> {
    match Normalise(lit, op)
    case Some(b) => multiset{Entry(b.bound, b.key, sub)}
    case None => multiset{}
  }

  lemma CountAfterRemoval<T>(m: multiset<T>, x: T, y: T)
    ensures (m - multiset{x})[y] == if x == y && m[x] > 0 then m[x] - 1 else m[y]
  {
  }

  // ---------- sorted result sets ----------

  predicate Ascending(r: seq<SubId>) {
    forall i, j | 0 <= i < j < |r| :: r[i] < r[j]
  }

  /** Insertion into a `BTreeSet`, seen as its ascending element list. */
  function Insert(r: seq<SubId>, x: SubId): (s: seq<SubId>)
    requires Ascending(r)
    ensures Ascending(s)
    ensures forall y :: y in s <==> y in r || y == x
  {
    if r == [] then [x]
    else if x < r[0] then
      assert forall y | y in r :: r[0] <= y;
      Prepended(x, r);
      [x] + r
    else if x == r[0] then r
    else
      assert r == [r[0]] + r[1..];
      var rest := Insert(r[1..], x);
      assert forall y | y in rest :: r[0] < y;
      Prepended(r[0], rest);
      [r[0]] + rest
  }

  lemma Prepended(x: SubId, r: seq<SubId>)
    requires Ascending(r) && forall y | y in r :: x < y
    ensures Ascending([x] + r)
    ensures forall y :: y in [x] + r <==> y == x || y in r
  {
    var s := [x] + r;
    forall i, j | 0 <= i < j < |s|
      ensures s[i] < s[j]
    {
      assert s[j] == r[j - 1] && r[j - 1] in r;
      assert i > 0 ==> s[i] == r[i - 1];
    }
  }

  function Extend(r: seq<SubId>, xs: seq<SubId>): (s: seq<SubId>)
    requires Ascending(r)
    ensures Ascending(s)
    ensures forall y :: y in s <==> y in r || y in xs
    decreases xs
  {
    if xs == [] then r
    else
      assert xs == [xs[0]] + xs[1..];
      Extend(Insert(r, xs[0]), xs[1..])
  }

  // ---------- the index itself ----------

  /** The list without its first occurrence of `x`, if it has one. */
  function WithoutFirst<T(==)>(list: seq<T>, x: T): (rest: seq<T>)
    ensures multiset(rest) == multiset(list) - multiset{x}
  {
    if list == [] then []
    else
      assert list == [list[0]] + list[1..];
      if list[0] == x then list[1..] else [list[0]] + WithoutFirst(list[1..], x)
  }

  /** One entry counts as often as its list after `sub` is taken out of the list of `b`. */
  lemma PulledCounts(entries: multiset<Entry>, b: Bucket, sub: SubId, e: Entry, list: seq<SubId>)
    requires entries[e] == multiset(list)[e.sub]
    ensures (entries - multiset{Entry(b.bound, b.key, sub)})[e] ==
      multiset(if Bucket(e.bound, e.key) == b then WithoutFirst(list, sub) else list)[e.sub]
  {
    CountAfterRemoval(entries, Entry(b.bound, b.key, sub), e);
    if Bucket(e.bound, e.key) == b {
      CountAfterRemoval(multiset(list), sub, e.sub);
    }
  }

  class ComparisonIndex {
    var eq: map<Text, seq<SubId>>
    var gt: map<Text, seq<SubId>>
    var lt: map<Text, seq<SubId>>
    /** Everything stored in the three maps, lists of any order and empty lists forgotten. */
    ghost var entries: multiset<Entry>

    /** The ghost entries count `e` as often as its list does. */
    ghost predicate Counted(e: Entry)
      reads this
    {
      entries[e] == multiset(List(Bucket(e.bound, e.key)))[e.sub]
    }

    ghost predicate Valid()
      reads this
    {
      forall e :: Counted(e)
    }

    constructor ()
      ensures Valid() && entries == multiset{}
    {
      eq, gt, lt := map[], map[], map[];
      entries := multiset{};
    }

    /** The list filed under a bucket; a missing one reads as empty. */
    function List(b: Bucket): seq<SubId>
      reads this`eq, this`gt, this`lt
    {
      var m := match b.bound case Eq => eq case Gt => gt case Lt => lt;
      if b.key in m then m[b.key] else []
    }

    method Replace(b: Bucket, list: seq<SubId>)
      modifies this`eq, this`gt, this`lt
      ensures List(b) == list
      ensures forall c :: c != b ==> List(c) == old(List(c))
    {
      match b.bound {
        case Eq => eq := eq[b.key := list];
        case Gt => gt := gt[b.key := list];
        case Lt => lt := lt[b.key := list];
      }
    }

    method Push(b: Bucket, sub: SubId)
      requires Valid()
      modifies this
      ensures Valid() && entries == old(entries) + multiset{Entry(b.bound, b.key, sub)}
    {
      var list := List(b);
      Replace(b, list + [sub]);
      entries := entries + multiset{Entry(b.bound, b.key, sub)};
      forall e ensures Counted(e) {
        assert old(Counted(e));
        assert Bucket(e.bound, e.key) == b || List(Bucket(e.bound, e.key)) == old(List(Bucket(e.bound, e.key)));
      }
    }

    method Pull(b: Bucket, sub: SubId)
      requires Valid()
      modifies this
      ensures Valid() && entries == old(entries) - multiset{Entry(b.bound, b.key, sub)}
    {
      var list := List(b);
      Replace(b, WithoutFirst(list, sub));
      entries := entries - multiset{Entry(b.bound, b.key, sub)};
      forall e ensures Counted(e) {
        assert old(Counted(e));
        var c := Bucket(e.bound, e.key);
        assert List(c) == if c == b then WithoutFirst(list, sub) else old(List(c));
        PulledCounts(old(entries), b, sub, e, old(List(c)));
      }
    }

    method Add(lit: Literal, op: ComparisonOperator, sub: SubId)
      requires Valid() && Indexable(op)
      modifies this
      ensures Valid() && entries == old(entries) + Filed(lit, op, sub)
    {
      var place := Normalise(lit, op);
      if place.Some? {
        Push(place.value, sub);
      }
    }

    method Remove(lit: Literal, op: ComparisonOperator, sub: SubId)
      requires Valid() && Indexable(op)
      modifies this
      ensures Valid() && entries == old(entries) - Filed(lit, op, sub)
    {
      var place := Normalise(lit, op);
      if place.Some? {
        Pull(place.value, sub);
      }
    }

    lemma ListedIsEntered(b: Bucket, sub: SubId)
      requires Valid()
      ensures sub in List(b) <==> Entry(b.bound, b.key, sub) in entries
    {
      assert Counted(Entry(b.bound, b.key, sub));
    }

    /** The three lookups `find_matching` makes see exactly the matching entries. */
    lemma MatchingIsListed(v: Value, s: SubId)
      requires Valid()
      ensures s in Matching(entries, v) <==>
        || s in List(Bucket(Eq, ValueKey(v)))
        || (exists k :: k in gt && Less(k, ValueKey(v)) && s in gt[k])
        || (ValueSuccessor(v).Some? && exists k :: k in lt && !Less(k, ValueSuccessor(v).value) && s in lt[k])
    {
      if e :| e in entries && Hits(Bucket(e.bound, e.key), v) && e.sub == s {
        ListedIsEntered(Bucket(e.bound, e.key), s);
      }
      ListedIsEntered(Bucket(Eq, ValueKey(v)), s);
      if k :| k in gt && Less(k, ValueKey(v)) && s in gt[k] {
        ListedIsEntered(Bucket(Gt, k), s);
      }
      if ValueSuccessor(v).Some? {
        if k :| k in lt && !Less(k, ValueSuccessor(v).value) && s in lt[k] {
          ListedIsEntered(Bucket(Lt, k), s);
        }
      }
    }

    /** Ids in ascending order without duplicates: exactly those with an entry the value collects. */
    method FindMatching(v: Value) returns (r: seq<SubId>)
      requires Valid()
      ensures Ascending(r)
      ensures forall s :: s in r <==> s in Matching(entries, v)
    {
      var bytes := ValueKey(v);
      r := if bytes in eq then Extend([], eq[bytes]) else [];
      r := Collect(r, gt, set k | k in gt && Less(k, bytes));
      var next := ValueSuccessor(v);
      if next.Some? {
        r := Collect(r, lt, set k | k in lt && !Less(k, next.value));
      }
      forall s ensures s in r <==> s in Matching(entries, v) {
        MatchingIsListed(v, s);
      }
    }
  }

  /** `result.extend(subs)` for every selected bucket of one map. */
  method Collect(start: seq<SubId>, m: map<Text, seq<SubId>>, keys: set<Text>) returns (r: seq<SubId>)
    requires Ascending(start) && keys <= m.Keys
    ensures Ascending(r)
    ensures forall s :: s in r <==> s in start || exists k :: k in keys && s in m[k]
  {
    r := start;
    var todo := keys;
    while todo != {}
      invariant Ascending(r) && todo <= keys
      invariant forall s :: s in r <==> s in start || exists k :: k in keys && k !in todo && s in m[k]
      decreases todo
    {
      var k :| k in todo;
      r := Extend(r, m[k]);
      todo := todo - {k};
    }
  }
}
