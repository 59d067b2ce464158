/** The PN-counter backend and its typed counters: sums of additions, forks and merges, in wrap-around
    64-bit arithmetic. */
module PnCounters {
  import opened Bytes
  import opened Integers

  function Wrap(n: int): int { Reduce(I64, n) }

  datatype PNValue = PNValue(value: int, previous: int) {
    function Snapshot(): PNValue { PNValue(value, value) }

    function Diff(): int { Wrap(value - previous) }
  }

  type Values = map<Text, PNValue>

  /** An operation: one difference per property. */
  type Operation = map<Text, int>

  predicate AllI64(values: Values) {
    forall name | name in values :: InRange(I64, values[name].value) && InRange(I64, values[name].previous)
  }

  function Entry(values: Values, name: Text): PNValue {
    if name in values then values[name] else PNValue(0, 0)
  }

  function Amount(values: Values, name: Text): int { Entry(values, name).value }

  function Added(values: Values, name: Text, amount: int): Values {
    values[name := Entry(values, name).(value := Wrap(Amount(values, name) + amount))]
  }

  datatype Addition = Addition(name: Text, amount: int)

  /** A run of `add` calls. */
  function AddedAll(values: Values, adds: seq<Addition>): Values
    decreases |adds|
  {
    if adds == [] then values else AddedAll(Added(values, adds[0].name, adds[0].amount), adds[1..])
  }

  function Sum(adds: seq<Addition>, name: Text): int {
    if adds == [] then 0 else (if adds[0].name == name then adds[0].amount else 0) + Sum(adds[1..], name)
  }

  function Names(adds: seq<Addition>): set<Text> {
    set a | a in adds :: a.name
  }

  function Forked(values: Values): Values {
    map name | name in values :: values[name].Snapshot()
  }

  function Diffs(values: Values): Operation {
    map name | name in values :: values[name].Diff()
  }

  function Part(operation: Operation, name: Text): int {
    if name in operation then operation[name] else 0
  }

  /** Every property of the operation is added to, and created if it is missing. */
  function Applied(values: Values, operation: Operation): Values {
    map name | name in values.Keys + operation.Keys ::
      if name in operation then Entry(values, name).(value := Wrap(Amount(values, name) + operation[name])) else values[name]
  }

  /** The operation on some of its properties. */
  function Restricted(operation: Operation, names: set<Text>): Operation {
    map name | name in operation && name in names :: operation[name]
  }

  function AppliedAll(values: Values, operations: seq<Operation>): Values
    decreases |operations|
  {
    if operations == [] then values else AppliedAll(Applied(values, operations[0]), operations[1..])
  }

  function Total(operations: seq<Operation>, name: Text): int {
    if operations == [] then 0 else Part(operations[0], name) + Total(operations[1..], name)
  }

  lemma DiffLeadsToTheValue(v: PNValue)
    requires InRange(I64, v.value)
    ensures InRange(I64, v.Diff()) && Wrap(v.previous + v.Diff()) == v.value
  {
    ReducedIsTheRepresentative(I64, v.value - v.previous, v.Diff());
    ReduceOfSum(I64, v.value - v.previous, v.previous);
    InRangeIsKept(I64, v.value);
  }

  // ---------- the backend ----------

  class PNBackend {
    var values: Values

    constructor ()
      ensures values == map[]
    {
      values := map[];
    }

    method Get(name: Text) returns (n: int)
      ensures n == Amount(values, name)
    {
      n := if name in values then values[name].value else 0;
    }

    method Add(name: Text, amount: int)
      modifies this
      ensures values == Added(old(values), name, amount)
    {
      if name !in values {
        values := values[name := PNValue(0, 0)];
      }
      values := values[name := values[name].(value := Wrap(values[name].value + amount))];
    }

    /** A separate backend that remembers the present values as its starting point. */
    method Fork() returns (fork: PNBackend)
      ensures fresh(fork) && fork.values == Forked(values)
    {
      fork := new PNBackend();
      fork.values := map name | name in values :: values[name].Snapshot();
    }

    /** One operation that leads every property from its starting point to its present value. Nothing is
        marked as collected. */
    method ToOperations() returns (operations: seq<Operation>)
      ensures operations == [Diffs(values)] && operations[0].Keys == values.Keys
      ensures AllI64(values) ==> forall name | name in values ::
        && InRange(I64, operations[0][name])
        && Wrap(values[name].previous + operations[0][name]) == values[name].value
    {
      forall name | AllI64(values) && name in values
        ensures InRange(I64, values[name].Diff()) && Wrap(values[name].previous + values[name].Diff()) == values[name].value
      {
        DiffLeadsToTheValue(values[name]);
      }
      operations := [map name | name in values :: values[name].Diff()];
    }

    method ApplyOperation(operation: Operation)
      modifies this
      ensures values == Applied(old(values), operation)
    {
      var todo := operation.Keys;
      NothingApplied(values, operation);
      while todo != {}
        invariant todo <= operation.Keys
        invariant values == Applied(old(values), Restricted(operation, operation.Keys - todo))
        decreases todo
      {
        var name :| name in todo;
        OneMoreProperty(old(values), operation, todo, name);
        Add(name, operation[name]);
        todo := todo - {name};
      }
      assert Restricted(operation, operation.Keys) == operation;
    }

    method ApplyOperations(operations: seq<Operation>)
      modifies this
      ensures values == AppliedAll(old(values), operations)
    {
      for i := 0 to |operations|
        invariant AppliedAll(old(values), operations) == AppliedAll(values, operations[i..])
      {
        assert operations[i..][1..] == operations[i + 1..];
        ApplyOperation(operations[i]);
      }
    }
  }

  lemma NothingApplied(values: Values, operation: Operation)
    ensures Applied(values, Restricted(operation, operation.Keys - operation.Keys)) == values
  {
  }

  lemma OneMoreProperty(values: Values, operation: Operation, todo: set<Text>, name: Text)
    requires name in todo && todo <= operation.Keys
    ensures Applied(values, Restricted(operation, operation.Keys - (todo - {name}))) ==
      Added(Applied(values, Restricted(operation, operation.Keys - todo)), name, operation[name])
  {
    var less, more := Restricted(operation, operation.Keys - todo), Restricted(operation, operation.Keys - (todo - {name}));
    assert forall n | n != name :: n in less <==> n in more;
    assert Applied(values, more).Keys == Applied(values, less).Keys + {name};
    assert Entry(Applied(values, less), name) == Entry(values, name);
  }

  // ---------- sums ----------

  lemma WrappedAlike(x: int, y: int, start: int)
    requires Wrap(x) == Wrap(y)
    ensures Wrap(start + x) == Wrap(start + y)
  {
    ReduceOfSum(I64, x, start);
    ReduceOfSum(I64, y, start);
  }

  /** A wrapped intermediate sum goes on like the exact one. */
  lemma WrapOnce(x: int, more: int)
    ensures Wrap(Wrap(x) + more) == Wrap(x + more)
  {
    ReduceOfSum(I64, x, more);
  }

  /** The exact sum, if it fits, is what its wrapped parts add up to. */
  lemma WrappedSum(result: int, start: int, total: int, sum: int)
    requires result == Wrap(start + total) && Wrap(total) == Wrap(sum)
    ensures result == Wrap(start + sum) && (InRange(I64, start + sum) ==> result == start + sum)
  {
    WrappedAlike(total, sum, start);
    InRangeIsKept(I64, start + sum);
  }

  lemma AmountFits(values: Values, name: Text)
    requires AllI64(values)
    ensures Wrap(Amount(values, name)) == Amount(values, name)
  {
    InRangeIsKept(I64, Amount(values, name));
  }

  /** After any run of additions each property holds the wrapped sum, its starting point untouched. */
  lemma {:induction false} AdditionsAreSummed(values: Values, adds: seq<Addition>, name: Text)
    requires AllI64(values)
    ensures Amount(AddedAll(values, adds), name) == Wrap(Amount(values, name) + Sum(adds, name))
    ensures Entry(AddedAll(values, adds), name).previous == Entry(values, name).previous
    ensures name in AddedAll(values, adds) <==> name in values || name in Names(adds)
    ensures AllI64(AddedAll(values, adds))
    decreases |adds|
  {
    AmountFits(values, name);
    if adds != [] {
      var first, next := adds[0], Added(values, adds[0].name, adds[0].amount);
      AdditionStaysI64(values, first);
      AdditionsAreSummed(next, adds[1..], name);
      WrapOnce(Amount(values, name) + first.amount, Sum(adds[1..], name));
      assert forall a :: a in adds <==> a == first || a in adds[1..];
    }
  }

  lemma AdditionStaysI64(values: Values, a: Addition)
    requires AllI64(values)
    ensures AllI64(Added(values, a.name, a.amount))
  {
    ReducedIsTheRepresentative(I64, Amount(values, a.name) + a.amount, Wrap(Amount(values, a.name) + a.amount));
  }

  lemma ForkStartsAtTheBase(base: Values, name: Text)
    requires AllI64(base)
    ensures AllI64(Forked(base)) && Entry(Forked(base), name) == PNValue(Amount(base, name), Amount(base, name))
    ensures name in Forked(base) <==> name in base
  {
  }

  lemma DiffOfWrappedSum(v: PNValue, sum: int)
    requires v.value == Wrap(v.previous + sum)
    ensures v.Diff() == Wrap(sum)
  {
    ReduceOfDifference(I64, v.previous + sum, v.previous);
  }

  /** Collecting a fork's operations gives, for each property, the sum of what was added to the fork. */
  lemma ForkCollectsItsAdditions(base: Values, adds: seq<Addition>, name: Text)
    requires AllI64(base)
    ensures Part(Diffs(AddedAll(Forked(base), adds)), name) == Wrap(Sum(adds, name))
    ensures name in Diffs(AddedAll(Forked(base), adds)) <==> name in base || name in Names(adds)
  {
    var fork := Forked(base);
    ForkStartsAtTheBase(base, name);
    AdditionsAreSummed(fork, adds, name);
    if name in AddedAll(fork, adds) {
      DiffOfWrappedSum(AddedAll(fork, adds)[name], Sum(adds, name));
    } else {
      AbsentNamesAddNothing(adds, name);
      InRangeIsKept(I64, 0);
    }
  }

  lemma {:induction false} AbsentNamesAddNothing(adds: seq<Addition>, name: Text)
    requires name !in Names(adds)
    ensures Sum(adds, name) == 0
  {
    if adds != [] {
      assert adds[0] in adds;
      assert forall a | a in adds[1..] :: a in adds;
      AbsentNamesAddNothing(adds[1..], name);
    }
  }

  lemma {:induction false} OperationTotals(values: Values, operations: seq<Operation>, name: Text)
    requires AllI64(values)
    ensures Amount(AppliedAll(values, operations), name) == Wrap(Amount(values, name) + Total(operations, name))
    decreases |operations|
  {
    if operations == [] {
      AmountFits(values, name);
    } else {
      var first, rest := operations[0], operations[1..];
      OperationStaysI64(values, first);
      OperationOnOneProperty(values, first, name);
      OperationTotals(Applied(values, first), rest, name);
      WrapOnce(Amount(values, name) + Part(first, name), Total(rest, name));
    }
  }

  lemma {:induction false} OperationsKeepStartingPoints(values: Values, operations: seq<Operation>, name: Text)
    ensures Entry(AppliedAll(values, operations), name).previous == Entry(values, name).previous
    decreases |operations|
  {
    if operations != [] {
      OperationsKeepStartingPoints(Applied(values, operations[0]), operations[1..], name);
    }
  }

  lemma {:induction false} OperationNames(values: Values, operations: seq<Operation>, name: Text)
    ensures name in AppliedAll(values, operations) <==> name in values || exists o :: o in operations && name in o
    decreases |operations|
  {
    if operations != [] {
      OperationNames(Applied(values, operations[0]), operations[1..], name);
      assert forall o :: o in operations <==> o == operations[0] || o in operations[1..];
    }
  }

  lemma {:induction false} OperationsStayI64(values: Values, operations: seq<Operation>)
    requires AllI64(values)
    ensures AllI64(AppliedAll(values, operations))
    decreases |operations|
  {
    if operations != [] {
      OperationStaysI64(values, operations[0]);
      OperationsStayI64(Applied(values, operations[0]), operations[1..]);
    }
  }

  /** After merging operations each property holds its old value plus the total of its differences. */
  lemma OperationsAreSummed(values: Values, operations: seq<Operation>, name: Text)
    requires AllI64(values)
    ensures Amount(AppliedAll(values, operations), name) == Wrap(Amount(values, name) + Total(operations, name))
    ensures Entry(AppliedAll(values, operations), name).previous == Entry(values, name).previous
    ensures name in AppliedAll(values, operations) <==> name in values || exists o :: o in operations && name in o
    ensures AllI64(AppliedAll(values, operations))
  {
    OperationTotals(values, operations, name);
    OperationsKeepStartingPoints(values, operations, name);
    OperationNames(values, operations, name);
    OperationsStayI64(values, operations);
  }

  lemma OperationOnOneProperty(values: Values, operation: Operation, name: Text)
    requires AllI64(values)
    ensures Amount(Applied(values, operation), name) == Wrap(Amount(values, name) + Part(operation, name))
    ensures Entry(Applied(values, operation), name).previous == Entry(values, name).previous
    ensures name in Applied(values, operation) <==> name in values || name in operation
  {
    AmountFits(values, name);
  }

  lemma OperationStaysI64(values: Values, operation: Operation)
    requires AllI64(values)
    ensures AllI64(Applied(values, operation))
  {
    forall name | name in operation
      ensures InRange(I64, Wrap(Amount(values, name) + operation[name]))
    {
      ReducedIsTheRepresentative(I64, Amount(values, name) + operation[name], Wrap(Amount(values, name) + operation[name]));
    }
  }

  // ---------- order and grouping ----------

  /** Operations may be applied in any grouping. */
  lemma {:induction false} GroupingDoesNotMatter(values: Values, a: seq<Operation>, b: seq<Operation>)
    ensures AppliedAll(values, a + b) == AppliedAll(AppliedAll(values, a), b)
    decreases |a|
  {
    if a == [] {
      assert a + b == b;
    } else {
      GroupingDoesNotMatter(Applied(values, a[0]), a[1..], b);
      assert (a + b)[1..] == a[1..] + b;
    }
  }

  lemma {:induction false} TotalOfConcat(a: seq<Operation>, b: seq<Operation>, name: Text)
    ensures Total(a + b, name) == Total(a, name) + Total(b, name)
  {
    if a == [] {
      assert a + b == b;
    } else {
      TotalOfConcat(a[1..], b, name);
      assert (a + b)[1..] == a[1..] + b;
    }
  }

  lemma WithoutOne<T>(a: seq<T>, b: seq<T>, i: nat)
    requires a != [] && i < |b| && b[i] == a[0] && multiset(a) == multiset(b)
    ensures multiset(a[1..]) == multiset(b[..i] + b[i + 1..])
  {
    assert a == [a[0]] + a[1..] && b == b[..i] + [b[i]] + b[i + 1..];
    assert multiset(a[1..]) == multiset(a) - multiset{a[0]};
    assert multiset(b[..i] + b[i + 1..]) == multiset(b) - multiset{b[i]};
  }

  lemma TotalWithoutOne(b: seq<Operation>, i: nat, name: Text)
    requires i < |b|
    ensures Total(b, name) == Part(b[i], name) + Total(b[..i] + b[i + 1..], name)
  {
    var l, r := b[..i], b[i + 1..];
    assert b == l + [b[i]] + r;
    TotalOfConcat(l, r, name);
    TotalOfConcat(l, [b[i]], name);
    TotalOfConcat(l + [b[i]], r, name);
    assert Total([b[i]], name) == Part(b[i], name);
  }

  lemma {:induction false} TotalsOfPermutations(a: seq<Operation>, b: seq<Operation>, name: Text)
    requires multiset(a) == multiset(b)
    ensures Total(a, name) == Total(b, name)
    decreases |a|
  {
    if a == [] {
      assert |b| == |multiset(b)| == 0;
    } else {
      assert a[0] in multiset(b);
      var i: nat :| i < |b| && b[i] == a[0];
      WithoutOne(a, b, i);
      TotalsOfPermutations(a[1..], b[..i] + b[i + 1..], name);
      TotalWithoutOne(b, i, name);
    }
  }

  lemma PropertyOfPermutations(values: Values, a: seq<Operation>, b: seq<Operation>, name: Text)
    requires AllI64(values) && multiset(a) == multiset(b)
    ensures name in AppliedAll(values, a) <==> name in AppliedAll(values, b)
    ensures Entry(AppliedAll(values, a), name) == Entry(AppliedAll(values, b), name)
  {
    OperationsAreSummed(values, a, name);
    OperationsAreSummed(values, b, name);
    TotalsOfPermutations(a, b, name);
    assert forall o :: o in a <==> o in multiset(a);
    assert forall o :: o in b <==> o in multiset(b);
  }

  lemma EntriesDecide(x: Values, y: Values)
    requires forall name :: (name in x <==> name in y) && Entry(x, name) == Entry(y, name)
    ensures x == y
  {
    forall name | name in x
      ensures name in y && x[name] == y[name]
    {
      assert Entry(x, name) == Entry(y, name);
    }
  }

  /** Operations may be applied in any order: the backend ends in the same state. */
  lemma OrderDoesNotMatter(values: Values, a: seq<Operation>, b: seq<Operation>)
    requires AllI64(values) && multiset(a) == multiset(b)
    ensures AppliedAll(values, a) == AppliedAll(values, b)
  {
    forall name
      ensures name in AppliedAll(values, a) <==> name in AppliedAll(values, b)
      ensures Entry(AppliedAll(values, a), name) == Entry(AppliedAll(values, b), name)
    {
      PropertyOfPermutations(values, a, b, name);
    }
    EntriesDecide(AppliedAll(values, a), AppliedAll(values, b));
  }

  // ---------- forks ----------

  function ForkOperation(base: Values, adds: seq<Addition>): Operation {
    Diffs(AddedAll(Forked(base), adds))
  }

  function ForkOperations(base: Values, forks: seq<seq<Addition>>): seq<Operation>
    decreases |forks|
  {
    if forks == [] then [] else [ForkOperation(base, forks[0])] + ForkOperations(base, forks[1..])
  }

  function SumOfForks(forks: seq<seq<Addition>>, name: Text): int
    decreases |forks|
  {
    if forks == [] then 0 else Sum(forks[0], name) + SumOfForks(forks[1..], name)
  }

  lemma {:induction false} ForksTotal(base: Values, forks: seq<seq<Addition>>, name: Text)
    requires AllI64(base)
    ensures Wrap(Total(ForkOperations(base, forks), name)) == Wrap(SumOfForks(forks, name))
    decreases |forks|
  {
    if forks != [] {
      var first, rest := ForkOperation(base, forks[0]), ForkOperations(base, forks[1..]);
      assert ForkOperations(base, forks)[1..] == rest;
      ForkCollectsItsAdditions(base, forks[0], name);
      ForksTotal(base, forks[1..], name);
      WrapOnce(Sum(forks[0], name), Total(rest, name));
      WrappedAlike(Total(rest, name), SumOfForks(forks[1..], name), Sum(forks[0], name));
    }
  }

  lemma MergedTotal(base: Values, merged: seq<Operation>, name: Text, total: int, sum: int)
    requires AllI64(base) && Total(merged, name) == total && Wrap(total) == Wrap(sum)
    ensures var result, exact := Amount(AppliedAll(base, merged), name), Amount(base, name) + sum;
      result == Wrap(exact) && (InRange(I64, exact) ==> result == exact)
  {
    OperationsAreSummed(base, merged, name);
    WrappedSum(Amount(AppliedAll(base, merged), name), Amount(base, name), total, sum);
  }

  /** Any number of forks of one base, each with any additions to any properties, merged in any order:
      every property ends at its base value plus everything added to it in any fork, wrapped to 64
      bits, and so exactly at that sum whenever the sum fits. */
  lemma ForksMergeToTheSum(base: Values, forks: seq<seq<Addition>>, merged: seq<Operation>, name: Text)
    requires AllI64(base) && multiset(merged) == multiset(ForkOperations(base, forks))
    ensures var result, sum := Amount(AppliedAll(base, merged), name), Amount(base, name) + SumOfForks(forks, name);
      result == Wrap(sum) && (InRange(I64, sum) ==> result == sum)
  {
    var operations := ForkOperations(base, forks);
    TotalsOfPermutations(merged, operations, name);
    ForksTotal(base, forks, name);
    MergedTotal(base, merged, name, Total(operations, name), SumOfForks(forks, name));
  }

  /** Collecting does not mark anything as collected: a fork whose operations are collected and merged
      twice counts twice. */
  lemma CollectingTwiceCountsTwice(base: Values, adds: seq<Addition>, name: Text)
    requires AllI64(base)
    ensures var o := ForkOperation(base, adds);
      Amount(AppliedAll(base, [o, o]), name) == Wrap(Amount(base, name) + 2 * Sum(adds, name))
  {
    var o, sum := ForkOperation(base, adds), Sum(adds, name);
    ForkCollectsItsAdditions(base, adds, name);
    TwiceWrapped(Part(o, name), sum);
    TwiceTotal(o, name);
    MergedTotal(base, [o, o], name, Part(o, name) + Part(o, name), 2 * sum);
  }

  lemma TwiceWrapped(part: int, sum: int)
    requires part == Wrap(sum)
    ensures Wrap(part + part) == Wrap(2 * sum)
  {
    WrapOnce(sum, part);
    WrappedAlike(part, sum, sum);
  }

  lemma TwiceTotal(o: Operation, name: Text)
    ensures Total([o, o], name) == Part(o, name) + Part(o, name)
  {
    assert [o, o][1..] == [o] && Total([o], name) == Part(o, name);
  }

  // ---------- typed counters ----------

  /** `as_i64` and `from_i64`: casts between a counter's type and i64. */
  function AsI64(t: IntegerType, n: int): int
    requires InRange(t, n)
  {
    Reduce(I64, n)
  }

  function FromI64(t: IntegerType, i: int): int
    requires InRange(I64, i)
  {
    Reduce(t, i)
  }

  class PNCounter {
    const integer: IntegerType
    const name: Text
    const backend: PNBackend

    constructor (integer: IntegerType, name: Text, backend: PNBackend)
      ensures this.integer == integer && this.name == name && this.backend == backend
    {
      this.integer, this.name, this.backend := integer, name, backend;
    }

    method Value() returns (n: int)
      requires AllI64(backend.values)
      ensures n == FromI64(integer, Amount(backend.values, name)) && InRange(integer, n)
    {
      var i := backend.Get(name);
      n := FromI64(integer, i);
      ReducedIsTheRepresentative(integer, i, n);
    }

    /** The amount may be of any integer type. */
    method Add(t: IntegerType, amount: int)
      requires InRange(t, amount)
      modifies backend
      ensures backend.values == Added(old(backend.values), name, AsI64(t, amount))
    {
      backend.Add(name, AsI64(t, amount));
    }

    constructor InitializeWith(integer: IntegerType, name: Text, backend: PNBackend, value: int)
      requires InRange(integer, value)
      modifies backend
      ensures this.integer == integer && this.name == name && this.backend == backend
      ensures backend.values == Added(old(backend.values), name, AsI64(integer, value))
    {
      this.integer, this.name, this.backend := integer, name, backend;
      new;
      Add(integer, value);
    }
  }

  datatype Typed = Typed(integer: IntegerType, amount: int)

  predicate WellTyped(amounts: seq<Typed>) {
    forall a | a in amounts :: InRange(a.integer, a.amount)
  }

  /** The additions that counter calls with these amounts make. */
  function Calls(name: Text, amounts: seq<Typed>): seq<Addition>
    requires WellTyped(amounts)
  {
    if amounts == [] then []
    else
      assert amounts[0] in amounts;
      [Addition(name, AsI64(amounts[0].integer, amounts[0].amount))] + Calls(name, amounts[1..])
  }

  function ExactSum(amounts: seq<Typed>): int {
    if amounts == [] then 0 else amounts[0].amount + ExactSum(amounts[1..])
  }

  lemma {:induction false} CallsSum(name: Text, amounts: seq<Typed>)
    requires WellTyped(amounts)
    ensures Wrap(Sum(Calls(name, amounts), name)) == Wrap(ExactSum(amounts))
  {
    if amounts != [] {
      assert amounts[0] in amounts;
      var rest, first := amounts[1..], amounts[0].amount;
      CallsSum(name, rest);
      assert Calls(name, amounts)[1..] == Calls(name, rest);
      WrappedCall(first, Sum(Calls(name, rest), name), ExactSum(rest));
    }
  }

  lemma WrappedCall(first: int, rest: int, exact: int)
    requires Wrap(rest) == Wrap(exact)
    ensures Wrap(Wrap(first) + rest) == Wrap(first + exact)
  {
    WrapOnce(first, rest);
    WrappedAlike(rest, exact, first);
  }

  /** A counter of any of the eight types, after any additions of any of the eight types, reads as the
      one value of its type that differs from the exact sum by a multiple of two to its width. */
  lemma CounterReadsTheSum(values: Values, name: Text, t: IntegerType, amounts: seq<Typed>)
    requires AllI64(values) && WellTyped(amounts)
    ensures AllI64(AddedAll(values, Calls(name, amounts)))
    ensures var read := FromI64(t, Amount(AddedAll(values, Calls(name, amounts)), name));
      var sum := Amount(values, name) + ExactSum(amounts);
      InRange(t, read) && Congruent(sum, read, Size(t.width)) && (InRange(t, sum) ==> read == sum)
  {
    var adds, start := Calls(name, amounts), Amount(values, name);
    var sum := start + ExactSum(amounts);
    AdditionsAreSummed(values, adds, name);
    CallsSum(name, amounts);
    WrappedAlike(Sum(adds, name), ExactSum(amounts), start);
    ReduceThroughI64(t, sum);
    ReducedIsTheRepresentative(t, sum, Reduce(t, sum));
    InRangeIsKept(t, sum);
  }
}
