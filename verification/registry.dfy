/** The registry of resident entities: weak references by key, strong holders, and every interleaving
    of lookups, two-phase fetches, insertions and drops. */
module Registries {
  import opened Bytes
  import opened Entities

  /** `entities` holds weak references; `held` has one element per strong reference; `keys` remembers
      under which key an object was ever registered. */
  datatype Registry<O> = Registry(entities: map<Key, O>, held: multiset<O>, keys: map<O, Key>)

  /** A lookup that finds nothing is the first phase of a fetch; `Asserted` is the second, however long
      after it. */
  datatype Step<O> =
    | Looked(key: Key, found: Option<O>)
    | Asserted(key: Key, object: O)
    | Inserted(key: Key, object: O, ok: bool)
    | Created(object: O)
    | Cloned(object: O)
    | Dropped(object: O)

  /** What a weak reference upgrades to. */
  function Resident<O(==)>(r: Registry<O>, key: Key): Option<O> {
    if key in r.entities && r.entities[key] in r.held then Some(r.entities[key]) else None
  }

  predicate Unused<O(==)>(r: Registry<O>, o: O) {
    o !in r.keys && o !in r.held
  }

  function Hold<O>(r: Registry<O>, o: O): Registry<O> {
    r.(held := r.held + multiset{o})
  }

  function Register<O(==)>(r: Registry<O>, key: Key, o: O): Registry<O> {
    r.(entities := r.entities[key := o], keys := r.keys[o := key])
  }

  predicate Next<O(==)>(r: Registry<O>, step: Step<O>, r': Registry<O>) {
    match step
    case Looked(key, found) =>
      found == Resident(r, key) && r' == if found.Some? then Hold(r, found.value) else r
    case Asserted(key, o) =>
      if Resident(r, key).Some? then o == Resident(r, key).value && r' == Hold(r, o)
      else Unused(r, o) && r' == Hold(Register(r, key, o), o)
    case Inserted(key, o, ok) =>
      o in r.held && o !in r.keys && ok == (key !in r.entities) && r' == if ok then Register(r, key, o) else r
    case Created(o) => Unused(r, o) && r' == Hold(r, o)
    case Cloned(o) => o in r.held && r' == Hold(r, o)
    case Dropped(o) => o in r.held && r' == r.(held := r.held - multiset{o})
  }

  /** Registered objects sit under their own key, and the live ones are the ones the map points to. */
  ghost predicate Valid<O>(r: Registry<O>) {
    && (forall key | key in r.entities :: r.entities[key] in r.keys && r.keys[r.entities[key]] == key)
    && (forall o | o in r.keys && o in r.held :: r.keys[o] in r.entities && r.entities[r.keys[o]] == o)
  }

  lemma HoldingKeepsValid<O>(r: Registry<O>, o: O)
    requires Valid(r) && (o in r.held || o !in r.keys)
    ensures Valid(Hold(r, o))
  {
  }

  lemma RegisteringKeepsValid<O>(r: Registry<O>, key: Key, o: O)
    requires Valid(r) && o !in r.keys && Resident(r, key).None?
    ensures Valid(Register(r, key, o))
  {
    var r' := Register(r, key, o);
    forall x | x in r'.keys && x in r'.held
      ensures r'.keys[x] in r'.entities && r'.entities[r'.keys[x]] == x
    {
      if x != o {
        assert x in r.keys && r.entities[r.keys[x]] == x;
      }
    }
  }

  lemma NextIsValid<O>(r: Registry<O>, step: Step<O>, r': Registry<O>)
    requires Valid(r) && Next(r, step, r')
    ensures Valid(r')
  {
    match step
    case Looked(_, Some(o)) => HoldingKeepsValid(r, o);
    case Looked(_, None) =>
    case Asserted(key, o) =>
      HoldingKeepsValid(r, o);
      if Resident(r, key).None? {
        RegisteringKeepsValid(Hold(r, o), key, o);
      }
    case Inserted(key, o, ok) =>
      if ok {
        RegisteringKeepsValid(r, key, o);
      }
    case Created(o) => HoldingKeepsValid(r, o);
    case Cloned(o) => HoldingKeepsValid(r, o);
    case Dropped(o) =>
  }

  ghost predicate IsRun<O>(states: seq<Registry<O>>, steps: seq<Step<O>>) {
    && |states| == |steps| + 1 && Valid(states[0])
    && forall i {:trigger steps[i]} | 0 <= i < |steps| :: Next(states[i], steps[i], states[i + 1])
  }

  /** The key and object of a step that hands out a registered entity. */
  function Obtained<O>(step: Step<O>): Option<(Key, O)> {
    match step
    case Looked(key, Some(o)) => Some((key, o))
    case Asserted(key, o) => Some((key, o))
    case Inserted(key, o, true) => Some((key, o))
    case _ => None
  }

  lemma {:induction false} RunKeepsValid<O>(states: seq<Registry<O>>, steps: seq<Step<O>>, i: nat)
    requires IsRun(states, steps) && i < |states|
    ensures Valid(states[i])
  {
    if i > 0 {
      RunKeepsValid(states, steps, i - 1);
      NextIsValid(states[i - 1], steps[i - 1], states[i]);
    }
  }

  /** At any point of any interleaving, at most one live registered entity exists per key. */
  lemma AtMostOneLiveEntityPerKey<O>(states: seq<Registry<O>>, steps: seq<Step<O>>, i: nat, a: O, b: O)
    requires IsRun(states, steps) && i < |states|
    requires a in states[i].held && a in states[i].keys && b in states[i].held && b in states[i].keys
    requires states[i].keys[a] == states[i].keys[b]
    ensures a == b
  {
    RunKeepsValid(states, steps, i);
  }

  lemma NothingIsForgotten<O>(r: Registry<O>, step: Step<O>, r': Registry<O>, o: O)
    requires Valid(r) && Next(r, step, r') && o in r.keys
    ensures o in r'.keys && r'.keys[o] == r.keys[o]
    ensures o !in r.held ==> o !in r'.held
  {
  }

  /** Once registered, always registered under that key; and once it is dropped by its last holder, a
      registered object never comes back. */
  lemma {:induction false} RegistrationIsForGood<O>(states: seq<Registry<O>>, steps: seq<Step<O>>, i: nat, j: nat, o: O)
    requires IsRun(states, steps) && i <= j < |states| && o in states[i].keys
    ensures o in states[j].keys && states[j].keys[o] == states[i].keys[o]
    ensures o !in states[i].held ==> o !in states[j].held
  {
    if i < j {
      RegistrationIsForGood(states, steps, i, j - 1, o);
      RunKeepsValid(states, steps, j - 1);
      NothingIsForgotten(states[j - 1], steps[j - 1], states[j], o);
    }
  }

  lemma ObtainedIsRegistered<O>(r: Registry<O>, step: Step<O>, r': Registry<O>)
    requires Valid(r) && Next(r, step, r') && Obtained(step).Some?
    ensures var (key, o) := Obtained(step).value;
      o in r'.keys && r'.keys[o] == key && o in r'.held
  {
  }

  /** Two fetches of one key return the same object, if the first one's object still has a holder when
      the second one returns. If it has none, the second object is another one, and no later step can
      bring the first one back. */
  lemma OverlappingFetchesReturnTheSame<O>(states: seq<Registry<O>>, steps: seq<Step<O>>, i: nat, j: nat)
    requires IsRun(states, steps) && i < j < |steps|
    requires Obtained(steps[i]).Some? && Obtained(steps[j]).Some?
    requires Obtained(steps[i]).value.0 == Obtained(steps[j]).value.0
    ensures var a, b := Obtained(steps[i]).value.1, Obtained(steps[j]).value.1;
      a == b <==> a in states[j].held
  {
    var (key, a) := Obtained(steps[i]).value;
    var b := Obtained(steps[j]).value.1;
    RunKeepsValid(states, steps, i);
    ObtainedIsRegistered(states[i], steps[i], states[i + 1]);
    RegistrationIsForGood(states, steps, i + 1, j, a);
    RegistrationIsForGood(states, steps, i + 1, j + 1, a);
    RunKeepsValid(states, steps, j);
    RunKeepsValid(states, steps, j + 1);
    ObtainedIsRegistered(states[j], steps[j], states[j + 1]);
    if a in states[j].held {
      HolderSurvivesObtaining(states[j], steps[j], states[j + 1], a);
      AtMostOneLiveEntityPerKey(states, steps, j + 1, a, b);
    }
  }

  lemma HolderSurvivesObtaining<O>(r: Registry<O>, step: Step<O>, r': Registry<O>, a: O)
    requires Next(r, step, r') && Obtained(step).Some? && a in r.held
    ensures a in r'.held
  {
  }

  lemma ObtainedHasAnEntry<O>(r: Registry<O>, step: Step<O>, r': Registry<O>)
    requires Next(r, step, r') && Obtained(step).Some?
    ensures Obtained(step).value.0 in r'.entities
  {
  }

  /** An insertion is refused not only while an entity lives under its key but for ever after. */
  lemma InsertionNeedsAnUnusedKey<O>(states: seq<Registry<O>>, steps: seq<Step<O>>, i: nat, j: nat, key: Key, o: O, ok: bool)
    requires IsRun(states, steps) && i < j < |steps|
    requires Obtained(steps[i]).Some? && Obtained(steps[i]).value.0 == key && steps[j] == Inserted(key, o, ok)
    ensures !ok
  {
    ObtainedHasAnEntry(states[i], steps[i], states[i + 1]);
    EntriesStay(states, steps, i + 1, j, key);
  }

  lemma {:induction false} EntriesStay<O>(states: seq<Registry<O>>, steps: seq<Step<O>>, i: nat, j: nat, key: Key)
    requires IsRun(states, steps) && i <= j < |states| && key in states[i].entities
    ensures key in states[j].entities
  {
    if i < j {
      EntriesStay(states, steps, i, j - 1, key);
      assert Next(states[j - 1], steps[j - 1], states[j]);
    }
  }
}
