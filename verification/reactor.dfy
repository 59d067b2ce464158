/** The reactor: live subscriptions and the three redundant structures that spare it a full scan. */
module Reactors {
  import opened Bytes
  import opened Ast
  import opened Filter
  import opened Collation
  import opened ComparisonIndices
  import opened Watching
  import opened LiveQueries

  class Subscription {
    const id: SubId
    const collection: Text
    const query: Predicate
    var matching: seq<EntityId>
    /** The change sets its callback has received. */
    var delivered: seq<ChangeSet>

    constructor (id: SubId, collection: Text, query: Predicate, matching: seq<EntityId>)
      ensures this.id == id && this.collection == collection && this.query == query
      ensures this.matching == matching && delivered == []
    {
      this.id, this.collection, this.query := id, collection, query;
      this.matching, delivered := matching, [];
    }

    function Reg(): Registration
      reads this`matching
    {
      Registration(collection, query, matching)
    }
  }

  /** One entry of the index of one field of one collection. */
  datatype Registered = Registered(collection: Text, field: Text, bucket: Bucket, sub: SubId)

  /** A fetched row either decodes to an entity or is corrupt. */
  datatype Row = Decoded(entity: Entity) | Corrupt

  datatype Fetch = Rows(rows: seq<Row>) | FetchFailed

  predicate Succeeds(fetch: Fetch) {
    fetch.Rows? && forall row | row in fetch.rows :: row.Decoded?
  }

  /** What a reactor is called with. */
  datatype Call =
    | Subscribing(sub: SubId, collection: Text, query: Predicate, fetch: Fetch)
    | Notifying(changes: seq<EntityChange>)
    | Unsubscribing(sub: SubId)

  datatype WatcherOp = Add | Remove

  /** What a predicate registers for a subscription on a collection, with multiplicity. */
  ghost function Tagged(collection: Text, p: Predicate, s: SubId): multiset<Registered> {
    match p
    case Comparison(left, op, right) =>
      var target := ComparisonTarget(left, right);
      if target.None? then multiset{} else TaggedLeaf(collection, target.value, op, s)
    case And(l, r) => Tagged(collection, l, s) + Tagged(collection, r, s)
    case Or(l, r) => Tagged(collection, l, s) + Tagged(collection, r, s)
    case Not(q) => Tagged(collection, q, s)
    case _ => multiset{}
  }

  ghost function TaggedLeaf(collection: Text, t: Target, op: ComparisonOperator, s: SubId): multiset<Registered> {
    match Normalise(t.literal, op)
    case Some(bucket) => multiset{Registered(collection, t.field, bucket, s)}
    case None => multiset{}
  }

  lemma {:induction false} TaggedCounts(collection: Text, p: Predicate, s: SubId, r: Registered)
    ensures Tagged(collection, p, s)[r] ==
      if r.collection == collection && r.sub == s then Leaves(p)[Watch(r.field, r.bucket)] else 0
  {
    match p
    case And(l, q) =>
      TaggedCounts(collection, l, s, r);
      TaggedCounts(collection, q, s, r);
    case Or(l, q) =>
      TaggedCounts(collection, l, s, r);
      TaggedCounts(collection, q, s, r);
    case Not(q) => TaggedCounts(collection, q, s, r);
    case _ =>
  }

  function ComparisonWatch(r: Registered): Watch { Watch(r.field, r.bucket) }

  /** How often an index entry of the field `key` stands for `r`. */
  ghost function CountFor(r: Registered, key: (Text, Text), entries: multiset<Entry>): nat {
    if (r.collection, r.field) == key then entries[Entry(r.bucket.bound, r.bucket.key, r.sub)] else 0
  }

  lemma FiledIsTagged(collection: Text, t: Target, op: ComparisonOperator, s: SubId)
    ensures forall r :: TaggedLeaf(collection, t, op, s)[r] == CountFor(r, (collection, t.field), Filed(t.literal, op, s))
  {
  }

  ghost function Size(p: Predicate): nat {
    match p
    case And(l, r) => 1 + Size(l) + Size(r)
    case Or(l, r) => 1 + Size(l) + Size(r)
    case Not(q) => 1 + Size(q)
    case _ => 0
  }

  lemma DifferenceCounts<T>(m: multiset<T>, n: multiset<T>, x: T)
    ensures (m - n)[x] == if m[x] > n[x] then m[x] - n[x] else 0
  {
  }

  ghost function Changed(op: WatcherOp, m: multiset<Registered>, d: multiset<Registered>): multiset<Registered> {
    if op.Add? then m + d else m - d
  }

  lemma NothingChanged(op: WatcherOp, m: multiset<Registered>)
    ensures Changed(op, m, multiset{}) == m
  {
  }

  lemma ChangedTwice(op: WatcherOp, m: multiset<Registered>, c: multiset<Registered>, d: multiset<Registered>)
    ensures Changed(op, Changed(op, m, c), d) == Changed(op, m, c + d)
  {
  }

  lemma {:induction false} WithoutCounts<T(!new)>(xs: seq<T>, x: T, y: T)
    ensures multiset(Without(xs, x))[y] == if y == x then 0 else multiset(xs)[y]
  {
    if xs != [] {
      WithoutCounts(xs[1..], x, y);
      assert xs == [xs[0]] + xs[1..];
    }
  }

  predicate WildIn(watchers: map<Text, set<SubId>>, collection: Text, s: SubId) {
    collection in watchers && s in watchers[collection]
  }

  /** Among the wildcard sets at most the entry of one subscription moves: it is there after an addition
      and gone after a removal, if there is a wildcard at all. */
  ghost predicate WildcardMoved(before: map<Text, set<SubId>>, after: map<Text, set<SubId>>, any: bool,
                                collection: Text, s: SubId, op: WatcherOp) {
    forall c, t :: WildIn(after, c, t) <==> if any && c == collection && t == s then op.Add? else WildIn(before, c, t)
  }

  lemma NoWildcardMoved(a: map<Text, set<SubId>>, collection: Text, s: SubId, op: WatcherOp)
    ensures WildcardMoved(a, a, false, collection, s, op)
  {
  }

  lemma WildcardMovedTwice(a: map<Text, set<SubId>>, b: map<Text, set<SubId>>, c: map<Text, set<SubId>>, l: bool, r: bool,
                           collection: Text, s: SubId, op: WatcherOp)
    requires WildcardMoved(a, b, l, collection, s, op) && WildcardMoved(b, c, r, collection, s, op)
    ensures WildcardMoved(a, c, l || r, collection, s, op)
  {
  }

  class Reactor {
    var subscriptions: map<SubId, Subscription>
    var indexWatchers: map<(Text, Text), ComparisonIndex>
    var wildcardWatchers: map<Text, set<SubId>>
    var entityWatchers: map<EntityId, seq<SubId>>
    /** Everything stored in the indexes. */
    ghost var index: multiset<Registered>
    /** Registrations left behind by subscriptions that failed while fetching. */
    ghost var orphans: map<SubId, Registration>
    /** The subscriptions as their subscribers see them. */
    ghost var view: Subs
    /** The registrations that own watchers: live and orphaned ones. */
    ghost var regs: map<SubId, Registration>
    /** The objects in `subscriptions` and in `indexWatchers`. */
    ghost var subscribers: set<Subscription>
    ghost var indexes: set<ComparisonIndex>

    ghost predicate Counted(r: Registered)
      reads this`indexWatchers, this`index, indexWatchers.Values
    {
      index[r] ==
        if (r.collection, r.field) in indexWatchers
        then indexWatchers[(r.collection, r.field)].entries[Entry(r.bucket.bound, r.bucket.key, r.sub)]
        else 0
    }

    /** Each field of a collection has its own index. */
    ghost predicate IndexesValid()
      reads this`indexWatchers, this`index, this`indexes, indexes, indexWatchers.Values
    {
      && indexWatchers.Values <= indexes
      && (forall j, k | j in indexWatchers && k in indexWatchers && j != k :: indexWatchers[j] != indexWatchers[k])
      && (forall k | k in indexWatchers :: indexWatchers[k].Valid())
      && (forall r :: Counted(r))
    }

    ghost predicate Indexed(regs: map<SubId, Registration>, r: Registered)
      reads this`index
    {
      index[r] ==
        if r.sub in regs && regs[r.sub].collection == r.collection
        then Leaves(regs[r.sub].query)[Watch(r.field, r.bucket)]
        else 0
    }

    predicate Wild(collection: Text, s: SubId)
      reads this`wildcardWatchers
    {
      WildIn(wildcardWatchers, collection, s)
    }

    ghost predicate Wildcarded(regs: map<SubId, Registration>, collection: Text, s: SubId)
      reads this`wildcardWatchers
    {
      Wild(collection, s) <==> s in regs && regs[s].collection == collection && HasTrue(regs[s].query)
    }

    function Watchers(id: EntityId): seq<SubId>
      reads this`entityWatchers
    {
      if id in entityWatchers then entityWatchers[id] else []
    }

    ghost predicate Watched(regs: map<SubId, Registration>, id: EntityId, s: SubId)
      reads this`entityWatchers
    {
      multiset(Watchers(id))[s] == if s in regs && id in regs[s].matching then 1 else 0
    }

    ghost predicate IndexAgrees(regs: map<SubId, Registration>)
      reads this`index
    {
      forall r :: Indexed(regs, r)
    }

    ghost predicate WildcardsAgree(regs: map<SubId, Registration>)
      reads this`wildcardWatchers
    {
      forall collection, s :: Wildcarded(regs, collection, s)
    }

    ghost predicate EntitiesAgree(regs: map<SubId, Registration>)
      reads this`entityWatchers
    {
      forall id, s :: Watched(regs, id, s)
    }

    ghost predicate Mirrored(s: SubId)
      requires s in subscriptions && s in view && s in regs
      reads this`subscriptions, this`view, this`regs, subscriptions.Values
    {
      var sub := subscriptions[s];
      && sub.id == s && Watchable(sub.query) && NoRepeats(sub.matching)
      && view[s] == Sub(sub.Reg(), sub.delivered) && regs[s] == sub.Reg()
    }

    ghost predicate SubscriptionsValid()
      reads this`subscriptions, this`orphans, this`view, this`regs, this`subscribers, subscriptions.Values
    {
      && subscriptions.Values <= subscribers
      && subscriptions.Keys == view.Keys
      && view.Keys !! orphans.Keys
      && regs.Keys == view.Keys + orphans.Keys
      && (forall s | s in subscriptions :: Mirrored(s))
      && (forall s | s in orphans :: regs[s] == orphans[s])
    }

    /** The indexes, the wildcard sets and the entity watchers hold exactly what the registrations
        call for: in every bucket a subscription occurs once per leaf of its predicate filed there,
        in a wildcard set if its predicate has a TRUE, and on the list of an entity once if the
        entity is in its result set. Ids without a registration occur nowhere. */
    ghost predicate Valid()
      reads this, subscribers, indexes, subscriptions.Values, indexWatchers.Values
    {
      SubscriptionsValid() && IndexesValid() && Agree(regs)
    }

    constructor ()
      ensures Valid() && view == map[] && orphans == map[]
      ensures fresh(indexes) && fresh(subscribers)
    {
      subscriptions, indexWatchers, wildcardWatchers, entityWatchers := map[], map[], map[], map[];
      index, orphans, view, regs, subscribers, indexes := multiset{}, map[], map[], map[], {}, {};
    }

    // ---------- registering watchers ----------

    /** Creates the index of a field on first use. */
    method EnsureIndex(key: (Text, Text))
      requires IndexesValid()
      modifies this`indexWatchers, this`indexes
      ensures IndexesValid() && key in indexWatchers
      ensures fresh(indexes - old(indexes))
    {
      if key !in indexWatchers {
        var blank := new ComparisonIndex();
        indexWatchers := indexWatchers[key := blank];
        indexes := indexes + {blank};
        forall r ensures Counted(r) {
          assert old(Counted(r));
        }
      }
    }

    method AddToIndex(collection: Text, t: Target, operator: ComparisonOperator, s: SubId)
      requires IndexesValid() && Indexable(operator) && (collection, t.field) in indexWatchers
      modifies this`index, indexes
      ensures IndexesValid()
      ensures index == old(index) + TaggedLeaf(collection, t, operator, s)
    {
      var key := (collection, t.field);
      FiledIsTagged(collection, t, operator, s);
      ghost var change := TaggedLeaf(collection, t, operator, s);
      index := index + change;
      var i := indexWatchers[key];
      i.Add(t.literal, operator, s);
      forall r ensures Counted(r) {
        assert old(Counted(r));
        assert change[r] == CountFor(r, key, Filed(t.literal, operator, s));
      }
    }

    method AddLeaf(collection: Text, t: Target, operator: ComparisonOperator, s: SubId)
      requires IndexesValid() && Indexable(operator)
      modifies this`indexWatchers, this`indexes, this`index, indexes
      ensures IndexesValid() && fresh(indexes - old(indexes))
      ensures index == old(index) + TaggedLeaf(collection, t, operator, s)
    {
      EnsureIndex((collection, t.field));
      AddToIndex(collection, t, operator, s);
    }

    method RemoveLeaf(collection: Text, t: Target, operator: ComparisonOperator, s: SubId)
      requires IndexesValid() && Indexable(operator)
      modifies this`index, indexes
      ensures IndexesValid()
      ensures index == old(index) - TaggedLeaf(collection, t, operator, s)
    {
      var key := (collection, t.field);
      if key in indexWatchers {
        var i := indexWatchers[key];
        i.Remove(t.literal, operator, s);
      }
      ghost var change, filed := TaggedLeaf(collection, t, operator, s), Filed(t.literal, operator, s);
      FiledIsTagged(collection, t, operator, s);
      index := index - change;
      forall r ensures Counted(r) {
        assert old(Counted(r));
        assert change[r] == CountFor(r, key, filed);
        DifferenceCounts(old(index), change, r);
        if (r.collection, r.field) == key && key in indexWatchers {
          DifferenceCounts(old(indexWatchers[key].entries), filed, Entry(r.bucket.bound, r.bucket.key, r.sub));
        }
      }
    }

    method ManageLeaf(collection: Text, left: Expr, operator: ComparisonOperator, right: Expr, s: SubId, op: WatcherOp)
      requires IndexesValid() && Watchable(Comparison(left, operator, right))
      modifies this`indexWatchers, this`indexes, this`index, indexes
      ensures IndexesValid() && fresh(indexes - old(indexes))
      ensures index == Changed(op, old(index), Tagged(collection, Comparison(left, operator, right), s))
    {
      var target := ComparisonTarget(left, right);
      if target.Some? {
        match op {
          case Add => AddLeaf(collection, target.value, operator, s);
          case Remove => RemoveLeaf(collection, target.value, operator, s);
        }
      }
    }

    method ManageWildcard(collection: Text, s: SubId, op: WatcherOp)
      modifies this`wildcardWatchers
      ensures WildcardMoved(old(wildcardWatchers), wildcardWatchers, true, collection, s, op)
    {
      var watchers := if collection in wildcardWatchers then wildcardWatchers[collection] else {};
      wildcardWatchers := wildcardWatchers[collection := if op.Add? then watchers + {s} else watchers - {s}];
    }

    /** Registers or withdraws every leaf of a predicate. */
    method ManageWatchers(collection: Text, p: Predicate, s: SubId, op: WatcherOp)
      requires IndexesValid() && Watchable(p)
      modifies this`indexWatchers, this`indexes, this`index, this`wildcardWatchers, indexes
      ensures IndexesValid() && fresh(indexes - old(indexes))
      ensures index == Changed(op, old(index), Tagged(collection, p, s))
      ensures WildcardMoved(old(wildcardWatchers), wildcardWatchers, HasTrue(p), collection, s, op)
      decreases Size(p), 0
    {
      match p {
        case Comparison(left, operator, right) =>
          NoWildcardMoved(wildcardWatchers, collection, s, op);
          ManageLeaf(collection, left, operator, right, s, op);
        case And(l, r) => ManageBoth(collection, l, r, s, op);
        case Or(l, r) => ManageBoth(collection, l, r, s, op);
        case Not(q) => ManageWatchers(collection, q, s, op);
        case True =>
          NothingChanged(op, index);
          ManageWildcard(collection, s, op);
      }
    }

    method ManageBoth(collection: Text, l: Predicate, r: Predicate, s: SubId, op: WatcherOp)
      requires IndexesValid() && Watchable(l) && Watchable(r)
      modifies this`indexWatchers, this`indexes, this`index, this`wildcardWatchers, indexes
      ensures IndexesValid() && fresh(indexes - old(indexes))
      ensures index == Changed(op, old(index), Tagged(collection, l, s) + Tagged(collection, r, s))
      ensures WildcardMoved(old(wildcardWatchers), wildcardWatchers, HasTrue(l) || HasTrue(r), collection, s, op)
      decreases Size(l) + Size(r), 1
    {
      ManageWatchers(collection, l, s, op);
      ghost var between := wildcardWatchers;
      ManageWatchers(collection, r, s, op);
      WildcardMovedTwice(old(wildcardWatchers), between, wildcardWatchers, HasTrue(l), HasTrue(r), collection, s, op);
      ChangedTwice(op, old(index), Tagged(collection, l, s), Tagged(collection, r, s));
    }

    // ---------- subscribe and unsubscribe ----------

    method AddWatchers(collection: Text, p: Predicate, s: SubId, ghost owners: map<SubId, Registration>)
      requires IndexesValid() && Watchable(p) && s !in owners
      requires IndexAgrees(owners) && WildcardsAgree(owners)
      modifies this`indexWatchers, this`indexes, this`index, this`wildcardWatchers, indexes
      ensures IndexesValid() && fresh(indexes - old(indexes))
      ensures IndexAgrees(owners[s := Registration(collection, p, [])])
      ensures WildcardsAgree(owners[s := Registration(collection, p, [])])
    {
      ManageWatchers(collection, p, s, WatcherOp.Add);
      ghost var after := owners[s := Registration(collection, p, [])];
      forall r ensures Indexed(after, r) {
        assert old(Indexed(owners, r));
        TaggedCounts(collection, p, s, r);
      }
      forall c, t ensures Wildcarded(after, c, t) {
        assert old(Wildcarded(owners, c, t));
      }
    }

    /** Index and wildcard agreement do not depend on the result sets. */
    lemma QueriesDecide(regs: map<SubId, Registration>, others: map<SubId, Registration>)
      requires IndexAgrees(regs) && WildcardsAgree(regs)
      requires regs.Keys == others.Keys
      requires forall s | s in regs :: regs[s].collection == others[s].collection && regs[s].query == others[s].query
      ensures IndexAgrees(others) && WildcardsAgree(others)
    {
      forall r ensures Indexed(others, r) {
        assert Indexed(regs, r);
      }
      forall c, t ensures Wildcarded(others, c, t) {
        assert Wildcarded(regs, c, t);
      }
    }

    method RemoveWatchers(collection: Text, p: Predicate, s: SubId, ghost owners: map<SubId, Registration>)
      requires IndexesValid() && Watchable(p)
      requires s in owners && owners[s].collection == collection && owners[s].query == p
      requires IndexAgrees(owners) && WildcardsAgree(owners)
      modifies this`indexWatchers, this`indexes, this`index, this`wildcardWatchers, indexes
      ensures IndexesValid() && fresh(indexes - old(indexes))
      ensures IndexAgrees(owners - {s}) && WildcardsAgree(owners - {s})
    {
      ManageWatchers(collection, p, s, WatcherOp.Remove);
      forall r ensures Indexed(owners - {s}, r) {
        assert old(Indexed(owners, r));
        TaggedCounts(collection, p, s, r);
        DifferenceCounts(old(index), Tagged(collection, p, s), r);
      }
      forall c, t ensures Wildcarded(owners - {s}, c, t) {
        assert old(Wildcarded(owners, c, t));
      }
    }

    /** Puts `s` on the list of an entity that joins its result set. */
    method Enlist(id: EntityId, s: SubId, ghost owners: map<SubId, Registration>)
      requires EntitiesAgree(owners) && s in owners && id !in owners[s].matching
      modifies this`entityWatchers
      ensures EntitiesAgree(owners[s := owners[s].(matching := owners[s].matching + [id])])
    {
      entityWatchers := entityWatchers[id := Watchers(id) + [s]];
      ghost var after := owners[s := owners[s].(matching := owners[s].matching + [id])];
      forall i, t ensures Watched(after, i, t) {
        assert old(Watched(owners, i, t));
      }
    }

    /** Takes `s` off the list of an entity that leaves its result set. */
    method Delist(id: EntityId, s: SubId, ghost owners: map<SubId, Registration>)
      requires EntitiesAgree(owners) && s in owners
      modifies this`entityWatchers
      ensures EntitiesAgree(owners[s := owners[s].(matching := Without(owners[s].matching, id))])
    {
      if id in entityWatchers {
        entityWatchers := entityWatchers[id := Without(entityWatchers[id], s)];
      }
      ghost var after := owners[s := owners[s].(matching := Without(owners[s].matching, id))];
      forall i, t ensures Watched(after, i, t) {
        assert old(Watched(owners, i, t));
        WithoutCounts(old(Watchers(id)), s, t);
      }
    }

    method LoadRow(e: Entity, collection: Text, p: Predicate, s: SubId, matching: seq<EntityId>, ghost owners: map<SubId, Registration>)
      returns (ids: seq<EntityId>)
      requires EntitiesAgree(owners[s := Registration(collection, p, matching)]) && e.id !in matching
      modifies this`entityWatchers
      ensures ids == if Matches(e, p) then matching + [e.id] else matching
      ensures EntitiesAgree(owners[s := Registration(collection, p, ids)])
    {
      ids := matching;
      if Matches(e, p) {
        ids := ids + [e.id];
        ghost var before := owners[s := Registration(collection, p, matching)];
        Enlist(e.id, s, before);
        assert before[s := before[s].(matching := ids)] == owners[s := Registration(collection, p, ids)];
      }
    }

    /** Evaluates the predicate on the fetched rows until they end or one fails to decode. */
    method LoadRows(rows: seq<Row>, collection: Text, p: Predicate, s: SubId, ghost owners: map<SubId, Registration>)
      returns (ok: bool, matching: seq<EntityId>)
      requires EntitiesAgree(owners[s := Registration(collection, p, [])]) && DistinctIds(Prefix(rows))
      modifies this`entityWatchers
      ensures ok <==> forall row | row in rows :: row.Decoded?
      ensures matching == MatchingIds(Prefix(rows), p)
      ensures EntitiesAgree(owners[s := Registration(collection, p, matching)])
    {
      matching := [];
      for n := 0 to |rows|
        invariant forall k | 0 <= k < n :: rows[k].Decoded?
        invariant matching == MatchingIds(Prefix(rows[..n]), p)
        invariant EntitiesAgree(owners[s := Registration(collection, p, matching)])
      {
        PrefixGrows(rows, n);
        if rows[n].Corrupt? {
          return false, matching;
        }
        NextRowIsNew(rows, n, p);
        matching := LoadRow(rows[n].entity, collection, p, s, matching, owners);
      }
      assert rows[..|rows|] == rows;
      ok := true;
    }

    lemma NothingWatchedYet(s: SubId, collection: Text, p: Predicate, regs: map<SubId, Registration>)
      requires EntitiesAgree(regs) && s !in regs
      ensures EntitiesAgree(regs[s := Registration(collection, p, [])])
    {
      var after := regs[s := Registration(collection, p, [])];
      forall id, t ensures Watched(after, id, t) {
        assert Watched(regs, id, t);
      }
    }

    ghost predicate Agree(regs: map<SubId, Registration>)
      reads this`index, this`wildcardWatchers, this`entityWatchers
    {
      IndexAgrees(regs) && WildcardsAgree(regs) && EntitiesAgree(regs)
    }

    /** Everything `subscribe` does before it stores the subscription. */
    method Prepare(s: SubId, collection: Text, p: Predicate, fetch: Fetch, ghost owners: map<SubId, Registration>)
      returns (ok: bool, matching: seq<EntityId>)
      requires SubscriptionsValid() && IndexesValid() && Agree(owners) && s !in owners
      requires Watchable(p) && (fetch.Rows? ==> DistinctIds(Prefix(fetch.rows)))
      modifies this`indexWatchers, this`indexes, this`index, this`wildcardWatchers, this`entityWatchers, indexes
      ensures SubscriptionsValid() && IndexesValid() && fresh(indexes - old(indexes))
      ensures ok <==> Succeeds(fetch)
      ensures matching == if fetch.Rows? then MatchingIds(Prefix(fetch.rows), p) else []
      ensures NoRepeats(matching) && Agree(owners[s := Registration(collection, p, matching)])
    {
      AddWatchers(collection, p, s, owners);
      NothingWatchedYet(s, collection, p, owners);
      ok, matching := false, [];
      if fetch.Rows? {
        ok, matching := LoadRows(fetch.rows, collection, p, s, owners);
        MatchingIdsDistinct(Prefix(fetch.rows), p);
      }
      QueriesDecide(owners[s := Registration(collection, p, [])], owners[s := Registration(collection, p, matching)]);
    }

    method Store(sub: Subscription)
      requires SubscriptionsValid() && sub.id !in subscriptions && sub.id !in orphans
      requires Watchable(sub.query) && NoRepeats(sub.matching)
      modifies this`subscriptions, this`subscribers, this`view, this`regs
      ensures SubscriptionsValid() && subscribers == old(subscribers) + {sub}
      ensures view == old(view)[sub.id := Sub(sub.Reg(), sub.delivered)]
      ensures regs == old(regs)[sub.id := sub.Reg()]
    {
      subscriptions := subscriptions[sub.id := sub];
      subscribers := subscribers + {sub};
      view := view[sub.id := Sub(sub.Reg(), sub.delivered)];
      regs := regs[sub.id := sub.Reg()];
      forall s | s in subscriptions ensures Mirrored(s) {
        assert s != sub.id ==> old(Mirrored(s));
      }
    }

    /** Notes that the watchers of a failed subscription stay behind. */
    ghost method Abandon(s: SubId, reg: Registration)
      requires SubscriptionsValid() && s !in subscriptions && s !in orphans
      modifies this`orphans, this`regs
      ensures SubscriptionsValid() && orphans == old(orphans)[s := reg] && regs == old(regs)[s := reg]
    {
      orphans, regs := orphans[s := reg], regs[s := reg];
      forall t | t in subscriptions ensures Mirrored(t) {
        assert old(Mirrored(t));
      }
    }

    /** A new subscription sees the accepted rows. When the fetch fails, or a row does not decode,
        nobody is subscribed, but the watchers registered so far stay behind as an orphan. */
    method Subscribe(s: SubId, collection: Text, p: Predicate, fetch: Fetch) returns (ok: bool)
      requires Valid() && s !in subscriptions && s !in orphans
      requires Watchable(p) && Supported(p)
      requires fetch.Rows? ==> DistinctIds(Prefix(fetch.rows))
      modifies this, indexes
      ensures Valid()
      ensures fresh(indexes - old(indexes)) && fresh(subscribers - old(subscribers))
      ensures ok <==> Succeeds(fetch)
      ensures ok ==>
        && view == Apply(Interested, old(view), Op.Subscribe(s, collection, p, Prefix(fetch.rows)))
        && orphans == old(orphans)
      ensures !ok ==>
        && view == old(view)
        && orphans == old(orphans)[s := Registration(collection, p, if fetch.Rows? then MatchingIds(Prefix(fetch.rows), p) else [])]
    {
      var matching;
      ok, matching := Prepare(s, collection, p, fetch, regs);
      Conclude(ok, s, collection, p, matching);
    }

    /** Ends a prepared subscription: stored if the fetch went well, else orphaned. */
    method Conclude(ok: bool, s: SubId, collection: Text, p: Predicate, matching: seq<EntityId>)
      requires SubscriptionsValid() && IndexesValid() && Agree(regs[s := Registration(collection, p, matching)])
      requires s !in subscriptions && s !in orphans && Watchable(p) && NoRepeats(matching)
      modifies this`subscriptions, this`subscribers, this`view, this`regs, this`orphans
      ensures Valid() && fresh(subscribers - old(subscribers))
      ensures view == if ok then old(view)[s := Started(collection, p, matching)] else old(view)
      ensures orphans == if ok then old(orphans) else old(orphans)[s := Registration(collection, p, matching)]
    {
      if ok {
        Admit(s, collection, p, matching);
      } else {
        Abandon(s, Registration(collection, p, matching));
      }
    }

    /** Stores the subscription and sends it the initial change set, if there is one. */
    method Admit(s: SubId, collection: Text, p: Predicate, matching: seq<EntityId>)
      requires SubscriptionsValid() && s !in subscriptions && s !in orphans && Watchable(p) && NoRepeats(matching)
      modifies this`subscriptions, this`subscribers, this`view, this`regs
      ensures SubscriptionsValid() && fresh(subscribers - old(subscribers))
      ensures view == old(view)[s := Started(collection, p, matching)]
      ensures regs == old(regs)[s := Registration(collection, p, matching)]
    {
      var sub := new Subscription(s, collection, p, matching);
      if matching != [] {
        sub.delivered := [ChangeSet(matching, InitialChanges(matching))];
      }
      Store(sub);
    }

    /** The id occurs in no index, wildcard set or entity watcher list. */
    ghost predicate Gone(s: SubId)
      reads this`index, this`wildcardWatchers, this`entityWatchers
    {
      && (forall r | r in index :: r.sub != s)
      && (forall collection :: !Wild(collection, s))
      && (forall id :: s !in Watchers(id))
    }

    /** Only registered ids, live or orphaned, occur in the redundant structures. */
    lemma UnregisteredIsGone(s: SubId, regs: map<SubId, Registration>)
      requires Agree(regs) && s !in regs
      ensures Gone(s)
    {
      forall r | r in index ensures r.sub != s {
        assert Indexed(regs, r);
      }
      forall collection ensures !Wild(collection, s) {
        assert Wildcarded(regs, collection, s);
      }
      forall id ensures s !in Watchers(id) {
        assert Watched(regs, id, s);
      }
    }

    /** Without a live subscription an id leaves traces exactly when it belongs to a subscribe that
        failed after registering something. */
    lemma LeftoversComeFromFailedSubscribes(s: SubId)
      requires Valid() && s !in view
      ensures Gone(s) <==>
        (s in orphans ==> Leaves(orphans[s].query) == multiset{} && !HasTrue(orphans[s].query) && orphans[s].matching == [])
    {
      if s !in orphans {
        UnregisteredIsGone(s, regs);
      } else {
        var o := orphans[s];
        assert Wildcarded(regs, o.collection, s);
        assert o.matching != [] ==> o.matching[0] in o.matching;
        if Gone(s) {
          forall w ensures Leaves(o.query)[w] == 0 {
            var r := Registered(o.collection, w.field, w.bucket, s);
            assert Indexed(regs, r);
          }
          forall id ensures id !in o.matching {
            assert Watched(regs, id, s) && s !in Watchers(id);
          }
        } else {
          if r :| r in index && r.sub == s {
            assert Indexed(regs, r);
          } else if c :| Wild(c, s) {
            assert Wildcarded(regs, c, s);
          } else {
            var id :| s in Watchers(id);
            assert Watched(regs, id, s);
          }
        }
      }
    }

    /** Takes `s` off the lists of all entities in its result set. */
    method DelistAll(matching: seq<EntityId>, s: SubId, ghost owners: map<SubId, Registration>)
      requires EntitiesAgree(owners) && s in owners && owners[s].matching == matching
      modifies this`entityWatchers
      ensures EntitiesAgree(owners - {s})
    {
      ghost var rest := owners;
      for i := 0 to |matching|
        invariant s in rest && rest - {s} == owners - {s} && EntitiesAgree(rest)
        invariant forall id :: id in rest[s].matching <==> id in matching && id !in matching[..i]
      {
        Delist(matching[i], s, rest);
        rest := rest[s := rest[s].(matching := Without(rest[s].matching, matching[i]))];
        assert matching[..i + 1] == matching[..i] + [matching[i]];
      }
      forall id, t ensures Watched(owners - {s}, id, t) {
        assert Watched(rest, id, t);
      }
    }

    method Discard(s: SubId) returns (sub: Subscription)
      requires SubscriptionsValid() && s in subscriptions
      modifies this`subscriptions, this`view, this`regs
      ensures sub == old(subscriptions[s]) && sub.id == s && subscriptions == old(subscriptions) - {s}
      ensures SubscriptionsValid() && view == old(view) - {s}
      ensures Watchable(sub.query) && s in old(regs) && old(regs)[s] == sub.Reg()
      ensures regs == old(regs) - {s}
    {
      assert Mirrored(s);
      sub := subscriptions[s];
      subscriptions := subscriptions - {s};
      view, regs := view - {s}, regs - {s};
      forall t | t in subscriptions ensures Mirrored(t) {
        assert old(Mirrored(t));
      }
    }

    /** Withdraws everything a discarded subscription had registered. */
    method Withdraw(sub: Subscription, ghost owners: map<SubId, Registration>)
      requires SubscriptionsValid() && IndexesValid() && Agree(owners)
      requires Watchable(sub.query) && sub.id in owners && owners[sub.id] == sub.Reg() && regs == owners - {sub.id}
      modifies this`indexWatchers, this`indexes, this`index, this`wildcardWatchers, this`entityWatchers, indexes
      ensures Valid() && fresh(indexes - old(indexes)) && Gone(sub.id)
    {
      RemoveWatchers(sub.collection, sub.query, sub.id, owners);
      DelistAll(sub.matching, sub.id, owners);
      UnregisteredIsGone(sub.id, owners - {sub.id});
    }

    method Drop(s: SubId)
      requires Valid() && s in subscriptions
      modifies this`subscriptions, this`view, this`regs
      modifies this`indexWatchers, this`indexes, this`index, this`wildcardWatchers, this`entityWatchers, indexes
      ensures Valid() && view == old(view) - {s} && Gone(s)
      ensures fresh(indexes - old(indexes))
    {
      ghost var earlier := regs;
      var sub := Discard(s);
      Withdraw(sub, earlier);
    }

    method Unsubscribe(s: SubId)
      requires Valid()
      modifies this, indexes
      ensures Valid() && orphans == old(orphans)
      ensures fresh(indexes - old(indexes)) && subscribers == old(subscribers)
      ensures view == Apply(Interested, old(view), Op.Unsubscribe(s))
      ensures s in old(view) ==> Gone(s)
    {
      if s in subscriptions {
        Drop(s);
      } else {
        assert view - {s} == view;
      }
    }

    // ---------- notify ----------

    ghost predicate FieldHit(k: (Text, Text), e: Entity, s: SubId)
      requires k in indexWatchers
      reads this`indexWatchers, indexWatchers.Values
    {
      k.0 == e.collection && k.1 in e.values && s in Matching(indexWatchers[k].entries, Value.String(e.values[k.1]))
    }

    /** The indexes answer exactly for the registrations on the collection with a leaf that fires. */
    lemma IndexAnswers(e: Entity, s: SubId)
      requires IndexesValid() && IndexAgrees(regs)
      ensures (exists k :: k in indexWatchers && FieldHit(k, e, s)) <==>
        s in regs && regs[s].collection == e.collection && exists w :: w in Leaves(regs[s].query) && Fires(w, e)
    {
      if k :| k in indexWatchers && FieldHit(k, e, s) {
        var v := Value.String(e.values[k.1]);
        var n :| n in indexWatchers[k].entries && Hits(Bucket(n.bound, n.key), v) && n.sub == s;
        var r := Registered(e.collection, k.1, Bucket(n.bound, n.key), s);
        assert Counted(r) && Indexed(regs, r);
        assert Fires(ComparisonWatch(r), e);
      }
      if s in regs && regs[s].collection == e.collection {
        if w :| w in Leaves(regs[s].query) && Fires(w, e) {
          var r := Registered(e.collection, w.field, w.bucket, s);
          assert Counted(r) && Indexed(regs, r);
          var entry := Entry(w.bucket.bound, w.bucket.key, s);
          assert entry in indexWatchers[(e.collection, w.field)].entries;
          assert FieldHit((e.collection, w.field), e, s);
        }
      }
    }

    /** The ids the indexes, the wildcard set and the entity watchers bring up for a changed entity:
        exactly the interested registrations. */
    method CollectInterested(e: Entity) returns (interested: set<SubId>)
      requires IndexesValid() && Agree(regs)
      ensures forall s :: s in interested <==> s in regs && Interested(regs[s], e)
    {
      interested := {};
      var todo := indexWatchers.Keys;
      while todo != {}
        invariant todo <= indexWatchers.Keys
        invariant forall s :: s in interested <==> exists k :: k in indexWatchers && k !in todo && FieldHit(k, e, s)
        decreases todo
      {
        var k :| k in todo;
        if k.0 == e.collection && k.1 in e.values {
          var found := indexWatchers[k].FindMatching(Value.String(e.values[k.1]));
          interested := interested + set s | s in found;
        }
        todo := todo - {k};
      }
      interested := interested + if e.collection in wildcardWatchers then wildcardWatchers[e.collection] else {};
      interested := interested + set s | s in Watchers(e.id);
      forall s ensures s in interested <==> s in regs && Interested(regs[s], e) {
        IndexAnswers(e, s);
        assert Wildcarded(regs, e.collection, s);
        assert Watched(regs, e.id, s);
      }
    }

    /** Records a new result set for a subscription, together with its mirror. */
    method SetMatching(s: SubId, ids: seq<EntityId>)
      requires SubscriptionsValid() && s in subscriptions && NoRepeats(ids)
      modifies this`view, this`regs, subscriptions[s]
      ensures SubscriptionsValid()
      ensures view == old(view)[s := old(view)[s].(reg := old(view)[s].reg.(matching := ids))]
      ensures regs == old(regs)[s := old(regs)[s].(matching := ids)]
    {
      assert Mirrored(s);
      var sub := subscriptions[s];
      sub.matching := ids;
      view := view[s := view[s].(reg := view[s].reg.(matching := ids))];
      regs := regs[s := regs[s].(matching := ids)];
      forall t | t in subscriptions ensures Mirrored(t) {
        assert old(Mirrored(t));
      }
    }

    method UpdateEntityWatchers(id: EntityId, matching: bool, s: SubId)
      requires SubscriptionsValid() && Agree(regs) && s in subscriptions
      modifies this`entityWatchers, this`view, this`regs, subscriptions[s]
      ensures SubscriptionsValid() && Agree(regs)
      ensures view == old(view)[s := old(view)[s].(reg :=
        old(view)[s].reg.(matching := NextMatching(old(view)[s].reg.matching, id, matching)))]
    {
      assert Mirrored(s);
      if id !in subscriptions[s].matching && matching {
        Join(id, s);
      } else if id in subscriptions[s].matching && !matching {
        Leave(id, s);
      }
    }

    /** An entity comes into a result set. */
    method Join(id: EntityId, s: SubId)
      requires SubscriptionsValid() && Agree(regs) && s in subscriptions && id !in view[s].reg.matching
      modifies this`entityWatchers, this`view, this`regs, subscriptions[s]
      ensures SubscriptionsValid() && Agree(regs)
      ensures view == old(view)[s := old(view)[s].(reg := old(view)[s].reg.(matching := old(view)[s].reg.matching + [id]))]
    {
      assert Mirrored(s);
      ghost var earlier := regs;
      Enlist(id, s, regs);
      SetMatching(s, subscriptions[s].matching + [id]);
      QueriesDecide(earlier, regs);
    }

    /** An entity goes out of a result set. */
    method Leave(id: EntityId, s: SubId)
      requires SubscriptionsValid() && Agree(regs) && s in subscriptions
      modifies this`entityWatchers, this`view, this`regs, subscriptions[s]
      ensures SubscriptionsValid() && Agree(regs)
      ensures view == old(view)[s := old(view)[s].(reg := old(view)[s].reg.(matching := Without(old(view)[s].reg.matching, id)))]
    {
      assert Mirrored(s);
      ghost var earlier := regs;
      Delist(id, s, regs);
      WithoutNoRepeats(subscriptions[s].matching, id);
      SetMatching(s, Without(subscriptions[s].matching, id));
      QueriesDecide(earlier, regs);
    }

    /** Evaluates one change against one live subscription. */
    method EvaluateChange(c: EntityChange, s: SubId, pending: map<SubId, seq<ItemChange>>) returns (next: map<SubId, seq<ItemChange>>)
      requires Valid() && s in subscriptions
      modifies this`entityWatchers, this`view, this`regs, subscriptions[s]
      ensures Valid() && Advanced(old(view), pending, view, next, c, {s})
      ensures next.Keys <= pending.Keys + {s}
    {
      assert Mirrored(s);
      var sub := subscriptions[s];
      var id := c.entity.id;
      var matches := Matches(c.entity, sub.query);
      var didMatch := id in sub.matching;
      UpdateEntityWatchers(id, matches, s);
      var kind := KindOf(didMatch, matches);
      next := if kind.None? then pending
              else pending[s := (if s in pending then pending[s] else []) + [ItemChange(kind.value, id, c.events)]];
    }

    method EvaluateInterested(c: EntityChange, interested: set<SubId>, pending: map<SubId, seq<ItemChange>>)
      returns (next: map<SubId, seq<ItemChange>>)
      requires Valid()
      modifies this`entityWatchers, this`view, this`regs, subscriptions.Values
      ensures Valid() && Advanced(old(view), pending, view, next, c, interested)
      ensures next.Keys <= pending.Keys + view.Keys
    {
      next := pending;
      var todo := interested;
      ghost var done: set<SubId> := {};
      while todo != {}
        invariant Valid() && todo !! done && todo + done == interested
        invariant Advanced(old(view), pending, view, next, c, done)
        invariant next.Keys <= pending.Keys + view.Keys
        decreases todo
      {
        ghost var member := Inhabited(todo);
        var s :| s in todo;
        ghost var before := view;
        var after := next;
        if s in subscriptions {
          after := EvaluateChange(c, s, next);
        }
        AdvancedOneMore(old(view), pending, before, next, view, after, c, done, s);
        next := after;
        todo, done := todo - {s}, done + {s};
      }
      assert done == interested;
    }

    /** Hands the collected changes to the callbacks, with the current result sets. */
    method Deliver(pending: map<SubId, seq<ItemChange>>)
      requires SubscriptionsValid() && IndexesValid()
      modifies this`view, subscriptions.Values
      ensures SubscriptionsValid() && IndexesValid()
      ensures view == AllHanded(old(view), pending)
    {
      var todo := pending.Keys;
      while todo != {}
        invariant SubscriptionsValid() && IndexesValid() && view.Keys == old(view).Keys && todo <= pending.Keys
        invariant forall s | s in view :: view[s] == if s in todo then old(view)[s] else old(Handed(view, pending, s))
        decreases todo
      {
        ghost var member := Inhabited(todo);
        var s :| s in todo;
        if s in subscriptions {
          assert Mirrored(s);
          DeliverOne(s, pending[s]);
        }
        todo := todo - {s};
      }
    }

    method DeliverOne(s: SubId, changes: seq<ItemChange>)
      requires SubscriptionsValid() && IndexesValid() && s in subscriptions
      modifies this`view, subscriptions[s]
      ensures SubscriptionsValid() && IndexesValid()
      ensures view == old(view)[s := old(view)[s].(log := old(view)[s].log + [ChangeSet(old(view)[s].reg.matching, changes)])]
    {
      assert Mirrored(s);
      var sub := subscriptions[s];
      sub.delivered := sub.delivered + [ChangeSet(sub.matching, changes)];
      view := view[s := view[s].(log := sub.delivered)];
      forall t | t in subscriptions ensures Mirrored(t) {
        assert old(Mirrored(t));
      }
    }

    /** Evaluates a batch, one change after the other, and collects what is to be delivered. */
    method EvaluateBatch(changes: seq<EntityChange>) returns (pending: map<SubId, seq<ItemChange>>)
      requires Valid()
      modifies this`entityWatchers, this`view, this`regs, subscriptions.Values
      ensures Valid() && Progressed(old(view), view, pending, changes)
    {
      pending := map[];
      for n := 0 to |changes|
        invariant Valid() && pending.Keys <= view.Keys
        invariant Progressed(old(view), view, pending, changes[..n])
      {
        ghost var before := view;
        var interested := CollectInterested(changes[n].entity);
        InterestedLive(interested, changes[n].entity);
        var next := EvaluateInterested(changes[n], interested, pending);
        ProgressedOneMore(old(view), before, pending, view, next, changes, n, interested);
        pending := next;
      }
      assert changes[..|changes|] == changes;
    }

    lemma InterestedLive(interested: set<SubId>, e: Entity)
      requires SubscriptionsValid() && forall s :: s in interested <==> s in regs && Interested(regs[s], e)
      ensures forall s | s in view :: s in interested <==> Interested(view[s].reg, e)
    {
      forall s | s in view ensures s in interested <==> Interested(view[s].reg, e) {
        assert Mirrored(s);
      }
    }

    /** One notification moves every subscriber exactly as evaluating the interested registrations,
        one change after the other, prescribes. */
    method NotifyChange(changes: seq<EntityChange>)
      requires Valid()
      modifies this`entityWatchers, this`view, this`regs, subscriptions.Values
      ensures Valid()
      ensures view == Apply(Interested, old(view), Op.Notify(changes))
    {
      var pending := EvaluateBatch(changes);
      ghost var evaluated := view;
      Deliver(pending);
      BatchHandedOver(old(view), evaluated, pending, changes);
    }

    /** Any call moves the view as its operation says, if it has one, and leaves behind what it says. */
    method Perform(call: Call)
      requires Valid() && Admissible(call)
      requires call.Subscribing? ==> call.sub !in view && call.sub !in orphans
      modifies this, indexes, subscriptions.Values
      ensures Valid() && fresh(indexes - old(indexes)) && fresh(subscribers - old(subscribers))
      ensures view == AfterCall(old(view), call) && orphans == WithLeftover(old(orphans), call)
    {
      if call.Subscribing? {
        PerformSubscribe(call);
      } else if call.Notifying? {
        NotifyChange(call.changes);
      } else {
        Unsubscribe(call.sub);
      }
    }

    /** The next call of a list. */
    method PerformNext(calls: seq<Call>, n: nat)
      requires Valid() && n < |calls| && OwnIds(calls) && Admissible(calls[n])
      requires view == Run(Interested, OpsOf(calls[..n])) && orphans == Leftovers(calls[..n])
      modifies this, indexes, subscriptions.Values
      ensures Valid() && fresh(indexes - old(indexes)) && fresh(subscribers - old(subscribers))
      ensures view == Run(Interested, OpsOf(calls[..n + 1])) && orphans == Leftovers(calls[..n + 1])
    {
      OneMoreCall(calls, n);
      OwnIdIsUnused(calls, n);
      Perform(calls[n]);
    }

    method PerformSubscribe(call: Call)
      requires Valid() && Admissible(call) && call.Subscribing? && call.sub !in view && call.sub !in orphans
      modifies this, indexes
      ensures Valid() && fresh(indexes - old(indexes)) && fresh(subscribers - old(subscribers))
      ensures view == AfterCall(old(view), call) && orphans == WithLeftover(old(orphans), call)
    {
      var _ := Subscribe(call.sub, call.collection, call.query, call.fetch);
    }
  }

  // ---------- whole runs of a reactor ----------

  /** What subscribe asks for; the other two calls ask for nothing. */
  ghost predicate Admissible(call: Call) {
    call.Subscribing? ==>
      Supported(call.query) && Watchable(call.query) && (call.fetch.Rows? ==> DistinctIds(Prefix(call.fetch.rows)))
  }

  /** The operation a call amounts to; a subscribe that fails amounts to none. */
  ghost function OpOf(call: Call): Option<Op> {
    match call
    case Subscribing(s, collection, p, fetch) =>
      if Succeeds(fetch) then Some(Op.Subscribe(s, collection, p, Prefix(fetch.rows))) else None
    case Notifying(changes) => Some(Op.Notify(changes))
    case Unsubscribing(s) => Some(Op.Unsubscribe(s))
  }

  ghost function AfterCall(subs: Subs, call: Call): Subs {
    match OpOf(call)
    case Some(op) => Apply(Interested, subs, op)
    case None => subs
  }

  ghost function WithLeftover(orphans: map<SubId, Registration>, call: Call): map<SubId, Registration> {
    match call
    case Subscribing(s, collection, p, fetch) =>
      if Succeeds(fetch) then orphans
      else orphans[s := Registration(collection, p, if fetch.Rows? then MatchingIds(Prefix(fetch.rows), p) else [])]
    case _ => orphans
  }

  ghost function OpsOf(calls: seq<Call>): seq<Op> {
    if calls == [] then []
    else
      var op := OpOf(calls[|calls| - 1]);
      OpsOf(calls[..|calls| - 1]) + if op.Some? then [op.value] else []
  }

  ghost function Leftovers(calls: seq<Call>): map<SubId, Registration> {
    if calls == [] then map[] else WithLeftover(Leftovers(calls[..|calls| - 1]), calls[|calls| - 1])
  }

  /** Every subscribe draws an id of its own. */
  predicate OwnIds(calls: seq<Call>) {
    forall i, j | 0 <= i < j < |calls| && calls[i].Subscribing? && calls[j].Subscribing? :: calls[i].sub != calls[j].sub
  }

  lemma OneMoreCall(calls: seq<Call>, n: nat)
    requires n < |calls|
    ensures Run(Interested, OpsOf(calls[..n + 1])) == AfterCall(Run(Interested, OpsOf(calls[..n])), calls[n])
    ensures Leftovers(calls[..n + 1]) == WithLeftover(Leftovers(calls[..n]), calls[n])
  {
    var front, ops := calls[..n], OpsOf(calls[..n + 1]);
    assert calls[..n + 1][..n] == front;
    if OpOf(calls[n]).Some? {
      assert ops[..|ops| - 1] == OpsOf(front);
    } else {
      assert ops == OpsOf(front);
    }
  }

  /** An id not drawn yet is neither subscribed nor left over. */
  lemma {:induction false} NewIdsAreUnused(calls: seq<Call>, n: nat, s: SubId)
    requires n <= |calls| && forall i | 0 <= i < n && calls[i].Subscribing? :: calls[i].sub != s
    ensures s !in Run(Interested, OpsOf(calls[..n])) && s !in Leftovers(calls[..n])
  {
    if n > 0 {
      NewIdsAreUnused(calls, n - 1, s);
      OneMoreCall(calls, n - 1);
      OthersStayUnused(Run(Interested, OpsOf(calls[..n - 1])), Leftovers(calls[..n - 1]), calls[n - 1], s);
    } else {
      assert calls[..0] == [];
    }
  }

  lemma OthersStayUnused(subs: Subs, orphans: map<SubId, Registration>, call: Call, s: SubId)
    requires s !in subs && s !in orphans && (call.Subscribing? ==> call.sub != s)
    ensures s !in AfterCall(subs, call) && s !in WithLeftover(orphans, call)
  {
  }

  /** A new reactor, whatever it is called with, shows its subscribers the run of the calls' operations,
      and with complete predicates the very run of a full scan; it keeps the watchers of exactly the
      subscribes that failed. */
  method PerformAll(calls: seq<Call>, ghost home: EntityId -> Text) returns (reactor: Reactor)
    requires OwnIds(calls) && forall call | call in calls :: Admissible(call)
    ensures fresh(reactor) && reactor.Valid() && reactor.orphans == Leftovers(calls)
    ensures reactor.view == Run(Interested, OpsOf(calls))
    ensures WellFormedRun(home, OpsOf(calls)) && AllComplete(OpsOf(calls)) ==> reactor.view == Run(FullScan, OpsOf(calls))
  {
    reactor := new Reactor();
    for n := 0 to |calls|
      invariant fresh(reactor) && fresh(reactor.indexes) && fresh(reactor.subscribers) && reactor.Valid()
      invariant reactor.view == Run(Interested, OpsOf(calls[..n])) && reactor.orphans == Leftovers(calls[..n])
    {
      reactor.PerformNext(calls, n);
    }
    assert calls[..|calls|] == calls;
    FullScanAlike(home, OpsOf(calls));
  }

  lemma FullScanAlike(home: EntityId -> Text, ops: seq<Op>)
    ensures WellFormedRun(home, ops) && AllComplete(ops) ==> Run(Interested, ops) == Run(FullScan, ops)
  {
    if WellFormedRun(home, ops) && AllComplete(ops) {
      FastPathRefinesFullScan(home, ops);
    }
  }

  lemma OwnIdIsUnused(calls: seq<Call>, n: nat)
    requires n < |calls| && OwnIds(calls)
    ensures calls[n].Subscribing? ==>
      calls[n].sub !in Run(Interested, OpsOf(calls[..n])) && calls[n].sub !in Leftovers(calls[..n])
  {
    if calls[n].Subscribing? {
      NewIdsAreUnused(calls, n, calls[n].sub);
    }
  }

  lemma NextRowIsNew(rows: seq<Row>, n: nat, p: Predicate)
    requires n < |rows| && (forall k | 0 <= k <= n :: rows[k].Decoded?) && DistinctIds(Prefix(rows))
    ensures rows[n].entity.id !in MatchingIds(Prefix(rows[..n]), p)
    ensures MatchingIds(Prefix(rows[..n + 1]), p) == MatchingIds(Prefix(rows[..n]), p) + if Matches(rows[n].entity, p) then [rows[n].entity.id] else []
  {
    PrefixGrows(rows, n);
    var e, seen := rows[n].entity, Prefix(rows[..n]);
    assert (seen + [e])[..|seen|] == seen;
    MatchingIdsAreRows(seen, p, e.id);
    assert Prefix(rows)[|seen|] == e;
  }

  lemma {:induction false} WithoutNoRepeats(ids: seq<EntityId>, x: EntityId)
    requires NoRepeats(ids)
    ensures NoRepeats(Without(ids, x))
  {
    if ids != [] {
      WithoutNoRepeats(ids[1..], x);
      assert ids[0] !in ids[1..];
    }
  }

  function PendingOf(pending: map<SubId, seq<ItemChange>>, s: SubId): seq<ItemChange> {
    if s in pending then pending[s] else []
  }

  function WorkOn(subs: Subs, pending: map<SubId, seq<ItemChange>>, s: SubId): Work
    requires s in subs
  {
    Work(subs[s].reg, PendingOf(pending, s))
  }

  /** What the subscription becomes once its pending changes are handed over. */
  function Handed(subs: Subs, pending: map<SubId, seq<ItemChange>>, s: SubId): Sub
    requires s in subs
  {
    if s in pending then subs[s].(log := subs[s].log + [ChangeSet(subs[s].reg.matching, pending[s])]) else subs[s]
  }

  function AllHanded(subs: Subs, pending: map<SubId, seq<ItemChange>>): Subs {
    map s | s in subs :: Handed(subs, pending, s)
  }

  /** The subscriptions in `done` have evaluated the change, the others are untouched. */
  ghost predicate Advanced(before: Subs, earlier: map<SubId, seq<ItemChange>>, after: Subs, next: map<SubId, seq<ItemChange>>,
                           c: EntityChange, done: set<SubId>) {
    && before.Keys == after.Keys
    && forall s | s in before ::
         && after[s].log == before[s].log
         && WorkOn(after, next, s) == (if s in done then Evaluate(WorkOn(before, earlier, s), c) else WorkOn(before, earlier, s))
         && (s in next && next[s] == [] ==> s in earlier && earlier[s] == [])
  }

  lemma AdvancedOneMore(a: Subs, pa: map<SubId, seq<ItemChange>>, b: Subs, pb: map<SubId, seq<ItemChange>>,
                        d: Subs, pd: map<SubId, seq<ItemChange>>, c: EntityChange, done: set<SubId>, s: SubId)
    requires Advanced(a, pa, b, pb, c, done) && s !in done
    requires Advanced(b, pb, d, pd, c, {s})
    ensures Advanced(a, pa, d, pd, c, done + {s})
  {
  }

  /** The first changes of a batch have been evaluated and nothing has been delivered yet. */
  ghost predicate Progressed(start: Subs, now: Subs, pending: map<SubId, seq<ItemChange>>, cs: seq<EntityChange>) {
    && start.Keys == now.Keys
    && forall s | s in start ::
         && now[s].log == start[s].log
         && WorkOn(now, pending, s) == Steps(Interested, Work(start[s].reg, []), cs)
         && (s in pending ==> pending[s] != [])
  }

  lemma ProgressedOneMore(start: Subs, before: Subs, pending: map<SubId, seq<ItemChange>>, after: Subs,
                          next: map<SubId, seq<ItemChange>>, cs: seq<EntityChange>, n: nat, interested: set<SubId>)
    requires n < |cs| && Progressed(start, before, pending, cs[..n])
    requires forall s | s in before :: s in interested <==> Interested(before[s].reg, cs[n].entity)
    requires Advanced(before, pending, after, next, cs[n], interested)
    ensures Progressed(start, after, next, cs[..n + 1])
  {
    assert cs[..n + 1][..n] == cs[..n];
  }

  lemma BatchHandedOver(start: Subs, evaluated: Subs, pending: map<SubId, seq<ItemChange>>, cs: seq<EntityChange>)
    requires Progressed(start, evaluated, pending, cs)
    ensures Apply(Interested, start, Op.Notify(cs)) == AllHanded(evaluated, pending)
  {
  }

  /** The rows before the first one that does not decode. */
  ghost function Prefix(rows: seq<Row>): seq<Entity> {
    if rows == [] || rows[0].Corrupt? then [] else [rows[0].entity] + Prefix(rows[1..])
  }

  lemma {:induction false} PrefixGrows(rows: seq<Row>, n: nat)
    requires n < |rows| && forall k | 0 <= k < n :: rows[k].Decoded?
    ensures Prefix(rows[..n + 1]) <= Prefix(rows)
    ensures rows[n].Corrupt? ==> Prefix(rows) == Prefix(rows[..n])
    ensures rows[n].Decoded? ==> Prefix(rows[..n + 1]) == Prefix(rows[..n]) + [rows[n].entity]
  {
    if n > 0 {
      PrefixGrows(rows[1..], n - 1);
      assert rows[..n + 1][1..] == rows[1..][..n] && rows[..n][1..] == rows[1..][..n - 1];
    } else {
      assert rows[..0] == [] && rows[..1][1..] == [];
    }
  }
}
