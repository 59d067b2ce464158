# Verified model of Ankurah's query, replication and counter core

Ankurah keeps entities in sync between nodes and lets callers subscribe to queries. This project
models the parts whose correctness is hard to see from reading one function, and proves what they
keep over every input or every run. `dafny verify dfyconfig.toml` checks all of it.

**Live queries.** A subscription keeps the set of entities that match its predicate. The reactor
avoids evaluating every subscription on every change by three redundant structures: byte-ordered
comparison indexes per field, wildcard sets, and lists of the subscriptions that hold an entity.
`reactor.dfy` is that class; `live_queries.dfy` says what subscribers see, once for the reactor's
selector and once for a full scan, and proves the two equal over every run; `watching.dfy` and
`coverage.dfy` say for which predicates; `comparison_index.dfy`, `index_theorems.dfy` and `collation.dfy` give the index and
its keys; `filter.dfy` is the reference meaning of a predicate.

**AnkQL.** `printer.dfy` prints a predicate, `sql_text.dfy` and `sql_reader.dfy` read the bytes back with the
lexical rules of section 5 and the precedence of section 8.12 of ISO/IEC 9075:1992, `three_valued.dfy`
relates the error-carrying evaluator to SQL's three-valued logic, `parser.dfy` and `round_trip.dfy` give
the parser, the grammar on tokens and the exact round trip, `postgres.dfy` the generator with numbered
placeholders, and `statement.dfy` reads its text with the arguments in place.

**Replication.** `entity.dfy` models an entity's documents and head, `node.dfy` a node's registry,
storage and pending requests. `flood.dfy`, `registry.dfy` and `requests.dfy` are the transition systems
over which events flood, resident entities are shared, and requests are answered. `followers.dfy` is the
graph of subscriptions between nodes, `concurrent_floods.dfy` several events at once on it, and
`replication.dfy` lets the reactor decide who is forwarded what.

**Counters and wake-ups.** `pn_counter.dfy` and `integers.dfy` model the PN-counter in wrap-around
arithmetic, `channel.dfy` the wake-up channel step by step.

How to read the model. A Rust `String` is its UTF-8 bytes. A class stands for a Rust struct that is
updated in place; its methods are proved against functions on values (`Apply`, `AfterEvent`, `Do`, ...)
and the lemmas are about runs of those functions. An `unimplemented!` or `panic!` is a precondition of
the methods and the outcome `Panic` of the evaluator. Ids that the code draws at random are
parameters required to be new. Integers wrap as in a release build; a build with overflow checks
panics where the model wraps.

Where a promise of the code or of its comments does not hold, the code is modelled as it is, a lemma
gives the input, and another one the condition under which the promise holds:

- the index orders integers only within one sign, misses `<= inf`, goes astray on -0 and NaN, and
  overshoots on string `>=`; removing an atom that was never added may remove another's entry;
- the reactor misses matches of most negated and flipped comparisons and of some typed literals
  (`CompleteIffCovered` says exactly which predicates are safe, by a check a caller can make, as long as
  the operands of AND and OR name different fields);
- a failed `subscribe` leaves its watchers behind, an unsent request its pending entry;
- text printed for `TRUE` or for a double that is not finite is no SQL condition, nor is the Postgres
  statement for `NOT`;
- the parser keeps the quotes the printer puts around identifiers;
- on a cycle of followers two concurrent events can flood for ever, because the last event applied
  overwrites the head; a single event, or any number without such a cycle, floods finitely;
- dropping the sender swallows a notification unless a poll is just fetching it, and collecting a
  counter's operations twice counts them twice.

## Model

| member | source | states |
|---|---|---|
| Bytes.LessIsStrictTotalOrder | core/src/collation.rs:30 | the byte order on keys and strings is a strict total order |
| Bytes.AppendZeroIsSuccessor | core/src/collation.rs:172-180 | `s` followed by a zero byte is the immediate successor of `s`: above exactly what is above `s` |
| Bytes.LessIsFirstDifference | core/src/collation.rs:30 | a string is smaller exactly if it has the smaller byte, or has ended, at the first difference |
| Bytes.BigEndianOrder | core/src/collation.rs:204-207 | big-endian bytes of one width sort like the unsigned numbers, and are injective |
| Collation.IntegerKeyOrder | core/src/collation.rs:203-207 | two `i64` keys sort numerically if and only if the integers have the same sign; keys are distinct |
| Collation.OrdinalOrder | core/src/collation.rs:236-242 | away from -0 and NaN the 64-bit ordinal of a double is ordered like the number it denotes |
| Collation.FloatKeyOrder | core/src/collation.rs:232-244 | the double key is an order embedding except exactly for -0 against +0 or a negative number; keys are distinct |
| Collation.NaNSortsLast | core/src/collation.rs:233-235 | all NaNs share one key above every number's |
| Collation.KeysAreTheseBytes | core/src/collation.rs:59-67 | numbers are filed under eight bytes that read, most significant first, as two's complement or as the flipped bits; booleans under one |
| Collation.FloatKeysSortByPosition | core/src/collation.rs:231-244 | the keys of all doubles form one total order: -0 first, the numbers by value, then one place for every NaN |
| Collation.FloatSuccessorIsTight | core/src/collation.rs:246-258 | for every double the successor key is above its key and reached exactly by the doubles placed after it; only NaN and infinity have none |
| Collation.FloatPredecessorIsTight | core/src/collation.rs:260-272 | for every double but -0 the predecessor key is below its key and exceeded exactly by the doubles placed there or after; only NaN and -infinity have none |
| Collation.NegativeZeroWrapsAround | core/src/collation.rs:264-270 | -0 has the lowest key of all, and its predecessor key wraps around to NaN's, the highest |
| Collation.ExcludedIsTheSuccessorIncluded | core/src/collation.rs:32-46 | for strings, excluding a lower bound is including its successor, whatever the upper bound |
| Collation.StringPredecessorIsTightIff | core/src/collation.rs:182-193 | the string "predecessor" is below and exceeded exactly by the strings at or above the string if and only if the byte dropped is zero; otherwise a string lies between |
| Collation.FloatRange | core/src/collation.rs:32-46 | `is_in_range` decides on the keys of all doubles by position, for all nine kinds of bounds |
| Filter.SupportedNeverPanics | ankql/src/selection/filter.rs:24-67 | predicates of basic operators over identifiers and literals evaluate without a panic |
| Filter.ComparisonLaws | ankql/src/selection/filter.rs:50-60 | of <, = and > exactly one holds, = of equal texts only, < by the first differing byte, and <>, >= and <= are the negations |
| Filter.NegatedComparisonsEvaluateAlike | ankql/src/selection/filter.rs:24-67 | on every item a comparison evaluates like the negation of the opposite one, errors included |
| ComparisonIndices.Insert | core/src/comparision_index.rs:76 | a `BTreeSet` insertion keeps the ids ascending and adds exactly the one |
| ComparisonIndices.Extend | core/src/comparision_index.rs:85-87 | extending the result set keeps it ascending and adds exactly the given ids |
| ComparisonIndices.Collect | core/src/comparision_index.rs:84-94 | the range loop collects exactly the ids listed under a selected key, ascending |
| ComparisonIndices.WithoutFirst | core/src/comparision_index.rs:69-73 | removing the first position found takes exactly one occurrence away |
| ComparisonIndices.ComparisonIndex.constructor | core/src/comparision_index.rs:22 | a new index holds nothing |
| ComparisonIndices.ComparisonIndex.Push | core/src/comparision_index.rs:64-66 | one more entry in one bucket, everything else as before |
| ComparisonIndices.ComparisonIndex.Pull | core/src/comparision_index.rs:68-74 | one entry less in one bucket if there is one, everything else as before |
| ComparisonIndices.ComparisonIndex.Add | core/src/comparision_index.rs:24-66 | the contents grow by exactly the atom's normal form |
| ComparisonIndices.ComparisonIndex.Remove | core/src/comparision_index.rs:24-74 | the contents shrink by exactly the atom's normal form |
| ComparisonIndices.ComparisonIndex.MatchingIsListed | core/src/comparision_index.rs:75-98 | the three lookups see exactly the entries whose bucket the value collects |
| ComparisonIndices.ComparisonIndex.FindMatching | core/src/comparision_index.rs:75-98 | ids strictly ascending, exactly those with an entry the value collects |
| IndexTheorems.ContentsAreRemaining | core/src/comparision_index.rs:64-74 | after any history every bucket holds, with multiplicity, the normal forms of the remaining registrations; a removal takes one filed in the same place |
| IndexTheorems.AnyHistoryAnswers | core/src/comparision_index.rs:24-98 | after any history a lookup returns exactly the ids of remaining registrations the value hits |
| IndexTheorems.ContentsAreOutstanding | core/src/comparision_index.rs:64-74 | if every removal is of an outstanding atom or harmless, the buckets hold the normal forms of exactly the outstanding atoms |
| IndexTheorems.ContentsStayOutstandingIff | core/src/comparision_index.rs:68-74 | and only then: the first removal that is neither takes away what an outstanding atom put there |
| IndexTheorems.HistoryAnswers | core/src/comparision_index.rs:24-98 | after such a history a lookup returns exactly the ids of outstanding atoms the value hits |
| IndexTheorems.StringHits | core/src/comparision_index.rs:29-62 | on strings the index is exact for =, <, <=, >; for >= with a non-empty literal it hits exactly what lies above the literal without its last byte, and so never misses |
| IndexTheorems.TextHits | core/src/comparision_index.rs:29-95 | a string is compared byte by byte with the key a literal of any type is filed under |
| IndexTheorems.StringGreaterOrEqualIsExactIff | core/src/comparision_index.rs:42-52 | >= is answered right for all strings if and only if the literal ends in a zero byte; otherwise a concrete value is misjudged |
| IndexTheorems.IntegerHits | core/src/comparision_index.rs:29-62 | on `i64` the index is exact if and only if a condition on the signs holds, so on all non-negative integers |
| IndexTheorems.IntegerHitsByPattern | core/src/comparision_index.rs:29-95 | an integer atom is hit by the order of unsigned bit patterns |
| IndexTheorems.FloatHits | core/src/comparision_index.rs:29-95 | on all doubles, -0 and NaN included, the index answers like the doubles compare if and only if a condition on the two and the operator holds; away from -0 and NaN only `<= inf` fails it |
| IndexTheorems.OrdinaryFloatHits | core/src/comparision_index.rs:29-95 | away from -0 and NaN the index is exact for all five operators, except exactly for `<= inf` |
| IndexTheorems.FloatHitsByKey | core/src/comparision_index.rs:29-95 | a double atom is hit by the order of the keys, for all doubles |
| IndexTheorems.BooleanHits | core/src/value.rs:65-71 | on booleans the index is exact except for `<=` on equal values: the two successor functions disagree |
| IndexTheorems.BooleanTextHits | core/src/collation.rs:67-146 | on the strings the reactor looks up, a boolean literal counts as the single byte it is filed under |
| Watching.WatchedLeaf | core/src/reactor.rs:222-230 | a comparison is reached by a changed entity exactly if the field is there and the index is hit |
| Watching.LeafIsCompleteIffCovered | core/src/reactor.rs:120-145 | no match of a comparison is ever missed if and only if a condition on the comparison holds: all literal types, both orientations, unwatched comparisons included |
| Watching.CoveredLeafIsReached | core/src/reactor.rs:120-145 | every match of a covered comparison is reached |
| Watching.MissedLeaf | core/src/reactor.rs:120-145 | for every other comparison an entity that matches and is not reached |
| Watching.NegatedLeafIsCompleteIffCovered | core/src/reactor.rs:150-152 | no match of a negated comparison is ever missed if and only if a condition on the comparison holds: every operator, all literal types, both orientations |
| Watching.CoveredNegatedLeafIsReached | core/src/reactor.rs:150-152 | every match of a covered negated comparison is reached |
| Watching.MissedNegatedLeaf | core/src/reactor.rs:150-152 | for every other negated comparison an entity that matches and is not reached |
| Watching.AnswerIsReached | core/src/reactor.rs:111-168 | every entity on which a predicate answers true, or false under NOT, in a covered way is reached, by induction on AND, OR, NOT and TRUE with polarity |
| Watching.CoveredIsReached | core/src/reactor.rs:111-168 | the lookup over-approximates the filter on covered predicates |
| Watching.NegationsMoveInward | core/src/reactor.rs:146-152 | moving NOT inward over AND and OR, and cancelling two, changes neither what matches nor what is reached, errors included for the connectives |
| Watching.DoubleNegationIsComplete | core/src/reactor.rs:150-152 | two NOTs are missed exactly when none is |
| Watching.PlainIsCovered | core/src/reactor.rs:111-168 | AND, OR and TRUE over `field op 'text'` are covered |
| Watching.NegationIsMissed | core/src/reactor.rs:150-152 | an example: a match of `NOT field = text` goes unnoticed |
| Coverage.EvaluationReadsFields | ankql/src/selection/filter.rs:24-67 | evaluation, errors included, depends on nothing but the collection and the fields the predicate names |
| Coverage.ErrorsNameTheirCause | ankql/src/selection/filter.rs:24-67 | an error of the evaluator names a field of the predicate that the item has not, or a collection of the predicate that is not the item's |
| Coverage.MissedAnswer | core/src/reactor.rs:111-168 | for every predicate that fails the check and names no field on both sides of a connective, an entity with no other fields that gives the answer and is not reached, by induction with polarity |
| Coverage.AnswersCompleteIffCovered | core/src/reactor.rs:111-168 | for such predicates no entity with a given answer is ever missed if and only if the check accepts that answer |
| Coverage.CompleteIffCovered | core/src/reactor.rs:111-168 | for AND, OR, NOT and TRUE over any comparisons that share no field across a connective, no match is ever missed if and only if the syntactic check accepts the predicate |
| Coverage.SharedFieldHidesAMiss | core/src/reactor.rs:146-152 | a shared field breaks that: `NOT field > text AND NOT field <= text` misses nothing and fails the check |
| Coverage.RunsAgreeIffComplete | core/src/reactor.rs:211-296 | no run of subscribe, notify and unsubscribe tells the reactor from a full scan if and only if the predicate is complete |
| Coverage.RunsAgreeIffCovered | core/src/reactor.rs:211-296 | and if and only if the check accepts it, when no field is shared across a connective |
| LiveQueries.FastPathRefinesFullScan | core/src/reactor.rs:211-296 | over every run of subscribe, notify and unsubscribe with complete predicates, every subscriber gets exactly the change sets and result set of a full scan |
| LiveQueries.NotificationsAgree | core/src/reactor.rs:217-285 | the same for one batch against one subscription |
| LiveQueries.CoveredRunsAgree | core/src/reactor.rs:211-296 | the same for runs whose predicates pass the syntactic check |
| LiveQueries.IncompletePredicateMissesAnAdd | core/src/reactor.rs:218-245 | completeness is necessary: one unreached match gives a run in which an Add is not delivered |
| LiveQueries.LogsReplay | core/src/reactor.rs:187-207 | over every run, replaying a subscription's log rebuilds every delivered result set, and the current one, as a sequence |
| LiveQueries.AddsAndRemovesAlternate | core/src/reactor.rs:256-295 | over every run, per entity, an Initial or Add comes exactly first and after a Remove, Updates fall between, and the entity is held exactly if the last word was no Remove |
| LiveQueries.InitialsAreWhatWasFound | core/src/reactor.rs:70-108 | over every run a live subscription's first change set reports exactly the rows that matched when it was made, once each, in order, as Initial and without events; nothing else is ever reported as Initial |
| LiveQueries.InitialIsSaidOnceOfWhatWasFound | core/src/reactor.rs:70-108 | over every run, what is said about an entity begins with Initial exactly if it was among those rows and with Add otherwise; Initial never comes again, Add exactly after a Remove |
| LiveQueries.PendingReplays | core/src/reactor.rs:256-295 | one batch's changes lead from the result set before it to the one delivered with it |
| LiveQueries.ToldOnceIffConcerned | core/src/reactor.rs:268-295 | a notification adds exactly one change set, not an empty one, to the log of a subscription that one of its changes concerns at its turn, and nothing to any other |
| LiveQueries.ResultSetIsTheQuery | core/src/reactor.rs:211-296 | after any run of the full scan the result set is the query over the latest versions shown |
| LiveQueries.LiveResultSetIsTheQuery | core/src/reactor.rs:211-296 | the same for the reactor's selector, with complete predicates |
| LiveQueries.PeersHearExactlyWhatConcernsThem | core/src/node.rs:225-246 | a peer's subscription forwards exactly the events of the changes that make an entity match, keep it matching or end its matching; initial rows forward nothing |
| LiveQueries.BatchForwards | core/src/node.rs:227-237 | the same for one batch under a full scan |
| LiveQueries.MatchingIdsAreRows | core/src/reactor.rs:75-86 | the initial ids are those of the fetched rows that match |
| LiveQueries.MatchingIdsDistinct | core/src/reactor.rs:75-86 | they are without repetition when the fetch is |
| LiveQueries.MatchingIdsInOrder | core/src/reactor.rs:75-86 | they come in the order of the fetch |
| Reactors.TaggedCounts | core/src/reactor.rs:111-168 | what a predicate registers, counted bucket by bucket, is the number of its leaves there |
| Reactors.Reactor.constructor | core/src/reactor.rs:46-54 | a new reactor has no subscriptions |
| Reactors.Reactor.EnsureIndex | core/src/reactor.rs:132-133 | a missing index is created empty and changes no contents |
| Reactors.Reactor.AddLeaf | core/src/reactor.rs:131-135 | exactly the leaf's entry is added |
| Reactors.Reactor.RemoveLeaf | core/src/reactor.rs:136-140 | exactly the leaf's entry is removed |
| Reactors.Reactor.ManageLeaf | core/src/reactor.rs:120-145 | a comparison of a field with a literal, in either order, adds or removes its entry; others do nothing |
| Reactors.Reactor.ManageWildcard | core/src/reactor.rs:156-166 | the wildcard set of the collection gains or loses exactly the id |
| Reactors.Reactor.ManageWatchers | core/src/reactor.rs:111-168 | the indexes change by exactly the predicate's leaves with multiplicity, the wildcard set iff it has a TRUE |
| Reactors.Reactor.AddWatchers | core/src/reactor.rs:67-68 | indexes and wildcard sets agree with the registrations plus the new one |
| Reactors.Reactor.RemoveWatchers | core/src/reactor.rs:173-174 | indexes and wildcard sets agree with the registrations minus the removed one |
| Reactors.Reactor.Enlist | core/src/reactor.rs:196-199 | the entity lists agree with the result sets after an entity joins one |
| Reactors.Reactor.Delist | core/src/reactor.rs:200-203 | the entity lists agree with the result sets after an entity leaves one |
| Reactors.Reactor.LoadRows | core/src/reactor.rs:74-86 | the initial ids are those of the matching rows before the first corrupt one, all enlisted |
| Reactors.Reactor.Subscribe | core/src/reactor.rs:56-109 | subscribers see a new subscription with the matching rows; a failed fetch subscribes nobody and leaves the watchers behind |
| Reactors.Reactor.Admit | core/src/reactor.rs:88-106 | the stored subscription has received the initial change set, unless nothing matches |
| Reactors.Reactor.DelistAll | core/src/reactor.rs:176-182 | the entity lists agree with the registrations minus the removed one |
| Reactors.Reactor.Unsubscribe | core/src/reactor.rs:171-184 | exactly the subscription is gone, and its id occurs in no index, wildcard set or entity list |
| Reactors.Reactor.UnregisteredIsGone | core/src/reactor.rs:170-184 | ids without a registration occur in none of the three structures |
| Reactors.Reactor.LeftoversComeFromFailedSubscribes | core/src/reactor.rs:67-86 | an id that is not live leaves traces if and only if it belongs to a failed subscribe that registered something |
| Reactors.Reactor.IndexAnswers | core/src/reactor.rs:222-230 | the indexes answer exactly for the registrations on the collection with a leaf that fires |
| Reactors.Reactor.CollectInterested | core/src/reactor.rs:218-245 | the ids brought up for a change are exactly the interested registrations |
| Reactors.Reactor.UpdateEntityWatchers | core/src/reactor.rs:187-207 | result set and entity list gain or lose the entity together, or nothing changes |
| Reactors.Reactor.EvaluateChange | core/src/reactor.rs:250-283 | one subscription advances by one change, the others do not move |
| Reactors.Reactor.EvaluateInterested | core/src/reactor.rs:249-284 | exactly the interested subscriptions advance, in whatever order they come |
| Reactors.Reactor.EvaluateBatch | core/src/reactor.rs:217-285 | every live subscription advances by the whole batch, nothing is delivered yet |
| Reactors.Reactor.Deliver | core/src/reactor.rs:288-295 | exactly the subscriptions with changes get them, with their current result set |
| Reactors.Reactor.NotifyChange | core/src/reactor.rs:211-296 | every subscriber's view moves exactly as evaluating the interested registrations prescribes, and all structures stay in agreement |
| Reactors.Reactor.Perform | core/src/reactor.rs:56-296 | any call, failing subscribes included, moves the view by the operation it amounts to and leaves behind what that says |
| Reactors.PerformAll | core/src/reactor.rs:56-296 | a new reactor, after any list of calls, shows exactly the run of their operations, with complete predicates the very run of a full scan, and keeps the watchers of exactly the subscribes that failed |
| Printer.ExcessOfTokens | ankql/src/selection/sql.rs:46 | every TRUE leaves the printed tokens one operand short |
| SqlReader.RenderedReadsBack | ankql/src/selection/sql.rs:33-48 | SQL text with this parenthesisation reads, with SQL precedence, as the predicate up to re-association of AND |
| SqlReader.PrintedTokensReadBack | ankql/src/selection/sql.rs:34-50 | the tokens of the printed text read, with the precedence of SQL, as the predicate up to re-association of AND, unless there is a TRUE in it; then they are no condition |
| SqlReader.RegroupedMeansTheSame | ankql/src/selection/filter.rs:61 | re-association of AND changes no evaluation, errors included |
| ThreeValued.AnswersAgreeWithSql | ankql/src/selection/filter.rs:45-67 | whenever the evaluator answers, three-valued SQL evaluation answers the same |
| ThreeValued.ComparesLikeSql | ankql/src/selection/filter.rs:28-60 | on every item a comparison has the operands and the outcome that SQL gives it, by a three-way collation of its own, or an error where SQL has NULL |
| ThreeValued.FilterIsSqlUnlessStuck | ankql/src/selection/filter.rs:45-67 | the evaluator's answer is SQL's unless its left-to-right scan meets an undetermined comparison; then it errs |
| ThreeValued.ConjunctionsSelectAlike | ankql/src/selection/filter.rs:61 | for conjunctions both select the same items, missing properties or not |
| ThreeValued.ResolvedItemsAreAnswered | ankql/src/selection/filter.rs:45-67 | on an item that has the fields of all comparisons the evaluator answers, and like SQL |
| ThreeValued.ResolvedItemsSelectAlike | ankql/src/selection/filter.rs:45-67 | both select alike every item that has the fields named below an OR or a NOT |
| ThreeValued.DisjunctionLosesAnItem | ankql/src/selection/filter.rs:62 | with OR, SQL selects an item on which the filter fails |
| ThreeValued.RegroupedIsSqlEqual | ankql/src/selection/sql.rs:38-40 | re-association of AND changes no three-valued truth |
| SqlText.TextsOfLiterals | ankql/src/selection/sql.rs:5-10 | the bytes of booleans, and the sign and digits of integers |
| SqlText.NumberKeepsItsText | ankql/src/selection/sql.rs:5-10 | a numeral is read as a literal with that very text |
| SqlText.PrintedTextLexes | ankql/src/selection/sql.rs:3-50 | read byte by byte, with constants of its own, the printed text is exactly the predicate's tokens: operators, connectives, quoted and qualified names, strings, numbers and booleans; NaN and the infinities spoil it |
| SqlText.PrintedTextReadsBack | ankql/src/selection/sql.rs:3-50 | the printed bytes read as the predicate up to re-association of AND if and only if it has no TRUE and no double without a numeral; otherwise they are no condition |
| SqlText.PrintedTextMeansTheSame | ankql/src/selection/sql.rs:34-50 | what the printed bytes say evaluates like the original on every item, errors included |
| SqlText.PrintedSqlAgreesWithFilter | ankql/src/selection/sql.rs:34-50 | a SQL database handed the printed bytes selects every item that passes the filter and rejects every item it answers with false |
| QueryParser.ParseAtomic | ankql/src/parser.rs:142-154 | equals the functional parser on one pair |
| QueryParser.CreateComparison | ankql/src/parser.rs:75-89 | a comparison with the parsed right operand, or that operand's error |
| QueryParser.CreateLogicalOp | ankql/src/parser.rs:92-139 | consumes what the functional parser consumes and leaves the rest of the level equivalent |
| QueryParser.ParseStep | ankql/src/parser.rs:55-67 | one round of the operator loop keeps what the level parses to |
| QueryParser.Parse | ankql/src/parser.rs:46-72 | the loop returns what the functional left fold returns |
| QueryParser.ParsingKeepsItems | ankql/src/parser.rs:46-152 | whatever pairs are parsed, the predicate has exactly their operands and operators in the same order, and these alternate: parsing decides the grouping and nothing else |
| RoundTrip.PrintedMatches | ankql/src/ankql.pest:6-37 | the grammar matches printed tokens as the chain of pairs, and stops where the text stops |
| RoundTrip.PrintedParses | ankql/src/parser.rs:46-154 | parsing printed tokens gives the refolded predicate, or fails where a parenthesised right operand is followed by more |
| RoundTrip.OperandReadsBack | ankql/src/parser.rs:157-214 | an operand reads back if and only if it is an identifier, a string or an unsigned integer |
| RoundTrip.UnreadableOperandsBecome | ankql/src/parser.rs:141-214 | of the other operands, a double without a point comes back as an integer, NaN and the infinities as names, and the rest is refused |
| Bytes.DecimalReadsBack | ankql/src/parser.rs:206-214 | the printed digits parse to the number |
| RoundTrip.AppendCounts | ankql/src/parser.rs:92-139 | refolding keeps the number of comparisons and tears an appended AND apart |
| RoundTrip.RefoldIsQuotedIff | ankql/src/parser.rs:46-154 | the refolded predicate is the original if and only if no right operand is an AND and an OR right operand ends its level |
| RoundTrip.RoundTripIffComesBack | ankql/src/parser.rs:46-154 | printing and parsing returns the same tree, identifiers quoted, if and only if the predicate is in that class |
| RoundTrip.QuotingChangesNames | ankql/src/selection/sql.rs:12-15 | quoting changes a predicate exactly if it names a field |
| RoundTrip.LiteralRoundTripIffNameless | ankql/src/parser.rs:169 | the unquoted tree comes back if and only if no field is named |
| Postgres.Sql.Push | storage/postgres/src/predicate.rs:14 | one fragment is appended |
| Postgres.Sql.PushExpr | storage/postgres/src/predicate.rs:44-60 | the operand's fragment is appended |
| Postgres.Sql.PushPredicate | storage/postgres/src/predicate.rs:64-98 | the predicate's fragments are appended in order |
| Postgres.Sql.Collapse | storage/postgres/src/predicate.rs:22-41 | the text has a placeholder for every argument, numbered in order, and the arguments come in that order |
| Postgres.PlaceholdersAreNumberedInOrder | storage/postgres/src/predicate.rs:22-98 | placeholders are $1 to $k left to right without gaps, the arguments the predicate's literals in order, for every predicate |
| Postgres.BoundStatement | storage/postgres/src/predicate.rs:22-98 | binding the arguments gives the plain printer's text if and only if there is no NOT and no TRUE |
| Postgres.BindingFillsEveryPlace | storage/postgres/src/predicate.rs:22-41 | every placeholder finds its own argument |
| Postgres.FragmentsSpellTheStatement | storage/postgres/src/predicate.rs:64-98 | the fragments with their literals spell the statement's tokens |
| Postgres.StatementReadsBack | storage/postgres/src/predicate.rs:64-98 | the statement reads as the predicate up to re-association of AND if it has no NOT, and is no condition if it has one |
| Postgres.TextBindsEveryPlace | storage/postgres/src/predicate.rs:22-43 | for any fragments whose SQL has no dollar sign and continues no placeholder, replacing each `$n` in the bytes by the n-th argument puts every literal in its place |
| Statements.FragmentsSpellStatement | storage/postgres/src/predicate.rs:68-101 | the flattened fragments spell the statement with placeholders counted through |
| Statements.StatementTextReadsBack | storage/postgres/src/predicate.rs:22-101 | read byte by byte, `$n` standing for the n-th argument, the statement is the predicate up to re-association of AND, whatever its literals, if and only if it has no NOT; otherwise it is no condition |
| Statements.GenerateStatement | storage/postgres/src/predicate.rs:68-101 | flattening and collapsing any predicate gives that statement and its literals in order |
| Statements.StatementAgreesWithFilter | storage/postgres/src/predicate.rs:68-101 | a database handed the bytes and the arguments selects every item that passes the filter and rejects every item it answers with false |
| Entities.AppliedTwice | core/src/model.rs:93-105 | applying an event twice is applying it once; nothing held before is lost |
| Entities.HeadsAreOverwritten | core/src/model.rs:94-101 | two events merge to the same documents in either order, but the head is the last one's alone |
| Entities.EditsSurviveTheCommit | core/src/property/backend/yrs.rs:114-128 | a transaction's operations, applied to anything later than its snapshot, add exactly its edits |
| Entities.CommitAppliesCleanly | core/src/model.rs:69-91 | applied to what the snapshot was taken from, they give the edited documents |
| Entities.CommitUpstream | core/src/transaction.rs:70-77 | the end of a transaction: the upstream gains exactly the edits, whatever it gained meanwhile, and both heads are the event |
| Entities.MergeAllCommutes | core/src/property/backend/mod.rs:198-203 | merging the operations of two events commutes |
| Entities.Entity.FromState | core/src/model.rs:60-64 | an entity made from a state has that state and head |
| Entities.Entity.Create | core/src/model.rs:57-59 | a new entity has its documents, no head and nothing collected |
| Entities.Entity.Snapshot | core/src/model.rs:114-122 | a detached copy with the same state and head, its starting point remembered |
| Entities.Entity.Edit | core/src/property/backend/yrs.rs:43-53 | an edit loses nothing, holds its operations, adds nothing else to any backend and touches no head |
| Entities.Entity.Commit | core/src/model.rs:69-91 | the event carries the uncollected operations and the old head as parent; the head becomes the event |
| Entities.Entity.ApplyEvent | core/src/model.rs:93-105 | all operations merged, the stored head replaced unless the event is empty, the entity's head replaced |
| Entities.Entity.ApplyState | core/src/model.rs:108-111 | the state's documents replace the entity's, the head the next commit names does not change |
| Registries.RunKeepsValid | core/src/node.rs:347-439 | in every interleaving the live registered objects are the ones the map points to |
| Registries.AtMostOneLiveEntityPerKey | core/src/node.rs:357-386 | at any point of any interleaving at most one live registered entity exists per key |
| Registries.OverlappingFetchesReturnTheSame | core/src/node.rs:417-439 | two fetches of a key return the same object if and only if the first one's still has a holder |
| Registries.RegistrationIsForGood | core/src/node.rs:361-386 | a registered object keeps its key, and once dropped by its last holder never comes back |
| Registries.InsertionNeedsAnUnusedKey | core/src/node.rs:347-355 | after any fetch of a key every insertion under it is refused, the entity being alive or not |
| Flood.MessagesDecreaseTheMeasure | core/src/node.rs:293-315 | with one event in flight every message handled decreases (unsettled nodes, messages in flight) lexicographically |
| Flood.StoredStateChangesAtMostOnce | core/src/node.rs:293-315 | no node's stored state changes twice, whatever the nodes knew and whoever subscribed to whom |
| Flood.FloodIsFinite | core/src/node.rs:225-246 | no run handles more messages than were in flight plus the fan-out for each unsettled node |
| Flood.EventSettles | storage/sled/src/sled.rs:117-124 | after one delivery nothing about the event changes the copy again; an unchanged store knew it already |
| Flood.FloodReachesEveryFollower | core/src/node.rs:211-257 | when the last message is handled, every node on a walk of subscriptions from an informed one has stored the event |
| Flood.FollowersAgree | core/src/node.rs:211-257 | nodes that started from one state end with one state |
| Flood.OnlyFollowersHear | core/src/node.rs:225-246 | nobody hears of an event but by a walk along subscriptions from a node that was told |
| Flood.FloodReachesExactlyTheFollowers | core/src/node.rs:211-257 | when the last message is handled a node has stored the event if and only if it lies on such a walk |
| Replication.HeardChangesAreForwarded | core/src/node.rs:225-246 | a peer's subscription, whatever its predicate, forwards a change exactly if the reactor notices it and the entity was held or matches |
| Replication.ConcernedSubscriptionsForward | core/src/node.rs:225-246 | with a complete predicate, exactly if it concerns it: the entity was held or matches |
| Replication.DecidedRunsFollowLinks | core/src/node.rs:211-257 | in every run the nodes' own reactors forward to exactly the peers whose subscription hears of the change |
| Replication.EventReachesExactlyWhoHears | core/src/node.rs:211-257 | when the flood is over a node has stored the event if and only if it lies on a chain of subscriptions that hear of it from a node that was told, and then exactly what the event makes of its own state: any predicates |
| Replication.EventReachesExactlyTheConcerned | core/src/node.rs:211-257 | with complete predicates the chains are those of subscriptions the change concerns, without a word about indexes |
| Followers.WalkingLeadsIntoACycle | core/src/node.rs:211-257 | walking along subscriptions among finitely many nodes, each followed by one of them, leads into a cycle |
| Followers.AcyclicHasARank | core/src/node.rs:211-257 | without a cycle every subscription leads down a rank |
| ConcurrentFloods.HandlingReducesTheLoad | core/src/node.rs:293-315 | down a rank every message handled lowers the total cost of the messages in flight |
| ConcurrentFloods.AcyclicFloodIsFinite | core/src/node.rs:225-246 | on followers without a cycle any number of concurrent events floods finitely, from any state |
| ConcurrentFloods.OnceAround | core/src/model.rs:94-101 | an event travels once round a cycle of followers, changing every node, and changes places with a concurrent one |
| ConcurrentFloods.TwoEventsMayFloodForEver | core/src/model.rs:94-101 | on every cycle of followers two concurrent events may return the system to where it was, all messages included |
| ConcurrentFloods.ConcurrentCommitsCross | core/src/node.rs:318-340 | two concurrent commits on any cycle of followers lead there |
| ConcurrentFloods.CommitsOnACycleFloodWithoutEnd | core/src/node.rs:318-340 | from two concurrent commits on a cycle no bound holds for all runs |
| ConcurrentFloods.ConcurrentFloodsEndIffAcyclic | core/src/node.rs:211-257 | concurrent events flood finitely from every state if and only if the followers have no cycle |
| Requests.RunIsGood | core/src/node.rs:116-181 | in every run messages, accepted requests and completions stem from requests made and answers computed |
| Requests.CompletedCallsAreAnswered | core/src/node.rs:116-181 | each call completes at most once, with the body that reports what carrying out that very request came to: a fetch returns exactly the states found, a failure is reported as one |
| Requests.ReportIsUnique | core/src/node.rs:183-209 | a request and what came of it have exactly one answer |
| Requests.CompletionIsSound | core/src/node.rs:173-178 | the response that completes a call answers the request the call made, and no earlier completion has its id |
| Requests.CompletionsStay | core/src/node.rs:173-178 | completions are never taken back |
| Requests.GivenUpCallsNeverComplete | core/src/node.rs:139-141 | a call whose caller has gone never completes, whatever is still answered |
| Requests.UnknownResponsesChangeNothing | core/src/node.rs:175-177 | a response for an id that is not pending changes nothing |
| Requests.UnsentRequestsLeak | core/src/node.rs:124-136 | a request that could not be sent leaves its pending entry behind for ever |
| Requests.SentRequestsCanEnd | core/src/node.rs:142-181 | whatever carrying it out comes to, four steps end any pending request that was sent, whoever it is addressed to, and complete its call with the report if somebody waits |
| Requests.PendingCanEndIffSent | core/src/node.rs:124-181 | a pending entry can still end if and only if its request was sent |
| Nodes.Node.FetchEntityFromNode | core/src/node.rs:388-395 | the upgraded entity, held once more, or nothing and no change |
| Nodes.Node.AssertEntity | core/src/node.rs:361-386 | the live entity with the state applied, or a new one registered in place of a dead one |
| Nodes.Node.InsertEntity | core/src/node.rs:347-355 | registered if and only if the key has no entry |
| Nodes.Node.FetchEntity | core/src/node.rs:417-439 | an entity of the resident state, else of the stored one, else of the default |
| Nodes.Node.Drop | core/src/node.rs:298-311 | one holder less; the copy of the key loses at most its resident |
| Nodes.Node.SetState | storage/sled/src/sled.rs:111-125 | stores the state and says whether it differs from the one before |
| Nodes.Node.CommitEvent | core/src/node.rs:298-310 | the copy of the event's key becomes what the flood step says, no other copy moves |
| Nodes.Node.CommitAndReport | core/src/node.rs:298-311 | the change is reported if and only if the stored state changed, and then holds its entity |
| Nodes.Node.CommitEventsLocal | core/src/node.rs:293-315 | every key's stored state is what its events make of the fetched one, and exactly the events that changed it are reported, in order |
| Nodes.Node.RegisterPeer | core/src/node.rs:101-109 | exactly the peer is added, pending and accepted requests stay |
| Nodes.Node.DeregisterPeer | core/src/node.rs:110-114 | exactly the peer is removed, pending and accepted requests stay |
| Nodes.Node.Ask | core/src/node.rs:116-136 | the pending entry is made in any case; the request goes out only over a connection |
| Nodes.Node.Accept | core/src/node.rs:144-157 | served exactly if the sender is a connected peer, whoever it is addressed to |
| Nodes.Node.HandleRequest | core/src/node.rs:183-257 | a commit is answered as complete, a fetch with exactly the states found, a subscription with these and its id, either with a failure exactly if it failed; events are committed, nothing else touches the entities |
| Nodes.Node.Answer | core/src/node.rs:163-170 | the response goes back to the sender under the request's id |
| Nodes.Node.HandleResponse | core/src/node.rs:173-178 | the waiting call completes exactly if there is one, and the entry is gone |
| Nodes.OneMoreEvent | core/src/node.rs:298-311 | one more event on a key keeps stored state and reports in step |
| Channels.NoLostWakeUp | react-signals/src/effect/channel.rs:49-71 | in every interleaving, with the flag set or the sender gone a parked task is woken or about to be, and no more is yielded than notified |
| Channels.RunKeepsGood | react-signals/src/effect/channel.rs:23-71 | the invariant behind it holds after every run of atomic steps |
| Channels.PendingIsYielded | react-signals/src/effect/channel.rs:58-71 | a pending notification is yielded within five receiver steps, however they interleave with a live sender |
| Channels.DroppedSenderEndsTheStream | react-signals/src/effect/channel.rs:23-40 | after the sender is dropped every run ends within four steps, at the end of the stream |
| Channels.YieldsAfterTheDrop | react-signals/src/effect/channel.rs:23-71 | after the drop every run to the end yields exactly one more item if a poll was fetching one, and none otherwise |
| Channels.SwallowedIffNoPollIsFetching | react-signals/src/effect/channel.rs:58-71 | a flag set at the drop is swallowed if and only if no poll stands between its upgrade and its swap |
| Channels.DroppedSenderSwallowsANotification | react-signals/src/effect/channel.rs:58-71 | a run in which that happens: notified, dropped, polled, ended without an item |
| Channels.Inner.Notify | react-signals/src/effect/channel.rs:49-52 | the two atomic steps store and wake, in this order |
| Channels.Inner.PollNext | react-signals/src/effect/channel.rs:58-71 | the four atomic steps of a poll, an item exactly if the flag was set, the end if the upgrade fails |
| Channels.Inner.Drop | react-signals/src/effect/channel.rs:23-40 | the last wake |
| Integers.RangesOfTheTypes | core/src/property/value/pn_counter.rs:22-33 | the ranges of the eight types |
| Integers.ReducedIsTheRepresentative | core/src/property/value/pn_counter.rs:18-33 | a cast gives the only value of the type congruent to the number |
| Integers.ReduceThroughI64 | core/src/property/value/pn_counter.rs:22-27 | going through i64 loses nothing a narrower type would keep, for all eight types |
| Integers.ReduceOfSum | core/src/property/backend/pn_counter.rs:55 | wrapping a partial sum first does not change the wrapped sum |
| PnCounters.PNBackend.Add | core/src/property/backend/pn_counter.rs:48-56 | the property, created if missing, moves by the amount in wrap-around arithmetic |
| PnCounters.PNBackend.Fork | core/src/property/backend/pn_counter.rs:64-68 | a separate backend with the same values as starting points; the base is not touched |
| PnCounters.PNBackend.ToOperations | core/src/property/backend/pn_counter.rs:100-106 | one operation in the i64 range that leads every property from its starting point to its present value |
| PnCounters.PNBackend.ApplyOperation | core/src/property/backend/pn_counter.rs:110-115 | every property of the operation moves by its difference, in whatever order |
| PnCounters.PNBackend.ApplyOperations | core/src/property/backend/pn_counter.rs:108-119 | all operations are applied one after the other |
| PnCounters.AdditionsAreSummed | core/src/property/backend/pn_counter.rs:48-56 | after any run of additions each property holds the wrapped sum, its starting point unchanged |
| PnCounters.ForkCollectsItsAdditions | core/src/property/backend/pn_counter.rs:64-106 | a fork's operation is, per property, the sum of what was added to the fork |
| PnCounters.OperationsAreSummed | core/src/property/backend/pn_counter.rs:108-119 | merged operations add up per property |
| PnCounters.OrderDoesNotMatter | core/src/property/backend/pn_counter.rs:108-119 | any permutation of the operations leads to the same state |
| PnCounters.GroupingDoesNotMatter | core/src/property/backend/pn_counter.rs:108-119 | so does any grouping |
| PnCounters.ForksMergeToTheSum | core/src/property/backend/pn_counter.rs:53-119 | any number of forks, merged in any order, leave base plus everything added, wrapped, and exactly that if it fits |
| PnCounters.CollectingTwiceCountsTwice | core/src/property/backend/pn_counter.rs:100-106 | collecting marks nothing as collected: merged twice, a fork counts twice |
| PnCounters.CounterReadsTheSum | core/src/property/value/pn_counter.rs:57-58 | a counter of any of the eight types, after additions of any of them, reads as the sum modulo two to its width, in range |
| PnCounters.PNCounter.Value | core/src/property/value/pn_counter.rs:57 | the cast amount, in the counter's range |
| PnCounters.PNCounter.Add | core/src/property/value/pn_counter.rs:58 | adds the amount cast to i64 |
| PnCounters.PNCounter.InitializeWith | core/src/property/value/pn_counter.rs:61-67 | a new counter adds its initial value |

## Left out

- Watching.CoveredIsReached: one direction only, for all predicates; `Coverage.CompleteIffCovered` gives both where the operands of a connective share no field, and `SharedFieldHidesAMiss` shows that with a shared field the check may be too strict.
- SqlText.PrintedSqlAgreesWithFilter: the SQL side compares texts byte by byte, as the evaluator does; typed columns and the database's collation are left out. Names and strings hold no quote of their own kind, which the printer does not double.
- Statements.StatementAgreesWithFilter: the same for typed columns and collation; arguments are bound by their texts, not by their wire types. Names hold no double quote; literals are unrestricted.
- Flood.FloodReachesEveryFollower: takes the links as given; `Replication.EventReachesExactlyWhoHears` derives them from the subscriptions.
- Flood.FollowersAgree: for one event in flight; with more the heads are overwritten, as `TwoEventsMayFloodForEver` shows.
- Filter and index values: the text a float displays as is carried in the literal, float formatting is library code.
- Text is bytes: lower-case keywords, doubled quotes and the Unicode checks of `String` are left out. SQL text is read byte by byte; the round trip through the AnkQL parser is stated on tokens.
- The grammar outside what the printer emits (arithmetic, BETWEEN, IN, NULL, `IS NOT NULL`).
- `FilterIterator`, `is_minimum` and `is_maximum`, derive macros and display code: easy members only.
- The identity of entities inside result sets: `subscribe` builds detached copies, so result sets are compared by id.
- Locks, `DashMap` and async suspension inside the reactor: subscribe, notify and unsubscribe are atomic steps, and callbacks are the log of what was delivered.
- The values of an entity in a notification and the documents of an entity at a node are two models; the materialisation between them is Yrs code.
- Yrs documents, bincode and clocks on the wire: a document is the set of operations merged into it, encoding is deterministic.
- Storage engines and their errors, fetching states from peers into storage, the random choice of a durable peer, and the peer's table of subscription handles.
- Memory ordering and the inside of `AtomicWaker`: each of its operations is one atomic step.
- Timeouts and reconnection: the code has none.
- The LWW backend's operations: unfinished in the code.
- A counter whose backend has been dropped: the code panics.
