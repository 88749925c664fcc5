# Verified model of the vgi worker core

This project models, in Dafny, the parts of the vgi worker whose correctness is
a matter of protocol and state rather than of plumbing, and proves what they
promise.

- **Pushed-down filters** (`FilterState`, `FilterHistory`, `FilterOrder`,
  `FilterRuns`, `FilterConvergence`, `FilterDocuments`, `Pushdown`). A scan's
  predicates change by revisioned deltas. Compacting the history of deltas,
  rebuilding a worker from its cursor and receiving deltas in another order are
  shown not to change the filters.
- **What filters mean** (`SqlLogic`, `FilterExpr`, `FilterShapes`, `FilterSql`,
  `FilterEvaluate`, `FilterPruning`, `FilterBounds`, `FilterCollect`,
  `FilterValues`, `FilterLists`). Expressions have a three-valued meaning.
  Projection keeps it and SQL rendering over-approximates it. So do the pruning
  helpers, and the rows that column bounds drop although the filters accept them
  are given exactly.
- **Aggregates** (`Aggregate`, `AggregateRpc`, `AggregateRuns`). Stateless update
  and combine requests over a shared store compute the sequential aggregate; when
  requests in flight together are as good as one after another is stated exactly.
- **Catalog publication** (`Publication`, `PublicationSafety`,
  `PublicationProgress`, `PublicationAgreement`, `PublicationStore`,
  `PublicationJoint`). Managers race on one repository; what each call delivers is
  stated with any steps of others in between. Over an object store with
  conditional writes (sections 13.1.1 and 13.1.2 of RFC 9110) they keep the same
  safety invariant and agree alike, and where a refused delete or a lost renewal
  differs from the atomic repository is stated exactly.
- **Catalog contents** (`CatalogBatches`, `CatalogDigest`, `CatalogStreams`,
  `CatalogRows`, `CatalogCodec`, `CatalogListing`, `CatalogContents`,
  `CatalogAnswer`, `CatalogServed`, `CatalogCache`, `StableSort`). Six row streams,
  their digest, two builders and two caches, and what a client reads in terms of
  what was registered.
- **Constraint records** (`PathKeys`, `Nullability`, `ConstraintRecords`,
  `ConstraintCases`). The served Arrow nullability follows the records exactly.
- **Attach tickets** (`ByteStrings`, `Base64Url`, `TicketPayload`,
  `AttachTicket`, `TicketOutcomes`). Payload codec, canonical base64url (sections
  3.5 and 5 of RFC 4648), the redemption window and every outcome of redeeming.

`Wrappers` holds the `Option` type, `Strings` and `Collections` shared facts.
Check everything with `dafny verify dfyconfig.toml`.

Where a promise does not hold of the code for all inputs, the code is modelled
as it is, a lemma gives an input that shows it, and the condition under which it
holds is proved:

| promise | input that breaks it | holds exactly when |
|---|---|---|
| compacted history replays | `StaleUpsertBreaksReplay` | the upserts it would install parse (`CompactedReplayExact`) |
| bounds of an IN set drop no row | `TextSetBreaksBounds`, `SetAt2To53BreaksBounds` | no value tied with the first least (greatest) one lies below (above) it (`SetBoundsExact`) |
| bounds of any filters drop no accepted row | the same | an equality is among them, or the cell is not beyond the IN set that states the bound (`DroppedExactly`) |
| a manager takes only manifests it validated | `TwinGoesUnvalidated` | the winner is no twin, or was validated before (`WinnerCheckExact`) |
| an S3 invalidation whose delete is refused answers as the atomic one | `RenewalDefeatsInvalidation` | the stored manifest no longer has that ID (`RefusedDeleteExact`) |
| renewal keeps content identity | `SharedIdChangesContent` | the manifest read has the identity to be renewed (`RenewalKeepsIdentityExactly`) |
| the catalog name is a sufficient cache key | `AliasingDiffers` | alias-info names are aliases other than the primary, or only "main" exists (`NameIsKeyExactly`) |
| a required path is served non-nullable | `TwoRowIdsEscape` | it does not start at a row-id column, or the field was declared non-nullable (`RequiredReachesOne`) |
| an S3 renewal that lost its put answers as the atomic one | `SecondRenewalLoses` | the stored manifest is gone, has another ID or is already the one offered (`LostRenewalExact`) |
| interleaved COUNT requests are serial at every moment | `OverlapLosesRow` | each request that saves finds the groups it merges from and the groups it saves as it loaded them (`CountIsSerialExactly`) |
| another signing key is refused | `HashedKeyOpens` | the keys differ after normalization (`OthersAreRefused`) |
| a ticket expires | `EpochExpiryNeverEnds` | its expiry is not Unix time 0 (`SealThenRedeem`) |

Loads that meet the condition for COUNT are called intact. They are enough for every
lawful aggregate (`IntactIsSerial`); that they are needed is proved of COUNT,
while another aggregate may absorb a lost row (`OverlapCanBeAbsorbed`). A merge
whose two groups were absent when it loaded saves nothing, so its target may
change meanwhile (`AbsentMergeIsIntact`). Where every group written gets a state,
as rows that count give it, intact means that every load is current
(`UpdatesAreSerialExactly`).

Parameters stand for what lies outside: parsing of expressions, the SQL engine
for function calls, user aggregate callbacks (with their laws), validation and
building of publications, record builders, letter case, UTF-8 validity, the
key hash, the cipher (opening inverts sealing), clocks, nonces and random IDs.
Where the code and its comments differ, the model follows the code:
`ServedTableColumns` is documented for a single row-id column, and `AND` children
in `EqualOrInValues` may speak of other columns than the documentation says.

## Model

| member | source | states |
|---|---|---|
| `FilterState.RevisionsAreMaxima` | vgi/filter_v2.go:709-753 | after any writes every ID has the maximum of its old revision and all revisions written for it, and no other ID has one |
| `FilterState.FreshnessIsAtStart` | vgi/filter_v2.go:699-715 | an update is stale or fresh as of the start of its delta, since no ID occurs twice in one |
| `FilterState.StepsExact` | vgi/filter_v2.go:692-753 | the update loop succeeds only on well-shaped updates of distinct, non-required IDs and reports every (id, revision) in document order |
| `FilterState.StepsActAsWrites` | vgi/filter_v2.go:692-753 | on a well-formed delta the loop succeeds exactly when the fresh upserts parse, and then equals writing the updates in order |
| `FilterState.ApplyExact` | vgi/filter_v2.go:673-764 | a delta is accepted if and only if it is well-formed, its fresh upserts parse and at most 4096 IDs result; then its effect is its writes |
| `FilterState.DeltaKeepsValid` | vgi/filter_v2.go:692-764 | accepted deltas keep live IDs distinct and known, never lower or forget a revision, and never alter or remove a required predicate |
| `FilterDocuments.RemovalExactly` | vgi/filter_v2.go:673-764 | a removal is accepted exactly under the literal headers and keys, for a non-required ID of 1 to 128 characters with room among 4096; a newer one leaves a tombstone, any other changes nothing |
| `FilterDocuments.UpsertExactly` | vgi/filter_v2.go:673-764 | an advisory upsert from one of the five sources is accepted exactly under the same conditions if it is not newer or parses; a newer one puts its predicate at the end |
| `FilterDocuments.OtherObjectsAreRefused` | vgi/filter_v2.go:692-753 | a document with an update object of any other keys, operation, mode or source is refused |
| `FilterDocuments.RepeatedOrRequiredIsRefused` | vgi/filter_v2.go:692-715 | so is one with wrong headers, a required ID or an ID named twice |
| `FilterHistory.ReplayIsWrites` | vgi/filter_delta_history.go:102-121 | an accepted run equals writing all its updates in arrival order |
| `FilterHistory.PutSettled` | vgi/filter_v2.go:709-753 | effect of one write on the IDs that already have their final revision: nothing, or one more of them at the end |
| `FilterHistory.NoHitIsSettled` | vgi/filter_delta_history.go:76-90 | a delta that is not kept carries a final revision only for IDs already settled |
| `FilterHistory.PrefixesAgree` | vgi/filter_delta_history.go:60-95 | at every prefix the full and the compacted replay agree on settled IDs, their predicates and their order |
| `FilterHistory.CompactedWritesRebuild` | vgi/filter_delta_history.go:60-95 | writing only the first carriers of the final pairs gives the same revisions (tombstones included), predicates and order |
| `FilterHistory.KeepShrinks` | vgi/filter_delta_history.go:60-95 | a compacted history is no longer than the number of known IDs |
| `FilterHistory.KeepsFirstCarriers` | vgi/filter_delta_history.go:60-95 | the kept deltas are the subsequence of those that carry some wanted (id, revision) no earlier one carries; what stays wanted is what nobody carries |
| `FilterHistory.CompactIsFirstCarriers` | vgi/filter_delta_history.go:60-95 | a compacted history is exactly the first carriers of the live pairs |
| `FilterHistory.CompactingAgain` | vgi/filter_delta_history.go:60-95 | compacting a compacted history against newer revisions equals compacting the full one |
| `FilterOrder.RestoreExact` | vgi/filter_v2.go:779-805 | restoring an order succeeds if and only if it names the live IDs, each once, and then changes only the order |
| `FilterRuns.ReplayExact` | vgi/filter_delta_history.go:102-121 | a list of well-formed deltas replays if and only if every upsert it would install parses |
| `FilterRuns.CompactedReplayExact` | vgi/filter_delta_history.go:68-121 | the compacted history of an accepted run replays if and only if the upserts it would install parse; then it gives the state of the full run |
| `FilterRuns.CompactedReplay` | vgi/filter_delta_history.go:68-121 | when every upsert of the run parses, compacted and full replay give the same state and order |
| `FilterRuns.RunKeepsValid` | vgi/filter_v2.go:673-764 | over whole runs: validity, monotone revisions, required predicates untouched |
| `FilterRuns.MemoryIsReplay` | vgi/filter_delta_history.go:46-58 | the state kept in memory is the replay of the accepted deltas, refused ticks changing nothing |
| `FilterRuns.CompactionIsIncremental` | vgi/filter_delta_history.go:60-95 | folding one more delta into the compacted history gives exactly the first carriers of the live pairs among all accepted deltas, in arrival order |
| `FilterRuns.TickMirrors` | vgi/filter_delta_history.go:46-58 | any tick, accepted or refused, keeps worker and cursor in step with the worker in memory |
| `FilterRuns.TurnExact` | vgi/filter_delta_history.go:102-121 | a turn rebuilds the state if and only if the history parses, and the recorded order is already the replayed one |
| `FilterRuns.RunsAgreeExactly` | vgi/rehydrate.go:63-140 | under any interleaving of ticks and turns the HTTP worker survives if and only if every turn parses, and equals the worker in memory |
| `FilterRuns.HttpRefinesMemory` | vgi/filter_delta_history.go:46-121 | when all accepted upserts parse no turn fails, the states are equal and the cursor holds at most one delta per known ID, at most 4096 |
| `FilterRuns.CursorHoldsFirstCarriers` | vgi/filter_delta_history.go:46-95 | after every interleaving the cursor holds exactly the first carriers of the live pairs among the accepted deltas |
| `FilterConvergence.LivePredicatesAreMaxima` | vgi/filter_v2.go:716-745 | the live predicates are, per ID, the write of maximum revision |
| `FilterConvergence.WritesConverge` | vgi/filter_v2.go:699-753 | the same writes in any order with any repetition end in the same revisions and live predicates |
| `FilterConvergence.DeltasConverge` | vgi/filter_v2.go:699-764 | permuted or duplicated accepted deltas converge when equal (id, revision) pairs carry equal updates |
| `FilterConvergence.AnyOrderIsAccepted` | vgi/filter_v2.go:673-764 | when every upsert parses and equal (id, revision) pairs carry equal updates, a run accepted in one order is accepted in every order and with any repetition |
| `FilterConvergence.ArrangementsConverge` | vgi/filter_v2.go:673-764 | under the same conditions all arrangements of one accepted run are accepted and end in the same revisions and live predicates |
| `FilterConvergence.StaleUpsertBreaksReplay` | vgi/filter_delta_history.go:76-121 | concrete accepted run whose compacted history does not replay: an unparsable upsert that was stale becomes fresh |
| `Pushdown.RemoveInPlace` | vgi/filter_v2.go:807-815 | compaction inside the shared array keeps exactly the other predicates, in order, and touches nothing beyond |
| `Pushdown.LoadSnapshot` | vgi/filter_v2.go:90-128 | a snapshot loads if and only if all predicates parse at revision 0 with distinct IDs; the state is valid |
| `Pushdown.InstallUpdate` | vgi/filter_v2.go:709-753 | one update on the working array equals one step of the model |
| `Pushdown.RunUpdates` | vgi/filter_v2.go:692-753 | the update loop on the working copy equals the steps of the model |
| `Pushdown.PushdownFilters.constructor` | vgi/filter_v2.go:90-128 | the object starts with the snapshot and its projections |
| `Pushdown.PushdownFilters.ApplyDelta` | vgi/filter_v2.go:673-764 | all or nothing: a refused delta leaves every field and the old array as they were, an accepted one installs a fresh list |
| `Pushdown.PushdownFilters.RestorePredicateOrder` | vgi/filter_v2.go:779-805 | installs exactly the restored order, or changes nothing |
| `Pushdown.Pick` | vgi/filter_v2.go:786-800 | taking IDs out of the map one by one arranges the predicates in that order |
| `Pushdown.Strike` | vgi/filter_delta_history.go:76-90 | strikes out exactly the wanted pairs a delta carries |
| `Pushdown.RecordFilterDelta` | vgi/filter_delta_history.go:68-95 | the new history is the compaction of the old one and the delta; fails exactly on an unreadable recorded delta |
| `Pushdown.ReplayAll` | vgi/filter_delta_history.go:102-121 | the replay loop succeeds exactly when the replay does, with its state |
| `Pushdown.FilterStream.constructor` | vgi/filter_delta_history.go:46-58 | a stream starts at its snapshot with an empty history |
| `Pushdown.FilterStream.ApplyTick` | vgi/filter_delta_history.go:46-58 | one tick of the stream object is one tick of the HTTP worker |
| `Pushdown.FilterStream.StartTurn` | vgi/filter_delta_history.go:102-121 | one turn of the stream object is one rebuild from the cursor, failing exactly when that does |
| `SqlLogic.MemberIffEqualToSome` | vgi/filter_pushdown.go:261-282 | IN is TRUE exactly when some listed value equals the operand |
| `FilterExpr.ProjectionPreservesTruth` | vgi/filter_v2.go:1001-1069 | the public filter has the TRUE, FALSE or NULL value of the v2 expression on every row |
| `FilterExpr.ProjectionPreservesTruthAll` | vgi/filter_v2.go:1023-1069 | the same for conjunctions and disjunctions of any length |
| `FilterExpr.ComparisonPreservesTruth` | vgi/filter_v2.go:1023-1069 | comparisons keep their value when the constant stands on the left |
| `FilterExpr.MirrorSwaps` | vgi/filter_v2.go:1023-1069 | the mirrored operator compares the swapped operands |
| `FilterShapes.ViewExactly` | vgi/filter_v2.go:1023-1069 | an expression becomes a view if and only if it is none of: boolean column or its NOT, column against a convertible literal on either side with one of six operators, NULL test of a column, un-negated IN of a column, AND, OR |
| `FilterShapes.SimpleProjection` | vgi/filter_v2.go:1001-1055 | each of these becomes its own filter type with operator, values, and the name and index of the column referred to |
| `FilterShapes.NestedProjection` | vgi/filter_v2.go:1056-1067 | AND and OR keep all children in order and stand for the first column they name |
| `FilterShapes.RootIsFirstName` | vgi/filter_v2.go:1109-1128 | the root column is the first non-empty name from left to right |
| `FilterShapes.RenderedInFullExactly` | vgi/filter_helpers.go:354-402 | a predicate is rendered without 1=1 if and only if every leaf under its ANDs and ORs has one of the column shapes |
| `FilterShapes.WhereClauseIsExact` | vgi/filter_helpers.go:309-402 | so for such predicates the WHERE clause has exactly the truth value of their conjunction |
| `FilterSql.Render` | vgi/filter_helpers.go:354-402 | a rendered clause has as many placeholders as parameters |
| `FilterSql.ToSql` | vgi/filter_helpers.go:309-327 | the loop renders every filter, parameters in placeholder order |
| `FilterSql.ClauseCoversFilter` | vgi/filter_helpers.go:354-402 | on every row the clause lets through at least what the filter does, and has the same truth value when nothing renders as 1=1 |
| `FilterSql.ClausesCoverFilters` | vgi/filter_helpers.go:354-402 | the same for the children of AND and OR, parameters split between them |
| `FilterSql.WhereClauseIsSound` | vgi/filter_helpers.go:309-402 | from v2 predicates to WHERE clause: TRUE wherever all predicates are, equivalent when fully rendered |
| `FilterEvaluate.EvaluateV2` | vgi/filter_v2.go:817-850 | error exactly when a required predicate cannot be evaluated; else a row passes exactly when every evaluated predicate is TRUE |
| `FilterEvaluate.EvaluateFilter` | vgi/filter_pushdown.go:300-386 | the running mask of And and Or evaluation is, row by row, the truth value of the filter |
| `FilterEvaluate.FoldIsTruth` | vgi/filter_pushdown.go:300-386 | folding children from the left gives the truth value of AND or OR |
| `FilterPruning.CollectedHold` | vgi/filter_helpers.go:332-348 | every filter collected for a column holds on every row all filters accept |
| `FilterPruning.ArrayBoundsExact` | vgi/filter_helpers.go:106-124 | the bounds of a value set cover it if and only if, in the set as given, no value tied with the first least one is below it and none tied with the first greatest one is above it |
| `FilterPruning.ArrayBoundsAreFirst` | vgi/filter_helpers.go:106-124 | the loop returns the first of the least and the first of the greatest values in float64 order |
| `FilterPruning.UnorderedSetCovered` | vgi/filter_helpers.go:106-124 | a set of text or another type the comparators do not order is covered if and only if all its non-null values are equal |
| `FilterPruning.BoundsAreSound` | vgi/filter_helpers.go:30-124 | every row the filters accept lies inside the column bounds, IN sets with resolved ties |
| `FilterPruning.SetBoundsExact` | vgi/filter_helpers.go:30-124 | for one IN filter bounds drop no row if and only if the ties at the ends of its set, as given, are resolved |
| `FilterBounds.EndsAreStated` | vgi/filter_helpers.go:30-102 | a bound is that of the last filter whose own bound overrides all stated before it, exclusive exactly when that filter is strict |
| `FilterBounds.DroppedExactly` | vgi/filter_helpers.go:30-124 | for any filters: an accepted row falls outside the bounds if and only if no equality is on the column and the cell is below (above) the first least (greatest) value of the IN set that states the bound |
| `FilterCollect.CollectedExactly` | vgi/filter_helpers.go:332-348 | the collected filters are, in the order of their positions and each as often as it stands there, the non-AND filters on the column and the direct children on it of an AND on it |
| `FilterCollect.CollectedMembers` | vgi/filter_helpers.go:332-348 | a filter is collected if and only if it stands at such a position |
| `FilterCollect.NoBoundsExactly` | vgi/filter_helpers.go:30-102 | a column has no bounds if and only if none of them is a comparison other than <> or an IN set with a value |
| `FilterCollect.BoundsExactly` | vgi/filter_helpers.go:30-102 | the bounds are the first equality twice, or per side the bound of the last overriding filter |
| `FilterPruning.TextSetBreaksBounds` | vgi/filter_helpers.go:442-503 | concrete text IN set whose bounds drop an accepted row |
| `FilterPruning.RoundedSetBreaksBounds` | vgi/filter_helpers.go:442-503 | integers that round to one float64 drop an accepted row |
| `FilterPruning.SetAt2To53BreaksBounds` | vgi/filter_helpers.go:442-503 | concrete set 9007199254740993, 9007199254740992 under a conversion that gives both 2^53, as binary64 rounding does |
| `FilterPruning.ExactNumbersResolve` | vgi/filter_helpers.go:442-503 | numbers exactly representable as float64 meet the condition |
| `FilterPruning.BoundsAreTight` | vgi/filter_helpers.go:30-102 | the bounds are the tightest the collected filters state, or the value of an equality |
| `FilterPruning.CollectColumnFilters` | vgi/filter_helpers.go:332-348 | collects the filters of a column through one level of AND, in order |
| `FilterPruning.ArrayBoundsScalar` | vgi/filter_helpers.go:106-124 | the loop computes least and greatest non-null value in float64 order |
| `FilterPruning.RunBounds` | vgi/filter_helpers.go:36-100 | the loop with its early exit at an equality equals the fold |
| `FilterPruning.GetColumnBounds` | vgi/filter_helpers.go:30-102 | returns bounds that every accepted row meets |
| `FilterValues.UnionIsExact` | vgi/filter_helpers.go:190-239 | an OR accepts a row exactly when the cell is in the union of its branches |
| `FilterValues.DiscreteValuesExact` | vgi/filter_helpers.go:166-188 | a filter with discrete values accepts exactly the rows whose cell is one of them |
| `FilterValues.FirstDiscreteSound` | vgi/filter_helpers.go:166-188 | the values of the first pinning filter hold the cell of every accepted row |
| `FilterValues.OrDiscreteValues` | vgi/filter_helpers.go:190-239 | the loop gives the de-duplicated union, or nothing when a branch does not pin the column |
| `FilterValues.DedupeScalars` | vgi/filter_helpers.go:210-239 | keeps the first value of each key, in order |
| `FilterValues.GetColumnValues` | vgi/filter_helpers.go:166-188 | a set that holds the column value of every accepted row |
| `FilterValues.CollectEqOrIn` | vgi/filter_helpers_typed.go:111-147 | the shared list grows by exactly what the filter lists, first occurrences only |
| `FilterValues.EqualOrInValues` | vgi/filter_helpers_typed.go:41-60 | the listed values of a column, or nothing if a filter on it has another shape |
| `FilterValues.RootColumnIsListed` | vgi/filter_helpers_typed.go:111-147 | a projected filter rooted at a column accepts only rows whose cell there is listed |
| `FilterValues.EqualOrInIsSound` | vgi/filter_helpers_typed.go:41-60 | the list holds the column value of every row all filters accept |
| `FilterValues.OnlyAllowedColumnsMatter` | vgi/filter_helpers_typed.go:87-168 | filters of equalities and IN sets on allowed columns depend on nothing else |
| `FilterLists.DiscreteExactly` | vgi/filter_helpers.go:166-239 | a filter has discrete values if and only if it is an equality, an IN set, or an OR of such on the column with a value; they are its own or those of its branches |
| `FilterLists.FirstDiscreteExactly` | vgi/filter_helpers.go:166-188 | the values of a column are those of the first collected filter that has any, none exactly when none has |
| `FilterLists.DedupedExactly` | vgi/filter_helpers.go:210-239 | one listed value is kept for each key |
| `FilterLists.FirstIsKept` | vgi/filter_helpers.go:210-239 | and it is the first: what is kept of a prefix is kept |
| `FilterLists.ListedExactly` | vgi/filter_helpers_typed.go:111-147 | a filter lists values if and only if every conjunct is an equality or IN set of the type; it lists their non-null values in order |
| `FilterLists.EqualOrInExactly` | vgi/filter_helpers_typed.go:41-60 | the list of a column holds exactly these values, none twice |
| `FilterLists.OnlyEqualOrInExactly` | vgi/filter_helpers_typed.go:149-168 | a filter passes if and only if every conjunct is an equality or IN set on an allowed column |
| `Aggregate.SequentialSplits` | vgi/aggregate_protocol.go:440-489 | aggregating two runs of rows apart and combining equals aggregating them in one go |
| `Aggregate.SequentialPermutes` | vgi/aggregate_protocol.go:347-393 | the aggregate does not depend on row order |
| `Aggregate.StoredIsSequential` | vgi/aggregate_protocol.go:347-489 | after any updates and merges a group holds the sequential aggregate of the rows folded into it, absent when none contributed |
| `Aggregate.FinalIsUnspent` | vgi/aggregate_protocol.go:440-489 | no rows end up in a group that was merged away |
| `Aggregate.RowsInAreRowsReaching` | vgi/aggregate_protocol.go:440-489 | with every source merged once, an unspent group stands for exactly the rows that reach it, each once |
| `Aggregate.PartitionIndependence` | vgi/aggregate_protocol.go:347-489 | any splitting of rows and any merge order leaves the sequential aggregate at the root, absent exactly when no row contributed |
| `AggregateRpc.StepsAreLocal` | vgi/aggregate_storage.go:109-145 | steps act the same on the loaded part of the store and change only what they write |
| `AggregateRpc.SavingWrittenIsEnough` | vgi/aggregate_protocol.go:440-489 | saving only the written groups loses nothing |
| `AggregateRpc.UniqueInt64` | vgi/aggregate_protocol.go:794-805 | first occurrences in order, none twice |
| `AggregateRpc.Bucket.LoadStates` | vgi/aggregate_storage.go:109-129 | exactly the stored states among the IDs asked for |
| `AggregateRpc.Bucket.SaveStates` | vgi/aggregate_storage.go:132-145 | writing the pairs one by one, in whatever order the map is walked, leaves exactly the old states overridden by the saved ones |
| `AggregateRpc.UpdateCallback` | vgi/aggregate_protocol.go:347-393 | a lawful callback folds each row into its group |
| `AggregateRpc.HandleAggregateUpdate` | vgi/aggregate_protocol.go:315-393 | load, fold and save have the effect of the rows on the whole store |
| `AggregateRpc.CombineLoop` | vgi/aggregate_protocol.go:440-475 | the merge loop equals the merges in batch order |
| `AggregateRpc.HandleAggregateCombine` | vgi/aggregate_protocol.go:396-489 | saving the targets only has the effect of all merges on the store, even when a target is a later source |
| `AggregateRpc.HandleAggregateFinalize` | vgi/aggregate_protocol.go:492-548 | the stored state of each group asked for, in order, or nil |
| `AggregateRuns.EndIsAtomic` | vgi/aggregate_protocol.go:315-489 | a request whose loads are current when it saves has the effect of its steps on the store as it is then, whatever other requests in flight have loaded |
| `AggregateRuns.InterleavingIsSerial` | vgi/aggregate_protocol.go:315-489 | for every aggregate, lawful or not: if each request that completes has current loads, the store is at every moment what the completed requests make one after another; abandoned requests do not matter |
| `AggregateRuns.DisciplinedIsFresh` | vgi/aggregate_protocol.go:315-489 | keeping apart requests of which one saves what the other has loaded gives current loads |
| `AggregateRuns.IntactIsAtomic` | vgi/aggregate_protocol.go:315-489 | for a lawful aggregate it is enough that the groups merged from and the groups saved are as loaded |
| `AggregateRuns.IntactIsSerial` | vgi/aggregate_protocol.go:315-489 | so runs in which that holds of every request that completes are serial at every moment |
| `AggregateRuns.CountIsSerialExactly` | vgi/aggregate_protocol.go:315-489 | for COUNT, over all runs: serial at every moment if and only if each request that completes finds the groups it merges from and the groups it saves as it loaded them |
| `AggregateRuns.UpdatesAreSerialExactly` | vgi/aggregate_protocol.go:315-489 | when each request that completes gives a state to every group it writes, COUNT is serial at every moment if and only if all its loads are current |
| `AggregateRuns.ParallelAggregateIsSequential` | vgi/aggregate_protocol.go:315-548 | an interleaving of worker processes with intact loads leaves the sequential aggregate at the root |
| `AggregateRuns.OverlapLosesRow` | vgi/aggregate_protocol.go:315-393 | concrete interleaving of two updates of one group in which COUNT loses a row |
| `AggregateRuns.OverlapCanBeAbsorbed` | vgi/aggregate_protocol.go:315-393 | concrete lawful aggregate and run that is serial although its loads are not intact |
| `AggregateRuns.AbandonedIsFresh` | vgi/aggregate_protocol.go:315-489 | concrete run with a request that never saves: loads of the others are current although the discipline is broken |
| `AggregateRuns.AbsentMergeIsIntact` | vgi/aggregate_protocol.go:440-489 | concrete run in which a merge of two absent groups saves nothing, so that its target may change meanwhile |
| `PublicationSafety.EveryRunIsSafe` | vgi/catalog_publication.go:389-473 | in every run, refused invalidations and renewals of any content included, caches stay within their limit, cached and returned manifests have their key and an ID validated for it, pending tables list exactly the Warm calls in flight |
| `PublicationSafety.OneFlightPerKey` | vgi/catalog_publication.go:446-473 | a manager never has two publications of one key in flight |
| `PublicationSafety.RememberBounded` | vgi/catalog_publication.go:430-442 | remembering keeps the cache within its limit |
| `PublicationSafety.SnapshotCache.constructor` | vgi/catalog_publication.go:356-359 | an empty cache is within its limit |
| `PublicationSafety.SnapshotCache.Store` | vgi/catalog_publication.go:430-442 | drops one entry only when full, then stores the manifest under its key |
| `PublicationAgreement.UndisturbedIsStored` | vgi/catalog_publication.go:634-699 | without invalidation or renewal everything cached or returned is what the repository holds |
| `PublicationAgreement.WarmCallsAgree` | vgi/catalog_publication.go:446-473 | racing managers: all successful Warm calls for a key return one manifest |
| `PublicationProgress.WarmDelivers` | vgi/catalog_publication.go:446-473 | from any reachable world with the key stored and free, the steps of a Warm call leave the repository as it was and return and cache exactly the stored manifest |
| `PublicationProgress.WarmReturnsStored` | vgi/catalog_publication.go:634-656 | the same with any events of other calls between the steps: what was stored at the lookup is returned, cached and served by the next hit |
| `PublicationProgress.WarmReturnsRenewed` | vgi/catalog_publication.go:641-656 | a renewed manifest of the same identity is returned in its place, one of another fails the call |
| `PublicationProgress.AbsentIsBuilt` | vgi/catalog_publication.go:634-663 | without a stored manifest the call builds |
| `PublicationProgress.InvalidIsRebuilt` | vgi/catalog_publication.go:655-663 | a stored manifest that does not validate is removed unless another ID replaced it, and the call builds |
| `PublicationProgress.RefusedIsRebuilt` | vgi/catalog_publication.go:658-663 | the same with the repository unchanged when the removal is refused |
| `PublicationProgress.BuiltOrWinnerIsReturned` | vgi/catalog_publication.go:663-699 | a built manifest is stored if the key is free and returned; else the winner is returned if it has its ID or validates, and the call fails if not |
| `PublicationProgress.ErrorsFail` | vgi/catalog_publication.go:446-473 | an error at any point ends the call with nothing returned or cached and the key free again |
| `PublicationProgress.ImportCachesWinner` | vgi/catalog_publication.go:408-429 | an import stores its manifest if the key is free and caches the winner if it has its ID or validates |
| `PublicationProgress.EvictRemoves` | vgi/catalog_publication.go:389-405 | an eviction drops the cache entry, and the stored manifest it looked up unless another ID replaced it |
| `PublicationAgreement.ReturnedWereValidated` | vgi/catalog_publication.go:634-699 | without a winner of the same ID but other content, every cached or returned manifest was itself validated for its key |
| `PublicationAgreement.WinnerCheckExact` | vgi/catalog_publication.go:680-699 | at the winner check the result was validated if and only if the winner is not such a twin or was validated before |
| `PublicationAgreement.TwinGoesUnvalidated` | vgi/catalog_publication.go:680-699 | concrete run in which a twin is taken without validation |
| `PublicationStore.MemoryRepository.Commit` | vgi/catalog_publication.go:161-170 | first manifest of a key wins and is returned |
| `PublicationStore.MemoryRepository.Invalidate` | vgi/catalog_publication.go:172-180 | removes a manifest only when its ID matches |
| `PublicationStore.EtagsAlwaysMeanBodies` | vgi/catalog_publication.go:239-334 | in every interleaving an ETag held by an operation still means the body it read |
| `PublicationStore.EveryRequestRefines` | vgi/catalog_publication.go:239-334 | each S3 request has the effect of one atomic repository operation or none, removes or replaces only the manifest that was read, and answers as the atomic operation does at that moment, a refused delete and a lost renewal apart; a renewal given nothing answers nothing, one of another identity is an error, and a commit whose winner is gone at its lookup too |
| `PublicationStore.RefusedDeleteExact` | vgi/catalog_publication.go:317-334 | a refused delete changes nothing and agrees with the atomic invalidation if and only if the stored manifest no longer has the ID to be invalidated |
| `PublicationStore.LostRenewalExact` | vgi/catalog_publication.go:263-300 | the lookup of a lost renewal changes nothing and answers as the atomic renewal if and only if the stored manifest is gone, has another ID or is already the one offered; what is stored was put after the renewal read |
| `PublicationStore.SecondRenewalLoses` | vgi/catalog_publication.go:263-300 | concrete requests: of two renewals of one manifest the second answers with that of the first, where the atomic repository answers its own |
| `PublicationStore.RenewalDefeatsInvalidation` | vgi/catalog_publication.go:317-334 | concrete requests: a renewal under the same ID makes an invalidation answer false and keep a manifest the atomic repository would have removed |
| `PublicationStore.RenewalKeepsIdentityExactly` | vgi/catalog_publication.go:263-314 | a renewal keeps the stored identity if and only if the manifest it read has the identity it was asked to renew |
| `PublicationStore.SharedIdChangesContent` | vgi/catalog_publication.go:263-314 | concrete requests in which two manifests with one ID let a renewal change content |
| `PublicationJoint.EveryRequestIsAnEvent` | vgi/catalog_publication.go:239-334 | each request on behalf of a waiting call leaves the repository alone or is one protocol event with the same repository after it and the same answer |
| `PublicationJoint.JointRunIsProtocolRun` | vgi/catalog_publication.go:634-699 | every joint run of managers over the object store is the protocol run of its events, refused invalidations among them, and the objects stand for its repository |
| `PublicationJoint.ManagersOverStoreAreSafe` | vgi/catalog_publication.go:389-473 | so managers over the object store keep the safety invariant in every run |
| `PublicationJoint.QuietIsUndisturbed` | vgi/catalog_publication.go:263-334 | a joint run in which the store accepts no delete and no renewal, and no manager takes a renewed manifest, is undisturbed |
| `PublicationJoint.ManagersOverStoreAgree` | vgi/catalog_publication.go:446-473 | in such a run all successful Warm calls for a key, in whichever process, return the one manifest the store holds |
| `CatalogBatches.BatchingIsUnique` | vgi/catalog_collection.go:94-118 | there is exactly one batching of a row list with 1024 rows per batch and a non-empty last one |
| `CatalogBatches.ServedExact` | vgi/catalog_collection.go:116-125 | a field serves rows exactly when it is their one batching, absent without rows |
| `CatalogBatches.Flush` | vgi/catalog_collection.go:50-84 | writes the pending slices as one batch, or nothing |
| `CatalogBatches.AddRecord` | vgi/catalog_collection.go:97-108 | slicing one record batch keeps rows in order and full batches full |
| `CatalogBatches.CombineCatalogItems` | vgi/catalog_collection.go:32-126 | all rows in order, every batch 1024 except a non-empty last one; absent without rows |
| `CatalogBatches.EncodeCatalogRecords` | vgi/catalog_collection_direct.go:16-57 | cutting by offset gives the same batching |
| `CatalogBatches.BatchCount` | vgi/catalog_collection.go:94-118 | one batch per 1024 rows begun, each but the last of 1024 rows |
| `CatalogDigest.PutUint64IsFixedWidth` | vgi/catalog_contents.go:307-310 | eight little-endian bytes determine a value modulo 2^64 |
| `CatalogDigest.ContentsInputIsInjective` | vgi/catalog_contents.go:304-337 | two snapshots are hashed from the same bytes if and only if they are equal, lengths below 2^64 |
| `CatalogDigest.WriteContents` | vgi/catalog_contents.go:304-337 | the running hash receives exactly that encoding |
| `CatalogDigest.StreamsInputIsInjective` | vgi/catalog_contents.go:619-635 | two responses are hashed from the same bytes if and only if version and all six optional streams agree |
| `CatalogDigest.WriteStreams` | vgi/catalog_contents.go:619-635 | the running hash receives exactly that encoding, with the domain string first |
| `CatalogStreams.DecodeExact` | vgi/catalog_collection.go:177-301 | decoding accepts exactly new, parent-first schema rows with objects of known schema and subtype, and returns each schema with its rows in stream order |
| `CatalogStreams.GroupStep` | vgi/catalog_collection.go:260-292 | one object row changes one list of one entry |
| `CatalogCodec.DecodedIsValid` | vgi/catalog_collection.go:163-302 | whatever decoding accepts, it returns a valid snapshot |
| `CatalogRows.DecodedByStream` | vgi/catalog_collection.go:177-302 | decoding accepts exactly new, parent-first schemas and rows that name one of them with a literal subtype of their stream, and fills each of the eight lists from its stream and subtypes in stream order |
| `CatalogCodec.RoundTripExact` | vgi/catalog_collection.go:128-302 | decoding the six encoded streams returns the snapshot if and only if it is valid |
| `CatalogCodec.EncodedDecodes` | vgi/catalog_collection.go:128-302 | any encoded snapshot, misfiled rows included, decodes if and only if its schemas are new and parent-first and its rows known, and then every row is in the schema and list its own columns name |
| `CatalogCodec.DecodeCatalogStreams` | vgi/catalog_collection.go:163-302 | the loops compute that decoding; not_modified needs an etag and no metadata |
| `CatalogCodec.CollectItems` | vgi/catalog_collection.go:129-140 | groups the rows of all entries by category |
| `CatalogCodec.EncodeCatalogStreams` | vgi/catalog_collection.go:128-155 | fields hold the batched categories; succeeds exactly when they decode, and decodes to the snapshot exactly when valid |
| `CatalogListing.ListingIsDeterministic` | vgi/catalog_contents.go:50-78 | the listed order does not depend on the order the schema map was walked |
| `CatalogListing.ListSchemaInfos` | vgi/catalog_contents.go:50-78 | lists exactly the visible schemas in that order |
| `CatalogContents.ListingShape` | vgi/catalog_contents.go:71-76 | listed schemas come shallowest first and no two share a key |
| `CatalogContents.BuildRecords` | vgi/catalog_collection_direct.go:91-143 | one record per kept element in order, or failure |
| `CatalogContents.AddFunctions` | vgi/catalog_collection_direct.go:110-127 | function records by kind equal the three filtered listings |
| `CatalogContents.AddMacros` | vgi/catalog_collection_direct.go:128-144 | macro records by kind equal the two filtered listings |
| `CatalogContents.AddSchema` | vgi/catalog_collection_direct.go:80-145 | one round of the direct loop appends the composed entry category by category |
| `CatalogContents.CollectRecords` | vgi/catalog_collection_direct.go:80-145 | the direct records are the composed entries category by category, failing together |
| `CatalogContents.ComposedIsDecoded` | vgi/catalog_contents.go:435-488 | for the default composition the path check and the sort change nothing |
| `CatalogContents.DirectCatalogContents` | vgi/catalog_collection_direct.go:59-168 | streams, batch boundaries, etag, not-modified decision and failures equal those of the composed answer |
| `CatalogServed.AnswerServesCatalog` | vgi/catalog_contents.go:555-615 | in terms of what was registered: an answer exists if and only if every record builds and every shown schema has its parent shown; it decodes to one entry per shown schema with exactly the owned objects of each kind in registration order, a list being left out only if its count is present and 0 |
| `CatalogServed.EtagExactly` | vgi/catalog_contents.go:477-488 | the etag is the digest of the streams if contents are hashed, and a request that has it gets the etag alone |
| `CatalogServed.HandlerEtagExactly` | vgi/catalog_contents.go:477-488 | a handler etag is kept, else the digest is used |
| `CatalogServed.HandlerNotModifiedExactly` | vgi/catalog_contents.go:435-465 | a handler may answer not-modified exactly when it names the etag of the request and sends no schemas |
| `CatalogServed.NameIsBeforeNul` | vgi/catalog.go:26-40 | the catalog name of an attachment is what comes before its first NUL |
| `CatalogAnswer.CheckContentsPaths` | vgi/catalog_contents.go:494-524 | accepts exactly non-empty unique paths with parents present, equal to the schema rows for a handler |
| `CatalogAnswer.AnswerCatalogContents` | vgi/catalog_contents.go:435-488 | the decision over a handler or default snapshot |
| `CatalogAnswer.SortedSchemasAreOk` | vgi/catalog_contents.go:466-476 | sorting by depth makes the schemas of a checked snapshot with all parents parent-first |
| `CatalogAnswer.RegroupedIsSorted` | vgi/catalog_contents.go:466-476 | regrouping rows changes nothing exactly when every row was filed where it belongs |
| `CatalogAnswer.AnswerExact` | vgi/catalog_contents.go:435-488 | a handler snapshot is served if and only if its paths are unique, consistent and have parents and its rows are known; the client decodes it parents first with rows regrouped by their own columns, as filed exactly when every row was filed there; not modified exactly on an equal etag |
| `CatalogAnswer.JoinIsInjective` | vgi/schema_path.go:22-28 | joined path keys are injective on components without NUL |
| `CatalogAnswer.CheckedParentsArePresent` | vgi/catalog_contents.go:517-522 | without NUL in components the path check alone decides |
| `CatalogCache.NameIsKeyExactly` | vgi/catalog_contents.go:50-78 | the catalog name decides the listed schemas if and only if alias-info names are aliases other than the primary, or only "main" exists |
| `CatalogCache.AliasingDiffers` | vgi/catalog.go:44-64 | otherwise two attachments share a cache key and are listed different schemas |
| `CatalogCache.SameCatalogSameAnswer` | vgi/catalog_contents.go:355-360 | attachments of one catalog name get one answer |
| `CatalogCache.Revalidates` | vgi/catalog_contents.go:396-400 | revalidating the full answer gives the answer to the conditional request |
| `CatalogCache.ContentsCache.constructor` | vgi/catalog_contents.go:342-346 | an empty cache is current |
| `CatalogCache.ContentsCache.LoadOrStore` | vgi/catalog_contents.go:392-395 | of concurrent builders the first wins and all serve its response |
| `CatalogCache.ContentsCache.CatalogContents` | vgi/catalog_contents.go:372-401 | hit or miss, the response is the fresh one for this attachment, version and if-none-match |
| `CatalogCache.FunctionListingCache.constructor` | vgi/catalog_function_listing.go:38-42 | an empty cache is current |
| `CatalogCache.FunctionListingCache.Encode` | vgi/catalog_function_listing.go:46-59 | each function is encoded at most once, failure included |
| `CatalogCache.FunctionListingCache.FunctionListing` | vgi/catalog_function_listing.go:93-124 | hit or miss, exactly the owned functions of the requested type; failures are not cached |
| `CatalogServed.FunctionsListedExactly` | vgi/catalog_function_listing.go:93-124 | the listing holds exactly the owned functions of the requested type, all types if it is not a known one, in registration order |
| `PathKeys.PathKeyIsInjective` | vgi/constraint_records.go:673-679 | no two component lists share a key |
| `PathKeys.BuildPathKey` | vgi/constraint_records.go:673-679 | the builder loop computes the key |
| `Nullability.ServedExact` | vgi/constraint_records.go:621-653 | each reachable field outside the row-id column is non-nullable exactly when its path is required; nothing else changes |
| `Nullability.ServeKeepsRest` | vgi/constraint_records.go:622-646 | names, types, metadata and unreachable fields are kept |
| `Nullability.SecondPassIsIdentity` | vgi/constraint_records.go:621-653 | a second pass with the same records is the identity |
| `Nullability.ResolvedReachesOne` | vgi/constraint_records.go:584-610 | a path that resolves reaches exactly one field |
| `Nullability.IndexOf` | vgi/constraint_records.go:595-606 | finds the field of a name exactly when it is the only one |
| `Nullability.ResolveNotNullPath` | vgi/constraint_records.go:584-610 | accepts exactly unambiguous paths through ordinary structs that do not start at the row-id column |
| `ConstraintRecords.KeyedExactly` | vgi/constraint_records.go:443-580 | a key is required exactly when a record names its path |
| `ConstraintRecords.CheckColumnPaths` | vgi/constraint_records.go:681-705 | accepts exactly bounded lists of distinct, well-formed paths |
| `ConstraintRecords.CheckRecord` | vgi/constraint_records.go:473-577 | accepts exactly the records that are well-formed on their own |
| `ConstraintRecords.CheckTableConstraints` | vgi/constraint_records.go:443-580 | accepts exactly the compatible sets of well-formed records and returns the keys of exactly the required paths |
| `ConstraintRecords.NullabilityExact` | vgi/constraint_records.go:621-653 | a field is served non-nullable if and only if a NOT_NULL or PRIMARY_KEY record names its path |
| `ConstraintRecords.RequiredReachesOne` | vgi/constraint_records.go:522-555 | every required path reaches exactly one field, served non-nullable if and only if the path does not start at a row-id column or the field was declared non-nullable |
| `ConstraintRecords.RequiredIsServed` | vgi/constraint_records.go:443-653 | with at most one row-id column every required path is served non-nullable |
| `ConstraintRecords.TwoRowIdsEscape` | vgi/constraint_records.go:452-459 | concrete schema with two row-id columns in which a required field stays nullable |
| `ConstraintRecords.ServedTableColumns` | vgi/constraint_records.go:411-423 | refused exactly when the records are or a generated column is required; else nullability follows the records |
| `ConstraintCases.ResolvesExactly` | vgi/constraint_records.go:584-610 | a path resolves if and only if it leads through ordinary structs to a field no name on the way to which is shared with a sibling |
| `ConstraintCases.ChildrenAreReachedExactly` | vgi/constraint_records.go:659-671 | fields are reached exactly in structs that are no extension type |
| `ConstraintCases.NotNullExactly` | vgi/constraint_records.go:473-530 | which NOT_NULL records are accepted, written out |
| `ConstraintCases.KeyExactly` | vgi/constraint_records.go:473-555 | which PRIMARY KEY and UNIQUE records are accepted |
| `ConstraintCases.ForeignKeyExactly` | vgi/constraint_records.go:473-577 | which FOREIGN KEY records are accepted |
| `ConstraintCases.CheckExactly` | vgi/constraint_records.go:473-520 | which CHECK records are accepted |
| `ConstraintCases.AcceptedExactly` | vgi/constraint_records.go:443-580 | a set is accepted if and only if it has at most 1024 accepted records of 8 MiB with distinct IDs, names distinct up to case and at most one primary key |
| `ConstraintCases.DeclaredIsServed` | vgi/constraint_records.go:411-653 | a NOT_NULL record on any reachable, unambiguous field outside row-id columns is accepted and served |
| `Base64Url.MergeUndoesSplit` | vgi/attach_ticket.go:316-325 | decoding undoes encoding and no encoding has length 1 modulo 4 |
| `Base64Url.CanonicalExactly` | vgi/attach_ticket.go:316-325 | accepted text is exactly the canonical unpadded base64url of a non-empty byte string |
| `TicketPayload.EncodeTicketPayload` | vgi/attach_ticket.go:215-245 | fails exactly on oversized fields, else writes the layout |
| `TicketPayload.ReadText` | vgi/attach_ticket.go:259-272 | reads one length-prefixed valid text at the cursor |
| `TicketPayload.DecodeTicketPayload` | vgi/attach_ticket.go:249-312 | the cursor loop computes the decoding |
| `TicketPayload.PayloadExactly` | vgi/attach_ticket.go:215-312 | encoding and decoding are mutual inverses between valid claims and accepted payloads |
| `TicketPayload.GoWordsAreOk` | vgi/attach_ticket.go:221-243 | the little-endian 16, 32 and 64 bit codecs meet the laws assumed of them |
| `AttachTicket.OpenUndoesMint` | vgi/attach_ticket.go:340-414 | a minted ticket carries its claims back to the same principal and key, up to the lifetime check |
| `AttachTicket.OthersAreRefused` | vgi/attach_ticket.go:384-414 | another principal, or a key that differs after normalization, gets the one invalid-ticket answer; otherwise the ticket opens as under the key it was minted with |
| `AttachTicket.HashedKeyOpens` | vgi/crypto.go:87-93 | a key that is not 32 bytes long and its hash are different keys that open the same tickets |
| `AttachTicket.RedeemAttachTicket` | vgi/attach_ticket.go:483-545 | a ticket must be the only option and then stands for the whole request; without one the request is untouched |
| `AttachTicket.LifetimeIsLeast` | vgi/attach_ticket.go:822-827 | the effective lifetime is what was asked, capped, and unlimited only if neither side limits it |
| `AttachTicket.SealThenRedeem` | vgi/attach_ticket.go:483-545 | a request sealed at t with lifetime L is restored exactly when t-60 <= now and (L is 0, or t+L is 0, or now < t+L+60), else expired |
| `AttachTicket.EpochExpiryNeverEnds` | vgi/attach_ticket.go:822-831 | a limited ticket whose lifetime ends at Unix time 0 is sealed without expiry and restored at every later time |
| `TicketOutcomes.UntouchedExactly` | vgi/attach_ticket.go:483-504 | a request is left alone if and only if it has no options, no row of them, or no ticket among them |
| `TicketOutcomes.ReadErrorExactly` | vgi/attach_ticket.go:487-490 | an error if and only if the options cannot be read |
| `TicketOutcomes.NotAloneExactly` | vgi/attach_ticket.go:505-513 | refused as not alone if and only if a ticket stands beside another option, whatever it holds |
| `TicketOutcomes.RestoredExactly` | vgi/attach_ticket.go:514-545 | restored, to the request of its claims, if and only if the ticket is the one option, is text, the worker has a key and the ticket carries claims to this principal in time with readable options |
| `TicketOutcomes.ExpiredExactly` | vgi/attach_ticket.go:518-524 | expired if and only if such a ticket carries claims out of time |
| `TicketOutcomes.OpenExactly` | vgi/attach_ticket.go:384-414 | a token opens, is expired or is invalid exactly by whether it is the canonical text of an envelope that carries claims to this key and principal, and by their time |
| `TicketOutcomes.MintExactly` | vgi/attach_ticket.go:340-378 | when minting succeeds, limits and formats written out, and the token it gives |
| `TicketOutcomes.PayloadFields` | vgi/attach_ticket.go:215-245 | the payload, field by field |

## Left out

- JSON decoding of filter documents and the v2 expression grammar: a partial parse function stands for both.
- Arrow IPC, dictionaries, compute kernels and reference counting: batches are sequences of rows, one-row records are abstract rows.
- `parseFilter`, `StructFilter`, `ExpressionFilter` and `withColumnIndex`: nothing in the repository calls the parser that builds them.
- SQL text: clauses are a small syntax tree; the text of an empty `IN` list or conjunction and identifier quoting are not modelled.
- FilterEvaluate.EvaluateFilter: IN over a batch has SQL semantics; how the Arrow kernel matches null set members, and errors of kernels, are not modelled.
- FilterPruning.BoundsAreSound: does not cover NaN, and the conversion to float64 is an order-preserving function rather than IEEE 754 rounding.
- FilterValues.UnionIsExact: the de-duplication key is any function that separates the listed values, not the Go formatting of scalars.
- FilterRuns.HttpRefinesMemory: join keys and the spatial capability are fixed per scan; the first-tick seeding differs from rehydration only in that capability.
- The aggregate destructor, window functions and constant arguments.
- PublicationStore.EveryRequestRefines: manifests stand for their bodies; size limits, JSON errors and transport errors of the object store are left out.
- PublicationStore.EtagsAlwaysMeanBodies: ETags are taken never to repeat; one derived from content would come back when the same bytes are stored again after a delete or a renewal.
- Publication validation, upload and the content of artifacts: outcomes are parameters.
- CatalogDigest.ContentsInputIsInjective: SHA-256 is not modelled; equality of digests is equality of inputs only up to collisions.
- CatalogCodec.RoundTripExact: items hold one row each; null checks of required columns and path components are left out, and a path key is the list of lower-cased components rather than its JSON text.
- CatalogServed.AnswerServesCatalog: the record builders are taken to write the schema path and the kind of the object they are given.
- FilterShapes.ViewExactly: the column index a view reports is not modelled.
- CatalogContents.DirectCatalogContents: serialization of a built record is taken to succeed, and schemas are registered under their own path key with rows naming that path.
- CatalogCache.ContentsCache.CatalogContents: writable and routed catalogs, handlers and published delivery bypass this cache and are not modelled.
- ConstraintRecords.CheckTableConstraints: decoding of records is left out and the CHECK grammar is a parameter.
- AttachTicket.OthersAreRefused: that nothing sealed opens under another cipher key is a law of the model; for the real cipher it holds up to forgery.
- AttachTicket.SealThenRedeem: sums are assumed not to overflow int64; which attach options a catalog declares is decided before sealing and left out.
- Row-building serializers, logging, landing page, hosting, identity wiring, SQLite and gob storage: field copying and input-output without protocol state.
