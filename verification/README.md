# Benchmark platform: verified models

This project models the parts of an LLM benchmarking platform in which a mistake is hardest to see, and proves what
those parts promise. Six clusters are covered.

- **Password-failure limiter.** One call is a sequence of separate database commands; many callers, each with its own
  clock, and a TTL deleter interleave. `Limiter.dfy` is the atomic limiter and its history, `LimiterProtocol.dfy` the
  step machine over all interleavings, `LimiterRuns.dfy` what its runs can do, `AttemptCollection.dfy` the collection
  with the recursive call.
- **Layered request bodies.** Six JSON layers are normalised, stripped of overridden aliases and merged in place with
  override evidence. `JsonValues.dfy` holds the value-level merge and removal, `MergeEvidence.dfy` the evidence,
  `RequestBody.dfy` the fold over layers; `JsonStore.dfy` and `RequestBodyStore.dfy` are the same on mutable
  dictionaries on the heap, proved to compute those values without aliasing.
- **Statistics.** `Intervals.dfy` (Wilson and normal intervals, rounding) and `Classification.dfy` (macro metrics).
- **Leaderboard and matrix.** `Ordering.dfy`, `Leaderboard.dfy`, `Timestamps.dfy` (the order of printed timestamps) and
  `Matrix.dfy` (grouping into cells).
- **Migration ledgers.** `Migrations.dfy` (SQLite, transactional) and `MongoMigrations.dfy` (MongoDB, insert by insert).
- **Parsers and canonical forms.** `Templates.dfy`, `Routing.dfy` and `Metadata.dfy`.

`Options.dfy`, `Sequences.dfy` and `Text.dfy` are shared helpers. `dafny verify dfyconfig.toml` checks everything.

Conventions. A result of `None` or `Err` stands for `None` or for a raised exception. Objects that the source updates
in place are classes; where a loop body is long it is a method of its own. The limiter takes a limit of at least one
and a positive window, the same for all callers; their clocks need not agree. Several properties turned out to need a
condition, or to be false, and are stated that way, with the exact condition:

- window starts are spaced exactly when no deletion lets a window open before the expiry of the last one
  (`Limiter.WindowsAreSpaced`, sharp for every policy by `LimiterRuns.EarlyRemovalRunExceedsBound`);
- a call retries only for windows that others open after it began (`LimiterRuns.RetriesAreInterferences`), and returns
  if finitely many callers arrive, but may retry without end otherwise (`LimiterRuns.RetriesAreUnbounded`);
- the body keeps at most one alias of a group exactly when every layer does (`RequestBody.OneAliasThroughout`);
- for several scores the matrix's interval lies inside the aggregate one exactly when their sum of x (1 - x) is at most
  a (1 - a), with a their mean, or their variance is large enough for the latter to cover [0, 1]
  (`Intervals.ContainmentExactly`), so always for scores in {0, 1} but not for all partial ones;
- the repository order is irrelevant exactly when no two rows tie (`Leaderboard.TieKeepsRepositoryOrder`);
- a call on a database with a ledger returns exactly under the conditions of `Migrations.CompletesExactly`, and of
  `MongoMigrations.ReturnsExactly`; a version recorded under a foreign id is never accepted again;
- a crash loses the ledger backfill for good exactly in the cases of `Migrations.CrashLosesBackfill`,
  `MongoMigrations.CrashDuringUpgrade` and `MongoMigrations.CrashDuringFirstCall`;
- a language tag is formatted as RFC 5646 recommends exactly without a two- or four-letter subtag behind a singleton
  (`Metadata.ConventionalUnlessExceptional`).

The comment at backend/app/db/database.py:235-238 says that the backfill restores the ledger of older databases. After
an interruption behind line 230 it does not, because the ledger table then already exists; the model follows the code.

## Model

| member | source | states |
|---|---|---|
| `AttemptCollection.Collection.FindAndIncrement` | backend/app/db/mongo.py:361-373 | the first update succeeds exactly on an unexpired row below the limit, adds one failure to it, keeps its expiry, and touches no other key |
| `AttemptCollection.Collection.FindAndReset` | backend/app/db/mongo.py:374-390 | the second update succeeds exactly on an expired row and opens a window with one failure from the caller's own clock |
| `AttemptCollection.Collection.AttemptLimitReached` | backend/app/db/mongo.py:344-350 | the read denies exactly on an unexpired row at or above the limit, and changes nothing |
| `AttemptCollection.Collection.InsertDocument` | backend/app/db/mongo.py:395-406 | under the unique index the insert is refused exactly when the key has a row |
| `AttemptCollection.Collection.RecordFailure` | backend/app/db/mongo.py:352-414 | the recursive call, interrupted between its commands by arbitrary batches of other callers and TTL deletions, terminates; the history it leaves replays through the atomic limiter and ends with this call, once, with the verdict returned |
| `Limiter.CountStaysInRange` | backend/app/db/mongo.py:362-388 | 1 <= failure_count <= limit is kept by every history of atomic calls and deletions |
| `Limiter.WindowsAreSpaced` | backend/app/db/mongo.py:362-388 | over any legal history, window starts lie at least one window apart exactly when no window is opened in place of a removed one before the expiry of the window opened last |
| `Limiter.WindowsKeepExpiry` | backend/app/db/mongo.py:362-388 | over any legal history the stored expiry is that of the last opening |
| `Limiter.WindowsKeepQuota` | backend/app/db/mongo.py:362-406 | over any legal history each window has at most `limit` admissions, every admission is in a window, and the stored count is that of the current window |
| `Limiter.PunctualRemovals` | backend/app/db/mongo.py:81-84 | removals whose clocks never run ahead of a later opener cause no early opening |
| `Limiter.RemovalAheadCanBeHarmless` | backend/app/db/mongo.py:81-84 | and the converse fails, for every policy: a removal may be ahead of a later opener that still waits for the expiry |
| `Limiter.AdmissionBound` | backend/app/db/mongo.py:352-388 | a legal history without early openings admits at most limit * (1 + floor((latest - first) / window)) calls, whatever the order of the clock readings |
| `Limiter.EarlyRemovalExceedsBound` | backend/app/db/mongo.py:81-84 | for every policy and every lead of the deleter over the opener, up to a window, a legal history breaks both the spacing and the bound |
| `LimiterRuns.EarlyRemovalRunExceedsBound` | backend/app/db/mongo.py:81-84 | and a run of the commands reaches it: more calls return true than the bound allows |
| `LimiterProtocol.LinearisationPoint` | backend/app/db/mongo.py:362-406 | one command of one caller either returns, and then the shared row and history change exactly as the atomic limiter says at that instant, or changes neither |
| `LimiterProtocol.RunRefinesAtomic` | backend/app/db/mongo.py:352-414 | every interleaving of callers and TTL deletions replays as a legal atomic history in which each returned call occurs exactly once with its result; the count stays between 1 and the limit |
| `LimiterRuns.HistoriesAreThoseOfRuns` | backend/app/db/mongo.py:352-414 | conversely every legal atomic history in which no caller calls twice is that of some interleaving, so the commands allow exactly what the atomic limiter allows |
| `LimiterProtocol.RetryNeedsWinner` | backend/app/db/mongo.py:407-414 | a duplicate key implies that another caller opened a window after the retrying caller's latest increment attempt |
| `LimiterProtocol.RetriesAreBounded` | backend/app/db/mongo.py:407-414 | a call retries fewer times than callers have begun by then, and its command count is four per retry plus its position |
| `LimiterRuns.RetriesAreInterferences` | backend/app/db/mongo.py:362-414 | a call retries at most once for every other caller that opened a window after the call began, and needs four commands per such window and four more |
| `LimiterRuns.RetriesAreUnbounded` | backend/app/db/mongo.py:362-414 | the call is lock-free and not wait-free: for every policy and n some run, with deletions on time, has n windows opened by others, n retries of one call, and that call back at its increment |
| `LimiterProtocol.CommandsAreBounded` | backend/app/db/mongo.py:352-414 | no schedule makes one call issue more than four commands per caller of the run |
| `LimiterProtocol.StepSpendsBudget` | backend/app/db/mongo.py:352-414 | a call returns when finitely many callers arrive: its budget is positive while it runs, spent by its own commands, untouched by those of others and by deletions, and raised by four by each arrival |
| `LimiterProtocol.SoloCallNeverRetries` | backend/app/db/mongo.py:352-414 | a caller alone returns within four commands, without a retry, with the atomic verdict |
| `LimiterProtocol.AdmittedAreCounted` | backend/app/db/mongo.py:352-414 | in every run the number of callers that returned true is the number of admitting events in the history |
| `LimiterProtocol.AdmissionsOverRun` | backend/app/db/mongo.py:352-414 | in every run whose deletions let no window open early at most limit * (1 + floor((latest - first) / window)) callers return true |
| `LimiterProtocol.AdmissionsWithoutRemovals` | backend/app/db/mongo.py:352-414 | in particular in every run without deletions |
| `LimiterProtocol.ReturnedBeforeBegunPrecedes` | backend/app/db/mongo.py:352-414 | the linearisation keeps real-time order: a call that returned before another began precedes it in the history |
| `JsonValues.IncomingLeafSurvives` | backend/app/infrastructure/providers/common.py:222-233 | every non-object leaf of the incoming layer is in the merged body at the same path |
| `JsonValues.IncomingPathSurvives` | backend/app/infrastructure/providers/common.py:222-233 | every path of the incoming layer is in the merged body |
| `JsonValues.MergedLeavesExactly` | backend/app/infrastructure/providers/common.py:222-233 | the paths and the leaves of a merge are those of the layer, and those of the target for which the layer has neither a value nor a non-object above |
| `JsonValues.MergeAddsNothing` | backend/app/infrastructure/providers/common.py:222-233 | every path of the merged body is a path of the target or of the layer |
| `JsonValues.ChangedLeafIsOverridden` | backend/app/infrastructure/providers/common.py:225-233 | a target leaf that the merge changes or removes lies at or below a path where the two bodies conflict |
| `JsonValues.ConflictIsReplaced` | backend/app/infrastructure/providers/common.py:228-233 | at a conflict the merged body holds the layer's value |
| `JsonValues.RemovedPathIsGone` | backend/app/infrastructure/providers/common.py:256-269 | after a removal the path does not exist any more |
| `JsonValues.PruneAddsNothing` | backend/app/infrastructure/providers/common.py:265-269 | removal with pruning creates no path |
| `JsonValues.RemovalKeepsOtherLeaves` | backend/app/infrastructure/providers/common.py:256-269 | no leaf outside the removed path changes, although emptied parents go too |
| `JsonValues.RemovalKeepsOtherValues` | backend/app/infrastructure/providers/common.py:256-269 | the value at every path that is neither above nor below the removed one stays as it was, or stays absent |
| `JsonValues.EmptiedParentsGo` | backend/app/infrastructure/providers/common.py:266-269 | a parent on the removed path is removed too exactly when nothing beside that path is left at or below it |
| `MergeEvidence.DocumentsExactly` | backend/app/infrastructure/providers/common.py:223-233 | the overrides a merge adds are exactly the conflicts of its two bodies, each with the layer stored for exactly that field; provenance changes exactly at the assigned fields |
| `MergeEvidence.DottedPathIsUnambiguous` | backend/app/infrastructure/providers/common.py:223 | dotted field names stand for one path when keys hold no dot and are not empty |
| `JsonStore.Dict.DeepMerge` | backend/app/infrastructure/providers/common.py:214-233 | the in-place recursive merge, over dictionaries that share nothing with the layer, leaves the value of the right-biased merge, appends exactly the evidence of its conflicts, and keeps the layer unshared |
| `JsonStore.Dict.DeepCopy` | backend/app/infrastructure/providers/common.py:210 | a copy has the same value and owns only new dictionaries |
| `JsonStore.Dict.Contains` | backend/app/infrastructure/providers/common.py:247-253 | the loop answers whether the path exists in the body |
| `JsonStore.Dict.RemovePath` | backend/app/infrastructure/providers/common.py:256-269 | the descend-pop-prune loops leave the value of the recursive removal, inside the same footprint |
| `JsonStore.Dict.Rise` | backend/app/infrastructure/providers/common.py:266-269 | the upward loop restores every suspended ancestor to a valid dictionary holding its pruned view |
| `RequestBody.SnapshotIsFixedPoint` | backend/app/infrastructure/providers/common.py:197-211 | a normalised layer read again in any iteration order is unchanged and ignores nothing |
| `RequestBody.NormaliseDropsProtected` | backend/app/infrastructure/providers/common.py:203-210 | no protected field survives normalisation |
| `RequestBody.AcceptedIsKept` | backend/app/infrastructure/providers/common.py:203-211 | normalisation of a mapping keeps exactly the entries with an unprotected string key, with their values |
| `RequestBody.IgnoredExactly` | backend/app/infrastructure/providers/common.py:204-209 | exactly the entries with a key that is no string or is protected are reported, each with its layer, its name and its reason |
| `RequestBody.IgnoredInOrder` | backend/app/infrastructure/providers/common.py:203-209 | the report follows the order of the entries, with one item for every entry that is not kept |
| `RequestBody.AliasRemovalExactly` | backend/app/infrastructure/providers/common.py:236-244 | alias removal takes exactly the leaves at or below some alias of a group of which the layer has some alias; a layer that mentions no alias of a group takes none of its leaves |
| `RequestBody.EffectiveLeavesExactly` | backend/app/infrastructure/providers/common.py:159-163 | a leaf is in the effective body exactly when some layer sets it and no later layer has a value in its place or mentions a group with an alias at or above it |
| `RequestBody.AliasComesFromLastMention` | backend/app/infrastructure/providers/common.py:159-163 | any alias of a group in the effective body is present in the last layer that mentions the group |
| `RequestBody.AtMostOneAlias` | backend/app/infrastructure/providers/common.py:236-244 | if no single layer uses two aliases of a group, neither does the effective body |
| `RequestBody.TwoAliasesInOneLayerSurvive` | backend/app/infrastructure/providers/common.py:236-244 | any two aliases inside the last layer both survive |
| `RequestBody.OneAliasThroughout` | backend/app/infrastructure/providers/common.py:159-163 | the body holds at most one alias of a group after every layer exactly when every layer holds at most one |
| `RequestBody.ForcedLeafSurvives` | backend/app/infrastructure/providers/common.py:152-163 | every leaf of the last normalised layer is in the effective body |
| `RequestBody.UnprotectedForcedLeafSurvives` | backend/app/infrastructure/providers/common.py:152-163 | every leaf under an unprotected string key of the raw last mapping (`benchmark_forced`) is in the effective body, at the same path |
| `RequestBody.KeysComeFromLayers` | backend/app/infrastructure/providers/common.py:159-163 | every top-level key of the effective body comes from some layer |
| `RequestBody.NoProtectedField` | backend/app/infrastructure/providers/common.py:197-211 | no protected key is at the top level of the effective body |
| `RequestBody.RefoldReproduces` | backend/app/infrastructure/providers/common.py:159-170 | normalising the recorded snapshots in any iteration order gives the same layers and the same effective body, and ignores nothing |
| `RequestBodyStore.NormaliseLayer` | backend/app/infrastructure/providers/common.py:197-211 | the loop builds a fresh dictionary of the accepted entries and appends one ignored record per rejected entry, with its reason |
| `RequestBodyStore.RemoveOverriddenAliases` | backend/app/infrastructure/providers/common.py:236-244 | the nested loops remove exactly the mentioned groups and never write to the incoming layer |
| `RequestBodyStore.MergeLayer` | backend/app/infrastructure/providers/common.py:162-163 | alias removal then merge of one layer: value and evidence |
| `RequestBodyStore.ResolveRequestBody` | backend/app/infrastructure/providers/common.py:134-170 | the whole fold: effective body, snapshots that own nothing of the body and still hold their layers at the end, ignored fields, and an evidence log for every layer |
| `RequestBodyStore.ProvenanceIsLastAssigner` | backend/app/infrastructure/providers/common.py:228-233 | the recorded layer of a field is the last one that assigned exactly that field, so it can be absent or stale for nested ones |
| `RequestBodyStore.OverridesAreConflicts` | backend/app/infrastructure/providers/common.py:228-231 | `overridden_fields` holds exactly the conflicts of each layer with the body accumulated before it |
| `RequestBodyStore.EvidenceIsDetermined` | backend/app/infrastructure/providers/common.py:228-233 | any two resolutions of the same layers record the same overrides and the same provenance after every layer |
| `RequestBodyStore.ResolvingSnapshotsReproduces` | backend/app/infrastructure/providers/common.py:159-170 | resolving the recorded snapshots again gives the same body, overrides and provenance, and ignores nothing |
| `RequestBodyStore.AllIgnoredExactly` | backend/app/infrastructure/providers/common.py:159-169 | `ignored_fields` holds exactly the rejected entries of all layers, each under the name of its layer |
| `RequestBodyStore.AllIgnoredInOrder` | backend/app/infrastructure/providers/common.py:159-160 | and lists the layers in the order in which they are merged |
| `Intervals.EndpointsAreRoots` | backend/app/modules/analytics/aggregation.py:216-220 | centre minus and plus margin are the two roots of (x - p)^2 = z^2 x (1 - x) / n |
| `Intervals.WilsonCharacterised` | backend/app/modules/analytics/aggregation.py:213-225 | the interval is those roots, lies in [0, 1] without the clamps ever binding, and contains the proportion |
| `Intervals.WilsonMonotone` | backend/app/modules/analytics/aggregation.py:213-225 | both ends grow with the number of successes |
| `Intervals.WilsonMirror` | backend/app/modules/analytics/aggregation.py:213-225 | failures have the mirrored interval |
| `Intervals.RoundingIsMonotone` | backend/app/modules/analytics/aggregation.py:223-224 | rounding to six decimals keeps order |
| `Intervals.ReportedEndpointsGrow` | backend/app/modules/analytics/aggregation.py:213-225 | more successes never lower a reported, rounded endpoint |
| `Intervals.ErrorRateMirrorsSuccessRate` | backend/app/modules/analytics/aggregation.py:100-101 | the reported error-rate interval is one minus the reported success-rate interval, after rounding |
| `Intervals.DeviationsFromMean` | backend/app/modules/analytics/aggregation.py:205-208 | for any scores the squared deviations sum to n a (1 - a) less the sum of x (1 - x), with a their mean |
| `Intervals.BinaryDeviations` | backend/app/modules/analytics/aggregation.py:205-208 | for scores in {0, 1} the squared deviations sum to n a (1 - a) |
| `Intervals.VariancesCompared` | backend/app/modules/analytics/matrix.py:219-228 | the matrix's variance is at most the sample variance exactly when the sum of x (1 - x) is at most a (1 - a) |
| `Intervals.SpreadOfScores` | backend/app/modules/analytics/matrix.py:219-228 | for scores in [0, 1] that sum is at least zero, and zero exactly when all are 0 or 1 |
| `Intervals.ContainmentExactly` | backend/app/modules/analytics/matrix.py:219-228 | for any scores the clamped normal interval lies inside the sample-variance interval exactly under that condition, or when the larger of a and 1 - a, squared, is at most z^2 times the sample variance of the mean; for one score, exactly when it is not strictly between 0 and 1 |
| `Intervals.MatrixIntervalInsideMeanInterval` | backend/app/modules/analytics/matrix.py:219-228 | for scores in {0, 1} the clamped normal interval lies inside the sample-variance interval, for every n >= 1 |
| `Intervals.PartialScoresBreakContainment` | backend/app/modules/analytics/matrix.py:219-228 | any number of equal scores strictly between 0 and 1 break the containment |
| `Classification.PredictionReferencePairs` | backend/app/modules/benchmarks/metrics.py:315-323 | the loop keeps, in order, the stripped pairs of the attempts that have both labels |
| `Classification.ClassificationMetrics` | backend/app/modules/benchmarks/metrics.py:200-221 | the accumulating loops return the metrics of those pairs, and nothing without pairs |
| `Classification.LabelsAreExact` | backend/app/modules/benchmarks/metrics.py:205 | the label list is strictly sorted and holds exactly the labels that occur |
| `Classification.CountsAreConserved` | backend/app/modules/benchmarks/metrics.py:206-212 | over all labels TP sums to the correct predictions, TP+FP and TP+FN each to the number of pairs |
| `Classification.ScoresAreShares` | backend/app/modules/benchmarks/metrics.py:206-215 | over the attempts, precision is the share with the label as reference among those that predict it, recall the share that predict it among those with it as reference, each 0 when there are none; F1 is twice the hits over both |
| `Classification.MetricsAreMeans` | backend/app/modules/benchmarks/metrics.py:200-221 | for every table of the labels that occur, in any order, and their scores, what is reported are the share of agreeing attempts, the unweighted means of the scores, and the number of labelled attempts |
| `Classification.F1IsCountRatio` | backend/app/modules/benchmarks/metrics.py:213-215 | F1 from precision and recall is 2TP / (2TP + FP + FN) |
| `Classification.F1Between` | backend/app/modules/benchmarks/metrics.py:213-215 | F1 lies between precision and recall and at most at their mean; all lie in [0, 1] |
| `Classification.MacroF1BelowMean` | backend/app/modules/benchmarks/metrics.py:216-220 | macro F1 is at most the mean of macro precision and macro recall |
| `Classification.PerfectF1IffPerfectAccuracy` | backend/app/modules/benchmarks/metrics.py:206-220 | macro F1 is 1 exactly when accuracy is 1 |
| `Classification.ExchangeSwapsPrecisionAndRecall` | backend/app/modules/benchmarks/metrics.py:200-221 | exchanging predictions and references swaps macro precision and recall and changes nothing else |
| `Classification.AttemptOrderIsIrrelevant` | backend/app/modules/benchmarks/metrics.py:200-221 | permuting the attempts changes no metric |
| `Classification.RenamingIsIrrelevant` | backend/app/modules/benchmarks/metrics.py:200-221 | renaming the labels one-to-one changes no metric, though it may reorder them |
| `Ordering.SortSorts` | backend/app/modules/analytics/leaderboard.py:132-144 | the comparator-driven sort sorts and permutes, for every total preorder |
| `Ordering.SortedArrangementIsUnique` | backend/app/modules/analytics/leaderboard.py:132-144 | elements that only tie with themselves have one sorted arrangement |
| `Ordering.SortIsStable` | backend/app/modules/analytics/leaderboard.py:132-144 | the sort is stable for every total preorder and list: the elements that tie with any given one keep their order |
| `Ordering.SortedIsFixed` | backend/app/modules/analytics/leaderboard.py:132-144 | a sorted list is left as it is, ties included |
| `Ordering.OrderMattersOnTies` | backend/app/modules/analytics/leaderboard.py:132-144 | for every total preorder and list, all arrangements sort alike exactly when no two different elements tie |
| `Ordering.CompareTextExactly` | backend/app/modules/analytics/leaderboard.py:319-323 | strings are ordered at the first place where they differ, by code point, a proper prefix first |
| `Leaderboard.ExplicitCompared` | backend/app/modules/analytics/leaderboard.py:285-324 | for every sort field and direction the comparator orders by the attribute the field stands for, each named, texts case-folded, numbers by size, missing ones last, ties by folded id |
| `Leaderboard.ExplicitListIsOrdered` | backend/app/modules/analytics/leaderboard.py:134-143 | the list sorted by a field, in either direction, is in that order |
| `Leaderboard.DefaultCompared` | backend/app/modules/analytics/leaderboard.py:259-282 | the default comparator is the order in words: ranked, completed, other; then score down, latency and cost up with missing ones last, newest first, smallest id first |
| `Leaderboard.DefaultListIsTiered` | backend/app/modules/analytics/leaderboard.py:132-133 | the default list is in that order |
| `Leaderboard.DefaultFits` | backend/app/modules/analytics/leaderboard.py:259-282 | the three-tier default comparator is a total preorder, and ties have equal folded ids |
| `Leaderboard.ExplicitFits` | backend/app/modules/analytics/leaderboard.py:285-311 | so is the comparator of every sort field and direction |
| `Leaderboard.RepositoryOrderIsIrrelevant` | backend/app/modules/analytics/leaderboard.py:132-144 | with ids that differ after case folding, every listing order of the rows sorts to the same list |
| `Leaderboard.ListingOrderIsIrrelevant` | backend/app/modules/analytics/leaderboard.py:122-144 | the same from the unfiltered runs, archived ones included |
| `Leaderboard.VisibleKeepsOrder` | backend/app/modules/analytics/leaderboard.py:122-131 | the rows before sorting are those of the runs that are not archived and match, in the order of the runs |
| `Leaderboard.TieKeepsRepositoryOrder` | backend/app/modules/analytics/leaderboard.py:132-144 | rows that tie keep the order of the repository; every repository order gives the same list exactly when no two different rows tie |
| `Leaderboard.PagesPartition` | backend/app/modules/analytics/leaderboard.py:146-150 | pages 1 to total_pages concatenate to the sorted list |
| `Leaderboard.PageSizes` | backend/app/modules/analytics/leaderboard.py:146-150 | every page before the last is full, the last is not empty, later ones are |
| `Leaderboard.BuildLeaderboard` | backend/app/modules/analytics/leaderboard.py:113-157 | the filtering loop, sort and slice return the page of the sorted visible rows with the right totals, and each query error exactly when its check fails |
| `Timestamps.FractionCompare` | backend/app/modules/analytics/leaderboard.py:183 | texts without a fraction and with six digits compare like the microseconds |
| `Timestamps.TextComparesFields` | backend/app/modules/analytics/leaderboard.py:183 | comparing two printed timestamps compares their fields, most significant first |
| `Timestamps.InstantComparesFields` | backend/app/modules/analytics/leaderboard.py:381-390 | comparing instants, over leap years and month lengths, compares the same fields |
| `Timestamps.TextOrderIsChronological` | backend/app/modules/analytics/leaderboard.py:183 | lexicographic order of the printed UTC timestamps is chronological order (section 5.1 of RFC 3339 promises this only for equal fraction lengths) |
| `Timestamps.CreatedAtComparesInstants` | backend/app/modules/analytics/leaderboard.py:279-281 | the leaderboard's string comparison of `created_at` is comparison of instants |
| `Matrix.DimensionBuckets` | backend/app/modules/analytics/matrix.py:176-197 | the grouping loops, over sets in any order, put each attempt under exactly its keys, in order; a benchmark dimension has its bucket even without attempts |
| `Matrix.GroupRecords` | backend/app/modules/analytics/matrix.py:126-148 | the nested loops leave for every key exactly the group its contributing records build up |
| `Matrix.DimensionCells` | backend/app/modules/analytics/matrix.py:123-173 | exactly one cell per key that some record contributes to, sorted by labels |
| `Matrix.GroupHoldsCellAttempts` | backend/app/modules/analytics/matrix.py:145 | a cell holds, in order, every attempt of its column that carries its key |
| `Matrix.CellHoldsThosePlaced` | backend/app/modules/analytics/matrix.py:126-197 | an attempt is in a cell exactly when its record gives the column and the attribute that the dimension names, or its fallback, or a required capability, gives the row |
| `Matrix.CellWhereOccupied` | backend/app/modules/analytics/matrix.py:126-197 | there is a cell exactly where some record has the key as its benchmark, or some attempt of it belongs; a benchmark record has its cell even without attempts |
| `Matrix.TitleIsFirst` | backend/app/modules/analytics/matrix.py:130-144 | a cell is titled by the first record that contributes to it |
| `Matrix.DeltaClosesGap` | backend/app/modules/analytics/matrix.py:151-170 | a delta is present with both scores and is what the baseline score lacks; there is none without a baseline run |
| `Matrix.ByRunIsOwnCell` | backend/app/modules/analytics/matrix.py:146 | what a cell keeps per run is the cell built from that run's records alone |
| `Matrix.BaselineIsOwnCell` | backend/app/modules/analytics/matrix.py:152-154 | a baseline score is the score of the same cell built from the baseline run alone |
| `Matrix.EachAttemptCountedPerKey` | backend/app/modules/analytics/matrix.py:123-197 | summed over the cells, any per-attempt quantity counts once for every key the attempt carries: one key, or in the capability dimension the union of its own and the required capabilities |
| `Matrix.CellsMatchHeatmap` | backend/app/modules/analytics/matrix.py:66-87 | outside the capability dimension the sample counts, score totals and costs of the cells add up to those of the per-run heatmap |
| `Matrix.RatesAddUp` | backend/app/modules/analytics/matrix.py:200-216 | success rate and error rate are present together, exactly when there is a terminal attempt, and add up to one |
| `Matrix.RatesAreShares` | backend/app/modules/analytics/matrix.py:200-215 | over the statuses, the success rate is the share of `succeeded` and the error rate the share of `failed` among the attempts with either; absent when there is none |
| `Matrix.AveragesAreMeans` | backend/app/modules/analytics/matrix.py:200-216 | score and latency are the means, the cost is the sum and the sample count the number, over exactly the attempts with one of the two statuses that carry the field; absent when there is none |
| `Matrix.IntervalSurroundsScore` | backend/app/modules/analytics/matrix.py:206-228 | a confidence interval is present with the score, is centred on it, and contains it when it lies in [0, 1] |
| `Matrix.RunIdsAreContributors` | backend/app/modules/analytics/matrix.py:161 | a cell names exactly the runs that contribute to it |
| `Matrix.CurrencyIsCommon` | backend/app/modules/analytics/matrix.py:147-169 | a cell shows a currency exactly when it is the only one among its runs |
| `Migrations.Database.Initialize` | backend/app/db/database.py:228-263 | the two loops in one transaction leave the state of the specification; a key conflict rolls back but keeps the created tables; it returns exactly when the ledger then validates |
| `Migrations.Database.Validate` | backend/app/db/database.py:164-190 | valid exactly when the newest version is the expected one and no migration of the list is missing |
| `Migrations.BackfillListed` | backend/app/db/database.py:239-250 | stopping at the first newer version backfills exactly the listed versions up to the current one |
| `Migrations.FirstCall` | backend/app/db/database.py:228-263 | on an empty or pre-ledger database the first call backfills the old and runs the new part; it returns exactly when the database is not newer than the list |
| `Migrations.LaterCall` | backend/app/db/database.py:251-263 | with a list grown at its end a later call runs and records just the new part |
| `Migrations.HistoryRunsEachUpgradeOnce` | backend/app/db/database.py:228-263 | over every history of growing lists all calls return, the ledger ends equal to the newest list, and the upgrades run are the listed ones above the starting version |
| `Migrations.AboveIncreases` | backend/app/db/database.py:251-253 | those are each once, in increasing version order, and none at or below the starting version |
| `Migrations.RepeatChangesNothing` | backend/app/db/database.py:228-263 | from any state, for any list, repeating a committed call changes nothing |
| `Migrations.PreviewIsWhatRuns` | backend/app/db/database.py:104-114 | the preview lists exactly the upgrades that a committed call runs |
| `Migrations.CrashLosesBackfill` | backend/app/db/database.py:228-231 | after a crash between `create_all` and the transaction the next call returns exactly when there was nothing to backfill |
| `Migrations.LostForever` | backend/app/db/database.py:186-190 | a ledger row lost that way is never restored and keeps every later call from returning |
| `Migrations.CompletesExactly` | backend/app/db/database.py:228-263 | on a database with a ledger a call returns exactly when the database is not newer than the list, every migration that counts as done is recorded under its own id, and no row has the version or the id of one still to be run |
| `Migrations.ForeignRowForever` | backend/app/db/database.py:186-190 | a version recorded only under other ids keeps every call whose list has the migration from returning, now and after any call |
| `Migrations.LedgerStaysUnique` | backend/app/db/database.py:228-263 | versions and ids stay unique in the ledger through every call, whatever the list |
| `MongoMigrations.DocumentStore.Initialize` | backend/app/db/mongo.py:210-253 | the same loops without a transaction leave what the sequence of durable inserts leaves, up to the first refused one |
| `MongoMigrations.ConsistentReturns` | backend/app/db/mongo.py:210-253 | where a prefix of the list is done and recorded, a call returns and records the whole list |
| `MongoMigrations.FirstCallAgrees` | backend/app/db/mongo.py:217-248 | on a pre-ledger store the rows are those of the relational implementation |
| `MongoMigrations.LaterCallAgrees` | backend/app/db/mongo.py:230-248 | and on a store with a ledger too |
| `MongoMigrations.CrashDuringUpgrade` | backend/app/db/mongo.py:230-248 | after a crash behind k inserts the next call recovers exactly when k is even, that is, when every version row has its ledger row |
| `MongoMigrations.CrashDuringFirstCall` | backend/app/db/mongo.py:211-248 | the first call recovers exactly when moreover the backfill was finished |
| `MongoMigrations.LostRowForever` | backend/app/db/mongo.py:166-189 | otherwise no later call returns |
| `MongoMigrations.ReturnsExactly` | backend/app/db/mongo.py:210-248 | on a store with a ledger a call returns exactly when the store is not newer than the list, every migration that counts as done is recorded under its own id, and no row has the version of one still to be run |
| `MongoMigrations.ForeignRowForever` | backend/app/db/mongo.py:166-179 | a version recorded only under other ids keeps every such call from returning, now and after any call |
| `MongoMigrations.StoreStaysUnique` | backend/app/db/mongo.py:217-245 | versions stay unique in both collections through every call, also one that stops after any number of inserts |
| `Templates.MatchIsThePattern` | backend/app/modules/benchmarks/prompts.py:12 | the scanner finds a placeholder exactly where the text reads as two braces, spaces, a name, spaces, two braces; name and rest are determined |
| `Templates.ScanPrintScan` | backend/app/modules/benchmarks/prompts.py:12 | printing the scanned tokens without inner spaces and scanning again gives the same tokens |
| `Templates.SubstituteIsConcatenation` | backend/app/modules/benchmarks/prompts.py:43-48 | substitution is the single-pass concatenation of literals and values |
| `Templates.ValuesAreNotRescanned` | backend/app/modules/benchmarks/prompts.py:43-48 | a value appears verbatim, also when it contains placeholders; a name without a value leaves nothing |
| `Templates.PrintedTemplateRendersAlike` | backend/app/modules/benchmarks/prompts.py:33-48 | the normalised template validates and renders like the original |
| `Templates.NamesAreThoseThatMatter` | backend/app/modules/benchmarks/prompts.py:26 | a name is in the validated set exactly when its value can change the rendering |
| `Templates.RenderFailsOnUnsupported` | backend/app/modules/benchmarks/prompts.py:27-48 | rendering fails exactly on a scanned name that is neither allowed nor extra, and reports those names; otherwise it returns the concatenation |
| `Routing.WorkspacePath` | frontend/src/dashboard/routing.ts:50-62 | the mutated `URLSearchParams` prints the path with the non-default tab and the one valid id its view and tab allow |
| `Routing.WorkspaceRoute` | frontend/src/dashboard/routing.ts:72-108 | the search loop returns the route of the matching view, or the dashboard |
| `Routing.ParseSerialize` | frontend/src/dashboard/routing.ts:61-78 | parsing undoes serialising for names and values that need no encoding (sections 5.1 and 5.2 of the URL Standard) |
| `Routing.PartsAreRead` | frontend/src/dashboard/routing.ts:78-84 | in any query an ampersand ends a part, an empty part is skipped, the first `=` splits name and value, and a part without one has an empty value |
| `Routing.GetIsFirst` | frontend/src/dashboard/routing.ts:78-84 | the value read for a name is that of its first entry |
| `Routing.PutThenGet` | frontend/src/dashboard/routing.ts:56-60 | setting a name gives it that value and changes no other name |
| `Routing.DefaultTabIsBare` | frontend/src/dashboard/routing.ts:56-61 | the default tab is printed as the bare path |
| `Routing.OtherTabsArePrinted` | frontend/src/dashboard/routing.ts:56-61 | every other tab is printed as its parameter, followed by exactly the valid id that belongs to view and tab |
| `Routing.PrintedPathRoutesBack` | frontend/src/dashboard/routing.ts:50-97 | every printed path routes to the same view and tab, with the same query and replace = false |
| `Routing.PrintedIdsAreRead` | frontend/src/dashboard/routing.ts:82-89 | the ids read back are exactly the valid ones that were printed |
| `Routing.RoutingIsIdempotent` | frontend/src/dashboard/routing.ts:72-108 | for every pathname and search the route's own path routes to itself with replace = false |
| `Routing.RoutedViewIsTheMatch` | frontend/src/dashboard/routing.ts:73-108 | the view routed to is the one whose path the trimmed pathname is; any other pathname leads to the replaced dashboard |
| `Routing.RoutedTab` | frontend/src/dashboard/routing.ts:77-81 | the tab asked for is routed to when the view has it; a missing or unknown one leads to the first tab of the view |
| `Routing.MissingMarkIsAdded` | frontend/src/dashboard/routing.ts:77 | a search text without its question mark is routed like the one that has it |
| `Routing.ReplacedUnlessPrinted` | frontend/src/dashboard/routing.ts:90-96 | a location is replaced exactly when it is not a printed path |
| `Routing.TrailingSlashesAreDropped` | frontend/src/dashboard/routing.ts:73 | trailing slashes change nothing but ask for a replacement |
| `Routing.LegacyTabIsRenamed` | frontend/src/dashboard/routing.ts:79-81 | the former tab name leads to `quick-start` under its new name, replaced |
| `Metadata.NormalizeLanguage` | backend/app/modules/datasets/metadata.py:31-44 | the loop over the subtags returns the canonical tag, or the error of the first failing check |
| `Metadata.NormalizeLanguages` | backend/app/modules/datasets/metadata.py:29-45 | accepted exactly when every value is and at most 32 forms remain; then the strictly sorted list of exactly the forms; else the error of the first refused value |
| `Metadata.NormalizeCapabilities` | backend/app/modules/datasets/metadata.py:18-26 | the same for capabilities |
| `Metadata.BoundedCollection` | backend/app/modules/datasets/metadata.py:70-73 | at most 32 values, sorted by lower case and then text, each once |
| `Metadata.OrderAndRepeatsAreIrrelevant` | backend/app/modules/datasets/metadata.py:18-45 | inputs with the same set of values are accepted alike and give the same list |
| `Metadata.NormalisingIsIdempotent` | backend/app/modules/datasets/metadata.py:18-45 | normalising a normalised list returns it |
| `Metadata.LanguagesSettle` | backend/app/modules/datasets/metadata.py:29-45 | a canonical tag is accepted and is its own canonical form |
| `Metadata.CapabilitiesSettle` | backend/app/modules/datasets/metadata.py:18-26 | a canonical capability is accepted unchanged |
| `Metadata.LanguageAcceptedExactly` | backend/app/modules/datasets/metadata.py:31-34 | a language is accepted exactly when, stripped, it is at most 64 characters of two to eight letters and then dashed subtags of up to eight letters or digits |
| `Metadata.CapabilityAcceptedExactly` | backend/app/modules/datasets/metadata.py:20-24 | a capability is accepted exactly when, stripped, it has 1 to 64 characters, starts with a letter or digit, and has only those, underscores, dashes and white space that is no control character |
| `Metadata.CapabilityIgnoresCase` | backend/app/modules/datasets/metadata.py:21 | the letter case of a value changes neither its form nor its rejection |
| `Metadata.RunBecomesUnderscore` | backend/app/modules/datasets/metadata.py:22 | every run of white space and dashes between words becomes one underscore |
| `Metadata.ListedIgnoringCase` | backend/app/modules/datasets/metadata.py:73 | the list is in order ignoring case, and by code point where only the case differs |
| `Text.StripExactly` | backend/app/modules/datasets/metadata.py:60 | stripping removes all white space from both ends and nothing else |
| `Metadata.SameFormIffSameIgnoringCase` | backend/app/modules/datasets/metadata.py:35-44 | two accepted tags get one form exactly when they are equal ignoring case |
| `Metadata.ConventionalUnlessExceptional` | backend/app/modules/datasets/metadata.py:35-43 | the form is the formatting of section 2.1.1 of RFC 5646 exactly when no two- or four-letter subtag follows a singleton |
| `Metadata.SubtagAfterSingletonIsRaised` | backend/app/modules/datasets/metadata.py:35-43 | for every language and singleton, a two-letter subtag behind them is upper-cased, against that formatting |

## Left out

- Floating point: averages, intervals, scores and latencies are exact reals; `sqrt` is any non-negative root of its argument, and rounding is modelled only for the six decimals of the Wilson interval.
- Python's mixed-type equality (`1 == True`, `1 == 1.0`): JSON values are typed, so a merge that replaces `1` by `True` counts as an override here.
- Iteration order of dictionaries and sets: an arbitrary order is taken, so the order of `overridden_fields` within one layer and of cells with equal labels is not part of the results.
- Field paths of evidence are lists of keys; `MergeEvidence.DottedPathIsUnambiguous` says when the dotted text is equivalent. Alias paths are taken to be non-empty, as the source's own lookups of the last key are.
- The six fixed layers are any sequence of named layers, because `ProviderRegistry.request_defaults` is not part of this model.
- Values inside lists are immutable here; the source never updates them in place either.
- Failures of the database other than a duplicate key: a caller that meets one is a caller that is never scheduled again.
- Millisecond truncation of stored times: instants are integers.
- Filters of the leaderboard are one predicate on rows; the building of a row from metrics and the `accuracy` fallback are missing.
- Matrix.DimensionCells: leaves out the rounding of the reported numbers, because conservation of totals holds before rounding only; a cell's interval is `Matrix.ConfidenceInterval` of the scores it lists.
- `casefold`, percent-decoding and percent-encoding are parameters; the first is arbitrary, the others are the identity on characters that need no encoding.
- Parsing of timestamps (`fromisoformat`) and conversion to UTC: datetimes are given as UTC fields.
- Conversion of non-string metadata and labels with `str`: values arrive as strings, or as absent where the type test fails.
- `_latest_attempts` and the capability matrix: easy.
- Tables, columns, indexes and constraints: the rest of `validate_schema` is one Boolean; an upgrade is an opaque counted step; the backup before migrating and the mode argument are not modelled.
- Formatting of error messages and sorting of names inside them.
- `lower()` outside ASCII, except for the Kelvin sign, the only other character that lowers to plain ASCII; any other one makes the value malformed either way.
- Generation, code and perplexity metrics, `scatter.py`, `comparisons.py`, `dashboard.py`: they would only add easy members.
- HTTP routers, provider clients, queues, React components and string tables: input and output around the modelled logic.
