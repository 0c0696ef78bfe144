# devondb: a verified model of the executor and of DevonGrid

devondb is an embedded graph database. This project models two of its parts in
Dafny and proves that in both of them a fast form agrees with a simple one.

**The vectorized executor.** Blocking operators run under one memory budget that
may refuse any charge. `Sort` buffers, spills sorted runs and merges them back;
`Aggregate` streams, hashes typed columns with a fallback, sorts its buffer, or
merges tagged spill records. The theorems say that no pattern of refusals, no
chunking and no choice of strategy changes the answer of a successful run, and
that every operator holds exactly the charge of what it keeps; what the answers
hold is stated apart from the code, in terms of values, keys and counts. Around them:
columnar evaluation against lazy row-by-row evaluation, scalar subqueries resolved
and cached against lazy evaluation, the hash join against an ordered nested loop,
bounded heaps against the prefix of a sort, and the approximate neighbour scan
against the k best of its candidates and an exactly scanned tail.

**DevonGrid.** A 64-bit hierarchical cell index compiles a disc into ranges and
boundary cells that accept exactly the rows a naive distance filter accepts. The
aperture-7 digits of a cell are multiplication in a hexagonal lattice: coding is a
bijection and rotating digits rotates coordinates.

## How it is laid out

| part | files |
|---|---|
| values, order, budget | `Values`, `ValueOrder`, `Budget`, `Columns` |
| stable sorting and merging | `StableOrder`, `MergeSort`, `MergeProgress`, `RunMerge`, `Selection` |
| spill format and shared pieces | `SpillCodec`, `Spilling` |
| sort | `SortOperator` |
| aggregation | `AggregateStates`, `Percentile`, `Grouping`, `AggregateRecords`, `MergedGroups`, `AggregateSpill`, `AggregateRuns`, `AggregateGroups`, `AggregateMerge`, `TypedGroups`, `AggregateInputs`, `AggregateMeaning`, `AggregateOperator` |
| expressions | `ScalarOps`, `Evaluator`, `ExpressionMeaning`, `ScalarResolver`, `PlanFrame` |
| join | `JoinKeys`, `HashJoin` |
| top-k scans | `TopK`, `KnnScan`, `TextScan`, `HnswScan` |
| DevonGrid | `Octal`, `CellIndex`, `Ranges`, `Covering`, `WithinScan`, `HexPoint`, `HexLattice`, `Projection` |
| calendar | `Calendar` |

`dafny verify dfyconfig.toml` verifies everything.

## Modelling decisions

- Values that the source updates in place are class fields or loop variables;
  owned Rust structs that are moved around are datatypes. A spill run is the byte
  sequence of its file.
- `f64` and `f32` values are bit patterns. `total_cmp` is the totalOrder predicate
  of section 5.10 of IEEE 754-2008 on them; additions, means, arithmetic and
  distances are function parameters.
- A budget charge is answered arbitrarily, except that the total stays a `usize`.
- An upstream is the sequence of results it would deliver. Evaluated keys arrive
  with their rows; `Evaluator` and `ScalarResolver` say what evaluation means.
- Group keys and join keys use different equalities, as in the source: group keys
  compare raw bits, join keys drop NaN and merge the two zeros.
- Strategies may differ in which error they report and when, so the equivalences
  are about successful runs. Two differences between strategies are stated
  exactly: the typed `avg` refuses a 39-digit first decimal that the other
  strategies accept (`TypedAgreesIff`), and a spilled aggregation without
  functions cannot be read back (`DecodesIff`, `FirstReadFails`).
- A lone row whose group key has no order (bytes, for example) is grouped in
  memory without being compared, while a merge would compare it with itself and
  fail; the merge order used in proofs therefore extends the code's comparison by
  making a key equal to itself.

## Model

| member | source | states |
|---|---|---|
| `Values.CompareOrderValuesLaws` | crates/devondb-exec/src/operators.rs:3695-3732 | NULL-first order of values that may fail: swapping mirrors it, it chains through every answered pair, and Equal means identical values |
| `Values.CompareKeyTuplesLaws` | crates/devondb-exec/src/operators.rs:3685-3693 | the same laws for key tuples; two keys compare Equal only if they are the same key |
| `Values.CompareDirectedLaws` | crates/devondb-exec/src/operators.rs:1544-1560 | the mixed asc/desc comparison obeys the laws on rows with one value per sort key |
| `Values.ShortKeysBreakTheOrder` | crates/devondb-exec/src/operators.rs:1544-1560 | concrete rows with missing key values on which the zipped comparison is not transitive, so one value per key is needed |
| `ValueOrder.CompareOrderValuesMeans` | crates/devondb-exec/src/operators.rs:3695-3732 | answers exactly for comparable values, with their order: NULL first, false before true, smaller integers, instants and decimal digits first, texts by the first difference, floats as totalOrder lists their bits |
| `ValueOrder.CompareKeyTuplesMeans` | crates/devondb-exec/src/operators.rs:3685-3693 | group keys are ordered by their first differing component, or by which one ends first |
| `ValueOrder.CompareDirectedMeans` | crates/devondb-exec/src/operators.rs:1544-1560 | rows with one value per key are ordered by the first key on which they differ: the smaller value first under Asc, the larger one under Desc; Equal exactly when all keys are the same |
| `Budget.MemoryBudget.Charge` | crates/devondb-storage/src/budget.rs:63-115 | a charge is granted or refused arbitrarily and the total stays a usize; a refusal changes nothing |
| `Budget.MemoryBudget.Release` | crates/devondb-storage/src/budget.rs:123-142 | gives back exactly the bytes named |
| `StableOrder.StableSortUnique` | crates/devondb-exec/src/operators.rs:3559-3579 | a stable sort under a lawful fallible comparison has exactly one answer |
| `StableOrder.RunsCompose` | crates/devondb-exec/src/operators.rs:2411-2455 | sorting contiguous runs and then stably merging them is the stable sort of the whole input, however it was cut |
| `StableOrder.SortedRunsAscend` | crates/devondb-exec/src/operators.rs:1786-1804 | sorting each run leaves every run ascending |
| `MergeSort.MergeIndices` | crates/devondb-exec/src/operators.rs:3601-3636 | merges two sorted index slices in place into the merged listing, left first on ties; fails exactly where the pure merge does |
| `MergeSort.MergeSortIndices` | crates/devondb-exec/src/operators.rs:3581-3599 | the in-place recursive sort of an index slice computes the pure sort's listing |
| `MergeSort.MergeAscending` | crates/devondb-exec/src/operators.rs:3601-3636 | the merge of two ascending listings is ascending with ties in input order and holds exactly their positions |
| `MergeSort.SortSucceedsIffComparable` | crates/devondb-exec/src/operators.rs:3559-3636 | the fallible sort succeeds if and only if every pair of rows is comparable |
| `MergeSort.StableSortBy` | crates/devondb-exec/src/operators.rs:3559-3579 | yields the unique stable permutation, or leaves the rows untouched and reports the error of some pair; succeeds iff all pairs compare |
| `SpillCodec.DecodeEncodeRow` | crates/devondb-exec/src/operators.rs:1981-2019 | every row of well-formed values decodes back from its payload |
| `SpillCodec.ReadFramedRow` | crates/devondb-exec/src/operators.rs:1952-1979 | a framed row followed by anything reads back as the row and the rest; the reader accepts every length the writer wrote |
| `SpillCodec.ReadFramedRows` | crates/devondb-exec/src/operators.rs:2252-2287 | a run built by any accepted writes reads back as exactly those rows and then end of file |
| `SpillCodec.EncodeDecodeRow` | crates/devondb-exec/src/operators.rs:2000-2159 | any payload the decoder accepts re-encodes to the same bytes |
| `SpillCodec.SpillRowDecoder.TakeBytes` | crates/devondb-exec/src/operators.rs:2174-2184 | consumes exactly the bytes asked for or fails without moving past the end |
| `SpillCodec.SpillRowDecoder.Read` | crates/devondb-exec/src/operators.rs:2186-2228 | runs a parser on the unread bytes and keeps its rest |
| `SpillCodec.SpillRowDecoder.ReadCounted` | crates/devondb-exec/src/operators.rs:2131-2143 | reads exactly the announced number of elements, as the pure parser does |
| `SpillCodec.SpillRowDecoder.ReadBody` | crates/devondb-exec/src/operators.rs:2082-2102 | decodes a whole body and rejects trailing bytes, as the pure decoder does |
| `MergeProgress.AdvanceSound` | crates/devondb-exec/src/operators.rs:2411-2455 | emitting the first pending row keeps everything emitted in stable order and before everything pending |
| `MergeProgress.AllEmitted` | crates/devondb-exec/src/operators.rs:2411-2455 | when no run has rows left the emitted order is the stable order of all rows |
| `RunMerge.EnsureBuffered` | crates/devondb-exec/src/operators.rs:2334-2361 | fills an empty front from the run's bytes, charging every kept row; bytes the writer produced are never rejected |
| `RunMerge.ScanFindsBest` | crates/devondb-exec/src/operators.rs:2424-2447 | the scan over run fronts finds the front that precedes all others, the lowest run on ties, and fails only on an incomparable pair |
| `RunMerge.ScanFronts` | crates/devondb-exec/src/operators.rs:2424-2447 | the loop over the fronts computes that scan |
| `RunMerge.RunMerger.BestCursor` | crates/devondb-exec/src/operators.rs:2558-2583 | the chosen front precedes everything still pending; None means that all rows were emitted in stable order |
| `RunMerge.RunMerger.PopFront` | crates/devondb-exec/src/operators.rs:2367-2371 | emits the front and gives its charge back |
| `RunMerge.RunMerger.TakeNext` | crates/devondb-exec/src/operators.rs:2424-2455 | one more row of the stable order, or None at its end; charge held equals the size of the buffered fronts |
| `RunMerge.RunMerger.Drop` | crates/devondb-exec/src/operators.rs:2374-2382 | dropping a merge returns the charge of every buffered row |
| `Spilling.ChargedRows.PushCharged` | crates/devondb-exec/src/operators.rs:1669-1672 | the row is appended and the recorded charge is the sum of the rows' charges |
| `Spilling.ChargedRows.TakeRows` | crates/devondb-exec/src/operators.rs:1682-1691 | hands over all rows and returns the whole charge |
| `Spilling.WriteRun` | crates/devondb-exec/src/operators.rs:1723-1751 | the file is the concatenation of the framed rows, or the first framing error |
| `Spilling.BuildOutputChunks` | crates/devondb-exec/src/operators.rs:3734-3754 | nonempty chunks of at most the capacity whose concatenation is the rows |
| `Spilling.ValuesChargeMeans` | crates/devondb-exec/src/operators.rs:1919-1927 | a row is charged its overhead and the estimates of its values, and cannot be charged exactly when that sum leaves the address space |
| `SortOperator.SpillSortRun` | crates/devondb-exec/src/operators.rs:1786-1804 | the buffer becomes one more sorted run after the earlier ones; a failed spill keeps the accounting |
| `SortOperator.BufferRow` | crates/devondb-exec/src/operators.rs:886-893 | charge, else spill and charge again: spilled runs followed by the buffer are the input so far |
| `SortOperator.PullAll` | crates/devondb-exec/src/operators.rs:873-894 | after the upstream ends, runs and buffer together are the whole upstream in order |
| `SortOperator.Sort.Initialize` | crates/devondb-exec/src/operators.rs:873-919 | in memory or external, the operator is ready to emit the stable sort; every exit leaves the budget as it was |
| `SortOperator.Sort.NextChunk` | crates/devondb-exec/src/operators.rs:922-939 | chunks are nonempty, emitted rows only grow, None means the whole stable sort was emitted, a latched failure is replayed |
| `SortOperator.Sort.Collect` | crates/devondb-exec/src/operators.rs:844-939 | for every pattern of refused charges, a successful run returns exactly the rows of the upstream by their sort keys, Desc keys descending, and then in input order; it then has seen no upstream failure and only orderable keys; without such a cause it can only fail with BudgetExceeded |
| `SortOperator.StableSortMeans` | crates/devondb-exec/src/operators.rs:3559-3579 | being the stable sort is the same as listing exactly the rows by their keys in each key's direction, ties in input order |
| `SortOperator.SortChargeMeans` | crates/devondb-exec/src/operators.rs:1919-1927 | a buffered row is charged its overhead and the estimates of its values and its keys |
| `SortOperator.Sort.Drop` | crates/devondb-exec/src/operators.rs:2374-2382 | dropping the operator returns everything it still holds |
| `SortOperator.RefusalsAreInvisible` | crates/devondb-exec/src/operators.rs:844-939 | two successful runs over one upstream emit the same rows whichever charges were refused |
| `SortOperator.SortComparatorLawful` | crates/devondb-exec/src/operators.rs:1544-1560 | the sort order is lawful on rows of the declared widths |
| `SortOperator.SortFormatFaithful` | crates/devondb-exec/src/operators.rs:2458-2474 | every spilled sort row reads back as itself |
| `AggregateStates.TypedAgreesIff` | crates/devondb-exec/src/operators.rs:3118-3429 | typed accumulators agree with the untyped ones if and only if the input is not a 39-digit decimal opening an average; a typed success is always the untyped success |
| `AggregateStates.TypedAverageDiffers` | crates/devondb-exec/src/operators.rs:3234-3248 | 10^38 as first input of avg: refused by the typed accumulator, accepted by the untyped one |
| `AggregateStates.ExactMeanIsExact` | crates/devondb-exec/src/operators.rs:3540-3557 | the interpolated mean exists exactly when the parities agree, is exact, and no intermediate sum leaves i128 |
| `Percentile.FoldValuesIff` | crates/devondb-exec/src/operators.rs:2930-2970 | once n values are announced, feeding at most n of them fails exactly when two scales differ, and retains the values at the two middle ranks |
| `Percentile.CountThenValues` | crates/devondb-exec/src/operators.rs:2819-2840 | announcing all values and feeding them ascending reaches the two middle order statistics |
| `Percentile.FinishedMedian` | crates/devondb-exec/src/operators.rs:3488-3557 | the finished percentile is NULL for no values and else exactly half the sum of the two middle order statistics, said by counting |
| `Percentile.AscendingArrangement` | crates/devondb-exec/src/operators.rs:2890-2904 | decimals of one scale have one ascending arrangement, so an unstable sort cannot matter |
| `AggregateRecords.DecodesIff` | crates/devondb-exec/src/operators.rs:2623-2703 | a spilled record decodes back if and only if it is not an input record of an aggregation without functions |
| `AggregateRecords.DistinctRunUnreadable` | crates/devondb-exec/src/operators.rs:2628-2635 | the first row spilled by an aggregation without functions is read back as corruption |
| `AggregateRecords.AggregateFormatFaithful` | crates/devondb-exec/src/operators.rs:1827-1834 | with at least one function every spilled record reads back |
| `AggregateRecords.RecordChargeMeans` | crates/devondb-exec/src/operators.rs:1919-1927 | a record is charged its overhead and the estimates of its key and of what it carries |
| `AggregateRecords.RecordOrderLaws` | crates/devondb-exec/src/operators.rs:2594-2621 | keys, then inputs, counts and values of each percentile, then digits: a lawful order |
| `AggregateRecords.RecordsExtend` | crates/devondb-exec/src/operators.rs:2594-2621 | that order agrees with compare_aggregate_records whenever the code's comparison answers |
| `AggregateRecords.UpdateStates` | crates/devondb-exec/src/operators.rs:2711-2737 | every state is updated as seen from its own index; an error is some state's error or an index out of range |
| `MergedGroups.MergedPercentile` | crates/devondb-exec/src/operators.rs:2916-2970 | in every merged group all counts precede the first value, values ascend, the fold fails exactly on differing scales, and it reaches the column's median state |
| `MergedGroups.MergedState` | crates/devondb-exec/src/operators.rs:2517-2546 | whatever the runs, a merged group's records bring each aggregate to the state of folding its column in input order |
| `MergedGroups.RepresentsAppend` | crates/devondb-exec/src/operators.rs:1806-1825 | spilling one batch after another represents their concatenation |
| `MergedGroups.PlainFold` | crates/devondb-exec/src/operators.rs:2711-2737 | a plain aggregate sees exactly the input records, in order |
| `AggregateSpill.ValidatePercentile` | crates/devondb-exec/src/operators.rs:2842-2876 | accepts exactly the columns of NULLs and decimals of one scale |
| `AggregateSpill.WritePercentileGroup` | crates/devondb-exec/src/operators.rs:1856-1880 | one count record holding the number of values, then the values |
| `AggregateSpill.PercentileRun` | crates/devondb-exec/src/operators.rs:1836-1854 | the generated run is ascending in merge order and holds, group by group, exactly the counted values |
| `AggregateRuns.SpillPercentileRun` | crates/devondb-exec/src/operators.rs:1836-1854 | appends the run of one percentile and completes what the batch's records say about it |
| `AggregateRuns.SpillAggregateRun` | crates/devondb-exec/src/operators.rs:1806-1825 | the files then represent the earlier inputs followed by the buffer, and the charge is back |
| `Grouping.GroupEnd` | crates/devondb-exec/src/operators.rs:2769-2777 | the longest stretch of equal keys from the start |
| `Grouping.SliceIsGroup` | crates/devondb-exec/src/operators.rs:2739-2767 | in a key-sorted sequence a maximal stretch of equal keys is the whole group |
| `Grouping.AnswerUnique` | crates/devondb-exec/src/operators.rs:2739-2767 | a grouping has one answer: one row per key, ascending, each over its items in input order |
| `AggregateGroups.InMemoryPercentile` | crates/devondb-exec/src/operators.rs:2819-2840 | sorting the group, counting and feeding reaches the median state of the column |
| `AggregateGroups.AggregateGroup` | crates/devondb-exec/src/operators.rs:2779-2797 | the finished row is the group's answer over its rows in input order |
| `AggregateGroups.AggregateSorted` | crates/devondb-exec/src/operators.rs:2739-2767 | over rows sorted by key the output is the answer of the grouping, with one row for no input and no grouping |
| `AggregateGroups.FinishStates` | crates/devondb-exec/src/operators.rs:3431-3449 | finishes every state at its own output type, or reports a width mismatch |
| `AggregateMerges.AggregateMerge.NextGroup` | crates/devondb-exec/src/operators.rs:2517-2546 | pulls one whole group and emits its finished row; None means that everything was pulled in stable order |
| `AggregateMerges.AggregateMerge.NextChunk` | crates/devondb-exec/src/operators.rs:2504-2515 | nonempty chunks of finished groups, accounting for every buffered front |
| `AggregateMerges.MergeAnswers` | crates/devondb-exec/src/operators.rs:2476-2584 | the groups pulled from a complete merge are the answer over the inputs the runs were spilled from |
| `TypedGroups.BoxKeyInjective` | crates/devondb-exec/src/operators.rs:1415-1474 | two typed keys are one hash key exactly when they box to one group key; floats by their bits |
| `TypedGroups.AssignGroups` | crates/devondb-exec/src/operators.rs:1375-1396 | every row finds or opens the group of its key and the table finds exactly the keys seen |
| `TypedGroups.FoldTypedColumn` | crates/devondb-exec/src/operators.rs:3032-3116 | one state of every row's group folded row by row, all other states untouched |
| `TypedGroups.AppendTypedChunk` | crates/devondb-exec/src/operators.rs:1375-1405 | after a chunk every group's states are the folds over all rows seen, in input order |
| `TypedGroups.FinishTypedGroups` | crates/devondb-exec/src/operators.rs:1490-1509 | sorting and finishing the hash groups gives the answer of the grouping |
| `AggregateInputs.Streaming` | crates/devondb-exec/src/operators.rs:1004-1025 | one pass without grouping gives the answer, one row even for no input |
| `AggregateInputs.UpdateStreaming` | crates/devondb-exec/src/operators.rs:1592-1633 | one chunk folded into every state, typed columns directly and other expressions materialized |
| `AggregateOperator.LayoutReads` | crates/devondb-exec/src/operators.rs:1288-1330 | on a supported chunk the typed columns hold exactly the evaluated inputs |
| `AggregateOperator.TypedStrategy` | crates/devondb-exec/src/operators.rs:1038-1069 | either the answer with the whole upstream pulled, or the fallback with exactly the chunks pulled so far; on every exit the charge is back |
| `AggregateOperator.BufferAll` | crates/devondb-exec/src/operators.rs:1071-1079 | buffers the handed-over chunks, which are the ones already pulled, and then the upstream from that position, so that every chunk enters runs and buffer exactly once |
| `AggregateOperator.BufferRow` | crates/devondb-exec/src/operators.rs:1108-1129 | charge, else spill and charge again: spilled inputs followed by the buffer are the input so far |
| `AggregateOperator.FinishBuffered` | crates/devondb-exec/src/operators.rs:1081-1096 | the in-memory buffered strategy gives the answer |
| `AggregateOperator.TypedAggregateCharge.TryGrow` | crates/devondb-exec/src/operators.rs:1254-1263 | grows by the bytes granted and by nothing else |
| `AggregateOperator.Aggregate.Initialize` | crates/devondb-exec/src/operators.rs:991-1129 | whichever strategy runs, the operator is ready to emit the answer with the whole upstream pulled, or the failure is latched; every exit leaves the budget as it was |
| `AggregateOperator.Aggregate.NextChunk` | crates/devondb-exec/src/operators.rs:1132-1156 | emitted rows only grow by nonempty chunks, None means exactly the answer was emitted, failures of initialization are replayed and the upstream is not pulled again |
| `AggregateRuns.FirstReadFails` | crates/devondb-exec/src/operators.rs:2628-2635 | whatever an aggregation without functions spilled, reading its first run is the corruption that next_chunk reports |
| `AggregateOperator.Aggregate.Collect` | crates/devondb-exec/src/operators.rs:942-1156 | a successful run returns exactly the answer over the whole upstream for every strategy, chunking and pattern of refusals: one row for every key that occurs, smaller keys first, holding the key and what each aggregate is over that group; what is still charged is what is still held |
| `AggregateMeaning.ColumnMeans` | crates/devondb-exec/src/operators.rs:3451-3490 | a finished aggregate is what its name says: count the number of values that are not NULL, sum their arithmetic sum, min and max one of them before or after all others, avg the mean operator on that sum and number, percentile_cont the exact median; NULL for no values |
| `AggregateMeaning.ColumnSucceedsIff` | crates/devondb-exec/src/operators.rs:3365-3382 | an aggregate other than a percentile fails exactly when the values do not fit together: count beyond i64, a running total outside i64 or 38 digits, mixed types or scales, incomparable values |
| `AggregateMeaning.FoldMeans` | crates/devondb-exec/src/operators.rs:2972-2984 | folding a column succeeds exactly when the column can be folded, and the state holds that count, sum or extreme |
| `AggregateMeaning.AnswerMeans` | crates/devondb-exec/src/operators.rs:3431-3470 | an answer of the aggregation lists every occurring key once, in key order, with the meaning of every aggregate over its group |
| `AggregateMeaning.DigitsFit` | crates/devondb-types/src/decimal.rs:60-79 | a number has at most p digits exactly when it lies below the p-th power of ten |
| `AggregateOperator.Aggregate.Drop` | crates/devondb-exec/src/operators.rs:2374-2382 | dropping the operator returns everything it still holds |
| `AggregateOperator.StrategiesAgree` | crates/devondb-exec/src/operators.rs:991-1129 | two successful runs return the same rows whichever strategies ran |
| `AggregateOperator.ChunkingIsInvisible` | crates/devondb-exec/src/operators.rs:991-1129 | how the upstream cuts its rows into chunks does not change the answer |
| `ScalarOps.KleeneIsUnknownTruth` | crates/devondb-exec/src/eval.rs:724-748 | `and` and `or` answer exactly when every way of filling in the unknowns gives that answer |
| `ScalarOps.FloatTrichotomy` | crates/devondb-exec/src/eval.rs:639-649 | on non-NaN bit patterns exactly one of less, equal and greater holds, with equal zeros |
| `ScalarOps.DateTruncIsFloor` | crates/devondb-exec/src/eval.rs:422-441 | the latest day start not after the instant; fails exactly in the first partial day of the Timestamp domain |
| `ScalarOps.DateAddMeans` | crates/devondb-exec/src/eval.rs:460-483 | adding days moves an instant by that many times 86400 seconds, and fails exactly when the shift or the result leaves the Timestamp domain |
| `ScalarOps.TruncCommutesWithAdd` | crates/devondb-exec/src/eval.rs:460-483 | truncating and adding days give the same outcome in either order, value or failure, if and only if the instant is not moved across an edge of the Timestamp domain; at the edges exactly one order succeeds |
| `Evaluator.EvaluateSelected` | crates/devondb-exec/src/eval.rs:44-96 | succeeds if and only if every selected row succeeds row by row (for no rows: if and only if columns and operand counts outside lazy positions are fine); position i then holds row i's value |
| `Evaluator.EvaluateColumn` | crates/devondb-exec/src/eval.rs:165-190 | the same for a column reference |
| `Evaluator.EvaluateIf` | crates/devondb-exec/src/eval.rs:238-284 | the same for `if`; a branch is evaluated on the rows that choose it only |
| `Evaluator.EvaluateBranch` | crates/devondb-exec/src/eval.rs:286-302 | a branch nobody chose is not evaluated; otherwise its values land on its positions and nowhere else |
| `Evaluator.EvaluateCoalesce` | crates/devondb-exec/src/eval.rs:304-334 | the same for `coalesce`; an operand is evaluated on the rows still without a value only |
| `Evaluator.EvaluateExtreme` | crates/devondb-exec/src/eval.rs:336-364 | the same for least and greatest, which stay eager and skip NULL |
| `Evaluator.Evaluate` | crates/devondb-exec/src/eval.rs:35-42 | over all rows of a chunk: one value per row, the lazy row value |
| `Evaluator.ConnectivesAreUnknownTruth` | crates/devondb-exec/src/eval.rs:724-748 | with the engine's operators, a column of `and` or `or` is true or false exactly where every completion of its operands' unknowns is |
| `Evaluator.TruncMovesInward` | crates/devondb-exec/src/eval.rs:422-483 | moving date_trunc inside date_add keeps the outcome of a row if and only if no edge of the Timestamp domain is crossed |
| `ExpressionMeaning.CompareMeans` | crates/devondb-exec/src/eval.rs:607-708 | a comparison is NULL when a side is NULL, true exactly when the operands stand in that relation (integers, instants, booleans and decimals at one scale by value, texts by the first difference, floats by sign and magnitude with NaN answering only `!=`), and fails exactly for operands without an order |
| `ExpressionMeaning.ComparisonColumnMeans` | crates/devondb-exec/src/eval.rs:192-207 | every value of an evaluated comparison column is that of its row's operands |
| `ExpressionMeaning.ArithmeticColumnMeans` | crates/devondb-exec/src/eval.rs:761-775 | every value of an evaluated arithmetic column is NULL for a NULL operand and else the numeric operator's result |
| `ExpressionMeaning.NotMeans` | crates/devondb-exec/src/eval.rs:750-759 | `not` answers exactly when every way of filling in the unknown does |
| `ExpressionMeaning.NotColumnMeans` | crates/devondb-exec/src/eval.rs:209-236 | every value of an evaluated `not` column is decided that way by its operand |
| `ExpressionMeaning.ExtremeColumnMeans` | crates/devondb-exec/src/eval.rs:336-380 | every value of an evaluated least or greatest column is one of its row's operand values, before or after all others, NULL only when all of them are |
| `ScalarResolver.EvalStable` | crates/devondb-exec/src/operators.rs:637-678 | pushing subquery results as columns does not change the value of an expression whose references are columns of the row or no temporary names |
| `ScalarResolver.TempNameCaptured` | crates/devondb-exec/src/operators.rs:662-678 | a reference to a temporary name, unknown in the row, gains a value once a result is pushed, so equality with lazy evaluation must exclude such references |
| `ScalarResolver.PushScalar` | crates/devondb-exec/src/operators.rs:662-678 | the result becomes a column under a name not yet taken; every other column is unchanged, whatever the column map says |
| `ScalarResolver.OneRunServesAll` | crates/devondb-exec/src/operators.rs:560-608 | a plan judged free of outer references gives, run once without an outer row and checked against its output type, the value it gives under every outer row |
| `ScalarResolver.RunScalarMeans` | crates/devondb-exec/src/operators.rs:584-608 | a subquery has a value exactly when it runs to at most one row of the declared type: that row's value, or NULL |
| `ScalarResolver.OuterIsTheRow` | crates/devondb-exec/src/operators.rs:680-697 | a subquery sees exactly the named columns of its row, with the row's values |
| `ScalarResolver.ScalarExpressions.ScalarValue` | crates/devondb-exec/src/operators.rs:560-608 | cached or executed, the value is that of running the plan under the row's own columns: NULL for no row, an error for two rows or a value outside the declared type |
| `ScalarResolver.ScalarExpressions.TryCache` | crates/devondb-exec/src/operators.rs:610-627 | a refused charge only means that nothing is cached; the cached charge is the size of the cached values |
| `ScalarResolver.ScalarExpressions.ResolveRow` | crates/devondb-exec/src/operators.rs:455-477 | keeps the row's own columns; unless a reference can be captured, the resolved expression has the lazy value of the original and only subqueries that lazy evaluation reaches were executed |
| `ScalarResolver.ScalarExpressions.ResolveIf` | crates/devondb-exec/src/operators.rs:459-473 | the same for `if`: the branch not chosen is not resolved |
| `ScalarResolver.ScalarExpressions.ResolveCoalesce` | crates/devondb-exec/src/operators.rs:530-547 | the same for `coalesce`: operands after the first value are not resolved |
| `ScalarResolver.ScalarExpressions.ResolveExtreme` | crates/devondb-exec/src/operators.rs:549-558 | the same for least and greatest through resolve_all |
| `ScalarResolver.ScalarExpressions.EvaluateRow` | crates/devondb-exec/src/operators.rs:443-453 | for every row and column map: unless a reference can be captured, resolving and then evaluating equals lazy evaluation with every subquery run under the row's own columns, and every executed subquery is one that lazy evaluation reaches |
| `ScalarResolver.ScalarExpressions.EvaluateChunk` | crates/devondb-exec/src/operators.rs:429-441 | columnar or row by row, every row gets its lazy value; a failure is some row's lazy failure, or for no rows one of the expression; every executed subquery is reached by some row, and none is executed when the expression holds none |
| `ScalarResolver.ScalarExpressions.Drop` | crates/devondb-exec/src/operators.rs:629-635 | dropping the resolver returns the cache's charge |
| `PlanFrame.PlanFramed` | crates/devondb-exec/src/operators.rs:733-827 | a plan that names nothing of the outer row gives the same rows under any two outer rows |
| `PlanFrame.CachingIsSound` | crates/devondb-exec/src/operators.rs:560-608 | a plan free of outer references, run once without an outer row, gives what it would give under every outer row |
| `JoinKeys.ColumnHashAgrees` | crates/devondb-exec/src/join.rs:454-497 | the key read from a typed column is the key of the materialized value |
| `Columns.ValueAtMeans` | crates/devondb-types/src/column.rs:214-240 | a typed column holds NULL exactly where its bitmap has no bit, and else the row's number under the column's type |
| `JoinKeys.HashMeansEqual` | crates/devondb-exec/src/join.rs:499-528 | two values share a hash key exactly when eq is true, except for an integer meeting an equal float; NaN meets nothing, the zeros meet |
| `JoinKeys.KeysMeanEqual` | crates/devondb-exec/src/join.rs:393-418 | two key tuples of one width meet exactly when every component's eq is true |
| `HashJoins.BuildTable.Insert` | crates/devondb-exec/src/join.rs:307-326 | the row joins its bucket in insertion order after its charge was granted; the charge is the sum of the rows' charges |
| `HashJoins.AppendBuildChunk` | crates/devondb-exec/src/join.rs:270-286 | every bucket holds the right rows with its key, in right order; rows without a key are skipped |
| `HashJoins.BuildRowChargeMeans` | crates/devondb-exec/src/join.rs:530-539 | a built row is charged its overhead and the estimates of its values and its keys |
| `HashJoins.MatchesByHash` | crates/devondb-exec/src/join.rs:130-185 | probing by hash key finds exactly the rows whose keys are equal |
| `HashJoins.NextProbeRow` | crates/devondb-exec/src/join.rs:113-128 | the next left row becomes pending without losing or adding output, or the left side is exhausted |
| `HashJoins.TakePendingOutput` | crates/devondb-exec/src/join.rs:130-185 | emits exactly the next owed row: a match, or the padding of a left row that found none |
| `HashJoins.FillChunk` | crates/devondb-exec/src/join.rs:203-219 | a full chunk, or all that was left |
| `HashJoins.HashJoin.Initialize` | crates/devondb-exec/src/join.rs:95-111 | the table represents the whole right side; a failed build gives its charge back and is a refused charge unless the right side itself is at fault |
| `HashJoins.HashJoin.NextChunk` | crates/devondb-exec/src/join.rs:195-220 | never an empty chunk; None only when exactly the nested loop's output was emitted |
| `HashJoins.HashJoin.Collect` | crates/devondb-exec/src/join.rs:44-220 | a successful run is the join: left rows in order, each paired with every right row whose keys are all equal, in right order; a left row without one is kept once with NULL in every right column in a left join, and dropped in an inner one; without a cause in the inputs it can only fail with BudgetExceeded; after any run the join can be dropped and holds exactly what is charged |
| `HashJoins.NestedLoopMeans` | crates/devondb-exec/src/join.rs:130-185 | the ordered nested loop is that join, pair by pair and padding by padding |
| `HashJoins.HashJoin.Drop` | crates/devondb-exec/src/join.rs:337-341 | dropping the join returns what its table still holds |
| `TopK.HeapHoldsFirstK` | crates/devondb-exec/src/knn.rs:217-269 | one step of a bounded heap keeps the first k of the stably sorted input |
| `TopK.SortedInOrder` | crates/devondb-exec/src/knn.rs:279-297 | the sorted sequence is in order |
| `TopK.FirstKAreBest` | crates/devondb-exec/src/knn.rs:217-269 | nothing left out is better than anything kept |
| `TopK.FirstKMeans` | crates/devondb-exec/src/knn.rs:217-269 | the first k in order are all of the sequence, in order, and whatever is left out is not better than anything kept |
| `KnnScans.KnnScan.RetainCandidate` | crates/devondb-exec/src/knn.rs:218-268 | the heap step, with the charge equal to the size of what is retained on every exit |
| `KnnScans.KnnScan.ScanRow` | crates/devondb-exec/src/knn.rs:94-116 | one more row keeps the heap at the k nearest rows so far, NULL vectors skipped |
| `KnnScans.KnnScan.Initialize` | crates/devondb-exec/src/knn.rs:73-92 | k rows with vectors, nearest first by the bits of their distances and ties in row order; a row with a vector is missing only if k rows come before it; for every chunking; fails only with BudgetExceeded unless the upstream or a row is at fault |
| `KnnScans.CloserMeans` | crates/devondb-exec/src/knn.rs:186-192 | a candidate comes first when its distance does, negative ones first and others by their bits, or at one distance when its row does |
| `KnnScans.RowChargeMeans` | crates/devondb-exec/src/knn.rs:271-277 | a retained row is charged the estimates of its values |
| `KnnScans.NearestMeans` | crates/devondb-exec/src/knn.rs:73-116 | the selection holds rows with their distances, in that order, and misses no nearer row |
| `KnnScans.KnnScan.NextChunk` | crates/devondb-exec/src/knn.rs:149-157 | chunks come out front first |
| `KnnScans.KnnScan.Drop` | crates/devondb-exec/src/knn.rs:165-169 | dropping the scan returns the charge of its retained rows |
| `TextScans.Reservation.Resize` | crates/devondb-exec/src/fulltext.rs:21-37 | the budget moves by exactly the change; a refusal changes nothing; shrinking never fails |
| `TextScans.TextScan.Consider` | crates/devondb-exec/src/fulltext.rs:107-160 | the heap step by (score descending, key ascending), the reservation three times the retained bytes |
| `TextScans.TextScan.Initialize` | crates/devondb-exec/src/fulltext.rs:89-105 | k matching rows, highest score first and equal scores by key; a matching row is missing only if k rows outrank it; fails only with BudgetExceeded unless the upstream or a row is at fault |
| `TextScans.BestMeans` | crates/devondb-exec/src/fulltext.rs:195-215 | the selection holds matching rows with their scores in that order and misses no row that outranks one it keeps |
| `TextScans.TextScan.NextRow` | crates/devondb-exec/src/fulltext.rs:162-180 | rows come out best first |
| `TextScans.TextScan.Drop` | crates/devondb-exec/src/fulltext.rs:39-43 | dropping the scan returns both reservations |
| `HnswScans.UnionAndSelect` | crates/devondb-exec/src/hnsw.rs:431-460 | the k best of the candidates by (distance, offset), no offset twice, each the closest with its offset |
| `HnswScans.BestKUnique` | crates/devondb-exec/src/hnsw.rs:431-460 | the k best are determined: two answers agree in every offset and distance |
| `HnswScans.NearerMeans` | crates/devondb-exec/src/hnsw.rs:456-460 | a node comes first when its distance does, or at one distance when its offset does |
| `HnswScans.BestKMeans` | crates/devondb-exec/src/hnsw.rs:431-460 | the k best in those terms: in order, no offset twice, each the nearest with its offset, and an offset missing only if k nodes come before it |
| `HnswScans.TailCutLosesNothing` | crates/devondb-exec/src/hnsw.rs:355-367 | cutting the tail to its own k best before the union does not change the k best of the union |
| `HnswScans.Materialize` | crates/devondb-exec/src/hnsw.rs:225-252 | on success every candidate carries the snapshot's row at its offset, except one repeated later, where the later one does; a candidate never found is corruption |
| `HnswScans.Rescore` | crates/devondb-exec/src/hnsw.rs:524-548 | every candidate carries its row and that row's exact distance, or the run fails |
| `HnswScans.TailIsCut` | crates/devondb-exec/src/hnsw.rs:355-367 | the exact scan of the tail yields the k best tail rows at their offsets |
| `HnswScans.TailNodesMean` | crates/devondb-exec/src/hnsw.rs:355-367 | the tail nodes are exactly the tail rows with a vector, at their places after the covered rows |
| `HnswScans.IndexedCandidates` | crates/devondb-exec/src/hnsw.rs:190-210 | exactly the k nearest search hits, each with its row and exact distance |
| `HnswScans.HitsUnique` | crates/devondb-exec/src/hnsw.rs:190-210 | a plan has one list of rescored hits |
| `HnswScans.AnnAnswerUnique` | crates/devondb-exec/src/hnsw.rs:133-188 | an attempt has one answer: every successful one lists the same offsets at the same distances in the same order |
| `HnswScans.HnswScan.TryAnn` | crates/devondb-exec/src/hnsw.rs:133-188 | the k best of exactly the k nearest search hits, rescored, together with every non-NULL tail row; a failed attempt gives its charge back, and a refused charge fails it with BudgetExceeded |
| `HnswScans.HnswScan.Initialize` | crates/devondb-exec/src/hnsw.rs:98-131 | the exact answer is returned exactly when no attempt was made or the attempt exceeded the budget; otherwise the result is the attempt's own |
| `Octal.PrefixInterval` | crates/devondb-geo/src/index.rs:124-134 | the words with a given digit prefix are exactly an interval |
| `CellIndex.SpellRoundTrip` | crates/devondb-geo/src/index.rs:36-84 | the fields of a cell's word are the cell |
| `CellIndex.SpellInjective` | crates/devondb-geo/src/index.rs:138-148 | two cells have one word only if they are one cell |
| `CellIndex.ValidIffIndex` | crates/devondb-geo/src/index.rs:150-219 | the validators' conditions hold exactly of the words of cells |
| `CellIndex.TryFrom` | crates/devondb-geo/src/index.rs:150-219 | accepts exactly the words of valid cells, pentagons included |
| `CellIndex.TruncateRaw` | crates/devondb-geo/src/index.rs:244-250 | the word of the ancestor at that resolution |
| `CellIndex.AtomRange` | crates/devondb-geo/src/index.rs:124-134 | the lowest and highest atom words under the cell |
| `CellIndex.AtomRangeExact` | crates/devondb-geo/src/index.rs:124-134 | an atom's word lies in the range if and only if truncating the atom gives the cell |
| `CellIndex.Child` | crates/devondb-geo/src/covering.rs:210-216 | succeeds exactly on the digits refinement visits and is then the child cell |
| `Covering.ChildrenExact` | crates/devondb-geo/src/covering.rs:190-208 | the children refinement visits are exactly the valid cells whose parent is the cell |
| `Covering.ExactlyOneStop` | crates/devondb-geo/src/covering.rs:169-188 | every atom has exactly one ancestor that refinement classifies as full, outside or boundary |
| `Covering.CoverBuilder.RefineCell` | crates/devondb-geo/src/covering.rs:169-188 | adds exactly the full ranges and boundary cells of the atoms under the cell |
| `Covering.CoverBuilder.RefineChildren` | crates/devondb-geo/src/covering.rs:190-203 | the same for all children of a cell |
| `Covering.BaseCellIndex` | crates/devondb-geo/src/covering.rs:165-167 | the word of a base cell |
| `Covering.CoverDisc` | crates/devondb-geo/src/covering.rs:112-134 | full ranges hold exactly the atoms settled as full, the boundary lists exactly the boundary cells |
| `Ranges.MergeRanges` | crates/devondb-geo/src/covering.rs:218-230 | in place: sorted, disjoint, non-adjacent, with the same union, also at the maximum u64 |
| `Ranges.RangeContains` | crates/devondb-exec/src/within.rs:197-200 | binary search on merged ranges is membership in some range |
| `Ranges.NormalUnique` | crates/devondb-geo/src/covering.rs:218-230 | a union of ranges has one merged form |
| `WithinScan.VerdictIsSound` | crates/devondb-exec/src/within.rs:99-141 | a full atom lies within the radius and an outside one does not, given the cell bounds and the triangle inequality |
| `WithinScan.VerdictIsTight` | crates/devondb-exec/src/within.rs:99-141 | an atom that is not pruned lies within two cell bounds of the disc, one that is not settled as full within two of its rim |
| `WithinScan.WithinScan.RowMatches` | crates/devondb-exec/src/within.rs:99-141 | a non-NULL row is accepted if and only if its distance to the center is at most the radius |
| `WithinScan.WithinScan.FilterChunk` | crates/devondb-exec/src/within.rs:71-80 | a chunk is filtered exactly as the naive distance filter does |
| `WithinScan.WithinScan.NextChunk` | crates/devondb-exec/src/within.rs:171-183 | what is returned and what is left make up the naive filter of what was left before; never an empty chunk, None only at the end, an error only if the upstream fails or a value is no point |
| `WithinScan.WithinScan.Collect` | crates/devondb-exec/src/within.rs:171-183 | succeeds if and only if nothing upstream fails and the point column holds only points and NULLs, and then returns exactly the naive filter of the whole upstream |
| `WithinScan.NewWithinScan` | crates/devondb-exec/src/within.rs:143-148 | compiles the covering at the chosen resolution for every positive radius |
| `WithinScan.CoveringResolutionMeans` | crates/devondb-exec/src/within.rs:190-195 | the coarsest resolution whose bound is at most the radius, or the finest one |
| `WithinScan.PossiblyMatchingRanges` | crates/devondb-exec/src/within.rs:150-155 | merged ranges holding exactly the atoms not settled as outside |
| `HexLattice.RotationGroup` | crates/devondb-geo/src/coordijk.rs:75-89 | clockwise and counterclockwise rotation are inverse and have order six |
| `HexLattice.StepHasDigit` | crates/devondb-geo/src/coordijk.rs:65-71 | after going up a level the remainder is always a unit digit |
| `HexLattice.StepRoundTrip` | crates/devondb-geo/src/coordijk.rs:98-135 | one level down and up again gives the digit and the coordinate |
| `HexLattice.DecodeEncode` | crates/devondb-geo/src/projection.rs:394-419 | encoding any coordinate finds all digits and decodes back to it |
| `HexLattice.EncodeDecode` | crates/devondb-geo/src/projection.rs:461-475 | decoding any digit string from any start and encoding returns the digits and the normalized start |
| `HexLattice.RotateDigitTables` | crates/devondb-geo/src/projection.rs:724-738 | the digit tables rotate the unit vectors and undo each other |
| `HexLattice.RotationHomomorphism` | crates/devondb-geo/src/projection.rs:702-738 | rotating every digit rotates the decoded coordinate, in both directions |
| `Projection.DirectionsFromIjk` | crates/devondb-geo/src/projection.rs:394-419 | never fails, and writes exactly the digits that decode back to the coordinate |
| `Projection.FaceIjkFromBits` | crates/devondb-geo/src/projection.rs:461-475 | reads the coordinate the word's digits decode to |
| `Projection.WordRoundTrip` | crates/devondb-geo/src/projection.rs:394-475 | writing a coordinate into a word and reading it back gives the coordinate |
| `Projection.RotateBits` | crates/devondb-geo/src/projection.rs:702-722 | every active digit is turned, header and unused digits untouched |
| `Projection.RotatedWordDecodes` | crates/devondb-geo/src/projection.rs:702-738 | turning a word's digits any number of times rotates its coordinate as often |
| `Projection.RotateThereAndBack` | crates/devondb-geo/src/projection.rs:702-722 | rotating one way and back gives the same word |
| `Calendar.NextMonthStart` | crates/devondb-nl/src/compiler.rs:904-925 | the next month starts this month's length later, under the 4/100/400 leap rule |
| `Calendar.ClosedFormCounts` | crates/devondb-nl/src/compiler.rs:912-925 | the closed form is the day count of the calendar for every month of every year, with January 1970 at zero |
| `Calendar.NeverOverflows` | crates/devondb-nl/src/compiler.rs:912-925 | no i32 year leaves the Int64 seconds |
| `Calendar.BoundsExist` | crates/devondb-nl/src/compiler.rs:848-882 | a month range has bounds exactly for the years 1 to 9999 and a start not after its end |
| `Calendar.MonthsTile` | crates/devondb-nl/src/compiler.rs:848-882 | an instant lies in a month range exactly when it lies in one of its months, and never in two |
| `Calendar.BoundsMean` | crates/devondb-nl/src/compiler.rs:848-911 | the bounds are the midnights of the first day of the first month and of the day after the last month, by the calendar's own day count |

## Left out

- Temporary files, their names, retries and removal: a run is a byte sequence.
- SIMD and trigonometric kernels, the projection of points to faces, face overage
  and the base-cell tables: distances, centers and atoms are parameters with the
  stated bounds.
- HNSW graph search and BM25 scoring: parameters; the inputs of these scans are
  what they return. Subquery plans are run by a recursive meaning in which what an
  operator makes of its inputs and expressions is a parameter.
- Decimal and integer arithmetic operators, `round`, `round_div`, `classof`,
  `scoreof`: arithmetic is a parameter of the evaluator, the others would add
  cases of the same shape.
- Output type checks of chunk builders and schema checks between chunks.
- Resolution of column names for aggregates and joins: operands are column numbers
  or given evaluations; name folding happens before the model.
- What operators return when pulled again after an error, except for the latched
  initialization errors of Sort and Aggregate.
- Counters that would have to reach 2^64 rows (row order, node offset, temporary
  columns) are unbounded, apart from the temporary-column counter, whose overflow
  is reported through a ghost flag.
- Expand, ExpandRel, Limit, Filter, Project, ScanInterface: the pull pattern of the
  join with less state.
- Natural-language templates, text emission, command line and language bindings.
- AggregateOperator.Aggregate.Collect: successful runs only; it does not say which
  errors a strategy reports, because the strategies differ there.
- AggregateOperator.StrategiesAgree: for successful runs only, for the same reason.
- HashJoins.HashJoin.Collect: assumes that no key column pairs an integer with an
  equal float, because such a pair is equal to `eq` and different to the hash.
- ScalarResolver.ScalarExpressions.EvaluateRow: equality with lazy evaluation is
  stated for expressions without a reference that a temporary name can capture,
  because it is false for those (`TempNameCaptured`).
- TextScans.TextScan.Initialize: assumes one key type per key column; ties between
  equal primary keys are resolved by input order, which the source's heap does not
  promise.
- WithinScan.WithinScan.RowMatches: over real distances, with the tabulated cell
  bounds and the triangle inequality as hypotheses; rounding is not modelled.
- Calendar.BoundsExist: after the tokens of the phrase have been parsed.
