# Timeline interval algebra and its clients

A Dafny model of the timeline operators of `pkg/timeline` and of the code in `pkg/temporal` that is
built on them.  Time is an integer number of nanoseconds and every interval is half open.  The
meaning of a Boolean timeline is the finite set of instants at which it is true (`Timeline.Instants`).
Each loop is a method proved against a specification function, and the main results are lemmas about
those functions:

* merging keeps instants and has a unique normal form, so set laws become equalities of lists
  (`Merge`, `BooleanAlgebra`), with the exact condition under which tied intervals show in the result (`Ties`);
  durations count instants (`Measure`), NOT tiles its span (`Negation`);
* `HasExisted`, `HasExistedWithin` and `LatestEventToState` hold exactly where a statement about the
  events holds (`Existence`, `States`), and behave under reordering and cutting (`Chunks`);
* session windows are the merge of `HasExistedWithin` in another form; tumbling windows tile and
  conserve sums, sliding windows have a closed form (`Windows`, `Aggregation`);
* the query processor computes what the formulas of its operations say, in any admissible schedule and,
  unless `LatestEventToState` reads mixed ties, for every order of the events (`Query`, `QueryMeaning`,
  `Schedule`, `EventOrder`), which decides when badges are earned (`Badge`);
* fraud detection does not depend on map iteration order, and flags exactly the stated instants (`Fraud`);
* the operator orchestrator accounts for every child once, whatever interleaving happens, with the
  exact conditions under which timeouts and map order show in its state and its answer (`Orchestrator`,
  `Timeouts`, `Assembly`); the two-pointer price join equals the naive one (`PositionExposure`).

Routines outside the model are parameters, and every theorem holds for all of them: the sort (any
function returning a permutation that ascends in the time key, with ties in any order; `sort.Slice` is not
stable), `time.ParseDuration`, reading a location from an event value, lower-casing, and the distance
between two points, of which only symmetry and, for one theorem, a sign are used.  Map iteration is
nondeterministic choice.  Slices that are sorted in place, combined or stored in the results map are arrays; `AND` and `OR`
have no `modifies` clause, so no existing slice is written to.

Where code and documentation part, the model follows the code:

* `NOT` emits intervals whose value is false, and AND ignores those, so AND of two or more operands
  one of which is a NOT result is empty.  The Streak Maintainer query does exactly that: its badge can never be earned
  (`Badge.StreakMaintainerNeverEarned`), although `AGENT.md:206` calls its workflow fully implemented.
* `Completed` in the orchestrator counts children that returned, also those whose result carries an
  error.  Timers start when a wait starts and last as long as a child may run, ten minutes, so what
  remains open is the tie of a child that ends at ten minutes sharp, as every child does that its
  execution timeout stops: its own error or the timeout mark is stored.  The tie is open exactly when
  the partitions awaited before it in its operator end at once (`Timeouts.RunSettled`).  The answer
  reads nothing of a failed entry but its key, so it shows only ties of children that succeed
  (`Timeouts.AnswerSettled`).
* The assembled answer depends on map order exactly when it falls back on the first success met and the
  successes differ, or when no operator succeeded and there are two failures to list
  (`Assembly.OrderShows`).
* Of events with one timestamp, `LatestEventToState` lets the one sorted last win, and an unstable sort
  may choose any.  The result shows the choice exactly when one of two such events has the wanted
  value and the other has not (`States.TiesShow`).
* OR keeps false and reversed intervals (a negative window yields the latter).  Of a true and a false
  interval that start together the one sorted last decides what follows, and a reversed interval that
  starts with a different one shows whether it came first, unless an open interval takes both in.  OR is
  commutative exactly when there are neither (`BooleanAlgebra.WhenOrCommutes`), and for well formed
  operands it distributes over AND exactly when the first is true and keeps no empty interval
  (`BooleanAlgebra.OrOverAnd`).
* A longer time can make travel impossible: less than a hundred metres are always possible in no time
  at all.  It does so exactly when the distance is one of those and neither below the threshold nor
  short enough for a nanosecond (`Fraud.WhenMoreTimeHelps`).

`dafny verify dfyconfig.toml` checks the whole project.

## Model

| member | source | states |
|---|---|---|
| Merge.MergeBoolIntervals | pkg/timeline/operators.go:252-285 | the argument slice is left sorted in place, the result is a new slice holding the merge of its old contents, and an empty slice is returned itself |
| Merge.MergeKeepsInstants | pkg/timeline/operators.go:252-285 | for any input, mixed values and reversed intervals included, and any tie-breaking, merging keeps the set of true instants and the set of false instants |
| Merge.MergeShape | pkg/timeline/operators.go:262-284 | true intervals merge into a list in time order with a gap of at least one instant between neighbours; if all hold an instant, so do the merged ones |
| Merge.MergeBounds | pkg/timeline/operators.go:262-284 | merging any input invents no bounds: each merged interval starts with an interval of its own value and ends with one |
| Merge.MergeUnique | pkg/timeline/operators.go:252-285 | on true intervals that hold an instant, two inputs merge to equal lists if and only if they cover the same instants, whatever the sorts do |
| Merge.MergeUniqueReach | pkg/timeline/operators.go:252-285 | on well formed intervals of one value, empty ones included, two inputs merge to equal lists if and only if they reach the same points, ends included |
| Merge.MergedNormal | pkg/timeline/operators.go:252-285 | well formed intervals merge into the normal form if and only if they are all true and every empty one lies in, or at the end of, another |
| Ties.WhenTiesShow | pkg/timeline/operators.go:257-285 | all arrangements of the intervals by start merge into the same list if and only if those that start together have one value, and every reversed one that starts with a different interval is reached by an interval of its value from before, with none of the other value starting between |
| Ties.WellFormedOrderless | pkg/timeline/operators.go:257-285 | for well formed intervals only the first half of that condition is left |
| Timeline.NormalUnique | pkg/timeline/operators.go:262-284 | two lists in normal form that are true at the same instants are the same list |
| BooleanAlgebra.OverlapsInstants | pkg/timeline/operators.go:287-321 | the pairwise overlaps of two timelines cover exactly the instants they share |
| BooleanAlgebra.AndTwoTimelines | pkg/timeline/operators.go:287-324 | the result is new and is the merge of the pairwise overlaps; neither operand is written to |
| BooleanAlgebra.And | pkg/timeline/operators.go:218-231 | folds the operands from the left; no operand changes, the result is new, except that a single operand is returned itself; without operands it is empty |
| BooleanAlgebra.Or | pkg/timeline/operators.go:234-248 | merges all operands' intervals; no operand changes although merging sorts in place, and a single operand is returned itself; without operands it is empty |
| BooleanAlgebra.AndMeaning | pkg/timeline/operators.go:218-231 | AND is true exactly where all operands are, and from two operands on it is in normal form whatever the operands look like |
| BooleanAlgebra.OrMeaning | pkg/timeline/operators.go:234-248 | OR is true exactly where some operand is, for all operands |
| BooleanAlgebra.OrShape | pkg/timeline/operators.go:234-248 | OR of two or more true operands has gaps between its intervals, and is in normal form if the operands' intervals hold instants |
| BooleanAlgebra.AndDetermined | pkg/timeline/operators.go:218-231 | two ANDs of two or more operands are the same list if and only if their operands share the same instants |
| BooleanAlgebra.AndCommutes | pkg/timeline/operators.go:218-231 | permuting two or more operands of AND gives the same list |
| BooleanAlgebra.OrCommutes | pkg/timeline/operators.go:234-248 | permuting two or more operands of OR gives the same list, for all sorts, if ties among their intervals do not show in the sense of Ties.WhenTiesShow |
| BooleanAlgebra.WhenOrCommutes | pkg/timeline/operators.go:234-285 | OR of two or more operands is the same list for every order of the operands and every sort if and only if ties among their intervals do not show in that sense |
| BooleanAlgebra.AndAssociates | pkg/timeline/operators.go:218-231 | ANDing any group of the operands first gives the same list |
| BooleanAlgebra.OrAssociates | pkg/timeline/operators.go:234-248 | ORing any group of well formed operands of one value first, empty intervals included, gives the same list |
| BooleanAlgebra.AndOverOr | pkg/timeline/operators.go:218-324 | AND(a, OR(b, c)) and OR(AND(a, b), AND(a, c)) are the same list for all timelines |
| BooleanAlgebra.OrOverAnd | pkg/timeline/operators.go:218-324 | for a well formed a, OR(a, AND(b, c)) and AND(OR(a, b), OR(a, c)) are the same list if and only if a is all true and each of its empty intervals lies in, or at the end of, the instants of OR(a, AND(b, c)) |
| Measure.DurationWhere | pkg/timeline/operators.go:137-147 | returns the sum of the lengths of the true intervals |
| Measure.TotalAdds | pkg/timeline/operators.go:137-147 | on any timelines the total adds up over lists; a true interval counts end - start, also if it overlaps others or is reversed, a false one nothing |
| Measure.DurationCountsInstants | pkg/timeline/operators.go:137-147 | that sum is the number of true instants when no instant is covered twice |
| Measure.InclusionExclusion | pkg/timeline/operators.go:137-147 | duration of OR plus duration of AND is the sum of the operands' durations, for true operands whose own intervals do not overlap |
| Measure.LongestConsecutiveTrue | pkg/timeline/operators.go:327-350 | returns the longest true interval of at least the minimum length, 0 if there is none |
| Measure.LongestOfAll | pkg/timeline/operators.go:327-350 | on any timeline the result is an upper bound for the true intervals that reach the minimum, and the length of one of them unless it is 0 |
| Measure.LongestMeaning | pkg/timeline/operators.go:327-350 | on merged timelines this is the length of the longest unbroken run of true instants that reaches the minimum, or 0 if there is none |
| Negation.Not | pkg/timeline/operators.go:170-215 | returns the false intervals between the true ones over the span from earliest start to latest end |
| Negation.NotShape | pkg/timeline/operators.go:186-214 | the emitted intervals are false, hold instants, come in time order, and are parted by every true interval, even an empty one |
| Negation.NotEmits | pkg/timeline/operators.go:176-214 | of any timeline, ordered or not, NOT emits exactly the gaps that run from the end of a true interval to the later start of the next one, the ends of the span standing in before the first and after the last |
| Negation.NotTiles | pkg/timeline/operators.go:170-215 | if the true intervals are ordered and disjoint, they and the emitted intervals cover the span, share no instant, and their lengths add up to it |
| Negation.NotNeverTrue | pkg/timeline/operators.go:195-211 | the result of NOT is true at no instant |
| Negation.AndWithNotIsEmpty | pkg/timeline/operators.go:291-299 | AND of two or more operands one of which is a NOT result is the empty timeline |
| Existence.HasExisted | pkg/timeline/operators.go:60-94 | one true interval from the first match to an hour after the last event, nothing without a match |
| Existence.ExistedMeaning | pkg/timeline/operators.go:76-93 | true at t exactly when some matching event is at or before t and some event, however late, is later than an hour before t |
| Existence.ExistedOrder | pkg/timeline/operators.go:60-94 | the list is the same for every order of the events and every sort |
| Existence.HasExistedWithin | pkg/timeline/operators.go:97-134 | returns a new slice holding the merged windows of the matching events |
| Existence.WithinMeaning | pkg/timeline/operators.go:97-134 | for any window, true at t exactly when a matching event lies in (t - window, t]; merged form for windows that are not negative |
| Existence.WithinBounds | pkg/timeline/operators.go:97-134 | for every window each interval starts at a match and ends a window after a match, and each match has its window inside one interval or, if the window is negative, as one |
| Existence.WithinByPieces | pkg/timeline/operators.go:97-134 | for every window and any dealing out of the events over any number of pieces, OR over the pieces gives the list of the whole |
| Existence.WithinOrder | pkg/timeline/operators.go:97-134 | HasExistedWithin gives the same list for every order of the events and all sorts, for every window |
| Chunks.WithinByPartitions | pkg/temporal/micro_workflows.go:504-519 | in particular, OR over the orchestrator's partitions gives the list of the whole |
| States.LatestEventToState | pkg/timeline/operators.go:9-57 | returns the state intervals of the scan over the sorted events |
| States.StatesMeaning | pkg/timeline/operators.go:25-54 | intervals in time order, all of the wanted state, that hold t exactly when the latest event at or before t has that value, up to one nanosecond after the last event |
| States.RunStartsAre | pkg/timeline/operators.go:25-54 | the runs of the wanted value begin at the sorted events that have it and do not follow one that has it |
| States.StatesAreRuns | pkg/timeline/operators.go:25-54 | one interval for each run, also if it is empty: from its first event to the event that ends it or, for the last, to one nanosecond after the last event |
| States.StatesDisjoint | pkg/timeline/operators.go:25-54 | the intervals of different values share no instant |
| States.StateConservation | pkg/timeline/operators.go:9-57 | over the distinct values of the events the durations add up to last - first + 1 ns |
| States.LatestStatesOrder | pkg/timeline/operators.go:15-19 | the result does not depend on the order of the events or the sort, unless two events at one time differ in having the wanted value |
| States.TiesShow | pkg/timeline/operators.go:15-54 | all arrangements of the events by time give the same result if and only if no two events share a time and exactly one of them has the wanted value |
| States.ConvertStateTimelineToBoolTimeline | pkg/temporal/activities.go:702-714 | every state interval becomes a true interval with the same bounds |
| Chunks.CreateEventChunks | pkg/temporal/activities.go:839-859 | the chunks hold the consecutive pieces and carry their positions and the common number of chunks |
| Chunks.PiecesLaw | pkg/temporal/activities.go:839-859 | the pieces concatenate to the input, all are full but possibly the last, none is empty, and their number is the quotient rounded up |
| Chunks.PartitionEvents | pkg/temporal/micro_workflows.go:504-519 | the same pieces, except that an empty input is one empty partition |
| Chunks.CutLaw | pkg/timeline/operators.go:9-57 | across one cut, the total of the wanted state is the two totals plus, if the last value before the cut matches, the gap less one nanosecond |
| Chunks.ChunkCutLaw | pkg/temporal/activities.go:839-859 | for strictly ordered events and any chunk size, the whole is the chunk sum plus all such gaps, so the chunk sum never exceeds the whole |
| Windows.CreateSessionWindows | pkg/timeline/windows.go:104-145 | returns the sessions of the sorted times |
| Windows.SessionsAreMergedWindows | pkg/timeline/windows.go:104-145 | sessions over the matching times in any order have exactly the bounds of HasExistedWithin, for every timeout |
| Windows.SessionsAreSessions | pkg/timeline/windows.go:122-143 | besides their bounds the windows carry their kind and timeout only |
| Windows.CreateSlidingWindows | pkg/timeline/windows.go:55-77 | terminates for a positive slide, or when the range is empty, with the sliding windows |
| Windows.CreateTumblingWindows | pkg/timeline/windows.go:80-101 | terminates for a positive size, or when the range is empty, with the tumbling windows |
| Windows.StuckLoops | pkg/timeline/windows.go:58-98 | in all other cases neither loop ever reaches the end of its range |
| Windows.SlidingClosedForm | pkg/timeline/windows.go:55-77 | window k starts k slides after the start, is clipped at the end, and carries its kind, size and slide; the number of windows is the quotient rounded up |
| Windows.SlidingHolds | pkg/timeline/windows.go:55-77 | window k holds an instant of the range exactly when its offset is in [k * slide, k * slide + size) |
| Windows.SlidingCount | pkg/timeline/windows.go:55-77 | if the slide divides the size, every interior instant is in exactly size / slide windows |
| Windows.TumblingIsSliding | pkg/timeline/windows.go:55-101 | a slide equal to the size gives the tumbling bounds |
| Windows.TumblingTiles | pkg/timeline/windows.go:80-101 | the number of windows is the quotient rounded up, none is empty, and every instant of the range is in one window and no other |
| Aggregation.ApplyWindowToPriceTimeline | pkg/timeline/windows.go:148-159 | the values at the increasing positions whose time is in [start, end), and all of them |
| Aggregation.SumPermutation | pkg/timeline/aggregations.go:49-68 | the sum does not depend on how the sort arranges the values |
| Aggregation.Aggregate | pkg/timeline/aggregations.go:43-92 | the running total of the values, or their number, with the number of values and the latest of their times; an empty timeline gives a zero result |
| Aggregation.WindowedAggregate | pkg/timeline/aggregations.go:144-161 | one result, in order, for each window that holds a value: the running total or number of its values and their number, with its bounds, and its end as the time |
| Aggregation.TumblingConserves | pkg/timeline/aggregations.go:144-161 | over tumbling windows the sums add up to the sum, and the counts to the number, of the values in range |
| Query.ExecuteOperation | pkg/temporal/activities.go:379-647 | computes the operation of the fragment or its failure, and writes to no stored slice |
| Query.ExecuteFails | pkg/temporal/activities.go:379-647 | operation by operation, which parameters and sources make it fail and with which failure, and that nothing else does |
| Query.NestedResult | pkg/temporal/activities.go:560-585 | DurationInCurState and Not pass on the failure inside Of; the former keeps the bounds of the states and gives seconds times 1e9 as their lengths, the latter negates a Boolean timeline |
| Query.WithinResult | pkg/temporal/activities.go:389-407 | HasExistedWithin succeeds with every window that reads as a duration, also a negative one: true exactly where a matching event of its source lies in (t - window, t] |
| Query.ExecuteLongest | pkg/temporal/activities.go:605-642 | the four failures of the source parameter and the one of the duration, else the seconds of the longest true interval of the source that reaches the duration given |
| Query.LookUpOperands | pkg/temporal/activities.go:587-603 | AND and OR take the named results that are Boolean timelines and drop all others |
| Query.LookUpConditions | pkg/temporal/activities.go:409-437 | DurationWhere takes Boolean timelines and converted state timelines and drops all others |
| Query.FilterEventsByType | pkg/temporal/activities.go:674-685 | the events at the increasing positions that have the type, and all of them |
| Query.ProcessQuery | pkg/temporal/activities.go:327-376 | runs the operations in order up to the first failure; the answer is the result called "result", else the last, with the contents it was stored with; without operations it is zero |
| QueryMeaning.OthersAreDropped | pkg/temporal/activities.go:587-603 | AND and OR give what they would give if only the ids with Boolean results were named |
| QueryMeaning.OtherConditionsAreDropped | pkg/temporal/activities.go:409-437 | DurationWhere keeps the ids with Boolean or state results in order, the former as they are and the latter as true intervals with the bounds of the states |
| QueryMeaning.AndOfStatesIsEmpty | pkg/temporal/activities.go:587-594 | an AND that names state timelines only is the empty timeline |
| QueryMeaning.EvaluatorCorrect | pkg/temporal/activities.go:327-442 | every operation of a well posed list succeeds; its timeline is true exactly where its formula holds, DurationWhere counts the instants of its formula, and the longest run is that of its source's formula among those that reach the duration given |
| QueryMeaning.SomeAnswers | pkg/temporal/activities.go:355-365 | in every list of operations that is not empty there is one that answers |
| QueryMeaning.AnswerMeaning | pkg/temporal/activities.go:355-365 | the answer of a well posed query is correct in that sense for the operation called "result", or else for the last |
| Schedule.ExecuteLocal | pkg/temporal/activities.go:379-647 | an operation looks at no results but those it names, also inside Of |
| Schedule.LastWithIdWins | pkg/temporal/activities.go:343-353 | in any list that runs, also with repeated ids, the last operation with an id leaves its result, computed from what the operations before it stored |
| Schedule.FirstFailure | pkg/temporal/activities.go:343-353 | a list that does not run fails as its first failing operation does |
| Schedule.ComputedIsSolution | pkg/temporal/activities.go:343-353 | the results of a schedule satisfy every operation applied to the whole map |
| Schedule.SolutionIsComputed | pkg/temporal/activities.go:343-353 | and every map that does is what any schedule computes |
| Schedule.ScheduleIndependence | pkg/temporal/activities.go:343-365 | two schedules of the same operations both fail or give the same results map, hence the same answer when an operation is called "result" or the last one is the same |
| EventOrder.RunOrder | pkg/temporal/activities.go:343-353 | the results map, or the failure, is the same for every order of the events and all sorts if no LatestEventToState, also inside Of, reads mixed ties and no OR merges intervals whose ties show |
| EventOrder.WhenOrderHides | pkg/temporal/activities.go:327-376 | the results map of a well posed query is the same for every order of the events and all sorts if and only if no LatestEventToState has a mixed tie among the events of its source |
| Badge.EvaluateStreak | pkg/temporal/activities.go:994-1073 | earned exactly when the seconds, or the longest interval of a numeric timeline, reach the requirement; the progress times the requirement is what was reached until then, and 1 from then on; nothing for any other result |
| Badge.EvaluatedMeaning | pkg/temporal/activities.go:994-1073 | the same of the specification that the badge theorems use |
| Badge.DailyEngagementEarned | pkg/temporal/badging_workflows.go:172-204 | the badge is earned if and only if the qualifying events contain a chain with gaps of at most 24 h and last - first + 24 h of at least 7 days; until then the progress is the share of 604800 seconds that the longest engaged run makes |
| Badge.LongestBridges | pkg/temporal/activities.go:1035-1052 | the longest engaged run lasts a week if and only if such a chain exists |
| Badge.StreakMaintainerNeverEarned | pkg/temporal/badging_workflows.go:106-132 | the query always succeeds with 0 seconds, so the badge is never earned, for any events |
| Fraud.WhenMoreTimeHelps | pkg/temporal/fraud_detection.go:74-104 | possible travel stays possible in any longer time if and only if the kinds decide, or the distance is below the threshold, at least 100 m, or possible in one nanosecond |
| Fraud.ImpossibleMeaning | pkg/temporal/fraud_detection.go:74-163 | two events make an impossible pair if and only if they are at most the window apart and one is online and the other in a store, or not both are online and the distance reaches the threshold and is at least 100 m in no time or else exceeds what the buffered flying speed covers |
| Fraud.DefaultReach | pkg/temporal/fraud_detection.go:23-30 | by default travel is possible below 500 km or at no more than 1045 km/h |
| Fraud.OverlapMeaning | pkg/temporal/fraud_detection.go:171-203 | the overlap of a pair is the normal form of the instants at which both locations have an event within the window |
| Fraud.AnyImpossible | pkg/temporal/fraud_detection.go:144-163 | finds an event pair within the window with impossible travel if there is one |
| Fraud.PairCount | pkg/temporal/fraud_detection.go:138-204 | the number of non-empty overlaps is the number of unordered pairs that count, for every iteration order |
| Fraud.FraudMeaning | pkg/temporal/fraud_detection.go:112-212 | t is flagged if and only if at least MinOverlaps pairs of city, state and kind hold an impossible event pair, by kinds, distance and time, and overlap, and for one of them both locations have an event in (t - window, t] |
| Fraud.FraudOrderIndependent | pkg/temporal/fraud_detection.go:133-212 | the list is the same for every iteration order of the location map, every order of the events and every choice of the two sorts |
| Fraud.CloseWitnessesCount | pkg/temporal/fraud_detection.go:146-161 | an impossible event pair at two locations strictly less than the window apart makes their pair count; exactly the window apart their windows do not meet |
| Fraud.FewLocationsNeverFlagged | pkg/temporal/fraud_detection.go:138-211 | for every configuration, n location keys are never flagged if n(n - 1)/2 is less than MinOverlaps |
| Fraud.TwoLocationsNeverFlagged | pkg/temporal/fraud_detection.go:23-30 | with the default configuration at most two location keys are never flagged |
| Fraud.DetectCreditCardFraud | pkg/temporal/fraud_detection.go:112-212 | the nested loops over an arbitrarily iterated map return the list that every iteration order gives |
| Orchestrator.KeyInjective | pkg/temporal/micro_workflows.go:318-318 | the keys of different operators and partitions differ, also when an id itself ends like a key |
| Orchestrator.DecimalValue | pkg/temporal/micro_workflows.go:318-318 | the partition in a key is written in decimal digits that read as its number |
| Orchestrator.EveryRun | pkg/temporal/micro_workflows.go:387-466 | after any sequence of results, errors and timeouts every awaited slot has its own entry under its own key, and no step overwrites an entry |
| Orchestrator.RunShows | pkg/temporal/micro_workflows.go:397-458 | the entry of a slot is the result its child returned, or an error under the id and partition of the slot, marked if the timer fired |
| Orchestrator.WaitEnds | pkg/temporal/micro_workflows.go:386-464 | a wait ends ten minutes after it began, or before that when its child has ended |
| Orchestrator.Bookkeeping | pkg/temporal/micro_workflows.go:387-466 | for every iteration order, exactly one entry per operator and partition, and Completed + Failed = operators * partitions |
| Orchestrator.CountersCount | pkg/temporal/micro_workflows.go:406-460 | Completed is the number of waits that ended with a returned child, Failed the number of all others |
| Orchestrator.OrderIndependent | pkg/temporal/micro_workflows.go:387-466 | if no child ends as late as the timeout, all iteration orders and interleavings end in the same results and counters, also if children never end |
| Orchestrator.OrchestratorState.Select | pkg/temporal/micro_workflows.go:391-464 | records the child's result or error if it ends by the time the timer fires, and the timeout mark if it has not ended before, either in a tie |
| Orchestrator.OrchestratorState.AwaitAll | pkg/temporal/micro_workflows.go:385-466 | waits for all children in some iteration order and ends in the state of a possible run over that order |
| Timeouts.RecordSettled | pkg/temporal/micro_workflows.go:339-466 | the entry and the counter recorded for a child are the same in every order, for every tie and whatever the other children do, if and only if it does not end at or after the timeout; with and without the execution timeout |
| Timeouts.RunSettled | pkg/temporal/micro_workflows.go:339-466 | with children limited by their execution timeout, all iteration orders and interleavings end in the same state if and only if no partition ends at ten minutes sharp, with a result or an error, while those before it in its operator end at once |
| Timeouts.AnswerIndependent | pkg/temporal/micro_workflows.go:387-572 | if no child succeeds as late as the timeout, the assembled answer is the same for all iteration orders and interleavings, also if children fail late or never end |
| Timeouts.AnswerSettled | pkg/temporal/micro_workflows.go:339-572 | with children limited by their execution timeout and the results map iterated in a given order, all runs assemble the same answer if and only if no such open tie is that of a child that succeeds |
| Assembly.AssembleOperatorResults | pkg/temporal/micro_workflows.go:522-586 | the first partition of the last operator, looked up by its id or its name, if it succeeded, else the result of a success, with the numbers of keys that succeeded and failed; the failed keys if all failed, no result without operations or without entries |
| Assembly.AssembledMeans | pkg/temporal/micro_workflows.go:522-586 | the same of the specification for every iteration order |
| Assembly.AssembledInOrder | pkg/temporal/micro_workflows.go:526-572 | the failed keys are listed in the order of the iteration, and the answer falls back on the first success in it |
| Assembly.AnswerReads | pkg/temporal/micro_workflows.go:532-586 | the answer reads nothing of a failed entry but its key |
| Assembly.OrderShows | pkg/temporal/micro_workflows.go:532-572 | the answer is the same for every iteration order if and only if some operator succeeded and there are no operations, the last one's first partition succeeded or all successes agree, or none succeeded and there is at most one entry |
| PositionExposure.Exposure | pkg/timeline/fintech.go:514-564 | one result per sorted position with its time, symbol and value, the price of the last sorted price at or before that time, or else the first, and their product as exposure; nothing if either input is empty |
| PositionExposure.PriceAsOf | pkg/timeline/fintech.go:540-545 | the last sorted price at or before the time, or the first price if there is none |
| PositionExposure.AdvancePrice | pkg/timeline/fintech.go:540-545 | the pointer, which never goes back, stops where that search does |

## Left out

- Floating point: seconds, prices, distances and speeds are exact reals, so rounding is not modelled; durations are unbounded integers, without the overflow and saturation of 64-bit nanoseconds.
- Event attributes, JSON decoding, event classification and timestamps filled in by the clock: the model starts from typed events with a timestamp, a type and a value.
- Haversine trigonometry: the distance is any symmetric function.
- Financial and moving operations of the query processor: they and any unknown operator are the failing case `OpOther`, and of the aggregations only sum and count are modelled.
- Query.ExecuteOperation: error messages are reduced to their kind; operator names are constructors, and of the parameters only the three that the fragment reads are kept.
- QueryMeaning.EvaluatorCorrect: covers lists with distinct ids, backward references, conditions that are not empty, windows that are not negative, and AND and OR over Boolean results; outside this fragment the operations drop operands, and Not yields no true interval.
- BooleanAlgebra.OrOverAnd: claims nothing for a first operand with reversed intervals, where the order that the sort gives to ties can decide.
- BooleanAlgebra.OrAssociates: claims nothing for operands that mix true and false intervals, where grouping can join two intervals before one of the other value comes between them.
- `assembleChunkResults` and the batches of `ProcessEventsConcurrently`: the former looks for plain Booleans, which no operator returns, so chunk laws are stated on the operators.
- Orchestrator: launching of child workflows, ids generated for operations without one, streaming mode with its signals and events, retries and all other behaviour of the Temporal SDK, and the event total, operation count and time in the metadata; a result stands for its value and unit, an error for its presence and the timeout mark; children return the operator id they were started with.
- Orchestrator.OrderIndependent: leaves out when an entry was stored (`CompletedAt`), which for an entry that the orchestrator makes itself, for an error or a timeout, always shows how long the waits before it took.
- Timeouts.RecordSettled: leaves out `CompletedAt` likewise.
- Timeouts.RunSettled: leaves out `CompletedAt` likewise.
- Timeouts: children start together with the orchestrator, and their execution timeout is exact; the delays of a real server are not modelled.
- The other badges: the same threshold on a longest run with other constants; the window of one of them, four weeks, is not a duration the parser accepts.
- RSI, MACD, Bollinger bands, Sharpe ratio, VaR, drawdown and transaction velocity.
- HTTP server, command line, HCL parsing, storage, indexing and logging.
