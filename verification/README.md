# A verified model of the SQL engine's optimizer and executors

The repository holds a SQL engine with a cost-based optimizer and two executors: a row-at-a-time interpreter that
serves as the reference, and a vectorized engine. This project models four parts of it and proves, for every input,
what the repository relies on them for.

**The memo** (`src/optimizer/memo.cpp`). `Memo` is a class with the program's three tables: groups of equivalent
expressions, the parent table of merged groups, and the structural index. Its invariant mirrors the run-time
assertion and adds a ghost denotation for every group under an arbitrary meaning of the operators, so nothing depends
on what operators do. Insertion, merging, congruence closure, extraction, bounded enumeration of alternatives and
best-plan extraction are methods on that class; `MemoRuns.Replay` states the result for whole runs. An equivalence is
accepted exactly when some acyclic congruence contains it (`MemoCongruence`), and a bounded enumeration returns exactly a
prefix of the alternatives of the memo cut to its first expressions (`BoundedPlans`).

**The two executors** (`src/execution/interpreter.cpp`, `src/execution/vectorized.cpp`). `Semantics` gives the meaning
of a plan as a function: three-valued predicates in the sense of section 8.12 of ISO/IEC 9075:1992, correlated
subqueries under a stack of outer rows, checked 64-bit SUM, windows, and exceptions as a failed outcome. The
interpreter is a class with its subquery cache and its stack of outer rows, and is proved to return that meaning. The
vectorized engine works on a batch and a selection vector, with two-bit masks in byte arrays, hash tables, sorted
positions and running aggregate states, and is proved to return exactly the interpreter's columns, rows and order.

**The rewrite rules** (`src/optimizer/rewrite.cpp`). The filter rules and their fixpoint loop, predicate pushdown
through joins and aggregates, LEFT to INNER, join re-association and commutation, and the decorrelation of EXISTS, NOT
EXISTS and NOT IN are functions and methods over plans, and each is proved to keep the outcome on every database, or a
theorem says exactly when it does.

**The binder's decisions** (`src/sql/binder.cpp`). Which subtrees must keep their row order, decided by passes that
update a tree in place, and which subqueries reach outside their block, decided by a collector that appends to a list.
Both are tied to the fact about evaluation that justifies them: an operator that is not pinned sees only the input bag,
one that is pinned tells two orders of one bag apart (`OrderSensitivity`), and a plan depends only on the outer columns in
its correlation set.

## Conventions

- A plan node holds its operator's fields (`Op`), its order permission and its children; a subquery is a plan with the
  correlation columns the binder stored. A column identity is a pair of binding and name.
- A row maps column identities to cells; a relation is a header and a sequence of rows, so row order is part of every
  result. A NULL keeps its type. 64-bit overflow is explicit (`Plans.int64`, `Algebra.Fits`).
- A computation that the program abandons with an exception yields `Fails` (`Error` for a truth value). Two plans are
  equal in result only if both fail or both return the same rows.
- `outer` is the stack of owner rows, innermost last. `Run` is `Eval` after the eager evaluation of uncorrelated
  subqueries.

The reference functions are `Semantics.EvalPred`, `EvalScalar`, `Eval` and `Run` (src/execution/interpreter.cpp:192-421
and 715-1418), `Algebra.JoinRel`, `AggregateRel` and `SortRel` (the same file, 457-706 and 917-1093), `Windows.WindowAt`
(1121-1326, written by positions instead of by the kernel's loops), `FilterRules.Apply` and `Fold`
(src/optimizer/rewrite.cpp:810-1120), `JoinRules.FilterIntoJoin`, `JoinReorder.LeftToInner`, `AssociateRight`,
`AssociateLeft` and `JoinCommute`, `AggregatePushdown.FilterThroughAggregate` (1443-1818),
`Decorrelation.DecorrelateEqualityWhere` (431-509), the three rules of `SubqueryRules` (1287-1441), and
`BinderOrder.Protect` (src/sql/binder.cpp:953-1052).

Both executors and the rules are proved against these functions, so what the functions themselves mean is stated a second
time, without them: `ValueLaws` (string order, comparisons, connectives, membership, scalar subqueries, outer columns),
`OperatorLaws` (refused plans, scan, filter, join rows, DISTINCT), `OrderLaws` (ORDER BY and LIMIT), `AggregateLaws` and
`WindowLaws` (counts, sums and extremes by the positions of the rows they range over), `TypingLaws` (the plans the engines
are compared on), `FixpointForm` (the plans no filter
rule changes), `RuleFiring` and `DecorrelationFiring` (when each rule fires and where each conjunct goes).

## What turned out not to hold

The rules below do not keep the outcome of every plan. For each there is a theorem that says exactly when it does, and
for most a query with its database that shows the difference. The theorems about pushing into joins, LEFT to INNER,
re-association and commutation ask nothing of the predicates or of what their subqueries read; what the others ask is
listed under "Left out". The difference is that one of the two plans fails, except for a captured name, a LEFT join whose
filter reads a shadowed outer column, and the row order of a commuted join.

- Merging adjacent filters is not exact for every plan. Conjuncts are always all evaluated, so a correlated scalar
  subquery in the outer filter that fails on a row the inner filter rejects makes the merged query fail
  (`RewriteFixpoint.MergeCanExposeFailure`). `RewriteFixpoint.MergeExactly` says exactly when merging is exact on whole
  plans. The fixpoint theorem has two halves, told apart by the parameter of `Safe`: where columns resolve, rewriting
  gives the same outcome or a failure; where, in addition, no filter above a filter owns a correlated subquery, it
  gives the same outcome. Both conditions can be checked on the plan.
- The rules for correlated EXISTS and NOT EXISTS do not test what the NOT IN rule tests. They evaluate the decorrelated
  right side even where there is no owner row (`SubqueryFailures.ExistsToSemiExposesFailure`), they evaluate the other
  conjuncts only on the rows the join keeps (`SubqueryFailures.ExistsToSemiMasksFailure`), and they do not check that
  their hidden column names are new to the owner, so an owner column of that name, which join lookup prefers, is
  compared with itself (`SubqueryFailures.ExistsToSemiCapturesName`). `SubqueryRules.ExistsToSemiExactly` and
  `NotExistsToAntiExactly` state the exact condition, `ExistenceIsHarmless`. If the right plan does not run, something
  failed for some owner row before; a failing projection counts only on rows that match some owner row. If it runs, a
  conjunct that fails on some owner row fails on some kept one, and where none fails the join sees a match exactly where
  there is one. `SubqueryGuards.GuardedExistence` shows that the test the NOT IN rule makes, with free names
  (`NamesFree`, which `SubqueryGuards.UnusedNamesAreFree` reads off the plan), implies it.
- The NOT IN rule too evaluates its right side when there is no owner row (`NotInRule.NotInToNullAwareExactly`). Its own
  tests shut out subqueries in the block, and a block that scans, filters and joins existing tables and columns then
  cannot fail, so over such a block the rule is exact (`SubqueryGuards.NotInToNullAwareIsExact`). It avoids the owner's
  computed names itself.
- Pushing conjuncts into a join evaluates them on rows the join would have dropped
  (`PushdownFailures.PushCanExposeFailure`), and others no longer on rows that a moved conjunct drops
  (`PushdownFailures.PushCanMaskFailure`). The table test of the rule counts a conjunct's own columns and not its
  subqueries', so a conjunct can move away from a column its subquery reads (`PushdownFailures.PushCanLoseColumns`).
  `PushdownExactly.FilterIntoExistenceExactly` states the exact condition for SEMI and ANTI joins,
  `InnerPushdown.FilterIntoInnerExactly` for INNER joins. Both cover every such case, because a conjunct can lose its
  value with the columns it sees but never change it (`Widening.RunStays`).
- Re-association places conjuncts by the same table test (`ReorderFailures.ReassociationCanLoseColumns`);
  `ReorderExactly.AssociateRightExactly` and `AssociateLeftExactly` state the exact condition.
- A LEFT join that becomes an INNER one no longer evaluates the filter on NULL-extended rows
  (`PushdownFailures.InnerCanHideFailure`). The NULL-rejection test ignores the outer depth of a column, so in a block
  under an owner of the nullable table's name it can accept a filter that extended rows pass
  (`PushdownFailures.InnerCanLoseRows`); the optimizer keeps subplans opaque (src/optimizer/memo.cpp:30-33) and so does
  not apply the rule there. `LeftJoinExactly.LeftToInnerExactly` states the exact condition for both.
- Without correlated subqueries, and over columns that resolve, none of these differences arises: the exact conditions
  hold (`JoinGuards`).
- Pushing a filter below an aggregate drops the groups it would discard, and with them their overflows
  (`AggregateFailures.PushCanHideFailure`), and gives a subquery back the columns that grouping had hidden
  (`AggregateFailures.PushCanRestoreColumns`). `AggregateRuns.FilterThroughAggregateExactly` states the exact condition:
  a plan that succeeds always keeps its outcome.
- The flag for the plan bound is also set when a list fills the bound exactly and loses nothing, and a group that the bound
  keeps from being visited does not set the flag for the expression bound (`Memo.Memo.ExtractAlternatives`).
- Commuting a join keeps the bag of rows but not their order (`ReorderExactly.JoinCommuteExactly`), and LIMIT is not a
  function of the bag, so the theorem is about one INNER join and not about plans that cut its output.

Verify with `dafny verify dfyconfig.toml`.

## Model

| member | source | states |
|---|---|---|
| `Memo.Memo.Representative` | src/optimizer/memo.cpp:1700-1717 | follows parents to the root; fails exactly on an unknown group |
| `Memo.Memo.FindExisting` | src/optimizer/memo.cpp:1723-1737 | finds an owner exactly when the expression, up to representatives of its children, is indexed, and the owner is a representative |
| `Memo.Memo.ReachesFrom` | src/optimizer/memo.cpp:1739-1766 | the depth-first search with its visiting stack decides reachability over representatives |
| `Memo.Memo.NoCycleFrom` | src/optimizer/memo.cpp:1957-1963 | accepts an expression exactly when no child is or reaches its group |
| `Memo.Memo.InsertExpression` | src/optimizer/memo.cpp:1504-1517 | keeps the invariant; an expression already present, up to representatives of children, returns its owner and changes nothing, otherwise exactly one group is appended; the returned group denotes the expression |
| `Memo.Memo.Insert` | src/optimizer/memo.cpp:1438-1502 | succeeds exactly on well-shaped plans; a plan that has a group changes nothing and returns that group; the group denotes the plan; earlier groups, index entries and denotations stay |
| `Memo.Memo.InsertEquivalent` | src/optimizer/memo.cpp:1519-1542 | given an expression that denotes its group, the call completes exactly when its checks pass and some acyclic congruence joins the class with the owner of the expression; an expression that no group owns yet is appended to the class and indexed, nothing else changes, and the call returns true; it returns false exactly when the class already holds the expression, and then nothing changed; a completed call keeps the invariant and loses no expression |
| `Memo.Memo.InsertGroupRefEquivalent` | src/optimizer/memo.cpp:1544-1555 | the same for a reference to a group of the same denotation: it completes exactly when the reference is accepted, puts it into the class, and returns false exactly when the class already held it |
| `Memo.Memo.MergeRepresentativesOnce` | src/optimizer/memo.cpp:2034-2055 | throws exactly when the two classes differ and one reaches the other; otherwise the smaller id wins, the number of representatives drops, and the relaxed invariant (sound, acyclic, nothing lost) holds |
| `Memo.Memo.NormalizeAfterMerge` | src/optimizer/memo.cpp:2065-2114 | the closure completes exactly when some acyclic congruence contains the merges made so far; it terminates because every retry lowers the number of representatives; completed, children are canonical, losers are single aliases, no two representatives own one expression, and the graph is acyclic |
| `Memo.Memo.MergeGroups` | src/optimizer/memo.cpp:2057-2063 | completes exactly when some acyclic congruence joins the two groups: it is abandoned only where a merge that congruence forces would close a cycle; completed, both groups are one class and the whole invariant holds |
| `Memo.Memo.MarkNonRepresentatives` | src/optimizer/memo.cpp:2003-2012 | each loser keeps one alias to its root |
| `Memo.Memo.CanonicalizeChildReferences` | src/optimizer/memo.cpp:1969-1981 | every expression of every group is replaced by its canonical form |
| `Memo.Memo.Deduplicate` | src/optimizer/memo.cpp:1983-2001 | keeps first occurrences in order |
| `Memo.Memo.ScanIndex` | src/optimizer/memo.cpp:2067-2112 | either finds two representatives that own one expression or leaves an index that lists every expression under its only owner |
| `MemoGraph.MergeKeepsAcyclic` | src/optimizer/memo.cpp:2034-2055 | contracting two representatives, neither of which reaches the other, keeps the group graph acyclic |
| `MemoGraph.ExtendKeepsAcyclic` | src/optimizer/memo.cpp:1519-1542 | adding an expression whose children do not reach the group keeps the graph acyclic |
| `MemoGraph.RedirectLowersRootCount` | src/optimizer/memo.cpp:2034-2055 | redirecting a loser leaves strictly fewer representatives: the termination measure of the closure loop |
| `MemoCongruence.ContractedClosable` | src/optimizer/memo.cpp:2065-2114 | a merge that some acyclic congruence contains leaves the rest of it reachable, so a closure that can complete is never led astray by the order of its merges |
| `MemoCongruence.ReachedIsNotMergeable` | src/optimizer/memo.cpp:2034-2055 | where one class reaches the other no acyclic congruence joins them: the exception of a merge is never raised on classes that could be joined |
| `MemoCongruence.SettledIsClosable` | src/optimizer/memo.cpp:2065-2114 | a memo whose index has no conflict is closed |
| `MemoInvariants.AssertInvariants` | src/optimizer/memo.cpp:1606-1687 | the whole run-time assertion, index count included, passes on every memo that satisfies the invariant, so no completed mutation can trip it |
| `MemoInvariants.IndexIsFull` | src/optimizer/memo.cpp:1667-1686 | the index has as many entries as the representatives have expressions |
| `MemoPlans.LookupKeeps` | src/optimizer/memo.cpp:1438-1517 | stable identity: after any later inserts and merges a plan is found in the representative of the group it was given |
| `MemoPlans.FirstPlanOfLookup` | src/optimizer/memo.cpp:1561-1565 | with inserts only, extracting the group of a plan returns that plan |
| `MemoPlans.DerivedDen` | src/optimizer/memo.cpp:1768-1846 | every plan that can be read off a group denotes the group |
| `MemoRuns.Replay` | src/optimizer/memo.cpp:1438-1555 | for every sequence of plan insertions, equivalences between plans of one meaning, group-reference equivalences and raw expression insertions, with all merges and congruence cascades they cause: a completed run keeps every request recorded and every derivable plan sound; a run stops at the first step that the memo cannot accept, an equivalence whose merges would close a cycle included, and what was recorded before is kept |
| `MemoRuns.ReferredDerives` | src/optimizer/memo.cpp:1544-1555 | after a group-reference equivalence, every plan derivable from the group referred to is derivable from the class that holds the reference |
| `Memo.Memo.Extract` | src/optimizer/memo.cpp:1561-1565 | returns the plan of first expressions; it is derivable from the group and has its denotation |
| `Memo.Memo.ExtractAlternatives` | src/optimizer/memo.cpp:1573-1587 | fails exactly on a zero bound or unknown group; the list is the longest prefix within the plan bound of the alternatives of the memo cut to the first expressions of every group; the plan flag is set exactly when some visited group has as many alternatives as the bound, the expression flag only when some visited group has more expressions than its bound, and always then unless the plan bound stopped the visit; under ample bounds neither is set, and without flags the list is complete |
| `Alternatives.InAllPlans` | src/optimizer/memo.cpp:2116-2296 | the left-major list holds exactly the plans derivable from the group |
| `Alternatives.UnaryPlans` | src/optimizer/memo.cpp:2167-2181 | one child: the alternatives in order; the flag is set exactly when the bound is smaller than their number, and then the list is the prefix of that length |
| `Alternatives.BinaryPlans` | src/optimizer/memo.cpp:2273-2296 | two children: the pairs in left-major order; the flag is set exactly when the bound is smaller than the product of the two numbers, and then the list is the prefix of that length |
| `BoundedPlans.BinaryCut` | src/optimizer/memo.cpp:2273-2296 | cutting both sides of a product to the bound before cutting the product loses nothing: the result is the prefix of the whole product |
| `BoundedPlans.PlansCutStep` | src/optimizer/memo.cpp:2116-2156 | which groups the plan bound cuts, one expression at a time |
| `BoundedPlans.UncutPlans` | src/optimizer/memo.cpp:2116-2156 | where no visited group exceeds the expression bound, cutting the memo changes no alternative |
| `BoundedPlans.AmpleBounds` | src/optimizer/memo.cpp:1573-1587 | where every group below is within both bounds, nothing is cut and every alternative is listed |
| `BestPlan.BestExtractor.Extract` | src/optimizer/memo.cpp:1345-1434 | with the winner cache, returns the plan of the best winner of the group; it is derivable from the group |
| `BestPlan.BestExtractor.BestForGroup` | src/optimizer/memo.cpp:1345-1434 | a cached winner equals a fresh scan of the group |
| `BestPlan.BestIsLeast` | src/optimizer/memo.cpp:1335-1343 | no expression of a group over the winners of its children is cheaper than the winner, and among equals the winner has the lowest index |
| `BestPlan.BestIsDerived` | src/optimizer/memo.cpp:1345-1434 | the estimate stored with a winner is the estimate recomputed on its plan, and the plan is derivable |
| `BestPlan.BestIsAnAlternative` | src/optimizer/memo.cpp:1567-1587 | the best plan is in the unbounded list of alternatives |
| `BestPlan.BestIsCheapest` | src/optimizer/memo.cpp:1335-1434 | where dearer children never make a plan cheaper, no plan that can be read off the group is cheaper than the chosen one, although only one winner per group is kept |
| `Values.CellOrder` | src/execution/interpreter.cpp:36-45 | the order on cells is strict and total |
| `ValueLaws.StrLessIsLexicographic` | src/execution/interpreter.cpp:36-45 | the order on strings is the lexicographic one, decided at the first differing character or by the end of the shorter string |
| `ValueLaws.ComparisonMeans` | src/execution/interpreter.cpp:264-323 | a comparison fails with an operand, is unknown exactly for a NULL operand, and otherwise is true exactly when the arithmetic or lexicographic relation holds |
| `ValueLaws.ConnectivesMean` | src/execution/interpreter.cpp:369-409 | AND is the least and OR the greatest of two truth values in the order false, unknown, true; an exception on either side wins |
| `ValueLaws.MemberIsAnyEqual` | src/execution/interpreter.cpp:325-353 | membership is the disjunction of the equalities with every member |
| `ValueLaws.InMeans` | src/execution/interpreter.cpp:325-387 | IN over a subquery is the disjunction of the equalities with its cells, NOT IN its negation; over no rows IN is false whatever the columns |
| `ValueLaws.ScalarQueryMeans` | src/execution/interpreter.cpp:222-237 | a scalar subquery is its only cell, NULL over no rows, and fails on two rows |
| `ValueLaws.OuterColumnMeans` | src/execution/interpreter.cpp:163-176 | inside a correlated subquery depth 1 reads the owner row and a deeper column what the owner's block reads one level nearer |
| `ValueLaws.ColumnReads` | src/execution/interpreter.cpp:1121-1126 | keys and arguments read a column as an expression does, and it resolves exactly when reading it succeeds |
| `OperatorLaws.OperatorReads` | src/sql/binder.cpp:903-926 | the columns an operator reads by itself are exactly its group keys and arguments, partition columns and order keys |
| `OperatorLaws.ScanMeans` | src/execution/interpreter.cpp:793-804 | a scan shows every row of the table in order with each column under the binding, and runs exactly when the table exists and its columns stay apart |
| `OperatorLaws.FilterMeans` | src/execution/interpreter.cpp:411-432 | a filter keeps, in order, exactly the rows on which every conjunct is true, and fails exactly when its input does or a conjunct fails on some row |
| `OperatorLaws.UnmatchedShows` | src/execution/interpreter.cpp:917-1040 | an unmatched left row keeps its cells and is NULL, of the right type, in every right column |
| `OperatorLaws.DistinctMeans` | src/execution/interpreter.cpp:1359-1372 | DISTINCT keeps every row once, at its first place |
| `Interpreter.Interpreter.Materialize` | src/execution/interpreter.cpp:192-220 | with a valid cache, the result is that of evaluating the subquery anew under the current outer rows; the cache stays valid and the stack is restored |
| `Interpreter.Interpreter.EvaluateScalar` | src/execution/interpreter.cpp:222-262 | scalar evaluation with the cache is scalar evaluation without it |
| `Interpreter.Interpreter.EvaluatePredicate` | src/execution/interpreter.cpp:313-409 | three-valued predicate evaluation, both operands always evaluated, equals the cache-free meaning |
| `Interpreter.Interpreter.FindMember` | src/execution/interpreter.cpp:325-353 | the membership scan gives false, unknown or true as section 8.4 of ISO/IEC 9075:1992 asks, for NULL operands and members and for an empty bag |
| `Interpreter.Interpreter.ExecuteJoin` | src/execution/interpreter.cpp:917-1040 | the nested-loop join of all five kinds, early exits included, is the join of the algebra |
| `Interpreter.Interpreter.PrepareSubqueries` | src/execution/interpreter.cpp:761-791 | the eager pass succeeds exactly when every uncorrelated subquery of the plan evaluates |
| `Interpreter.Interpreter.ExecuteInterpreted` | src/execution/interpreter.cpp:1452-1458 | for every bound plan and database the cached engine returns what the cache-free meaning says |
| `Shapes.EvalFits` | src/execution/interpreter.cpp:1385-1418 | every result has distinct columns, and every row has exactly these columns, each cell of its declared type |
| `Correlation.RunLocal` | src/execution/interpreter.cpp:163-176 | a plan gives one result under any two outer stacks that agree on its correlation set |
| `Correlation.UncorrelatedIsConstant` | src/execution/interpreter.cpp:192-220 | a subquery with an empty correlation set has one result for every owner row and every outer stack, so it may be computed once |
| `Correlation.RebasedExactly` | src/sql/binder.cpp:844-858 | an outer column of a nested block is one of the owner exactly when it lies deeper than the owner, one level nearer |
| `CorrelationCollector.CollectCorrelations` | src/sql/binder.cpp:947-951 | the in-place collector returns the correlation set that the cache argument rests on, each column once |
| `CorrelationCollector.Collector.AddPlan` | src/sql/binder.cpp:903-945 | appends the outer columns of a block, in order, without the ones already seen |
| `Aggregation.HashAggregate` | src/execution/vectorized.cpp:2166-2220 | hash aggregation over a selection returns the groups of the algebra in order of first appearance, or fails exactly when the algebra does |
| `Aggregation.UpdateAccumulates` | src/execution/interpreter.cpp:624-670 | a running state is the fold of its arguments; it fails exactly when the aggregate of the longer list is abandoned |
| `Aggregation.FailureSticks` | src/execution/interpreter.cpp:594-670 | an overflow on a prefix abandons the whole aggregate |
| `AggregateLaws.AggregateMeans` | src/execution/interpreter.cpp:1042-1093 | one row for every group, in order of first appearance, exactly one group without keys; each shows its key and its values; the operator fails exactly when a column cannot be read, two output columns coincide, or some value overflows |
| `AggregateLaws.OutcomeMeans` | src/execution/interpreter.cpp:594-706 | by position of the rows: COUNT is their number, SUM their total, MIN and MAX a member that none is below or above, NULL over none; a SUM fails exactly when some partial sum leaves the 64-bit range |
| `AggregateLaws.CountMeans` | src/execution/interpreter.cpp:630-636 | the COUNT(*) cell of a group is the number of input rows with its key, and COUNT of a column the number of those whose cell is not NULL |
| `AggregateLaws.UngroupedCount` | src/execution/interpreter.cpp:630-636 | without grouping COUNT(*) is the number of input rows, 0 over none |
| `OrderSensitivity.UnsummedSeesOnlyTheBag` | src/sql/binder.cpp:978-986 | an aggregate operator without a SUM gives the same bag of rows, or fails alike, on any two orders of its input |
| `OrderSensitivity.SumSeesTheOrder` | src/sql/binder.cpp:978-986 | a SUM tells two orders of one bag apart: it overflows in one and not in the other |
| `OrderSensitivity.PinnedAggregatesSeeTheOrder` | src/sql/binder.cpp:978-986 | where keys and arguments are columns of the input and no SUM adds up a key, the aggregates whose inputs the binder pins are exactly those that see the order |
| `OrderSensitivity.UnpinnedWindowsSeeOnlyTheBag` | src/sql/binder.cpp:988-1004 | a window operator without a pinned kind gives the same bag of rows, or fails alike, on any two orders of its input |
| `OrderSensitivity.PinnedWindowsSeeTheOrder` | src/sql/binder.cpp:988-1004 | every pinned kind of window, over columns of the input and an argument it does not order by, tells two orders of one bag apart |
| `OrderSensitivity.UnpinnedOperatorsSeeOnlyTheBag` | src/sql/binder.cpp:978-1004 | an aggregate or window operator that binding leaves unpinned gives the same bag of rows, or fails alike, on any two orders of its input |
| `WindowLaws.RankingMeans` | src/execution/interpreter.cpp:1240-1326 | ROW_NUMBER is one more than the rows before, RANK than the rows with earlier keys, DENSE_RANK than the earlier keys |
| `WindowLaws.FrameMeans` | src/execution/interpreter.cpp:1240-1326 | an aggregate window gives each row the aggregate of the rows in its frame, by position; COUNT, MIN and MAX fail only by counting too far, and a running SUM exactly when that sum overflows |
| `WindowLaws.FrameCountMeans` | src/execution/interpreter.cpp:1240-1326 | a window COUNT(*) is the number of rows in the frame, and COUNT of a column the number of those with a value |
| `WindowLaws.WindowRowsMean` | src/execution/interpreter.cpp:1328-1343 | the operator keeps every row in place and adds one column per expression; it fails exactly when a column cannot be read, two coincide, or some row has no value |
| `Windows.UnpinnedSeesOnlyTheBag` | src/sql/binder.cpp:988-1004 | every window expression that the binder leaves unpinned gives a row a value that depends only on the row and the input bag, overflow included |
| `Windows.AggSameBag` | src/sql/binder.cpp:988-1004 | COUNT, MIN and MAX see only the bag of their arguments |
| `WindowKernels.AscendingSumIsExact` | src/execution/interpreter.cpp:1209-1238 | adding arguments in ascending order stays in range at every step exactly when the sum of the negatives and the sum of all of them do |
| `WindowKernels.AddAscending` | src/execution/interpreter.cpp:1209-1238 | the RANGE SUM step throws exactly when the running sum plus the negative arguments, or plus all arguments, leaves the 64-bit range; otherwise it adds them all |
| `WindowKernels.UpdateRangePeer` | src/execution/interpreter.cpp:1209-1238 | one peer set moves a RANGE aggregate from the value before the peers to the value after them |
| `WindowKernels.RankPartition` | src/execution/vectorized.cpp:2296-2317 | ROW_NUMBER, RANK and DENSE_RANK of a sorted partition are the positional, peer and distinct-key counts of the specification |
| `WindowKernels.RowsPartition` | src/execution/vectorized.cpp:2345-2391 | ROWS frames: each row sees the rows before it and itself in stable order |
| `WindowKernels.RangePartition` | src/execution/vectorized.cpp:2345-2391 | RANGE frames: every row of a peer set gets the value at the end of the set |
| `WindowKernels.WholePartitionValue` | src/execution/vectorized.cpp:2345-2391 | whole-partition aggregates, or failure exactly when the specification fails |
| `WindowEvaluation.BuildPartitions` | src/execution/vectorized.cpp:2239-2259 | partitions in the order in which their keys first appear, each the ascending positions of one key, together covering the input |
| `WindowEvaluation.EvaluateWindow` | src/execution/vectorized.cpp:2393-2419 | partition, sort, evaluate and scatter give every row its specified window value, or fail exactly when some row has none |
| `RowOrder.RowTransitive` | src/execution/interpreter.cpp:1128-1161 | the multi-key row order is transitive together with its ties; which way it goes is stated by OrderLaws.OrderByMeans |
| `RowOrder.RowTrichotomy` | src/execution/interpreter.cpp:1128-1161 | two rows are ordered one way, the other way, or are peers |
| `Sorting.SortOrdered` | src/execution/interpreter.cpp:457-487 | stable sorting orders strictly smaller elements first and ties by their original position |
| `Sorting.SortBag` | src/execution/interpreter.cpp:457-487 | sorting keeps the bag of elements |
| `Sorting.SortMapped` | src/execution/vectorized.cpp:2133-2150 | sorting row positions and fetching is fetching and sorting rows |
| `OrderLaws.OrderByMeans` | src/execution/interpreter.cpp:457-487 | ORDER BY returns the input rows, each once: for any two the first differing key decides, smaller first and NULL last when ascending and the reverse when descending, and rows with equal keys keep their input order; it fails exactly when a key does not resolve |
| `OrderLaws.OneIntegerKey` | src/execution/interpreter.cpp:457-487 | one ascending integer key: the numbers never decrease and every NULL follows them; descending is the reverse with NULLs first |
| `OrderLaws.OrderProjectionMeans` | src/execution/interpreter.cpp:538-575 | sorting a projection orders its rows by keys that may also name columns the projection drops; a column both have is the projected one |
| `OrderLaws.LimitMeans` | src/execution/interpreter.cpp:1374-1383 | LIMIT returns the prefix of its input of length min(count, input length), and fails exactly when its input does |
| `Deduplication.DistinctSelection` | src/execution/vectorized.cpp:2447-2469 | the DISTINCT selection names the first occurrence of every row |
| `Masks.PredicateMask.CombineAnd` | src/execution/vectorized.cpp:922-937 | two-bit masks combined in place hold the three-valued AND at every position |
| `Masks.PredicateMask.CombineOr` | src/execution/vectorized.cpp:939-954 | the same for OR |
| `Masks.ComparisonMask` | src/execution/vectorized.cpp:750-901 | comparison kernels, with their NULL-literal, all-literal and no-NULL shortcuts, hold the truth of the comparison |
| `Masks.NullCheckMask` | src/execution/vectorized.cpp:903-920 | IS NULL and IS NOT NULL kernels, with their shortcuts |
| `Masks.PredicateListMask` | src/execution/vectorized.cpp:1017-1028 | the mask of a predicate list holds the truth of its conjunction |
| `Masks.SelectionFromTrueMask` | src/execution/vectorized.cpp:1030-1043 | the new selection names exactly the selected rows whose mask is true, in order |
| `Masks.ExecuteFilter` | src/execution/vectorized.cpp:1908-1920 | a filter over a valid view returns a valid view of the rows the algebra keeps; matching selections stay identities |
| `HashJoins.SplitJoinPredicates` | src/execution/vectorized.cpp:1297-1307 | splits the conjuncts into column-to-column keys and residuals, order kept |
| `HashJoins.HashedExactly` | src/execution/vectorized.cpp:1260-1295 | a conjunct is hashed exactly when it equates a column only the left side shows with one only the right side shows, in either order |
| `HashJoins.SplitIsTrue` | src/execution/vectorized.cpp:1260-1307 | the whole list is true exactly when every key matches on non-NULL equal cells and the residuals are true |
| `HashJoins.BuildTable` | src/execution/vectorized.cpp:1773-1825 | each bucket lists the right rows of one non-NULL key in input order; rows with a NULL key are in none |
| `HashJoins.BucketHits` | src/execution/vectorized.cpp:1773-1825 | scanning one bucket with the residuals finds what scanning every right row with the whole list finds, in the same order |
| `HashJoins.ProducingJoin` | src/execution/vectorized.cpp:1747-1825 | INNER and LEFT, hashed or nested-loop, return the sequence of the nested-loop join over the unsplit list |
| `HashJoins.ExistenceJoin` | src/execution/vectorized.cpp:1575-1647 | SEMI and ANTI, hashed or nested-loop, keep the left rows of the nested-loop join |
| `NullAwareJoins.BuildValueTable` | src/execution/vectorized.cpp:1679-1744 | per key, whether the bucket is non-empty, whether it holds a NULL member, and its non-NULL members |
| `NullAwareJoins.NullAwareJoin` | src/execution/vectorized.cpp:1649-1744 | the NULL-aware ANTI join, hashed or nested-loop, keeps the left rows of the nested-loop join over the unsplit list; no keys means one bucket of all right rows |
| `Vectorized.ExecuteToView` | src/execution/vectorized.cpp:1856-1878 | every operator returns a valid view that stands for the result of the algebra, or fails with it |
| `Vectorized.ExecuteVectorized` | src/execution/vectorized.cpp:2814-2827 | for every typed subquery-free plan and database the vectorized engine returns exactly the columns, rows and order of the row engine, or both fail |
| `Vectorized.CompareEngines` | src/execution/vectorized.cpp:2814-2827 | running both engines on any such plan always agrees |
| `Schemas.SchemaIsHeader` | src/execution/interpreter.cpp:1385-1418 | a typed plan has the columns its schema says |
| `Schemas.TypedPredTotal` | src/execution/interpreter.cpp:369-409 | a typed predicate never throws |
| `TypingLaws.PredTypedExactly` | src/sql/binder.cpp:252-270 | a predicate is typed exactly when every atom is a comparison of operands of one type or a NULL test, over columns shown with their types |
| `TypingLaws.UnaryTypedExactly` | src/execution/interpreter.cpp:1385-1418 | a plan over one input is typed exactly when its input is, its operator asks only for columns the input shows with the types it needs, and its own columns are distinct |
| `TypingLaws.JoinTypedExactly` | src/execution/interpreter.cpp:1385-1418 | likewise for joins over the columns of both inputs |
| `FilterRules.RewriteLowers` | src/optimizer/rewrite.cpp:810-863 | every firing lowers filter nodes plus predicate-tree nodes plus non-canonical literal comparisons |
| `FilterRules.FoldLowers` | src/optimizer/rewrite.cpp:865-944 | folding either changes nothing and says so, or makes the predicate tree strictly lighter |
| `FilterRules.NothingFiresAtFixpoint` | src/optimizer/rewrite.cpp:810-863 | a pass finds no rule exactly when no default rule applies at any node |
| `FixpointForm.FixpointsAreSettled` | src/optimizer/rewrite.cpp:810-863 | the fixpoints of the default rules are exactly the plans in which every filter is folded, holds no true conjunct, holds a false one only alone or beside a subquery, and sits on no other filter |
| `FixpointForm.FoldReaches` | src/optimizer/rewrite.cpp:865-944 | folding reports a change exactly on predicates that are not folded yet, and its result is folded |
| `FixpointForm.RulesBuild` | src/optimizer/rewrite.cpp:865-1120 | merging keeps the lower conjuncts first, a false conjunct replaces the list, dropping removes exactly the true ones, folding leaves all folded |
| `FilterRuleSoundness.FoldKeepsTruth` | src/optimizer/rewrite.cpp:865-944 | folding keeps the truth value of a predicate on every row |
| `FilterRuleSoundness.FoldKeepsPreparation` | src/optimizer/rewrite.cpp:865-944 | folding drops no subquery that would have been evaluated eagerly |
| `FilterRuleSoundness.MergedFiltersExactly` | src/optimizer/rewrite.cpp:1103-1120 | two filters in sequence are their conjunction exactly when no failure is hidden behind the inner one or some failure shows anyway; the conjunction never does more than fail |
| `RewriteFixpoint.MergeExactly` | src/optimizer/rewrite.cpp:1103-1120 | on whole plans and every database: merging adjacent filters keeps the outcome exactly when it is harmless, and otherwise makes the plan fail; preparation is the same for both |
| `RewriteFixpoint.MergeCanExposeFailure` | src/optimizer/rewrite.cpp:1103-1120 | a bound query, with its database, that returns no rows before the merge and fails after it |
| `RewriteFixpoint.PassPreserves` | src/optimizer/rewrite.cpp:810-863 | one firing anywhere keeps columns, preparation and safety under every outer stack; it keeps the outcome where no filter above a filter owns a correlated subquery, and where only columns resolve it keeps the outcome or fails |
| `RewriteFixpoint.RewriteToFixpoint` | src/optimizer/rewrite.cpp:1832-1849 | cannot run out of passes when the bound exceeds the measure of the input; the result has no applicable rule anywhere; on every database and outer stack where columns resolve it gives the same outcome or fails, so no rule removes a failure or changes a result, and where no filter above a filter owns a correlated subquery it gives the same outcome |
| `InnerPushdown.FilterIntoInnerExactly` | src/optimizer/rewrite.cpp:1481-1617 | whatever the conjuncts and their subqueries read: splitting conjuncts into left, right, join and residual parts keeps the outcome of a filtered INNER join exactly when every failure of the pushed form showed above the join and the reverse; two results are the same rows in the same order |
| `Widening.RunStays` | src/execution/interpreter.cpp:163-220 | a plan that runs under some outer rows runs to the same result under any outer rows that give at least the same cells: what a conjunct decides on fewer columns stays decided on more |
| `JoinGuards.FilterIntoInnerRuns` | src/optimizer/rewrite.cpp:1481-1617 | where columns resolve, sides are disjoint and no predicate owns a correlated subquery, the exact condition holds and the outcome is always kept: rows, order, preparation and failure |
| `PushdownFailures.PushCanLoseColumns` | src/optimizer/rewrite.cpp:566-601 | a bound query whose conjunct holds a subquery over the other side: it returns rows before the rule and fails after it, because the table test never looks inside subqueries; the exact condition is false for it |
| `PushdownExactly.FilterIntoExistenceExactly` | src/optimizer/rewrite.cpp:1481-1617 | whatever the conjuncts are: pushing left-only conjuncts into SEMI, ANTI and NULL-aware ANTI joins keeps the outcome exactly when every failure below the join showed above it and the reverse; two results are the same rows in the same order |
| `JoinGuards.FilterIntoExistenceRuns` | src/optimizer/rewrite.cpp:1481-1617 | where columns resolve and no predicate owns a correlated subquery, the exact condition holds and the outcome is always kept |
| `PushdownFailures.PushCanExposeFailure` | src/optimizer/rewrite.cpp:1481-1617 | a bound query whose failing conjunct the SEMI join keeps from every row: no rows before the rule, a failure after it; the exact condition is false for it |
| `PushdownFailures.PushCanMaskFailure` | src/optimizer/rewrite.cpp:1481-1617 | a bound query with a conjunct that stays and fails only on rows that a moved conjunct drops: a failure before the rule, no rows after it; the exact condition is false for it |
| `JoinRules.Narrows` | src/optimizer/rewrite.cpp:566-601 | a conjunct whose referenced tables lie on one side reads only columns of that side |
| `RuleFiring.PushdownFires` | src/optimizer/rewrite.cpp:1481-1617 | the pushdown fires exactly on a filter over a join other than LEFT with a conjunct that can move, by the bindings its operands name |
| `RuleFiring.PushdownPlaces` | src/optimizer/rewrite.cpp:1481-1617 | each conjunct ends in exactly one place, the one its bindings call for; the bag of conjuncts is conserved |
| `RuleFiring.RejectingIsByBranch` | src/optimizer/rewrite.cpp:677-705 | the NULL-rejection test accepts exactly the predicates of whose disjunctive normal form every branch compares or tests a column of the tables |
| `RuleFiring.LeftToInnerFires` | src/optimizer/rewrite.cpp:1443-1479 | a LEFT join under a filter becomes INNER exactly when some conjunct rejects NULLs in every branch |
| `RuleFiring.AssociateRightFires` | src/optimizer/rewrite.cpp:1691-1751 | fires exactly on two INNER joins free to re-order whose upper conjuncts name only the three inputs and join the last two; conjuncts are conserved |
| `RuleFiring.AssociateLeftFires` | src/optimizer/rewrite.cpp:1753-1818 | the mirrored condition |
| `RuleFiring.CommuteFires` | src/optimizer/rewrite.cpp:1676-1687 | fires exactly on INNER joins free to re-order; commuting twice gives the join back |
| `RuleFiring.ThroughAggregateFires` | src/optimizer/rewrite.cpp:1619-1674 | fires exactly when some conjunct names group keys and nothing else; those and no others move, and conjuncts are conserved |
| `RuleFiring.ColumnsAreExposed` | src/optimizer/rewrite.cpp:751-804 | every column a plan shows is computed or belongs to a table the rules count as exposed |
| `PushdownExactly.PartTruths` | src/optimizer/rewrite.cpp:1481-1617 | on every row, a conjunct list fails exactly where one of the four parts of its split does, and is true exactly where all are |
| `JoinReorder.RejectsNullExtended` | src/optimizer/rewrite.cpp:677-705 | a predicate that the NULL-rejection test accepts is not true on a NULL-extended row |
| `LeftJoinExactly.LeftToInnerExactly` | src/optimizer/rewrite.cpp:1443-1479 | whatever the filter is: a LEFT join under it has the outcome of the INNER join exactly when it drops every NULL-extended row or something else fails too; otherwise the rewritten plan succeeds |
| `LeftJoinExactly.RejectingOnlyHidesFailure` | src/optimizer/rewrite.cpp:677-705 | where the conjuncts that the NULL-rejection test accepts read the block's own columns and these resolve, every plan that succeeds keeps its outcome: the test lets no extended row pass |
| `PushdownFailures.InnerCanHideFailure` | src/optimizer/rewrite.cpp:1443-1479 | a bound query whose filter fails only on NULL-extended rows: it fails before the rule and succeeds after it; the exact condition is false for it |
| `PushdownFailures.InnerCanLoseRows` | src/optimizer/rewrite.cpp:677-705 | a bound block under an owner row of the nullable table's name: the test takes the owner's column for one of that table, and the rows of the LEFT join are lost |
| `JoinGuards.LeftToInnerRuns` | src/optimizer/rewrite.cpp:1443-1479 | where columns resolve, sides are disjoint and the filter owns no correlated subquery, the exact condition holds and the outcome is always kept |
| `ReorderExactly.AssociateRightExactly` | src/optimizer/rewrite.cpp:1691-1751 | whatever the predicates are: (A join B) join C and A join (B join C), conjuncts placed by table subset, have the same outcome exactly when every failure of the new shape showed in the old one and the reverse; two results are the same rows in the same order |
| `ReorderExactly.AssociateLeftExactly` | src/optimizer/rewrite.cpp:1753-1818 | the same for the converse re-association |
| `ReorderFailures.ReassociationCanLoseColumns` | src/optimizer/rewrite.cpp:1691-1751 | a bound query that returns rows before re-association and fails after it, because a conjunct moved into a join without the column its subquery reads; the exact condition is false for it |
| `JoinGuards.AssociateRightRuns` | src/optimizer/rewrite.cpp:1691-1751 | where columns resolve, the three sides are disjoint and no join predicate owns a correlated subquery, the exact condition holds and the outcome is always kept |
| `JoinGuards.AssociateLeftRuns` | src/optimizer/rewrite.cpp:1753-1818 | the same for the converse re-association |
| `ReorderExactly.JoinCommuteExactly` | src/optimizer/rewrite.cpp:1676-1687 | whatever the predicates are: commuting an INNER join keeps whether the plan fails and otherwise the bag of rows read by column identity, and the set of columns |
| `JoinAlgebra.Commute` | src/optimizer/rewrite.cpp:1676-1687 | both loop orders find the same bag of pairs |
| `JoinAlgebra.Associate` | src/optimizer/rewrite.cpp:1691-1818 | both nestings find the same sequence of triples |
| `AggregateRuns.FilterThroughAggregateExactly` | src/optimizer/rewrite.cpp:1619-1674 | moving group-key conjuncts below a grouped aggregate keeps the outcome exactly when, if some group overflows or makes the filter fail, a moved conjunct fails on an input row or a group of the rows it keeps overflows or makes a conjunct that stays fail; otherwise the plan failed and now succeeds |
| `AggregateFailures.PushCanHideFailure` | src/optimizer/rewrite.cpp:1619-1674 | a bound query, with its database, whose overflowing group is discarded by HAVING: it fails before the push and succeeds after it |
| `AggregateFailures.PushCanRestoreColumns` | src/optimizer/rewrite.cpp:737-749 | a bound query whose HAVING subquery reads a column that is no group key: it fails above the aggregate and succeeds below it, because the key test never looks inside subqueries |
| `SubqueryReads.PredSees` | src/execution/interpreter.cpp:163-220 | a bound predicate has one truth, failures included, on two rows that agree outside columns that neither its operands nor the correlation of its subqueries name |
| `AggregatePushdown.AggregateKept` | src/optimizer/rewrite.cpp:1619-1674 | aggregating the rows whose key passes is keeping the groups whose key passes |
| `Decorrelation.Decorrelate` | src/optimizer/rewrite.cpp:431-509 | the loops that split conjuncts and name hidden columns compute the specified transformation |
| `Decorrelation.HiddenNames` | src/optimizer/rewrite.cpp:431-509 | hidden column names are new to the projections and to the names to avoid, and pairwise distinct |
| `DecorrelationFiring.DecorrelationFires` | src/optimizer/rewrite.cpp:431-509 | a subquery is decorrelated exactly when only the filter of a projected scan or join reads enclosing rows, through equalities with owner columns that name every correlated column |
| `DecorrelationFiring.DecorrelationBuilds` | src/optimizer/rewrite.cpp:431-509 | every conjunct is either kept below or becomes one equality of the join with one hidden column |
| `DecorrelationFiring.ExistenceRulesFire` | src/optimizer/rewrite.cpp:1287-1341 | EXISTS becomes a SEMI join and NOT EXISTS an ANTI join exactly when the subquery can be decorrelated; the other conjuncts stay above |
| `DecorrelationFiring.NotInRuleFires` | src/optimizer/rewrite.cpp:1380-1441 | NOT IN is rewritten exactly when its one-column subquery can be decorrelated and no subquery hides in its operand, its block or another conjunct |
| `DecorrelationFiring.NotInRuleBuilds` | src/optimizer/rewrite.cpp:1380-1441 | the members are read from a column that the owner cannot expose and that repeats the subquery's output |
| `DecorrelationSoundness.BlockConjuncts` | src/optimizer/rewrite.cpp:431-509 | for an owner row, the block filter is true on a source row exactly when the residual conjuncts are true and every equality holds on non-NULL cells |
| `DecorrelationSoundness.SubqueryIs` | src/optimizer/rewrite.cpp:431-509 | for every owner row, the correlated subquery returns the projections of the kept source rows that match it, or fails exactly when the part that does not depend on the row fails or a matching row cannot be projected |
| `DecorrelationSoundness.ExistsIs` | src/execution/interpreter.cpp:388-394 | EXISTS for an owner row is abandoned exactly when that happens, and otherwise says whether some kept row matches |
| `DecorrelationSoundness.RightIs` | src/optimizer/rewrite.cpp:431-509 | the decorrelated right plan runs exactly when the base does and every kept row can be projected; it then returns one row per kept row |
| `DecorrelationSoundness.ProbeSeesMatch` | src/optimizer/rewrite.cpp:1287-1341 | where the right plan runs, probing it says for every owner row whether the join takes some kept row for a match, an owner column of a hidden name being read in its place |
| `DecorrelationSoundness.ProbeAnswersExists` | src/optimizer/rewrite.cpp:1287-1341 | where the owner does not expose the hidden names, probing answers EXISTS for every owner row |
| `SubqueryRules.ExistsToSemiExactly` | src/optimizer/rewrite.cpp:1287-1313 | with resolved columns: correlated EXISTS and the SEMI join have the same outcome exactly when no failure is exposed or masked and no name is captured; where the owner does not expose the hidden names, any difference is that one of the two fails |
| `SubqueryRules.NotExistsToAntiExactly` | src/optimizer/rewrite.cpp:1315-1341 | the same for correlated NOT EXISTS and the ANTI join |
| `SubqueryFailures.ExistsToSemiExposesFailure` | src/optimizer/rewrite.cpp:1287-1313 | a bound query over an empty owner table: no rows before the rule, a failure after it, because the right plan is evaluated without any owner row |
| `SubqueryFailures.ExistsToSemiMasksFailure` | src/optimizer/rewrite.cpp:1287-1313 | a bound query that fails in another conjunct: after the rule the SEMI join drops the row and the query returns no rows |
| `SubqueryFailures.ExistsToSemiCapturesName` | src/optimizer/rewrite.cpp:1287-1313 | a bound query whose owner has a column of the hidden name: no rows before the rule, every owner row after it |
| `SubqueryGuards.GuardedExistence` | src/optimizer/rewrite.cpp:1392-1399 | the test that the NOT IN rule makes, no subquery in the block and none in the other conjuncts, implies, for hidden names the owner does not expose, that the EXISTS and NOT EXISTS rules keep the outcome |
| `SubqueryGuards.GroundedRuns` | src/optimizer/rewrite.cpp:1392-1399 | a tree of scans, filters and joins over existing tables and columns that owns no subquery cannot fail |
| `NotInRule.NotInToNullAwareExactly` | src/optimizer/rewrite.cpp:1380-1441 | with resolved columns, correlated NOT IN and the NULL-aware ANTI join have the same outcome, for NULL operands, members and keys and for empty candidate bags, exactly when a right plan that fails has some owner row |
| `SubqueryGuards.NotInToNullAwareIsExact` | src/optimizer/rewrite.cpp:1380-1441 | over a block of existing tables and columns the two always have the same outcome: the rule tests what the EXISTS rules do not |
| `NotInRule.NotInMeansUnblocked` | src/execution/interpreter.cpp:313-353 | where the block's column can be read, NOT IN is abandoned for an owner row exactly when the part that does not depend on the row is, and otherwise is true exactly when no candidate has a NULL or equal member or meets a NULL operand |
| `NotInRule.ComputedColumnsKnown` | src/optimizer/rewrite.cpp:152-186 | every computed column a plan exposes is among the names the NOT IN rule avoids, so its own names cannot be captured |
| `SubqueryRules.UniqueInternalName` | src/optimizer/rewrite.cpp:188-199 | the search for an internal name stops at a name that neither side uses |
| `BinderOrder.PassesPinExactly` | src/sql/binder.cpp:953-1052 | the marking passes make a node deterministic exactly when it is a proper descendant of a checked-SUM aggregate or an order-sensitive window |
| `BinderOrder.PinnedPassesCheck` | src/sql/binder.cpp:1069-1085 | on such a plan the final check never throws |
| `BinderOrder.PlanNode.ProtectCheckedSums` | src/sql/binder.cpp:1006-1027 | the in-place pass pins everything below the topmost checked-SUM aggregates and changes nothing else |
| `BinderOrder.PlanNode.ProtectWindows` | src/sql/binder.cpp:1029-1052 | the same for order-sensitive windows, also inside subtrees that are already pinned |
| `BinderOrder.PlanNode.ChecksOut` | src/sql/binder.cpp:1054-1085 | the recursive check accepts exactly the plans whose sensitive nodes have fully deterministic inputs |
| `BinderOrder.PlanNode.PinOrder` | src/sql/binder.cpp:1221-1224 | marking, both protections and the check, run on any plan tree: the check accepts and the permissions are the specified ones |

## Left out

- Cost formulas, selectivities and clamping: `BestPlan` takes an arbitrary estimate per operator and an arbitrary real cost of an estimate.
- The cap on expressions per group that only the exploration driver enforces, and the convergence of `explore_memo_to_fixpoint`, which is capped and may throw.
- The rules' memo-level `apply`: each rule is proved on plans, and the memo is proved for any expression that has its group's denotation; the code that reads a group's expressions to build the arguments of a rule is not modelled.
- Hash values and bucket layout: the structural index, the join tables and the group tables are maps keyed by structural equality.
- Columnar storage and copy-on-write: a batch is a sequence of rows, and a view is a batch with a selection. Rows of a batch without columns do not exist in the program, so operators that would produce such a batch are not considered.
- Flattened column names: `binding.column` is a pair here, which assumes that the flattening is injective.
- Subqueries in the vectorized engine: the agreement theorem is for subquery-free plans whose columns and types resolve (`Schemas.Schema`); the interpreter is modelled with subqueries.
- Unresolved columns in aggregates, windows and sorts: the program throws when it first reads one, the model when the operator starts.
- The cache key: results are keyed by the plan as a value instead of its address.
- The order of errors: a failed outcome does not say which of several errors is reported.
- The rules that turn uncorrelated EXISTS, IN and NOT IN and correlated IN into joins.
- BestPlan.BestIsCheapest: asks that dearer children never make a plan cheaper. The program's estimates of one group can differ in row counts, so its cost formulas need not be so; the other theorems about the winner ask nothing.
- OrderSensitivity.PinnedAggregatesSeeTheOrder: asks that keys and arguments are columns of the input and that no SUM adds up a group key. A SUM of a group key adds equal numbers, so its order cannot matter, and the binder pins it all the same.
- OrderSensitivity.PinnedWindowsSeeTheOrder: asks that the window neither partitions nor orders by its argument. A ROWS frame of MIN over its own order key, for one, cannot see the order of peers, and the binder pins it all the same.
- RuleFiring.ColumnsAreExposed: asks that aggregates group by columns of their own block.
- SubqueryRules.ExistsToSemiExactly: asks that the columns of the equalities resolve.
- SubqueryRules.NotExistsToAntiExactly: asks the same as the EXISTS rule.
- NotInRule.NotInToNullAwareExactly: asks that columns resolve, the operand's and the other conjuncts' included, and that scans have names.
- JoinGuards.FilterIntoInnerRuns: a sufficient condition that can be read off the plan (columns resolve, sides disjoint and named, no correlated subquery); the exact one is in InnerPushdown.
- JoinGuards.FilterIntoExistenceRuns: likewise; the exact condition is in PushdownExactly.
- JoinGuards.LeftToInnerRuns: likewise; the exact condition is in LeftJoinExactly.
- JoinGuards.AssociateRightRuns: likewise; the exact condition is in ReorderExactly.
- JoinGuards.AssociateLeftRuns: likewise.
- AggregateRuns.FilterThroughAggregateExactly: asks that group keys are columns of the input and that the subqueries of moved conjuncts name no aggregate of the block, as binding guarantees: a subquery can name only columns of tables (src/sql/binder.cpp:18-24), and an aggregate output has no table.
- RewriteFixpoint.RewriteToFixpoint: asks that columns resolve (`Safe`).
- EXPLAIN, printing, parsing, name resolution, error positions and `lower_to_physical`.
