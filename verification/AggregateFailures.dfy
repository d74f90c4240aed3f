/** Queries that the aggregate rule changes: a failure in a discarded group that is no longer met, and a conjunct whose
  subquery sees a column again that grouping had hidden.
 */
module AggregateFailures {
  import opened Plans
  import opened Sequences
  import opened Values
  import opened Algebra
  import opened Semantics
  import opened Shapes
  import opened Schemas
  import opened Correlation
  import opened FilterRuleSoundness
  import opened SmallPlans
  import opened RewriteFixpoint
  import opened JoinAlgebra
  import opened JoinRules
  import opened PlanRuns
  import opened DecorrelationSoundness
  import opened AggregatePushdown
  import opened SubqueryReads
  import opened AggregateRuns
  import opened PushdownFailures

  const T_A: ColumnRef := ColumnRef(Ident("t", "a"), Int64, 0)

  lemma RunIsInterpret(p: Plan, db: Db)
    ensures Interpret(p, db) == Run(p, [], db)
  {
    hide Run;
  }

  lemma AggregateQueryBound(q: Pred, aggs: seq<AggExpr>)
    requires BoundPred(q)
    ensures BoundPlan(Node(Arbitrary, Filter([q]), [Node(Arbitrary, Aggregate([T_A], aggs), [ScanOf("t")])]))
  {
    var ps := [q];
    assert BoundOp(Aggregate([T_A], aggs)) && BoundPreds(ps);
    hide BoundPred, BoundPlan, BoundOp;
    CorrOfScan("t");
    CorrOfNode(Arbitrary, Aggregate([T_A], aggs), ScanOf("t"));
    FilterBound(Arbitrary, ps, Node(Arbitrary, Aggregate([T_A], aggs), [ScanOf("t")]));
  }

  /** The one conjunct of a HAVING clause over the key moves. */
  lemma KeyConjunctMoves(q: Pred, aggs: seq<AggExpr>)
    requires RefColumns(q) == {T_A.id}
    ensures OnlyGroupKeys(q, [T_A]) && Pushable([q], [T_A], true) == [q] && Pushable([q], [T_A], false) == []
    ensures FilterThroughAggregate(Node(Arbitrary, Filter([q]), [Node(Arbitrary, Aggregate([T_A], aggs), [ScanOf("t")])])).Some?
  {
    var ps, keys := [q], [T_A];
    assert keys[0].id in KeyNames(keys);
    assert ps[..|ps| - 1] == [] && OnlyGroupKeys(q, keys);
  }

  lemma NothingKept(rows: seq<Row>, f: Row -> Truth)
    requires forall k | 0 <= k < |rows| :: f(rows[k]) == False
    ensures Keep(rows, IsTrue(f)) == [] && !SomeRowFails(rows, f)
  {
    hide Keep;
    KeepSomething(rows, IsTrue(f));
  }

  lemma NoGroups(aggs: seq<AggExpr>, env: Env, f: Row -> Truth)
    ensures !SomeGroupFails([T_A], aggs, [], env, f)
  {
    assert AllKeys([T_A], [], env) == [];
  }

  // ---------------------------------------------------------------- a failure that disappears

  const LARGE: Db := map["t" := OneColumn([INT64_MAX, INT64_MAX])]

  const SUM_A: AggExpr := AggExpr("s", Sum, Some(T_A), Int64)

  const IS_ZERO: Pred := Cmp(Column(T_A), Eq, IntLit(0))

  /** SELECT a, SUM(a) AS s FROM t GROUP BY a HAVING a = 0. */
  const OVERFLOWING: Plan := Node(Arbitrary, Filter([IS_ZERO]), [Node(Arbitrary, Aggregate([T_A], [SUM_A]), [ScanOf("t")])])

  lemma LargeScan(outer: seq<Row>)
    ensures var rel := Rel([Field(T_A.id, Int64)], ScanRows("t", LARGE["t"]));
            Run(ScanOf("t"), outer, LARGE) == Ok(rel) && ColumnsOf(ScanOf("t"), LARGE) == rel.header && |rel.rows| == 2
    ensures forall k | 0 <= k < 2 :: var row := ScanRows("t", LARGE["t"])[k]; T_A.id in row && row[T_A.id] == IntV(INT64_MAX)
  {
    var p, table := ScanOf("t"), LARGE["t"];
    var header := Rename("t", table.header);
    assert header == [Field(T_A.id, Int64)];
    assert DistinctIds(header) && Prepared(p, outer, LARGE);
    forall k | 0 <= k < 2 ensures T_A.id in ScanRows("t", table)[k] && ScanRows("t", table)[k][T_A.id] == IntV(INT64_MAX) {
      assert CellsOf(table.header, table.rows[k])[0] == IntV(INT64_MAX);
      MakeRowFits(header, CellsOf(table.header, table.rows[k]));
      assert header[0].id == T_A.id;
    }
  }

  lemma OverflowingSum(cells: seq<Cell>)
    requires cells == [IntV(INT64_MAX), IntV(INT64_MAX)]
    ensures AggOutcome(Sum, Int64, cells).Fails?
  {
    assert cells[..1] == [IntV(INT64_MAX)] && cells[..2] == cells && cells[..1][..0] == [];
    assert NonNull(cells[..1]) == [IntV(INT64_MAX)];
    assert NonNull(cells) == cells;
    assert Total(cells[..1]) == INT64_MAX;
    assert Total(cells[..2]) == 2 * INT64_MAX;
    assert !Fits(Total(cells[..2]));
  }

  lemma OneGroup(rows: seq<Row>, env: Env)
    requires |rows| == 2 && forall k | 0 <= k < 2 :: T_A.id in rows[k] && rows[k][T_A.id] == IntV(INT64_MAX)
    ensures GroupKeys([T_A], rows, env) == [[IntV(INT64_MAX)]]
    ensures Members([T_A], rows, [IntV(INT64_MAX)], env) == rows
  {
    var keys, key := [T_A], [IntV(INT64_MAX)];
    assert KeyOf(keys, rows[0], env) == key && KeyOf(keys, rows[1], env) == key;
    var all := AllKeys(keys, rows, env);
    assert all == [key, key] && all[..1] == [key] && all[..1][..0] == [];
    assert Dedup(all[..1]) == [key] && Dedup(all) == [key];
    assert rows[..1][..0] == [] && Members(keys, rows[..1], key, env) == [rows[0]];
    assert [rows[0]] + [rows[1]] == rows;
  }

  lemma TheGroupFails(rows: seq<Row>, env: Env, f: Row -> Truth)
    requires |rows| == 2 && forall k | 0 <= k < 2 :: T_A.id in rows[k] && rows[k][T_A.id] == IntV(INT64_MAX)
    ensures SomeGroupFails([T_A], [SUM_A], rows, env, f)
  {
    OneGroup(rows, env);
    var key := [IntV(INT64_MAX)];
    assert ArgCells(SUM_A.arg, rows, env) == [IntV(INT64_MAX), IntV(INT64_MAX)];
    OverflowingSum(ArgCells(SUM_A.arg, rows, env));
    hide AggOutcome, ArgCells, Members, GroupKeys;
    var h := (a: AggExpr) => AggOutcome(a.fn, a.ty, ArgCells(a.arg, rows, env));
    assert h([SUM_A][0]).Fails?;
    assert AggCells([SUM_A], rows, env).Fails?;
    assert GroupFails(GroupRow([T_A], [SUM_A], rows, env)(GroupKeys([T_A], rows, env)[0]), f);
  }

  lemma NotZero(row: Row)
    requires T_A.id in row && row[T_A.id] == IntV(INT64_MAX)
    ensures PredsFn([IS_ZERO], [], LARGE)(row) == False
  {
    PredsFnAt([IS_ZERO], [], LARGE);
    assert EvalPred(IS_ZERO, row, [], LARGE) == False;
    OnePredicate(IS_ZERO, row, [], LARGE);
  }

  lemma OverflowingIs()
    ensures OVERFLOWING == Node(Arbitrary, Filter([IS_ZERO]), [Node(Arbitrary, Aggregate([T_A], [SUM_A]), [ScanOf("t")])])
    ensures RefColumns(IS_ZERO) == {T_A.id} && BoundPred(IS_ZERO) && SubqueriesAvoid(IS_ZERO, OutputIds([SUM_A]))
    ensures PreparedPreds([IS_ZERO], [], LARGE) && AggregateBound(OVERFLOWING, LARGE)
    ensures AggregateForms([T_A], [SUM_A], [Field(T_A.id, Int64)], OuterEnv(OwnColumns(Aggregate([T_A], [SUM_A])), []))
  {
    LargeScan([]);
    var h, out := [Field(T_A.id, Int64)], AggregateHeader([T_A], [SUM_A]);
    assert h[0] == Field(T_A.id, T_A.ty) && h[0].id in Names(h);
    assert out[0] == Field(T_A.id, Int64) && out[1 + 0] == Field(Ident("", "s"), Int64);
    assert InputKeys([T_A], h);
  }

  /** The overflowing group is discarded by HAVING: before the push the query fails in it, afterwards the query succeeds. */
  lemma PushCanHideFailure()
    ensures BoundPlan(OVERFLOWING) && Interpret(OVERFLOWING, LARGE).Fails? && FilterThroughAggregate(OVERFLOWING).Some?
    ensures Interpret(FilterThroughAggregate(OVERFLOWING).value, LARGE).Ok?
  {
    var rows, env := ScanRows("t", LARGE["t"]), OuterEnv(OwnColumns(Aggregate([T_A], [SUM_A])), []);
    var f, rest := PredsFn([IS_ZERO], [], LARGE), PredsFn([], [], LARGE);
    hide *;
    OverflowingIs();
    LargeScan([]);
    KeyConjunctMoves(IS_ZERO, [SUM_A]);
    AggregateQueryBound(IS_ZERO, [SUM_A]);
    TheGroupFails(rows, env, f);
    forall k | 0 <= k < |rows| ensures f(rows[k]) == False {
      NotZero(rows[k]);
    }
    NothingKept(rows, f);
    NoGroups([SUM_A], env, rest);
    NotHarmless(OVERFLOWING, Rel([Field(T_A.id, Int64)], rows), IS_ZERO, [SUM_A], LARGE);
    FilterThroughAggregateExactly(OVERFLOWING, [], LARGE);
    RunIsInterpret(OVERFLOWING, LARGE);
    RunIsInterpret(FilterThroughAggregate(OVERFLOWING).value, LARGE);
  }

  lemma NotHarmless(p: Plan, rel: Rel, q: Pred, aggs: seq<AggExpr>, db: Db)
    requires p == Node(Arbitrary, Filter([q]), [Node(Arbitrary, Aggregate([T_A], aggs), [ScanOf("t")])]) && Run(ScanOf("t"), [], db) == Ok(rel)
    requires Pushable([q], [T_A], true) == [q] && Pushable([q], [T_A], false) == [] && PreparedPreds([q], [], db)
    requires AggregateForms([T_A], aggs, rel.header, OuterEnv(OwnColumns(Aggregate([T_A], aggs)), []))
    requires var env, f := OuterEnv(OwnColumns(Aggregate([T_A], aggs)), []), PredsFn([q], [], db);
             && SomeGroupFails([T_A], aggs, rel.rows, env, f) && !SomeRowFails(rel.rows, f)
             && !SomeGroupFails([T_A], aggs, Keep(rel.rows, IsTrue(f)), env, PredsFn([], [], db))
    ensures !AggregatePushIsHarmless(p, [], db)
  {
    hide Run, Pushable, SomeGroupFails, SomeRowFails, AggregateForms, PreparedPreds, PredsFn, Keep, OwnColumns, OuterEnv;
  }

  // ---------------------------------------------------------------- a column seen again

  /** One row of two columns, and a table of one. */
  const PAIR: Db := map[
    "t" := Rel([Field(Ident("", "a"), Int64), Field(Ident("", "v"), Int64)], [map[Ident("", "a") := IntV(7), Ident("", "v") := IntV(1)]]),
    "u" := OneColumn([7])]

  const T_V: ColumnRef := ColumnRef(Ident("t", "v"), Int64, 1)

  /** (SELECT a FROM u WHERE t.v = t.v), with `t` from the enclosing block. */
  const READS_V: Subplan := Subplan(Node(Arbitrary, Filter([Cmp(Column(T_V), Eq, Column(T_V))]), [ScanOf("u")]), [T_V])

  const EQUALS_U: Pred := Cmp(Column(T_A), Eq, ScalarQuery(READS_V, Int64))

  /** SELECT a FROM t GROUP BY a HAVING a = (SELECT a FROM u WHERE t.v = t.v). */
  const UNGROUPED: Plan := Node(Arbitrary, Filter([EQUALS_U]), [Node(Arbitrary, Aggregate([T_A], []), [ScanOf("t")])])

  function PairHeader(): seq<Field> {
    [Field(T_A.id, Int64), Field(T_V.id, Int64)]
  }

  lemma PairScan(outer: seq<Row>)
    ensures var rel := Rel(PairHeader(), ScanRows("t", PAIR["t"]));
            Run(ScanOf("t"), outer, PAIR) == Ok(rel) && ColumnsOf(ScanOf("t"), PAIR) == rel.header && |rel.rows| == 1
    ensures var row := ScanRows("t", PAIR["t"])[0];
            T_A.id in row && T_V.id in row && !row[T_V.id].Null? && row[T_A.id].Type() == Int64
  {
    var p, table := ScanOf("t"), PAIR["t"];
    var header := Rename("t", table.header);
    assert header == PairHeader();
    assert DistinctIds(header) && Prepared(p, outer, PAIR);
    assert CellsOf(table.header, table.rows[0])[1] == IntV(1);
    MakeRowFits(header, CellsOf(table.header, table.rows[0]));
    assert header[0].id == T_A.id && header[1].id == T_V.id;
  }

  lemma ScanOfU(outer: seq<Row>)
    ensures "u" in PAIR
    ensures var rel := Rel([Field(Ident("u", "a"), Int64)], ScanRows("u", PAIR["u"]));
            Run(ScanOf("u"), outer, PAIR) == Ok(rel) && |rel.rows| == 1 && Ident("u", "a") in rel.rows[0]
  {
    var p, table := ScanOf("u"), PAIR["u"];
    var header := Rename("u", table.header);
    assert header == [Field(Ident("u", "a"), Int64)];
    assert DistinctIds(header) && Prepared(p, outer, PAIR);
    MakeRowFits(header, CellsOf(table.header, table.rows[0]));
    assert header[0].id == Ident("u", "a");
  }

  lemma ReadsVIs()
    ensures READS_V == Subplan(Node(Arbitrary, Filter([Cmp(Column(T_V), Eq, Column(T_V))]), [ScanOf("u")]), [T_V]) && READS_V.corr != []
    ensures EQUALS_U == Cmp(Column(T_A), Eq, ScalarQuery(READS_V, Int64)) && T_V.depth == 1 && T_A.depth == 0
  {
  }

  /** The conjunct compares where the row has t.v, and fails where it does not. */
  lemma ConjunctNeedsV(row: Row)
    requires T_A.id in row
    ensures T_V.id in row && !row[T_V.id].Null? ==> PredsFn([EQUALS_U], [], PAIR)(row) != Error
    ensures T_V.id !in row ==> PredsFn([EQUALS_U], [], PAIR)(row) == Error
  {
    hide *;
    ReadsVIs();
    PredsFnAt([EQUALS_U], [], PAIR);
    OnePredicate(EQUALS_U, row, [], PAIR);
    ComparisonFails(T_A, READS_V, row, [], PAIR);
    ScanOfU([] + [row]);
    var rel := Rel([Field(Ident("u", "a"), Int64)], ScanRows("u", PAIR["u"]));
    SubqueryDecided(T_V, "u", rel, row, PAIR);
    OneCellResult(rel, Ident("u", "a"));
  }

  lemma UngroupedIs()
    ensures UNGROUPED == Node(Arbitrary, Filter([EQUALS_U]), [Node(Arbitrary, Aggregate([T_A], []), [ScanOf("t")])])
    ensures RefColumns(EQUALS_U) == {T_A.id} && PreparedPreds([EQUALS_U], [], PAIR)
    ensures AggregateForms([T_A], [], PairHeader(), OuterEnv(OwnColumns(Aggregate([T_A], [])), []))
    ensures KeyNames([T_A]) == {T_A.id} && T_V.id !in KeyNames([T_A]) && OutputIds([]) == {}
  {
    var h := PairHeader();
    assert READS_V.corr != [];
    hide Run;
    OnePrepared(EQUALS_U, [], PAIR);
    assert h[0].id in Names(h);
    assert [T_A][0].id in KeyNames([T_A]);
  }

  lemma UngroupedKeys()
    ensures InputKeys([T_A], PairHeader()) && SubqueriesAvoid(EQUALS_U, OutputIds([]))
  {
    var h := PairHeader();
    assert h[0] == Field(T_A.id, T_A.ty);
  }

  lemma ConjunctBound()
    ensures BoundPred(EQUALS_U)
  {
    ReadsVIs();
    SelfEqualityBound(T_V, "u");
    hide BoundSub;
  }

  lemma UngroupedBound()
    ensures BoundPlan(UNGROUPED) && AggregateBound(UNGROUPED, PAIR)
  {
    UngroupedIs();
    ConjunctBound();
    PairScan([]);
    UngroupedKeys();
    hide BoundPred, BoundPlan, InputKeys, ColumnsOf, SubqueriesAvoid, Run, OuterEnv, OwnColumns, AggregateForms;
    AggregateQueryBound(EQUALS_U, []);
  }

  /** A group without aggregates is its key, which has no t.v. */
  lemma GroupIsKey(rows: seq<Row>, key: seq<Cell>, env: Env)
    requires |key| == 1
    ensures var r := GroupRow([T_A], [], rows, env)(key);
            r.Ok? && r.value.Keys == {T_A.id}
  {
    hide Members;
    assert GroupRow([T_A], [], rows, env)(key).Ok?;
    GroupRowNames([T_A], [], rows, key, env);
    UngroupedIs();
  }

  lemma HiddenAbove(rows: seq<Row>, env: Env)
    requires rows != []
    ensures SomeGroupFails([T_A], [], rows, env, PredsFn([EQUALS_U], [], PAIR))
  {
    hide *;
    GroupOfRow([T_A], rows, env);
    UngroupedIs();
    var f, gk := PredsFn([EQUALS_U], [], PAIR), GroupKeys([T_A], rows, env);
    var key := KeyOf([T_A], rows[0], env);
    GroupIsKey(rows, key, env);
    ConjunctNeedsV(GroupRow([T_A], [], rows, env)(key).value);
    var g :| 0 <= g < |gk| && gk[g] == key;
    FoundFailure([T_A], [], rows, env, f, g);
  }

  lemma FoundFailure(keys: seq<ColumnRef>, aggs: seq<AggExpr>, rows: seq<Row>, env: Env, f: Row -> Truth, g: int)
    requires 0 <= g < |GroupKeys(keys, rows, env)|
    requires var r := GroupRow(keys, aggs, rows, env)(GroupKeys(keys, rows, env)[g]);
             r.Fails? || f(r.value) == Error
    ensures SomeGroupFails(keys, aggs, rows, env, f)
  {
    hide GroupKeys, GroupRow;
    assert GroupFails(GroupRow(keys, aggs, rows, env)(GroupKeys(keys, rows, env)[g]), f);
  }

  lemma NothingFailsBelow(rows: seq<Row>, env: Env)
    ensures !SomeGroupFails([T_A], [], rows, env, PredsFn([], [], PAIR))
  {
    hide GroupRow;
    var gk := GroupKeys([T_A], rows, env);
    GroupOfRow([T_A], rows, env);
    PredsFnAt([], [], PAIR);
    forall g | 0 <= g < |gk| ensures !GroupFails(GroupRow([T_A], [], rows, env)(gk[g]), PredsFn([], [], PAIR)) {
      GroupIsKey(rows, gk[g], env);
      NoPreds(GroupRow([T_A], [], rows, env)(gk[g]).value, [], PAIR);
    }
  }

  /** Above the aggregate the subquery does not see t.v and the query fails; below it the column is there. */
  lemma PushCanRestoreColumns()
    ensures BoundPlan(UNGROUPED) && Interpret(UNGROUPED, PAIR).Fails? && FilterThroughAggregate(UNGROUPED).Some?
    ensures Interpret(FilterThroughAggregate(UNGROUPED).value, PAIR).Ok?
  {
    var rows, env := ScanRows("t", PAIR["t"]), OuterEnv(OwnColumns(Aggregate([T_A], [])), []);
    var f := PredsFn([EQUALS_U], [], PAIR);
    hide *;
    UngroupedIs();
    UngroupedBound();
    PairScan([]);
    KeyConjunctMoves(EQUALS_U, []);
    ConjunctNeedsV(rows[0]);
    OnlyRowFine(rows, f);
    HiddenAbove(rows, env);
    NothingFailsBelow(Keep(rows, IsTrue(f)), env);
    NotHarmless(UNGROUPED, Rel(PairHeader(), rows), EQUALS_U, [], PAIR);
    FilterThroughAggregateExactly(UNGROUPED, [], PAIR);
    RunIsInterpret(UNGROUPED, PAIR);
    RunIsInterpret(FilterThroughAggregate(UNGROUPED).value, PAIR);
  }

  lemma OnlyRowFine(rows: seq<Row>, f: Row -> Truth)
    requires |rows| == 1 && f(rows[0]) != Error
    ensures !SomeRowFails(rows, f)
  {
  }
}
