/** The vectorized engine on well-typed plans without subqueries: batches with selection vectors, masks, hash
  joins, hash aggregation and sorted windows. It returns exactly the row engine's ordered columns, and is
  abandoned exactly when the row engine is.
 */
module Vectorized {
  import opened Plans
  import opened Sequences
  import opened Values
  import opened Algebra
  import opened Windows
  import opened Semantics
  import opened Shapes
  import opened Sorting
  import opened Correlation
  import opened Aggregation
  import opened Deduplication
  import opened RowOrder
  import opened WindowEvaluation
  import opened Schemas
  import opened Interpreter
  import opened Masks
  import opened HashJoins
  import opened NullAwareJoins

  /** The relation a view stands for. */
  function RelOf(v: View): Rel
    requires InRange(v.selection, |v.batch|)
  {
    Rel(v.header, Rows(v))
  }

  lemma ViewFits(v: View)
    requires ValidView(v)
    ensures WellFormedRel(RelOf(v))
  {
    hide RowFits, DistinctIds;
  }

  /** A freshly materialized batch, all of it selected. */
  function Materialized(rel: Rel): (v: View)
    ensures v.header == rel.header && v.batch == rel.rows && InRange(v.selection, |v.batch|) && Rows(v) == rel.rows
  {
    FetchIdentity(rel.rows);
    View(rel.header, rel.rows, Identity(|rel.rows|), true)
  }

  lemma MaterializedValid(rel: Rel)
    requires WellFormedRel(rel)
    ensures ValidView(Materialized(rel)) && RelOf(Materialized(rel)) == rel
  {
  }

  // ---------------------------------------------------------------- project

  /** One projected column, computed over the selection. */
  method ProjectColumn(e: Scalar, v: View, ghost db: Db) returns (cells: seq<Cell>)
    requires ValidView(v) && TypedScalar(e, v.header, [])
    ensures |cells| == |v.selection|
    ensures forall i | 0 <= i < |cells| :: EvalScalar(e, Rows(v)[i], [], db) == Ok(cells[i]) && Cast(e.Type(), cells[i]) == cells[i]
  {
    hide WellFormedRel, Unrepeated, EvalScalar, TypedScalar, Cast;
    cells := [];
    var i := 0;
    while i < |v.selection|
      invariant 0 <= i <= |v.selection| && |cells| == i
      invariant forall k | 0 <= k < i :: EvalScalar(e, Rows(v)[k], [], db) == Ok(cells[k]) && Cast(e.Type(), cells[k]) == cells[k]
    {
      ProjectedCell(e, v, i, db);
      cells := cells + [ScalarCell(e, v.batch[v.selection[i]])];
      i := i + 1;
    }
  }

  lemma ProjectedCell(e: Scalar, v: View, i: int, db: Db)
    requires ValidView(v) && TypedScalar(e, v.header, []) && 0 <= i < |v.selection|
    ensures var c := ScalarCell(e, v.batch[v.selection[i]]);
            EvalScalar(e, Rows(v)[i], [], db) == Ok(c) && Cast(e.Type(), c) == c
  {
    hide RowFits;
    ScalarCellIs(e, v.header, Rows(v)[i], db);
    NoRow();
    TypedScalarValue(e, v.header, [], Rows(v)[i], map[], db);
  }

  method ProjectRows(projs: seq<Projection>, v: View, ghost db: Db) returns (rows: seq<Row>)
    requires ValidView(v) && forall k | 0 <= k < |projs| :: TypedScalar(projs[k].expr, v.header, [])
    ensures MapAll(Rows(v), ProjectFn(projs, [], db)) == Ok(rows)
  {
    hide WellFormedRel, Unrepeated, EvalScalar, TypedScalar, Cast;
    var cols: seq<seq<Cell>> := [];
    var k := 0;
    while k < |projs|
      invariant 0 <= k <= |projs| && |cols| == k
      invariant forall m | 0 <= m < k :: |cols[m]| == |v.selection|
      invariant forall m, i | 0 <= m < k && 0 <= i < |v.selection| ::
                  EvalScalar(projs[m].expr, Rows(v)[i], [], db) == Ok(cols[m][i]) && Cast(projs[m].expr.Type(), cols[m][i]) == cols[m][i]
    {
      var col := ProjectColumn(projs[k].expr, v, db);
      cols := cols + [col];
      k := k + 1;
    }
    ColumnsAreProjection(projs, RelOf(v), cols, [], db);
    rows := ProjectedRows(ProjectHeader(projs), cols, |v.selection|);
  }

  // ---------------------------------------------------------------- distinct, sort, limit

  /** Sorting the selection is sorting the rows. */
  lemma SortedSelection(order: seq<SortKey>, v: View)
    requires ValidView(v)
    ensures var out := StableSort(LessIds(order, map[], v.batch), v.selection);
            && InRange(out, |v.batch|) && Unrepeated(out)
            && Fetch(v.batch, out) == StableSort((a, b) => RowLess(order, map[], a, b), Rows(v))
  {
    hide RowFits, DistinctIds, RowLess;
    var la, lb := LessIds(order, map[], v.batch), (a: Row, b: Row) => RowLess(order, map[], a, b);
    var f := (i: int) => if 0 <= i < |v.batch| then v.batch[i] else map[];
    var out := StableSort(la, v.selection);
    SortMapped(la, lb, v.selection, f);
    assert MapTo(v.selection, f) == Rows(v);
    SortBag(la, v.selection);
    SortedPartitions.UnrepeatedBag(v.selection, out);
    forall i | 0 <= i < |out| ensures 0 <= out[i] < |v.batch| {
      assert out[i] in multiset(v.selection);
    }
    assert MapTo(out, f) == Fetch(v.batch, out);
  }

  lemma SortedElementsFit(order: seq<SortKey>, v: View)
    requires ValidView(v)
    ensures ValidView(v.(selection := StableSort(LessIds(order, map[], v.batch), v.selection), rowsMatchPositions := false))
  {
    SortedSelection(order, v);
  }

  /** A prefix of the selection; the identity shortcut stays valid. */
  method LimitSelection(count: nat, v: View) returns (out: View)
    requires ValidView(v)
    ensures ValidView(out) && out.header == v.header && RelOf(out) == LimitRel(count, RelOf(v))
  {
    hide RowFits, DistinctIds;
    var n := if count < |v.selection| then count else |v.selection|;
    var rows := [];
    var i := 0;
    while i < n
      invariant 0 <= i <= n && rows == v.selection[..i]
    {
      rows := rows + [v.selection[i]];
      i := i + 1;
    }
    out := v.(selection := rows);
    assert count >= |v.selection| ==> rows == v.selection;
    assert Rows(out) == LimitRel(count, RelOf(v)).rows;
  }

  // ---------------------------------------------------------------- nodes

  /** A view and the row engine's outcome are the same: equal columns and rows, or both abandoned. */
  ghost predicate Same(r: Outcome<View>, s: Outcome<Rel>) {
    match r
    case Fails => s.Fails?
    case Ok(v) => ValidView(v) && s == Ok(RelOf(v))
  }

  lemma EmptyEnv(op: Op)
    ensures OuterEnv(OwnColumns(op), []) == map[]
  {
    hide OwnColumns;
  }

  lemma TypedAggregateResolves(keys: seq<ColumnRef>, aggs: seq<AggExpr>, header: seq<Field>)
    requires TypedKeys(keys, header) && forall i | 0 <= i < |aggs| :: TypedAgg(aggs[i].fn, aggs[i].arg, aggs[i].ty, header)
    ensures AggregateResolves(keys, aggs, Names(header), map[])
  {
    forall i | 0 <= i < |keys| ensures Resolves(keys[i], Names(header), map[]) {
      TypedResolves(keys[i], header, map[]);
    }
    forall i | 0 <= i < |aggs| ensures ArgResolves(aggs[i].fn, aggs[i].arg, Names(header), map[]) {
      if aggs[i].arg.Some? {
        TypedResolves(aggs[i].arg.value, header, map[]);
      }
    }
  }

  lemma TypedWindowResolves(w: WinExpr, header: seq<Field>)
    requires TypedWin(w, header)
    ensures WindowResolves(w, Names(header), map[])
  {
    forall i | 0 <= i < |w.partition| ensures Resolves(w.partition[i], Names(header), map[]) {
      TypedResolves(w.partition[i], header, map[]);
    }
    forall i | 0 <= i < |w.order| ensures Resolves(w.order[i].col, Names(header), map[]) {
      TypedResolves(OrderColumns(w.order)[i], header, map[]);
    }
    if w.fn.Aggregated? && w.arg.Some? {
      TypedResolves(w.arg.value, header, map[]);
    }
  }

  method ExecuteAggregate(keys: seq<ColumnRef>, aggs: seq<AggExpr>, v: View) returns (r: Outcome<View>)
    requires ValidView(v) && DistinctIds(AggregateHeader(keys, aggs)) && TypedKeys(keys, v.header)
    requires forall i | 0 <= i < |aggs| :: TypedAgg(aggs[i].fn, aggs[i].arg, aggs[i].ty, v.header)
    ensures Same(r, AggregateRel(keys, aggs, RelOf(v), map[]))
  {
    hide AggCells, Members, KeyOf, WellFormedRel, Unrepeated, DistinctIds;
    TypedAggregateResolves(keys, aggs, v.header);
    AggregateFits(keys, aggs, RelOf(v), map[]);
    var rows := HashAggregate(keys, aggs, v.batch, v.selection, map[]);
    if rows.Fails? {
      return Fails;
    }
    var out := Rel(AggregateHeader(keys, aggs), rows.value);
    MaterializedValid(out);
    r := Ok(Materialized(out));
  }

  method ExecuteWindow(wins: seq<WinExpr>, v: View) returns (r: Outcome<View>)
    requires ValidView(v) && DistinctIds(v.header + WindowHeader(wins))
    requires forall i | 0 <= i < |wins| :: TypedWin(wins[i], v.header)
    ensures Same(r, WindowRel(wins, RelOf(v), map[]))
  {
    hide WindowColumn, TypedWin, RowFits, DistinctIds, KeysTyped, WindowResolves;
    forall i | 0 <= i < |wins| ensures WindowResolves(wins[i], Names(v.header), map[]) {
      TypedWindowResolves(wins[i], v.header);
    }
    forall k | 0 <= k < |wins| ensures KeysTyped(wins[k].order, map[], Rows(v)) {
      FittingRowsTyped(wins[k].order, map[], v.header, Rows(v));
    }
    ViewFits(v);
    WindowFits(wins, RelOf(v), map[]);
    var cols := EvaluateWindows(wins, v.batch, v.selection, map[]);
    if cols.Fails? {
      return Fails;
    }
    var out := Rel(v.header + WindowHeader(wins), WithColumns(WindowHeader(wins), cols.value, Fetch(v.batch, v.selection)));
    MaterializedValid(out);
    r := Ok(Materialized(out));
  }

  method ExecuteProject(projs: seq<Projection>, v: View, ghost db: Db) returns (out: View)
    requires ValidView(v) && DistinctIds(ProjectHeader(projs))
    requires forall k | 0 <= k < |projs| :: TypedScalar(projs[k].expr, v.header, [])
    ensures Same(Ok(out), ProjectRel(ProjectHeader(projs), RelOf(v), ProjectFn(projs, [], db)))
  {
    hide WellFormedRel, Unrepeated, TypedScalar, EvalProjs, DistinctIds;
    var rows := ProjectRows(projs, v, db);
    ProjectFits(projs, RelOf(v), [], db);
    MaterializedValid(Rel(ProjectHeader(projs), rows));
    out := Materialized(Rel(ProjectHeader(projs), rows));
  }

  method ExecuteJoin(kind: JoinKind, on: seq<Pred>, membership: Option<Pred>, lv: View, rv: View, db: Db) returns (out: View)
    requires JoinReady(lv, rv, on) && DistinctIds(JoinHeader(kind, lv.header, rv.header))
    requires kind == NullAwareAnti <==> membership.Some?
    requires membership.Some? ==> TypedPred(membership.value, lv.header, rv.header)
    ensures Same(Ok(out), JoinRel(kind, PredsFn(on, [], db), MemberFn(membership, [], db), RelOf(lv), RelOf(rv)))
  {
    hide WellFormedRel, Unrepeated, TypedPred, TypedPreds, EvalPreds, EvalPred, DistinctIds, JoinOne;
    var rows;
    if kind == NullAwareAnti {
      rows := NullAwareJoin(lv, rv, on, membership.value, db);
    } else if kind == Semi || kind == Anti {
      rows := ExistenceJoin(kind == Semi, lv, rv, on, db);
    } else {
      rows := ProducingJoin(kind == JoinKind.Left, lv, rv, on, db);
    }
    assert FlatMap(Rows(lv), JoinOne(kind, PredsFn(on, [], db), MemberFn(membership, [], db), RightRel(rv))) == Ok(rows);
    ViewFits(lv);
    ViewFits(rv);
    JoinFits(kind, PredsFn(on, [], db), MemberFn(membership, [], db), RelOf(lv), RelOf(rv));
    MaterializedValid(Rel(JoinHeader(kind, lv.header, rv.header), rows));
    out := Materialized(Rel(JoinHeader(kind, lv.header, rv.header), rows));
  }

  lemma TypedSortResolves(order: seq<SortKey>, projected: seq<Field>, source: seq<Field>)
    requires TypedSortKeys(order, projected, source)
    ensures KeysResolve(order, Names(source) + Names(projected), map[])
  {
  }

  lemma TypedKeysResolve(order: seq<SortKey>, header: seq<Field>)
    requires TypedKeys(OrderColumns(order), header)
    ensures KeysResolve(order, Names(header), map[])
  {
    forall i | 0 <= i < |order| ensures Resolves(order[i].col, Names(header), map[]) {
      TypedResolves(OrderColumns(order)[i], header, map[]);
    }
  }

  method ExecuteSort(order: seq<SortKey>, v: View) returns (out: View)
    requires ValidView(v) && TypedKeys(OrderColumns(order), v.header)
    ensures Same(Ok(out), SortRel(order, RelOf(v), map[]))
  {
    hide RowFits, DistinctIds, RowLess, TypedKeys, StableSort, KeysResolve;
    TypedKeysResolve(order, v.header);
    SortedSelection(order, v);
    SortedElementsFit(order, v);
    out := v.(selection := StableSort(LessIds(order, map[], v.batch), v.selection), rowsMatchPositions := false);
  }

  /** Sorting a projection: the source columns the keys need are kept beside the projected ones. */
  method ExecuteSortedProject(order: seq<SortKey>, projs: seq<Projection>, source: View, ghost db: Db) returns (out: View)
    requires ValidView(source) && DistinctIds(ProjectHeader(projs)) && TypedSortKeys(order, ProjectHeader(projs), source.header)
    requires forall k | 0 <= k < |projs| :: TypedScalar(projs[k].expr, source.header, [])
    ensures var projected := ProjectRel(ProjectHeader(projs), RelOf(source), ProjectFn(projs, [], db));
            projected.Ok? && Same(Ok(out), SortProjected(order, RelOf(source), projected.value, map[]))
  {
    hide WellFormedRel, Unrepeated, TypedScalar, EvalProjs, DistinctIds, TypedSortKeys, StableSort, RowLess, KeysResolve;
    var rows := ProjectRows(projs, source, db);
    var projected := Rel(ProjectHeader(projs), rows);
    ProjectFits(projs, RelOf(source), [], db);
    TypedSortResolves(order, ProjectHeader(projs), source.header);
    SortProjectedFits(order, RelOf(source), projected, map[]);
    var sorted := SortProjected(order, Rel(source.header, Fetch(source.batch, source.selection)), projected, map[]);
    MaterializedValid(sorted.value);
    out := Materialized(sorted.value);
  }

  /** Every node of a well-typed plan without subqueries: the view holds the row engine's result. */
  method ExecuteToView(p: Plan, db: Db) returns (r: Outcome<View>)
    requires Schema(p, db).Some?
    ensures Same(r, Eval(p, [], db))
    decreases p
  {
    hide FilterRel, ProjectRel, JoinRel, AggregateRel, WindowRel, SortRel, SortProjected, ScanRel, DistinctRel, LimitRel, OuterEnv, ValidView,
         TypedPreds, TypedPred, TypedScalar, TypedWin, TypedAgg, TypedKeys, TypedSortKeys, DistinctIds;
    var op := p.op;
    EmptyEnv(op);
    SchemaIsHeader(p, db);
    if op.Scan? {
      ScanFits(op.binding, db[op.table]);
      r := ScanView(op, db);
      return;
    }
    if op.Join? {
      r := ExecuteInputsAndJoin(p, db);
      return;
    }
    if op.Sort? && p.kids[0].op.Project? {
      r := ExecuteProjectThenSort(p, db);
      return;
    }
    SchemaIsHeader(p.kids[0], db);
    var input := ExecuteToView(p.kids[0], db);
    if input.Fails? {
      return Fails;
    }
    var v := input.value;
    ViewInRange(v);
    match op
    case Filter(preds) =>
      var out := ExecuteFilter(preds, v, db);
      r := Ok(out);
    case Project(projs) =>
      var out := ExecuteProject(projs, v, db);
      r := Ok(out);
    case Aggregate(keys, aggs) => r := ExecuteAggregate(keys, aggs, v);
    case Window(wins) => r := ExecuteWindow(wins, v);
    case Distinct => r := ExecuteDistinct(v);
    case Sort(order) =>
      var out := ExecuteSort(order, v);
      r := Ok(out);
    case Limit(count) =>
      var out := LimitSelection(count, v);
      ViewInRange(out);
      r := Ok(out);
  }

  lemma ViewInRange(v: View)
    requires ValidView(v)
    ensures InRange(v.selection, |v.batch|)
  {
  }

  method ScanView(op: Op, db: Db) returns (r: Outcome<View>)
    requires op.Scan? && op.table in db && DistinctIds(Rename(op.binding, db[op.table].header))
    ensures Same(r, ScanRel(op.binding, db[op.table]))
  {
    hide WellFormedRel, DistinctIds;
    ScanFits(op.binding, db[op.table]);
    var rel := ScanRel(op.binding, db[op.table]).value;
    MaterializedValid(rel);
    r := Ok(Materialized(rel));
  }

  method ExecuteDistinct(v: View) returns (r: Outcome<View>)
    requires ValidView(v)
    ensures Same(r, Ok(DistinctRel(RelOf(v))))
  {
    hide RowFits, DistinctIds;
    var sel := DistinctSelection(v.header, v.batch, v.selection);
    r := Ok(v.(selection := sel, rowsMatchPositions := false));
  }

  /** The membership side of a NULL-aware join runs first. */
  method ExecuteInputsAndJoin(p: Plan, db: Db) returns (r: Outcome<View>)
    requires Schema(p, db).Some? && p.op.Join?
    ensures Same(r, Eval(p, [], db))
    decreases p, 0
  {
    hide JoinRel, ValidView, TypedPreds, TypedPred, DistinctIds;
    SchemaIsHeader(p.kids[0], db);
    SchemaIsHeader(p.kids[1], db);
    var left, right;
    if p.op.kind == NullAwareAnti {
      right := ExecuteToView(p.kids[1], db);
      left := ExecuteToView(p.kids[0], db);
    } else {
      left := ExecuteToView(p.kids[0], db);
      right := ExecuteToView(p.kids[1], db);
    }
    if left.Fails? || right.Fails? {
      return Fails;
    }
    ViewInRange(left.value);
    ViewInRange(right.value);
    var out := ExecuteJoin(p.op.kind, p.op.on, p.op.membership, left.value, right.value, db);
    r := Ok(out);
  }

  method ExecuteProjectThenSort(p: Plan, db: Db) returns (r: Outcome<View>)
    requires Schema(p, db).Some? && p.op.Sort? && p.kids[0].op.Project?
    ensures Same(r, Eval(p, [], db))
    decreases p, 0
  {
    hide ProjectRel, SortProjected, ValidView, TypedScalar, TypedSortKeys, DistinctIds, OuterEnv;
    EmptyEnv(p.op);
    var project := p.kids[0];
    assert Schema(project, db).Some?;
    SchemaIsHeader(project.kids[0], db);
    var source := ExecuteToView(project.kids[0], db);
    if source.Fails? {
      return Fails;
    }
    ViewInRange(source.value);
    var out := ExecuteSortedProject(p.op.order, project.op.projs, source.value, db);
    r := Ok(out);
  }

  /** A well-typed plan without subqueries has nothing to prepare and no correlation columns to bind. */
  lemma {:induction false} TypedPlansAreBound(p: Plan, db: Db)
    requires Schema(p, db).Some?
    ensures Prepared(p, [], db) && BoundPlan(p)
    decreases p
  {
    hide DistinctIds, TypedWin, TypedAgg, TypedKeys, TypedSortKeys;
    TypedOpIsBound(p, db);
    if !p.op.Scan? {
      TypedPlansAreBound(p.kids[0], db);
      if p.op.Join? {
        TypedPlansAreBound(p.kids[1], db);
      }
    }
  }

  lemma {:induction false} TypedPredIsBound(p: Pred, left: seq<Field>, right: seq<Field>, db: Db)
    requires TypedPred(p, left, right)
    ensures PreparedPred(p, [], db) && BoundPred(p)
  {
    match p
    case And(l, r) =>
      TypedPredIsBound(l, left, right, db);
      TypedPredIsBound(r, left, right, db);
    case Or(l, r) =>
      TypedPredIsBound(l, left, right, db);
      TypedPredIsBound(r, left, right, db);
    case _ =>
  }

  lemma TypedOpIsBound(p: Plan, db: Db)
    requires Schema(p, db).Some?
    ensures PreparedOp(p.op, [], db) && BoundOp(p.op)
  {
    hide DistinctIds, TypedWin, TypedAgg, TypedKeys, TypedSortKeys, TypedPred, PreparedPred, BoundPred;
    match p.op
    case Filter(preds) =>
      var header := Schema(p.kids[0], db).value;
      forall i | 0 <= i < |preds| ensures PreparedPred(preds[i], [], db) && BoundPred(preds[i]) {
        TypedPredIsBound(preds[i], header, [], db);
      }
    case Join(_, on, membership) =>
      var left, right := Schema(p.kids[0], db).value, Schema(p.kids[1], db).value;
      forall i | 0 <= i < |on| ensures PreparedPred(on[i], [], db) && BoundPred(on[i]) {
        TypedPredIsBound(on[i], left, right, db);
      }
      if membership.Some? {
        TypedPredIsBound(membership.value, left, right, db);
      }
    case _ =>
  }

  /** The vectorized engine returns exactly what the row engine returns. */
  method ExecuteVectorized(p: Plan, db: Db) returns (r: Outcome<Rel>)
    requires Schema(p, db).Some?
    ensures r == Interpret(p, db)
  {
    hide ValidView;
    TypedPlansAreBound(p, db);
    var v := ExecuteToView(p, db);
    if v.Fails? {
      return Fails;
    }
    ViewInRange(v.value);
    r := Ok(Rel(v.value.header, Fetch(v.value.batch, v.value.selection)));
  }

  /** The differential check between the engines succeeds on every such plan and every database. */
  method CompareEngines(p: Plan, db: Db) returns (agree: bool)
    requires Schema(p, db).Some?
    ensures agree
  {
    TypedPlansAreBound(p, db);
    var oracle := new Interpreter(db);
    var expected := oracle.ExecuteInterpreted(p);
    var actual := ExecuteVectorized(p, db);
    agree := expected == actual;
  }
}
