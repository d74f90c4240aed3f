/** What the plain relational operators return, stated row by row: scans rename columns, filters keep the rows on which every
  conjunct is true, projections show one cell per expression, LEFT joins extend with NULLs, DISTINCT keeps first occurrences;
  and which plans are refused before any row is read.
 */
module OperatorLaws {
  import opened Plans
  import opened Sequences
  import opened Values
  import opened Algebra
  import opened Windows
  import opened Semantics
  import opened Shapes
  import opened Correlation
  import opened Aggregation
  import opened RowOrder
  import opened ValueLaws

  // ---------------------------------------------------------------- refused plans

  /** The inputs of its kind, and an operator with what it needs. */
  ghost predicate Complete(p: Plan) {
    && |p.kids| == (match p.op case Scan(_, _) => 0 case Join(_, _, _) => 2 case _ => 1)
    && match p.op
       case Project(projs) => |projs| > 0
       case Aggregate(keys, aggs) => |keys| + |aggs| > 0
       case Join(kind, _, membership) =>
         && (kind == NullAwareAnti <==> membership.Some?)
         && (membership.Some? ==> membership.value.Cmp? && membership.value.op == Eq && membership.value.lhs.Type() == membership.value.rhs.Type())
       case _ => true
  }

  /** A plan that is not complete fails; a complete one is refused only for what its inputs hold. */
  lemma RunningPlansAreComplete(p: Plan, outer: seq<Row>, db: Db)
    ensures Complete(p) <==> Executable(p.op) && |p.kids| == Arity(p.op)
    ensures Eval(p, outer, db).Ok? ==> Complete(p)
  {
  }

  /** The columns an operator reads by itself: group keys and arguments, partition columns, order keys. */
  lemma {:induction false} AggregateReads(aggs: seq<AggExpr>, c: ColumnRef)
    ensures c in AggColumns(aggs) <==> exists a :: 0 <= a < |aggs| && aggs[a].arg == Some(c)
  {
    if aggs != [] {
      var n := |aggs| - 1;
      AggregateReads(aggs[..n], c);
      assert forall a | 0 <= a < n :: aggs[..n][a] == aggs[a];
      if exists a :: 0 <= a < n && aggs[..n][a].arg == Some(c) {
        var a :| 0 <= a < n && aggs[..n][a].arg == Some(c);
        assert aggs[a].arg == Some(c);
      }
    }
  }

  ghost predicate WindowReadsColumn(w: WinExpr, c: ColumnRef) {
    w.arg == Some(c) || c in w.partition || exists k :: 0 <= k < |w.order| && w.order[k].col == c
  }

  ghost predicate SomeWindowReads(wins: seq<WinExpr>, c: ColumnRef) {
    exists k :: 0 <= k < |wins| && WindowReadsColumn(wins[k], c)
  }

  lemma SomeWindowSnoc(wins: seq<WinExpr>, c: ColumnRef)
    requires wins != []
    ensures SomeWindowReads(wins, c) <==> SomeWindowReads(wins[..|wins| - 1], c) || WindowReadsColumn(wins[|wins| - 1], c)
  {
    hide WindowReadsColumn;
    var init := wins[..|wins| - 1];
    assert forall k | 0 <= k < |init| :: init[k] == wins[k];
    if SomeWindowReads(init, c) {
      var k :| 0 <= k < |init| && WindowReadsColumn(init[k], c);
      assert WindowReadsColumn(wins[k], c);
    }
    if SomeWindowReads(wins, c) {
      var k :| 0 <= k < |wins| && WindowReadsColumn(wins[k], c);
      assert k < |init| ==> WindowReadsColumn(init[k], c);
    }
  }

  lemma {:induction false} WindowsRead(wins: seq<WinExpr>, c: ColumnRef)
    ensures c in WinColumns(wins) <==> SomeWindowReads(wins, c)
  {
    if wins != [] {
      var n := |wins| - 1;
      WindowsRead(wins[..n], c);
      SomeWindowSnoc(wins, c);
      OrderReads(wins[n].order, c);
      hide OrderColumns, SomeWindowReads;
    }
  }

  lemma OrderReads(order: seq<SortKey>, c: ColumnRef)
    ensures c in OrderColumns(order) <==> exists k :: 0 <= k < |order| && order[k].col == c
  {
    if exists k :: 0 <= k < |order| && order[k].col == c {
      var k :| 0 <= k < |order| && order[k].col == c;
      assert OrderColumns(order)[k] == c;
    }
  }

  lemma OperatorReads(op: Op, c: ColumnRef)
    ensures c in OwnColumns(op) <==>
            match op
            case Aggregate(keys, aggs) => c in keys || exists a :: 0 <= a < |aggs| && aggs[a].arg == Some(c)
            case Window(wins) => SomeWindowReads(wins, c)
            case Sort(order) => exists k :: 0 <= k < |order| && order[k].col == c
            case _ => false
  {
    match op
    case Aggregate(_, aggs) => AggregateReads(aggs, c);
    case Window(wins) => WindowsRead(wins, c);
    case Sort(order) => OrderReads(order, c);
    case _ =>
  }

  /** The operators that optimization refuses: those with an empty part, and joins whose membership test is missing, misplaced
    or not an equality between operands of one type. */
  lemma RefusedOperators(op: Op)
    ensures !ValidOp(op) <==>
            match op
            case Scan(table, binding) => |table| == 0 || |binding| == 0
            case Filter(preds) => |preds| == 0
            case Project(projs) => |projs| == 0
            case Aggregate(keys, aggs) => |keys| + |aggs| == 0
            case Window(wins) => |wins| == 0
            case Distinct => false
            case Sort(order) => |order| == 0
            case Limit(_) => false
            case Join(kind, _, membership) =>
              match membership
              case None => kind == NullAwareAnti
              case Some(m) => kind != NullAwareAnti || !m.Cmp? || m.op != Eq || m.lhs.Type() != m.rhs.Type()
  {
  }

  // ---------------------------------------------------------------- scan

  /** A scan shows every row of the table, in order, each column under the binding; it needs the table, and columns that stay
    apart. */
  lemma ScanMeans(perm: OrderPermission, table: string, binding: string, outer: seq<Row>, db: Db)
    requires table in db ==> forall i | 0 <= i < |db[table].rows| :: RowFits(db[table].header, db[table].rows[i])
    ensures var out := Eval(Node(perm, Scan(table, binding), []), outer, db);
            && (out.Ok? <==> table in db && forall f, g | 0 <= f < g < |db[table].header| ::
                  db[table].header[f].id.column != db[table].header[g].id.column)
            && (out.Ok? ==> |out.value.rows| == |db[table].rows| && |out.value.header| == |db[table].header|)
            && (out.Ok? ==> forall i, f | 0 <= i < |db[table].rows| && 0 <= f < |db[table].header| ::
                  ShowsColumn(binding, db[table].header[f], db[table].rows[i], out.value.rows[i]))
  {
    if table in db {
      ScanColumns(binding, db[table]);
    }
  }

  ghost predicate ShowsColumn(binding: string, f: Field, row: Row, shown: Row) {
    var id := Ident(binding, f.id.column);
    f.id in row && id in shown && shown[id] == row[f.id]
  }

  lemma ScanColumns(binding: string, table: Rel)
    requires forall i | 0 <= i < |table.rows| :: RowFits(table.header, table.rows[i])
    ensures var header := Rename(binding, table.header);
            && (DistinctIds(header) <==> forall f, g | 0 <= f < g < |header| :: table.header[f].id.column != table.header[g].id.column)
            && (DistinctIds(header) ==> forall i, f | 0 <= i < |table.rows| && 0 <= f < |header| ::
                  ShowsColumn(binding, table.header[f], table.rows[i], ScanRows(binding, table)[i]))
  {
    var header := Rename(binding, table.header);
    if DistinctIds(header) {
      assert forall f, g | 0 <= f < g < |header| :: header[f].id != header[g].id;
      forall i, f | 0 <= i < |table.rows| && 0 <= f < |header|
        ensures ShowsColumn(binding, table.header[f], table.rows[i], ScanRows(binding, table)[i])
      {
        assert RowFits(table.header, table.rows[i]);
        ScannedCell(binding, table, i, f);
      }
    }
  }

  lemma ScannedCell(binding: string, table: Rel, i: int, f: int)
    requires DistinctIds(Rename(binding, table.header)) && 0 <= i < |table.rows| && 0 <= f < |table.header|
    requires RowFits(table.header, table.rows[i])
    ensures ShowsColumn(binding, table.header[f], table.rows[i], ScanRows(binding, table)[i])
  {
    var header := Rename(binding, table.header);
    var cells := CellsOf(table.header, table.rows[i]);
    assert Unrepeated(Ids(header));
    assert cells[f] == table.rows[i][table.header[f].id];
    assert Ids(header)[f] == Ident(binding, table.header[f].id.column);
    hide MakeRow;
    assert MakeRow(Ids(header), cells)[Ids(header)[f]] == cells[f];
  }

  // ---------------------------------------------------------------- filter

  /** Every conjunct is true of the row. */
  ghost predicate AllHold(ps: seq<Pred>, row: Row, outer: seq<Row>, db: Db) {
    forall k | 0 <= k < |ps| :: EvalPred(ps[k], row, outer, db) == True
  }

  ghost predicate SomeFails(ps: seq<Pred>, row: Row, outer: seq<Row>, db: Db) {
    exists k :: 0 <= k < |ps| && EvalPred(ps[k], row, outer, db) == Error
  }

  lemma {:induction false} ConjunctionMeans(ps: seq<Pred>, row: Row, outer: seq<Row>, db: Db)
    ensures EvalPreds(ps, row, outer, db) == Error <==> SomeFails(ps, row, outer, db)
    ensures EvalPreds(ps, row, outer, db) == True <==> AllHold(ps, row, outer, db)
  {
    if ps != [] {
      hide EvalPred;
      var n := |ps| - 1;
      ConjunctionMeans(ps[..n], row, outer, db);
      assert forall k | 0 <= k < n :: ps[..n][k] == ps[k];
      SomeFailsSnoc(ps, row, outer, db);
      assert AllHold(ps, row, outer, db) <==> AllHold(ps[..n], row, outer, db) && EvalPred(ps[n], row, outer, db) == True;
    }
  }

  lemma SomeFailsSnoc(ps: seq<Pred>, row: Row, outer: seq<Row>, db: Db)
    requires ps != []
    ensures SomeFails(ps, row, outer, db) <==>
            SomeFails(ps[..|ps| - 1], row, outer, db) || EvalPred(ps[|ps| - 1], row, outer, db) == Error
  {
    hide EvalPred;
    var n := |ps| - 1;
    assert forall k | 0 <= k < n :: ps[..n][k] == ps[k];
    if SomeFails(ps[..n], row, outer, db) {
      var k :| 0 <= k < n && EvalPred(ps[..n][k], row, outer, db) == Error;
      assert EvalPred(ps[k], row, outer, db) == Error;
    }
    if SomeFails(ps, row, outer, db) {
      var k :| 0 <= k < |ps| && EvalPred(ps[k], row, outer, db) == Error;
      assert k < n ==> EvalPred(ps[..n][k], row, outer, db) == Error;
    }
  }

  /** `at` lists, in order, exactly the positions whose rows satisfy every conjunct. */
  ghost predicate Selects(at: seq<int>, ps: seq<Pred>, rows: seq<Row>, outer: seq<Row>, db: Db) {
    && Positions(at, |rows|) && Ascending(at)
    && forall i | 0 <= i < |rows| :: i in at <==> AllHold(ps, rows[i], outer, db)
  }

  ghost predicate AnyFails(ps: seq<Pred>, rows: seq<Row>, outer: seq<Row>, db: Db) {
    exists i :: 0 <= i < |rows| && SomeFails(ps, rows[i], outer, db)
  }

  lemma AnyFailsSnoc(ps: seq<Pred>, rows: seq<Row>, outer: seq<Row>, db: Db)
    requires rows != []
    ensures AnyFails(ps, rows, outer, db) <==> AnyFails(ps, rows[..|rows| - 1], outer, db) || SomeFails(ps, rows[|rows| - 1], outer, db)
  {
    hide SomeFails;
    var init := rows[..|rows| - 1];
    assert forall i | 0 <= i < |init| :: init[i] == rows[i];
    if AnyFails(ps, init, outer, db) {
      var i :| 0 <= i < |init| && SomeFails(ps, init[i], outer, db);
      assert SomeFails(ps, rows[i], outer, db);
    }
    if AnyFails(ps, rows, outer, db) {
      var i :| 0 <= i < |rows| && SomeFails(ps, rows[i], outer, db);
      assert i < |init| ==> SomeFails(ps, init[i], outer, db);
    }
  }

  lemma AppendedPosition<T>(rows: seq<T>, init: seq<int>)
    requires rows != [] && Positions(init, |rows| - 1) && Ascending(init)
    ensures var n, at := |rows| - 1, init + [|rows| - 1];
            && Positions(at, |rows|) && Ascending(at) && n in at && n !in init
            && (forall i | 0 <= i < n :: i in at <==> i in init)
            && Fetch(rows, at) == Fetch(rows[..n], init) + [rows[n]]
  {
    var n, at := |rows| - 1, init + [|rows| - 1];
    assert at[|init|] == n;
    assert forall i | 0 <= i < |init| :: at[i] == init[i];
  }

  lemma ShorterPositions<T>(rows: seq<T>, init: seq<int>)
    requires rows != [] && Positions(init, |rows| - 1)
    ensures Positions(init, |rows|) && |rows| - 1 !in init && Fetch(rows, init) == Fetch(rows[..|rows| - 1], init)
  {
  }

  lemma {:induction false} FilteredRows(ps: seq<Pred>, rows: seq<Row>, outer: seq<Row>, db: Db) returns (at: seq<int>)
    ensures var r := FlatMap(rows, KeepTrue(PredsFn(ps, outer, db)));
            && (r.Fails? <==> AnyFails(ps, rows, outer, db)) && Selects(at, ps, rows, outer, db)
            && (r.Ok? ==> r.value == Fetch(rows, at))
  {
    at := [];
    if rows != [] {
      hide AnyFails, SomeFails, AllHold, Selects, FlatMap, KeepTrue, PredsFn;
      var n := |rows| - 1;
      var init := FilteredRows(ps, rows[..n], outer, db);
      AnyFailsSnoc(ps, rows, outer, db);
      KeptSnoc(ps, rows, outer, db);
      at := SelectsSnoc(init, ps, rows, outer, db);
    }
  }

  lemma SelectsSnoc(init: seq<int>, ps: seq<Pred>, rows: seq<Row>, outer: seq<Row>, db: Db) returns (at: seq<int>)
    requires rows != [] && Selects(init, ps, rows[..|rows| - 1], outer, db)
    ensures Selects(at, ps, rows, outer, db)
    ensures Fetch(rows, at) == Fetch(rows[..|rows| - 1], init) + if AllHold(ps, rows[|rows| - 1], outer, db) then [rows[|rows| - 1]] else []
  {
    hide AllHold;
    var n := |rows| - 1;
    assert forall i | 0 <= i < n :: rows[..n][i] == rows[i];
    AppendedPosition(rows, init);
    ShorterPositions(rows, init);
    at := if AllHold(ps, rows[n], outer, db) then init + [n] else init;
    hide Positions, Ascending, Fetch;
    assert Fetch(rows[..n], init) + [] == Fetch(rows[..n], init);
  }

  lemma KeptSnoc(ps: seq<Pred>, rows: seq<Row>, outer: seq<Row>, db: Db)
    requires rows != []
    ensures var n, keep := |rows| - 1, KeepTrue(PredsFn(ps, outer, db));
            FlatMap(rows, keep) ==
            if FlatMap(rows[..n], keep).Fails? || SomeFails(ps, rows[n], outer, db) then Fails
            else if AllHold(ps, rows[n], outer, db) then Ok(FlatMap(rows[..n], keep).value + [rows[n]])
            else FlatMap(rows[..n], keep)
  {
    hide SomeFails, AllHold, EvalPreds;
    var n, keep := |rows| - 1, KeepTrue(PredsFn(ps, outer, db));
    PredsFnAt(ps, outer, db);
    ConjunctionMeans(ps, rows[n], outer, db);
    if FlatMap(rows[..n], keep).Ok? {
      assert FlatMap(rows[..n], keep).value + [] == FlatMap(rows[..n], keep).value;
    }
  }

  /** A filter keeps, in order, exactly the rows on which every conjunct is true; it fails exactly when its input does or a
    conjunct fails on some row. */
  lemma FilterMeans(perm: OrderPermission, ps: seq<Pred>, kid: Plan, outer: seq<Row>, db: Db) returns (at: seq<int>)
    ensures var rel, out := Eval(kid, outer, db), Eval(Node(perm, Filter(ps), [kid]), outer, db);
            && (out.Fails? <==> rel.Fails? || AnyFails(ps, rel.value.rows, outer, db))
            && (out.Ok? ==> Selects(at, ps, rel.value.rows, outer, db) && out.value == Rel(rel.value.header, Fetch(rel.value.rows, at)))
  {
    hide AnyFails, Selects, EvalPreds;
    EvalFilter(perm, ps, kid, outer, db);
    at := [];
    if Eval(kid, outer, db).Ok? {
      at := FilteredRows(ps, Eval(kid, outer, db).value.rows, outer, db);
    }
  }

  // ---------------------------------------------------------------- joins

  /** A row of a join shows the cells of both sides; a column that both expose shows the left one. */
  lemma JoinedShows(l: Row, r: Row)
    ensures Joined(l, r).Keys == l.Keys + r.Keys
    ensures forall id | id in l :: Joined(l, r)[id] == l[id]
    ensures forall id | id in r && id !in l :: Joined(l, r)[id] == r[id]
  {
  }

  /** The row that extends an unmatched left row is NULL in every right column. */
  lemma UnmatchedShows(l: Row, right: seq<Field>)
    requires DistinctIds(right) && forall f | 0 <= f < |right| :: right[f].id !in l
    ensures forall f | 0 <= f < |right| :: right[f].id in Joined(l, NullRow(right)) && Joined(l, NullRow(right))[right[f].id] == Null(right[f].ty)
    ensures forall id | id in l :: Joined(l, NullRow(right))[id] == l[id]
  {
    assert Unrepeated(Ids(right));
    forall f | 0 <= f < |right| ensures right[f].id in NullRow(right) && NullRow(right)[right[f].id] == Null(right[f].ty) {
      assert Ids(right)[f] == right[f].id;
    }
  }

  /** The columns a join shows: both sides' for INNER and LEFT, the left side's for the others; two of them must not coincide. */
  lemma JoinShows(kind: JoinKind, on: Row -> Truth, member: Row -> Truth, left: Rel, right: Rel)
    ensures var out := JoinRel(kind, on, member, left, right);
            out.Ok? ==> DistinctIds(out.value.header) &&
                        out.value.header == match kind case Inner => left.header + right.header
                                                       case Left => left.header + right.header
                                                       case _ => left.header
  {
  }

  // ---------------------------------------------------------------- distinct

  /** `at` lists, in order, exactly the positions of rows that did not occur before. */
  ghost predicate FirstAt(at: seq<int>, rows: seq<Row>) {
    Positions(at, |rows|) && Ascending(at) && forall i | 0 <= i < |rows| :: i in at <==> IsNew(rows, i)
  }

  predicate IsNew(rows: seq<Row>, i: int)
    requires 0 <= i < |rows|
  {
    rows[i] !in rows[..i]
  }

  lemma NewInPrefix(rows: seq<Row>, n: nat)
    requires n <= |rows|
    ensures forall i | 0 <= i < n :: IsNew(rows[..n], i) <==> IsNew(rows, i)
  {
    forall i | 0 <= i < n ensures IsNew(rows[..n], i) <==> IsNew(rows, i) {
      assert rows[..n][..i] == rows[..i];
    }
  }

  lemma FirstAtSnoc(init: seq<int>, rows: seq<Row>) returns (at: seq<int>)
    requires rows != [] && FirstAt(init, rows[..|rows| - 1])
    ensures FirstAt(at, rows)
    ensures var n := |rows| - 1;
            Fetch(rows, at) == Fetch(rows[..n], init) + if rows[n] !in rows[..n] then [rows[n]] else []
  {
    var n := |rows| - 1;
    NewInPrefix(rows, n);
    AppendedPosition(rows, init);
    ShorterPositions(rows, init);
    hide Positions, Ascending, Fetch;
    if IsNew(rows, n) {
      at := init + [n];
    } else {
      at := init;
      assert Fetch(rows[..n], init) + [] == Fetch(rows[..n], init);
    }
    hide IsNew;
  }

  /** DISTINCT keeps every row once, at its first place. */
  lemma {:induction false} DistinctMeans(rows: seq<Row>) returns (at: seq<int>)
    ensures FirstAt(at, rows) && Positions(at, |rows|) && Dedup(rows) == Fetch(rows, at)
  {
    at := [];
    if rows != [] {
      var n := |rows| - 1;
      var init := DistinctMeans(rows[..n]);
      at := FirstAtSnoc(init, rows);
      assert rows[n] in Dedup(rows[..n]) <==> rows[n] in rows[..n];
      hide Positions, FirstAt, Fetch;
      assert Dedup(rows[..n]) + [] == Dedup(rows[..n]);
    }
  }
}
