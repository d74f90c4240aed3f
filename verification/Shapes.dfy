/** Every relation a plan produces fits its header: distinct columns, exactly those cells in every row,
  each of its column's type. This holds for every plan, database and frame stack.
 */
module Shapes {
  import opened Plans
  import opened Sequences
  import opened Values
  import opened Algebra
  import opened Windows
  import opened Semantics
  import opened Sorting

  lemma MakeRowFits(header: seq<Field>, cells: seq<Cell>)
    requires DistinctIds(header) && |cells| == |header|
    requires forall i | 0 <= i < |cells| :: cells[i].Type() == header[i].ty
    ensures RowFits(header, MakeRow(Ids(header), cells))
    ensures forall i | 0 <= i < |header| :: MakeRow(Ids(header), cells)[header[i].id] == cells[i]
  {
    var row := MakeRow(Ids(header), cells);
    forall i | 0 <= i < |header| ensures header[i].id in row && row[header[i].id] == cells[i] {
      assert Ids(header)[i] == header[i].id;
    }
    assert row.Keys == Names(header) by {
      forall id ensures id in row.Keys <==> id in Names(header) {
        if id in row.Keys {
          var i :| 0 <= i < |header| && Ids(header)[i] == id;
          assert header[i].id == id;
        }
      }
    }
  }

  lemma DisjointNames(lh: seq<Field>, rh: seq<Field>)
    requires DistinctIds(lh + rh)
    ensures forall i, k | 0 <= i < |lh| && 0 <= k < |rh| :: lh[i].id != rh[k].id
    ensures Names(lh) !! Names(rh)
  {
    var h := lh + rh;
    forall i, k | 0 <= i < |lh| && 0 <= k < |rh| ensures lh[i].id != rh[k].id {
      assert h[i].id != h[|lh| + k].id;
    }
  }

  lemma NamesAppend(lh: seq<Field>, rh: seq<Field>)
    ensures Names(lh + rh) == Names(lh) + Names(rh)
  {
    var h := lh + rh;
    assert forall i | 0 <= i < |lh| :: h[i] == lh[i];
    assert forall k | 0 <= k < |rh| :: h[|lh| + k] == rh[k];
    assert forall i | |lh| <= i < |h| :: h[i] == rh[i - |lh|];
  }

  lemma JoinedFits(lh: seq<Field>, rh: seq<Field>, l: Row, r: Row)
    requires DistinctIds(lh + rh) && RowFits(lh, l) && RowFits(rh, r)
    ensures RowFits(lh + rh, Joined(l, r))
    ensures Joined(l, r) == l + r
  {
    var h := lh + rh;
    DisjointNames(lh, rh);
    NamesAppend(lh, rh);
    forall i | 0 <= i < |h| ensures h[i].id in Joined(l, r) && Joined(l, r)[h[i].id].Type() == h[i].ty {
      if i < |lh| {
        assert h[i] == lh[i];
      } else {
        assert h[i] == rh[i - |lh|];
      }
    }
  }

  lemma DistinctParts(lh: seq<Field>, rh: seq<Field>)
    requires DistinctIds(lh + rh)
    ensures DistinctIds(lh) && DistinctIds(rh)
  {
    var h := lh + rh;
    forall i, j | 0 <= i < j < |lh| ensures lh[i].id != lh[j].id {
      assert h[i].id != h[j].id;
    }
    forall i, j | 0 <= i < j < |rh| ensures rh[i].id != rh[j].id {
      assert h[|lh| + i].id != h[|lh| + j].id;
    }
  }

  function Fit(header: seq<Field>): Row -> bool {
    row => RowFits(header, row)
  }

  lemma ScanFits(binding: string, table: Rel)
    ensures ScanRel(binding, table).Ok? ==> WellFormedRel(ScanRel(binding, table).value)
  {
    var header := Rename(binding, table.header);
    if DistinctIds(header) {
      forall i | 0 <= i < |table.rows| ensures RowFits(header, ScanRows(binding, table)[i]) {
        MakeRowFits(header, CellsOf(table.header, table.rows[i]));
      }
    }
  }

  lemma FilterFits(rel: Rel, f: Row -> Truth)
    requires WellFormedRel(rel)
    ensures FilterRel(rel, f).Ok? ==> WellFormedRel(FilterRel(rel, f).value)
  {
    FlatMapAll(rel.rows, KeepTrue(f), Fit(rel.header));
  }

  lemma ProjsFit(projs: seq<Projection>, row: Row, outer: seq<Row>, db: Db)
    ensures var r := EvalProjs(projs, row, outer, db);
            r.Ok? ==> forall i | 0 <= i < |projs| :: r.value[i].Type() == projs[i].expr.Type()
  {
    if projs != [] {
      ProjsFit(projs[..|projs| - 1], row, outer, db);
    }
  }

  lemma ProjectFits(projs: seq<Projection>, rel: Rel, outer: seq<Row>, db: Db)
    ensures var r := ProjectRel(ProjectHeader(projs), rel, ProjectFn(projs, outer, db));
            r.Ok? ==> WellFormedRel(r.value)
  {
    var header, f := ProjectHeader(projs), ProjectFn(projs, outer, db);
    if ProjectRel(header, rel, f).Ok? {
      forall i | 0 <= i < |rel.rows| ensures RowFits(header, f(rel.rows[i]).value) {
        ProjsFit(projs, rel.rows[i], outer, db);
        MakeRowFits(header, EvalProjs(projs, rel.rows[i], outer, db).value);
      }
    }
  }

  lemma NullRowFits(header: seq<Field>)
    requires DistinctIds(header)
    ensures RowFits(header, NullRow(header))
    ensures forall i | 0 <= i < |header| :: NullRow(header)[header[i].id] == Null(header[i].ty)
  {
    MakeRowFits(header, NullCells(header));
  }

  lemma MatchFits(on: Row -> Truth, lh: seq<Field>, rh: seq<Field>, l: Row, r: Row, k: int)
    requires DistinctIds(lh + rh) && RowFits(lh, l) && RowFits(rh, r)
    requires Match(on, l)(r).Ok? && 0 <= k < |Match(on, l)(r).value|
    ensures Fit(lh + rh)(Match(on, l)(r).value[k])
  {
    hide RowFits, DistinctIds;
    JoinedFits(lh, rh, l, r);
    assert Match(on, l)(r) == Select(on(Joined(l, r)), Joined(l, r));
  }

  lemma JoinOneFits(kind: JoinKind, on: Row -> Truth, member: Row -> Truth, left: Rel, right: Rel, l: Row)
    requires WellFormedRel(left) && WellFormedRel(right) && RowFits(left.header, l)
    requires DistinctIds(JoinHeader(kind, left.header, right.header))
    ensures var r := JoinOne(kind, on, member, right)(l);
            r.Ok? ==> forall k | 0 <= k < |r.value| :: RowFits(JoinHeader(kind, left.header, right.header), r.value[k])
  {
    hide RowFits, DistinctIds, NullRow, Joined;
    if EmitsRight(kind) {
      var header := left.header + right.header;
      forall i, k | 0 <= i < |right.rows| && Match(on, l)(right.rows[i]).Ok? && 0 <= k < |Match(on, l)(right.rows[i]).value|
        ensures Fit(header)(Match(on, l)(right.rows[i]).value[k])
      {
        MatchFits(on, left.header, right.header, l, right.rows[i], k);
      }
      FlatMapAll(right.rows, Match(on, l), Fit(header));
      NullRowFits(right.header);
      JoinedFits(left.header, right.header, l, NullRow(right.header));
    }
  }

  lemma JoinFits(kind: JoinKind, on: Row -> Truth, member: Row -> Truth, left: Rel, right: Rel)
    requires WellFormedRel(left) && WellFormedRel(right)
    ensures var r := JoinRel(kind, on, member, left, right); r.Ok? ==> WellFormedRel(r.value)
  {
    var header, h := JoinHeader(kind, left.header, right.header), JoinOne(kind, on, member, right);
    if DistinctIds(header) {
      forall i, k | 0 <= i < |left.rows| && h(left.rows[i]).Ok? && 0 <= k < |h(left.rows[i]).value|
        ensures Fit(header)(h(left.rows[i]).value[k])
      {
        JoinOneFits(kind, on, member, left, right, left.rows[i]);
      }
      FlatMapAll(left.rows, h, Fit(header));
    }
  }

  lemma SortedElements<T>(less: (T, T) -> bool, s: seq<T>)
    ensures |StableSort(less, s)| == |s|
    ensures forall i | 0 <= i < |s| :: StableSort(less, s)[i] in s
  {
    SortBag(less, s);
    forall i | 0 <= i < |s| ensures StableSort(less, s)[i] in s {
      assert StableSort(less, s)[i] in multiset(s);
    }
  }

  lemma SortFits(keys: seq<SortKey>, rel: Rel, env: Env)
    requires WellFormedRel(rel)
    ensures var r := SortRel(keys, rel, env); r.Ok? ==> WellFormedRel(r.value)
  {
    SortedElements((a, b) => RowLess(keys, env, a, b), rel.rows);
  }

  lemma SortProjectedFits(keys: seq<SortKey>, source: Rel, projected: Rel, env: Env)
    requires WellFormedRel(projected)
    ensures var r := SortProjected(keys, source, projected, env); r.Ok? ==> WellFormedRel(r.value)
  {
    if |source.rows| == |projected.rows| {
      var items := seq(|source.rows|, i requires 0 <= i < |source.rows| => (source.rows[i] + projected.rows[i], projected.rows[i]));
      SortedElements((a: (Row, Row), b: (Row, Row)) => RowLess(keys, env, a.0, b.0), items);
    }
  }

  lemma GroupRowFits(keys: seq<ColumnRef>, aggs: seq<AggExpr>, rows: seq<Row>, env: Env, key: seq<Cell>)
    requires DistinctIds(AggregateHeader(keys, aggs))
    ensures var r := GroupRow(keys, aggs, rows, env)(key); r.Ok? ==> RowFits(AggregateHeader(keys, aggs), r.value)
  {
    var header := AggregateHeader(keys, aggs);
    if GroupRow(keys, aggs, rows, env)(key).Ok? {
      MakeRowFits(header, CastAll(header, key + AggCells(aggs, Members(keys, rows, key, env), env).value));
    }
  }

  lemma AggregateFits(keys: seq<ColumnRef>, aggs: seq<AggExpr>, rel: Rel, env: Env)
    ensures var r := AggregateRel(keys, aggs, rel, env); r.Ok? ==> WellFormedRel(r.value)
  {
    if AggregateRel(keys, aggs, rel, env).Ok? {
      var groups := GroupKeys(keys, rel.rows, env);
      forall i | 0 <= i < |groups| ensures RowFits(AggregateHeader(keys, aggs), GroupRow(keys, aggs, rel.rows, env)(groups[i]).value) {
        GroupRowFits(keys, aggs, rel.rows, env, groups[i]);
      }
    }
  }

  lemma WindowFits(wins: seq<WinExpr>, rel: Rel, env: Env)
    requires WellFormedRel(rel)
    ensures var r := WindowRel(wins, rel, env); r.Ok? ==> WellFormedRel(r.value)
  {
    hide RowFits, DistinctIds, MakeRow, WindowColumn, CellsAt;
    if WindowRel(wins, rel, env).Ok? {
      var wh, cols := WindowHeader(wins), WindowColumns(wins, rel.rows, env).value;
      DistinctParts(rel.header, wh);
      forall i | 0 <= i < |rel.rows| ensures RowFits(rel.header + wh, WithColumns(wh, cols, rel.rows)[i]) {
        MakeRowFits(wh, CellsAt(cols, i));
        JoinedFits(rel.header, wh, rel.rows[i], MakeRow(Ids(wh), CellsAt(cols, i)));
      }
    }
  }

  lemma {:induction false} EvalFits(p: Plan, outer: seq<Row>, db: Db)
    ensures Eval(p, outer, db).Ok? ==> WellFormedRel(Eval(p, outer, db).value)
    decreases p
  {
    hide FilterRel, ProjectRel, JoinRel, AggregateRel, WindowRel, SortRel, SortProjected, ScanRel, WellFormedRel, OuterEnv;
    if Eval(p, outer, db).Ok? {
      if p.op.Scan? {
        ScanFits(p.op.binding, db[p.op.table]);
      } else if p.op.Join? {
        EvalFits(p.kids[0], outer, db);
        EvalFits(p.kids[1], outer, db);
        JoinFits(p.op.kind, PredsFn(p.op.on, outer, db), MemberFn(p.op.membership, outer, db),
                 Eval(p.kids[0], outer, db).value, Eval(p.kids[1], outer, db).value);
      } else {
        EvalFits(p.kids[0], outer, db);
        UnaryFits(p, outer, db);
      }
    }
  }

  lemma UnaryFits(p: Plan, outer: seq<Row>, db: Db)
    requires !p.op.Scan? && !p.op.Join? && Eval(p, outer, db).Ok?
    requires Eval(p.kids[0], outer, db).Ok? ==> WellFormedRel(Eval(p.kids[0], outer, db).value)
    ensures WellFormedRel(Eval(p, outer, db).value)
  {
    hide FilterRel, ProjectRel, JoinRel, AggregateRel, WindowRel, SortRel, SortProjected, ScanRel, OuterEnv;
    var kid, env := p.kids[0], OuterEnv(OwnColumns(p.op), outer);
    var rel := Eval(kid, outer, db).value;
    match p.op
    case Filter(preds) => FilterFits(rel, PredsFn(preds, outer, db));
    case Project(projs) => ProjectFits(projs, rel, outer, db);
    case Aggregate(keys, aggs) => AggregateFits(keys, aggs, rel, env);
    case Window(wins) => WindowFits(wins, rel, env);
    case Distinct => forall i | 0 <= i < |DistinctRel(rel).rows| ensures RowFits(rel.header, DistinctRel(rel).rows[i]) {
      assert DistinctRel(rel).rows[i] in rel.rows;
    }
    case Limit(count) =>
    case Sort(order) =>
      if kid.op.Project? && |kid.kids| == 1 {
        SortProjectedFits(order, Eval(kid.kids[0], outer, db).value, rel, env);
      } else {
        SortFits(order, rel, env);
      }
  }
}
