/** The NULL-aware anti join behind NOT IN: a left row survives when no candidate's membership test is true
  or unknown. The hashed form keeps, per candidate key, the set of member values and whether one is NULL.
 */
module NullAwareJoins {
  import opened Plans
  import opened Sequences
  import opened Values
  import opened Algebra
  import opened Semantics
  import opened Aggregation
  import opened WindowEvaluation
  import opened Correlation
  import opened Schemas
  import opened Interpreter
  import opened Masks
  import opened HashJoins

  /** Some row is a candidate whose membership test is not false. */
  predicate AnySuppressor(f: Row -> Truth, m: Row -> Truth, l: Row, rows: seq<Row>) {
    exists i :: 0 <= i < |rows| && f(Joined(l, rows[i])) == True && m(Joined(l, rows[i])) != False
  }

  lemma {:induction false} SuppressedIs(f: Row -> Truth, m: Row -> Truth, l: Row, rows: seq<Row>)
    requires TotalOn(f, l, rows) && TotalOn(m, l, rows)
    ensures Suppressed(f, m, l, rows) == TruthOf(AnySuppressor(f, m, l, rows))
  {
    if rows != [] {
      var rest := rows[1..];
      assert forall i | 0 <= i < |rest| :: rest[i] == rows[i + 1];
      SuppressedIs(f, m, l, rest);
      if AnySuppressor(f, m, l, rest) {
        var i :| 0 <= i < |rest| && f(Joined(l, rest[i])) == True && m(Joined(l, rest[i])) != False;
        assert f(Joined(l, rows[i + 1])) == True;
      }
      if AnySuppressor(f, m, l, rows) && (f(Joined(l, rows[0])) != True || m(Joined(l, rows[0])) == False) {
        var i :| 0 <= i < |rows| && f(Joined(l, rows[i])) == True && m(Joined(l, rows[i])) != False;
        assert f(Joined(l, rest[i - 1])) == True;
      }
    }
  }

  datatype ValueSet = ValueSet(hasNull: bool, values: set<Cell>)

  /** The membership cells of the rows with one candidate key. */
  function BucketCells(cols: seq<ColumnRef>, mcol: ColumnRef, rows: seq<Row>, key: seq<Cell>): set<Cell> {
    set i | 0 <= i < |rows| && NonNullKey(cols, rows[i]) == Some(key) :: CellOf(mcol, rows[i], map[])
  }

  function NonNullCells(cells: set<Cell>): set<Cell> {
    set c | c in cells && !c.Null?
  }

  ghost predicate IsValueTable(table: map<seq<Cell>, ValueSet>, cols: seq<ColumnRef>, mcol: ColumnRef, rows: seq<Row>) {
    forall key :: IsEntry(table, key, BucketCells(cols, mcol, rows, key))
  }

  ghost predicate IsEntry(table: map<seq<Cell>, ValueSet>, key: seq<Cell>, cells: set<Cell>) {
    && (key in table <==> cells != {})
    && (key in table ==> (table[key].hasNull <==> exists c :: c in cells && c.Null?) && table[key].values == NonNullCells(cells))
  }

  lemma BucketCellsSnoc(cols: seq<ColumnRef>, mcol: ColumnRef, rows: seq<Row>, n: int, key: seq<Cell>)
    requires 0 <= n < |rows|
    ensures BucketCells(cols, mcol, rows[..n + 1], key) == BucketCells(cols, mcol, rows[..n], key) +
              if NonNullKey(cols, rows[n]) == Some(key) then {CellOf(mcol, rows[n], map[])} else {}
  {
    hide NonNullKey, CellOf;
    var more := rows[..n + 1];
    assert forall i | 0 <= i < n :: more[i] == rows[..n][i];
    assert more[n] == rows[n];
    forall c | c in BucketCells(cols, mcol, rows[..n], key) ensures c in BucketCells(cols, mcol, more, key) {
      var i :| 0 <= i < n && NonNullKey(cols, rows[..n][i]) == Some(key) && CellOf(mcol, rows[..n][i], map[]) == c;
      assert NonNullKey(cols, more[i]) == Some(key);
    }
  }

  method BuildValueTable(cols: seq<ColumnRef>, mcol: ColumnRef, batch: seq<Row>, sel: seq<int>) returns (table: map<seq<Cell>, ValueSet>)
    requires InRange(sel, |batch|)
    ensures IsValueTable(table, cols, mcol, Fetch(batch, sel))
  {
    hide NonNullKey, CellOf, BucketCells, IsValueTable;
    ghost var rows := Fetch(batch, sel);
    table := map[];
    EmptyTable(cols, mcol, rows[..0]);
    var n := 0;
    while n < |sel|
      invariant 0 <= n <= |sel|
      invariant IsValueTable(table, cols, mcol, rows[..n])
    {
      var row := batch[sel[n]];
      match NonNullKey(cols, row) {
        case None => SkipRow(table, cols, mcol, rows, n);
        case Some(key) =>
          var bucket := if key in table then table[key] else ValueSet(false, {});
          var v := CellOf(mcol, row, map[]);
          var grown := if v.Null? then bucket.(hasNull := true) else bucket.(values := bucket.values + {v});
          AddRow(table, cols, mcol, rows, n, key, grown);
          table := table[key := grown];
      }
      n := n + 1;
    }
    assert rows[..n] == rows;
  }

  lemma EmptyTable(cols: seq<ColumnRef>, mcol: ColumnRef, rows: seq<Row>)
    requires rows == []
    ensures IsValueTable(map[], cols, mcol, rows)
  {
  }

  lemma SkipRow(table: map<seq<Cell>, ValueSet>, cols: seq<ColumnRef>, mcol: ColumnRef, rows: seq<Row>, n: int)
    requires 0 <= n < |rows| && IsValueTable(table, cols, mcol, rows[..n]) && NonNullKey(cols, rows[n]).None?
    ensures IsValueTable(table, cols, mcol, rows[..n + 1])
  {
    hide NonNullKey, BucketCells;
    var after := rows[..n + 1];
    forall key ensures IsEntry(table, key, BucketCells(cols, mcol, after, key)) {
      BucketCellsSnoc(cols, mcol, rows, n, key);
      assert IsEntry(table, key, BucketCells(cols, mcol, rows[..n], key));
    }
  }

  lemma AddRow(table: map<seq<Cell>, ValueSet>, cols: seq<ColumnRef>, mcol: ColumnRef, rows: seq<Row>, n: int, key: seq<Cell>, grown: ValueSet)
    requires 0 <= n < |rows| && IsValueTable(table, cols, mcol, rows[..n]) && NonNullKey(cols, rows[n]) == Some(key)
    requires var bucket := if key in table then table[key] else ValueSet(false, {});
             var v := CellOf(mcol, rows[n], map[]);
             grown == if v.Null? then bucket.(hasNull := true) else bucket.(values := bucket.values + {v})
    ensures IsValueTable(table[key := grown], cols, mcol, rows[..n + 1])
  {
    hide NonNullKey, BucketCells, CellOf;
    var v := CellOf(mcol, rows[n], map[]);
    var after, updated := rows[..n + 1], table[key := grown];
    forall k ensures IsEntry(updated, k, BucketCells(cols, mcol, after, k)) {
      assert IsEntry(table, k, BucketCells(cols, mcol, rows[..n], k));
      BucketCellsSnoc(cols, mcol, rows, n, k);
      var before, cells := BucketCells(cols, mcol, rows[..n], k), BucketCells(cols, mcol, after, k);
      if k == key {
        assert v in cells;
        assert NonNullCells(cells) == NonNullCells(before) + if v.Null? then {} else {v};
      }
    }
  }

  /** A membership equality between one left and one right column: unknown when either cell is NULL. */
  lemma MembershipValue(p: Pred, lh: seq<Field>, rh: seq<Field>, l: Row, r: Row, db: Db)
    requires RowFits(lh, l) && RowFits(rh, r) && TypedPred(p, lh, rh) && TryEquiKey(p, lh, rh).Some?
    ensures var k := TryEquiKey(p, lh, rh).value;
            var a, b := CellOf(k.left, l, map[]), CellOf(k.right, r, map[]);
            EvalPred(p, Joined(l, r), [], db) == if a.Null? || b.Null? then Unknown else TruthOf(a == b)
  {
    TypedCell(p.lhs.col, lh, rh, l, r);
    TypedCell(p.rhs.col, lh, rh, l, r);
  }

  /** Whether a left row is suppressed, read off its bucket. */
  function BucketSuppresses(table: map<seq<Cell>, ValueSet>, lkey: Option<seq<Cell>>, x: Cell): bool {
    lkey.Some? && lkey.value in table && (table[lkey.value].hasNull || x.Null? || x in table[lkey.value].values)
  }

  lemma BucketSuppressorsAreAll(table: map<seq<Cell>, ValueSet>, cols: seq<ColumnRef>, mcol: ColumnRef, lkey: Option<seq<Cell>>, x: Cell,
                                f: Row -> Truth, m: Row -> Truth, l: Row, rows: seq<Row>)
    requires IsValueTable(table, cols, mcol, rows)
    requires forall i | 0 <= i < |rows| :: f(Joined(l, rows[i])) == True <==> lkey.Some? && NonNullKey(cols, rows[i]) == lkey
    requires forall i | 0 <= i < |rows| ::
               var v := CellOf(mcol, rows[i], map[]); m(Joined(l, rows[i])) != False <==> x.Null? || v.Null? || v == x
    ensures BucketSuppresses(table, lkey, x) <==> AnySuppressor(f, m, l, rows)
  {
    hide NonNullKey, CellOf, Joined;
    if lkey.Some? {
      var cells := BucketCells(cols, mcol, rows, lkey.value);
      if AnySuppressor(f, m, l, rows) {
        var i :| 0 <= i < |rows| && f(Joined(l, rows[i])) == True && m(Joined(l, rows[i])) != False;
        assert CellOf(mcol, rows[i], map[]) in cells;
      }
      if BucketSuppresses(table, lkey, x) {
        var c :| c in cells && (x.Null? || c.Null? || c == x);
        var i :| 0 <= i < |rows| && NonNullKey(cols, rows[i]) == lkey && CellOf(mcol, rows[i], map[]) == c;
        assert f(Joined(l, rows[i])) == True;
      }
    }
  }

  // ---------------------------------------------------------------- the join

  ghost predicate NullAwareReady(lv: View, rv: View, ps: seq<Pred>, membership: Pred) {
    JoinReady(lv, rv, ps) && TypedPred(membership, lv.header, rv.header)
  }

  lemma NullAwareTotal(lv: View, rv: View, ps: seq<Pred>, membership: Pred, n: int, db: Db)
    requires NullAwareReady(lv, rv, ps, membership) && 0 <= n < |lv.selection|
    ensures TotalOn(PredsFn(ps, [], db), lv.batch[lv.selection[n]], Rows(rv))
    ensures TotalOn(MemberFn(Some(membership), [], db), lv.batch[lv.selection[n]], Rows(rv))
  {
    hide RowFits, TypedPred, EvalPred;
    ReadyTotal(lv, rv, ps, n, db);
    MemberFnAt(Some(membership), [], db);
    var l := lv.batch[lv.selection[n]];
    forall i | 0 <= i < |Rows(rv)| ensures EvalPred(membership, Joined(l, Rows(rv)[i]), [], db) != Error {
      TypedPredTotal(membership, lv.header, rv.header, l, Rows(rv)[i], db);
    }
  }

  lemma SurvivesOne(suppressed: bool, f: Row -> Truth, m: Row -> Truth, l: Row, rv: View)
    requires InRange(rv.selection, |rv.batch|) && TotalOn(f, l, Rows(rv)) && TotalOn(m, l, Rows(rv))
    requires suppressed <==> AnySuppressor(f, m, l, Rows(rv))
    ensures JoinOne(NullAwareAnti, f, m, RightRel(rv))(l) == Ok(if suppressed then [] else [l])
  {
    hide AnySuppressor;
    SuppressedIs(f, m, l, Rows(rv));
  }

  /** Scans the right rows of one left row, stopping at the first suppressor. */
  method ScanForSuppressor(lv: View, rv: View, ps: seq<Pred>, membership: Pred, n: int, db: Db) returns (suppressed: bool)
    requires NullAwareReady(lv, rv, ps, membership) && 0 <= n < |lv.selection|
    ensures suppressed <==> AnySuppressor(PredsFn(ps, [], db), MemberFn(Some(membership), [], db), lv.batch[lv.selection[n]], Rows(rv))
  {
    hide EvalPreds, EvalPred, WellFormedRel, Unrepeated, TypedPreds, TypedPred;
    ghost var f, m := PredsFn(ps, [], db), MemberFn(Some(membership), [], db);
    PredsFnAt(ps, [], db);
    MemberFnAt(Some(membership), [], db);
    var l := lv.batch[lv.selection[n]];
    var i := 0;
    while i < |rv.selection|
      invariant 0 <= i <= |rv.selection|
      invariant forall k | 0 <= k < i :: !(f(Joined(l, Rows(rv)[k])) == True && m(Joined(l, Rows(rv)[k])) != False)
    {
      var row := Joined(l, rv.batch[rv.selection[i]]);
      assert row == Joined(l, Rows(rv)[i]);
      if EvalPreds(ps, row, [], db) == True && EvalPred(membership, row, [], db) != False {
        return true;
      }
      i := i + 1;
    }
    suppressed := false;
  }

  lemma HashedSuppressors(lv: View, rv: View, ps: seq<Pred>, membership: Pred, table: map<seq<Cell>, ValueSet>, n: int, db: Db)
    requires NullAwareReady(lv, rv, ps, membership) && 0 <= n < |lv.selection|
    requires TryEquiKey(membership, lv.header, rv.header).Some? && SplitResiduals(ps, lv.header, rv.header) == []
    requires IsValueTable(table, RightColumns(SplitKeys(ps, lv.header, rv.header)), TryEquiKey(membership, lv.header, rv.header).value.right, Rows(rv))
    ensures var keys := SplitKeys(ps, lv.header, rv.header);
            var l := lv.batch[lv.selection[n]];
            BucketSuppresses(table, NonNullKey(LeftColumns(keys), l), CellOf(TryEquiKey(membership, lv.header, rv.header).value.left, l, map[]))
            <==> AnySuppressor(PredsFn(ps, [], db), MemberFn(Some(membership), [], db), l, Rows(rv))
  {
    hide RowFits, TypedPred, EvalPred, TryEquiKey, NonNullKey, CellOf, IsValueTable, AnySuppressor, BucketSuppresses, SplitKeys, SplitResiduals,
         Unrepeated, TypedPreds;
    var l := lv.batch[lv.selection[n]];
    var k := TryEquiKey(membership, lv.header, rv.header).value;
    var keys := SplitKeys(ps, lv.header, rv.header);
    ReadyHashes(lv, rv, ps, n, db);
    PredsFnAt([], [], db);
    MemberFnAt(Some(membership), [], db);
    forall i | 0 <= i < |Rows(rv)|
      ensures var v := CellOf(k.right, Rows(rv)[i], map[]);
              EvalPred(membership, Joined(l, Rows(rv)[i]), [], db) != False <==> CellOf(k.left, l, map[]).Null? || v.Null? || v == CellOf(k.left, l, map[])
    {
      MembershipValue(membership, lv.header, rv.header, l, Rows(rv)[i], db);
    }
    BucketSuppressorsAreAll(table, RightColumns(keys), k.right, NonNullKey(LeftColumns(keys), l), CellOf(k.left, l, map[]),
                            PredsFn(ps, [], db), MemberFn(Some(membership), [], db), l, Rows(rv));
  }

  /** The NULL-aware anti join, hashed when every candidate predicate and the membership test are hashable. */
  method NullAwareJoin(lv: View, rv: View, ps: seq<Pred>, membership: Pred, db: Db) returns (out: seq<Row>)
    requires NullAwareReady(lv, rv, ps, membership)
    ensures FlatMap(Rows(lv), JoinOne(NullAwareAnti, PredsFn(ps, [], db), MemberFn(Some(membership), [], db), RightRel(rv))) == Ok(out)
  {
    hide WellFormedRel, Unrepeated, TypedPreds, TypedPred, SplitKeys, SplitResiduals, IsValueTable, AnySuppressor, BucketSuppresses,
         EvalPreds, EvalPred, JoinOne, TryEquiKey, NonNullKey, CellOf;
    var keys, residuals := SplitJoinPredicates(ps, lv.header, rv.header);
    var hashable := TryEquiKey(membership, lv.header, rv.header);
    var hashed := hashable.Some? && residuals == [];
    var table := map[];
    if hashed {
      table := BuildValueTable(RightColumns(keys), hashable.value.right, rv.batch, rv.selection);
    }
    ghost var f, m := PredsFn(ps, [], db), MemberFn(Some(membership), [], db);
    ghost var one := JoinOne(NullAwareAnti, f, m, RightRel(rv));
    out := [];
    var n := 0;
    while n < |lv.selection|
      invariant 0 <= n <= |lv.selection|
      invariant FlatMap(Rows(lv)[..n], one) == Ok(out)
    {
      var l := lv.batch[lv.selection[n]];
      var suppressed;
      if hashed {
        HashedSuppressors(lv, rv, ps, membership, table, n, db);
        suppressed := BucketSuppresses(table, NonNullKey(LeftColumns(keys), l), CellOf(hashable.value.left, l, map[]));
      } else {
        suppressed := ScanForSuppressor(lv, rv, ps, membership, n, db);
      }
      NullAwareTotal(lv, rv, ps, membership, n, db);
      SurvivesOne(suppressed, f, m, l, rv);
      FlatMapSnoc(Rows(lv), n, one);
      out := out + if suppressed then [] else [l];
      n := n + 1;
    }
    assert Rows(lv)[..n] == Rows(lv);
  }
}
