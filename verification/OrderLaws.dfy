/** What ORDER BY and LIMIT return, stated on cells: which way each direction goes, where NULLs stand, that the first
  differing key decides, and that rows with equal keys keep their input order.
 */
module OrderLaws {
  import opened Plans
  import opened Sequences
  import opened Values
  import opened Algebra
  import opened Windows
  import opened Semantics
  import opened Shapes
  import opened Correlation
  import opened Sorting
  import opened Aggregation
  import opened RowOrder
  import opened SortedPartitions
  import opened ValueLaws

  /** The order ORDER BY promises between two different cells of one key column. Ascending: smaller values first and
    NULL last; descending: larger values first and NULL first. */
  ghost predicate ComesBefore(dir: Direction, x: Cell, y: Cell) {
    match dir
    case Asc => !x.Null? && (y.Null? || (x.IntV? && y.IntV? && x.i < y.i) || (x.StrV? && y.StrV? && Lexicographic(x.s, y.s)))
    case Desc => !y.Null? && (x.Null? || (x.IntV? && y.IntV? && x.i > y.i) || (x.StrV? && y.StrV? && Lexicographic(y.s, x.s)))
  }

  /** The first differing key decides; when there is none, position does. */
  ghost predicate InOrder(keys: seq<SortKey>, env: Env, a: Row, b: Row, i: int, j: int) {
    KeysDecide(keys, env, a, b) || (KeysAgree(keys, env, a, b) && i < j)
  }

  ghost predicate KeysDecide(keys: seq<SortKey>, env: Env, a: Row, b: Row) {
    exists k :: FirstDifference(keys, env, a, b, k) &&
                ComesBefore(keys[k].dir, CellOf(keys[k].col, a, env), CellOf(keys[k].col, b, env))
  }

  ghost predicate KeysAgree(keys: seq<SortKey>, env: Env, a: Row, b: Row) {
    forall k | 0 <= k < |keys| :: CellOf(keys[k].col, a, env) == CellOf(keys[k].col, b, env)
  }

  ghost predicate FirstDifference(keys: seq<SortKey>, env: Env, a: Row, b: Row, k: int) {
    && 0 <= k < |keys|
    && CellOf(keys[k].col, a, env) != CellOf(keys[k].col, b, env)
    && forall h | 0 <= h < k :: CellOf(keys[h].col, a, env) == CellOf(keys[h].col, b, env)
  }

  /** The order of two cells of one type. */
  lemma KeyDirection(dir: Direction, x: Cell, y: Cell)
    requires x.Type() == y.Type() && x != y
    ensures KeyBefore(dir, x, y) <==> ComesBefore(dir, x, y)
  {
    if x.StrV? && y.StrV? {
      StrLessIsLexicographic(x.s, y.s);
      StrLessIsLexicographic(y.s, x.s);
    }
  }

  lemma {:induction false} RowDirection(keys: seq<SortKey>, env: Env, a: Row, b: Row)
    requires PairTyped(keys, env, a, b)
    ensures RowLess(keys, env, a, b) <==> KeysDecide(keys, env, a, b)
  {
    hide CellOf, KeyBefore, ComesBefore, PairTyped;
    if keys != [] {
      SameKeyStep(keys, env, a, b);
      var x, y := CellOf(keys[0].col, a, env), CellOf(keys[0].col, b, env);
      if x != y {
        KeyDirection(keys[0].dir, x, y);
        assert FirstDifference(keys, env, a, b, 0);
        assert forall k | FirstDifference(keys, env, a, b, k) :: k == 0;
      } else {
        RowDirection(keys[1..], env, a, b);
        LaterDifference(keys, env, a, b);
      }
    }
  }

  lemma LaterDifference(keys: seq<SortKey>, env: Env, a: Row, b: Row)
    requires keys != [] && CellOf(keys[0].col, a, env) == CellOf(keys[0].col, b, env)
    ensures KeysDecide(keys, env, a, b) <==> KeysDecide(keys[1..], env, a, b)
  {
    hide CellOf, ComesBefore;
    var rest := keys[1..];
    forall k | 0 <= k < |rest| ensures FirstDifference(rest, env, a, b, k) <==> FirstDifference(keys, env, a, b, k + 1) {
      assert forall h | 0 < h <= k + 1 :: keys[h] == rest[h - 1];
      if FirstDifference(keys, env, a, b, k + 1) {
        forall h | 0 <= h < k ensures CellOf(rest[h].col, a, env) == CellOf(rest[h].col, b, env) {
          assert keys[h + 1] == rest[h];
        }
      }
    }
    if KeysDecide(rest, env, a, b) {
      var k :| FirstDifference(rest, env, a, b, k) && ComesBefore(rest[k].dir, CellOf(rest[k].col, a, env), CellOf(rest[k].col, b, env));
      assert FirstDifference(keys, env, a, b, k + 1) && keys[k + 1] == rest[k];
    }
    if KeysDecide(keys, env, a, b) {
      var k :| FirstDifference(keys, env, a, b, k) && ComesBefore(keys[k].dir, CellOf(keys[k].col, a, env), CellOf(keys[k].col, b, env));
      assert k > 0 && keys[k] == rest[k - 1] && FirstDifference(rest, env, a, b, k - 1);
    }
  }

  // ---------------------------------------------------------------- sorted positions

  /** `at` lists every position below `n` once. */
  ghost predicate Permutes(at: seq<int>, n: int) {
    |at| == n && Positions(at, n) && Unrepeated(at)
  }

  lemma SortedIsPermutation(order: seq<SortKey>, env: Env, rows: seq<Row>) returns (at: seq<int>)
    requires KeysTyped(order, env, rows)
    ensures at == StableSort(LessAt(order, env, rows), Identity(|rows|)) && Permutes(at, |rows|)
    ensures forall i, j | 0 <= i < j < |at| :: InOrder(order, env, rows[at[i]], rows[at[j]], at[i], at[j])
  {
    hide RowLess, SameKey, PairTyped, KeysTyped, InOrder, StableSort;
    var ids := Identity(|rows|);
    at := StableSort(LessAt(order, env, rows), ids);
    SortBag(LessAt(order, env, rows), ids);
    UnrepeatedBag(ids, at);
    forall i | 0 <= i < |at| ensures 0 <= at[i] < |rows| {
      assert at[i] in multiset(ids);
    }
    SortedPositions(order, env, rows, ids);
    KeysTypedPairs(order, env, rows);
    forall i, j | 0 <= i < j < |at| ensures InOrder(order, env, rows[at[i]], rows[at[j]], at[i], at[j]) {
      assert PrecAt(order, env, rows)(at[i], at[j]);
      PrecIsInOrder(order, env, rows, at[i], at[j]);
    }
  }

  lemma PrecIsInOrder(order: seq<SortKey>, env: Env, rows: seq<Row>, i: int, j: int)
    requires 0 <= i < |rows| && 0 <= j < |rows| && PairTyped(order, env, rows[i], rows[j]) && Prec(order, env, rows, i, j)
    ensures InOrder(order, env, rows[i], rows[j], i, j)
  {
    hide RowLess, PairTyped, CellOf, ComesBefore;
    if RowLess(order, env, rows[i], rows[j]) {
      RowDirection(order, env, rows[i], rows[j]);
    }
  }

  /** ORDER BY returns the input rows, each once, in key order and stably; it fails exactly when a key does not resolve. */
  lemma OrderByMeans(keys: seq<SortKey>, rel: Rel, env: Env) returns (at: seq<int>)
    requires WellFormedRel(rel)
    ensures SortRel(keys, rel, env).Ok? <==> forall k | 0 <= k < |keys| :: Resolves(keys[k].col, Names(rel.header), env)
    ensures SortRel(keys, rel, env).Ok? ==> Permutes(at, |rel.rows|) && SortRel(keys, rel, env).value == Rel(rel.header, Fetch(rel.rows, at))
    ensures Permutes(at, |rel.rows|) && forall i, j | 0 <= i < j < |at| :: InOrder(keys, env, rel.rows[at[i]], rel.rows[at[j]], at[i], at[j])
  {
    hide RowFits, DistinctIds, RowLess, KeysTyped, InOrder, StableSort;
    FittingRowsTyped(keys, env, rel.header, rel.rows);
    at := SortedIsPermutation(keys, env, rel.rows);
    SortedRows(keys, env, rel.rows, at);
  }

  lemma SortedRows(keys: seq<SortKey>, env: Env, rows: seq<Row>, at: seq<int>)
    requires at == StableSort(LessAt(keys, env, rows), Identity(|rows|)) && Positions(at, |rows|)
    ensures Fetch(rows, at) == StableSort((a, b) => RowLess(keys, env, a, b), rows)
  {
    hide RowLess, StableSort;
    var la, lb := LessAt(keys, env, rows), (a: Row, b: Row) => RowLess(keys, env, a, b);
    var f := (i: int) => if 0 <= i < |rows| then rows[i] else map[];
    SortMapped(la, lb, Identity(|rows|), f);
    assert MapTo(Identity(|rows|), f) == rows;
    assert MapTo(at, f) == Fetch(rows, at);
  }

  /** The earlier cell `x` is not larger than `y` when ascending, nor smaller when descending; NULL is the largest. */
  predicate NumbersInOrder(dir: Direction, x: Cell, y: Cell) {
    match dir
    case Asc => (x.Null? ==> y.Null?) && (x.IntV? && y.IntV? ==> x.i <= y.i)
    case Desc => (y.Null? ==> x.Null?) && (x.IntV? && y.IntV? ==> x.i >= y.i)
  }

  /** One ascending integer key: in the result the numbers never decrease and every NULL follows them. One descending
    integer key: the numbers never increase and every NULL precedes them. */
  lemma OneIntegerKey(perm: OrderPermission, key: SortKey, kid: Plan, outer: seq<Row>, db: Db)
    requires !kid.op.Project? && Eval(kid, outer, db).Ok? && key.col.depth == 0
    requires Field(key.col.id, Int64) in Eval(kid, outer, db).value.header
    ensures var out := Eval(Node(perm, Sort([key]), [kid]), outer, db);
            && out.Ok? && multiset(out.value.rows) == multiset(Eval(kid, outer, db).value.rows)
            && (forall i | 0 <= i < |out.value.rows| :: key.col.id in out.value.rows[i] && out.value.rows[i][key.col.id].Type() == Int64)
            && (forall i, j | 0 <= i < j < |out.value.rows| ::
                  NumbersInOrder(key.dir, out.value.rows[i][key.col.id], out.value.rows[j][key.col.id]))
  {
    hide RowFits, DistinctIds, SortRel, StableSort, RowLess;
    var rel := Eval(kid, outer, db).value;
    var env := OuterEnv(OwnColumns(Sort([key])), outer);
    EvalFits(kid, outer, db);
    EvalSort(perm, [key], kid, outer, db);
    ColumnOfHeader(key.col, rel);
    var at := OrderByMeans([key], rel, env);
    SortedBag([key], rel, env);
    forall i, j | 0 <= i < j < |at|
      ensures var x, y := rel.rows[at[i]][key.col.id], rel.rows[at[j]][key.col.id];
              x == y || ComesBefore(key.dir, x, y)
    {
      assert InOrder([key], env, rel.rows[at[i]], rel.rows[at[j]], at[i], at[j]);
      assert [key][0] == key;
    }
  }

  lemma EvalSort(perm: OrderPermission, keys: seq<SortKey>, kid: Plan, outer: seq<Row>, db: Db)
    requires !kid.op.Project? && Eval(kid, outer, db).Ok?
    ensures Eval(Node(perm, Sort(keys), [kid]), outer, db) == SortRel(keys, Eval(kid, outer, db).value, OuterEnv(OwnColumns(Sort(keys)), outer))
  {
    hide SortRel, OuterEnv, OwnColumns;
  }

  lemma SortedBag(keys: seq<SortKey>, rel: Rel, env: Env)
    ensures SortRel(keys, rel, env).Ok? ==> multiset(SortRel(keys, rel, env).value.rows) == multiset(rel.rows)
  {
    hide RowLess;
    SortBag((a, b) => RowLess(keys, env, a, b), rel.rows);
  }

  lemma ColumnOfHeader(c: ColumnRef, rel: Rel)
    requires WellFormedRel(rel) && Field(c.id, Int64) in rel.header
    ensures c.id in Names(rel.header)
    ensures forall i | 0 <= i < |rel.rows| :: c.id in rel.rows[i] && rel.rows[i][c.id].Type() == Int64
  {
    var f :| 0 <= f < |rel.header| && rel.header[f] == Field(c.id, Int64);
    forall i | 0 <= i < |rel.rows| ensures c.id in rel.rows[i] && rel.rows[i][c.id].Type() == Int64 {
      assert RowFits(rel.header, rel.rows[i]);
      assert rel.header[f].id in rel.rows[i];
    }
  }

  // ---------------------------------------------------------------- sorting a projection

  /** Each projected row beside the row it was computed from; a column that both have is the projected one. */
  ghost function Widened(source: seq<Row>, projected: seq<Row>): (r: seq<Row>)
    requires |source| == |projected|
    ensures |r| == |projected|
    ensures forall i, id | 0 <= i < |r| && id in projected[i] :: id in r[i] && r[i][id] == projected[i][id]
    ensures forall i, id | 0 <= i < |r| && id !in projected[i] && id in source[i] :: id in r[i] && r[i][id] == source[i][id]
    ensures forall i | 0 <= i < |r| :: r[i].Keys == source[i].Keys + projected[i].Keys
  {
    seq(|source|, i requires 0 <= i < |source| => source[i] + projected[i])
  }

  lemma WidenedTyped(order: seq<SortKey>, env: Env, source: Rel, projected: Rel)
    requires WellFormedRel(source) && WellFormedRel(projected) && |source.rows| == |projected.rows|
    ensures KeysTyped(order, env, Widened(source.rows, projected.rows))
  {
    FittingRowsTyped(order, env, source.header, source.rows);
    FittingRowsTyped(order, env, projected.header, projected.rows);
    var rows := Widened(source.rows, projected.rows);
    hide RowFits, DistinctIds;
    forall i | 0 <= i < |rows| ensures projected.rows[i].Keys == Names(projected.header) && source.rows[i].Keys == Names(source.header) {
      RowKeys(projected, i);
      RowKeys(source, i);
    }
    forall k, i, j | 0 <= k < |order| && 0 <= i < |rows| && 0 <= j < |rows|
      ensures CellOf(order[k].col, rows[i], env).Type() == CellOf(order[k].col, rows[j], env).Type()
    {
      WidenedCell(order[k].col, env, source.rows, projected.rows, i);
      WidenedCell(order[k].col, env, source.rows, projected.rows, j);
    }
  }

  lemma RowKeys(rel: Rel, i: int)
    requires WellFormedRel(rel) && 0 <= i < |rel.rows|
    ensures rel.rows[i].Keys == Names(rel.header)
  {
    assert RowFits(rel.header, rel.rows[i]);
  }

  lemma WidenedCell(c: ColumnRef, env: Env, source: seq<Row>, projected: seq<Row>, i: int)
    requires |source| == |projected| && 0 <= i < |source|
    ensures CellOf(c, Widened(source, projected)[i], env) ==
            CellOf(c, if c.id in projected[i] then projected[i] else source[i], env)
  {
  }

  /** Sorting a projection orders its rows by keys that may also name columns the projection drops. */
  lemma OrderProjectionMeans(keys: seq<SortKey>, source: Rel, projected: Rel, env: Env) returns (at: seq<int>)
    requires WellFormedRel(source) && WellFormedRel(projected) && |source.rows| == |projected.rows|
    ensures SortProjected(keys, source, projected, env).Ok? <==>
            forall k | 0 <= k < |keys| :: Resolves(keys[k].col, Names(source.header) + Names(projected.header), env)
    ensures SortProjected(keys, source, projected, env).Ok? ==>
              Permutes(at, |projected.rows|) &&
              SortProjected(keys, source, projected, env).value == Rel(projected.header, Fetch(projected.rows, at))
    ensures Permutes(at, |projected.rows|) && forall i, j | 0 <= i < j < |at| ::
              var wide := Widened(source.rows, projected.rows);
              InOrder(keys, env, wide[at[i]], wide[at[j]], at[i], at[j])
  {
    hide WellFormedRel, RowLess, KeysTyped, InOrder, StableSort;
    var wide := Widened(source.rows, projected.rows);
    WidenedTyped(keys, env, source, projected);
    at := SortedIsPermutation(keys, env, wide);
    if KeysResolve(keys, Names(source.header) + Names(projected.header), env) {
      SortedPairs(keys, env, source, projected, at);
    }
  }

  lemma SortedPairs(keys: seq<SortKey>, env: Env, source: Rel, projected: Rel, at: seq<int>)
    requires |source.rows| == |projected.rows| && KeysResolve(keys, Names(source.header) + Names(projected.header), env)
    requires at == StableSort(LessAt(keys, env, Widened(source.rows, projected.rows)), Identity(|source.rows|))
    requires Positions(at, |source.rows|)
    ensures SortProjected(keys, source, projected, env) == Ok(Rel(projected.header, Fetch(projected.rows, at)))
  {
    hide RowLess, StableSort;
    var wide := Widened(source.rows, projected.rows);
    var items := seq(|source.rows|, i requires 0 <= i < |source.rows| => (source.rows[i] + projected.rows[i], projected.rows[i]));
    var la, lb := LessAt(keys, env, wide), (a: (Row, Row), b: (Row, Row)) => RowLess(keys, env, a.0, b.0);
    var f := (i: int) => if 0 <= i < |items| then items[i] else (map[], map[]);
    SortMapped(la, lb, Identity(|source.rows|), f);
    assert MapTo(Identity(|source.rows|), f) == items;
    var sorted := StableSort(lb, items);
    assert MapTo(at, f) == sorted;
    assert seq(|sorted|, i requires 0 <= i < |sorted| => sorted[i].1) == Fetch(projected.rows, at);
  }

  // ---------------------------------------------------------------- limit

  /** LIMIT returns the first rows of its input, as many as it asks for and there are. */
  lemma LimitMeans(perm: OrderPermission, count: nat, kid: Plan, outer: seq<Row>, db: Db)
    ensures var rel, out := Eval(kid, outer, db), Eval(Node(perm, Limit(count), [kid]), outer, db);
            && (out.Ok? <==> rel.Ok?)
            && (out.Ok? ==> out.value.header == rel.value.header && out.value.rows <= rel.value.rows)
            && (out.Ok? ==> |out.value.rows| == if count < |rel.value.rows| then count else |rel.value.rows|)
  {
  }
}
