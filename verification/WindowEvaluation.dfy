/** A whole window column: partition the selected rows, evaluate each partition, and write every value to
  its row. The result is the declarative column, in selection order.
 */
module WindowEvaluation {
  import opened Plans
  import opened Sequences
  import opened Values
  import opened Algebra
  import opened Windows
  import opened Sorting
  import opened Aggregation
  import opened RowOrder
  import opened SortedPartitions
  import opened WindowKernels

  ghost predicate InRange(sel: seq<int>, n: int) {
    forall i | 0 <= i < |sel| :: 0 <= sel[i] < n
  }

  // ---------------------------------------------------------------- partitions

  lemma PartitionSnoc(w: WinExpr, rows: seq<Row>, n: int, env: Env, key: seq<Cell>, ps: seq<int>)
    requires 0 <= n < |rows| && Partition(w, rows[..n], env, key, ps)
    ensures Partition(w, rows[..n + 1], env, key, if KeyOf(w.partition, rows[n], env) == key then ps + [n] else ps)
  {
    hide KeyOf;
    var more := if KeyOf(w.partition, rows[n], env) == key then ps + [n] else ps;
    forall j | 0 <= j < n + 1 ensures KeyOf(w.partition, rows[..n + 1][j], env) == key <==> j in more {
      if j < n {
        assert rows[..n + 1][j] == rows[..n][j];
      } else {
        forall i | 0 <= i < |ps| ensures ps[i] != n {}
      }
    }
  }

  /** The partitions of a selection, by key in order of first appearance. */
  ghost predicate Partitioned(w: WinExpr, batch: seq<Row>, sel: seq<int>, rows: seq<Row>, env: Env,
                              parts: seq<seq<int>>, keys: seq<seq<Cell>>, pos: seq<seq<int>>) {
    && |parts| == |keys| == |pos|
    && (forall g | 0 <= g < |parts| :: Partition(w, rows, env, keys[g], pos[g]))
    && (forall g | 0 <= g < |parts| :: SelectedAt(sel, pos[g], parts[g]))
  }

  /** The ids of a list of positions. */
  ghost predicate SelectedAt(sel: seq<int>, ops: seq<int>, ids: seq<int>) {
    |ids| == |ops| && Positions(ops, |sel|) && forall k | 0 <= k < |ids| :: ids[k] == sel[ops[k]]
  }

  ghost predicate KeyIndex(index: map<seq<Cell>, int>, keys: seq<seq<Cell>>) {
    && (forall k | k in index :: 0 <= index[k] < |keys| && keys[index[k]] == k)
    && (forall g | 0 <= g < |keys| :: keys[g] in index && index[keys[g]] == g)
  }

  ghost predicate Covered(w: WinExpr, rows: seq<Row>, env: Env, index: map<seq<Cell>, int>) {
    forall j | 0 <= j < |rows| :: KeyOf(w.partition, rows[j], env) in index
  }

  lemma PartitionsSnoc(w: WinExpr, batch: seq<Row>, sel: seq<int>, rows: seq<Row>, n: int, env: Env,
                       parts: seq<seq<int>>, keys: seq<seq<Cell>>, pos: seq<seq<int>>, at: int)
    requires |rows| == |sel| && 0 <= n < |rows| && 0 <= at < |keys| && keys[at] == KeyOf(w.partition, rows[n], env)
    requires Partitioned(w, batch, sel, rows[..n], env, parts, keys, pos)
    requires forall g | 0 <= g < |keys| && g != at :: keys[g] != keys[at]
    ensures |parts| == |keys| == |pos|
    ensures Partitioned(w, batch, sel, rows[..n + 1], env, parts[at := parts[at] + [sel[n]]], keys, pos[at := pos[at] + [n]])
  {
    hide Partition, KeyOf;
    forall g | 0 <= g < |keys|
      ensures Partition(w, rows[..n + 1], env, keys[g], if g == at then pos[at] + [n] else pos[g])
    {
      PartitionSnoc(w, rows, n, env, keys[g], pos[g]);
    }
  }

  /** The keys of some rows, each once, in order of first appearance. */
  ghost predicate FirstKeys(cols: seq<ColumnRef>, rows: seq<Row>, env: Env, keys: seq<seq<Cell>>) {
    keys == Dedup(AllKeys(cols, rows, env))
  }

  lemma FirstKeysSnoc(cols: seq<ColumnRef>, rows: seq<Row>, n: int, env: Env, keys: seq<seq<Cell>>)
    requires 0 <= n < |rows| && FirstKeys(cols, rows[..n], env, keys)
    ensures var key := KeyOf(cols, rows[n], env); FirstKeys(cols, rows[..n + 1], env, if key in keys then keys else keys + [key])
  {
    hide KeyOf;
    var all := AllKeys(cols, rows[..n + 1], env);
    assert all[..n] == AllKeys(cols, rows[..n], env) && all[n] == KeyOf(cols, rows[n], env);
  }

  /** Finds the partition of a key, opening it when the key is new. */
  method LocatePartition(w: WinExpr, batch: seq<Row>, sel: seq<int>, ghost rows: seq<Row>, env: Env, parts0: seq<seq<int>>,
                         ghost keys0: seq<seq<Cell>>, ghost pos0: seq<seq<int>>, index0: map<seq<Cell>, int>, key: seq<Cell>)
    returns (parts: seq<seq<int>>, ghost keys: seq<seq<Cell>>, ghost pos: seq<seq<int>>, index: map<seq<Cell>, int>)
    requires Partitioned(w, batch, sel, rows, env, parts0, keys0, pos0) && KeyIndex(index0, keys0) && Covered(w, rows, env, index0)
    ensures Partitioned(w, batch, sel, rows, env, parts, keys, pos) && KeyIndex(index, keys) && Covered(w, rows, env, index)
    ensures key in index && keys == if key in keys0 then keys0 else keys0 + [key]
  {
    hide Partitioned, KeyIndex, Covered;
    KeysOfIndex(index0, keys0, key);
    if key in index0 {
      return parts0, keys0, pos0, index0;
    }
    OpenPartition(w, batch, sel, rows, env, parts0, keys0, pos0, index0, key);
    return parts0 + [[]], keys0 + [key], pos0 + [[]], index0[key := |parts0|];
  }

  /** One partition per key, in order of first appearance. */
  method BuildPartitions(w: WinExpr, batch: seq<Row>, sel: seq<int>, env: Env)
    returns (parts: seq<seq<int>>, ghost keys: seq<seq<Cell>>, ghost pos: seq<seq<int>>, index: map<seq<Cell>, int>)
    requires InRange(sel, |batch|)
    ensures Partitioned(w, batch, sel, Fetch(batch, sel), env, parts, keys, pos)
    ensures KeyIndex(index, keys) && Covered(w, Fetch(batch, sel), env, index)
    ensures FirstKeys(w.partition, Fetch(batch, sel), env, keys)
  {
    ghost var rows := Fetch(batch, sel);
    parts, keys, pos, index := [], [], [], map[];
    assert Partitioned(w, batch, sel, rows[..0], env, parts, keys, pos) && KeyIndex(index, keys) && Covered(w, rows[..0], env, index);
    NoKeysYet(w.partition, rows, env);
    hide Partition, KeyOf, Partitioned, KeyIndex, Covered, FirstKeys;
    var n := 0;
    while n < |sel|
      invariant 0 <= n <= |sel|
      invariant Partitioned(w, batch, sel, rows[..n], env, parts, keys, pos)
      invariant KeyIndex(index, keys) && Covered(w, rows[..n], env, index)
      invariant FirstKeys(w.partition, rows[..n], env, keys)
    {
      FirstKeysSnoc(w.partition, rows, n, env, keys);
      var key := KeyOf(w.partition, batch[sel[n]], env);
      parts, keys, pos, index := LocatePartition(w, batch, sel, rows[..n], env, parts, keys, pos, index, key);
      KeysOfIndex(index, keys, key);
      var at := index[key];
      PartitionsSnoc(w, batch, sel, rows, n, env, parts, keys, pos, at);
      CoveredSnoc(w, rows, n, env, index);
      parts, pos := parts[at := parts[at] + [sel[n]]], pos[at := pos[at] + [n]];
      n := n + 1;
    }
    assert rows[..n] == rows;
  }

  lemma KeysOfIndex(index: map<seq<Cell>, int>, keys: seq<seq<Cell>>, key: seq<Cell>)
    requires KeyIndex(index, keys)
    ensures key in index <==> key in keys
    ensures key in index ==> 0 <= index[key] < |keys| && keys[index[key]] == key && forall g | 0 <= g < |keys| && g != index[key] :: keys[g] != key
  {
  }

  lemma CoveredSnoc(w: WinExpr, rows: seq<Row>, n: int, env: Env, index: map<seq<Cell>, int>)
    requires 0 <= n < |rows| && Covered(w, rows[..n], env, index) && KeyOf(w.partition, rows[n], env) in index
    ensures Covered(w, rows[..n + 1], env, index)
  {
    hide KeyOf;
    assert rows[..n + 1] == rows[..n] + [rows[n]];
  }

  lemma NoKeysYet(cols: seq<ColumnRef>, rows: seq<Row>, env: Env)
    ensures FirstKeys(cols, rows[..0], env, [])
  {
  }

  /** A key seen for the first time opens an empty partition. */
  lemma OpenPartition(w: WinExpr, batch: seq<Row>, sel: seq<int>, rows: seq<Row>, env: Env, parts: seq<seq<int>>, keys: seq<seq<Cell>>,
                      pos: seq<seq<int>>, index: map<seq<Cell>, int>, key: seq<Cell>)
    requires Partitioned(w, batch, sel, rows, env, parts, keys, pos) && KeyIndex(index, keys) && Covered(w, rows, env, index) && key !in index
    ensures Partitioned(w, batch, sel, rows, env, parts + [[]], keys + [key], pos + [[]])
    ensures KeyIndex(index[key := |parts|], keys + [key]) && Covered(w, rows, env, index[key := |parts|])
    ensures |parts| == |keys|
  {
    hide Partition, KeyOf;
    EmptyPartition(w, rows, env, key, index);
  }

  lemma EmptyPartition(w: WinExpr, rows: seq<Row>, env: Env, key: seq<Cell>, index: map<seq<Cell>, int>)
    requires Covered(w, rows, env, index) && key !in index
    ensures Partition(w, rows, env, key, [])
  {
    hide KeyOf;
  }

  // ---------------------------------------------------------------- writing values

  /** Writes the cells of one partition to its rows. */
  method Scatter(values: seq<Cell>, ids: seq<int>, cells: seq<Cell>) returns (out: seq<Cell>)
    requires |cells| == |ids| && InRange(ids, |values|) && Unrepeated(ids)
    ensures |out| == |values|
    ensures forall k | 0 <= k < |ids| :: out[ids[k]] == cells[k]
    ensures forall r | 0 <= r < |values| && r !in ids :: out[r] == values[r]
  {
    out := values;
    var n := 0;
    while n < |ids|
      invariant 0 <= n <= |ids| && |out| == |values|
      invariant forall k | 0 <= k < n :: out[ids[k]] == cells[k]
      invariant forall r | 0 <= r < |values| && r !in ids[..n] :: out[r] == values[r]
    {
      out := out[ids[n] := cells[n]];
      assert ids[..n + 1] == ids[..n] + [ids[n]];
      n := n + 1;
    }
    assert ids[..n] == ids;
  }

  function LessIds(order: seq<SortKey>, env: Env, batch: seq<Row>): (int, int) -> bool {
    (i, j) => 0 <= i < |batch| && 0 <= j < |batch| && RowLess(order, env, batch[i], batch[j])
  }

  function SelAt(sel: seq<int>): int -> int {
    p => if 0 <= p < |sel| then sel[p] else 0
  }

  /** Sorting a partition's row ids is sorting its positions. */
  lemma SortedIds(w: WinExpr, batch: seq<Row>, sel: seq<int>, env: Env, ps: seq<int>, ids: seq<int>)
    requires InRange(sel, |batch|) && SelectedAt(sel, ps, ids)
    ensures SelectedAt(sel, StableSort(LessAt(w.order, env, Fetch(batch, sel)), ps), StableSort(LessIds(w.order, env, batch), ids))
  {
    hide RowLess;
    var la, lb := LessAt(w.order, env, Fetch(batch, sel)), LessIds(w.order, env, batch);
    forall x, y | x in ps && y in ps ensures la(x, y) == lb(SelAt(sel)(x), SelAt(sel)(y)) {
    }
    SortMapped(la, lb, ps, SelAt(sel));
    assert MapTo(ps, SelAt(sel)) == ids;
    SortBag(la, ps);
    var ops := StableSort(la, ps);
    forall k | 0 <= k < |ops| ensures 0 <= ops[k] < |sel| {
      assert ops[k] in multiset(ps);
    }
  }

  lemma SelectedLinked(batch: seq<Row>, sel: seq<int>, ops: seq<int>, ids: seq<int>)
    requires InRange(sel, |batch|) && SelectedAt(sel, ops, ids)
    ensures Linked(batch, Fetch(batch, sel), ids, ops)
  {
  }

  lemma SelectedDistinct(sel: seq<int>, ops: seq<int>, ids: seq<int>, n: int)
    requires InRange(sel, n) && SelectedAt(sel, ops, ids) && Unrepeated(sel) && Unrepeated(ops)
    ensures Unrepeated(ids) && InRange(ids, n)
  {
    forall i, j | 0 <= i < j < |ids| ensures ids[i] != ids[j] {
      assert ops[i] != ops[j];
      assert sel[ops[i]] != sel[ops[j]];
    }
  }

  /** One partition, in the order its function needs: the values of its rows, and which rows they are. */
  method EvaluatePartition(w: WinExpr, batch: seq<Row>, sel: seq<int>, env: Env, ids: seq<int>, ghost key: seq<Cell>, ghost ps: seq<int>)
    returns (r: Outcome<seq<Cell>>, order: seq<int>, ghost ops: seq<int>)
    requires InRange(sel, |batch|) && Unrepeated(sel) && KeysTyped(w.order, env, Fetch(batch, sel))
    requires Partition(w, Fetch(batch, sel), env, key, ps) && SelectedAt(sel, ps, ids)
    ensures SelectedAt(sel, ops, order) && Unrepeated(ops) && (forall p :: p in ops <==> p in ps)
    ensures r.Ok? ==> |r.value| == |ops| && Gives(w, Fetch(batch, sel), env, ops, r.value)
    ensures r.Fails? ==> SomeRowFails(w, Fetch(batch, sel), env)
  {
    hide KeysTyped, Partition, SortedPartition, Gives, StableSort, LessIds, LessAt;
    ghost var rows := Fetch(batch, sel);
    if w.fn.Aggregated? && w.frame == WholePartition {
      order, ops := ids, ps;
      PartitionDistinct(w, rows, env, key, ps);
      SelectedLinked(batch, sel, ps, ids);
      if ids == [] {
        NothingGiven(w, rows, env);
        return Ok([]), order, ops;
      }
      r := WholePartitionValue(w, batch, ids, env, rows, key, ps);
      return;
    }
    order, ops := StableSort(LessIds(w.order, env, batch), ids), StableSort(LessAt(w.order, env, rows), ps);
    SortedIds(w, batch, sel, env, ps, ids);
    SelectedLinked(batch, sel, ops, order);
    SortsPartition(w, rows, env, key, ps);
    SamePositions(w, rows, env, key, ps, ops);
    if !w.fn.Aggregated? {
      r := RankPartition(w, batch, order, env, rows, key, ps, ops);
    } else if w.frame == RowsCumulative {
      r := RowsPartition(w, batch, order, env, rows, key, ps, ops);
    } else {
      r := RangePartition(w, batch, order, env, rows, key, ps, ops);
    }
  }

  lemma NothingGiven(w: WinExpr, rows: seq<Row>, env: Env)
    ensures Gives(w, rows, env, [], [])
  {
  }

  lemma PartitionDistinct(w: WinExpr, rows: seq<Row>, env: Env, key: seq<Cell>, ps: seq<int>)
    requires Partition(w, rows, env, key, ps)
    ensures Unrepeated(ps)
  {
  }

  lemma SamePositions(w: WinExpr, rows: seq<Row>, env: Env, key: seq<Cell>, ps: seq<int>, ops: seq<int>)
    requires Partition(w, rows, env, key, ps) && SortedPartition(w, rows, env, key, ops)
    ensures Unrepeated(ops) && forall p :: p in ops <==> p in ps
  {
    hide KeyOf;
    forall p ensures p in ops <==> p in ps {
      if p in ops || p in ps {
        assert 0 <= p < |rows|;
      }
    }
  }

  /** All rows of the first `g` partitions have their values. */
  ghost predicate Written(w: WinExpr, rows: seq<Row>, env: Env, sel: seq<int>, pos: seq<seq<int>>, g: int, values: seq<Cell>)
    requires 0 <= g <= |pos| && |rows| == |sel|
  {
    && InRange(sel, |values|)
    && forall h, p | 0 <= h < g && p in pos[h] :: 0 <= p < |rows| && WindowAt(w, rows, p, env) == Ok(values[sel[p]])
  }

  lemma WriteStep(w: WinExpr, batch: seq<Row>, sel: seq<int>, rows: seq<Row>, env: Env, parts: seq<seq<int>>, keys: seq<seq<Cell>>,
                  pos: seq<seq<int>>, g: int, order: seq<int>, ops: seq<int>, cells: seq<Cell>, values: seq<Cell>, out: seq<Cell>)
    requires |rows| == |sel| && Unrepeated(sel) && 0 <= g < |pos|
    requires Partitioned(w, batch, sel, rows, env, parts, keys, pos)
    requires forall h | 0 <= h < |keys| && h != g :: keys[h] != keys[g]
    requires Written(w, rows, env, sel, pos, g, values) && |out| == |values|
    requires SelectedAt(sel, ops, order) && (forall p :: p in ops <==> p in pos[g])
    requires |cells| == |ops| && Gives(w, rows, env, ops, cells)
    requires forall k | 0 <= k < |order| :: 0 <= order[k] < |values| && out[order[k]] == cells[k]
    requires forall r | 0 <= r < |values| && r !in order :: out[r] == values[r]
    ensures Written(w, rows, env, sel, pos, g + 1, out)
  {
    hide WindowAt, KeyOf;
    forall h, p | 0 <= h < g + 1 && p in pos[h] ensures 0 <= p < |rows| && WindowAt(w, rows, p, env) == Ok(out[sel[p]]) {
      if h == g {
        var k :| 0 <= k < |ops| && ops[k] == p;
        assert order[k] == sel[p];
      } else {
        assert KeyOf(w.partition, rows[p], env) == keys[h];
        assert p !in pos[g];
        forall k | 0 <= k < |order| ensures order[k] != sel[p] {
          assert ops[k] in ops;
        }
      }
    }
  }

  function CastColumn(ty: ColumnType, values: seq<Cell>, sel: seq<int>): (r: seq<Cell>)
    requires forall i | 0 <= i < |sel| :: 0 <= sel[i] < |values|
    ensures |r| == |sel| && forall i | 0 <= i < |r| :: r[i] == Cast(ty, values[sel[i]])
  {
    seq(|sel|, i requires 0 <= i < |sel| => Cast(ty, values[sel[i]]))
  }

  lemma AllWritten(w: WinExpr, rows: seq<Row>, env: Env, sel: seq<int>, keys: seq<seq<Cell>>, pos: seq<seq<int>>,
                   index: map<seq<Cell>, int>, values: seq<Cell>)
    requires |rows| == |sel| && |keys| == |pos| && KeyIndex(index, keys) && Covered(w, rows, env, index)
    requires forall g | 0 <= g < |keys| :: Partition(w, rows, env, keys[g], pos[g])
    requires Written(w, rows, env, sel, pos, |pos|, values)
    ensures WindowColumn(w, rows, env) == Ok(CastColumn(w.ty, values, sel))
  {
    hide WindowAt, KeyOf, Cast;
    forall i | 0 <= i < |rows| ensures WindowAt(w, rows, i, env) == Ok(values[sel[i]]) {
      var g := index[KeyOf(w.partition, rows[i], env)];
      assert Partition(w, rows, env, keys[g], pos[g]);
      assert i in pos[g];
    }
    assert WindowColumn(w, rows, env).value == CastColumn(w.ty, values, sel);
  }

  /** Evaluates one window expression over the selected rows. */
  method EvaluateWindow(w: WinExpr, batch: seq<Row>, sel: seq<int>, env: Env) returns (r: Outcome<seq<Cell>>)
    requires InRange(sel, |batch|) && Unrepeated(sel) && KeysTyped(w.order, env, Fetch(batch, sel))
    ensures r == WindowColumn(w, Fetch(batch, sel), env)
  {
    hide KeysTyped, Partition, Gives, Covered, KeyOf, Written, WindowAt, WindowColumn, SomeRowFails;
    ghost var rows := Fetch(batch, sel);
    var parts, keys, pos, index := BuildPartitions(w, batch, sel, env);
    var values := seq(|batch|, i => Null(w.ty));
    var g := 0;
    NothingWritten(w, rows, env, sel, pos, values);
    while g < |parts|
      invariant 0 <= g <= |parts| && |values| == |batch|
      invariant Written(w, rows, env, sel, pos, g, values)
    {
      var cells, order, ops := EvaluatePartition(w, batch, sel, env, parts[g], keys[g], pos[g]);
      if cells.Fails? {
        ColumnFails(w, rows, env);
        return Fails;
      }
      SelectedDistinct(sel, ops, order, |batch|);
      var out := Scatter(values, order, cells.value);
      WriteStep(w, batch, sel, rows, env, parts, keys, pos, g, order, ops, cells.value, values, out);
      values := out;
      g := g + 1;
    }
    AllWritten(w, rows, env, sel, keys, pos, index, values);
    r := Ok(CastColumn(w.ty, values, sel));
  }

  lemma NothingWritten(w: WinExpr, rows: seq<Row>, env: Env, sel: seq<int>, pos: seq<seq<int>>, values: seq<Cell>)
    requires |rows| == |sel| && InRange(sel, |values|)
    ensures Written(w, rows, env, sel, pos, 0, values)
  {
  }

  lemma ColumnFails(w: WinExpr, rows: seq<Row>, env: Env)
    requires SomeRowFails(w, rows, env)
    ensures WindowColumn(w, rows, env) == Fails
  {
    hide WindowAt;
  }

  /** Evaluates every window expression of an operator over the same input. */
  method EvaluateWindows(wins: seq<WinExpr>, batch: seq<Row>, sel: seq<int>, env: Env) returns (r: Outcome<seq<seq<Cell>>>)
    requires InRange(sel, |batch|) && Unrepeated(sel)
    requires forall k | 0 <= k < |wins| :: KeysTyped(wins[k].order, env, Fetch(batch, sel))
    ensures r == WindowColumns(wins, Fetch(batch, sel), env)
  {
    hide KeysTyped, WindowColumn;
    ghost var rows := Fetch(batch, sel);
    var cols: seq<seq<Cell>> := [];
    var n := 0;
    while n < |wins|
      invariant 0 <= n <= |wins| && |cols| == n
      invariant forall k | 0 <= k < n :: WindowColumn(wins[k], rows, env) == Ok(cols[k])
    {
      var col := EvaluateWindow(wins[n], batch, sel, env);
      if col.Fails? {
        assert WindowColumns(wins, rows, env).Fails?;
        return Fails;
      }
      cols := cols + [col.value];
      n := n + 1;
    }
    WindowColumnsAre(wins, rows, env, cols);
    r := Ok(cols);
  }

  lemma WindowColumnsAre(wins: seq<WinExpr>, rows: seq<Row>, env: Env, cols: seq<seq<Cell>>)
    requires |cols| == |wins| && forall k | 0 <= k < |wins| :: WindowColumn(wins[k], rows, env) == Ok(cols[k])
    ensures WindowColumns(wins, rows, env) == Ok(cols)
  {
    hide WindowColumn;
    assert WindowColumns(wins, rows, env).value == cols;
  }
}
