/** The value of a window expression read off a sorted partition: what precedes a row is a prefix of the
  partition, its peers a range, its ROWS frame the prefix that ends with it.
 */
module SortedPartitions {
  import opened Plans
  import opened Sequences
  import opened Values
  import opened Algebra
  import opened Windows
  import opened Sorting
  import opened Aggregation
  import opened RowOrder

  /** `ps` lists, in input order, the positions whose partition key is `key`. */
  ghost predicate Partition(w: WinExpr, rows: seq<Row>, env: Env, key: seq<Cell>, ps: seq<int>) {
    && Positions(ps, |rows|) && Ascending(ps)
    && forall j | 0 <= j < |rows| :: KeyOf(w.partition, rows[j], env) == key <==> j in ps
  }

  /** `ops` is a partition in window order, ties in input order. */
  ghost predicate SortedPartition(w: WinExpr, rows: seq<Row>, env: Env, key: seq<Cell>, ops: seq<int>) {
    && Positions(ops, |rows|) && Unrepeated(ops)
    && Ordered(ops, PrecAt(w.order, env, rows))
    && forall j | 0 <= j < |rows| :: KeyOf(w.partition, rows[j], env) == key <==> j in ops
  }

  lemma UnrepeatedBag(s: seq<int>, t: seq<int>)
    requires multiset(s) == multiset(t) && Unrepeated(s)
    ensures Unrepeated(t)
    ensures forall x :: x in s <==> x in t
  {
    forall x ensures x in s <==> x in t {
      assert x in multiset(s) <==> x in multiset(t);
    }
    forall i, j | 0 <= i < j < |t| ensures t[i] != t[j] {
      if t[i] == t[j] {
        assert t == t[..i] + [t[i]] + t[i + 1..j] + [t[j]] + t[j + 1..];
        assert multiset(t)[t[i]] >= 2;
        SingleCount(s, t[i]);
      }
    }
  }

  lemma {:induction false} SingleCount(s: seq<int>, x: int)
    requires Unrepeated(s)
    ensures multiset(s)[x] <= 1
  {
    if s != [] {
      var n := |s| - 1;
      assert s == s[..n] + [s[n]];
      SingleCount(s[..n], x);
      if s[n] == x {
        forall i | 0 <= i < n ensures s[..n][i] != x {
          assert s[i] != s[n];
        }
      }
      assert x !in s[..n] ==> multiset(s[..n])[x] == 0;
    }
  }

  lemma SortsPartition(w: WinExpr, rows: seq<Row>, env: Env, key: seq<Cell>, ps: seq<int>)
    requires KeysTyped(w.order, env, rows) && Partition(w, rows, env, key, ps)
    ensures SortedPartition(w, rows, env, key, StableSort(LessAt(w.order, env, rows), ps))
  {
    hide RowLess, KeysTyped, KeyOf;
    SortedPositions(w.order, env, rows, ps);
    SortBag(LessAt(w.order, env, rows), ps);
    AscendingDistinct(ps);
    UnrepeatedBag(ps, StableSort(LessAt(w.order, env, rows), ps));
    var ops := StableSort(LessAt(w.order, env, rows), ps);
    forall i | 0 <= i < |ops| ensures 0 <= ops[i] < |rows| {
      assert ops[i] in ops;
    }
  }

  // ---------------------------------------------------------------- prefixes and ranges

  predicate LessRows(order: seq<SortKey>, env: Env, rows: seq<Row>, i: int, j: int)
    requires 0 <= i < |rows| && 0 <= j < |rows|
  {
    RowLess(order, env, rows[i], rows[j])
  }

  predicate SameRows(order: seq<SortKey>, env: Env, rows: seq<Row>, i: int, j: int)
    requires 0 <= i < |rows| && 0 <= j < |rows|
  {
    SameKey(order, env, rows[i], rows[j])
  }

  /** Everything before `b` is strictly less than everything from `b` on. */
  ghost predicate Cut(order: seq<SortKey>, env: Env, rows: seq<Row>, ops: seq<int>, b: int)
    requires Positions(ops, |rows|)
  {
    0 <= b <= |ops| && forall q, r | 0 <= q < b <= r < |ops| :: LessRows(order, env, rows, ops[q], ops[r])
  }

  /** `ops[b..e]` is one peer set. */
  ghost predicate PeerRange(order: seq<SortKey>, env: Env, rows: seq<Row>, ops: seq<int>, b: int, e: int)
    requires Positions(ops, |rows|)
  {
    && Cut(order, env, rows, ops, b) && Cut(order, env, rows, ops, e) && b < e
    && forall q | b <= q < e :: SameRows(order, env, rows, ops[b], ops[q])
  }

  /** Facts of the row order between two positions. */
  lemma OrderFacts(order: seq<SortKey>, env: Env, rows: seq<Row>, i: int, j: int, k: int)
    requires KeysTyped(order, env, rows) && 0 <= i < |rows| && 0 <= j < |rows| && 0 <= k < |rows|
    ensures SameRows(order, env, rows, i, i)
    ensures SameRows(order, env, rows, i, j) <==> SameRows(order, env, rows, j, i)
    ensures SameRows(order, env, rows, i, j) ==> !LessRows(order, env, rows, i, j)
    ensures !SameRows(order, env, rows, i, j) ==> LessRows(order, env, rows, i, j) != LessRows(order, env, rows, j, i)
    ensures SameRows(order, env, rows, i, j) && SameRows(order, env, rows, j, k) ==> SameRows(order, env, rows, i, k)
    ensures LessRows(order, env, rows, i, j) && LessRows(order, env, rows, j, k) ==> LessRows(order, env, rows, i, k)
    ensures SameRows(order, env, rows, i, j) && LessRows(order, env, rows, j, k) ==> LessRows(order, env, rows, i, k)
    ensures LessRows(order, env, rows, i, j) && SameRows(order, env, rows, j, k) ==> LessRows(order, env, rows, i, k)
  {
    hide RowLess;
    RowTrichotomy(order, env, rows[i], rows[j]);
    RowTransitive(order, env, rows[i], rows[j], rows[k]);
  }

  lemma OrderedAt(order: seq<SortKey>, env: Env, rows: seq<Row>, ops: seq<int>, q: int, r: int)
    requires Positions(ops, |rows|) && Ordered(ops, PrecAt(order, env, rows)) && 0 <= q < r < |ops|
    ensures LessRows(order, env, rows, ops[q], ops[r]) || (SameRows(order, env, rows, ops[q], ops[r]) && ops[q] < ops[r])
  {
    hide RowLess, SameKey;
    assert PrecAt(order, env, rows)(ops[q], ops[r]);
  }

  /** A peer set ends where the next row differs from its last. */
  lemma NextCut(w: WinExpr, rows: seq<Row>, env: Env, key: seq<Cell>, ops: seq<int>, b: int, e: int)
    requires KeysTyped(w.order, env, rows) && SortedPartition(w, rows, env, key, ops)
    requires Cut(w.order, env, rows, ops, b) && b < e <= |ops|
    requires forall q | b <= q < e :: SameRows(w.order, env, rows, ops[b], ops[q])
    requires e < |ops| ==> !SameRows(w.order, env, rows, ops[e - 1], ops[e])
    ensures PeerRange(w.order, env, rows, ops, b, e)
  {
    hide KeysTyped, LessRows, SameRows, KeyOf, Unrepeated;
    forall q, r | 0 <= q < e <= r < |ops| ensures LessRows(w.order, env, rows, ops[q], ops[r]) {
      if b <= q {
        OrderedAt(w.order, env, rows, ops, e - 1, e);
        if e < r { OrderedAt(w.order, env, rows, ops, e, r); }
        OrderFacts(w.order, env, rows, ops[e - 1], ops[e], ops[r]);
        OrderFacts(w.order, env, rows, ops[b], ops[e - 1], ops[r]);
        OrderFacts(w.order, env, rows, ops[b], ops[q], ops[r]);
        OrderFacts(w.order, env, rows, ops[q], ops[b], ops[r]);
      }
    }
  }

  /** The rows ahead of the `k`-th row are the first `k`; with the row itself, the first `k + 1`. */
  lemma AheadIsPrefix(w: WinExpr, rows: seq<Row>, env: Env, key: seq<Cell>, ops: seq<int>, k: int, up: int)
    requires KeysTyped(w.order, env, rows) && SortedPartition(w, rows, env, key, ops) && 0 <= k < |ops| && k <= up <= k + 1
    ensures Lists(rows, Ahead(w, rows[ops[k]], ops[k] + up - k, env), ops[..up])
    ensures Unrepeated(ops[..up])
  {
    hide KeysTyped, RowLess, SameKey, KeyOf;
    var x := rows[ops[k]];
    assert ops[k] in ops;
    forall j | 0 <= j < |rows| ensures Ahead(w, x, ops[k] + up - k, env)(j, rows[j]) <==> j in ops[..up] {
      PeerIsSameKey(w, rows[j], x, env);
      AheadOne(w, rows, env, key, ops, k, up, j);
    }
  }

  lemma AheadOne(w: WinExpr, rows: seq<Row>, env: Env, key: seq<Cell>, ops: seq<int>, k: int, up: int, j: int)
    requires KeysTyped(w.order, env, rows) && SortedPartition(w, rows, env, key, ops) && 0 <= k < |ops| && k <= up <= k + 1
    requires 0 <= j < |rows|
    ensures KeyOf(w.partition, rows[j], env) == key &&
            (LessRows(w.order, env, rows, j, ops[k]) || (SameRows(w.order, env, rows, j, ops[k]) && j < ops[k] + up - k))
            <==> j in ops[..up]
  {
    hide KeysTyped, LessRows, SameRows, KeyOf;
    if j in ops {
      var m :| 0 <= m < |ops| && ops[m] == j;
      OrderFacts(w.order, env, rows, j, ops[k], j);
      OrderFacts(w.order, env, rows, ops[k], j, ops[k]);
      if m < k {
        OrderedAt(w.order, env, rows, ops, m, k);
        assert ops[..up][m] == j;
      } else if m > k {
        OrderedAt(w.order, env, rows, ops, k, m);
        forall i | 0 <= i < up ensures ops[..up][i] != j {
          assert ops[i] != ops[m];
        }
      } else if up > k {
        assert ops[..up][k] == j;
      } else {
        forall i | 0 <= i < up ensures ops[..up][i] != j {
          assert ops[i] != ops[m];
        }
      }
    }
  }

  lemma RangeLists(w: WinExpr, rows: seq<Row>, env: Env, key: seq<Cell>, ops: seq<int>, b: int, e: int, k: int)
    requires KeysTyped(w.order, env, rows) && SortedPartition(w, rows, env, key, ops)
    requires PeerRange(w.order, env, rows, ops, b, e) && b <= k < e
    ensures Lists(rows, Before(w, rows[ops[k]], env), ops[..b]) && Unrepeated(ops[..b])
    ensures Lists(rows, Peers(w, rows[ops[k]], env), ops[b..e]) && Unrepeated(ops[b..e])
  {
    hide KeysTyped, RowLess, SameKey, KeyOf;
    var x := rows[ops[k]];
    assert ops[k] in ops;
    forall j | 0 <= j < |rows|
      ensures Before(w, x, env)(j, rows[j]) <==> j in ops[..b]
      ensures Peers(w, x, env)(j, rows[j]) <==> j in ops[b..e]
    {
      PeerIsSameKey(w, rows[j], x, env);
      RangeOne(w, rows, env, key, ops, b, e, k, j);
    }
  }

  lemma RangeOne(w: WinExpr, rows: seq<Row>, env: Env, key: seq<Cell>, ops: seq<int>, b: int, e: int, k: int, j: int)
    requires KeysTyped(w.order, env, rows) && SortedPartition(w, rows, env, key, ops)
    requires PeerRange(w.order, env, rows, ops, b, e) && b <= k < e && 0 <= j < |rows|
    ensures KeyOf(w.partition, rows[j], env) == key && LessRows(w.order, env, rows, j, ops[k]) <==> j in ops[..b]
    ensures KeyOf(w.partition, rows[j], env) == key && SameRows(w.order, env, rows, j, ops[k]) <==> j in ops[b..e]
  {
    hide KeysTyped, LessRows, SameRows, KeyOf;
    if j in ops {
      var m :| 0 <= m < |ops| && ops[m] == j;
      OrderFacts(w.order, env, rows, j, ops[k], j);
      OrderFacts(w.order, env, rows, ops[k], j, ops[k]);
      OrderFacts(w.order, env, rows, ops[b], j, ops[b]);
      OrderFacts(w.order, env, rows, j, ops[b], ops[k]);
      MemberOfSlice(ops, 0, b, m);
      MemberOfSlice(ops, b, e, m);
      assert ops[..b] == ops[0..b];
      if m < b {
        assert LessRows(w.order, env, rows, ops[m], ops[k]);
      } else if m >= e {
        assert LessRows(w.order, env, rows, ops[k], ops[m]);
      }
    } else {
      assert j !in ops[..b] && j !in ops[b..e];
    }
  }

  lemma MemberOfSlice(s: seq<int>, b: int, e: int, m: int)
    requires Unrepeated(s) && 0 <= b <= e <= |s| && 0 <= m < |s|
    ensures s[m] in s[b..e] <==> b <= m < e
  {
    if b <= m < e {
      assert s[b..e][m - b] == s[m];
    } else {
      forall i | 0 <= i < e - b ensures s[b..e][i] != s[m] {
        assert s[b + i] != s[m];
      }
    }
  }

  // ---------------------------------------------------------------- values

  /** The cells of a window argument at the listed positions. */
  function ArgsAt(w: WinExpr, rows: seq<Row>, env: Env, ops: seq<int>): (r: seq<Cell>)
    requires Positions(ops, |rows|)
    ensures |r| == |ops| && forall i | 0 <= i < |r| :: r[i] == ArgCell(w.arg, rows[ops[i]], env)
  {
    ArgCells(w.arg, Fetch(rows, ops), env)
  }

  /** What the sorted partition says the row at index `k`, in peer set `b..e`, gets. */
  function SortedValue(w: WinExpr, rows: seq<Row>, env: Env, ps: seq<int>, ops: seq<int>, b: int, e: int, k: int): Outcome<Cell>
    requires Positions(ps, |rows|) && Positions(ops, |rows|) && 0 <= b <= k < e <= |ops|
  {
    match w.fn
    case RowNumber => CountCell(1 + k)
    case Rank => CountCell(1 + b)
    case DenseRank => CountCell(1 + |KeySet(w, Fetch(rows, ops[..b]), env)|)
    case Aggregated(fn) =>
      match w.frame
      case WholePartition => AggOutcome(fn, w.ty, ArgsAt(w, rows, env, ps))
      case RowsCumulative => PrefixOutcome(fn, w.ty, ArgsAt(w, rows, env, ops[..k + 1]))
      case RangeCumulative => RangeOutcome(fn, w.ty, ArgsAt(w, rows, env, ops[..b]), ArgsAt(w, rows, env, ops[b..e]))
  }

  lemma PickedArgs(w: WinExpr, rows: seq<Row>, env: Env, g: (int, Row) -> bool, qs: seq<int>)
    requires Lists(rows, g, qs) && Unrepeated(qs)
    ensures multiset(ArgCells(w.arg, Picked(rows, g), env)) == multiset(ArgsAt(w, rows, env, qs))
    ensures |Picked(rows, g)| == |qs|
    ensures KeySet(w, Picked(rows, g), env) == KeySet(w, Fetch(rows, qs), env)
  {
    hide KeySet, Lists, Unrepeated, ArgCell;
    ListsInRange(rows, g, qs);
    PickedIsFetched(rows, g, qs);
    ArgCellsBag(w.arg, Picked(rows, g), Fetch(rows, qs), env);
    KeySetBag(w, Picked(rows, g), Fetch(rows, qs), env);
  }

  /** The declarative value of a row is the one read off the sorted partition. */
  lemma ValueFromSorted(w: WinExpr, rows: seq<Row>, env: Env, key: seq<Cell>, ps: seq<int>, ops: seq<int>, b: int, e: int, k: int)
    requires KeysTyped(w.order, env, rows) && Partition(w, rows, env, key, ps) && SortedPartition(w, rows, env, key, ops)
    requires PeerRange(w.order, env, rows, ops, b, e) && b <= k < e
    ensures WindowAt(w, rows, ops[k], env) == SortedValue(w, rows, env, ps, ops, b, e, k)
  {
    hide KeysTyped, KeyOf, KeySet, AggOutcome, PrefixOutcome, RangeOutcome, Lists, Unrepeated, Picked, PeerRange, CountCell,
         Ordered, Ascending, RowLess, SamePart, ArgCell;
    RangeBounds(w, rows, env, ops, b, e);
    var x := rows[ops[k]];
    AheadIsPrefix(w, rows, env, key, ops, k, k);
    AheadIsPrefix(w, rows, env, key, ops, k, k + 1);
    RangeLists(w, rows, env, key, ops, b, e, k);
    PickedArgs(w, rows, env, Ahead(w, x, ops[k], env), ops[..k]);
    PickedArgs(w, rows, env, Ahead(w, x, ops[k] + 1, env), ops[..k + 1]);
    PickedArgs(w, rows, env, Before(w, x, env), ops[..b]);
    PickedArgs(w, rows, env, Peers(w, x, env), ops[b..e]);
    WholePartitionRows(w, rows, env, key, ps, ops, k);
    if w.fn.Aggregated? {
      PrefixSameBag(w.fn.fn, w.ty, ArgCells(w.arg, Picked(rows, Ahead(w, x, ops[k] + 1, env)), env), ArgsAt(w, rows, env, ops[..k + 1]));
      RangeSameBag(w.fn.fn, w.ty, ArgCells(w.arg, Picked(rows, Before(w, x, env)), env), ArgsAt(w, rows, env, ops[..b]),
                   ArgCells(w.arg, Picked(rows, Peers(w, x, env)), env), ArgsAt(w, rows, env, ops[b..e]));
    }
  }

  lemma RangeBounds(w: WinExpr, rows: seq<Row>, env: Env, ops: seq<int>, b: int, e: int)
    requires Positions(ops, |rows|) && PeerRange(w.order, env, rows, ops, b, e)
    ensures 0 <= b < e <= |ops|
  {
  }

  lemma WholePartitionRows(w: WinExpr, rows: seq<Row>, env: Env, key: seq<Cell>, ps: seq<int>, ops: seq<int>, k: int)
    requires Partition(w, rows, env, key, ps) && SortedPartition(w, rows, env, key, ops) && 0 <= k < |ops|
    ensures Picked(rows, InPart(w, rows[ops[k]], env)) == Fetch(rows, ps)
  {
    hide KeyOf;
    assert ops[k] in ops;
    PickedInOrder(rows, InPart(w, rows[ops[k]], env), ps);
  }
}
