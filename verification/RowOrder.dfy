/** The row order of sort keys, and the positions a sorted partition prefix stands for. */
module RowOrder {
  import opened Plans
  import opened Sequences
  import opened Values
  import opened Algebra
  import opened Windows
  import opened Sorting
  import opened Aggregation

  /** Every key column holds cells of one type, as columns of a relation do. */
  ghost predicate KeysTyped(order: seq<SortKey>, env: Env, rows: seq<Row>) {
    forall k, i, j | 0 <= k < |order| && 0 <= i < |rows| && 0 <= j < |rows| ::
      CellOf(order[k].col, rows[i], env).Type() == CellOf(order[k].col, rows[j], env).Type()
  }

  lemma FittingRowsTyped(order: seq<SortKey>, env: Env, header: seq<Field>, rows: seq<Row>)
    requires forall i | 0 <= i < |rows| :: RowFits(header, rows[i])
    ensures KeysTyped(order, env, rows)
  {
    forall k, i, j | 0 <= k < |order| && 0 <= i < |rows| && 0 <= j < |rows|
      ensures CellOf(order[k].col, rows[i], env).Type() == CellOf(order[k].col, rows[j], env).Type()
    {
      var c := order[k].col;
      if c.depth == 0 && c.id in rows[i] {
        var f :| 0 <= f < |header| && header[f].id == c.id;
        assert rows[j].Keys == Names(header);
      } else if c.depth == 0 {
        assert c.id !in Names(header);
      }
    }
  }

  ghost predicate PairTyped(order: seq<SortKey>, env: Env, a: Row, b: Row) {
    forall k | 0 <= k < |order| :: CellOf(order[k].col, a, env).Type() == CellOf(order[k].col, b, env).Type()
  }

  predicate SameKey(order: seq<SortKey>, env: Env, a: Row, b: Row) {
    forall k | 0 <= k < |order| :: CellOf(order[k].col, a, env) == CellOf(order[k].col, b, env)
  }

  /** On cells of one type, the key order is a strict total order. */
  lemma KeyOrder(dir: Direction, a: Cell, b: Cell, c: Cell)
    requires a.Type() == b.Type() == c.Type()
    ensures a != b ==> KeyBefore(dir, a, b) != KeyBefore(dir, b, a)
    ensures a != b && b != c && KeyBefore(dir, a, b) && KeyBefore(dir, b, c) ==> a != c && KeyBefore(dir, a, c)
  {
    hide CellLess;
    CellOrder(a, b);
    CellOrder(a, c);
    CellOrder(b, c);
    if CellLess(a, b) && CellLess(b, c) { CellTransitive(a, b, c); }
    if CellLess(c, b) && CellLess(b, a) { CellTransitive(c, b, a); }
  }

  lemma SameKeyStep(order: seq<SortKey>, env: Env, a: Row, b: Row)
    requires order != []
    ensures SameKey(order, env, a, b) <==>
            CellOf(order[0].col, a, env) == CellOf(order[0].col, b, env) && SameKey(order[1..], env, a, b)
    ensures PairTyped(order, env, a, b) ==>
              CellOf(order[0].col, a, env).Type() == CellOf(order[0].col, b, env).Type() && PairTyped(order[1..], env, a, b)
  {
    hide CellOf;
    var rest := order[1..];
    assert forall k | 0 <= k < |rest| :: rest[k] == order[k + 1];
    if CellOf(order[0].col, a, env) == CellOf(order[0].col, b, env) && SameKey(rest, env, a, b) {
      forall k | 0 <= k < |order| ensures CellOf(order[k].col, a, env) == CellOf(order[k].col, b, env) {
        assert k > 0 ==> rest[k - 1] == order[k];
      }
    }
  }

  /** Exactly one of: before, after, same key. */
  lemma {:induction false} RowTrichotomy(order: seq<SortKey>, env: Env, a: Row, b: Row)
    requires PairTyped(order, env, a, b)
    ensures SameKey(order, env, a, b) ==> !RowLess(order, env, a, b) && !RowLess(order, env, b, a)
    ensures !SameKey(order, env, a, b) ==> RowLess(order, env, a, b) != RowLess(order, env, b, a)
  {
    hide CellOf, KeyBefore, SameKey, PairTyped;
    if order == [] {
      NoKeys(env, a, b);
    } else {
      SameKeyStep(order, env, a, b);
      RowTrichotomy(order[1..], env, a, b);
      KeyOrder(order[0].dir, CellOf(order[0].col, a, env), CellOf(order[0].col, b, env), CellOf(order[0].col, b, env));
    }
  }

  lemma NoKeys(env: Env, a: Row, b: Row)
    ensures SameKey([], env, a, b)
  {
  }

  lemma {:induction false} RowTransitive(order: seq<SortKey>, env: Env, a: Row, b: Row, c: Row)
    requires PairTyped(order, env, a, b) && PairTyped(order, env, b, c)
    ensures RowLess(order, env, a, b) && RowLess(order, env, b, c) ==> RowLess(order, env, a, c)
    ensures SameKey(order, env, a, b) && RowLess(order, env, b, c) ==> RowLess(order, env, a, c)
    ensures RowLess(order, env, a, b) && SameKey(order, env, b, c) ==> RowLess(order, env, a, c)
  {
    hide CellOf, KeyBefore, SameKey, PairTyped;
    if order != [] {
      SameKeyStep(order, env, a, b);
      SameKeyStep(order, env, b, c);
      RowTransitive(order[1..], env, a, b, c);
      KeyOrder(order[0].dir, CellOf(order[0].col, a, env), CellOf(order[0].col, b, env), CellOf(order[0].col, c, env));
    }
  }

  lemma PeerIsSameKey(w: WinExpr, a: Row, b: Row, env: Env)
    ensures Peer(w, a, b, env) <==> SameKey(w.order, env, a, b)
  {
    var ka, kb := KeyOf(OrderColumns(w.order), a, env), KeyOf(OrderColumns(w.order), b, env);
    assert ka == kb <==> forall i | 0 <= i < |ka| :: ka[i] == kb[i];
  }

  // ---------------------------------------------------------------- positions

  /** Row order with ties broken by position. */
  predicate Prec(order: seq<SortKey>, env: Env, rows: seq<Row>, i: int, j: int)
    requires 0 <= i < |rows| && 0 <= j < |rows|
  {
    RowLess(order, env, rows[i], rows[j]) || (SameKey(order, env, rows[i], rows[j]) && i < j)
  }

  function LessAt(order: seq<SortKey>, env: Env, rows: seq<Row>): (int, int) -> bool {
    (i, j) => 0 <= i < |rows| && 0 <= j < |rows| && RowLess(order, env, rows[i], rows[j])
  }

  function PrecAt(order: seq<SortKey>, env: Env, rows: seq<Row>): (int, int) -> bool {
    (i, j) => 0 <= i < |rows| && 0 <= j < |rows| && Prec(order, env, rows, i, j)
  }

  ghost predicate Positions(ps: seq<int>, n: int) {
    forall i | 0 <= i < |ps| :: 0 <= ps[i] < n
  }

  ghost predicate Ascending(ps: seq<int>) {
    forall i, j | 0 <= i < j < |ps| :: ps[i] < ps[j]
  }

  lemma PositionAt(ps: seq<int>, n: int, i: int)
    requires Positions(ps, n) && 0 <= i < |ps|
    ensures 0 <= ps[i] < n
  {
  }

  lemma AscendingAt(ps: seq<int>, i: int, j: int)
    requires Ascending(ps) && 0 <= i < j < |ps|
    ensures ps[i] < ps[j]
  {
  }

  lemma KeysTypedPairs(order: seq<SortKey>, env: Env, rows: seq<Row>)
    requires KeysTyped(order, env, rows)
    ensures forall i, j | 0 <= i < |rows| && 0 <= j < |rows| :: PairTyped(order, env, rows[i], rows[j])
  {
  }

  /** The stable sort of ascending positions is strictly increasing in `Prec`. */
  lemma SortedPositions(order: seq<SortKey>, env: Env, rows: seq<Row>, ps: seq<int>)
    requires KeysTyped(order, env, rows) && Positions(ps, |rows|) && Ascending(ps)
    ensures Ordered(StableSort(LessAt(order, env, rows), ps), PrecAt(order, env, rows))
  {
    hide RowLess, SameKey, PairTyped, KeysTyped;
    var less, prec := LessAt(order, env, rows), PrecAt(order, env, rows);
    KeysTypedPairs(order, env, rows);
    forall i, j | 0 <= i < j < |ps| ensures if less(ps[j], ps[i]) then prec(ps[j], ps[i]) else prec(ps[i], ps[j]) {
      RowTrichotomy(order, env, rows[ps[i]], rows[ps[j]]);
    }
    forall a, b, c | a in ps && b in ps && c in ps && less(c, a) && prec(a, b) ensures less(c, b) {
      RowTransitive(order, env, rows[c], rows[a], rows[b]);
    }
    SortOrdered(less, prec, ps);
  }

  lemma WithoutLargest(qs: seq<int>, k: int, n: int)
    requires Unrepeated(qs) && Positions(qs, n + 1) && 0 <= k < |qs| && qs[k] == n
    ensures Unrepeated(qs[..k] + qs[k + 1..]) && Positions(qs[..k] + qs[k + 1..], n)
    ensures forall j | 0 <= j < n :: j in qs[..k] + qs[k + 1..] <==> j in qs
  {
    var rest := qs[..k] + qs[k + 1..];
    assert forall i | 0 <= i < |rest| :: rest[i] == if i < k then qs[i] else qs[i + 1];
    forall j | 0 <= j < n && j in qs ensures j in rest {
      var i :| 0 <= i < |qs| && qs[i] == j;
      assert rest[if i < k then i else i - 1] == j;
    }
  }

  lemma FetchAround<T>(rows: seq<T>, qs: seq<int>, k: int, n: int)
    requires n == |rows| - 1 && Positions(qs, |rows|) && 0 <= k < |qs| && qs[k] == n
    requires Positions(qs[..k] + qs[k + 1..], n)
    ensures multiset(Fetch(rows, qs)) == multiset(Fetch(rows[..n], qs[..k] + qs[k + 1..])) + multiset{rows[n]}
  {
    var rest := qs[..k] + qs[k + 1..];
    var a, b := Fetch(rows[..n], rest)[..k], Fetch(rows[..n], rest)[k..];
    assert forall i | 0 <= i < |rest| :: rest[i] == if i < k then qs[i] else qs[i + 1];
    assert Fetch(rows, qs) == a + [rows[n]] + b;
    assert Fetch(rows[..n], rest) == a + b;
  }

  /** `qs` lists the positions `g` accepts. */
  ghost predicate Lists<T>(rows: seq<T>, g: (int, T) -> bool, qs: seq<int>) {
    Positions(qs, |rows|) && forall j | 0 <= j < |rows| :: g(j, rows[j]) <==> j in qs
  }

  lemma ListsWithoutLast<T>(rows: seq<T>, g: (int, T) -> bool, qs: seq<int>)
    requires rows != [] && Lists(rows, g, qs) && !g(|rows| - 1, rows[|rows| - 1])
    ensures Lists(rows[..|rows| - 1], g, qs)
    ensures Fetch(rows, qs) == Fetch(rows[..|rows| - 1], qs)
  {
    var n := |rows| - 1;
    forall i | 0 <= i < |qs| ensures qs[i] < n {
      assert qs[i] in qs;
    }
  }

  lemma ListsLast<T>(rows: seq<T>, g: (int, T) -> bool, qs: seq<int>) returns (k: int)
    requires rows != [] && Lists(rows, g, qs) && Unrepeated(qs) && g(|rows| - 1, rows[|rows| - 1])
    ensures 0 <= k < |qs| && qs[k] == |rows| - 1
    ensures Lists(rows[..|rows| - 1], g, qs[..k] + qs[k + 1..]) && Unrepeated(qs[..k] + qs[k + 1..])
  {
    var n := |rows| - 1;
    assert n in qs;
    k :| 0 <= k < |qs| && qs[k] == n;
    WithoutLargest(qs, k, n);
  }

  /** Rows chosen by position are, as a bag, the rows any listing of those positions fetches. */
  lemma {:induction false} PickedIsFetched<T>(rows: seq<T>, g: (int, T) -> bool, qs: seq<int>)
    requires Lists(rows, g, qs) && Unrepeated(qs)
    ensures multiset(Picked(rows, g)) == multiset(Fetch(rows, qs))
    ensures |Picked(rows, g)| == |qs|
  {
    hide Lists, Unrepeated;
    if rows == [] {
      ListsNothing(rows, g, qs);
    } else {
      var n := |rows| - 1;
      if g(n, rows[n]) {
        var k := ListsLast(rows, g, qs);
        ListsInRange(rows, g, qs);
        ListsInRange(rows[..n], g, qs[..k] + qs[k + 1..]);
        PickedIsFetched(rows[..n], g, qs[..k] + qs[k + 1..]);
        FetchAround(rows, qs, k, n);
      } else {
        ListsWithoutLast(rows, g, qs);
        PickedIsFetched(rows[..n], g, qs);
      }
    }
  }

  lemma ListsNothing<T>(rows: seq<T>, g: (int, T) -> bool, qs: seq<int>)
    requires rows == [] && Lists(rows, g, qs)
    ensures qs == []
  {
    if |qs| > 0 {
      PositionAt(qs, |rows|, 0);
    }
  }

  lemma ListsInRange<T>(rows: seq<T>, g: (int, T) -> bool, qs: seq<int>)
    requires Lists(rows, g, qs)
    ensures Positions(qs, |rows|)
  {
  }

  lemma AscendingLast(ps: seq<int>, k: int, n: int)
    requires Ascending(ps) && Positions(ps, n + 1) && 0 <= k < |ps| && ps[k] == n
    ensures k == |ps| - 1 && ps[..k] + ps[k + 1..] == ps[..k]
  {
    PositionAt(ps, n + 1, |ps| - 1);
    if k < |ps| - 1 {
      AscendingAt(ps, k, |ps| - 1);
    }
  }

  /** Picking by an ascending list of positions keeps input order. */
  lemma {:induction false} PickedInOrder<T>(rows: seq<T>, g: (int, T) -> bool, ps: seq<int>)
    requires Lists(rows, g, ps) && Positions(ps, |rows|) && Ascending(ps)
    ensures Picked(rows, g) == Fetch(rows, ps)
  {
    hide Lists, Unrepeated;
    if rows == [] {
      ListsNothing(rows, g, ps);
    } else {
      var n := |rows| - 1;
      if g(n, rows[n]) {
        assert Unrepeated(ps) by { AscendingDistinct(ps); }
        var k := ListsLast(rows, g, ps);
        AscendingLast(ps, k, n);
        ListsInRange(rows[..n], g, ps[..k]);
        PickedInOrder(rows[..n], g, ps[..k]);
        assert Fetch(rows, ps) == Fetch(rows[..n], ps[..k]) + [rows[n]];
      } else {
        ListsWithoutLast(rows, g, ps);
        ListsInRange(rows[..n], g, ps);
        PickedInOrder(rows[..n], g, ps);
      }
    }
  }

  lemma AscendingDistinct(ps: seq<int>)
    requires Ascending(ps)
    ensures Unrepeated(ps)
  {
  }
}
