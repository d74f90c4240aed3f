/** Window expressions, stated for one row at a time: the rows of its partition that come
  before it, its peers, and the frame its aggregate ranges over.
 */
module Windows {
  import opened Plans
  import opened Sequences
  import opened Values
  import opened Algebra

  /** The rows, in input order, whose position and contents satisfy `g`. */
  function Picked<T>(rows: seq<T>, g: (int, T) -> bool): (r: seq<T>)
    ensures |r| <= |rows|
  {
    if rows == [] then []
    else
      var n := |rows| - 1;
      Picked(rows[..n], g) + if g(n, rows[n]) then [rows[n]] else []
  }

  function OrderColumns(order: seq<SortKey>): (r: seq<ColumnRef>)
    ensures |r| == |order| && forall i | 0 <= i < |r| :: r[i] == order[i].col
  {
    seq(|order|, i requires 0 <= i < |order| => order[i].col)
  }

  predicate SamePart(w: WinExpr, a: Row, b: Row, env: Env) {
    KeyOf(w.partition, a, env) == KeyOf(w.partition, b, env)
  }

  /** Rows with equal order keys share a peer set; without an order all rows are peers. */
  predicate Peer(w: WinExpr, a: Row, b: Row, env: Env) {
    KeyOf(OrderColumns(w.order), a, env) == KeyOf(OrderColumns(w.order), b, env)
  }

  function InPart(w: WinExpr, x: Row, env: Env): (int, Row) -> bool {
    (j: int, r: Row) => SamePart(w, r, x, env)
  }

  function Before(w: WinExpr, x: Row, env: Env): (int, Row) -> bool {
    (j: int, r: Row) => SamePart(w, r, x, env) && RowLess(w.order, env, r, x)
  }

  function Peers(w: WinExpr, x: Row, env: Env): (int, Row) -> bool {
    (j: int, r: Row) => SamePart(w, r, x, env) && Peer(w, r, x, env)
  }

  /** Rows that precede position `i`, input order breaking ties. */
  function Ahead(w: WinExpr, x: Row, i: int, env: Env): (int, Row) -> bool {
    (j: int, r: Row) => SamePart(w, r, x, env) && (RowLess(w.order, env, r, x) || (Peer(w, r, x, env) && j < i))
  }

  function KeySet(w: WinExpr, rows: seq<Row>, env: Env): set<seq<Cell>> {
    set i | 0 <= i < |rows| :: KeyOf(OrderColumns(w.order), rows[i], env)
  }

  /** The sum of the negative arguments. */
  function NegTotal(cells: seq<Cell>): int {
    if cells == [] then 0
    else NegTotal(cells[..|cells| - 1]) + if IntOf(cells[|cells| - 1]) < 0 then IntOf(cells[|cells| - 1]) else 0
  }

  /** An aggregate over a ROWS frame: every row publishes its own prefix. */
  function PrefixOutcome(fn: AggFn, ty: ColumnType, cells: seq<Cell>): Outcome<Cell> {
    if fn != Sum then AggOutcome(fn, ty, cells)
    else if NonNull(cells) == [] then Ok(Null(Int64))
    else if Fits(Total(NonNull(cells))) then Ok(IntV(Total(NonNull(cells))))
    else Fails
  }

  /** An aggregate over a RANGE frame. A SUM is abandoned exactly when adding the whole peer set in
    ascending order leaves the 64-bit range, which tie order cannot influence. */
  function RangeOutcome(fn: AggFn, ty: ColumnType, before: seq<Cell>, peers: seq<Cell>): Outcome<Cell> {
    if fn != Sum then AggOutcome(fn, ty, before + peers)
    else
      var s := Total(NonNull(before));
      if NonNull(before) == [] && NonNull(peers) == [] then Ok(Null(Int64))
      else if s + NegTotal(NonNull(peers)) < INT64_MIN || s + Total(NonNull(peers)) > INT64_MAX then Fails
      else if Fits(s + Total(NonNull(peers))) then Ok(IntV(s + Total(NonNull(peers))))
      else Fails
  }

  /** The value a window expression gives to the row at position `i`. */
  function WindowAt(w: WinExpr, rows: seq<Row>, i: int, env: Env): Outcome<Cell>
    requires 0 <= i < |rows|
  {
    var x := rows[i];
    match w.fn
    case RowNumber => CountCell(1 + |Picked(rows, Ahead(w, x, i, env))|)
    case Rank => CountCell(1 + |Picked(rows, Before(w, x, env))|)
    case DenseRank => CountCell(1 + |KeySet(w, Picked(rows, Before(w, x, env)), env)|)
    case Aggregated(fn) =>
      match w.frame
      case WholePartition => AggOutcome(fn, w.ty, ArgCells(w.arg, Picked(rows, InPart(w, x, env)), env))
      case RowsCumulative => PrefixOutcome(fn, w.ty, ArgCells(w.arg, Picked(rows, Ahead(w, x, i + 1, env)), env))
      case RangeCumulative =>
        RangeOutcome(fn, w.ty, ArgCells(w.arg, Picked(rows, Before(w, x, env)), env),
                     ArgCells(w.arg, Picked(rows, Peers(w, x, env)), env))
  }

  function WindowColumn(w: WinExpr, rows: seq<Row>, env: Env): (r: Outcome<seq<Cell>>)
    ensures r.Ok? <==> forall i | 0 <= i < |rows| :: WindowAt(w, rows, i, env).Ok?
    ensures r.Ok? ==> |r.value| == |rows|
    ensures r.Ok? ==> forall i | 0 <= i < |rows| :: r.value[i] == Cast(w.ty, WindowAt(w, rows, i, env).value)
  {
    if forall i | 0 <= i < |rows| :: WindowAt(w, rows, i, env).Ok? then
      Ok(seq(|rows|, i requires 0 <= i < |rows| => Cast(w.ty, WindowAt(w, rows, i, env).value)))
    else Fails
  }

  predicate WindowResolves(w: WinExpr, names: set<Ident>, env: Env) {
    && (w.fn.Aggregated? ==> ArgResolves(w.fn.fn, w.arg, names, env))
    && (forall i | 0 <= i < |w.partition| :: Resolves(w.partition[i], names, env))
    && KeysResolve(w.order, names, env)
  }

  function WindowHeader(wins: seq<WinExpr>): (r: seq<Field>)
    ensures |r| == |wins| && forall i | 0 <= i < |r| :: r[i] == Field(Ident("", wins[i].name), wins[i].ty)
  {
    seq(|wins|, i requires 0 <= i < |wins| => Field(Ident("", wins[i].name), wins[i].ty))
  }

  function WindowColumns(wins: seq<WinExpr>, rows: seq<Row>, env: Env): Outcome<seq<seq<Cell>>> {
    MapAll(wins, (w: WinExpr) => WindowColumn(w, rows, env))
  }

  /** Row `i` of a list of columns. */
  function CellsAt(cols: seq<seq<Cell>>, i: int): (r: seq<Cell>)
    requires 0 <= i && forall k | 0 <= k < |cols| :: i < |cols[k]|
    ensures |r| == |cols| && forall k | 0 <= k < |r| :: r[k] == cols[k][i]
  {
    seq(|cols|, k requires 0 <= k < |cols| => cols[k][i])
  }

  function WithColumns(header: seq<Field>, cols: seq<seq<Cell>>, rows: seq<Row>): (r: seq<Row>)
    requires |cols| == |header| && forall k | 0 <= k < |cols| :: |cols[k]| == |rows|
    ensures |r| == |rows| && forall i | 0 <= i < |r| :: r[i] == rows[i] + MakeRow(Ids(header), CellsAt(cols, i))
  {
    seq(|rows|, i requires 0 <= i < |rows| => rows[i] + MakeRow(Ids(header), CellsAt(cols, i)))
  }

  function WindowRel(wins: seq<WinExpr>, rel: Rel, env: Env): Outcome<Rel> {
    var header := rel.header + WindowHeader(wins);
    if !(forall i | 0 <= i < |wins| :: WindowResolves(wins[i], Names(rel.header), env)) || !DistinctIds(header) then Fails
    else
      match WindowColumns(wins, rel.rows, env)
      case Fails => Fails
      case Ok(cols) => Ok(Rel(header, WithColumns(WindowHeader(wins), cols, rel.rows)))
  }

  // ---------------------------------------------------------------- what depends on input order

  /** The windows whose inputs the binder pins: ROW_NUMBER, ROWS aggregates, and whole-partition SUM. */
  predicate OrderSensitive(w: WinExpr) {
    || w.fn == RowNumber
    || (w.fn.Aggregated? && w.frame == RowsCumulative)
    || (w.fn == Aggregated(Sum) && w.frame == WholePartition)
  }

  /** A choice that looks only at row contents picks a bag determined by the input bag. */
  lemma {:induction false} PickedCounts<T(!new)>(rows: seq<T>, g: (int, T) -> bool, x: T)
    requires forall i, j, r :: g(i, r) == g(j, r)
    ensures multiset(Picked(rows, g))[x] == if g(0, x) then multiset(rows)[x] else 0
  {
    if rows != [] {
      var n := |rows| - 1;
      PickedCounts(rows[..n], g, x);
      assert rows == rows[..n] + [rows[n]];
      assert g(n, rows[n]) == g(0, rows[n]);
    }
  }

  lemma PickedBag<T(!new)>(rows: seq<T>, other: seq<T>, g: (int, T) -> bool)
    requires forall i, j, r :: g(i, r) == g(j, r)
    requires multiset(rows) == multiset(other)
    ensures multiset(Picked(rows, g)) == multiset(Picked(other, g))
    ensures |Picked(rows, g)| == |Picked(other, g)|
  {
    forall x ensures multiset(Picked(rows, g))[x] == multiset(Picked(other, g))[x] {
      PickedCounts(rows, g, x);
      PickedCounts(other, g, x);
    }
    assert multiset(Picked(rows, g)) == multiset(Picked(other, g));
    assert |multiset(Picked(rows, g))| == |multiset(Picked(other, g))|;
  }

  lemma {:induction false} NonNullBag(s: seq<Cell>, x: Cell)
    ensures multiset(NonNull(s))[x] == if x.Null? then 0 else multiset(s)[x]
  {
    if s != [] {
      NonNullBag(s[..|s| - 1], x);
      assert s == s[..|s| - 1] + [s[|s| - 1]];
    }
  }

  lemma NonNullSameBag(s: seq<Cell>, t: seq<Cell>)
    requires multiset(s) == multiset(t)
    ensures multiset(NonNull(s)) == multiset(NonNull(t))
    ensures |NonNull(s)| == |NonNull(t)|
  {
    forall x ensures multiset(NonNull(s))[x] == multiset(NonNull(t))[x] {
      NonNullBag(s, x);
      NonNullBag(t, x);
    }
    assert multiset(NonNull(s)) == multiset(NonNull(t));
    assert |multiset(NonNull(s))| == |multiset(NonNull(t))|;
  }

  lemma {:induction false} TotalAppend(s: seq<Cell>, t: seq<Cell>)
    ensures Total(s + t) == Total(s) + Total(t)
    ensures NegTotal(s + t) == NegTotal(s) + NegTotal(t)
  {
    if t == [] {
      assert s + t == s;
    } else {
      assert (s + t)[..|s + t| - 1] == s + t[..|t| - 1];
      TotalAppend(s, t[..|t| - 1]);
    }
  }

  /** Sums are functions of the bag. */
  lemma {:induction false} TotalSameBag(s: seq<Cell>, t: seq<Cell>)
    requires multiset(s) == multiset(t)
    ensures Total(s) == Total(t) && NegTotal(s) == NegTotal(t)
    decreases |s|
  {
    if s == [] {
      assert |multiset(t)| == |t|;
    } else {
      var k := ExtractLast(s, t);
      var rest := t[..k] + t[k + 1..];
      TotalSameBag(s[..|s| - 1], rest);
      TotalAppend(t[..k], t[k + 1..]);
      TotalAppend(t[..k], [t[k]]);
      TotalAppend(t[..k] + [t[k]], t[k + 1..]);
      assert t == t[..k] + [t[k]] + t[k + 1..];
      assert Total([t[k]]) == IntOf(t[k]) by { assert [t[k]][..0] == []; }
      assert NegTotal([t[k]]) == if IntOf(t[k]) < 0 then IntOf(t[k]) else 0 by { assert [t[k]][..0] == []; }
    }
  }

  lemma {:induction false} LeastIsLeast(s: seq<Cell>)
    requires s != []
    ensures LeastOf(s) in s && forall i | 0 <= i < |s| :: !CellLess(s[i], LeastOf(s))
  {
    var n := |s| - 1;
    CellOrder(s[n], s[n]);
    if n != 0 {
      LeastIsLeast(s[..n]);
      var best := LeastOf(s[..n]);
      forall i | 0 <= i < |s| ensures !CellLess(s[i], LeastOf(s)) {
        assert i < n ==> s[..n][i] == s[i];
        if i < n && CellLess(s[n], best) && CellLess(s[i], s[n]) {
          CellTransitive(s[i], s[n], best);
        }
      }
    }
  }

  lemma {:induction false} GreatestIsGreatest(s: seq<Cell>)
    requires s != []
    ensures GreatestOf(s) in s && forall i | 0 <= i < |s| :: !CellLess(GreatestOf(s), s[i])
  {
    var n := |s| - 1;
    CellOrder(s[n], s[n]);
    if n != 0 {
      GreatestIsGreatest(s[..n]);
      var best := GreatestOf(s[..n]);
      forall i | 0 <= i < |s| ensures !CellLess(GreatestOf(s), s[i]) {
        assert i < n ==> s[..n][i] == s[i];
        if i < n && CellLess(best, s[n]) && CellLess(s[n], s[i]) {
          CellTransitive(best, s[n], s[i]);
        }
      }
    }
  }

  /** The extremes are functions of the bag. */
  lemma ExtremesSameBag(s: seq<Cell>, t: seq<Cell>)
    requires s != [] && t != [] && multiset(s) == multiset(t)
    ensures LeastOf(s) == LeastOf(t) && GreatestOf(s) == GreatestOf(t)
  {
    LeastIsLeast(s);
    LeastIsLeast(t);
    GreatestIsGreatest(s);
    GreatestIsGreatest(t);
    assert forall x :: x in s <==> x in multiset(s);
    assert forall x :: x in t <==> x in multiset(t);
    CellOrder(LeastOf(s), LeastOf(t));
    CellOrder(GreatestOf(s), GreatestOf(t));
  }

  /** Only a SUM in input order can see the order of its arguments. */
  lemma AggSameBag(fn: AggFn, ty: ColumnType, s: seq<Cell>, t: seq<Cell>)
    requires multiset(s) == multiset(t) && fn != Sum
    ensures AggOutcome(fn, ty, s) == AggOutcome(fn, ty, t)
  {
    NonNullSameBag(s, t);
    if NonNull(s) != [] && NonNull(t) != [] {
      ExtremesSameBag(NonNull(s), NonNull(t));
    }
  }

  lemma PrefixSameBag(fn: AggFn, ty: ColumnType, s: seq<Cell>, t: seq<Cell>)
    requires multiset(s) == multiset(t)
    ensures PrefixOutcome(fn, ty, s) == PrefixOutcome(fn, ty, t)
  {
    NonNullSameBag(s, t);
    TotalSameBag(NonNull(s), NonNull(t));
    if fn != Sum {
      AggSameBag(fn, ty, s, t);
    }
  }

  lemma RangeSameBag(fn: AggFn, ty: ColumnType, s: seq<Cell>, t: seq<Cell>, p: seq<Cell>, q: seq<Cell>)
    requires multiset(s) == multiset(t) && multiset(p) == multiset(q)
    ensures RangeOutcome(fn, ty, s, p) == RangeOutcome(fn, ty, t, q)
  {
    hide AggOutcome, NonNull, Total, NegTotal;
    NonNullSameBag(s, t);
    NonNullSameBag(p, q);
    TotalSameBag(NonNull(s), NonNull(t));
    TotalSameBag(NonNull(p), NonNull(q));
    if fn != Sum {
      AggSameBag(fn, ty, s + p, t + q);
    }
  }

  lemma ArgCellsBag(arg: Option<ColumnRef>, s: seq<Row>, t: seq<Row>, env: Env)
    requires multiset(s) == multiset(t)
    ensures multiset(ArgCells(arg, s, env)) == multiset(ArgCells(arg, t, env))
  {
    var f := (r: Row) => ArgCell(arg, r, env);
    MapBag(s, t, f);
    assert MapTo(s, f) == ArgCells(arg, s, env);
    assert MapTo(t, f) == ArgCells(arg, t, env);
  }

  lemma KeySetBag(w: WinExpr, s: seq<Row>, t: seq<Row>, env: Env)
    requires multiset(s) == multiset(t)
    ensures KeySet(w, s, env) == KeySet(w, t, env)
  {
    forall k | k in KeySet(w, s, env) ensures k in KeySet(w, t, env) {
      var i :| 0 <= i < |s| && k == KeyOf(OrderColumns(w.order), s[i], env);
      assert s[i] in multiset(t);
    }
    forall k | k in KeySet(w, t, env) ensures k in KeySet(w, s, env) {
      var i :| 0 <= i < |t| && k == KeyOf(OrderColumns(w.order), t[i], env);
      assert t[i] in multiset(s);
    }
  }

  /** A window expression the binder leaves unpinned gives each row a value that depends only on the
    row and on the input bag: permuting the input permutes the output, overflow included. */
  lemma UnpinnedSeesOnlyTheBag(w: WinExpr, rows: seq<Row>, other: seq<Row>, i: int, j: int, env: Env)
    requires !OrderSensitive(w)
    requires multiset(rows) == multiset(other)
    requires 0 <= i < |rows| && 0 <= j < |other| && rows[i] == other[j]
    ensures WindowAt(w, rows, i, env) == WindowAt(w, other, j, env)
  {
    hide AggOutcome, RangeOutcome, PrefixOutcome, Picked, KeySet, CountCell, RowLess;
    var x := rows[i];
    PickedBag(rows, other, Before(w, x, env));
    PickedBag(rows, other, Peers(w, x, env));
    PickedBag(rows, other, InPart(w, x, env));
    KeySetBag(w, Picked(rows, Before(w, x, env)), Picked(other, Before(w, x, env)), env);
    ArgCellsBag(w.arg, Picked(rows, Before(w, x, env)), Picked(other, Before(w, x, env)), env);
    ArgCellsBag(w.arg, Picked(rows, Peers(w, x, env)), Picked(other, Peers(w, x, env)), env);
    ArgCellsBag(w.arg, Picked(rows, InPart(w, x, env)), Picked(other, InPart(w, x, env)), env);
    if w.fn.Aggregated? {
      if w.frame == WholePartition {
        AggSameBag(w.fn.fn, w.ty, ArgCells(w.arg, Picked(rows, InPart(w, x, env)), env),
                   ArgCells(w.arg, Picked(other, InPart(w, x, env)), env));
      } else {
        RangeSameBag(w.fn.fn, w.ty,
                     ArgCells(w.arg, Picked(rows, Before(w, x, env)), env), ArgCells(w.arg, Picked(other, Before(w, x, env)), env),
                     ArgCells(w.arg, Picked(rows, Peers(w, x, env)), env), ArgCells(w.arg, Picked(other, Peers(w, x, env)), env));
      }
    }
  }
}
