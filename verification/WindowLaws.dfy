/** What a window expression gives a row, stated on the positions of the rows of its partition: how many come before it,
  and which rows its frame holds.
 */
module WindowLaws {
  import opened Plans
  import opened Sequences
  import opened Values
  import opened Algebra
  import opened Windows
  import opened Aggregation
  import opened RowOrder
  import opened ValueLaws
  import opened OrderLaws
  import opened AggregateLaws
  import Shapes

  ghost predicate SamePartition(w: WinExpr, env: Env, a: Row, b: Row) {
    forall k | 0 <= k < |w.partition| :: CellOf(w.partition[k], a, env) == CellOf(w.partition[k], b, env)
  }

  /** The rows of the partition of row `i` whose keys come before its keys. */
  ghost function EarlierAt(w: WinExpr, rows: seq<Row>, i: int, env: Env): set<int>
    requires 0 <= i < |rows|
  {
    set j | 0 <= j < |rows| && SamePartition(w, env, rows[j], rows[i]) && KeysDecide(w.order, env, rows[j], rows[i])
  }

  /** The rows of the partition of row `i` that come before it, input order deciding among equal keys. */
  ghost function PrecedingAt(w: WinExpr, rows: seq<Row>, i: int, env: Env): set<int>
    requires 0 <= i < |rows|
  {
    set j | 0 <= j < |rows| && SamePartition(w, env, rows[j], rows[i]) && InOrder(w.order, env, rows[j], rows[i], j, i)
  }

  /** The order keys of the rows that come before row `i`. */
  ghost function EarlierKeys(w: WinExpr, rows: seq<Row>, i: int, env: Env): set<seq<Cell>>
    requires 0 <= i < |rows|
  {
    set j | j in EarlierAt(w, rows, i, env) && 0 <= j < |rows| :: KeyOf(OrderColumns(w.order), rows[j], env)
  }

  /** The rows an aggregate window ranges over: the whole partition, the rows up to and including the row itself, or those
    and its peers. */
  ghost predicate InFrame(w: WinExpr, rows: seq<Row>, i: int, env: Env, j: int)
    requires 0 <= i < |rows| && 0 <= j < |rows|
  {
    && SamePartition(w, env, rows[j], rows[i])
    && match w.frame
       case WholePartition => true
       case RowsCumulative => InOrder(w.order, env, rows[j], rows[i], j, i) || j == i
       case RangeCumulative => KeysDecide(w.order, env, rows[j], rows[i]) || KeysAgree(w.order, env, rows[j], rows[i])
  }

  /** The positions in the frame that have an argument. */
  ghost function FrameAt(w: WinExpr, rows: seq<Row>, i: int, env: Env): set<int>
    requires 0 <= i < |rows|
  {
    set j | 0 <= j < |rows| && InFrame(w, rows, i, env, j) && Counted(w.arg, rows[j], env)
  }

  // ---------------------------------------------------------------- picked rows

  ghost function PickedAt<T>(rows: seq<T>, g: (int, T) -> bool): set<int> {
    set j | 0 <= j < |rows| && g(j, rows[j])
  }

  lemma {:induction false} PickedCount<T>(rows: seq<T>, g: (int, T) -> bool)
    ensures |Picked(rows, g)| == |PickedAt(rows, g)|
  {
    var at := PickedAt(rows, g);
    if rows == [] {
      assert forall j :: j !in at;
    } else {
      var n := |rows| - 1;
      PickedCount(rows[..n], g);
      var init := PickedAt(rows[..n], g);
      assert forall j | 0 <= j < n :: rows[..n][j] == rows[j];
      assert at == if g(n, rows[n]) then init + {n} else init;
    }
  }

  lemma {:induction false} PickedMembers<T>(rows: seq<T>, g: (int, T) -> bool, x: T)
    ensures x in Picked(rows, g) <==> exists j :: 0 <= j < |rows| && g(j, rows[j]) && rows[j] == x
  {
    if rows != [] {
      var n := |rows| - 1;
      PickedMembers(rows[..n], g, x);
      if x in Picked(rows[..n], g) {
        var j :| 0 <= j < n && g(j, rows[..n][j]) && rows[..n][j] == x;
        assert g(j, rows[j]) && rows[j] == x;
      }
      if exists j :: 0 <= j < |rows| && g(j, rows[j]) && rows[j] == x {
        var j :| 0 <= j < |rows| && g(j, rows[j]) && rows[j] == x;
        assert j < n ==> g(j, rows[..n][j]) && rows[..n][j] == x;
      }
    }
  }

  lemma SamePartIs(w: WinExpr, a: Row, b: Row, env: Env)
    ensures SamePart(w, a, b, env) <==> SamePartition(w, env, a, b)
  {
    var ka, kb := KeyOf(w.partition, a, env), KeyOf(w.partition, b, env);
    assert ka == kb <==> forall i | 0 <= i < |ka| :: ka[i] == kb[i];
  }

  lemma KeysAgreeIs(order: seq<SortKey>, env: Env, a: Row, b: Row)
    ensures SameKey(order, env, a, b) <==> KeysAgree(order, env, a, b)
  {
  }

  /** The kernels' choices of rows, by position. */
  lemma Chosen(w: WinExpr, rows: seq<Row>, i: int, env: Env, j: int)
    requires KeysTyped(w.order, env, rows) && 0 <= i < |rows| && 0 <= j < |rows|
    ensures var same := SamePartition(w, env, rows[j], rows[i]);
            && (InPart(w, rows[i], env)(j, rows[j]) <==> same)
            && (Before(w, rows[i], env)(j, rows[j]) <==> same && KeysDecide(w.order, env, rows[j], rows[i]))
            && (Peers(w, rows[i], env)(j, rows[j]) <==> same && KeysAgree(w.order, env, rows[j], rows[i]))
            && (forall n :: Ahead(w, rows[i], n, env)(j, rows[j]) <==>
                  same && (KeysDecide(w.order, env, rows[j], rows[i]) || (KeysAgree(w.order, env, rows[j], rows[i]) && j < n)))
  {
    hide RowLess, KeysDecide, KeysAgree, SameKey, SamePart, SamePartition, Peer;
    KeysTypedPairs(w.order, env, rows);
    RowDirection(w.order, env, rows[j], rows[i]);
    PeerIsSameKey(w, rows[j], rows[i], env);
    KeysAgreeIs(w.order, env, rows[j], rows[i]);
    SamePartIs(w, rows[j], rows[i], env);
  }

  // ---------------------------------------------------------------- ranking

  /** ROW_NUMBER is one more than the rows before, RANK one more than the rows with earlier keys, and DENSE_RANK one more
    than the earlier keys. */
  lemma RankingMeans(w: WinExpr, rows: seq<Row>, i: int, env: Env)
    requires KeysTyped(w.order, env, rows) && 0 <= i < |rows| && !w.fn.Aggregated?
    ensures var r := WindowAt(w, rows, i, env);
            var n := 1 + match w.fn
                         case RowNumber => |PrecedingAt(w, rows, i, env)|
                         case Rank => |EarlierAt(w, rows, i, env)|
                         case DenseRank => |EarlierKeys(w, rows, i, env)|;
            if n <= INT64_MAX then r.Ok? && r.value.IntV? && r.value.i == n else r.Fails?
  {
    hide KeysTyped, Picked, SamePartition, KeysDecide, KeysAgree, RowLess, SamePart, Peer, KeyOf;
    var x := rows[i];
    forall j | 0 <= j < |rows|
      ensures Before(w, x, env)(j, rows[j]) <==> j in EarlierAt(w, rows, i, env)
      ensures Ahead(w, x, i, env)(j, rows[j]) <==> j in PrecedingAt(w, rows, i, env)
    {
      Chosen(w, rows, i, env, j);
    }
    hide Before, Ahead;
    PickedCount(rows, Before(w, x, env));
    PickedCount(rows, Ahead(w, x, i, env));
    assert PickedAt(rows, Before(w, x, env)) == EarlierAt(w, rows, i, env);
    assert PickedAt(rows, Ahead(w, x, i, env)) == PrecedingAt(w, rows, i, env);
    EarlierKeysAre(w, rows, i, env);
  }

  lemma EarlierKeysAre(w: WinExpr, rows: seq<Row>, i: int, env: Env)
    requires 0 <= i < |rows|
    requires forall j | 0 <= j < |rows| :: Before(w, rows[i], env)(j, rows[j]) <==> j in EarlierAt(w, rows, i, env)
    ensures KeySet(w, Picked(rows, Before(w, rows[i], env)), env) == EarlierKeys(w, rows, i, env)
  {
    hide Before, Picked, KeyOf;
    var g := Before(w, rows[i], env);
    var picked := Picked(rows, g);
    hide EarlierAt;
    forall k ensures k in KeySet(w, picked, env) <==> k in EarlierKeys(w, rows, i, env) {
      if k in KeySet(w, picked, env) {
        var h :| 0 <= h < |picked| && k == KeyOf(OrderColumns(w.order), picked[h], env);
        PickedMembers(rows, g, picked[h]);
      }
      if k in EarlierKeys(w, rows, i, env) {
        var j :| j in EarlierAt(w, rows, i, env) && 0 <= j < |rows| && k == KeyOf(OrderColumns(w.order), rows[j], env);
        PickedMembers(rows, g, rows[j]);
        var h :| 0 <= h < |picked| && picked[h] == rows[j];
      }
    }
  }

  // ---------------------------------------------------------------- frames

  function InRange(w: WinExpr, x: Row, env: Env): (int, Row) -> bool {
    (j: int, r: Row) => Before(w, x, env)(j, r) || Peers(w, x, env)(j, r)
  }

  lemma {:induction false} PickedUnion<T(!new)>(rows: seq<T>, g: (int, T) -> bool, a: (int, T) -> bool, b: (int, T) -> bool)
    requires forall j | 0 <= j < |rows| :: g(j, rows[j]) == (a(j, rows[j]) || b(j, rows[j])) && !(a(j, rows[j]) && b(j, rows[j]))
    ensures multiset(Picked(rows, a) + Picked(rows, b)) == multiset(Picked(rows, g))
  {
    if rows != [] {
      var n := |rows| - 1;
      assert forall j | 0 <= j < n :: rows[..n][j] == rows[j];
      PickedUnion(rows[..n], g, a, b);
      PickedSnoc(rows, g);
      PickedSnoc(rows, a);
      PickedSnoc(rows, b);
      hide Picked;
      Shuffle(Picked(rows[..n], a), Picked(rows[..n], b), Picked(rows[..n], g), rows[n]);
      assert g(n, rows[n]) == (a(n, rows[n]) || b(n, rows[n])) && !(a(n, rows[n]) && b(n, rows[n]));
    }
  }

  lemma PickedSnoc<T>(rows: seq<T>, g: (int, T) -> bool)
    requires rows != []
    ensures var n := |rows| - 1;
            Picked(rows, g) == if g(n, rows[n]) then Picked(rows[..n], g) + [rows[n]] else Picked(rows[..n], g)
  {
    assert Picked(rows[..|rows| - 1], g) + [] == Picked(rows[..|rows| - 1], g);
  }

  lemma Shuffle<T>(s: seq<T>, t: seq<T>, u: seq<T>, x: T)
    requires multiset(s + t) == multiset(u)
    ensures multiset((s + [x]) + t) == multiset(u + [x]) == multiset(s + (t + [x]))
  {
    assert multiset((s + [x]) + t) == multiset(s) + multiset{x} + multiset(t);
    assert multiset(s + (t + [x])) == multiset(s) + multiset(t) + multiset{x};
    assert multiset(s + t) == multiset(s) + multiset(t);
  }

  /** The arguments of a RANGE frame are, as a bag, those of the rows before and of the peers. */
  lemma RangeArguments(w: WinExpr, rows: seq<Row>, i: int, env: Env)
    requires KeysTyped(w.order, env, rows) && 0 <= i < |rows|
    ensures var before, peers := Picked(rows, Before(w, rows[i], env)), Picked(rows, Peers(w, rows[i], env));
            multiset(ArgCells(w.arg, before, env) + ArgCells(w.arg, peers, env)) ==
            multiset(ArgCells(w.arg, Picked(rows, InRange(w, rows[i], env)), env))
  {
    hide KeysTyped, SamePartition, KeysDecide, KeysAgree, Picked, ArgCell, RowLess, SamePart, Peer;
    var x := rows[i];
    var before, peers, both := Picked(rows, Before(w, x, env)), Picked(rows, Peers(w, x, env)), Picked(rows, InRange(w, x, env));
    forall j | 0 <= j < |rows| ensures !(Before(w, x, env)(j, rows[j]) && Peers(w, x, env)(j, rows[j])) {
      Chosen(w, rows, i, env, j);
      DecidedDiffer(w.order, env, rows[j], x);
    }
    PickedUnion(rows, InRange(w, x, env), Before(w, x, env), Peers(w, x, env));
    ArgCellsBag(w.arg, before + peers, both, env);
    assert ArgCells(w.arg, before + peers, env) == ArgCells(w.arg, before, env) + ArgCells(w.arg, peers, env);
  }

  lemma DecidedDiffer(order: seq<SortKey>, env: Env, a: Row, b: Row)
    ensures !(KeysDecide(order, env, a, b) && KeysAgree(order, env, a, b))
  {
  }

  lemma FrameIsKnown(w: WinExpr, rows: seq<Row>, i: int, env: Env, g: (int, Row) -> bool)
    requires KeysTyped(w.order, env, rows) && 0 <= i < |rows|
    requires g == match w.frame
                  case WholePartition => InPart(w, rows[i], env)
                  case RowsCumulative => Ahead(w, rows[i], i + 1, env)
                  case RangeCumulative => InRange(w, rows[i], env)
    ensures Known(rows, g, w.arg, env) == FrameAt(w, rows, i, env)
  {
    hide KeysTyped, SamePartition, KeysDecide, KeysAgree, Counted, RowLess, SamePart, Peer;
    forall j | 0 <= j < |rows| ensures g(j, rows[j]) <==> InFrame(w, rows, i, env, j) {
      Chosen(w, rows, i, env, j);
      SelfAgrees(w, env, rows[i]);
    }
    hide InFrame;
  }

  lemma SelfAgrees(w: WinExpr, env: Env, x: Row)
    ensures SamePartition(w, env, x, x) && KeysAgree(w.order, env, x, x)
  {
  }

  /** The sum of a list of arguments, when it has any. */
  lemma ListSum(w: WinExpr, rows: seq<Row>, g: (int, Row) -> bool, env: Env)
    requires w.arg.Some?
    ensures var at, args := Known(rows, g, w.arg, env), NonNull(ArgCells(w.arg, Picked(rows, g), env));
            (args == [] <==> at == {}) && Total(args) == SumBelow(rows, at, w.arg.value, env, |rows|)
  {
    ArgsCount(rows, g, w.arg, env);
    ArgsSum(rows, g, w.arg.value, env);
    NoneKnown(Known(rows, g, w.arg, env));
  }

  /** An aggregate window gives each row the aggregate of its frame. COUNT, MIN and MAX fail only by counting too far; a SUM
    over the rows so far fails exactly when that sum overflows. */
  lemma FrameMeans(w: WinExpr, rows: seq<Row>, i: int, env: Env)
    requires KeysTyped(w.order, env, rows) && 0 <= i < |rows|
    requires w.fn.Aggregated? && (w.fn.fn != Count ==> w.arg.Some?)
    ensures var r, at := WindowAt(w, rows, i, env), FrameAt(w, rows, i, env);
            && (r.Ok? ==> IsAggregate(w.fn.fn, w.arg, w.ty, rows, at, env, r.value))
            && (w.fn.fn != Sum || w.frame == WholePartition ==> (r.Fails? <==> Overflows(w.fn.fn, w.arg, rows, at, env)))
            && (w.fn.fn == Sum && w.frame == RowsCumulative ==>
                  (r.Fails? <==> at != {} && !Fits(SumBelow(rows, at, w.arg.value, env, |rows|))))
  {
    match w.frame
    case WholePartition => WholeMeans(w, rows, i, env);
    case RowsCumulative => RowsMean(w, rows, i, env);
    case RangeCumulative => RangeMeans(w, rows, i, env);
  }

  lemma WholeMeans(w: WinExpr, rows: seq<Row>, i: int, env: Env)
    requires KeysTyped(w.order, env, rows) && 0 <= i < |rows|
    requires w.fn.Aggregated? && (w.fn.fn != Count ==> w.arg.Some?) && w.frame == WholePartition
    ensures var r, at := WindowAt(w, rows, i, env), FrameAt(w, rows, i, env);
            && (r.Ok? ==> IsAggregate(w.fn.fn, w.arg, w.ty, rows, at, env, r.value))
            && (r.Fails? <==> Overflows(w.fn.fn, w.arg, rows, at, env))
  {
    hide KeysTyped, FrameAt, Known, InPart, AggOutcome, Overflows, IsAggregate;
    FrameIsKnown(w, rows, i, env, InPart(w, rows[i], env));
    OutcomeMeans(w.fn.fn, w.arg, w.ty, rows, InPart(w, rows[i], env), env);
  }

  lemma RowsMean(w: WinExpr, rows: seq<Row>, i: int, env: Env)
    requires KeysTyped(w.order, env, rows) && 0 <= i < |rows|
    requires w.fn.Aggregated? && (w.fn.fn != Count ==> w.arg.Some?) && w.frame == RowsCumulative
    ensures var r, at := WindowAt(w, rows, i, env), FrameAt(w, rows, i, env);
            && (r.Ok? ==> IsAggregate(w.fn.fn, w.arg, w.ty, rows, at, env, r.value))
            && (w.fn.fn != Sum ==> (r.Fails? <==> Overflows(w.fn.fn, w.arg, rows, at, env)))
            && (w.fn.fn == Sum ==> (r.Fails? <==> at != {} && !Fits(SumBelow(rows, at, w.arg.value, env, |rows|))))
  {
    hide KeysTyped, FrameAt, Known, Ahead, AggOutcome, Overflows, NonNull, Total, Picked, SumBelow;
    var g := Ahead(w, rows[i], i + 1, env);
    FrameIsKnown(w, rows, i, env, g);
    OutcomeMeans(w.fn.fn, w.arg, w.ty, rows, g, env);
    if w.fn.fn == Sum {
      ListSum(w, rows, g, env);
    }
  }

  lemma RangeMeans(w: WinExpr, rows: seq<Row>, i: int, env: Env)
    requires KeysTyped(w.order, env, rows) && 0 <= i < |rows|
    requires w.fn.Aggregated? && (w.fn.fn != Count ==> w.arg.Some?) && w.frame == RangeCumulative
    ensures var r, at := WindowAt(w, rows, i, env), FrameAt(w, rows, i, env);
            && (r.Ok? ==> IsAggregate(w.fn.fn, w.arg, w.ty, rows, at, env, r.value))
            && (w.fn.fn != Sum ==> (r.Fails? <==> Overflows(w.fn.fn, w.arg, rows, at, env)))
  {
    hide KeysTyped, FrameAt, Known, Before, Peers, InRange, AggOutcome, Overflows, NonNull, Total, NegTotal, Picked, SumBelow, ArgCells;
    var g := InRange(w, rows[i], env);
    FrameIsKnown(w, rows, i, env, g);
    RangeArguments(w, rows, i, env);
    var before := ArgCells(w.arg, Picked(rows, Before(w, rows[i], env)), env);
    var peers := ArgCells(w.arg, Picked(rows, Peers(w, rows[i], env)), env);
    var both := ArgCells(w.arg, Picked(rows, g), env);
    if w.fn.fn == Sum {
      ListSum(w, rows, g, env);
      NonNullAppend(before, peers);
      NonNullSameBag(before + peers, both);
      TotalSameBag(NonNull(before + peers), NonNull(both));
      TotalAppend(NonNull(before), NonNull(peers));
    } else {
      AggSameBag(w.fn.fn, w.ty, before + peers, both);
      OutcomeMeans(w.fn.fn, w.arg, w.ty, rows, g, env);
    }
  }

  /** A window COUNT(*) counts the rows of the frame, and COUNT of a column those with a value there. */
  lemma FrameCountMeans(w: WinExpr, rows: seq<Row>, i: int, env: Env)
    requires KeysTyped(w.order, env, rows) && 0 <= i < |rows| && w.fn == Aggregated(Count) && |rows| <= INT64_MAX
    ensures var r := WindowAt(w, rows, i, env);
            r.Ok? && r.value.IntV? &&
            match w.arg
            case None => r.value.i == |set j | 0 <= j < |rows| && InFrame(w, rows, i, env, j)|
            case Some(c) => r.value.i == |set j | 0 <= j < |rows| && InFrame(w, rows, i, env, j) && !CellOf(c, rows[j], env).Null?|
  {
    FrameMeans(w, rows, i, env);
    hide InFrame, WindowAt, CellOf;
    var at := FrameAt(w, rows, i, env);
    PositionsFit(at, |rows|);
    match w.arg
    case None => assert at == set j | 0 <= j < |rows| && InFrame(w, rows, i, env, j);
    case Some(c) => assert at == set j | 0 <= j < |rows| && InFrame(w, rows, i, env, j) && !CellOf(c, rows[j], env).Null?;
  }

  lemma {:induction false} PositionsFit(at: set<int>, n: nat)
    requires forall j | j in at :: 0 <= j < n
    ensures |at| <= n
  {
    if n == 0 {
      assert forall j :: j !in at;
    } else {
      PositionsFit(at - {n - 1}, n - 1);
    }
  }

  // ---------------------------------------------------------------- the operator

  /** Every partition column, order key and argument can be read, and only COUNT goes without an argument. */
  ghost predicate ReadableWindow(w: WinExpr, rel: Rel, env: Env) {
    && (forall k | 0 <= k < |w.partition| :: Resolves(w.partition[k], Names(rel.header), env))
    && (forall k | 0 <= k < |w.order| :: Resolves(w.order[k].col, Names(rel.header), env))
    && (w.fn.Aggregated? ==> if w.arg.Some? then Resolves(w.arg.value, Names(rel.header), env) else w.fn.fn == Count)
  }

  /** A window operator keeps every row in place and adds one column per expression; it fails exactly when a column cannot be
    read, two columns coincide, or some row has no value. */
  lemma WindowRowsMean(wins: seq<WinExpr>, rel: Rel, env: Env)
    ensures WindowRel(wins, rel, env).Ok? <==>
            && (forall k | 0 <= k < |wins| :: ReadableWindow(wins[k], rel, env)) && DistinctIds(rel.header + WindowHeader(wins))
            && (forall k, i | 0 <= k < |wins| && 0 <= i < |rel.rows| :: WindowAt(wins[k], rel.rows, i, env).Ok?)
    ensures WindowRel(wins, rel, env).Ok? ==>
              var out := WindowRel(wins, rel, env).value;
              && out.header == rel.header + WindowHeader(wins) && |out.rows| == |rel.rows|
              && (forall i, id | 0 <= i < |rel.rows| && id in rel.rows[i] && id !in Names(WindowHeader(wins)) ::
                    id in out.rows[i] && out.rows[i][id] == rel.rows[i][id])
              && (forall k, i | 0 <= k < |wins| && 0 <= i < |rel.rows| :: ShowsWindow(wins[k], rel.rows, i, env, out.rows[i]))
  {
    forall k | 0 <= k < |wins| ensures WindowResolves(wins[k], Names(rel.header), env) <==> ReadableWindow(wins[k], rel, env) {
    }
    hide ReadableWindow, WindowResolves, WindowAt, Names, DistinctIds;
    var header := rel.header + WindowHeader(wins);
    var cols := WindowColumns(wins, rel.rows, env);
    if cols.Ok? && DistinctIds(header) {
      forall i | 0 <= i < |rel.rows|
        ensures var out := WithColumns(WindowHeader(wins), cols.value, rel.rows)[i];
                && (forall id | id in rel.rows[i] && id !in Names(WindowHeader(wins)) :: id in out && out[id] == rel.rows[i][id])
                && (forall k | 0 <= k < |wins| :: ShowsWindow(wins[k], rel.rows, i, env, out))
      {
        RowShowsWindows(wins, rel, cols.value, i, env);
      }
      hide WithColumns, ShowsWindow;
    }
  }

  ghost predicate ShowsWindow(w: WinExpr, rows: seq<Row>, i: int, env: Env, out: Row)
    requires 0 <= i < |rows|
  {
    Ident("", w.name) in out && WindowAt(w, rows, i, env).Ok? && out[Ident("", w.name)] == Cast(w.ty, WindowAt(w, rows, i, env).value)
  }

  lemma RowShowsWindows(wins: seq<WinExpr>, rel: Rel, cols: seq<seq<Cell>>, i: int, env: Env)
    requires DistinctIds(rel.header + WindowHeader(wins)) && 0 <= i < |rel.rows| && WindowColumns(wins, rel.rows, env) == Ok(cols)
    ensures |cols| == |wins| && forall k | 0 <= k < |cols| :: |cols[k]| == |rel.rows|
    ensures var out := WithColumns(WindowHeader(wins), cols, rel.rows)[i];
            && (forall id | id in rel.rows[i] && id !in Names(WindowHeader(wins)) :: id in out && out[id] == rel.rows[i][id])
            && (forall k | 0 <= k < |wins| :: ShowsWindow(wins[k], rel.rows, i, env, out))
  {
    hide WindowAt;
    var header := WindowHeader(wins);
    Shapes.DistinctParts(rel.header, header);
    var ids := Ids(header);
    assert Unrepeated(ids);
    var out := WithColumns(header, cols, rel.rows)[i];
    var added := MakeRow(ids, CellsAt(cols, i));
    hide MakeRow;
    forall id | id in added ensures id in Names(header) {
      var k :| 0 <= k < |ids| && ids[k] == id;
      assert header[k].id == id;
    }
    forall k | 0 <= k < |wins| ensures ShowsWindow(wins[k], rel.rows, i, env, out) {
      assert ids[k] == Ident("", wins[k].name);
      assert added[ids[k]] == cols[k][i];
    }
  }
}
