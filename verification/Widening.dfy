/** Results are kept when rows and frames gain columns: whatever evaluates in a stack of outer rows evaluates to the same
  in every stack that gives at least the same cells. Only a failure can change.
 */
module Widening {
  import opened Plans
  import opened Sequences
  import opened Values
  import opened Algebra
  import opened Windows
  import opened Semantics
  import opened Correlation
  import opened FilterRuleSoundness

  // ---------------------------------------------------------------- rows and frames

  /** Row `y` has the cells of row `x`, and possibly more. */
  ghost predicate Extends(x: Row, y: Row) {
    forall id | id in x :: id in y && y[id] == x[id]
  }

  /** Stack `o2` gives every outer cell that `o1` gives. */
  ghost predicate Widens(o1: seq<Row>, o2: seq<Row>) {
    forall c: ColumnRef :: OuterCell(c, o1).Ok? ==> OuterCell(c, o2) == OuterCell(c, o1)
  }

  lemma WidensItself(outer: seq<Row>)
    ensures Widens(outer, outer)
  {
  }

  lemma WidensNested(x: Row, y: Row, o1: seq<Row>, o2: seq<Row>)
    requires Extends(x, y) && Widens(o1, o2)
    ensures Widens(o1 + [x], o2 + [y])
  {
    forall c: ColumnRef | OuterCell(c, o1 + [x]).Ok? ensures OuterCell(c, o2 + [y]) == OuterCell(c, o1 + [x]) {
      if c.depth > 0 {
        NestedCell(c, x, o1);
        NestedCell(c, y, o2);
      }
    }
  }

  /** Where the narrower stack has every listed cell, both give the same ones. */
  lemma SameCells(refs: seq<ColumnRef>, o1: seq<Row>, o2: seq<Row>)
    requires Widens(o1, o2) && forall c | c in refs && c.depth != 0 :: c in OuterEnv(refs, o1)
    ensures OuterEnv(refs, o1) == OuterEnv(refs, o2)
  {
    forall c | c in refs ensures OuterCell(c, o1) == OuterCell(c, o2) {
      if c.depth != 0 {
        assert c in OuterEnv(refs, o1);
      }
    }
  }

  lemma {:induction false} AggColumnOf(aggs: seq<AggExpr>, c: ColumnRef)
    requires c in AggColumns(aggs)
    ensures exists i :: 0 <= i < |aggs| && aggs[i].arg == Some(c)
  {
    var n := |aggs| - 1;
    if aggs[n].arg != Some(c) {
      AggColumnOf(aggs[..n], c);
      var i :| 0 <= i < n && aggs[..n][i].arg == Some(c);
      assert aggs[i].arg == Some(c);
    }
  }

  lemma AggregateCells(keys: seq<ColumnRef>, aggs: seq<AggExpr>, rel: Rel, o1: seq<Row>, o2: seq<Row>)
    requires Widens(o1, o2) && AggregateRel(keys, aggs, rel, OuterEnv(OwnColumns(Aggregate(keys, aggs)), o1)).Ok?
    ensures OuterEnv(OwnColumns(Aggregate(keys, aggs)), o1) == OuterEnv(OwnColumns(Aggregate(keys, aggs)), o2)
  {
    hide MapAll, GroupKeys, GroupRow, DistinctIds, OuterEnv;
    var refs := OwnColumns(Aggregate(keys, aggs));
    var env := OuterEnv(refs, o1);
    forall c | c in refs && c.depth != 0 ensures c in env {
      if c in keys {
        var i :| 0 <= i < |keys| && keys[i] == c;
        assert Resolves(keys[i], Names(rel.header), env);
      } else {
        AggColumnOf(aggs, c);
        var i :| 0 <= i < |aggs| && aggs[i].arg == Some(c);
        assert ArgResolves(aggs[i].fn, aggs[i].arg, Names(rel.header), env);
      }
    }
    SameCells(refs, o1, o2);
  }

  lemma OrderCells(order: seq<SortKey>, names: set<Ident>, env: Env, c: ColumnRef)
    requires KeysResolve(order, names, env) && c in OrderColumns(order) && c.depth != 0
    ensures c in env
  {
    var i :| 0 <= i < |order| && OrderColumns(order)[i] == c;
    assert Resolves(order[i].col, names, env);
  }

  lemma SortCells(order: seq<SortKey>, names: set<Ident>, o1: seq<Row>, o2: seq<Row>)
    requires Widens(o1, o2) && KeysResolve(order, names, OuterEnv(OwnColumns(Sort(order)), o1))
    ensures OuterEnv(OwnColumns(Sort(order)), o1) == OuterEnv(OwnColumns(Sort(order)), o2)
  {
    hide OuterEnv, KeysResolve;
    var refs := OwnColumns(Sort(order));
    forall c | c in refs && c.depth != 0 ensures c in OuterEnv(refs, o1) {
      OrderCells(order, names, OuterEnv(refs, o1), c);
    }
    SameCells(refs, o1, o2);
  }

  // ---------------------------------------------------------------- windows

  /** The columns a window expression reads: a ranking function does not read an argument. */
  predicate ReadByWindow(w: WinExpr, c: ColumnRef) {
    (w.fn.Aggregated? && w.arg == Some(c)) || c in w.partition || c in OrderColumns(w.order)
  }

  ghost predicate SameForWindow(w: WinExpr, env1: Env, env2: Env) {
    forall c, row | ReadByWindow(w, c) :: CellOf(c, row, env1) == CellOf(c, row, env2)
  }

  lemma WindowCells(w: WinExpr, names: set<Ident>, refs: seq<ColumnRef>, o1: seq<Row>, o2: seq<Row>)
    requires Widens(o1, o2) && WindowResolves(w, names, OuterEnv(refs, o1))
    ensures SameForWindow(w, OuterEnv(refs, o1), OuterEnv(refs, o2))
  {
    var env1, env2 := OuterEnv(refs, o1), OuterEnv(refs, o2);
    forall c | c in env1 ensures c in env2 && env2[c] == env1[c] {
      assert OuterCell(c, o1).Ok?;
    }
    hide OuterEnv, Widens;
    forall c, row | ReadByWindow(w, c) ensures CellOf(c, row, env1) == CellOf(c, row, env2) {
      if c.depth != 0 {
        if c in w.partition {
          var i :| 0 <= i < |w.partition| && w.partition[i] == c;
          assert Resolves(w.partition[i], names, env1);
        } else if c in OrderColumns(w.order) {
          OrderCells(w.order, names, env1, c);
        }
        assert c in env1;
      }
    }
  }

  lemma {:induction false} SameOrder(w: WinExpr, order: seq<SortKey>, env1: Env, env2: Env, a: Row, b: Row)
    requires SameForWindow(w, env1, env2) && forall k | k in order :: k in w.order
    ensures RowLess(order, env1, a, b) == RowLess(order, env2, a, b)
  {
    if order != [] {
      assert order[0] in order;
      var i :| 0 <= i < |w.order| && w.order[i] == order[0];
      assert OrderColumns(w.order)[i] == order[0].col;
      assert ReadByWindow(w, order[0].col);
      SameOrder(w, order[1..], env1, env2, a, b);
    }
  }

  lemma SameKeys(w: WinExpr, env1: Env, env2: Env, row: Row)
    requires SameForWindow(w, env1, env2)
    ensures KeyOf(w.partition, row, env1) == KeyOf(w.partition, row, env2)
    ensures KeyOf(OrderColumns(w.order), row, env1) == KeyOf(OrderColumns(w.order), row, env2)
  {
    hide CellOf;
    assert forall i | 0 <= i < |w.partition| :: ReadByWindow(w, w.partition[i]);
    assert forall i | 0 <= i < |OrderColumns(w.order)| :: ReadByWindow(w, OrderColumns(w.order)[i]);
  }

  lemma {:induction false} PickedAgree<T(!new)>(rows: seq<T>, g: (int, T) -> bool, h: (int, T) -> bool)
    requires forall j, r :: g(j, r) == h(j, r)
    ensures Picked(rows, g) == Picked(rows, h)
  {
    if rows != [] {
      PickedAgree(rows[..|rows| - 1], g, h);
    }
  }

  lemma SameGroups(w: WinExpr, rows: seq<Row>, x: Row, i: int, env1: Env, env2: Env)
    requires SameForWindow(w, env1, env2)
    ensures Picked(rows, InPart(w, x, env1)) == Picked(rows, InPart(w, x, env2))
    ensures Picked(rows, Before(w, x, env1)) == Picked(rows, Before(w, x, env2))
    ensures Picked(rows, Peers(w, x, env1)) == Picked(rows, Peers(w, x, env2))
    ensures Picked(rows, Ahead(w, x, i, env1)) == Picked(rows, Ahead(w, x, i, env2))
  {
    hide KeyOf, RowLess, CellOf, SameForWindow, Picked;
    forall r: Row
      ensures SamePart(w, r, x, env1) == SamePart(w, r, x, env2) && Peer(w, r, x, env1) == Peer(w, r, x, env2)
      ensures RowLess(w.order, env1, r, x) == RowLess(w.order, env2, r, x)
    {
      SameKeys(w, env1, env2, r);
      SameKeys(w, env1, env2, x);
      SameOrder(w, w.order, env1, env2, r, x);
    }
    PickedAgree(rows, InPart(w, x, env1), InPart(w, x, env2));
    PickedAgree(rows, Before(w, x, env1), Before(w, x, env2));
    PickedAgree(rows, Peers(w, x, env1), Peers(w, x, env2));
    PickedAgree(rows, Ahead(w, x, i, env1), Ahead(w, x, i, env2));
  }

  lemma SameArguments(w: WinExpr, rows: seq<Row>, env1: Env, env2: Env)
    requires SameForWindow(w, env1, env2)
    ensures w.fn.Aggregated? ==> ArgCells(w.arg, rows, env1) == ArgCells(w.arg, rows, env2)
    ensures KeySet(w, rows, env1) == KeySet(w, rows, env2)
  {
    hide CellOf;
    if w.fn.Aggregated? && w.arg.Some? {
      assert ReadByWindow(w, w.arg.value);
    }
    hide SameForWindow, KeyOf;
    forall i | 0 <= i < |rows| ensures KeyOf(OrderColumns(w.order), rows[i], env1) == KeyOf(OrderColumns(w.order), rows[i], env2) {
      SameKeys(w, env1, env2, rows[i]);
    }
  }

  lemma SameWindowAt(w: WinExpr, rows: seq<Row>, i: int, env1: Env, env2: Env)
    requires SameForWindow(w, env1, env2) && 0 <= i < |rows|
    ensures WindowAt(w, rows, i, env1) == WindowAt(w, rows, i, env2)
  {
    hide SameForWindow, Picked, InPart, Before, Peers, Ahead, AggOutcome, PrefixOutcome, RangeOutcome, KeySet, ArgCells, CountCell;
    var x := rows[i];
    SameGroups(w, rows, x, i, env1, env2);
    SameGroups(w, rows, x, i + 1, env1, env2);
    SameArguments(w, Picked(rows, InPart(w, x, env1)), env1, env2);
    SameArguments(w, Picked(rows, Before(w, x, env1)), env1, env2);
    SameArguments(w, Picked(rows, Peers(w, x, env1)), env1, env2);
    SameArguments(w, Picked(rows, Ahead(w, x, i + 1, env1)), env1, env2);
  }

  lemma SameWindowColumn(w: WinExpr, rows: seq<Row>, env1: Env, env2: Env)
    requires SameForWindow(w, env1, env2)
    ensures WindowColumn(w, rows, env1) == WindowColumn(w, rows, env2)
  {
    hide SameForWindow, WindowAt;
    forall i | 0 <= i < |rows| ensures WindowAt(w, rows, i, env1) == WindowAt(w, rows, i, env2) {
      SameWindowAt(w, rows, i, env1, env2);
    }
    assert WindowColumn(w, rows, env1).Ok? ==> WindowColumn(w, rows, env1).value == WindowColumn(w, rows, env2).value;
  }

  lemma StillResolves(c: ColumnRef, names: set<Ident>, refs: seq<ColumnRef>, o1: seq<Row>, o2: seq<Row>)
    requires Widens(o1, o2) && Resolves(c, names, OuterEnv(refs, o1))
    ensures Resolves(c, names, OuterEnv(refs, o2))
  {
    if c.depth != 0 {
      assert OuterCell(c, o1).Ok?;
    }
  }

  lemma WindowStillResolves(w: WinExpr, names: set<Ident>, refs: seq<ColumnRef>, o1: seq<Row>, o2: seq<Row>)
    requires Widens(o1, o2) && WindowResolves(w, names, OuterEnv(refs, o1))
    ensures WindowResolves(w, names, OuterEnv(refs, o2))
  {
    var env1, env2 := OuterEnv(refs, o1), OuterEnv(refs, o2);
    hide OuterEnv, Widens, Resolves;
    if w.fn.Aggregated? && w.arg.Some? {
      StillResolves(w.arg.value, names, refs, o1, o2);
    }
    forall i | 0 <= i < |w.partition| ensures Resolves(w.partition[i], names, env2) {
      StillResolves(w.partition[i], names, refs, o1, o2);
    }
    forall i | 0 <= i < |w.order| ensures Resolves(w.order[i].col, names, env2) {
      StillResolves(w.order[i].col, names, refs, o1, o2);
    }
  }

  lemma WindowRelStays(wins: seq<WinExpr>, rel: Rel, refs: seq<ColumnRef>, o1: seq<Row>, o2: seq<Row>)
    requires Widens(o1, o2) && WindowRel(wins, rel, OuterEnv(refs, o1)).Ok?
    ensures WindowRel(wins, rel, OuterEnv(refs, o2)) == WindowRel(wins, rel, OuterEnv(refs, o1))
  {
    hide OuterEnv, Widens, WindowColumn, WindowResolves, DistinctIds, SameForWindow, WithColumns;
    var env1, env2 := OuterEnv(refs, o1), OuterEnv(refs, o2);
    var h, k := (w: WinExpr) => WindowColumn(w, rel.rows, env1), (w: WinExpr) => WindowColumn(w, rel.rows, env2);
    forall i | 0 <= i < |wins| ensures WindowResolves(wins[i], Names(rel.header), env2) && h(wins[i]) == k(wins[i]) {
      assert WindowResolves(wins[i], Names(rel.header), env1);
      WindowStillResolves(wins[i], Names(rel.header), refs, o1, o2);
      WindowCells(wins[i], Names(rel.header), refs, o1, o2);
      SameWindowColumn(wins[i], rel.rows, env1, env2);
    }
    MapAllAgree(wins, h, k);
  }

  // ---------------------------------------------------------------- operators

  /** `g` gives every truth that `f` gives. */
  ghost predicate Refines(f: Row -> Truth, g: Row -> Truth) {
    forall row :: f(row) != Error ==> g(row) == f(row)
  }

  lemma FilterStays(rel: Rel, f: Row -> Truth, g: Row -> Truth)
    requires Refines(f, g) && FilterRel(rel, f).Ok?
    ensures FilterRel(rel, g) == FilterRel(rel, f)
  {
    hide FlatMap;
    FlatMapFails(rel.rows, KeepTrue(f));
    forall i | 0 <= i < |rel.rows| ensures KeepTrue(f)(rel.rows[i]) == KeepTrue(g)(rel.rows[i]) {
      assert KeepTrue(f)(rel.rows[i]).Ok?;
    }
    FlatMapAgree(rel.rows, KeepTrue(f), KeepTrue(g));
  }

  lemma ProjectStays(header: seq<Field>, rel: Rel, f: Row -> Outcome<Row>, g: Row -> Outcome<Row>)
    requires (forall row :: f(row).Ok? ==> g(row) == f(row)) && ProjectRel(header, rel, f).Ok?
    ensures ProjectRel(header, rel, g) == ProjectRel(header, rel, f)
  {
    hide MapAll, DistinctIds;
    MapAllAgree(rel.rows, f, g);
  }

  lemma {:induction false} ProbeStays(f: Row -> Truth, g: Row -> Truth, l: Row, rs: seq<Row>)
    requires Refines(f, g) && Probe(f, l, rs) != Error
    ensures Probe(g, l, rs) == Probe(f, l, rs)
  {
    if rs != [] && f(Joined(l, rs[0])) != True {
      ProbeStays(f, g, l, rs[1..]);
    }
  }

  lemma {:induction false} SuppressedStays(f: Row -> Truth, g: Row -> Truth, m: Row -> Truth, n: Row -> Truth, l: Row, rs: seq<Row>)
    requires Refines(f, g) && Refines(m, n) && Suppressed(f, m, l, rs) != Error
    ensures Suppressed(g, n, l, rs) == Suppressed(f, m, l, rs)
  {
    if rs != [] && (f(Joined(l, rs[0])) != True || m(Joined(l, rs[0])) == False) {
      SuppressedStays(f, g, m, n, l, rs[1..]);
    }
  }

  lemma MatchesStay(f: Row -> Truth, g: Row -> Truth, l: Row, rs: seq<Row>)
    requires Refines(f, g) && FlatMap(rs, Match(f, l)).Ok?
    ensures FlatMap(rs, Match(g, l)) == FlatMap(rs, Match(f, l))
  {
    hide FlatMap, Joined;
    FlatMapFails(rs, Match(f, l));
    forall j | 0 <= j < |rs| ensures Match(f, l)(rs[j]) == Match(g, l)(rs[j]) {
      assert Match(f, l)(rs[j]).Ok?;
    }
    FlatMapAgree(rs, Match(f, l), Match(g, l));
  }

  lemma JoinOneStays(kind: JoinKind, f: Row -> Truth, g: Row -> Truth, m: Row -> Truth, n: Row -> Truth, right: Rel, l: Row)
    requires Refines(f, g) && Refines(m, n) && JoinOne(kind, f, m, right)(l).Ok?
    ensures JoinOne(kind, g, n, right)(l) == JoinOne(kind, f, m, right)(l)
  {
    hide FlatMap, Probe, Suppressed, Joined, NullRow, Refines;
    match kind
    case Inner => MatchesStay(f, g, l, right.rows);
    case Left => MatchesStay(f, g, l, right.rows);
    case Semi => ProbeStays(f, g, l, right.rows);
    case Anti => ProbeStays(f, g, l, right.rows);
    case NullAwareAnti => SuppressedStays(f, g, m, n, l, right.rows);
  }

  lemma JoinStays(kind: JoinKind, f: Row -> Truth, g: Row -> Truth, m: Row -> Truth, n: Row -> Truth, left: Rel, right: Rel)
    requires Refines(f, g) && Refines(m, n) && JoinRel(kind, f, m, left, right).Ok?
    ensures JoinRel(kind, g, n, left, right) == JoinRel(kind, f, m, left, right)
  {
    hide FlatMap, JoinOne, Refines, DistinctIds;
    FlatMapFails(left.rows, JoinOne(kind, f, m, right));
    forall i | 0 <= i < |left.rows| ensures JoinOne(kind, f, m, right)(left.rows[i]) == JoinOne(kind, g, n, right)(left.rows[i]) {
      JoinOneStays(kind, f, g, m, n, right, left.rows[i]);
    }
    FlatMapAgree(left.rows, JoinOne(kind, f, m, right), JoinOne(kind, g, n, right));
  }

  // ---------------------------------------------------------------- expressions and plans

  lemma {:induction false} ScalarStays(e: Scalar, x: Row, y: Row, o1: seq<Row>, o2: seq<Row>, db: Db)
    requires Extends(x, y) && Widens(o1, o2)
    ensures EvalScalar(e, x, o1, db).Ok? ==> EvalScalar(e, y, o2, db) == EvalScalar(e, x, o1, db)
    ensures PreparedScalar(e, o1, db) ==> PreparedScalar(e, o2, db)
    decreases e
  {
    match e
    case ScalarQuery(sub, _) => SubStays(sub, x, y, o1, o2, db);
    case _ =>
  }

  lemma {:induction false} SubStays(sub: Subplan, x: Row, y: Row, o1: seq<Row>, o2: seq<Row>, db: Db)
    requires Extends(x, y) && Widens(o1, o2)
    ensures EvalSub(sub, x, o1, db).Ok? ==> EvalSub(sub, y, o2, db) == EvalSub(sub, x, o1, db)
    ensures PreparedSub(sub, o1, db) ==> PreparedSub(sub, o2, db)
    ensures sub.corr == [] && Run(sub.plan, o1, db).Ok? ==> Run(sub.plan, o2, db) == Run(sub.plan, o1, db)
    decreases sub
  {
    if sub.corr == [] {
      RunStays(sub.plan, o1, o2, db);
    } else {
      WidensNested(x, y, o1, o2);
      RunStays(sub.plan, o1 + [x], o2 + [y], db);
    }
  }

  lemma {:induction false} PredStays(p: Pred, x: Row, y: Row, o1: seq<Row>, o2: seq<Row>, db: Db)
    requires Extends(x, y) && Widens(o1, o2)
    ensures EvalPred(p, x, o1, db) != Error ==> EvalPred(p, y, o2, db) == EvalPred(p, x, o1, db)
    ensures PreparedPred(p, o1, db) ==> PreparedPred(p, o2, db)
    decreases p
  {
    hide Extends, Widens, EvalScalar, EvalSub, PreparedScalar, PreparedSub, Compare, MemberResult;
    match p
    case Cmp(l, _, r) =>
      ScalarStays(l, x, y, o1, o2, db);
      ScalarStays(r, x, y, o1, o2, db);
    case IsNull(e) => ScalarStays(e, x, y, o1, o2, db);
    case IsNotNull(e) => ScalarStays(e, x, y, o1, o2, db);
    case In(e, sub) =>
      ScalarStays(e, x, y, o1, o2, db);
      SubStays(sub, x, y, o1, o2, db);
    case NotIn(e, sub) =>
      ScalarStays(e, x, y, o1, o2, db);
      SubStays(sub, x, y, o1, o2, db);
    case Exists(sub) => SubStays(sub, x, y, o1, o2, db);
    case NotExists(sub) => SubStays(sub, x, y, o1, o2, db);
    case And(l, r) =>
      PredStays(l, x, y, o1, o2, db);
      PredStays(r, x, y, o1, o2, db);
    case Or(l, r) =>
      PredStays(l, x, y, o1, o2, db);
      PredStays(r, x, y, o1, o2, db);
  }

  lemma {:induction false} PredsStay(ps: seq<Pred>, x: Row, y: Row, o1: seq<Row>, o2: seq<Row>, db: Db)
    requires Extends(x, y) && Widens(o1, o2)
    ensures EvalPreds(ps, x, o1, db) != Error ==> EvalPreds(ps, y, o2, db) == EvalPreds(ps, x, o1, db)
    ensures PreparedPreds(ps, o1, db) ==> PreparedPreds(ps, o2, db)
    decreases ps
  {
    hide Extends, Widens, EvalPred, PreparedPred;
    if ps != [] {
      var n := |ps| - 1;
      assert ps == ps[..n] + [ps[n]];
      PredsStay(ps[..n], x, y, o1, o2, db);
      PredStays(ps[n], x, y, o1, o2, db);
      hide PreparedPreds;
      PreparedSnoc(ps, o1, db);
      PreparedSnoc(ps, o2, db);
    } else {
      NoPredsPrepared(o2, db);
    }
  }

  lemma NoPredsPrepared(outer: seq<Row>, db: Db)
    ensures PreparedPreds([], outer, db)
  {
  }

  lemma {:induction false} ProjsStay(projs: seq<Projection>, x: Row, o1: seq<Row>, o2: seq<Row>, db: Db)
    requires Widens(o1, o2)
    ensures EvalProjs(projs, x, o1, db).Ok? ==> EvalProjs(projs, x, o2, db) == EvalProjs(projs, x, o1, db)
    ensures PreparedOp(Project(projs), o1, db) ==> PreparedOp(Project(projs), o2, db)
    decreases projs
  {
    if projs != [] {
      hide EvalProjs, EvalScalar, PreparedOp, PreparedScalar, Widens, Cast;
      var n := |projs| - 1;
      assert projs == projs[..n] + [projs[n]];
      ProjsStay(projs[..n], x, o1, o2, db);
      ScalarStays(projs[n].expr, x, x, o1, o2, db);
      ProjsLast(projs, x, o1, db);
      ProjsLast(projs, x, o2, db);
    }
  }

  lemma OpStays(op: Op, o1: seq<Row>, o2: seq<Row>, db: Db)
    requires Widens(o1, o2)
    ensures PreparedOp(op, o1, db) ==> PreparedOp(op, o2, db)
    ensures op.Filter? ==> Refines(PredsFn(op.preds, o1, db), PredsFn(op.preds, o2, db))
    ensures op.Project? ==> forall row :: ProjectFn(op.projs, o1, db)(row).Ok? ==> ProjectFn(op.projs, o2, db)(row) == ProjectFn(op.projs, o1, db)(row)
    ensures op.Join? ==> Refines(PredsFn(op.on, o1, db), PredsFn(op.on, o2, db))
    ensures op.Join? ==> Refines(MemberFn(op.membership, o1, db), MemberFn(op.membership, o2, db))
    decreases op
  {
    hide EvalPred, EvalPreds, EvalProjs, Widens, PreparedPreds, PreparedPred, PreparedScalar;
    match op
    case Filter(preds) =>
      PredsFnAt(preds, o1, db);
      PredsFnAt(preds, o2, db);
      forall row: Row { PredsStay(preds, row, row, o1, o2, db); }
      PredsStay(preds, map[], map[], o1, o2, db);
    case Project(projs) =>
      ProjectFnAt(projs, o1, db);
      ProjectFnAt(projs, o2, db);
      forall row: Row { ProjsStay(projs, row, o1, o2, db); }
      ProjsStay(projs, map[], o1, o2, db);
    case Join(_, on, membership) =>
      PredsFnAt(on, o1, db);
      PredsFnAt(on, o2, db);
      MemberFnAt(membership, o1, db);
      MemberFnAt(membership, o2, db);
      forall row: Row { PredsStay(on, row, row, o1, o2, db); }
      PredsStay(on, map[], map[], o1, o2, db);
      if membership.Some? {
        forall row: Row { PredStays(membership.value, row, row, o1, o2, db); }
        PredStays(membership.value, map[], map[], o1, o2, db);
      }
    case _ =>
  }

  /** The step from children to parent. */
  lemma StaysFromKids(p: Plan, o1: seq<Row>, o2: seq<Row>, db: Db)
    requires Widens(o1, o2)
    requires forall i | 0 <= i < |p.kids| :: Eval(p.kids[i], o1, db).Ok? ==> Eval(p.kids[i], o2, db) == Eval(p.kids[i], o1, db)
    requires |p.kids| == 1 && |p.kids[0].kids| == 1 && Eval(p.kids[0].kids[0], o1, db).Ok? ==>
               Eval(p.kids[0].kids[0], o2, db) == Eval(p.kids[0].kids[0], o1, db)
    requires p.op.Filter? ==> Refines(PredsFn(p.op.preds, o1, db), PredsFn(p.op.preds, o2, db))
    requires p.op.Project? ==> forall row :: ProjectFn(p.op.projs, o1, db)(row).Ok? ==> ProjectFn(p.op.projs, o2, db)(row) == ProjectFn(p.op.projs, o1, db)(row)
    requires p.op.Join? ==> Refines(PredsFn(p.op.on, o1, db), PredsFn(p.op.on, o2, db))
    requires p.op.Join? ==> Refines(MemberFn(p.op.membership, o1, db), MemberFn(p.op.membership, o2, db))
    requires Eval(p, o1, db).Ok?
    ensures Eval(p, o2, db) == Eval(p, o1, db)
  {
    hide FilterRel, ProjectRel, JoinRel, AggregateRel, WindowRel, StableSort, ScanRel, OuterEnv, DistinctRel, LimitRel, PredsFn, MemberFn, ProjectFn, Refines, Widens,
         KeysResolve, OwnColumns;
    if !p.op.Scan? {
      var rel := Eval(p.kids[0], o1, db).value;
      match p.op
      case Join(kind, on, membership) =>
        JoinStays(kind, PredsFn(on, o1, db), PredsFn(on, o2, db), MemberFn(membership, o1, db), MemberFn(membership, o2, db), rel, Eval(p.kids[1], o1, db).value);
      case Filter(preds) => FilterStays(rel, PredsFn(preds, o1, db), PredsFn(preds, o2, db));
      case Project(projs) => ProjectStays(ProjectHeader(projs), rel, ProjectFn(projs, o1, db), ProjectFn(projs, o2, db));
      case Aggregate(keys, aggs) => AggregateCells(keys, aggs, rel, o1, o2);
      case Window(wins) => WindowRelStays(wins, rel, OwnColumns(p.op), o1, o2);
      case Sort(order) =>
        if p.kids[0].op.Project? && |p.kids[0].kids| == 1 {
          SortCells(order, Names(Eval(p.kids[0].kids[0], o1, db).value.header) + Names(rel.header), o1, o2);
        } else {
          SortCells(order, Names(rel.header), o1, o2);
        }
      case _ =>
    }
  }

  /** A plan that evaluates in a stack evaluates to the same in a wider one, and stays prepared. */
  lemma {:induction false} EvalStays(p: Plan, o1: seq<Row>, o2: seq<Row>, db: Db)
    requires Widens(o1, o2)
    ensures Eval(p, o1, db).Ok? ==> Eval(p, o2, db) == Eval(p, o1, db)
    ensures Prepared(p, o1, db) ==> Prepared(p, o2, db)
    decreases p, 0
  {
    hide Widens, Refines, PreparedOp, PredsFn, MemberFn, ProjectFn, Eval;
    forall i | 0 <= i < |p.kids|
      ensures Eval(p.kids[i], o1, db).Ok? ==> Eval(p.kids[i], o2, db) == Eval(p.kids[i], o1, db)
      ensures Prepared(p.kids[i], o1, db) ==> Prepared(p.kids[i], o2, db)
    {
      EvalStays(p.kids[i], o1, o2, db);
    }
    OpStays(p.op, o1, o2, db);
    if |p.kids| == 1 && |p.kids[0].kids| == 1 {
      EvalStays(p.kids[0].kids[0], o1, o2, db);
    }
    if Eval(p, o1, db).Ok? {
      StaysFromKids(p, o1, o2, db);
    }
  }

  /** A plan that runs in a stack of outer rows runs to the same in every wider stack. */
  lemma {:induction false} RunStays(p: Plan, o1: seq<Row>, o2: seq<Row>, db: Db)
    requires Widens(o1, o2)
    ensures Run(p, o1, db).Ok? ==> Run(p, o2, db) == Run(p, o1, db)
    decreases p, 1
  {
    hide Widens, Eval, Prepared;
    EvalStays(p, o1, o2, db);
  }
}
