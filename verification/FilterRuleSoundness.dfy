/** The default rewrite rules leave the meaning of a plan unchanged: the same ordered output, and the same
  failures, eager subquery preparation included.
 */
module FilterRuleSoundness {
  import opened Plans
  import opened Sequences
  import opened Values
  import opened Algebra
  import opened Windows
  import opened Semantics
  import opened Shapes
  import opened Sorting
  import opened Correlation
  import opened FilterRules

  // ---------------------------------------------------------------- output columns

  /** The columns a plan exposes, whether or not it evaluates. */
  function OutputColumns(p: Plan, db: Db): Option<seq<Field>>
    decreases p
  {
    var op := p.op;
    if |p.kids| != Arity(op) then None
    else
      match op
      case Scan(table, binding) => if table in db then Some(Rename(binding, db[table].header)) else None
      case Project(projs) => Some(ProjectHeader(projs))
      case Aggregate(keys, aggs) => Some(AggregateHeader(keys, aggs))
      case Window(wins) => (
        match OutputColumns(p.kids[0], db)
        case None => None
        case Some(h) => Some(h + WindowHeader(wins)))
      case Join(kind, _, _) => (
        match OutputColumns(p.kids[0], db)
        case None => None
        case Some(left) =>
          match OutputColumns(p.kids[1], db)
          case None => None
          case Some(right) => Some(JoinHeader(kind, left, right)))
      case _ => OutputColumns(p.kids[0], db)
  }

  lemma {:induction false} OutputColumnsAreHeader(p: Plan, outer: seq<Row>, db: Db)
    requires Eval(p, outer, db).Ok?
    ensures OutputColumns(p, db) == Some(Eval(p, outer, db).value.header)
    decreases p
  {
    hide FlatMap, MapAll, StableSort, DistinctIds, OuterEnv, KeysResolve, AggregateResolves, WindowResolves;
    if !p.op.Scan? {
      if !(p.op.Sort? && p.kids[0].op.Project? && |p.kids[0].kids| == 1) {
        OutputColumnsAreHeader(p.kids[0], outer, db);
      } else {
        OutputColumnsAreHeader(p.kids[0], outer, db);
      }
      if p.op.Join? {
        OutputColumnsAreHeader(p.kids[1], outer, db);
      }
    }
  }

  // ---------------------------------------------------------------- when predicates cannot be abandoned

  predicate ColumnResolves(e: Scalar, names: set<Ident>, outer: seq<Row>) {
    e.Column? ==> if e.col.depth != 0 then OuterCell(e.col, outer).Ok? else e.col.id in names
  }

  /** Every column a predicate reads directly exists; binding guarantees it. */
  predicate ColumnsResolve(p: Pred, names: set<Ident>, outer: seq<Row>) {
    match p
    case Cmp(l, _, r) => ColumnResolves(l, names, outer) && ColumnResolves(r, names, outer)
    case IsNull(e) => ColumnResolves(e, names, outer)
    case IsNotNull(e) => ColumnResolves(e, names, outer)
    case In(e, _) => ColumnResolves(e, names, outer)
    case NotIn(e, _) => ColumnResolves(e, names, outer)
    case And(l, r) => ColumnsResolve(l, names, outer) && ColumnsResolve(r, names, outer)
    case Or(l, r) => ColumnsResolve(l, names, outer) && ColumnsResolve(r, names, outer)
    case _ => true
  }

  /** An uncorrelated subquery that exposes one column. */
  predicate FixedColumn(sub: Subplan, db: Db) {
    sub.corr == [] && (OutputColumns(sub.plan, db).Some? ==> |OutputColumns(sub.plan, db).value| == 1)
  }

  predicate FixedScalar(e: Scalar, db: Db) {
    e.ScalarQuery? ==> FixedColumn(e.sub, db)
  }

  /** No correlated subquery; scalar and IN subqueries expose one column. */
  predicate Uncorrelated(p: Pred, db: Db) {
    match p
    case Cmp(l, _, r) => FixedScalar(l, db) && FixedScalar(r, db)
    case IsNull(e) => FixedScalar(e, db)
    case IsNotNull(e) => FixedScalar(e, db)
    case In(e, sub) => FixedScalar(e, db) && FixedColumn(sub, db)
    case NotIn(e, sub) => FixedScalar(e, db) && FixedColumn(sub, db)
    case Exists(sub) => sub.corr == []
    case NotExists(sub) => sub.corr == []
    case And(l, r) => Uncorrelated(l, db) && Uncorrelated(r, db)
    case Or(l, r) => Uncorrelated(l, db) && Uncorrelated(r, db)
  }

  lemma SteadyScalar(e: Scalar, names: set<Ident>, row: Row, outer: seq<Row>, db: Db)
    requires ColumnResolves(e, names, outer) && names <= row.Keys
    requires e.ScalarQuery? ==> FixedScalar(e, db) && PreparedScalar(e, outer, db)
    ensures EvalScalar(e, row, outer, db).Ok?
  {
    if e.ScalarQuery? {
      var rel := Run(e.sub.plan, outer, db).value;
      EvalFits(e.sub.plan, outer, db);
      OutputColumnsAreHeader(e.sub.plan, outer, db);
      if rel.rows != [] {
        assert RowFits(rel.header, rel.rows[0]);
      }
    }
  }

  lemma SteadyMember(sub: Subplan, v: Outcome<Cell>, row: Row, outer: seq<Row>, db: Db)
    requires v.Ok? && FixedColumn(sub, db) && PreparedSub(sub, outer, db)
    ensures EvalIn(v, sub, row, outer, db) != Error
  {
    PreparedRuns(sub, row, outer, db);
    hide Run, Eval, MemberTruth, OutputColumns;
  }

  lemma PreparedRuns(sub: Subplan, row: Row, outer: seq<Row>, db: Db)
    requires FixedColumn(sub, db) && PreparedSub(sub, outer, db)
    ensures EvalSub(sub, row, outer, db).Ok? && |EvalSub(sub, row, outer, db).value.header| == 1
  {
    hide OutputColumns;
    assert Run(sub.plan, outer, db).Ok?;
    OutputColumnsAreHeader(sub.plan, outer, db);
  }

  lemma SteadyExists(sub: Subplan, row: Row, outer: seq<Row>, db: Db)
    requires sub.corr == [] && PreparedSub(sub, outer, db)
    ensures EvalExists(sub, row, outer, db) != Error
  {
    assert Run(sub.plan, outer, db).Ok?;
  }

  /** Once its uncorrelated subqueries are prepared, a predicate over existing columns is never abandoned. */
  lemma {:induction false} SteadyPred(p: Pred, names: set<Ident>, row: Row, outer: seq<Row>, db: Db)
    requires ColumnsResolve(p, names, outer) && names <= row.Keys
    requires ContainsSubquery(p) ==> Uncorrelated(p, db) && PreparedPred(p, outer, db)
    ensures EvalPred(p, row, outer, db) != Error
  {
    match p
    case Cmp(l, _, r) =>
      SteadyScalar(l, names, row, outer, db);
      SteadyScalar(r, names, row, outer, db);
    case IsNull(e) => SteadyScalar(e, names, row, outer, db);
    case IsNotNull(e) => SteadyScalar(e, names, row, outer, db);
    case In(e, sub) =>
      SteadyScalar(e, names, row, outer, db);
      SteadyMember(sub, EvalScalar(e, row, outer, db), row, outer, db);
    case NotIn(e, sub) =>
      SteadyScalar(e, names, row, outer, db);
      SteadyMember(sub, EvalScalar(e, row, outer, db), row, outer, db);
    case And(l, r) =>
      SteadyPred(l, names, row, outer, db);
      SteadyPred(r, names, row, outer, db);
    case Or(l, r) =>
      SteadyPred(l, names, row, outer, db);
      SteadyPred(r, names, row, outer, db);
    case Exists(sub) => SteadyExists(sub, row, outer, db);
    case NotExists(sub) => SteadyExists(sub, row, outer, db);
  }

  lemma {:induction false} SteadyPreds(ps: seq<Pred>, names: set<Ident>, row: Row, outer: seq<Row>, db: Db)
    requires names <= row.Keys
    requires forall i | 0 <= i < |ps| :: ColumnsResolve(ps[i], names, outer) && (ContainsSubquery(ps[i]) ==> Uncorrelated(ps[i], db) && PreparedPred(ps[i], outer, db))
    ensures EvalPreds(ps, row, outer, db) != Error
  {
    if ps != [] {
      SteadyPreds(ps[..|ps| - 1], names, row, outer, db);
      SteadyPred(ps[|ps| - 1], names, row, outer, db);
    }
  }

  // ---------------------------------------------------------------- folding

  lemma CanonicalTruths(row: Row, outer: seq<Row>, db: Db)
    ensures EvalPred(CANONICAL_TRUE, row, outer, db) == True && EvalPred(CANONICAL_FALSE, row, outer, db) == False
  {
  }

  /** An operand is dropped only when it cannot fail. */
  lemma FoldAndTruth(x: (Pred, bool), y: (Pred, bool), names: set<Ident>, row: Row, outer: seq<Row>, db: Db)
    requires ColumnsResolve(x.0, names, outer) && ColumnsResolve(y.0, names, outer) && names <= row.Keys
    ensures EvalPred(FoldAnd(x, y).0, row, outer, db) == AndTruth(EvalPred(x.0, row, outer, db), EvalPred(y.0, row, outer, db))
    ensures ColumnsResolve(FoldAnd(x, y).0, names, outer)
  {
    hide ContainsSubquery;
    CanonicalTruths(row, outer, db);
    if !ContainsSubquery(x.0) { SteadyPred(x.0, names, row, outer, db); }
    if !ContainsSubquery(y.0) { SteadyPred(y.0, names, row, outer, db); }
  }

  lemma FoldOrTruth(x: (Pred, bool), y: (Pred, bool), names: set<Ident>, row: Row, outer: seq<Row>, db: Db)
    requires ColumnsResolve(x.0, names, outer) && ColumnsResolve(y.0, names, outer) && names <= row.Keys
    ensures EvalPred(FoldOr(x, y).0, row, outer, db) == OrTruth(EvalPred(x.0, row, outer, db), EvalPred(y.0, row, outer, db))
    ensures ColumnsResolve(FoldOr(x, y).0, names, outer)
  {
    hide ContainsSubquery;
    CanonicalTruths(row, outer, db);
    if !ContainsSubquery(x.0) { SteadyPred(x.0, names, row, outer, db); }
    if !ContainsSubquery(y.0) { SteadyPred(y.0, names, row, outer, db); }
  }

  /** Folding keeps the truth of a predicate on every row. */
  lemma {:induction false} FoldKeepsTruth(p: Pred, names: set<Ident>, row: Row, outer: seq<Row>, db: Db)
    requires ColumnsResolve(p, names, outer) && names <= row.Keys
    ensures EvalPred(Fold(p).0, row, outer, db) == EvalPred(p, row, outer, db)
    ensures ColumnsResolve(Fold(p).0, names, outer)
  {
    hide FoldAnd, FoldOr;
    match p
    case And(l, r) =>
      FoldKeepsTruth(l, names, row, outer, db);
      FoldKeepsTruth(r, names, row, outer, db);
      FoldAndTruth(Fold(l), Fold(r), names, row, outer, db);
    case Or(l, r) =>
      FoldKeepsTruth(l, names, row, outer, db);
      FoldKeepsTruth(r, names, row, outer, db);
      FoldOrTruth(Fold(l), Fold(r), names, row, outer, db);
    case _ =>
  }

  lemma {:induction false} NoSubqueryPrepared(p: Pred, outer: seq<Row>, db: Db)
    requires !ContainsSubquery(p)
    ensures PreparedPred(p, outer, db) && Uncorrelated(p, db)
  {
    match p
    case And(l, r) =>
      NoSubqueryPrepared(l, outer, db);
      NoSubqueryPrepared(r, outer, db);
    case Or(l, r) =>
      NoSubqueryPrepared(l, outer, db);
      NoSubqueryPrepared(r, outer, db);
    case _ =>
  }

  lemma FoldAndPrepared(x: (Pred, bool), y: (Pred, bool), outer: seq<Row>, db: Db)
    ensures PreparedPred(FoldAnd(x, y).0, outer, db) == (PreparedPred(x.0, outer, db) && PreparedPred(y.0, outer, db))
    ensures Uncorrelated(x.0, db) && Uncorrelated(y.0, db) ==> Uncorrelated(FoldAnd(x, y).0, db)
  {
    hide ContainsSubquery;
    if !ContainsSubquery(x.0) { NoSubqueryPrepared(x.0, outer, db); }
    if !ContainsSubquery(y.0) { NoSubqueryPrepared(y.0, outer, db); }
  }

  lemma FoldOrPrepared(x: (Pred, bool), y: (Pred, bool), outer: seq<Row>, db: Db)
    ensures PreparedPred(FoldOr(x, y).0, outer, db) == (PreparedPred(x.0, outer, db) && PreparedPred(y.0, outer, db))
    ensures Uncorrelated(x.0, db) && Uncorrelated(y.0, db) ==> Uncorrelated(FoldOr(x, y).0, db)
  {
    hide ContainsSubquery;
    if !ContainsSubquery(x.0) { NoSubqueryPrepared(x.0, outer, db); }
    if !ContainsSubquery(y.0) { NoSubqueryPrepared(y.0, outer, db); }
  }

  /** Folding keeps exactly the subqueries whose preparation may fail. */
  lemma {:induction false} FoldKeepsPreparation(p: Pred, outer: seq<Row>, db: Db)
    ensures PreparedPred(Fold(p).0, outer, db) == PreparedPred(p, outer, db)
    ensures Uncorrelated(p, db) ==> Uncorrelated(Fold(p).0, db)
  {
    hide FoldAnd, FoldOr;
    match p
    case And(l, r) =>
      FoldKeepsPreparation(l, outer, db);
      FoldKeepsPreparation(r, outer, db);
      FoldAndPrepared(Fold(l), Fold(r), outer, db);
    case Or(l, r) =>
      FoldKeepsPreparation(l, outer, db);
      FoldKeepsPreparation(r, outer, db);
      FoldOrPrepared(Fold(l), Fold(r), outer, db);
    case _ =>
  }

  ghost predicate AllResolve(ps: seq<Pred>, names: set<Ident>, outer: seq<Row>) {
    forall i | 0 <= i < |ps| :: ColumnsResolve(ps[i], names, outer)
  }

  ghost predicate AllUncorrelated(ps: seq<Pred>, db: Db) {
    forall i | 0 <= i < |ps| :: Uncorrelated(ps[i], db)
  }

  lemma {:induction false} FoldAllKeepsTruth(ps: seq<Pred>, names: set<Ident>, row: Row, outer: seq<Row>, db: Db)
    requires AllResolve(ps, names, outer) && names <= row.Keys
    ensures EvalPreds(FoldAll(ps).0, row, outer, db) == EvalPreds(ps, row, outer, db)
  {
    hide Fold;
    if ps != [] {
      var n := |ps| - 1;
      FoldAllKeepsTruth(ps[..n], names, row, outer, db);
      FoldKeepsTruth(ps[n], names, row, outer, db);
      assert FoldAll(ps).0[..n] == FoldAll(ps[..n]).0;
    }
  }

  lemma ConjunctLast(ps: seq<Pred>, p: Pred, row: Row, outer: seq<Row>, db: Db)
    ensures EvalPreds(ps + [p], row, outer, db) == AndTruth(EvalPreds(ps, row, outer, db), EvalPred(p, row, outer, db))
  {
    hide EvalPred;
    assert (ps + [p])[..|ps|] == ps;
  }

  lemma {:induction false} WithoutTrueKeepsTruth(ps: seq<Pred>, row: Row, outer: seq<Row>, db: Db)
    ensures EvalPreds(WithoutTrue(ps), row, outer, db) == EvalPreds(ps, row, outer, db)
  {
    if ps != [] {
      var n := |ps| - 1;
      WithoutTrueKeepsTruth(ps[..n], row, outer, db);
      CanonicalTruths(row, outer, db);
      hide EvalPred;
      ConjunctLast(WithoutTrue(ps[..n]), ps[n], row, outer, db);
      ConjunctLast(ps[..n], ps[n], row, outer, db);
      assert ps == ps[..n] + [ps[n]];
      assert WithoutTrue(ps[..n]) + [] == WithoutTrue(ps[..n]);
    }
  }

  lemma {:induction false} FalseConjunct(ps: seq<Pred>, names: set<Ident>, row: Row, outer: seq<Row>, db: Db)
    requires CANONICAL_FALSE in ps && AllResolve(ps, names, outer) && names <= row.Keys
    requires forall i | 0 <= i < |ps| :: !ContainsSubquery(ps[i])
    ensures EvalPreds(ps, row, outer, db) == False
    decreases |ps|
  {
    var n := |ps| - 1;
    assert ps == ps[..n] + [ps[n]];
    SteadyPred(ps[n], names, row, outer, db);
    if CANONICAL_FALSE in ps[..n] {
      FalseConjunct(ps[..n], names, row, outer, db);
    } else {
      SteadyPreds(ps[..n], names, row, outer, db);
    }
  }

  lemma {:induction false} PredsAppend(ps: seq<Pred>, qs: seq<Pred>, row: Row, outer: seq<Row>, db: Db)
    ensures EvalPreds(ps + qs, row, outer, db) == AndTruth(EvalPreds(ps, row, outer, db), EvalPreds(qs, row, outer, db))
  {
    hide EvalPred;
    if qs == [] {
      assert ps + qs == ps;
    } else {
      assert (ps + qs)[..|ps + qs| - 1] == ps + qs[..|qs| - 1];
      PredsAppend(ps, qs[..|qs| - 1], row, outer, db);
    }
  }

  // ---------------------------------------------------------------- filters over relations

  /** Filters agree when their truths do on the relation's own rows. */
  lemma FilterAgreeOn(rel: Rel, f: Row -> Truth, g: Row -> Truth)
    requires forall i | 0 <= i < |rel.rows| :: f(rel.rows[i]) == g(rel.rows[i])
    ensures FilterRel(rel, f) == FilterRel(rel, g)
  {
    FlatMapAgree(rel.rows, KeepTrue(f), KeepTrue(g));
  }

  /** Some row that the inner filter rejects makes the outer predicates fail. */
  ghost predicate HiddenFailure(rel: Rel, inner: Row -> Truth, outer: Row -> Truth) {
    exists i :: 0 <= i < |rel.rows| && inner(rel.rows[i]) != True && outer(rel.rows[i]) == Error
  }

  /** Some row makes the inner predicates fail, or passes them and makes the outer ones fail. */
  ghost predicate VisibleFailure(rel: Rel, inner: Row -> Truth, outer: Row -> Truth) {
    exists i :: 0 <= i < |rel.rows| && (inner(rel.rows[i]) == Error || (inner(rel.rows[i]) == True && outer(rel.rows[i]) == Error))
  }

  /** One filter after the other. */
  function FilterTwice(rel: Rel, inner: Row -> Truth, outer: Row -> Truth): Outcome<Rel> {
    match FilterRel(rel, inner)
    case Fails => Fails
    case Ok(first) => FilterRel(first, outer)
  }

  /** Two filters are abandoned exactly at a row that shows: one that fails the inner, or passes it and fails the outer. */
  lemma TwiceFails(rel: Rel, inner: Row -> Truth, outer: Row -> Truth)
    ensures FilterTwice(rel, inner, outer).Fails? <==> VisibleFailure(rel, inner, outer)
  {
    hide FlatMap, Then;
    FlatMapFails(rel.rows, KeepTrue(inner));
    if FilterRel(rel, inner).Ok? {
      FlatMapCompose(rel.rows, KeepTrue(inner), KeepTrue(outer));
      FlatMapFails(rel.rows, Then(KeepTrue(inner), KeepTrue(outer)));
      forall i | 0 <= i < |rel.rows|
        ensures Then(KeepTrue(inner), KeepTrue(outer))(rel.rows[i]).Fails? <==> inner(rel.rows[i]) == True && outer(rel.rows[i]) == Error
      {
        ThenKeeps(inner, outer, rel.rows[i]);
      }
    } else {
      var i :| 0 <= i < |rel.rows| && KeepTrue(inner)(rel.rows[i]).Fails?;
      assert inner(rel.rows[i]) == Error;
    }
  }

  /** The conjunction is abandoned at a visible failure and at a hidden one. */
  lemma BothFails(rel: Rel, inner: Row -> Truth, outer: Row -> Truth, both: Row -> Truth)
    requires forall row :: both(row) == AndTruth(inner(row), outer(row))
    ensures FilterRel(rel, both).Fails? <==> HiddenFailure(rel, inner, outer) || VisibleFailure(rel, inner, outer)
  {
    hide FlatMap;
    FlatMapFails(rel.rows, KeepTrue(both));
    if FilterRel(rel, both).Fails? {
      var i :| 0 <= i < |rel.rows| && KeepTrue(both)(rel.rows[i]).Fails?;
      assert both(rel.rows[i]) == Error;
    }
    if HiddenFailure(rel, inner, outer) {
      var i :| 0 <= i < |rel.rows| && inner(rel.rows[i]) != True && outer(rel.rows[i]) == Error;
      assert KeepTrue(both)(rel.rows[i]).Fails?;
    }
    if VisibleFailure(rel, inner, outer) {
      var i :| 0 <= i < |rel.rows| && (inner(rel.rows[i]) == Error || (inner(rel.rows[i]) == True && outer(rel.rows[i]) == Error));
      assert KeepTrue(both)(rel.rows[i]).Fails?;
    }
  }

  /** Where the conjunction is not abandoned, it keeps what the two filters keep. */
  lemma BothAgree(rel: Rel, inner: Row -> Truth, outer: Row -> Truth, both: Row -> Truth)
    requires forall row :: both(row) == AndTruth(inner(row), outer(row))
    requires FilterRel(rel, both).Ok?
    ensures FilterRel(rel, both) == FilterTwice(rel, inner, outer)
  {
    hide FlatMap, Then;
    BothFails(rel, inner, outer, both);
    TwiceFails(rel, inner, outer);
    FlatMapCompose(rel.rows, KeepTrue(inner), KeepTrue(outer));
    forall i | 0 <= i < |rel.rows| ensures Then(KeepTrue(inner), KeepTrue(outer))(rel.rows[i]) == KeepTrue(both)(rel.rows[i]) {
      assert !(inner(rel.rows[i]) == Error) && !(outer(rel.rows[i]) == Error);
      ThenKeeps(inner, outer, rel.rows[i]);
    }
    FlatMapAgree(rel.rows, Then(KeepTrue(inner), KeepTrue(outer)), KeepTrue(both));
  }

  /** Two filters, one after the other, are their conjunction exactly when no failure is hidden from them or one
    shows anyway: conjuncts are always evaluated, so the conjunction exposes a failure the inner filter used to hide. */
  lemma MergedFiltersExactly(rel: Rel, inner: Row -> Truth, outer: Row -> Truth, both: Row -> Truth)
    requires forall row :: both(row) == AndTruth(inner(row), outer(row))
    ensures FilterRel(rel, both) == FilterTwice(rel, inner, outer) <==>
            (HiddenFailure(rel, inner, outer) ==> VisibleFailure(rel, inner, outer))
    ensures FilterRel(rel, both) == FilterTwice(rel, inner, outer) || FilterRel(rel, both).Fails?
  {
    hide FilterRel, FilterTwice, HiddenFailure, VisibleFailure;
    BothFails(rel, inner, outer, both);
    TwiceFails(rel, inner, outer);
    if FilterRel(rel, both).Ok? {
      BothAgree(rel, inner, outer, both);
    }
  }

  lemma ThenKeeps(inner: Row -> Truth, outer: Row -> Truth, row: Row)
    requires inner(row) != Error
    ensures Then(KeepTrue(inner), KeepTrue(outer))(row) == if inner(row) == True then KeepTrue(outer)(row) else Ok([])
  {
    var k := KeepTrue(outer);
    assert [row][..0] == [];
    assert FlatMap([row][..0], k) == Ok([]);
    assert k(row).Ok? ==> [] + k(row).value == k(row).value;
    assert FlatMap([row], k) == k(row);
  }

  // ---------------------------------------------------------------- sorting over a projection

  /** Sort keys that the projection exposes are read from it, so source columns change nothing. */
  lemma SortProjectedIsSort(order: seq<SortKey>, source: Rel, projected: Rel, env: Env)
    requires |source.rows| == |projected.rows| && WellFormedRel(projected) && KeysResolve(order, Names(projected.header), env)
    ensures SortProjected(order, source, projected, env) == SortRel(order, projected, env)
  {
    hide RowLess, StableSort, DistinctIds;
    assert KeysResolve(order, Names(source.header) + Names(projected.header), env);
    var items := seq(|source.rows|, i requires 0 <= i < |source.rows| => (source.rows[i] + projected.rows[i], projected.rows[i]));
    var la, lb := (a: (Row, Row), b: (Row, Row)) => RowLess(order, env, a.0, b.0), (a: Row, b: Row) => RowLess(order, env, a, b);
    var second := (a: (Row, Row)) => a.1;
    forall x, y | x in items && y in items ensures la(x, y) == lb(second(x), second(y)) {
      WiderRows(order, env, projected.header, x.0, y.0, x.1, y.1);
    }
    SortMapped(la, lb, items, second);
    assert MapTo(items, second) == projected.rows;
    var sorted := StableSort(la, items);
    assert MapTo(sorted, second) == seq(|sorted|, i requires 0 <= i < |sorted| => sorted[i].1);
  }

  lemma {:induction false} WiderRows(order: seq<SortKey>, env: Env, header: seq<Field>, wa: Row, wb: Row, a: Row, b: Row)
    requires KeysResolve(order, Names(header), env) && a.Keys == Names(header) == b.Keys
    requires exists s, t :: wa == s + a && wb == t + b
    ensures RowLess(order, env, wa, wb) == RowLess(order, env, a, b)
  {
    if order != [] {
      assert Resolves(order[0].col, Names(header), env);
      forall i | 0 <= i < |order[1..]| ensures Resolves(order[1..][i].col, Names(header), env) {
        assert order[1..][i] == order[i + 1];
      }
      WiderRows(order[1..], env, header, wa, wb, a, b);
    }
  }
}
