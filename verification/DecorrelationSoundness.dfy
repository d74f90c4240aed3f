/** Decorrelation, one owner row at a time: what the correlated subquery returns for the row, what the join built
  from its equalities sees, and when either is abandoned.
 */
module DecorrelationSoundness {
  import opened Plans
  import opened Sequences
  import opened Values
  import opened Algebra
  import opened Semantics
  import opened Shapes
  import opened Schemas
  import opened Correlation
  import opened FilterRuleSoundness
  import opened RewriteFixpoint
  import opened JoinAlgebra
  import opened JoinRules
  import opened JoinPushdown
  import opened PlanRuns
  import opened Decorrelation
  import opened Interpreter

  // ---------------------------------------------------------------- the subquery's block

  function Source(sub: Subplan): Plan
    requires DecorrelatableShape(sub.plan)
  {
    sub.plan.kids[0].kids[0]
  }

  /** The block without its projections and its equalities: the part that does not depend on the owner's row. */
  function BasePlan(sub: Subplan): Plan
    requires DecorrelatableShape(sub.plan)
  {
    Filtered(sub.plan.kids[0].perm, Residuals(sub.plan.kids[0].op.preds), Source(sub))
  }

  /** What binding and the rule's own tests establish: a bound block whose correlation is the equalities `es`, over
    columns that its source (`h`) and the owner (`lh`) expose. */
  ghost predicate BlockBound(sub: Subplan, es: seq<Equality>, h: seq<Field>, lh: seq<Field>, db: Db) {
    && DecorrelatableShape(sub.plan) && sub.corr != [] && BoundSub(sub) && sub.plan.op.projs != []
    && !PlanReferencesOuter(Source(sub)) && (forall i | 0 <= i < |sub.plan.op.projs| :: !ScalarReferencesOuter(sub.plan.op.projs[i].expr))
    && Equalities(sub.plan.kids[0].op.preds) == Some(es) && OutputColumns(Source(sub), db) == Some(h)
    && (forall i | 0 <= i < |es| :: Has(h, es[i].inner) && Has(lh, es[i].outer))
  }

  /** The part that does not depend on the owner's row is not abandoned. */
  ghost predicate BaseRuns(sub: Subplan, outer: seq<Row>, db: Db)
    requires DecorrelatableShape(sub.plan)
  {
    Run(BasePlan(sub), outer, db).Ok? && PreparedOp(sub.plan.op, outer, db) && DistinctIds(ProjectHeader(sub.plan.op.projs))
  }

  /** The source rows that pass the residual conjuncts. */
  ghost function KeptRows(sub: Subplan, outer: seq<Row>, db: Db): seq<Row>
    requires DecorrelatableShape(sub.plan)
  {
    match Run(BasePlan(sub), outer, db) case Fails => [] case Ok(rel) => rel.rows
  }

  /** An equality between an owner cell and a block cell, both present. */
  ghost predicate EqHolds(e: Equality, l: Row, s: Row) {
    e.outer.id in l && e.inner.id in s && !l[e.outer.id].Null? && !s[e.inner.id].Null? && l[e.outer.id] == s[e.inner.id]
  }

  predicate AllEqual(es: seq<Equality>, l: Row, s: Row) {
    forall i | 0 <= i < |es| ::
      es[i].outer.id in l && es[i].inner.id in s && !l[es[i].outer.id].Null? && !s[es[i].inner.id].Null? && l[es[i].outer.id] == s[es[i].inner.id]
  }

  function MatchesOwner(es: seq<Equality>, l: Row): Row -> bool {
    s => AllEqual(es, l, s)
  }

  lemma CorrelatedEquality(p: Pred, l: Row, s: Row, outer: seq<Row>, db: Db)
    requires CorrelationEquality(p).Some?
    requires var e := CorrelationEquality(p).value; e.outer.id in l && e.inner.id in s
    ensures EvalPred(p, s, outer + [l], db) != Error
    ensures EvalPred(p, s, outer + [l], db) == True <==> EqHolds(CorrelationEquality(p).value, l, s)
    ensures CorrelationEquality(p).value.outer.depth == 1 && CorrelationEquality(p).value.inner.depth == 0
    ensures PreparedPred(p, outer + [l], db)
  {
    NestedCell(CorrelationEquality(p).value.outer, l, outer);
  }

  /** A conjunct that does not reference the owner has the same truth under the owner's frame. */
  lemma ResidualLocal(p: Pred, l: Row, s: Row, outer: seq<Row>, db: Db)
    requires BoundPred(p) && !PredReferencesOuter(p)
    ensures EvalPred(p, s, outer + [l], db) == EvalPred(p, s, outer, db)
    ensures PreparedPred(p, outer + [l], db) == PreparedPred(p, outer, db)
  {
    PredNeedsOwner(p);
    PredLocal(p, s, outer + [l], outer, db);
  }

  ghost predicate PresentAt(es: seq<Equality>, l: Row, s: Row) {
    forall i | 0 <= i < |es| :: es[i].outer.id in l && es[i].inner.id in s
  }

  lemma AllEqualSnoc(es: seq<Equality>, e: Equality, l: Row, s: Row)
    ensures AllEqual(es + [e], l, s) <==> AllEqual(es, l, s) && EqHolds(e, l, s)
  {
    var all := es + [e];
    assert all[|es|] == e && forall i | 0 <= i < |es| :: all[i] == es[i];
    if AllEqual(all, l, s) {
      forall i | 0 <= i < |es| ensures EqHolds(es[i], l, s) {
        assert EqHolds(all[i], l, s);
      }
      assert EqHolds(all[|es|], l, s);
    }
  }

  lemma PresentSnoc(es: seq<Equality>, e: Equality, l: Row, s: Row)
    requires PresentAt(es + [e], l, s)
    ensures PresentAt(es, l, s) && e.outer.id in l && e.inner.id in s
  {
    var all := es + [e];
    assert all[|es|] == e && forall i | 0 <= i < |es| :: all[i] == es[i];
  }

  lemma LastConjunct(ps: seq<Pred>, row: Row, outer: seq<Row>, db: Db)
    requires ps != []
    ensures EvalPreds(ps, row, outer, db) == AndTruth(EvalPreds(ps[..|ps| - 1], row, outer, db), EvalPred(ps[|ps| - 1], row, outer, db))
  {
    hide EvalPred;
  }

  lemma SplitLast(ps: seq<Pred>)
    requires ps != [] && Equalities(ps).Some?
    ensures var n := |ps| - 1;
            && Equalities(ps[..n]).Some?
            && (PredReferencesOuter(ps[n]) ==>
                  && CorrelationEquality(ps[n]).Some? && Residuals(ps) == Residuals(ps[..n])
                  && Equalities(ps).value == Equalities(ps[..n]).value + [CorrelationEquality(ps[n]).value])
            && (!PredReferencesOuter(ps[n]) ==>
                  Residuals(ps) == Residuals(ps[..n]) + [ps[n]] && Equalities(ps).value == Equalities(ps[..n]).value)
  {
    hide PredReferencesOuter, CorrelationEquality;
    assert Residuals(ps[..|ps| - 1]) + [] == Residuals(ps[..|ps| - 1]);
  }

  /** The block's filter, for one owner row: the residual conjuncts and the equalities, which cannot fail. */
  lemma {:induction false} BlockConjuncts(ps: seq<Pred>, es: seq<Equality>, l: Row, s: Row, outer: seq<Row>, db: Db)
    requires BoundPreds(ps) && Equalities(ps) == Some(es) && PresentAt(es, l, s)
    ensures EvalPreds(ps, s, outer + [l], db) == Error <==> EvalPreds(Residuals(ps), s, outer, db) == Error
    ensures EvalPreds(ps, s, outer + [l], db) == True <==> EvalPreds(Residuals(ps), s, outer, db) == True && AllEqual(es, l, s)
  {
    hide EvalPred, EvalPreds, PredReferencesOuter, CorrelationEquality, EqHolds, AllEqual, PresentAt, BoundPred, BoundPreds, Residuals, Equalities;
    if ps == [] {
      NoConjuncts(l, s, outer, db);
    } else {
      var n := |ps| - 1;
      BoundLast(ps);
      var p, init := ps[n], Residuals(ps[..n]);
      SplitLast(ps);
      LastConjunct(ps, s, outer + [l], db);
      if PredReferencesOuter(p) {
        var prev := Equalities(ps[..n]).value;
        var e := CorrelationEquality(p).value;
        PresentSnoc(prev, e, l, s);
        AllEqualSnoc(prev, e, l, s);
        BlockConjuncts(ps[..n], prev, l, s, outer, db);
        CorrelatedEquality(p, l, s, outer, db);
      } else {
        ConjunctLast(init, p, s, outer, db);
        BlockConjuncts(ps[..n], es, l, s, outer, db);
        ResidualLocal(p, l, s, outer, db);
      }
    }
  }

  lemma NoConjuncts(l: Row, s: Row, outer: seq<Row>, db: Db)
    ensures AllEqual([], l, s) && Residuals([]) == [] && Equalities([]) == Some([])
    ensures EvalPreds([], s, outer, db) == True && EvalPreds([], s, outer + [l], db) == True
  {
  }

  lemma BoundLast(ps: seq<Pred>)
    requires BoundPreds(ps) && ps != []
    ensures BoundPreds(ps[..|ps| - 1]) && BoundPred(ps[|ps| - 1])
  {
    hide BoundPred;
  }

  // ---------------------------------------------------------------- what the subquery returns

  function ProjectedRow(projs: seq<Projection>, s: Row, outer: seq<Row>, db: Db): Row {
    match EvalProjs(projs, s, outer, db)
    case Fails => map[]
    case Ok(cells) => MakeRow(Ids(ProjectHeader(projs)), cells)
  }

  function ProjectedRowsOf(projs: seq<Projection>, rows: seq<Row>, outer: seq<Row>, db: Db): (r: seq<Row>)
    ensures |r| == |rows| && forall i | 0 <= i < |r| :: r[i] == ProjectedRow(projs, rows[i], outer, db)
  {
    seq(|rows|, i requires 0 <= i < |rows| => ProjectedRow(projs, rows[i], outer, db))
  }

  /** Every row can be projected. */
  ghost predicate AllProject(projs: seq<Projection>, rows: seq<Row>, outer: seq<Row>, db: Db) {
    forall i | 0 <= i < |rows| :: EvalProjs(projs, rows[i], outer, db).Ok?
  }

  /** A projection is abandoned exactly at a row that cannot be projected. */
  lemma ProjectRelIs(projs: seq<Projection>, rel: Rel, outer: seq<Row>, db: Db)
    requires DistinctIds(ProjectHeader(projs))
    ensures ProjectRel(ProjectHeader(projs), rel, ProjectFn(projs, outer, db)) ==
            if AllProject(projs, rel.rows, outer, db) then Ok(Rel(ProjectHeader(projs), ProjectedRowsOf(projs, rel.rows, outer, db))) else Fails
  {
    hide EvalProjs, DistinctIds;
    var f := ProjectFn(projs, outer, db);
    ProjectFnAt(projs, outer, db);
    if AllProject(projs, rel.rows, outer, db) {
      forall i | 0 <= i < |rel.rows| ensures f(rel.rows[i]) == Ok(ProjectedRowsOf(projs, rel.rows, outer, db)[i]) {
      }
      MapAllIs(rel.rows, f, ProjectedRowsOf(projs, rel.rows, outer, db));
    } else {
      var i :| 0 <= i < |rel.rows| && EvalProjs(projs, rel.rows[i], outer, db).Fails?;
      assert f(rel.rows[i]).Fails?;
    }
  }

  lemma SourceUnderOwner(sub: Subplan, l: Row, outer: seq<Row>, db: Db)
    requires DecorrelatableShape(sub.plan) && BoundSub(sub) && !PlanReferencesOuter(Source(sub))
    ensures Eval(Source(sub), outer + [l], db) == Eval(Source(sub), outer, db)
    ensures Prepared(Source(sub), outer + [l], db) == Prepared(Source(sub), outer, db)
    ensures BoundPreds(sub.plan.kids[0].op.preds) && BoundOp(sub.plan.op)
  {
    assert BoundPlan(sub.plan) && BoundPlan(sub.plan.kids[0]) && BoundPlan(Source(sub));
    assert BoundOp(sub.plan.kids[0].op);
    PlanNeedsOwner(Source(sub));
    EvalLocal(Source(sub), outer + [l], outer, db);
  }

  lemma ProjectionsUnderOwner(projs: seq<Projection>, s: Row, l: Row, outer: seq<Row>, db: Db)
    requires BoundOp(Project(projs)) && forall i | 0 <= i < |projs| :: !ScalarReferencesOuter(projs[i].expr)
    ensures EvalProjs(projs, s, outer + [l], db) == EvalProjs(projs, s, outer, db)
    ensures PreparedOp(Project(projs), outer + [l], db) == PreparedOp(Project(projs), outer, db)
  {
    ProjsNeedOwner(projs);
    ProjsLocal(projs, s, outer + [l], outer, db);
  }

  lemma OwnerHasColumns(es: seq<Equality>, lh: seq<Field>, h: seq<Field>, l: Row, s: Row)
    requires RowFits(lh, l) && RowFits(h, s)
    requires forall i | 0 <= i < |es| :: Has(h, es[i].inner) && Has(lh, es[i].outer)
    ensures PresentAt(es, l, s)
  {
    forall i | 0 <= i < |es| ensures es[i].outer.id in l && es[i].inner.id in s {
      HasCell(h, s, es[i].inner);
      HasCell(lh, l, es[i].outer);
    }
  }

  /** The block's filter for one owner row, over the source rows: abandoned where the residuals are, and otherwise
    keeping the rows that pass them and match the owner. */
  lemma BlockFilter(sub: Subplan, es: seq<Equality>, lh: seq<Field>, l: Row, src: Rel, outer: seq<Row>, db: Db)
    requires BlockBound(sub, es, src.header, lh, db) && RowFits(lh, l) && WellFormedRel(src)
    ensures FilterRel(src, PredsFn(sub.plan.kids[0].op.preds, outer + [l], db)) ==
            match FilterRel(src, PredsFn(Residuals(sub.plan.kids[0].op.preds), outer, db))
            case Fails => Fails
            case Ok(kept) => Ok(Rel(src.header, Keep(kept.rows, MatchesOwner(es, l))))
  {
    hide EvalPred, EvalPreds, Equalities, Residuals, AllEqual, PresentAt, PlanReferencesOuter, BoundSub, Has, ScalarReferencesOuter, OutputColumns, RowFits;
    var ps := sub.plan.kids[0].op.preds;
    SourceUnderOwner(sub, l, outer, db);
    var f, g, m := PredsFn(ps, outer + [l], db), PredsFn(Residuals(ps), outer, db), MatchesOwner(es, l);
    PredsFnAt(ps, outer + [l], db);
    PredsFnAt(Residuals(ps), outer, db);
    forall i | 0 <= i < |src.rows|
      ensures f(src.rows[i]) == Error <==> g(src.rows[i]) == Error
      ensures f(src.rows[i]) == True <==> g(src.rows[i]) == True && m(src.rows[i])
    {
      OwnerHasColumns(es, lh, src.header, l, src.rows[i]);
      BlockConjuncts(ps, es, l, src.rows[i], outer, db);
    }
    hide BlockBound, PredsFn, MatchesOwner;
    NarrowerFilter(src, f, g, m);
  }

  /** A filter that fails where `g` fails and keeps what `g` and `m` both keep. */
  lemma NarrowerFilter(rel: Rel, f: Row -> Truth, g: Row -> Truth, m: Row -> bool)
    requires forall i | 0 <= i < |rel.rows| :: f(rel.rows[i]) == Error <==> g(rel.rows[i]) == Error
    requires forall i | 0 <= i < |rel.rows| :: f(rel.rows[i]) == True <==> g(rel.rows[i]) == True && m(rel.rows[i])
    ensures FilterRel(rel, f) == match FilterRel(rel, g) case Fails => Fails case Ok(kept) => Ok(Rel(rel.header, Keep(kept.rows, m)))
  {
    hide FlatMap, Keep;
    FlatMapFails(rel.rows, KeepTrue(f));
    FlatMapFails(rel.rows, KeepTrue(g));
    assert forall i | 0 <= i < |rel.rows| :: KeepTrue(f)(rel.rows[i]).Fails? <==> KeepTrue(g)(rel.rows[i]).Fails?;
    if FilterRel(rel, g).Ok? {
      forall i | 0 <= i < |rel.rows| ensures f(rel.rows[i]) != Error && g(rel.rows[i]) != Error {
        assert KeepTrue(g)(rel.rows[i]).Ok?;
      }
      FilterIsKeep(rel.rows, f);
      FilterIsKeep(rel.rows, g);
      KeepKeep(rel.rows, IsTrue(g), m);
      KeepAgree(rel.rows, IsTrue(f), Conj(IsTrue(g), m));
    }
  }

  /** Preparing the block's conjuncts under the owner's frame is preparing the residual ones. */
  lemma {:induction false} BlockPrepared(ps: seq<Pred>, outer: seq<Row>, l: Row, db: Db)
    requires BoundPreds(ps) && Equalities(ps).Some?
    ensures PreparedPreds(ps, outer + [l], db) <==> PreparedPreds(Residuals(ps), outer, db)
  {
    hide EvalPred, PredReferencesOuter, PreparedPreds, BoundPred, PreparedPred;
    if ps == [] {
      TrueNeedsNothing(FilterRules.CANONICAL_TRUE, outer + [l], db);
      TrueNeedsNothing(FilterRules.CANONICAL_TRUE, outer, db);
    } else {
      var n := |ps| - 1;
      BoundLast(ps);
      PreparedSnoc(ps, outer + [l], db);
      SplitLast(ps);
      BlockPrepared(ps[..n], outer, l, db);
      if PredReferencesOuter(ps[n]) {
        EqualityPrepared(ps[n], outer + [l], db);
      } else {
        PreparedAppend(Residuals(ps[..n]), [ps[n]], outer, db);
        ResidualLocal(ps[n], l, map[], outer, db);
        OnePrepared(ps[n], outer, db);
      }
    }
  }

  lemma EqualityPrepared(p: Pred, outer: seq<Row>, db: Db)
    requires CorrelationEquality(p).Some?
    ensures PreparedPred(p, outer, db)
  {
  }

  lemma OnePrepared(p: Pred, outer: seq<Row>, db: Db)
    ensures PreparedPreds([p], outer, db) <==> PreparedPred(p, outer, db)
  {
    hide PreparedPred;
    var ps := [p];
    assert PreparedPreds(ps, outer, db) ==> PreparedPred(ps[0], outer, db);
  }

  lemma OnePredicate(p: Pred, row: Row, outer: seq<Row>, db: Db)
    ensures EvalPreds([p], row, outer, db) == EvalPred(p, row, outer, db)
  {
    hide EvalPred;
    ConjunctLast([], p, row, outer, db);
    assert [] + [p] == [p];
  }

  lemma OneProjection(name: string, e: Scalar)
    ensures DistinctIds(ProjectHeader([Projection(name, e)]))
  {
  }

  lemma SameProjection(projs: seq<Projection>, rel: Rel, o1: seq<Row>, o2: seq<Row>, db: Db)
    requires forall s: Row :: EvalProjs(projs, s, o1, db) == EvalProjs(projs, s, o2, db)
    ensures ProjectRel(ProjectHeader(projs), rel, ProjectFn(projs, o1, db)) == ProjectRel(ProjectHeader(projs), rel, ProjectFn(projs, o2, db))
  {
    hide EvalProjs;
    ProjectFnAt(projs, o1, db);
    ProjectFnAt(projs, o2, db);
    MapAllAgree(rel.rows, ProjectFn(projs, o1, db), ProjectFn(projs, o2, db));
  }

  /** The block's filter node under the owner's frame, as a narrower base. */
  lemma BlockFilterRuns(sub: Subplan, es: seq<Equality>, h: seq<Field>, lh: seq<Field>, l: Row, outer: seq<Row>, db: Db)
    requires BlockBound(sub, es, h, lh, db) && RowFits(lh, l)
    ensures Run(sub.plan.kids[0], outer + [l], db) ==
            match Run(BasePlan(sub), outer, db)
            case Fails => Fails
            case Ok(base) => Ok(Rel(h, Keep(base.rows, MatchesOwner(es, l))))
    ensures Run(BasePlan(sub), outer, db).Ok? ==> Run(BasePlan(sub), outer, db).value.header == h && WellFormedRel(Run(BasePlan(sub), outer, db).value)
  {
    var filter, source := sub.plan.kids[0], Source(sub);
    var ps := filter.op.preds;
    assert filter == Node(filter.perm, Filter(ps), [source]);
    SourceUnderOwner(sub, l, outer, db);
    EvalFits(source, outer, db);
    EvalFits(BasePlan(sub), outer, db);
    BlockPrepared(ps, outer, l, db);
    if Eval(source, outer, db).Ok? {
      OutputColumnsAreHeader(source, outer, db);
      BlockFilter(sub, es, lh, l, Eval(source, outer, db).value, outer, db);
    }
    assert Run(source, outer + [l], db) == Run(source, outer, db);
    RunFilter(filter.perm, ps, source, outer + [l], db);
    RunFiltered(filter.perm, Residuals(ps), source, outer, db);
    hide Eval, Prepared, PreparedPreds, PredsFn, Residuals, Equalities, WellFormedRel, RowFits, PlanReferencesOuter, BoundSub, OutputColumns, Keep, Filtered;
  }

  /** For one owner row, the subquery projects the kept rows that match it, unless the base is abandoned. */
  lemma SubqueryIs(sub: Subplan, es: seq<Equality>, h: seq<Field>, lh: seq<Field>, l: Row, outer: seq<Row>, db: Db)
    requires BlockBound(sub, es, h, lh, db) && RowFits(lh, l)
    ensures EvalSub(sub, l, outer, db) ==
            if BaseRuns(sub, outer, db) && AllProject(sub.plan.op.projs, Keep(KeptRows(sub, outer, db), MatchesOwner(es, l)), outer, db)
            then Ok(Rel(ProjectHeader(sub.plan.op.projs),
                        ProjectedRowsOf(sub.plan.op.projs, Keep(KeptRows(sub, outer, db), MatchesOwner(es, l)), outer, db)))
            else Fails
  {
    var p, projs, inner := sub.plan, sub.plan.op.projs, outer + [l];
    assert p == Node(p.perm, Project(projs), [p.kids[0]]);
    SourceUnderOwner(sub, l, outer, db);
    assert EvalSub(sub, l, outer, db) == Run(p, inner, db);
    hide Run, PreparedOp, Keep, DistinctIds, EvalProjs, BoundSub, Equalities, Residuals, PlanReferencesOuter, RowFits, OutputColumns, BasePlan, AllProject,
         MatchesOwner;
    BlockFilterRuns(sub, es, h, lh, l, outer, db);
    RunProject(p.perm, projs, p.kids[0], inner, db);
    forall s: Row ensures EvalProjs(projs, s, inner, db) == EvalProjs(projs, s, outer, db) {
      ProjectionsUnderOwner(projs, s, l, outer, db);
    }
    ProjectionsUnderOwner(projs, map[], l, outer, db);
    if Run(BasePlan(sub), outer, db).Ok? {
      var rel := Rel(h, Keep(KeptRows(sub, outer, db), MatchesOwner(es, l)));
      SameProjection(projs, rel, inner, outer, db);
      if DistinctIds(ProjectHeader(projs)) {
        ProjectRelIs(projs, rel, outer, db);
      }
    }
  }

  // ---------------------------------------------------------------- the right side of the join

  /** A plan that projects the block's uncorrelated rows. */
  function RightPlan(sub: Subplan, projs: seq<Projection>): Plan
    requires DecorrelatableShape(sub.plan)
  {
    sub.plan.(op := Project(projs), kids := [BasePlan(sub)])
  }

  /** Right-side projections: the block's own, the hidden ones, and possibly copies of its own under other names. */
  ghost predicate RightProjections(projs: seq<Projection>, own: seq<Projection>, es: seq<Equality>, names: seq<string>) {
    && |names| == |es| && |projs| >= |own| + |es|
    && (forall i | 0 <= i < |own| :: projs[i] == own[i])
    && (forall i | 0 <= i < |es| :: projs[|own| + i] == Projection(names[i], Column(es[i].inner)))
    && (forall i | |own| + |es| <= i < |projs| :: exists j :: 0 <= j < |own| && projs[i].expr == own[j].expr)
    && (DistinctIds(ProjectHeader(own)) <==> DistinctIds(ProjectHeader(projs)))
  }

  lemma RightExpr(projs: seq<Projection>, own: seq<Projection>, es: seq<Equality>, names: seq<string>, i: int)
    requires RightProjections(projs, own, es, names) && 0 <= i < |projs|
    ensures (exists j :: 0 <= j < |own| && projs[i].expr == own[j].expr) || (exists j :: 0 <= j < |es| && projs[i].expr == Column(es[j].inner))
  {
    hide DistinctIds;
    if i < |own| {
      assert projs[i].expr == own[i].expr;
    } else if i < |own| + |es| {
      var j := i - |own|;
      assert projs[|own| + j] == Projection(names[j], Column(es[j].inner));
      assert 0 <= j < |es| && projs[i].expr == Column(es[j].inner);
    } else {
      var j :| 0 <= j < |own| && projs[i].expr == own[j].expr;
    }
  }

  /** The hidden columns change neither which rows can be projected nor what has to be prepared. */
  lemma SameRowsProject(projs: seq<Projection>, own: seq<Projection>, es: seq<Equality>, names: seq<string>, h: seq<Field>, s: Row, outer: seq<Row>, db: Db)
    requires RightProjections(projs, own, es, names) && RowFits(h, s) && forall i | 0 <= i < |es| :: Has(h, es[i].inner) && es[i].inner.depth == 0
    ensures EvalProjs(projs, s, outer, db).Ok? <==> EvalProjs(own, s, outer, db).Ok?
  {
    hide EvalScalar, EvalProjs, RightProjections, Has, RowFits;
    ProjsPointwise(projs, s, outer, db);
    ProjsPointwise(own, s, outer, db);
    if EvalProjs(own, s, outer, db).Ok? {
      forall i | 0 <= i < |projs| ensures EvalScalar(projs[i].expr, s, outer, db).Ok? {
        RightExpr(projs, own, es, names, i);
        if j :| 0 <= j < |es| && projs[i].expr == Column(es[j].inner) {
          InnerColumnReads(h, es[j].inner, s, outer, db);
        }
      }
    }
    OwnFirst(projs, own, es, names);
  }

  lemma OwnFirst(projs: seq<Projection>, own: seq<Projection>, es: seq<Equality>, names: seq<string>)
    requires RightProjections(projs, own, es, names)
    ensures |own| <= |projs| && forall i | 0 <= i < |own| :: projs[i] == own[i]
  {
  }

  lemma InnerColumnReads(h: seq<Field>, c: ColumnRef, s: Row, outer: seq<Row>, db: Db)
    requires RowFits(h, s) && Has(h, c) && c.depth == 0
    ensures c.id in s && s[c.id].Type() == c.ty && EvalScalar(Column(c), s, outer, db) == Ok(s[c.id])
  {
    HasCell(h, s, c);
  }

  lemma SamePreparation(projs: seq<Projection>, own: seq<Projection>, es: seq<Equality>, names: seq<string>, outer: seq<Row>, db: Db)
    requires RightProjections(projs, own, es, names)
    ensures PreparedOp(Project(projs), outer, db) <==> PreparedOp(Project(own), outer, db)
  {
    OwnFirst(projs, own, es, names);
    hide RightProjections;
    if PreparedOp(Project(own), outer, db) {
      forall i | 0 <= i < |projs| ensures PreparedScalar(projs[i].expr, outer, db) {
        RightExpr(projs, own, es, names, i);
      }
    }
    if PreparedOp(Project(projs), outer, db) {
      forall i | 0 <= i < |own| ensures PreparedScalar(own[i].expr, outer, db) {
        assert PreparedScalar(projs[i].expr, outer, db);
      }
    }
  }

  /** Everything the rules rely on for one block, its owner and its right-side projections. */
  ghost predicate JoinBlock(sub: Subplan, es: seq<Equality>, names: seq<string>, projs: seq<Projection>, lh: seq<Field>, h: seq<Field>, db: Db) {
    && BlockBound(sub, es, h, lh, db) && RightProjections(projs, sub.plan.op.projs, es, names)
    && (forall i | 0 <= i < |es| :: es[i].inner.depth == 0)
  }

  /** The base of a bound block: its columns, and rows that fit them. */
  lemma BaseFits(sub: Subplan, es: seq<Equality>, h: seq<Field>, lh: seq<Field>, outer: seq<Row>, db: Db)
    requires BlockBound(sub, es, h, lh, db)
    ensures Run(BasePlan(sub), outer, db).Ok? ==> Run(BasePlan(sub), outer, db).value == Rel(h, KeptRows(sub, outer, db))
    ensures forall k | 0 <= k < |KeptRows(sub, outer, db)| :: RowFits(h, KeptRows(sub, outer, db)[k])
  {
    var filter, source := sub.plan.kids[0], Source(sub);
    RunFiltered(filter.perm, Residuals(filter.op.preds), source, outer, db);
    EvalFits(BasePlan(sub), outer, db);
    if Eval(source, outer, db).Ok? {
      OutputColumnsAreHeader(source, outer, db);
    }
    hide Eval, Prepared, PreparedPreds, PredsFn, Residuals, Equalities, RowFits, PlanReferencesOuter, BoundSub, OutputColumns, Filtered, FlatMap;
  }

  /** The right plan runs exactly when the base does and every kept row can be projected. */
  lemma RightIs(sub: Subplan, es: seq<Equality>, names: seq<string>, projs: seq<Projection>, lh: seq<Field>, h: seq<Field>, outer: seq<Row>, db: Db)
    requires JoinBlock(sub, es, names, projs, lh, h, db)
    ensures Run(RightPlan(sub, projs), outer, db) ==
            if BaseRuns(sub, outer, db) && AllProject(sub.plan.op.projs, KeptRows(sub, outer, db), outer, db)
            then Ok(Rel(ProjectHeader(projs), RightRows(sub, projs, outer, db)))
            else Fails
    ensures AllProject(sub.plan.op.projs, KeptRows(sub, outer, db), outer, db) <==> AllProject(projs, KeptRows(sub, outer, db), outer, db)
  {
    var own := sub.plan.op.projs;
    assert projs != [] && RightPlan(sub, projs) == Node(sub.plan.perm, Project(projs), [BasePlan(sub)]);
    assert sub.plan.op == Project(own);
    hide Run, Eval, EvalProjs, DistinctIds, Equalities, PlanReferencesOuter, BoundSub, OutputColumns, PreparedOp, RowFits, Has, BasePlan;
    RunProject(sub.plan.perm, projs, BasePlan(sub), outer, db);
    BaseFits(sub, es, h, lh, outer, db);
    SamePreparation(projs, own, es, names, outer, db);
    forall k | 0 <= k < |KeptRows(sub, outer, db)|
      ensures EvalProjs(projs, KeptRows(sub, outer, db)[k], outer, db).Ok? <==> EvalProjs(own, KeptRows(sub, outer, db)[k], outer, db).Ok?
    {
      SameRowsProject(projs, own, es, names, h, KeptRows(sub, outer, db)[k], outer, db);
    }
    if DistinctIds(ProjectHeader(projs)) {
      ProjectRelIs(projs, Rel(h, KeptRows(sub, outer, db)), outer, db);
    }
  }

  // ---------------------------------------------------------------- join predicates on joined rows

  /** The hidden columns of a projected row hold the compared cells. */
  ghost predicate Exposes(es: seq<Equality>, names: seq<string>, r: Row, s: Row)
    requires |names| == |es|
  {
    forall i | 0 <= i < |es| :: Ident("", names[i]) in r && es[i].inner.id in s && r[Ident("", names[i])] == s[es[i].inner.id]
  }

  /** What the join's equality compares: a hidden column that the owner also exposes is read from the owner. */
  ghost predicate EqSeen(e: Equality, name: string, l: Row, s: Row) {
    if Ident("", name) in l then
      e.outer.id in l && !l[e.outer.id].Null? && !l[Ident("", name)].Null? && l[e.outer.id] == l[Ident("", name)]
    else EqHolds(e, l, s)
  }

  /** The owner exposes none of the names. */
  ghost predicate Unexposed(names: seq<string>, lh: seq<Field>) {
    forall i | 0 <= i < |names| :: Ident("", names[i]) !in Names(lh)
  }

  /** Whether the join takes a source row for a match of an owner row. */
  ghost predicate AllSeen(es: seq<Equality>, names: seq<string>, l: Row, s: Row)
    requires |names| == |es|
  {
    forall i | 0 <= i < |es| :: EqSeen(es[i], names[i], l, s)
  }

  lemma AllSeenSnoc(es: seq<Equality>, names: seq<string>, l: Row, s: Row)
    requires |names| == |es| && es != []
    ensures AllSeen(es, names, l, s) <==>
              AllSeen(es[..|es| - 1], names[..|es| - 1], l, s) && EqSeen(es[|es| - 1], names[|es| - 1], l, s)
  {
    hide EqSeen;
    var n := |es| - 1;
    if AllSeen(es[..n], names[..n], l, s) && EqSeen(es[n], names[n], l, s) {
      forall i | 0 <= i < |es| ensures EqSeen(es[i], names[i], l, s) {
        assert i < n ==> EqSeen(es[..n][i], names[..n][i], l, s);
      }
    }
  }

  /** Names the owner does not expose are never read from it. */
  lemma FreeNamesSee(es: seq<Equality>, names: seq<string>, l: Row, s: Row)
    requires |names| == |es| && forall i | 0 <= i < |names| :: Ident("", names[i]) !in l
    ensures AllSeen(es, names, l, s) <==> AllEqual(es, l, s)
  {
    if AllEqual(es, l, s) {
      forall i | 0 <= i < |es| ensures EqSeen(es[i], names[i], l, s) {
        assert EqHolds(es[i], l, s);
      }
    }
    if AllSeen(es, names, l, s) {
      forall i | 0 <= i < |es| ensures EqHolds(es[i], l, s) {
        assert EqSeen(es[i], names[i], l, s);
      }
    }
  }

  lemma JoinEqualityHolds(e: Equality, name: string, l: Row, r: Row, s: Row, outer: seq<Row>, db: Db)
    requires e.outer.id in l && e.inner.id in s && Ident("", name) in r && r[Ident("", name)] == s[e.inner.id]
    ensures EvalPred(JoinEquality(e, name), Joined(l, r), outer, db) != Error
    ensures EvalPred(JoinEquality(e, name), Joined(l, r), outer, db) == True <==> EqSeen(e, name, l, s)
  {
  }

  /** The join predicates are true exactly when the join takes the pair for a match. */
  lemma {:induction false} JoinEqualitiesHold(es: seq<Equality>, names: seq<string>, l: Row, r: Row, s: Row, outer: seq<Row>, db: Db)
    requires |names| == |es| && PresentAt(es, l, s) && Exposes(es, names, r, s)
    ensures EvalPreds(JoinEqualities(es, names), Joined(l, r), outer, db) != Error
    ensures EvalPreds(JoinEqualities(es, names), Joined(l, r), outer, db) == True <==> AllSeen(es, names, l, s)
  {
    hide EvalPred, EqSeen, JoinEquality, Joined;
    if es == [] {
      NoConjuncts(l, s, outer, db);
    } else {
      var n := |es| - 1;
      JoinEqualitiesHold(es[..n], names[..n], l, r, s, outer, db);
      JoinEqualityHolds(es[n], names[n], l, r, s, outer, db);
      assert JoinEqualities(es, names) == JoinEqualities(es[..n], names[..n]) + [JoinEquality(es[n], names[n])];
      ConjunctLast(JoinEqualities(es[..n], names[..n]), JoinEquality(es[n], names[n]), Joined(l, r), outer, db);
      AllSeenSnoc(es, names, l, s);
    }
  }

  /** A projected row holds its projections' cells under their names. */
  lemma ProjectedCell(projs: seq<Projection>, k: int, s: Row, outer: seq<Row>, db: Db)
    requires 0 <= k < |projs| && DistinctIds(ProjectHeader(projs)) && EvalProjs(projs, s, outer, db).Ok?
    ensures var v := EvalScalar(projs[k].expr, s, outer, db);
            var r := ProjectedRow(projs, s, outer, db);
            && v.Ok? && Ident("", projs[k].name) in r
            && r[Ident("", projs[k].name)] == Cast(projs[k].expr.Type(), v.value)
    ensures RowFits(ProjectHeader(projs), ProjectedRow(projs, s, outer, db))
  {
    hide EvalScalar, Cast;
    ProjsPointwise(projs, s, outer, db);
    ProjsFit(projs, s, outer, db);
    MakeRowFits(ProjectHeader(projs), EvalProjs(projs, s, outer, db).value);
    assert ProjectHeader(projs)[k].id == Ident("", projs[k].name);
  }

  lemma RightRowExposes(projs: seq<Projection>, own: seq<Projection>, es: seq<Equality>, names: seq<string>, h: seq<Field>, s: Row, outer: seq<Row>, db: Db)
    requires RightProjections(projs, own, es, names) && DistinctIds(ProjectHeader(projs)) && RowFits(h, s) && EvalProjs(projs, s, outer, db).Ok?
    requires forall i | 0 <= i < |es| :: Has(h, es[i].inner) && es[i].inner.depth == 0
    ensures Exposes(es, names, ProjectedRow(projs, s, outer, db), s)
  {
    hide DistinctIds, Has, ProjectedRow, EvalProjs, RowFits;
    forall i | 0 <= i < |es|
      ensures Ident("", names[i]) in ProjectedRow(projs, s, outer, db) && es[i].inner.id in s
      ensures ProjectedRow(projs, s, outer, db)[Ident("", names[i])] == s[es[i].inner.id]
    {
      ProjectedCell(projs, |own| + i, s, outer, db);
      InnerColumnReads(h, es[i].inner, s, outer, db);
    }
  }

  // ---------------------------------------------------------------- EXISTS and NOT EXISTS

  ghost function RightRows(sub: Subplan, projs: seq<Projection>, outer: seq<Row>, db: Db): (r: seq<Row>)
    requires DecorrelatableShape(sub.plan)
    ensures |r| == |KeptRows(sub, outer, db)|
    ensures forall k | 0 <= k < |r| :: r[k] == ProjectedRow(projs, KeptRows(sub, outer, db)[k], outer, db)
  {
    ProjectedRowsOf(projs, KeptRows(sub, outer, db), outer, db)
  }

  /** The right plan is not abandoned. */
  ghost predicate RightRuns(sub: Subplan, outer: seq<Row>, db: Db)
    requires DecorrelatableShape(sub.plan)
  {
    BaseRuns(sub, outer, db) && AllProject(sub.plan.op.projs, KeptRows(sub, outer, db), outer, db)
  }

  /** Some kept row matches the owner row. */
  ghost predicate HasMatch(sub: Subplan, es: seq<Equality>, l: Row, outer: seq<Row>, db: Db)
    requires DecorrelatableShape(sub.plan)
  {
    exists k :: 0 <= k < |KeptRows(sub, outer, db)| && AllEqual(es, l, KeptRows(sub, outer, db)[k])
  }

  /** Some kept row is taken for a match by the join. */
  ghost predicate SeesMatch(sub: Subplan, es: seq<Equality>, names: seq<string>, l: Row, outer: seq<Row>, db: Db)
    requires DecorrelatableShape(sub.plan) && |names| == |es|
  {
    exists k :: 0 <= k < |KeptRows(sub, outer, db)| && AllSeen(es, names, l, KeptRows(sub, outer, db)[k])
  }

  /** Some kept row that matches the owner row cannot be projected. */
  ghost predicate MatchFails(sub: Subplan, es: seq<Equality>, l: Row, outer: seq<Row>, db: Db)
    requires DecorrelatableShape(sub.plan)
  {
    exists k :: 0 <= k < |KeptRows(sub, outer, db)| && AllEqual(es, l, KeptRows(sub, outer, db)[k]) &&
                EvalProjs(sub.plan.op.projs, KeptRows(sub, outer, db)[k], outer, db).Fails?
  }

  /** Among the rows that match an owner row: whether there is one, and whether all can be projected. */
  lemma MatchingRows(projs: seq<Projection>, es: seq<Equality>, l: Row, kept: seq<Row>, outer: seq<Row>, db: Db)
    ensures Keep(kept, MatchesOwner(es, l)) != [] <==> exists k :: 0 <= k < |kept| && AllEqual(es, l, kept[k])
    ensures AllProject(projs, Keep(kept, MatchesOwner(es, l)), outer, db) <==>
              !exists k :: 0 <= k < |kept| && AllEqual(es, l, kept[k]) && EvalProjs(projs, kept[k], outer, db).Fails?
  {
    hide AllEqual, EvalProjs, Keep;
    var m := MatchesOwner(es, l);
    var q := (s: Row) => EvalProjs(projs, s, outer, db).Fails?;
    KeepSomething(kept, m);
    KeptBlocked(kept, m, q);
    var matching := Keep(kept, m);
    if exists k :: 0 <= k < |kept| && AllEqual(es, l, kept[k]) && EvalProjs(projs, kept[k], outer, db).Fails? {
      var k :| 0 <= k < |kept| && AllEqual(es, l, kept[k]) && EvalProjs(projs, kept[k], outer, db).Fails?;
      assert m(kept[k]) && q(kept[k]);
    }
    if !AllProject(projs, matching, outer, db) {
      var j :| 0 <= j < |matching| && EvalProjs(projs, matching[j], outer, db).Fails?;
      assert q(matching[j]);
    }
    if exists k :: 0 <= k < |kept| && AllEqual(es, l, kept[k]) {
      var k :| 0 <= k < |kept| && AllEqual(es, l, kept[k]);
      assert m(kept[k]);
    }
  }

  lemma ExistsOfSub(sub: Subplan, l: Row, outer: seq<Row>, db: Db)
    ensures EvalExists(sub, l, outer, db) == match EvalSub(sub, l, outer, db) case Fails => Error case Ok(rel) => TruthOf(rel.rows != [])
  {
    hide EvalSub;
  }

  /** The correlated EXISTS, evaluated for one owner row. */
  lemma ExistsIs(sub: Subplan, es: seq<Equality>, h: seq<Field>, lh: seq<Field>, l: Row, outer: seq<Row>, db: Db)
    requires BlockBound(sub, es, h, lh, db) && RowFits(lh, l)
    ensures EvalExists(sub, l, outer, db) ==
            if !BaseRuns(sub, outer, db) || MatchFails(sub, es, l, outer, db) then Error else TruthOf(HasMatch(sub, es, l, outer, db))
  {
    assert DecorrelatableShape(sub.plan);
    hide BlockBound, BaseRuns, AllEqual, EvalProjs, EvalSub, EvalExists, RowFits, Keep, AllProject, MatchesOwner, KeptRows;
    SubqueryIs(sub, es, h, lh, l, outer, db);
    ExistsOfSub(sub, l, outer, db);
    MatchingRows(sub.plan.op.projs, es, l, KeptRows(sub, outer, db), outer, db);
  }

  /** On every joined pair, the join predicates say whether the source row matches the owner. */
  lemma JoinSeesMatches(sub: Subplan, es: seq<Equality>, names: seq<string>, projs: seq<Projection>, lh: seq<Field>, h: seq<Field>, l: Row, k: int,
                        outer: seq<Row>, db: Db)
    requires JoinBlock(sub, es, names, projs, lh, h, db) && RowFits(lh, l) && RightRuns(sub, outer, db)
    requires 0 <= k < |KeptRows(sub, outer, db)|
    ensures |names| == |es|
    ensures var t := EvalPreds(JoinEqualities(es, names), Joined(l, RightRows(sub, projs, outer, db)[k]), outer, db);
            t != Error && (t == True <==> AllSeen(es, names, l, KeptRows(sub, outer, db)[k]))
    ensures RowFits(h, KeptRows(sub, outer, db)[k]) && EvalProjs(projs, KeptRows(sub, outer, db)[k], outer, db).Ok?
    ensures DistinctIds(ProjectHeader(projs))
  {
    var s := KeptRows(sub, outer, db)[k];
    OwnerKeys(lh, l);
    hide Run, EvalPreds, DistinctIds, AllSeen, Equalities, PlanReferencesOuter, BoundSub, Exposes, PresentAt, ProjectedRow, JoinEqualities, EvalProjs,
         OutputColumns, RowFits, Has, Joined, Names;
    RightIs(sub, es, names, projs, lh, h, outer, db);
    BaseFits(sub, es, h, lh, outer, db);
    RightRowExposes(projs, sub.plan.op.projs, es, names, h, s, outer, db);
    OwnerHasColumns(es, lh, h, l, s);
    JoinEqualitiesHold(es, names, l, ProjectedRow(projs, s, outer, db), s, outer, db);
  }

  lemma OwnerKeys(lh: seq<Field>, l: Row)
    requires RowFits(lh, l)
    ensures l.Keys == Names(lh)
  {
  }

  lemma {:induction false} ProbeIs(f: Row -> Truth, l: Row, rs: seq<Row>)
    requires forall j | 0 <= j < |rs| :: f(Joined(l, rs[j])) != Error
    ensures Probe(f, l, rs) == TruthOf(exists j :: 0 <= j < |rs| && f(Joined(l, rs[j])) == True)
  {
    if rs != [] {
      var rest := rs[1..];
      assert forall j | 0 <= j < |rest| :: rest[j] == rs[j + 1];
      ProbeIs(f, l, rest);
      if exists j :: 0 <= j < |rs| && f(Joined(l, rs[j])) == True {
        var j :| 0 <= j < |rs| && f(Joined(l, rs[j])) == True;
        assert j > 0 ==> f(Joined(l, rest[j - 1])) == True;
      }
    }
  }

  lemma {:induction false} KeepSomething<T>(xs: seq<T>, b: T -> bool)
    ensures Keep(xs, b) != [] <==> exists k :: 0 <= k < |xs| && b(xs[k])
  {
    if xs != [] {
      var n := |xs| - 1;
      KeepSomething(xs[..n], b);
      if exists k :: 0 <= k < n && b(xs[..n][k]) {
        var k :| 0 <= k < n && b(xs[..n][k]);
        assert b(xs[k]);
      }
      if exists k :: 0 <= k < |xs| && b(xs[k]) {
        var k :| 0 <= k < |xs| && b(xs[k]);
        assert k < n ==> b(xs[..n][k]);
      }
    }
  }

  lemma {:induction false} KeptBlocked(rows: seq<Row>, b: Row -> bool, q: Row -> bool)
    ensures (exists j :: 0 <= j < |Keep(rows, b)| && q(Keep(rows, b)[j])) <==> exists k :: 0 <= k < |rows| && b(rows[k]) && q(rows[k])
  {
    KeptFrom(rows, b);
    if exists j :: 0 <= j < |Keep(rows, b)| && q(Keep(rows, b)[j]) {
      var j :| 0 <= j < |Keep(rows, b)| && q(Keep(rows, b)[j]);
      var k :| 0 <= k < |rows| && rows[k] == Keep(rows, b)[j];
      assert b(rows[k]) && q(rows[k]);
    }
    if exists k :: 0 <= k < |rows| && b(rows[k]) && q(rows[k]) {
      var k :| 0 <= k < |rows| && b(rows[k]) && q(rows[k]);
      KeptAt(rows, b, k);
      var j :| 0 <= j < |Keep(rows, b)| && Keep(rows, b)[j] == rows[k];
      assert q(Keep(rows, b)[j]);
    }
  }

  lemma {:induction false} KeptAt(rows: seq<Row>, b: Row -> bool, k: int)
    requires 0 <= k < |rows| && b(rows[k])
    ensures exists j :: 0 <= j < |Keep(rows, b)| && Keep(rows, b)[j] == rows[k]
  {
    var n := |rows| - 1;
    var kept := Keep(rows[..n], b);
    if k == n {
      assert Keep(rows, b)[|kept|] == rows[k];
    } else {
      KeptAt(rows[..n], b, k);
      var j :| 0 <= j < |kept| && kept[j] == rows[..n][k];
      assert Keep(rows, b)[j] == rows[k];
    }
  }

  /** Where the right plan runs, probing it says for every owner row whether the join sees a match. */
  lemma ProbeSeesMatch(sub: Subplan, es: seq<Equality>, names: seq<string>, projs: seq<Projection>, lh: seq<Field>, h: seq<Field>, l: Row,
                       outer: seq<Row>, db: Db)
    requires JoinBlock(sub, es, names, projs, lh, h, db) && RowFits(lh, l) && RightRuns(sub, outer, db)
    ensures |names| == |es|
    ensures Probe(PredsFn(JoinEqualities(es, names), outer, db), l, RightRows(sub, projs, outer, db)) == TruthOf(SeesMatch(sub, es, names, l, outer, db))
  {
    ExistsOf(sub, es, names, projs, lh, h, l, outer, db);
    hide EvalPreds, AllSeen, JoinEqualities, ProjectedRow, RightRuns, JoinBlock, RowFits, EvalProjs;
    var rows, kept := RightRows(sub, projs, outer, db), KeptRows(sub, outer, db);
    var f := PredsFn(JoinEqualities(es, names), outer, db);
    PredsFnAt(JoinEqualities(es, names), outer, db);
    forall k | 0 <= k < |rows| ensures f(Joined(l, rows[k])) != Error && (f(Joined(l, rows[k])) == True <==> AllSeen(es, names, l, kept[k])) {
      JoinSeesMatches(sub, es, names, projs, lh, h, l, k, outer, db);
    }
    ProbeIs(f, l, rows);
    if SeesMatch(sub, es, names, l, outer, db) {
      var k :| 0 <= k < |kept| && AllSeen(es, names, l, kept[k]);
      assert f(Joined(l, rows[k])) == True;
    }
  }

  /** Where the owner exposes none of the hidden names, the join sees exactly the matches. */
  lemma FreeNamesMatch(sub: Subplan, es: seq<Equality>, names: seq<string>, lh: seq<Field>, l: Row, outer: seq<Row>, db: Db)
    requires DecorrelatableShape(sub.plan) && |names| == |es| && RowFits(lh, l)
    requires Unexposed(names, lh)
    ensures SeesMatch(sub, es, names, l, outer, db) <==> HasMatch(sub, es, l, outer, db)
  {
    OwnerKeys(lh, l);
    hide AllSeen, AllEqual, KeptRows, RowFits;
    var kept := KeptRows(sub, outer, db);
    forall k | 0 <= k < |kept| ensures AllSeen(es, names, l, kept[k]) <==> AllEqual(es, l, kept[k]) {
      FreeNamesSee(es, names, l, kept[k]);
    }
    if HasMatch(sub, es, l, outer, db) {
      var k :| 0 <= k < |kept| && AllEqual(es, l, kept[k]);
      assert AllSeen(es, names, l, kept[k]);
    }
  }

  /** Then probing the right plan answers EXISTS for every owner row. */
  lemma ProbeAnswersExists(sub: Subplan, es: seq<Equality>, names: seq<string>, projs: seq<Projection>, lh: seq<Field>, h: seq<Field>, l: Row,
                           outer: seq<Row>, db: Db)
    requires JoinBlock(sub, es, names, projs, lh, h, db) && RowFits(lh, l) && RightRuns(sub, outer, db)
    requires Unexposed(names, lh)
    ensures |names| == |es|
    ensures Probe(PredsFn(JoinEqualities(es, names), outer, db), l, RightRows(sub, projs, outer, db)) == EvalExists(sub, l, outer, db)
  {
    ExistsOf(sub, es, names, projs, lh, h, l, outer, db);
    ProbeSeesMatch(sub, es, names, projs, lh, h, l, outer, db);
    FreeNamesMatch(sub, es, names, lh, l, outer, db);
    hide *;
  }

  lemma ExistsOf(sub: Subplan, es: seq<Equality>, names: seq<string>, projs: seq<Projection>, lh: seq<Field>, h: seq<Field>, l: Row,
                 outer: seq<Row>, db: Db)
    requires JoinBlock(sub, es, names, projs, lh, h, db) && RowFits(lh, l) && RightRuns(sub, outer, db)
    ensures |names| == |es| && EvalExists(sub, l, outer, db) == TruthOf(HasMatch(sub, es, l, outer, db))
  {
    hide BlockBound, BaseRuns, AllEqual, EvalProjs, EvalSub, RowFits, EvalExists;
    ExistsIs(sub, es, h, lh, l, outer, db);
  }

  // ---------------------------------------------------------------- from a filter to a join

  function Others(ps: seq<Pred>, i: int): seq<Pred>
    requires 0 <= i < |ps|
  {
    ps[..i] + ps[i + 1..]
  }

  lemma ConjunctionSplits(ps: seq<Pred>, i: int, row: Row, outer: seq<Row>, db: Db)
    requires 0 <= i < |ps|
    ensures EvalPreds(ps, row, outer, db) == AndTruth(EvalPred(ps[i], row, outer, db), EvalPreds(Others(ps, i), row, outer, db))
  {
    hide EvalPred;
    assert ps == ps[..i] + [ps[i]] + ps[i + 1..];
    PredsAppend(ps[..i] + [ps[i]], ps[i + 1..], row, outer, db);
    ConjunctLast(ps[..i], ps[i], row, outer, db);
    PredsAppend(ps[..i], ps[i + 1..], row, outer, db);
  }

  function TruthAt(p: Pred, outer: seq<Row>, db: Db): Row -> Truth {
    row => EvalPred(p, row, outer, db)
  }

  lemma OthersPrepared(ps: seq<Pred>, i: int, outer: seq<Row>, db: Db)
    requires 0 <= i < |ps|
    ensures PreparedPreds(ps, outer, db) <==> PreparedPred(ps[i], outer, db) && PreparedPreds(Others(ps, i), outer, db)
  {
    hide PreparedPred, PreparedPreds;
    assert ps == ps[..i] + [ps[i]] + ps[i + 1..];
    PreparedAppend(ps[..i] + [ps[i]], ps[i + 1..], outer, db);
    PreparedAppend(ps[..i], [ps[i]], outer, db);
    PreparedAppend(ps[..i], ps[i + 1..], outer, db);
    OnePrepared(ps[i], outer, db);
  }

  /** A filter, split into one conjunct and the others. */
  lemma ConjunctionFn(ps: seq<Pred>, i: int, outer: seq<Row>, db: Db)
    requires 0 <= i < |ps|
    ensures forall row :: PredsFn(ps, outer, db)(row) == AndTruth(TruthAt(ps[i], outer, db)(row), PredsFn(Others(ps, i), outer, db)(row))
  {
    hide EvalPred, EvalPreds, Others;
    PredsFnAt(ps, outer, db);
    PredsFnAt(Others(ps, i), outer, db);
    forall row: Row ensures EvalPreds(ps, row, outer, db) == AndTruth(EvalPred(ps[i], row, outer, db), EvalPreds(Others(ps, i), row, outer, db)) {
      ConjunctionSplits(ps, i, row, outer, db);
    }
  }

  /** A join that keeps exactly the left rows on which a predicate is true is a filter. */
  lemma JoinIsFilter(kind: JoinKind, f: Row -> Truth, m: Row -> Truth, left: Rel, right: Rel, t: Row -> Truth)
    requires !EmitsRight(kind) && WellFormedRel(left)
    requires forall k | 0 <= k < |left.rows| ::
               t(left.rows[k]) != Error && JoinOne(kind, f, m, right)(left.rows[k]) == Ok(if t(left.rows[k]) == True then [left.rows[k]] else [])
    ensures JoinRel(kind, f, m, left, right) == FilterRel(left, t)
  {
    hide JoinOne, RowFits;
    FlatMapAgree(left.rows, JoinOne(kind, f, m, right), KeepTrue(t));
    DistinctLeft(left);
    hide DistinctIds, FlatMap;
  }

  lemma DistinctLeft(left: Rel)
    requires WellFormedRel(left)
    ensures DistinctIds(left.header)
  {
  }
}
