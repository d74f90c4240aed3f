/** Running one node over its inputs: eager preparation and evaluation together. */
module PlanRuns {
  import opened Plans
  import opened Sequences
  import opened Values
  import opened Algebra
  import opened Semantics
  import opened Shapes
  import opened Correlation
  import opened FilterRuleSoundness
  import opened RewriteFixpoint
  import opened JoinAlgebra
  import opened JoinRules

  /** The columns a plan exposes. */
  function ColumnsOf(p: Plan, db: Db): seq<Field> {
    match OutputColumns(p, db) case None => [] case Some(h) => h
  }

  /** The rows of a plan fit the columns it exposes. */
  lemma RunFits(p: Plan, outer: seq<Row>, db: Db)
    requires Run(p, outer, db).Ok?
    ensures var rel := Run(p, outer, db).value;
            && rel.header == ColumnsOf(p, db) && WellFormedRel(rel)
            && forall k | 0 <= k < |rel.rows| :: RowFits(ColumnsOf(p, db), rel.rows[k])
  {
    hide Prepared, RowFits;
    EvalFits(p, outer, db);
    OutputColumnsAreHeader(p, outer, db);
    hide Eval, OutputColumns;
  }

  lemma PreparedUnary(perm: OrderPermission, op: Op, kid: Plan, outer: seq<Row>, db: Db)
    ensures Prepared(Node(perm, op, [kid]), outer, db) <==> PreparedOp(op, outer, db) && Prepared(kid, outer, db)
  {
    hide PreparedOp;
    var p := Node(perm, op, [kid]);
    assert p.kids[0] == kid;
  }

  lemma PreparedBinary(perm: OrderPermission, op: Op, l: Plan, r: Plan, outer: seq<Row>, db: Db)
    ensures Prepared(Node(perm, op, [l, r]), outer, db) <==> PreparedOp(op, outer, db) && Prepared(l, outer, db) && Prepared(r, outer, db)
  {
    hide PreparedOp;
    var p := Node(perm, op, [l, r]);
    assert p.kids[0] == l && p.kids[1] == r;
  }

  lemma RunFilter(perm: OrderPermission, ps: seq<Pred>, kid: Plan, outer: seq<Row>, db: Db)
    ensures Run(Node(perm, Filter(ps), [kid]), outer, db) ==
            if !PreparedPreds(ps, outer, db) then Fails
            else match Run(kid, outer, db) case Fails => Fails case Ok(rel) => FilterRel(rel, PredsFn(ps, outer, db))
  {
    hide Eval, Prepared, FilterRel, PreparedPreds, PredsFn;
    PreparedUnary(perm, Filter(ps), kid, outer, db);
    EvalFilter(perm, ps, kid, outer, db);
  }

  /** An empty filter keeps everything. */
  lemma FilterNothing(rel: Rel, outer: seq<Row>, db: Db)
    ensures FilterRel(rel, PredsFn([], outer, db)) == Ok(rel) && PreparedPreds([], outer, db)
  {
    var f := PredsFn([], outer, db);
    PredsFnAt([], outer, db);
    NoFilter(rel.rows, outer, db);
    forall i | 0 <= i < |rel.rows| ensures f(rel.rows[i]) != Error {
      NoPreds(rel.rows[i], outer, db);
    }
    hide EvalPreds, Keep, PredsFn;
    FilterIsKeep(rel.rows, f);
  }

  lemma RunFiltered(perm: OrderPermission, ps: seq<Pred>, kid: Plan, outer: seq<Row>, db: Db)
    ensures Run(Filtered(perm, ps, kid), outer, db) ==
            if !PreparedPreds(ps, outer, db) then Fails
            else match Run(kid, outer, db) case Fails => Fails case Ok(rel) => FilterRel(rel, PredsFn(ps, outer, db))
  {
    hide Run, FilterRel, PreparedPreds, PredsFn;
    if ps == [] {
      FilterNothing(Rel([], []), outer, db);
      if Run(kid, outer, db).Ok? {
        FilterNothing(Run(kid, outer, db).value, outer, db);
      }
    } else {
      RunFilter(perm, ps, kid, outer, db);
    }
  }

  lemma RunProject(perm: OrderPermission, projs: seq<Projection>, kid: Plan, outer: seq<Row>, db: Db)
    requires projs != []
    ensures Run(Node(perm, Project(projs), [kid]), outer, db) ==
            if !PreparedOp(Project(projs), outer, db) then Fails
            else match Run(kid, outer, db) case Fails => Fails case Ok(rel) => ProjectRel(ProjectHeader(projs), rel, ProjectFn(projs, outer, db))
  {
    hide Eval, Prepared, ProjectRel, PreparedOp, ProjectFn;
    PreparedUnary(perm, Project(projs), kid, outer, db);
    EvalProject(perm, projs, kid, outer, db);
  }

  lemma JoinNeedsInputs(perm: OrderPermission, op: Op, l: Plan, r: Plan, outer: seq<Row>, db: Db)
    requires op.Join? && (Eval(l, outer, db).Fails? || Eval(r, outer, db).Fails?)
    ensures Eval(Node(perm, op, [l, r]), outer, db).Fails?
  {
    hide JoinRel, PredsFn, MemberFn;
  }

  lemma RunJoin(perm: OrderPermission, op: Op, l: Plan, r: Plan, outer: seq<Row>, db: Db)
    requires op.Join? && Executable(op)
    ensures Run(Node(perm, op, [l, r]), outer, db) ==
            if !PreparedOp(op, outer, db) || Run(l, outer, db).Fails? || Run(r, outer, db).Fails? then Fails
            else JoinRel(op.kind, PredsFn(op.on, outer, db), MemberFn(op.membership, outer, db), Run(l, outer, db).value, Run(r, outer, db).value)
  {
    hide Eval, Prepared, JoinRel, PreparedOp, PredsFn, MemberFn, Executable;
    PreparedBinary(perm, op, l, r, outer, db);
    if Eval(l, outer, db).Ok? && Eval(r, outer, db).Ok? {
      EvalJoin(perm, op, l, r, outer, db);
    } else {
      JoinNeedsInputs(perm, op, l, r, outer, db);
    }
  }

  lemma RunAggregate(perm: OrderPermission, keys: seq<ColumnRef>, aggs: seq<AggExpr>, kid: Plan, outer: seq<Row>, db: Db)
    requires keys != [] || aggs != []
    ensures Run(Node(perm, Aggregate(keys, aggs), [kid]), outer, db) ==
            match Run(kid, outer, db)
            case Fails => Fails
            case Ok(rel) => AggregateRel(keys, aggs, rel, OuterEnv(OwnColumns(Aggregate(keys, aggs)), outer))
  {
    hide Prepared, AggregateRel, OuterEnv, OwnColumns;
    PreparedUnary(perm, Aggregate(keys, aggs), kid, outer, db);
  }
}
