/** The rule for correlated NOT IN: its names cannot be captured, the NULL-aware join suppresses exactly the owner rows
  that NOT IN rejects, and exactly when the rule keeps the outcome of a plan.
 */
module NotInRule {
  import opened Plans
  import opened Sequences
  import opened Values
  import opened Algebra
  import opened Semantics
  import opened Shapes
  import opened Schemas
  import opened Correlation
  import opened FilterRules
  import opened FilterRuleSoundness
  import opened RewriteFixpoint
  import opened JoinAlgebra
  import opened JoinRules
  import opened PlanRuns
  import opened Decorrelation
  import opened DecorrelationSoundness
  import opened SubqueryRules
  import opened HashJoins
  import opened Interpreter
  import opened NullAwareJoins

  // ---------------------------------------------------------------- no capture

  predicate ScansNamed(p: Plan)
    decreases p
  {
    (p.op.Scan? ==> p.op.binding != "") && forall i | 0 <= i < |p.kids| :: ScansNamed(p.kids[i])
  }

  ghost predicate ComputedWithin(header: seq<Field>, names: set<string>) {
    forall i | 0 <= i < |header| && header[i].id.binding == "" :: header[i].id.column in names
  }

  /** Every computed column a plan exposes is among the names the rule avoids. */
  lemma {:induction false} ComputedColumnsKnown(p: Plan, db: Db)
    requires OutputColumns(p, db).Some? && ScansNamed(p)
    ensures ComputedWithin(OutputColumns(p, db).value, ComputedNames(p))
    decreases p
  {
    match p.op
    case Scan(_, _) =>
    case Project(projs) =>
    case Aggregate(keys, aggs) => AggregateNames(keys, aggs, ComputedNames(p));
    case Window(wins) => ComputedColumnsKnown(p.kids[0], db);
    case Join(kind, _, _) =>
      ComputedColumnsKnown(p.kids[0], db);
      ComputedColumnsKnown(p.kids[1], db);
    case _ => ComputedColumnsKnown(p.kids[0], db);
  }

  lemma AggregateNames(keys: seq<ColumnRef>, aggs: seq<AggExpr>, names: set<string>)
    requires forall i | 0 <= i < |keys| && keys[i].id.binding == "" :: keys[i].id.column in names
    requires forall i | 0 <= i < |aggs| :: aggs[i].name in names
    ensures ComputedWithin(AggregateHeader(keys, aggs), names)
  {
    var h := AggregateHeader(keys, aggs);
    forall i | 0 <= i < |h| && h[i].id.binding == "" ensures h[i].id.column in names {
      if i >= |keys| {
        assert h[|keys| + (i - |keys|)] == Field(Ident("", aggs[i - |keys|].name), aggs[i - |keys|].ty);
      }
    }
  }

  /** A name the rule avoids on the owner's side is not an owner column. */
  lemma AvoidedIsFree(p: Plan, name: string, db: Db)
    requires OutputColumns(p, db).Some? && ScansNamed(p) && name !in ComputedNames(p)
    ensures Ident("", name) !in Names(ColumnsOf(p, db))
  {
    ComputedColumnsKnown(p, db);
  }

  // ---------------------------------------------------------------- one owner row

  /** The member a block row contributes. */
  function MemberCell(e: Scalar, s: Row, outer: seq<Row>, db: Db): Cell {
    match EvalScalar(e, s, outer, db)
    case Fails => Null(e.Type())
    case Ok(v) => Cast(e.Type(), v)
  }

  predicate BlockingCell(x: Cell, m: Cell) {
    x.Null? || m.Null? || x == m
  }

  /** Some candidate of the owner row makes its membership true or unknown. */
  ghost predicate Blocked(es: seq<Equality>, e: Scalar, x: Cell, l: Row, rows: seq<Row>, outer: seq<Row>, db: Db) {
    exists k :: 0 <= k < |rows| && AllEqual(es, l, rows[k]) && BlockingCell(x, MemberCell(e, rows[k], outer, db))
  }

  /** NOT IN over a bag of members is true exactly when no member blocks. */
  lemma NotMember(x: Cell, members: seq<Cell>)
    ensures NotTruth(MemberTruth(x, members)) != Error
    ensures NotTruth(MemberTruth(x, members)) == True <==> !exists j :: 0 <= j < |members| && BlockingCell(x, members[j])
  {
    if x in members {
      var j :| 0 <= j < |members| && members[j] == x;
      assert BlockingCell(x, members[j]);
    }
    if members != [] {
      assert x.Null? ==> BlockingCell(x, members[0]);
    }
  }

  lemma MembersOfRows(e: Scalar, name: string, cands: seq<Row>, outer: seq<Row>, db: Db)
    requires AllProject([Projection(name, e)], cands, outer, db)
    ensures var projs := [Projection(name, e)];
            var rel := Rel(ProjectHeader(projs), ProjectedRowsOf(projs, cands, outer, db));
            && |rel.rows| == |cands|
            && forall k | 0 <= k < |cands| :: CellsOf(rel.header, rel.rows[k])[0] == MemberCell(e, cands[k], outer, db)
  {
    OneProjection(name, e);
    hide EvalScalar, ProjectedRow, Cast, EvalProjs, DistinctIds;
    var projs := [Projection(name, e)];
    forall k | 0 <= k < |cands|
      ensures CellsOf(ProjectHeader(projs), ProjectedRow(projs, cands[k], outer, db))[0] == MemberCell(e, cands[k], outer, db)
    {
      ProjectedCell(projs, 0, cands[k], outer, db);
    }
  }

  lemma MemberResultIs(x: Cell, rel: Rel, members: seq<Cell>)
    requires |rel.header| == 1
    requires members == seq(|rel.rows|, i requires 0 <= i < |rel.rows| => CellsOf(rel.header, rel.rows[i])[0])
    ensures MemberResult(x, rel) == MemberTruth(x, members)
  {
    hide CellsOf;
  }

  lemma BlockedMembers(x: Cell, e: Scalar, cands: seq<Row>, members: seq<Cell>, q: Row -> bool, outer: seq<Row>, db: Db)
    requires |members| == |cands| && forall k | 0 <= k < |cands| :: members[k] == MemberCell(e, cands[k], outer, db)
    requires forall s :: q(s) == BlockingCell(x, MemberCell(e, s, outer, db))
    ensures (exists j :: 0 <= j < |members| && BlockingCell(x, members[j])) <==> exists j :: 0 <= j < |cands| && q(cands[j])
  {
    hide BlockingCell, MemberCell;
    if exists j :: 0 <= j < |members| && BlockingCell(x, members[j]) {
      var j :| 0 <= j < |members| && BlockingCell(x, members[j]);
      assert q(cands[j]);
    }
    if exists j :: 0 <= j < |cands| && q(cands[j]) {
      var j :| 0 <= j < |cands| && q(cands[j]);
      assert BlockingCell(x, members[j]);
    }
  }

  /** NOT IN, evaluated per owner row: abandoned when the block is, and otherwise true exactly when no candidate blocks. */
  lemma NotInMeansUnblocked(v: Scalar, sub: Subplan, es: seq<Equality>, h: seq<Field>, lh: seq<Field>, l: Row, outer: seq<Row>, db: Db)
    requires BlockBound(sub, es, h, lh, db) && RowFits(lh, l)
    requires |sub.plan.op.projs| == 1 && EvalScalar(v, l, outer, db).Ok?
    requires AllProject(sub.plan.op.projs, KeptRows(sub, outer, db), outer, db)
    ensures EvalPred(NotIn(v, sub), l, outer, db) == Error <==> !BaseRuns(sub, outer, db)
    ensures EvalPred(NotIn(v, sub), l, outer, db) == True <==>
              BaseRuns(sub, outer, db) &&
              !Blocked(es, sub.plan.op.projs[0].expr, EvalScalar(v, l, outer, db).value, l, KeptRows(sub, outer, db), outer, db)
  {
    var x, m, projs := EvalScalar(v, l, outer, db).value, MatchesOwner(es, l), sub.plan.op.projs;
    var cands := Keep(KeptRows(sub, outer, db), m);
    assert EvalPred(NotIn(v, sub), l, outer, db) == match EvalSub(sub, l, outer, db) case Fails => Error case Ok(rel) => NotTruth(MemberResult(x, rel));
    hide EvalScalar, EvalSub, EvalProjs, BlockBound, BaseRuns, RowFits, AllEqual, MemberResult, MatchesOwner, Blocked, EvalPred;
    SubqueryIs(sub, es, h, lh, l, outer, db);
    KeptFrom(KeptRows(sub, outer, db), m);
    assert AllProject(projs, cands, outer, db);
    assert projs == [Projection(projs[0].name, projs[0].expr)];
    CandidatesBlock(x, projs[0].expr, projs[0].name, es, l, KeptRows(sub, outer, db), outer, db);
  }

  /** Membership among the projected candidates of an owner row. */
  lemma CandidatesBlock(x: Cell, e: Scalar, name: string, es: seq<Equality>, l: Row, kept: seq<Row>, outer: seq<Row>, db: Db)
    requires AllProject([Projection(name, e)], Keep(kept, MatchesOwner(es, l)), outer, db)
    ensures var projs := [Projection(name, e)];
            var rel := Rel(ProjectHeader(projs), ProjectedRowsOf(projs, Keep(kept, MatchesOwner(es, l)), outer, db));
            && NotTruth(MemberResult(x, rel)) != Error
            && (NotTruth(MemberResult(x, rel)) == True <==> !Blocked(es, e, x, l, kept, outer, db))
  {
    hide AllProject, AllEqual, MemberTruth, BlockingCell, MemberCell, ProjectedRowsOf, MemberResult, Keep, CellsOf;
    var projs, m := [Projection(name, e)], MatchesOwner(es, l);
    var cands := Keep(kept, m);
    MembersOfRows(e, name, cands, outer, db);
    var rel := Rel(ProjectHeader(projs), ProjectedRowsOf(projs, cands, outer, db));
    var members := seq(|rel.rows|, i requires 0 <= i < |rel.rows| => CellsOf(rel.header, rel.rows[i])[0]);
    var q := (s: Row) => BlockingCell(x, MemberCell(e, s, outer, db));
    NotMember(x, members);
    KeptBlocked(kept, m, q);
    MemberResultIs(x, rel, members);
    BlockedMembers(x, e, cands, members, q, outer, db);
  }

  /** The operand of the membership test is read from the owner row in the join too. */
  lemma OperandOnJoined(v: Scalar, lh: seq<Field>, l: Row, r: Row, outer: seq<Row>, db: Db)
    requires !v.ScalarQuery? && ColumnResolves(v, Names(lh), outer) && RowFits(lh, l)
    ensures EvalScalar(v, l, outer, db).Ok? && EvalScalar(v, Joined(l, r), outer, db) == EvalScalar(v, l, outer, db)
  {
  }

  /** The membership test on a joined row compares the operand with the row's member. */
  lemma MembershipOnJoined(v: Scalar, name: string, ty: ColumnType, l: Row, r: Row, x: Cell, m: Cell, outer: seq<Row>, db: Db)
    requires EvalScalar(v, Joined(l, r), outer, db) == Ok(x)
    requires Ident("", name) !in l && Ident("", name) in r && r[Ident("", name)] == m
    ensures EvalPred(MembershipTest(v, name, ty), Joined(l, r), outer, db) != Error
    ensures EvalPred(MembershipTest(v, name, ty), Joined(l, r), outer, db) != False <==> BlockingCell(x, m)
  {
  }

  /** The right-side column that holds the members. */
  ghost predicate MembersExposed(projs: seq<Projection>, at: int, name: string, e: Scalar, lh: seq<Field>) {
    0 <= at < |projs| && projs[at] == Projection(name, e) && Ident("", name) !in Names(lh)
  }

  lemma MemberColumn(projs: seq<Projection>, at: int, name: string, e: Scalar, lh: seq<Field>, s: Row, outer: seq<Row>, db: Db)
    requires MembersExposed(projs, at, name, e, lh) && DistinctIds(ProjectHeader(projs)) && EvalProjs(projs, s, outer, db).Ok?
    ensures Ident("", name) in ProjectedRow(projs, s, outer, db) && ProjectedRow(projs, s, outer, db)[Ident("", name)] == MemberCell(e, s, outer, db)
  {
    hide EvalScalar, ProjectedRow, DistinctIds, EvalProjs;
    ProjectedCell(projs, at, s, outer, db);
  }

  /** On every joined pair, the join sees whether the source row is a candidate and whether its member blocks. */
  lemma JoinSeesMembers(v: Scalar, sub: Subplan, es: seq<Equality>, names: seq<string>, projs: seq<Projection>, at: int, name: string,
                        lh: seq<Field>, h: seq<Field>, l: Row, k: int, outer: seq<Row>, db: Db)
    requires JoinBlock(sub, es, names, projs, lh, h, db) && RowFits(lh, l) && RightRuns(sub, outer, db) && 0 <= k < |KeptRows(sub, outer, db)|
    requires |sub.plan.op.projs| == 1 && MembersExposed(projs, at, name, sub.plan.op.projs[0].expr, lh)
    requires !v.ScalarQuery? && ColumnResolves(v, Names(lh), outer) && |names| == |es| && Unexposed(names, lh)
    ensures EvalScalar(v, l, outer, db).Ok?
    ensures var e, s, pair := sub.plan.op.projs[0].expr, KeptRows(sub, outer, db)[k], Joined(l, RightRows(sub, projs, outer, db)[k]);
            var t, m := EvalPreds(JoinEqualities(es, names), pair, outer, db), EvalPred(MembershipTest(v, name, e.Type()), pair, outer, db);
            && t != Error && (t == True <==> AllEqual(es, l, s))
            && m != Error && (m != False <==> BlockingCell(EvalScalar(v, l, outer, db).value, MemberCell(e, s, outer, db)))
  {
    assert DecorrelatableShape(sub.plan);
    hide EvalPreds, EvalPred, EvalScalar, EvalProjs, AllEqual, AllSeen, JoinEqualities, ProjectedRow, MembershipTest, BlockingCell, MemberCell, JoinBlock, RightRuns,
         RowFits, ColumnResolves, Joined, DistinctIds;
    var e, r := sub.plan.op.projs[0].expr, RightRows(sub, projs, outer, db)[k];
    OwnerKeys(lh, l);
    JoinSeesMatches(sub, es, names, projs, lh, h, l, k, outer, db);
    FreeNamesSee(es, names, l, KeptRows(sub, outer, db)[k]);
    OperandOnJoined(v, lh, l, r, outer, db);
    MemberColumn(projs, at, name, e, lh, KeptRows(sub, outer, db)[k], outer, db);
    MembershipOnJoined(v, name, e.Type(), l, r, EvalScalar(v, l, outer, db).value, MemberCell(e, KeptRows(sub, outer, db)[k], outer, db), outer, db);
  }

  /** The NULL-aware join suppresses an owner row exactly when a candidate blocks it. */
  lemma SuppressedMeansBlocked(v: Scalar, sub: Subplan, es: seq<Equality>, names: seq<string>, projs: seq<Projection>, at: int, name: string,
                               lh: seq<Field>, h: seq<Field>, l: Row, outer: seq<Row>, db: Db)
    requires JoinBlock(sub, es, names, projs, lh, h, db) && RowFits(lh, l) && RightRuns(sub, outer, db) && |names| == |es|
    requires |sub.plan.op.projs| == 1 && MembersExposed(projs, at, name, sub.plan.op.projs[0].expr, lh)
    requires !v.ScalarQuery? && ColumnResolves(v, Names(lh), outer) && Unexposed(names, lh)
    ensures var e := sub.plan.op.projs[0].expr;
            var m := MemberFn(Some(MembershipTest(v, name, e.Type())), outer, db);
            && EvalScalar(v, l, outer, db).Ok?
            && Suppressed(PredsFn(JoinEqualities(es, names), outer, db), m, l, RightRows(sub, projs, outer, db)) ==
               TruthOf(Blocked(es, e, EvalScalar(v, l, outer, db).value, l, KeptRows(sub, outer, db), outer, db))
  {
    assert DecorrelatableShape(sub.plan);
    hide EvalPreds, EvalPred, EvalScalar, AllEqual, JoinEqualities, MembershipTest, BlockingCell, MemberCell, JoinBlock, RightRuns, RowFits, ColumnResolves,
         Joined, MembersExposed, ProjectedRow, Unexposed;
    var e, rows, kept := sub.plan.op.projs[0].expr, RightRows(sub, projs, outer, db), KeptRows(sub, outer, db);
    var test := MembershipTest(v, name, e.Type());
    var f, m := PredsFn(JoinEqualities(es, names), outer, db), MemberFn(Some(test), outer, db);
    PredsFnAt(JoinEqualities(es, names), outer, db);
    MemberFnAt(Some(test), outer, db);
    OperandOnJoined(v, lh, l, map[], outer, db);
    var x := EvalScalar(v, l, outer, db).value;
    forall k | 0 <= k < |rows|
      ensures f(Joined(l, rows[k])) != Error && m(Joined(l, rows[k])) != Error
      ensures f(Joined(l, rows[k])) == True <==> AllEqual(es, l, kept[k])
      ensures m(Joined(l, rows[k])) != False <==> BlockingCell(x, MemberCell(e, kept[k], outer, db))
    {
      JoinSeesMembers(v, sub, es, names, projs, at, name, lh, h, l, k, outer, db);
    }
    SuppressedIs(f, m, l, rows);
    if Blocked(es, e, x, l, kept, outer, db) {
      var k :| 0 <= k < |kept| && AllEqual(es, l, kept[k]) && BlockingCell(x, MemberCell(e, kept[k], outer, db));
      assert f(Joined(l, rows[k])) == True && m(Joined(l, rows[k])) != False;
    }
    if AnySuppressor(f, m, l, rows) {
      var k :| 0 <= k < |rows| && f(Joined(l, rows[k])) == True && m(Joined(l, rows[k])) != False;
      assert AllEqual(es, l, kept[k]) && BlockingCell(x, MemberCell(e, kept[k], outer, db));
    }
  }

  // ---------------------------------------------------------------- the rule

  /** The columns of the conjunct, of its siblings and of its block's column resolve, as binding leaves them. */
  ghost predicate NotInBound(p: Plan, i: int, outer: seq<Row>, db: Db) {
    && Conjunct(p, i) && p.op.preds[i].NotIn? && ConjunctBound(p, i, p.op.preds[i].sub, db) && ScansNamed(p.kids[0])
    && ColumnResolves(p.op.preds[i].arg, Names(ColumnsOf(p.kids[0], db)), outer)
    && AllResolve(Others(p.op.preds, i), Names(ColumnsOf(p.kids[0], db)), outer)
    && (|p.op.preds[i].sub.plan.op.projs| == 1 ==>
          && p.op.preds[i].arg.Type() == p.op.preds[i].sub.plan.op.projs[0].expr.Type()
          && ColumnResolves(p.op.preds[i].sub.plan.op.projs[0].expr, Names(ColumnsOf(Source(p.op.preds[i].sub), db)), outer))
  }

  /** What the rule's own tests establish. */
  ghost predicate NotInChecked(p: Plan, i: int) {
    && Conjunct(p, i) && p.op.preds[i].NotIn? && !p.op.preds[i].arg.ScalarQuery? && DecorrelatableShape(p.op.preds[i].sub.plan)
    && |p.op.preds[i].sub.plan.op.projs| == 1 && !p.op.preds[i].sub.plan.op.projs[0].expr.ScalarQuery?
    && (forall k | 0 <= k < |Others(p.op.preds, i)| :: !ContainsSubquery(Others(p.op.preds, i)[k]))
    && !OwnsSubquery(p.op.preds[i].sub.plan) && p.op.preds[i].sub.corr != []
  }

  lemma RuleChecks(p: Plan, i: int)
    requires CorrelatedNotInToNullAwareAnti(p, i).Some?
    ensures NotInChecked(p, i)
    ensures DecorrelateEqualityWhere(p.op.preds[i].sub, ComputedNames(p.kids[0])).Some?
  {
    var ps, sub := p.op.preds, p.op.preds[i].sub;
    assert DecorrelateEqualityWhere(sub, ComputedNames(p.kids[0])).Some?;
    assert !OwnsSubquery(sub.plan);
    assert sub.plan.op == Project(sub.plan.op.projs);
    hide ContainsSubquery, ComputedNames, JoinInstead;
    forall k | 0 <= k < |Others(ps, i)| ensures !ContainsSubquery(Others(ps, i)[k]) {
      assert Others(ps, i)[k] == ps[if k < i then k else k + 1];
    }
  }

  lemma HiddenAvoids(sub: Subplan, avoid: set<string>, es: seq<Equality>, names: seq<string>, k: int)
    requires DecorrelatedBlock(sub, avoid, es, names) && |names| == |es| && 0 <= k < |names|
    ensures names[k] !in avoid
  {
  }

  lemma RightPlanShape(sub: Subplan, projs: seq<Projection>, more: Projection)
    requires DecorrelatableShape(sub.plan)
    ensures RightPlan(sub, projs).op == Project(projs)
    ensures RightPlan(sub, projs).(op := Project(projs + [more])) == RightPlan(sub, projs + [more])
  {
    hide Residuals;
  }

  lemma MemberProjectionAdded(sub: Subplan, es: seq<Equality>, names: seq<string>, projs: seq<Projection>, name: string, lh: seq<Field>, h: seq<Field>, db: Db)
    requires JoinBlock(sub, es, names, projs, lh, h, db) && name !in ProjectionNames(projs) && sub.plan.op.projs != []
    ensures JoinBlock(sub, es, names, projs + [Projection(name, sub.plan.op.projs[0].expr)], lh, h, db)
  {
    assert DecorrelatableShape(sub.plan);
    hide BlockBound;
    var own := sub.plan.op.projs;
    var more := projs + [Projection(name, own[0].expr)];
    if DistinctIds(ProjectHeader(projs)) {
      DistinctProjections(projs, [Projection(name, own[0].expr)]);
    }
    if DistinctIds(ProjectHeader(more)) {
      PrefixDistinct(projs, [Projection(name, own[0].expr)]);
    }
    hide DistinctIds;
    forall i | |own| + |es| <= i < |more| ensures exists j :: 0 <= j < |own| && more[i].expr == own[j].expr {
      if i == |projs| {
        assert more[i].expr == own[0].expr;
      } else {
        assert more[i] == projs[i];
      }
    }
  }

  /** The right plan of the rule: the hidden columns, and the member column under a name the owner does not expose. */
  lemma NotInRight(p: Plan, i: int, outer: seq<Row>, db: Db)
    returns (es: seq<Equality>, names: seq<string>, projs: seq<Projection>, at: int, name: string)
    requires CorrelatedNotInToNullAwareAnti(p, i).Some? && NotInBound(p, i, outer, db)
    ensures var sub := p.op.preds[i].sub;
            var e, lh := sub.plan.op.projs[0].expr, ColumnsOf(p.kids[0], db);
            && es == EqualitiesOf(sub) && |names| == |es|
            && JoinBlock(sub, es, names, projs, lh, ColumnsOf(Source(sub), db), db) && MembersExposed(projs, at, name, e, lh) && Unexposed(names, lh)
            && CorrelatedNotInToNullAwareAnti(p, i).value ==
               JoinInstead(p, i, NullAwareAnti, JoinEqualities(es, names), Some(MembershipTest(p.op.preds[i].arg, name, e.Type())), RightPlan(sub, projs))
  {
    RuleChecks(p, i);
    hide JoinInstead, JoinBlock, BlockBound, Equalities, HiddenNames, Names, ComputedNames, RightPlan, OwnsSubquery, ContainsSubquery, UniqueInternalName,
         ColumnResolves, DecorrelateEqualityWhere, Others, AllResolve, OutputColumns, ScansNamed;
    var sub, lh, h := p.op.preds[i].sub, ColumnsOf(p.kids[0], db), ColumnsOf(Source(p.op.preds[i].sub), db);
    var avoid, output := ComputedNames(p.kids[0]), sub.plan.op.projs[0];
    es, names := DecorrelatedIs(sub, avoid);
    forall k | 0 <= k < |names| ensures Ident("", names[k]) !in Names(lh) {
      HiddenAvoids(sub, avoid, es, names, k);
      AvoidedIsFree(p.kids[0], names[k], db);
    }
    HiddenComplete(sub, avoid, es, names, lh, h, db);
    projs := sub.plan.op.projs + HiddenProjections(es, names);
    at, name := 0, output.name;
    RightPlanShape(sub, projs, Projection(UniqueInternalName(0, avoid + ProjectionNames(projs)), output.expr));
    if output.name in avoid {
      name := UniqueInternalName(0, avoid + ProjectionNames(projs));
      at := |projs|;
      MemberProjectionAdded(sub, es, names, projs, name, lh, h, db);
      projs := projs + [Projection(name, output.expr)];
    }
    AvoidedIsFree(p.kids[0], name, db);
  }

  /** The block's only column is read, not computed by a subquery, so every kept row can be projected. */
  lemma MembersProject(p: Plan, i: int, outer: seq<Row>, db: Db)
    requires NotInBound(p, i, outer, db) && NotInChecked(p, i)
    ensures AllProject(p.op.preds[i].sub.plan.op.projs, KeptRows(p.op.preds[i].sub, outer, db), outer, db)
    ensures RightRuns(p.op.preds[i].sub, outer, db) <==> BaseRuns(p.op.preds[i].sub, outer, db)
  {
    hide BlockBound, EvalScalar, Run, Names, ScansNamed, OwnsSubquery, ContainsSubquery, Others, AllResolve, OutputColumns, ColumnResolves, EvalProjs, BaseRuns;
    var sub := p.op.preds[i].sub;
    var h, kept, projs := ColumnsOf(Source(sub), db), KeptRows(sub, outer, db), sub.plan.op.projs;
    BaseFits(sub, EqualitiesOf(sub), h, ColumnsOf(p.kids[0], db), outer, db);
    forall k | 0 <= k < |kept| ensures EvalProjs(projs, kept[k], outer, db).Ok? {
      OwnerKeys(h, kept[k]);
      SteadyScalar(projs[0].expr, Names(h), kept[k], outer, db);
      ProjsPointwise(projs, kept[k], outer, db);
    }
  }

  /** The siblings contain no subquery, so they cannot fail on an owner row. */
  lemma SiblingsSteady(p: Plan, i: int, k: int, outer: seq<Row>, db: Db)
    requires Conjunct(p, i) && AllResolve(Others(p.op.preds, i), Names(ColumnsOf(p.kids[0], db)), outer)
    requires forall k | 0 <= k < |Others(p.op.preds, i)| :: !ContainsSubquery(Others(p.op.preds, i)[k])
    requires Run(p.kids[0], outer, db).Ok? && 0 <= k < |Run(p.kids[0], outer, db).value.rows|
    ensures EvalPreds(Others(p.op.preds, i), Run(p.kids[0], outer, db).value.rows[k], outer, db) != Error
  {
    hide Run, OutputColumns, ColumnsResolve, ContainsSubquery, EvalPreds, RowFits, Others, Names;
    RunFits(p.kids[0], outer, db);
    var row, lh := Run(p.kids[0], outer, db).value.rows[k], ColumnsOf(p.kids[0], db);
    OwnerKeys(lh, row);
    SteadyPreds(Others(p.op.preds, i), Names(lh), row, outer, db);
  }

  /** The truth of the conjunct on an owner row. */
  lemma NotInTruth(p: Plan, i: int, k: int, outer: seq<Row>, db: Db)
    requires NotInBound(p, i, outer, db) && NotInChecked(p, i)
    requires Run(p.kids[0], outer, db).Ok? && 0 <= k < |Run(p.kids[0], outer, db).value.rows|
    ensures var v, sub, l := p.op.preds[i].arg, p.op.preds[i].sub, Run(p.kids[0], outer, db).value.rows[k];
            var t := TruthAt(p.op.preds[i], outer, db)(l);
            && EvalScalar(v, l, outer, db).Ok? && (t == Error <==> !BaseRuns(sub, outer, db))
            && (t == True <==>
                  BaseRuns(sub, outer, db) &&
                  !Blocked(EqualitiesOf(sub), sub.plan.op.projs[0].expr, EvalScalar(v, l, outer, db).value, l, KeptRows(sub, outer, db), outer, db))
  {
    MembersProject(p, i, outer, db);
    hide Run, BaseRuns, Blocked, BlockBound, EvalPred, EvalScalar, RowFits, Equalities, OutputColumns, EqualitiesOf, ColumnsOf, OwnsSubquery, ContainsSubquery,
         ScansNamed, Others, AllResolve, ColumnResolves, Names, AllProject, RightRuns;
    var v, sub, l := p.op.preds[i].arg, p.op.preds[i].sub, Run(p.kids[0], outer, db).value.rows[k];
    RunFits(p.kids[0], outer, db);
    OperandOnJoined(v, ColumnsOf(p.kids[0], db), l, map[], outer, db);
    NotInMeansUnblocked(v, sub, EqualitiesOf(sub), ColumnsOf(Source(sub), db), ColumnsOf(p.kids[0], db), l, outer, db);
    assert p.op.preds[i] == NotIn(v, sub);
  }

  /** Where the right plan runs, the NULL-aware join keeps an owner row exactly when the conjunct is true. */
  lemma NotInRowKept(p: Plan, i: int, names: seq<string>, projs: seq<Projection>, at: int, name: string, k: int, outer: seq<Row>, db: Db)
    requires NotInBound(p, i, outer, db) && NotInChecked(p, i) && Run(p.kids[0], outer, db).Ok? && RightRuns(p.op.preds[i].sub, outer, db)
    requires 0 <= k < |Run(p.kids[0], outer, db).value.rows|
    requires var sub := p.op.preds[i].sub;
             && JoinBlock(sub, EqualitiesOf(sub), names, projs, ColumnsOf(p.kids[0], db), ColumnsOf(Source(sub), db), db) && |names| == |EqualitiesOf(sub)|
             && MembersExposed(projs, at, name, sub.plan.op.projs[0].expr, ColumnsOf(p.kids[0], db)) && Unexposed(names, ColumnsOf(p.kids[0], db))
    ensures var sub, l := p.op.preds[i].sub, Run(p.kids[0], outer, db).value.rows[k];
            var test := MembershipTest(p.op.preds[i].arg, name, sub.plan.op.projs[0].expr.Type());
            var t := TruthAt(p.op.preds[i], outer, db)(l);
            && t != Error
            && Suppressed(PredsFn(JoinEqualities(EqualitiesOf(sub), names), outer, db), MemberFn(Some(test), outer, db), l, RightRows(sub, projs, outer, db)) ==
               TruthOf(t != True)
  {
    NotInParts(p, i, outer, db);
    MembersProject(p, i, outer, db);
    hide Run, RightRuns, JoinBlock, RowFits, Equalities, OutputColumns, EqualitiesOf, ColumnsOf, PredsFn, MemberFn, Suppressed, JoinEqualities, TruthAt,
         BlockBound, RightRows, Blocked, WellFormedRel, OwnsSubquery, ContainsSubquery, ScansNamed, Others, AllResolve, ColumnResolves,
         Names, MembersExposed, MembershipTest, BaseRuns, EvalScalar, AllProject, Unexposed;
    var v, sub, l := p.op.preds[i].arg, p.op.preds[i].sub, Run(p.kids[0], outer, db).value.rows[k];
    RunFits(p.kids[0], outer, db);
    SuppressedMeansBlocked(v, sub, EqualitiesOf(sub), names, projs, at, name, ColumnsOf(p.kids[0], db), ColumnsOf(Source(sub), db), l, outer, db);
    NotInTruth(p, i, k, outer, db);
  }

  lemma SuppressedKeeps(f: Row -> Truth, m: Row -> Truth, right: Rel, l: Row, t: Truth)
    requires t != Error && Suppressed(f, m, l, right.rows) == TruthOf(t != True)
    ensures JoinOne(NullAwareAnti, f, m, right)(l) == Ok(if t == True then [l] else [])
  {
    hide Suppressed;
  }

  /** There the NULL-aware join is the filter by the conjunct. */
  lemma NotInJoinIsFilter(p: Plan, i: int, names: seq<string>, projs: seq<Projection>, at: int, name: string, outer: seq<Row>, db: Db)
    requires NotInBound(p, i, outer, db) && NotInChecked(p, i) && Run(p.kids[0], outer, db).Ok? && RightRuns(p.op.preds[i].sub, outer, db)
    requires var sub := p.op.preds[i].sub;
             && JoinBlock(sub, EqualitiesOf(sub), names, projs, ColumnsOf(p.kids[0], db), ColumnsOf(Source(sub), db), db) && |names| == |EqualitiesOf(sub)|
             && MembersExposed(projs, at, name, sub.plan.op.projs[0].expr, ColumnsOf(p.kids[0], db)) && Unexposed(names, ColumnsOf(p.kids[0], db))
    ensures var sub := p.op.preds[i].sub;
            var test := MembershipTest(p.op.preds[i].arg, name, sub.plan.op.projs[0].expr.Type());
            JoinRel(NullAwareAnti, PredsFn(JoinEqualities(EqualitiesOf(sub), names), outer, db), MemberFn(Some(test), outer, db), Run(p.kids[0], outer, db).value,
                    Rel(ProjectHeader(projs), RightRows(sub, projs, outer, db))) ==
            FilterRel(Run(p.kids[0], outer, db).value, TruthAt(p.op.preds[i], outer, db))
  {
    var sub, owners := p.op.preds[i].sub, Run(p.kids[0], outer, db).value;
    var test := MembershipTest(p.op.preds[i].arg, name, sub.plan.op.projs[0].expr.Type());
    var f, m, t := PredsFn(JoinEqualities(EqualitiesOf(sub), names), outer, db), MemberFn(Some(test), outer, db), TruthAt(p.op.preds[i], outer, db);
    var right := Rel(ProjectHeader(projs), RightRows(sub, projs, outer, db));
    assert !EmitsRight(NullAwareAnti);
    hide *;
    RunFits(p.kids[0], outer, db);
    forall k | 0 <= k < |owners.rows|
      ensures t(owners.rows[k]) != Error
      ensures JoinOne(NullAwareAnti, f, m, right)(owners.rows[k]) == Ok(if t(owners.rows[k]) == True then [owners.rows[k]] else [])
    {
      NotInRowKept(p, i, names, projs, at, name, k, outer, db);
      SuppressedKeeps(f, m, right, owners.rows[k], t(owners.rows[k]));
    }
    JoinIsFilter(NullAwareAnti, f, m, owners, right, t);
  }

  /** Without failing siblings, the rewritten plan filters as the original does where the right plan runs, and where it
    does not the original fails on every owner row. */
  lemma NotInOriginal(p: Plan, i: int, owners: Rel, outer: seq<Row>, db: Db)
    requires NotInBound(p, i, outer, db) && NotInChecked(p, i) && Run(p.kids[0], outer, db) == Ok(owners)
    ensures RightRuns(p.op.preds[i].sub, outer, db) ==>
              FilterTwice(owners, TruthAt(p.op.preds[i], outer, db), PredsFn(Others(p.op.preds, i), outer, db)) ==
              FilterRel(owners, PredsFn(p.op.preds, outer, db))
    ensures !RightRuns(p.op.preds[i].sub, outer, db) ==>
              (FilterRel(owners, PredsFn(p.op.preds, outer, db)).Fails? <==> owners.rows != [])
  {
    MembersProject(p, i, outer, db);
    hide Run, RightRuns, EvalPred, EvalPreds, EvalScalar, Blocked, BlockBound, Equalities, OutputColumns, EqualitiesOf, ColumnsOf, BaseRuns, FilterTwice,
         FilterRel, Others, OwnsSubquery, ContainsSubquery, ScansNamed, AllResolve, ColumnResolves, Names, AllProject;
    var t, s := TruthAt(p.op.preds[i], outer, db), PredsFn(Others(p.op.preds, i), outer, db);
    ConjunctionFn(p.op.preds, i, outer, db);
    PredsFnAt(Others(p.op.preds, i), outer, db);
    forall k | 0 <= k < |owners.rows|
      ensures s(owners.rows[k]) != Error && (t(owners.rows[k]) == Error <==> !BaseRuns(p.op.preds[i].sub, outer, db))
    {
      NotInTruth(p, i, k, outer, db);
      SiblingsSteady(p, i, k, outer, db);
    }
    MergedFiltersExactly(owners, t, s, PredsFn(p.op.preds, outer, db));
    BothFails(owners, t, s, PredsFn(p.op.preds, outer, db));
    if !RightRuns(p.op.preds[i].sub, outer, db) && owners.rows != [] {
      assert t(owners.rows[0]) == Error;
    }
  }

  /** When the rule for NOT IN keeps the outcome: a right plan that does not run is evaluated only for some owner row. */
  ghost predicate NotInIsHarmless(p: Plan, i: int, outer: seq<Row>, db: Db)
    requires Conjunct(p, i) && p.op.preds[i].NotIn? && DecorrelatableShape(p.op.preds[i].sub.plan)
  {
    var owners := Run(p.kids[0], outer, db);
    owners.Ok? && !RightRuns(p.op.preds[i].sub, outer, db) ==> owners.value.rows != []
  }

  lemma NotInPrepared(p: Plan, i: int, name: string, outer: seq<Row>, db: Db)
    requires NotInBound(p, i, outer, db) && NotInChecked(p, i)
    ensures var test := MembershipTest(p.op.preds[i].arg, name, p.op.preds[i].sub.plan.op.projs[0].expr.Type());
            PreparedPred(test, outer, db) && IsMembership(test)
    ensures PreparedPreds(p.op.preds, outer, db) && PreparedPreds(Others(p.op.preds, i), outer, db)
  {
    hide BlockBound, OutputColumns, Names, ScansNamed, ContainsSubquery, OwnsSubquery, Others, AllResolve, ColumnResolves, Run;
    OthersPrepared(p.op.preds, i, outer, db);
    AllPrepared(Others(p.op.preds, i), outer, db);
    assert PreparedPred(p.op.preds[i], outer, db);
  }

  lemma NotInParts(p: Plan, i: int, outer: seq<Row>, db: Db)
    requires NotInBound(p, i, outer, db)
    ensures Conjunct(p, i) && p.op.preds[i].NotIn? && DecorrelatableShape(p.op.preds[i].sub.plan)
  {
  }

  /** The rewritten plan, over owners and a right plan that run, filters as the original does. */
  lemma NotInRewritten(p: Plan, i: int, names: seq<string>, projs: seq<Projection>, at: int, name: string, owners: Rel, outer: seq<Row>, db: Db)
    requires NotInBound(p, i, outer, db) && NotInChecked(p, i) && Run(p.kids[0], outer, db) == Ok(owners) && RightRuns(p.op.preds[i].sub, outer, db)
    requires var sub := p.op.preds[i].sub;
             && JoinBlock(sub, EqualitiesOf(sub), names, projs, ColumnsOf(p.kids[0], db), ColumnsOf(Source(sub), db), db) && |names| == |EqualitiesOf(sub)|
             && MembersExposed(projs, at, name, sub.plan.op.projs[0].expr, ColumnsOf(p.kids[0], db)) && Unexposed(names, ColumnsOf(p.kids[0], db))
    ensures var sub := p.op.preds[i].sub;
            var test := MembershipTest(p.op.preds[i].arg, name, sub.plan.op.projs[0].expr.Type());
            (match JoinRel(NullAwareAnti, PredsFn(JoinEqualities(EqualitiesOf(sub), names), outer, db), MemberFn(Some(test), outer, db), owners,
                           Rel(ProjectHeader(projs), RightRows(sub, projs, outer, db)))
             case Fails => Fails
             case Ok(joined) => FilterRel(joined, PredsFn(Others(p.op.preds, i), outer, db))) ==
            FilterRel(owners, PredsFn(p.op.preds, outer, db))
  {
    hide Run, RightRuns, JoinBlock, PredsFn, MemberFn, TruthAt, Others, EqualitiesOf, ColumnsOf, JoinRel, FilterRel, NotInBound,
         MembersExposed, MembershipTest, JoinEqualities, Unexposed;
    NotInOriginal(p, i, owners, outer, db);
    NotInJoinIsFilter(p, i, names, projs, at, name, outer, db);
  }

  /** Correlated NOT IN is a NULL-aware ANTI join, NULL operands, NULL members, NULL keys and empty candidate bags
    included, exactly when no failure is exposed. The rule's own names cannot be captured by the owner's columns. */
  lemma NotInToNullAwareExactly(p: Plan, i: int, outer: seq<Row>, db: Db)
    requires CorrelatedNotInToNullAwareAnti(p, i).Some? && NotInBound(p, i, outer, db)
    ensures Conjunct(p, i) && p.op.preds[i].NotIn? && DecorrelatableShape(p.op.preds[i].sub.plan)
    ensures Run(CorrelatedNotInToNullAwareAnti(p, i).value, outer, db) == Run(p, outer, db) <==> NotInIsHarmless(p, i, outer, db)
    ensures !NotInIsHarmless(p, i, outer, db) ==> Run(CorrelatedNotInToNullAwareAnti(p, i).value, outer, db).Fails?
  {
    RuleChecks(p, i);
    NotInParts(p, i, outer, db);
    hide Run, Eval, Prepared, NotInBound, JoinInstead, PredsFn, MemberFn, JoinRel, FilterRel, PreparedPreds, JoinBlock, MembersExposed, Unexposed, BaseRuns, AllProject,
         Others, CorrelatedNotInToNullAwareAnti, OwnsSubquery, ContainsSubquery, JoinEqualities, RightPlan, MembershipTest, PreparedPred, IsMembership,
         DecorrelateEqualityWhere, EqualitiesOf, ColumnsOf;
    var sub := p.op.preds[i].sub;
    var es, names, projs, at, name := NotInRight(p, i, outer, db);
    var test := MembershipTest(p.op.preds[i].arg, name, sub.plan.op.projs[0].expr.Type());
    NotInPrepared(p, i, name, outer, db);
    EqualitiesPrepared(es, names, outer, db);
    RulePlans(p, i, NullAwareAnti, JoinEqualities(es, names), Some(test), RightPlan(sub, projs), outer, db);
    RightIs(sub, es, names, projs, ColumnsOf(p.kids[0], db), ColumnsOf(Source(sub), db), outer, db);
    if Run(p.kids[0], outer, db).Ok? {
      var owners := Run(p.kids[0], outer, db).value;
      NotInOriginal(p, i, owners, outer, db);
      if RightRuns(sub, outer, db) {
        NotInRewritten(p, i, names, projs, at, name, owners, outer, db);
      }
    }
  }
}
