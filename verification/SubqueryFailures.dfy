/** Queries that the rules for EXISTS and NOT EXISTS change: a failure they expose, one they mask, and a name the owner
  already uses.
 */
module SubqueryFailures {
  import opened Plans
  import opened Sequences
  import opened Values
  import opened Algebra
  import opened Semantics
  import opened Shapes
  import opened Correlation
  import opened FilterRules
  import opened FilterRuleSoundness
  import opened RewriteFixpoint
  import opened SmallPlans
  import opened JoinAlgebra
  import opened JoinRules
  import opened PlanRuns
  import opened Decorrelation
  import opened DecorrelationSoundness
  import opened SubqueryRules
  import opened Interpreter

  // ---------------------------------------------------------------- tables and blocks

  /** A table of two rows and an empty one. */
  const TABLES: Db := map["t" := OneColumn([7, 8]), "u" := OneColumn([])]

  function ColumnA(table: string): ColumnRef {
    ColumnRef(Ident(table, "a"), Int64, 0)
  }

  /** SELECT 1 FROM `table` WHERE `table`.a = `owner` AND `more`. */
  function Block(table: string, owner: ColumnRef, more: seq<Pred>): Subplan {
    Subplan(Node(Arbitrary, Project([Projection("one", IntLit(1))]),
                 [Node(Arbitrary, Filter([Cmp(Column(ColumnA(table)), Eq, Column(owner))] + more), [ScanOf(table)])]),
            [owner])
  }

  function BlockEquality(table: string, owner: ColumnRef): Equality {
    Equality(owner, ColumnA(table))
  }

  lemma ScanIs(table: string, outer: seq<Row>)
    requires table in TABLES
    ensures var rel := Rel([Field(Ident(table, "a"), Int64)], ScanRows(table, TABLES[table]));
            Run(ScanOf(table), outer, TABLES) == Ok(rel) && WellFormedRel(rel)
  {
    var p, header := ScanOf(table), Rename(table, TABLES[table].header);
    assert header == [Field(Ident(table, "a"), Int64)];
    assert DistinctIds(header) && Prepared(p, outer, TABLES);
    ScanFits(table, TABLES[table]);
  }

  lemma CellOfT(k: int)
    requires 0 <= k < 2
    ensures var row := ScanRows("t", TABLES["t"])[k];
            row.Keys == {Ident("t", "a")} && row[Ident("t", "a")] == IntV(7 + k)
  {
    var table := TABLES["t"];
    assert CellsOf(table.header, table.rows[k])[0] == IntV(7 + k);
    MakeRowFits(Rename("t", table.header), CellsOf(table.header, table.rows[k]));
    assert Rename("t", table.header) == [Field(Ident("t", "a"), Int64)];
    assert RowFits([Field(Ident("t", "a"), Int64)], ScanRows("t", table)[k]);
  }

  lemma OneMore(ps: seq<Pred>, q: Pred)
    requires Equalities(ps).Some?
    ensures PredReferencesOuter(q) && CorrelationEquality(q).Some? ==>
              Equalities(ps + [q]) == Some(Equalities(ps).value + [CorrelationEquality(q).value]) && Residuals(ps + [q]) == Residuals(ps)
    ensures !PredReferencesOuter(q) ==> Equalities(ps + [q]) == Equalities(ps) && Residuals(ps + [q]) == Residuals(ps) + [q]
  {
    hide PredReferencesOuter, CorrelationEquality;
    var all := ps + [q];
    assert all[..|all| - 1] == ps && all[|all| - 1] == q;
    assert Residuals(ps) + [] == Residuals(ps);
  }

  lemma Fires(sub: Subplan, es: seq<Equality>)
    requires sub.corr != [] && DecorrelatableShape(sub.plan) && es != [] && Equalities(sub.plan.kids[0].op.preds) == Some(es)
    requires (forall i | 0 <= i < |sub.plan.op.projs| :: !ScalarReferencesOuter(sub.plan.op.projs[i].expr)) && !PlanReferencesOuter(Source(sub))
    requires forall i | 0 <= i < |sub.corr| :: Covered(sub.corr[i], es)
    ensures DecorrelateEqualityWhere(sub, {}).Some?
  {
    hide Equalities, PlanReferencesOuter, ScalarReferencesOuter, Covered, HiddenNames, Residuals;
  }

  lemma BlockShape(table: string, owner: ColumnRef, more: seq<Pred>)
    ensures var sub, eq := Block(table, owner, more), Cmp(Column(ColumnA(table)), Eq, Column(owner));
            && DecorrelatableShape(sub.plan) && sub.corr == [owner] && sub.plan.kids[0].op.preds == [eq] + more && Source(sub) == ScanOf(table)
            && sub.plan.op.projs == [Projection("one", IntLit(1))] && !PlanReferencesOuter(ScanOf(table)) && sub.plan.perm == sub.plan.kids[0].perm == Arbitrary
            && sub.plan == Node(Arbitrary, Project([Projection("one", IntLit(1))]), [Node(Arbitrary, Filter([eq] + more), [ScanOf(table)])])
            && forall i | 0 <= i < |sub.plan.op.projs| :: !ScalarReferencesOuter(sub.plan.op.projs[i].expr)
  {
  }

  lemma BlockEqualityIs(table: string, owner: ColumnRef)
    requires owner.depth == 1
    ensures var eq := Cmp(Column(ColumnA(table)), Eq, Column(owner));
            PredReferencesOuter(eq) && CorrelationEquality(eq) == Some(BlockEquality(table, owner)) && Covered(owner, [BlockEquality(table, owner)])
  {
    var es := [BlockEquality(table, owner)];
    assert es[0].outer == owner;
  }

  /** The rule fires on such a block when the further conjuncts do not read the owner. */
  lemma BlockDecorrelates(table: string, owner: ColumnRef, more: seq<Pred>)
    requires owner.depth == 1 && |more| <= 1 && forall i | 0 <= i < |more| :: !PredReferencesOuter(more[i])
    ensures var sub := Block(table, owner, more);
            && DecorrelateEqualityWhere(sub, {}).Some? && DecorrelatableShape(sub.plan)
            && Equalities(sub.plan.kids[0].op.preds) == Some([BlockEquality(table, owner)]) && Residuals(sub.plan.kids[0].op.preds) == more
  {
    var sub, eq := Block(table, owner, more), Cmp(Column(ColumnA(table)), Eq, Column(owner));
    hide *;
    BlockShape(table, owner, more);
    BlockEqualityIs(table, owner);
    NoConjuncts(map[], map[], [], TABLES);
    OneMore([], eq);
    assert [] + [eq] == [eq] && [] + [BlockEquality(table, owner)] == [BlockEquality(table, owner)];
    if more == [] {
      assert [eq] + more == [eq];
    } else {
      assert more == [more[0]];
      OneMore([eq], more[0]);
      assert [] + more == more;
    }
    Fires(sub, [BlockEquality(table, owner)]);
  }

  /** The block's correlation is what binding computes for it. */
  lemma BlockIsBound(table: string, owner: ColumnRef, more: seq<Pred>)
    requires owner.depth == 1 && |more| <= 1 && forall i | 0 <= i < |more| :: BoundPred(more[i]) && PredCorr(more[i]) == []
    ensures BoundSub(Block(table, owner, more))
  {
    var sub, eq := Block(table, owner, more), Cmp(Column(ColumnA(table)), Eq, Column(owner));
    var ps := [eq] + more;
    var projs, filter := [Projection("one", IntLit(1))], Node(Arbitrary, Filter(ps), [ScanOf(table)]);
    hide *;
    BlockPredsCorr(table, owner, more);
    CorrOfScan(table);
    ListedOnce(owner);
    LiteralProjection();
    BlockShape(table, owner, more);
    CorrOfNode(Arbitrary, Filter(ps), ScanOf(table));
    CorrOfNode(Arbitrary, Project(projs), filter);
    BoundSubIs(sub);
  }

  lemma BlockPredsCorr(table: string, owner: ColumnRef, more: seq<Pred>)
    requires owner.depth == 1 && |more| <= 1 && forall i | 0 <= i < |more| :: BoundPred(more[i]) && PredCorr(more[i]) == []
    ensures var ps := [Cmp(Column(ColumnA(table)), Eq, Column(owner))] + more;
            OpCorr(Filter(ps)) == [owner] && BoundOp(Filter(ps))
  {
    hide BoundSub, PredsCorr, ScalarCorr;
    var eq := Cmp(Column(ColumnA(table)), Eq, Column(owner));
    CorrOfColumn(ColumnA(table));
    CorrOfColumn(owner);
    CorrSnoc([], eq);
    assert [] + [eq] == [eq] && PredCorr(eq) == [owner] && BoundPred(eq);
    if more == [] {
      assert [eq] + more == [eq];
    } else {
      assert more == [more[0]];
      CorrSnoc([eq], more[0]);
    }
    hide BoundPred;
    assert BoundPreds([eq] + more);
  }

  lemma InterpretIsRun(p: Plan)
    ensures Interpret(p, TABLES) == Run(p, [], TABLES)
  {
    hide Run;
  }

  lemma LiteralPrepared(outer: seq<Row>)
    ensures PreparedOp(Project([Projection("one", IntLit(1))]), outer, TABLES)
  {
    var projs := [Projection("one", IntLit(1))];
    assert forall i | 0 <= i < |projs| :: PreparedScalar(projs[i].expr, outer, TABLES);
  }

  lemma LiteralProjection()
    ensures OpCorr(Project([Projection("one", IntLit(1))])) == [] && BoundOp(Project([Projection("one", IntLit(1))]))
  {
    var projs := [Projection("one", IntLit(1))];
    assert projs[..|projs| - 1] == [] && ProjsCorr([]) == [];
    assert forall i | 0 <= i < |projs| :: BoundScalar(projs[i].expr);
  }

  // ---------------------------------------------------------------- a failure exposed

  /** SELECT a FROM t, as a scalar: more than one row. */
  const EVERY_A: Scalar := ScalarQuery(Subplan(ScanOf("t"), []), Int64)

  const EAGER_BLOCK: Subplan := Block("t", ColumnRef(Ident("u", "a"), Int64, 1), [Cmp(IntLit(1), Eq, EVERY_A)])

  /** SELECT * FROM u WHERE EXISTS (SELECT 1 FROM t WHERE t.a = u.a AND 1 = (SELECT a FROM t)). */
  const EAGER: Plan := Node(Arbitrary, Filter([Exists(EAGER_BLOCK)]), [ScanOf("u")])

  lemma NoOwners(p: Pred, outer: seq<Row>)
    requires PreparedPred(p, outer, TABLES)
    ensures var r := Run(Node(Arbitrary, Filter([p]), [ScanOf("u")]), outer, TABLES);
            r.Ok? && r.value.rows == []
  {
    hide PreparedPred, Run;
    ScanIs("u", outer);
    RunFilter(Arbitrary, [p], ScanOf("u"), outer, TABLES);
    OnePrepared(p, outer, TABLES);
    var rel := Run(ScanOf("u"), outer, TABLES).value;
    assert |ScanRows("u", TABLES["u"])| == 0;
    assert FilterRel(rel, PredsFn([p], outer, TABLES)) == Ok(Rel(rel.header, []));
  }

  lemma EveryARaises(outer: seq<Row>)
    ensures !PreparedPreds([Cmp(IntLit(1), Eq, EVERY_A)], outer, TABLES)
    ensures BoundPred(Cmp(IntLit(1), Eq, EVERY_A)) && PredCorr(Cmp(IntLit(1), Eq, EVERY_A)) == [] && !PredReferencesOuter(Cmp(IntLit(1), Eq, EVERY_A))
  {
    ScanIs("t", outer);
    OnePrepared(Cmp(IntLit(1), Eq, EVERY_A), outer, TABLES);
    hide Run, PreparedPreds;
    TwoRows();
    var scan := ScanOf("t");
    assert PlanCorr(scan) == [] && BoundPlan(scan);
  }

  /** The rewritten plan fails with its right plan. */
  lemma RightFails(p: Plan, sub: Subplan, outer: seq<Row>, db: Db)
    requires Conjunct(p, 0) && p.op.preds[0] == Exists(sub) && DecorrelateEqualityWhere(sub, {}).Some?
    requires !PreparedPreds(Residuals(sub.plan.kids[0].op.preds), outer, db)
    ensures CorrelatedExistsToSemi(p, 0).Some? && Run(CorrelatedExistsToSemi(p, 0).value, outer, db).Fails?
  {
    hide Run, DecorrelateEqualityWhere, Residuals, Equalities, PreparedPreds, PredsFn, MemberFn, JoinInstead, HiddenNames, PlanReferencesOuter;
    var es, names := DecorrelatedIs(sub, {});
    var projs := sub.plan.op.projs + HiddenProjections(es, names);
    RunFiltered(sub.plan.kids[0].perm, Residuals(sub.plan.kids[0].op.preds), Source(sub), outer, db);
    assert projs != [] by {
      NotEmpty(sub);
    }
    assert RightPlan(sub, projs) == Node(sub.plan.perm, Project(projs), [BasePlan(sub)]);
    RunProject(sub.plan.perm, projs, BasePlan(sub), outer, db);
    EqualitiesPrepared(es, names, outer, db);
    RulePlans(p, 0, Semi, JoinEqualities(es, names), None, RightPlan(sub, projs), outer, db);
  }

  /** The rule fires only with some equality. */
  lemma NotEmpty(sub: Subplan)
    requires DecorrelateEqualityWhere(sub, {}).Some?
    ensures DecorrelatableShape(sub.plan) && Equalities(sub.plan.kids[0].op.preds).Some? && Equalities(sub.plan.kids[0].op.preds).value != []
  {
    hide Equalities, PlanReferencesOuter, HiddenNames;
  }

  /** There is no owner row, so the block is never evaluated; the join evaluates its right side all the same. */
  lemma ExistsToSemiExposesFailure()
    ensures BoundPlan(EAGER) && Interpret(EAGER, TABLES).Ok? && Interpret(EAGER, TABLES).value.rows == []
    ensures CorrelatedExistsToSemi(EAGER, 0).Some? && Interpret(CorrelatedExistsToSemi(EAGER, 0).value, TABLES).Fails?
  {
    var owner, more := ColumnRef(Ident("u", "a"), Int64, 1), [Cmp(IntLit(1), Eq, EVERY_A)];
    EagerIs();
    EveryARaises([]);
    assert |more| == 1 && more[0] == Cmp(IntLit(1), Eq, EVERY_A);
    hide *;
    BlockIsBound("t", owner, more);
    BlockDecorrelates("t", owner, more);
    NoOwners(Exists(EAGER_BLOCK), []);
    CorrOfScan("u");
    OneBound(EAGER_BLOCK);
    FilterBound(Arbitrary, [Exists(EAGER_BLOCK)], ScanOf("u"));
    RightFails(EAGER, EAGER_BLOCK, [], TABLES);
    InterpretIsRun(EAGER);
    InterpretIsRun(CorrelatedExistsToSemi(EAGER, 0).value);
  }

  lemma EagerIs()
    ensures EAGER == Node(Arbitrary, Filter([Exists(EAGER_BLOCK)]), [ScanOf("u")]) && Conjunct(EAGER, 0) && EAGER.op.preds[0] == Exists(EAGER_BLOCK)
    ensures EAGER_BLOCK == Block("t", ColumnRef(Ident("u", "a"), Int64, 1), [Cmp(IntLit(1), Eq, EVERY_A)])
    ensures PreparedPred(Exists(EAGER_BLOCK), [], TABLES)
  {
    hide Run;
  }

  lemma OneBound(sub: Subplan)
    requires BoundSub(sub)
    ensures BoundPreds([Exists(sub)])
  {
  }

  // ---------------------------------------------------------------- a failure masked

  const T_A: ColumnRef := ColumnRef(Ident("t", "a"), Int64, 1)

  /** (SELECT a FROM t WHERE owner.a = owner.a): both rows, for every owner row. */
  const BOTH_ROWS: Subplan := Subplan(Node(Arbitrary, Filter([Cmp(Column(T_A), Eq, Column(T_A))]), [ScanOf("t")]), [T_A])

  const FAILING: Pred := IsNull(ScalarQuery(BOTH_ROWS, Int64))

  const NO_MATCH: Subplan := Block("u", T_A, [])

  /** SELECT * FROM t WHERE EXISTS (SELECT 1 FROM u WHERE u.a = t.a) AND (SELECT a FROM t ...) IS NULL. */
  const MASKED: Plan := Node(Arbitrary, Filter([Exists(NO_MATCH), FAILING]), [ScanOf("t")])

  lemma BothRowsRaise(row: Row)
    requires row.Keys == {Ident("t", "a")} && !row[Ident("t", "a")].Null?
    ensures EvalPred(FAILING, row, [], TABLES) == Error
  {
    var outer, ps := [] + [row], [Cmp(Column(T_A), Eq, Column(T_A))];
    SelfEqualityDecided(T_A, row, [], TABLES);
    SelfEqualityPrepared(T_A, outer, TABLES);
    assert BOTH_ROWS == Subplan(Node(Arbitrary, Filter(ps), [ScanOf("t")]), [T_A]);
    hide *;
    ScanIs("t", outer);
    TwoRows();
    RunFilter(Arbitrary, ps, ScanOf("t"), outer, TABLES);
    EveryRowKept(Run(ScanOf("t"), outer, TABLES).value, PredsFn(ps, outer, TABLES));
    TwoRowsRaise(Run(ScanOf("t"), outer, TABLES).value);
    NullTestFails(BOTH_ROWS, row, [], TABLES);
  }

  lemma TwoRows()
    ensures |ScanRows("t", TABLES["t"])| == 2
  {
  }

  lemma TwoRowsRaise(rel: Rel)
    requires |rel.rows| > 1
    ensures ScalarResult(rel, Int64).Fails?
  {
  }

  lemma EveryRowKept(rel: Rel, f: Row -> Truth)
    requires forall r: Row :: f(r) == True
    ensures FilterRel(rel, f) == Ok(rel)
  {
    TrueFilterKeepsAll(rel, f);
  }

  lemma BothRowsBound()
    ensures BoundPred(FAILING)
  {
    SelfEqualityBound(T_A, "t");
    hide BoundSub;
  }

  /** The original fails on its first row: conjuncts are always all evaluated. */
  lemma MaskedFails()
    ensures Interpret(MASKED, TABLES).Fails?
  {
    var rows, ps := ScanRows("t", TABLES["t"]), MASKED.op.preds;
    CellOfT(0);
    BothRowsRaise(rows[0]);
    ScanIs("t", []);
    RunFilter(Arbitrary, ps, ScanOf("t"), [], TABLES);
    hide Run, EvalPred;
    PredsFnAt(ps, [], TABLES);
    assert ps[1] == FAILING && ps == ps[..1] + [FAILING];
    ConjunctLast(ps[..1], FAILING, rows[0], [], TABLES);
    FlatMapFails(rows, KeepTrue(PredsFn(ps, [], TABLES)));
    assert KeepTrue(PredsFn(ps, [], TABLES))(rows[0]).Fails?;
  }

  /** A right plan over the empty table returns no rows. */
  lemma EmptyRight(projs: seq<Projection>, outer: seq<Row>)
    requires |projs| == 2 && projs[0].name != projs[1].name && PreparedOp(Project(projs), outer, TABLES)
    ensures Run(Node(Arbitrary, Project(projs), [ScanOf("u")]), outer, TABLES) == Ok(Rel(ProjectHeader(projs), []))
  {
    hide Run, PreparedOp;
    ScanIs("u", outer);
    RunProject(Arbitrary, projs, ScanOf("u"), outer, TABLES);
    assert |ScanRows("u", TABLES["u"])| == 0;
  }

  lemma {:induction false} NoRightRows(f: Row -> Truth, m: Row -> Truth, rows: seq<Row>, right: Rel)
    requires right.rows == []
    ensures FlatMap(rows, JoinOne(Semi, f, m, right)) == Ok([])
  {
    if rows != [] {
      NoRightRows(f, m, rows[..|rows| - 1], right);
      var none: seq<Row> := [];
      assert JoinOne(Semi, f, m, right)(rows[|rows| - 1]) == Ok(none) && none + none == none;
    }
  }

  /** The rewritten plan, over owners and a right plan that run. */
  lemma SemiRuns(p: Plan, sub: Subplan, es: seq<Equality>, names: seq<string>, owners: Rel, right: Rel, outer: seq<Row>, db: Db)
    requires Conjunct(p, 0) && p.op.preds[0] == Exists(sub) && DecorrelateEqualityWhere(sub, {}).Some?
    requires DecorrelatedBlock(sub, {}, es, names) && |names| == |es|
    requires Run(p.kids[0], outer, db) == Ok(owners) && PreparedPreds(Others(p.op.preds, 0), outer, db)
    requires Run(RightPlan(sub, sub.plan.op.projs + HiddenProjections(es, names)), outer, db) == Ok(right)
    ensures CorrelatedExistsToSemi(p, 0).Some?
    ensures Run(CorrelatedExistsToSemi(p, 0).value, outer, db) ==
            match JoinRel(Semi, PredsFn(JoinEqualities(es, names), outer, db), MemberFn(None, outer, db), owners, right)
            case Fails => Fails
            case Ok(joined) => FilterRel(joined, PredsFn(Others(p.op.preds, 0), outer, db))
  {
    hide Run, DecorrelateEqualityWhere, Equalities, PreparedPreds, PredsFn, MemberFn, JoinInstead, HiddenNames, PlanReferencesOuter, JoinRel, FilterRel,
         RightPlan, Others, JoinEqualities, HiddenProjections;
    var es', names' := DecorrelatedIs(sub, {});
    assert es' == es && names' == names;
    EqualitiesPrepared(es, names, outer, db);
    RulePlans(p, 0, Semi, JoinEqualities(es, names), None, RightPlan(sub, sub.plan.op.projs + HiddenProjections(es, names)), outer, db);
  }

  /** The right plan of a block without residual conjuncts projects its table. */
  lemma BlockRight(table: string, owner: ColumnRef, name: string)
    requires owner.depth == 1
    ensures var sub, es := Block(table, owner, []), [BlockEquality(table, owner)];
            var projs := sub.plan.op.projs + HiddenProjections(es, [name]);
            && DecorrelatableShape(sub.plan) && projs == [Projection("one", IntLit(1)), Projection(name, Column(ColumnA(table)))]
            && RightPlan(sub, projs) == Node(Arbitrary, Project(projs), [ScanOf(table)])
  {
    BlockDecorrelates(table, owner, []);
    BlockShape(table, owner, []);
    hide DecorrelateEqualityWhere, Residuals, Equalities;
    var sub, es := Block(table, owner, []), [BlockEquality(table, owner)];
    assert HiddenProjections(es, [name]) == [Projection(name, Column(ColumnA(table)))];
    assert BasePlan(sub) == ScanOf(table);
  }

  /** The names of a block with one equality. */
  lemma BlockNames(table: string, owner: ColumnRef) returns (name: string)
    requires owner.depth == 1
    ensures DecorrelatedBlock(Block(table, owner, []), {}, [BlockEquality(table, owner)], [name]) && name != "one"
    ensures name == "__corr_key_0"
  {
    BlockDecorrelates(table, owner, []);
    BlockShape(table, owner, []);
    var sub := Block(table, owner, []);
    var own := ProjectionNames(sub.plan.op.projs);
    name := "__corr_key_0";
    assert |name| == 12 && |"one"| == 3;
    assert forall n | n in own :: n == "one";
    HiddenNameIs(own + {});
    hide DecorrelateEqualityWhere, Residuals, Equalities, HiddenNames;
  }

  lemma HiddenNameIs(taken: set<string>)
    requires "__corr_key_0" !in taken
    ensures HiddenNames(1, taken) == ["__corr_key_0"]
  {
    assert DigitString(0) == "0";
    assert HiddenNames(0, taken) == [];
    assert "__corr_key_" + "0" == "__corr_key_0";
  }

  lemma NoMatchRuns(outer: seq<Row>)
    ensures Run(ScanOf("t"), outer, TABLES).Ok?
    ensures var f, m := PredsFn(JoinEqualities([BlockEquality("u", T_A)], ["__corr_key_0"]), outer, TABLES), MemberFn(None, outer, TABLES);
            forall right: Rel | right.rows == [] ::
              JoinRel(Semi, f, m, Run(ScanOf("t"), outer, TABLES).value, right) == Ok(Rel(Run(ScanOf("t"), outer, TABLES).value.header, []))
  {
    ScanIs("t", outer);
    hide Run, PredsFn, MemberFn;
    var owners := Run(ScanOf("t"), outer, TABLES).value;
    var f, m := PredsFn(JoinEqualities([BlockEquality("u", T_A)], ["__corr_key_0"]), outer, TABLES), MemberFn(None, outer, TABLES);
    forall right: Rel | right.rows == [] ensures JoinRel(Semi, f, m, owners, right) == Ok(Rel(owners.header, [])) {
      NoRightRows(f, m, owners.rows, right);
    }
  }

  lemma FilterOfNothing(header: seq<Field>, f: Row -> Truth)
    ensures FilterRel(Rel(header, []), f) == Ok(Rel(header, []))
  {
  }

  lemma MaskedIs()
    ensures MASKED == Node(Arbitrary, Filter([Exists(NO_MATCH), FAILING]), [ScanOf("t")]) && NO_MATCH == Block("u", T_A, []) && T_A.depth == 1
    ensures Others(MASKED.op.preds, 0) == [FAILING] && Conjunct(MASKED, 0) && MASKED.op.preds[0] == Exists(NO_MATCH)
    ensures PreparedPred(FAILING, [], TABLES) && Interpret(MASKED, TABLES) == Run(MASKED, [], TABLES)
  {
    hide Run;
  }

  /** No owner row finds a match, so the SEMI join keeps none and the failing conjunct is never evaluated. */
  lemma ExistsToSemiMasksFailure()
    ensures BoundPlan(MASKED) && Interpret(MASKED, TABLES).Fails?
    ensures CorrelatedExistsToSemi(MASKED, 0).Some?
    ensures var r := Interpret(CorrelatedExistsToSemi(MASKED, 0).value, TABLES);
            r.Ok? && r.value.rows == []
  {
    var es, projs := [BlockEquality("u", T_A)], [Projection("one", IntLit(1)), Projection("__corr_key_0", Column(ColumnA("u")))];
    hide *;
    MaskedFails();
    MaskedIs();
    MaskedBound();
    BlockDecorrelates("u", T_A, []);
    var name := BlockNames("u", T_A);
    BlockRight("u", T_A, name);
    ReadsPrepared("u", name);
    EmptyRight(projs, []);
    OnePrepared(FAILING, [], TABLES);
    NoMatchRuns([]);
    var owners, right := Run(ScanOf("t"), [], TABLES).value, Rel(ProjectHeader(projs), []);
    SemiRuns(MASKED, NO_MATCH, es, [name], owners, right, [], TABLES);
    InterpretIsRun(CorrelatedExistsToSemi(MASKED, 0).value);
    FilterOfNothing(owners.header, PredsFn([FAILING], [], TABLES));
  }

  lemma MaskedBound()
    ensures BoundPlan(MASKED)
  {
    hide *;
    MaskedIs();
    BothRowsBound();
    BlockIsBound("u", T_A, []);
    CorrOfScan("t");
    TwoBound(NO_MATCH, FAILING);
    FilterBound(Arbitrary, [Exists(NO_MATCH), FAILING], ScanOf("t"));
  }

  lemma TwoBound(sub: Subplan, p: Pred)
    requires BoundSub(sub) && BoundPred(p)
    ensures BoundPreds([Exists(sub), p])
  {
  }

  lemma ReadsPrepared(table: string, name: string)
    ensures PreparedOp(Project([Projection("one", IntLit(1)), Projection(name, Column(ColumnA(table)))]), [], TABLES)
  {
  }

  // ---------------------------------------------------------------- a name captured

  const TAKEN: ColumnRef := ColumnRef(Ident("", "__corr_key_0"), Int64, 1)

  const NAMED_BLOCK: Subplan := Block("t", TAKEN, [])

  /** A computed column of the owner that has the name the rule picks. */
  const OWN_PROJECTION: seq<Projection> := [Projection("__corr_key_0", IntLit(9))]

  const OWNER_PLAN: Plan := Node(Arbitrary, Project(OWN_PROJECTION), [ScanOf("t")])

  /** SELECT * FROM (SELECT 9 AS __corr_key_0 FROM t) AS x WHERE EXISTS (SELECT 1 FROM t WHERE t.a = x.__corr_key_0). */
  const CAPTURED: Plan := Node(Arbitrary, Filter([Exists(NAMED_BLOCK)]), [OWNER_PLAN])

  lemma LiteralBound()
    ensures BoundOp(Project(OWN_PROJECTION))
  {
    var projs := OWN_PROJECTION;
    assert forall i | 0 <= i < |projs| :: BoundScalar(projs[i].expr);
  }

  lemma OwnProjectionIs(s: Row, outer: seq<Row>)
    ensures EvalProjs(OWN_PROJECTION, s, outer, TABLES).Ok? && EvalScalar(OWN_PROJECTION[0].expr, s, outer, TABLES) == Ok(IntV(9))
    ensures PreparedOp(Project(OWN_PROJECTION), outer, TABLES) && DistinctIds(ProjectHeader(OWN_PROJECTION))
    ensures ProjectHeader(OWN_PROJECTION) == [Field(TAKEN.id, Int64)]
  {
    var projs := OWN_PROJECTION;
    assert projs[..|projs| - 1] == [];
  }

  lemma OwnerCell(s: Row, outer: seq<Row>)
    ensures var r := ProjectedRow(OWN_PROJECTION, s, outer, TABLES);
            RowFits(ProjectHeader(OWN_PROJECTION), r) && r.Keys == {TAKEN.id} && r[TAKEN.id] == IntV(9)
  {
    OwnProjectionIs(s, outer);
    hide ProjectedRow, EvalProjs, EvalScalar, DistinctIds;
    ProjectedCell(OWN_PROJECTION, 0, s, outer, TABLES);
  }

  lemma OwnerRows(outer: seq<Row>)
    ensures var r := Run(OWNER_PLAN, outer, TABLES);
            && r.Ok? && |r.value.rows| == 2 && DistinctIds(r.value.header)
            && forall k | 0 <= k < 2 :: r.value.rows[k].Keys == {TAKEN.id} && r.value.rows[k][TAKEN.id] == IntV(9)
  {
    ScanIs("t", outer);
    OwnProjectionIs(map[], outer);
    assert OWNER_PLAN == Node(Arbitrary, Project(OWN_PROJECTION), [ScanOf("t")]) && OWN_PROJECTION != [];
    TwoRows();
    hide Run, EvalProjs, EvalScalar, PreparedOp, DistinctIds, ScanRows, ProjectedRow, ProjectRel, ProjectFn;
    RunProject(Arbitrary, OWN_PROJECTION, ScanOf("t"), outer, TABLES);
    var rel := Run(ScanOf("t"), outer, TABLES).value;
    forall k | 0 <= k < |rel.rows| ensures EvalProjs(OWN_PROJECTION, rel.rows[k], outer, TABLES).Ok? {
      OwnProjectionIs(rel.rows[k], outer);
    }
    ProjectRelIs(OWN_PROJECTION, rel, outer, TABLES);
    forall k | 0 <= k < 2
      ensures var r := ProjectedRowsOf(OWN_PROJECTION, rel.rows, outer, TABLES)[k]; r.Keys == {TAKEN.id} && r[TAKEN.id] == IntV(9)
    {
      OwnerCell(rel.rows[k], outer);
    }
  }

  /** A filter whose predicate is false on every row keeps nothing. */
  lemma FalseEverywhere(rel: Rel, f: Row -> Truth)
    requires forall k | 0 <= k < |rel.rows| :: f(rel.rows[k]) == False
    ensures FilterRel(rel, f) == Ok(Rel(rel.header, []))
  {
    var none := (r: Row) => False;
    FilterAgreeOn(rel, f, none);
    RejectsAll(rel.rows, none);
  }

  /** On a row of `t`, the block's equality with a computed 9 is false. */
  lemma SevenIsNotNine(k: int, l: Row)
    requires 0 <= k < 2 && l.Keys == {TAKEN.id} && l[TAKEN.id] == IntV(9)
    ensures EvalPreds([Cmp(Column(ColumnA("t")), Eq, Column(TAKEN))], ScanRows("t", TABLES["t"])[k], [] + [l], TABLES) == False
  {
    CellOfT(k);
    var eq, row, outer := Cmp(Column(ColumnA("t")), Eq, Column(TAKEN)), ScanRows("t", TABLES["t"])[k], [] + [l];
    assert OuterCell(TAKEN, outer) == Ok(IntV(9));
    assert EvalPred(eq, row, outer, TABLES) == False;
    OnePredicate(eq, row, outer, TABLES);
  }

  /** No row of `t` equals the owner's computed column. */
  lemma BlockKeepsNothing(l: Row)
    requires l.Keys == {TAKEN.id} && l[TAKEN.id] == IntV(9)
    ensures var r := Run(Node(Arbitrary, Filter([Cmp(Column(ColumnA("t")), Eq, Column(TAKEN))]), [ScanOf("t")]), [] + [l], TABLES);
            r.Ok? && r.value.rows == []
  {
    var outer, ps := [] + [l], [Cmp(Column(ColumnA("t")), Eq, Column(TAKEN))];
    ScanIs("t", outer);
    assert PreparedPreds(ps, outer, TABLES);
    TwoRows();
    var rel, f := Run(ScanOf("t"), outer, TABLES).value, PredsFn(ps, outer, TABLES);
    PredsFnAt(ps, outer, TABLES);
    hide Run, EvalPreds, PreparedPreds, PredsFn, ScanRows, FilterRel;
    RunFilter(Arbitrary, ps, ScanOf("t"), outer, TABLES);
    forall k | 0 <= k < |rel.rows| ensures f(rel.rows[k]) == False {
      SevenIsNotNine(k, l);
    }
    FalseEverywhere(rel, f);
  }

  lemma NothingEqualsNine(l: Row)
    requires l.Keys == {TAKEN.id} && l[TAKEN.id] == IntV(9)
    ensures EvalPred(Exists(NAMED_BLOCK), l, [], TABLES) == False
  {
    var outer, projs := [] + [l], [Projection("one", IntLit(1))];
    var filter := Node(Arbitrary, Filter([Cmp(Column(ColumnA("t")), Eq, Column(TAKEN))]), [ScanOf("t")]);
    NamedBlockIs();
    ExistsRuns(NAMED_BLOCK, l, [], TABLES);
    hide *;
    LiteralPrepared(outer);
    BlockKeepsNothing(l);
    RunProject(Arbitrary, projs, filter, outer, TABLES);
    OneProjection("one", IntLit(1));
    var rel := Run(filter, outer, TABLES).value;
    NothingProjected(projs, rel.header, ProjectFn(projs, outer, TABLES));
    assert rel == Rel(rel.header, []);
  }

  lemma NamedBlockIs()
    ensures NAMED_BLOCK.corr != []
    ensures NAMED_BLOCK.plan == Node(Arbitrary, Project([Projection("one", IntLit(1))]),
                                     [Node(Arbitrary, Filter([Cmp(Column(ColumnA("t")), Eq, Column(TAKEN))]), [ScanOf("t")])])
  {
    var ps := [Cmp(Column(ColumnA("t")), Eq, Column(TAKEN))];
    assert ps + [] == ps;
  }

  lemma ExistsRuns(sub: Subplan, l: Row, outer: seq<Row>, db: Db)
    requires sub.corr != []
    ensures EvalPred(Exists(sub), l, outer, db) == match Run(sub.plan, outer + [l], db) case Fails => Error case Ok(rel) => TruthOf(rel.rows != [])
  {
    hide Eval, Prepared;
    assert EvalSub(sub, l, outer, db) == Run(sub.plan, outer + [l], db);
    assert EvalPred(Exists(sub), l, outer, db) == EvalExists(sub, l, outer, db);
  }

  lemma NothingProjected(projs: seq<Projection>, header: seq<Field>, f: Row -> Outcome<Row>)
    requires DistinctIds(ProjectHeader(projs))
    ensures ProjectRel(ProjectHeader(projs), Rel(header, []), f) == Ok(Rel(ProjectHeader(projs), []))
  {
  }

  lemma CapturedIs()
    ensures CAPTURED == Node(Arbitrary, Filter([Exists(NAMED_BLOCK)]), [OWNER_PLAN]) && NAMED_BLOCK == Block("t", TAKEN, []) && TAKEN.depth == 1
    ensures Others(CAPTURED.op.preds, 0) == [] && Conjunct(CAPTURED, 0) && CAPTURED.op.preds[0] == Exists(NAMED_BLOCK)
    ensures PreparedPred(Exists(NAMED_BLOCK), [], TABLES) && Interpret(CAPTURED, TABLES) == Run(CAPTURED, [], TABLES)
  {
    hide Run;
    assert NAMED_BLOCK == Block("t", TAKEN, []) && NAMED_BLOCK.corr == [TAKEN];
  }

  lemma CapturedKeepsNothing()
    ensures Interpret(CAPTURED, TABLES).Ok? && Interpret(CAPTURED, TABLES).value.rows == []
  {
    CapturedIs();
    OwnerRows([]);
    hide Run, EvalPred, PreparedPred, FilterRel, PredsFn, Interpret, Others;
    var ps := [Exists(NAMED_BLOCK)];
    RunFilter(Arbitrary, ps, OWNER_PLAN, [], TABLES);
    var rel := Run(OWNER_PLAN, [], TABLES).value;
    var f := PredsFn(ps, [], TABLES);
    PredsFnAt(ps, [], TABLES);
    forall k | 0 <= k < |rel.rows| ensures f(rel.rows[k]) == False {
      NothingEqualsNine(rel.rows[k]);
      OnePredicate(Exists(NAMED_BLOCK), rel.rows[k], [], TABLES);
    }
    FalseEverywhere(rel, f);
    OnePrepared(Exists(NAMED_BLOCK), [], TABLES);
  }

  lemma TwoNames(projs: seq<Projection>)
    requires |projs| == 2 && projs[0].name != projs[1].name
    ensures DistinctIds(ProjectHeader(projs))
  {
  }

  /** The right plan returns a row for each row of `t`. */
  lemma CapturedRight(projs: seq<Projection>)
    requires projs == [Projection("one", IntLit(1)), Projection("__corr_key_0", Column(ColumnA("t")))]
    ensures var r := Run(Node(Arbitrary, Project(projs), [ScanOf("t")]), [], TABLES);
            r.Ok? && r.value.header == ProjectHeader(projs) && |r.value.rows| == 2
  {
    ScanIs("t", []);
    assert |"__corr_key_0"| == 12 && |"one"| == 3;
    assert projs[0].name != projs[1].name;
    TwoNames(projs);
    assert PreparedOp(Project(projs), [], TABLES);
    TwoRows();
    var rel := Run(ScanOf("t"), [], TABLES).value;
    hide Run, PreparedOp, DistinctIds, ScanRows, ProjectRel;
    RunProject(Arbitrary, projs, ScanOf("t"), [], TABLES);
    forall k | 0 <= k < |rel.rows| ensures EvalProjs(projs, rel.rows[k], [], TABLES).Ok? {
      CellOfT(k);
      ProjsPointwise(projs, rel.rows[k], [], TABLES);
    }
    ProjectRelIs(projs, rel, [], TABLES);
  }

  /** The join's equality reads the owner's column on both sides. */
  lemma CapturedEquality(l: Row, r: Row)
    requires l.Keys == {TAKEN.id} && l[TAKEN.id] == IntV(9)
    ensures EvalPreds(JoinEqualities([BlockEquality("t", TAKEN)], ["__corr_key_0"]), Joined(l, r), [], TABLES) == True
  {
    var ps := JoinEqualities([BlockEquality("t", TAKEN)], ["__corr_key_0"]);
    assert ps[..0] == [] && ps[0] == JoinEquality(BlockEquality("t", TAKEN), "__corr_key_0");
    assert EvalPred(ps[0], Joined(l, r), [], TABLES) == True;
  }

  lemma {:induction false} EveryOwnerKept(f: Row -> Truth, m: Row -> Truth, rows: seq<Row>, right: Rel)
    requires right.rows != [] && forall k | 0 <= k < |rows| :: f(Joined(rows[k], right.rows[0])) == True
    ensures FlatMap(rows, JoinOne(Semi, f, m, right)) == Ok(rows)
  {
    hide Joined;
    if rows != [] {
      var n := |rows| - 1;
      EveryOwnerKept(f, m, rows[..n], right);
      assert JoinOne(Semi, f, m, right)(rows[n]) == Ok([rows[n]]);
      assert rows[..n] + [rows[n]] == rows;
    }
  }

  lemma SemiKeepsAll(f: Row -> Truth, m: Row -> Truth, owners: Rel, right: Rel)
    requires DistinctIds(owners.header) && right.rows != [] && forall k | 0 <= k < |owners.rows| :: f(Joined(owners.rows[k], right.rows[0])) == True
    ensures JoinRel(Semi, f, m, owners, right) == Ok(owners)
  {
    hide FlatMap, JoinOne, Joined, DistinctIds;
    EveryOwnerKept(f, m, owners.rows, right);
  }

  lemma CapturedBound()
    ensures BoundPlan(CAPTURED)
  {
    OwnerPlanIs();
    hide *;
    CapturedIs();
    BlockIsBound("t", TAKEN, []);
    OneBound(NAMED_BLOCK);
    LiteralBound();
    CorrOfScan("t");
    CorrOfNode(Arbitrary, Project(OWN_PROJECTION), ScanOf("t"));
    FilterBound(Arbitrary, [Exists(NAMED_BLOCK)], OWNER_PLAN);
  }

  lemma OwnerPlanIs()
    ensures OWNER_PLAN == Node(Arbitrary, Project(OWN_PROJECTION), [ScanOf("t")])
  {
  }

  /** The hidden column has the owner's name, so the join compares the owner's column with itself and keeps every row. */
  lemma ExistsToSemiCapturesName()
    ensures BoundPlan(CAPTURED) && Interpret(CAPTURED, TABLES).Ok? && Interpret(CAPTURED, TABLES).value.rows == []
    ensures CorrelatedExistsToSemi(CAPTURED, 0).Some?
    ensures var r := Interpret(CorrelatedExistsToSemi(CAPTURED, 0).value, TABLES);
            r.Ok? && |r.value.rows| == 2
  {
    var es, projs := [BlockEquality("t", TAKEN)], [Projection("one", IntLit(1)), Projection("__corr_key_0", Column(ColumnA("t")))];
    hide *;
    CapturedKeepsNothing();
    CapturedIs();
    CapturedBound();
    BlockDecorrelates("t", TAKEN, []);
    var name := BlockNames("t", TAKEN);
    BlockRight("t", TAKEN, name);
    CapturedRight(projs);
    OwnerRows([]);
    TrueNeedsNothing(CANONICAL_TRUE, [], TABLES);
    var owners, right := Run(OWNER_PLAN, [], TABLES).value, Run(Node(Arbitrary, Project(projs), [ScanOf("t")]), [], TABLES).value;
    var f := PredsFn(JoinEqualities(es, [name]), [], TABLES);
    PredsFnAt(JoinEqualities(es, [name]), [], TABLES);
    forall k | 0 <= k < |owners.rows| ensures f(Joined(owners.rows[k], right.rows[0])) == True {
      CapturedEquality(owners.rows[k], right.rows[0]);
    }
    SemiKeepsAll(f, MemberFn(None, [], TABLES), owners, right);
    SemiRuns(CAPTURED, NAMED_BLOCK, es, [name], owners, right, [], TABLES);
    InterpretIsRun(CorrelatedExistsToSemi(CAPTURED, 0).value);
    FilterNothing(owners, [], TABLES);
  }
}
