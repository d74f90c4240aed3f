/** Queries that the join rules change: a conjunct moved away from the columns its subquery reads, a failure that pushing
  exposes, and one that an INNER join no longer meets.
 */
module PushdownFailures {
  import opened Plans
  import opened Sequences
  import opened Values
  import opened Algebra
  import opened Semantics
  import opened Shapes
  import opened Correlation
  import opened FilterRuleSoundness
  import opened RewriteFixpoint
  import opened SmallPlans
  import opened JoinAlgebra
  import opened JoinRules
  import opened JoinReorder
  import opened PlanRuns
  import opened DecorrelationSoundness
  import opened InnerPushdown
  import opened PushdownExactly
  import opened LeftJoinExactly
  import opened JoinShapes
  import opened SubqueryFailures
  import opened AggregatePushdown
  import opened SubqueryReads

  // ---------------------------------------------------------------- columns lost

  const ONE_EACH: Db := map["t" := OneColumn([7]), "u" := OneColumn([7])]

  const T_OWN: ColumnRef := ColumnRef(Ident("t", "a"), Int64, 0)

  const U_A: ColumnRef := ColumnRef(Ident("u", "a"), Int64, 1)

  /** (SELECT a FROM t WHERE u.a = u.a), with `u` from the enclosing block. */
  const READS_U: Subplan := Subplan(Node(Arbitrary, Filter([Cmp(Column(U_A), Eq, Column(U_A))]), [ScanOf("t")]), [U_A])

  const EQUALS_A: Pred := Cmp(Column(T_OWN), Eq, ScalarQuery(READS_U, Int64))

  const CROSS: Plan := Node(Arbitrary, Join(Inner, [], None), [ScanOf("t"), ScanOf("u")])

  /** SELECT * FROM t, u WHERE t.a = (SELECT a FROM t WHERE u.a = u.a). */
  const MOVED: Plan := Node(Arbitrary, Filter([EQUALS_A]), [CROSS])

  lemma ScanOne(table: string, outer: seq<Row>)
    requires table == "t" || table == "u"
    ensures table in ONE_EACH
    ensures var rel := Rel([Field(Ident(table, "a"), Int64)], ScanRows(table, ONE_EACH[table]));
            Run(ScanOf(table), outer, ONE_EACH) == Ok(rel) && |rel.rows| == 1
    ensures var row := ScanRows(table, ONE_EACH[table])[0];
            row.Keys == {Ident(table, "a")} && row[Ident(table, "a")] == IntV(7)
  {
    var p, t := ScanOf(table), ONE_EACH[table];
    var header := Rename(table, t.header);
    assert table in ONE_EACH && t == OneColumn([7]);
    assert header == [Field(Ident(table, "a"), Int64)];
    assert DistinctIds(header) && Prepared(p, outer, ONE_EACH);
    assert CellsOf(t.header, t.rows[0])[0] == IntV(7);
    MakeRowFits(header, CellsOf(t.header, t.rows[0]));
    assert header[0].id == Ident(table, "a");
    assert RowFits([Field(Ident(table, "a"), Int64)], ScanRows(table, t)[0]);
  }

  lemma ReadsUIs()
    ensures READS_U == Subplan(Node(Arbitrary, Filter([Cmp(Column(U_A), Eq, Column(U_A))]), [ScanOf("t")]), [U_A]) && READS_U.corr != []
    ensures U_A.depth == 1 && U_A.id == Ident("u", "a")
  {
  }

  /** (SELECT a FROM `table` WHERE owner.c = owner.c) over one row: with the column it returns the row, without it it fails. */
  lemma SubqueryDecided(c: ColumnRef, table: string, rel: Rel, row: Row, db: Db)
    requires c.depth == 1 && Run(ScanOf(table), [] + [row], db) == Ok(rel) && |rel.rows| == 1
    ensures var r := Run(Node(Arbitrary, Filter([Cmp(Column(c), Eq, Column(c))]), [ScanOf(table)]), [] + [row], db);
            && (c.id in row && !row[c.id].Null? ==> r == Ok(rel))
            && (c.id !in row ==> r.Fails?)
  {
    var outer, ps := [] + [row], [Cmp(Column(c), Eq, Column(c))];
    hide *;
    SelfEqualityPrepared(c, outer, db);
    SelfEqualityDecided(c, row, [], db);
    RunFilter(Arbitrary, ps, ScanOf(table), outer, db);
    var f := PredsFn(ps, outer, db);
    if c.id in row && !row[c.id].Null? {
      EveryRowKept(rel, f);
    }
    if c.id !in row {
      FilterOutcome(rel, f);
      assert f(rel.rows[0]) == Error;
    }
  }

  /** The scalar of one row of one column. */
  lemma OneCellResult(rel: Rel, id: Ident)
    requires |rel.rows| == 1 && |rel.header| == 1 && rel.header[0].id == id && id in rel.rows[0]
    ensures ScalarResult(rel, Int64).Ok?
  {
  }

  lemma MovedIs()
    ensures MOVED == Node(Arbitrary, Filter([EQUALS_A]), [CROSS]) && CROSS == Node(Arbitrary, Join(Inner, [], None), [ScanOf("t"), ScanOf("u")])
    ensures EQUALS_A == Cmp(Column(T_OWN), Eq, ScalarQuery(READS_U, Int64)) && T_OWN.id == Ident("t", "a") && T_OWN.depth == 0 && READS_U.corr != []
    ensures PreparedPreds([EQUALS_A], [], ONE_EACH) && PreparedPreds([], [], ONE_EACH)
  {
    OnePrepared(EQUALS_A, [], ONE_EACH);
    hide Run;
  }

  lemma ConjunctMoves()
    ensures FilterIntoJoin(MOVED).Some? && FilterOverJoin(MOVED) && OutputTables(ScanOf("t")) == {"t"} && OutputTables(ScanOf("u")) == {"u"}
    ensures Placed(Inner, [EQUALS_A], AtLeft, {"t"}, {"u"}) == [EQUALS_A]
  {
    var ps := [EQUALS_A];
    assert RefTables(EQUALS_A) == {"t"} && "t" !in {"u"};
    assert PlaceOf(Inner, EQUALS_A, {"t"}, {"u"}) == AtLeft;
    assert ps[..|ps| - 1] == [];
  }

  lemma JoinBound(kind: JoinKind)
    ensures BoundPlan(Node(Arbitrary, Join(kind, [], None), [ScanOf("t"), ScanOf("u")]))
  {
    CorrOfScan("t");
    CorrOfScan("u");
    var join := Node(Arbitrary, Join(kind, [], None), [ScanOf("t"), ScanOf("u")]);
    assert BoundPlan(join.kids[0]) && BoundPlan(join.kids[1]);
  }

  lemma MovedBound()
    ensures BoundPlan(MOVED)
  {
    hide *;
    MovedIs();
    ReadsUIs();
    SelfEqualityBound(U_A, "t");
    ComparisonBound(T_OWN, READS_U);
    JoinBound(Inner);
    FilterBound(Arbitrary, [EQUALS_A], CROSS);
  }

  /** The joined row has both columns, the left row only its own. */
  lemma JoinedHasBoth(l: Row, r: Row)
    requires l.Keys == {Ident("t", "a")} && r.Keys == {Ident("u", "a")} && r[Ident("u", "a")] == IntV(7)
    ensures Ident("u", "a") in Joined(l, r) && !Joined(l, r)[Ident("u", "a")].Null? && Ident("t", "a") in Joined(l, r)
  {
  }

  /** Above the join the conjunct compares; over the left side alone it fails. */
  lemma ConjunctDecided(l: Row, r: Row)
    requires l.Keys == {Ident("t", "a")} && r.Keys == {Ident("u", "a")} && r[Ident("u", "a")] == IntV(7)
    ensures PredsFn([EQUALS_A], [], ONE_EACH)(Joined(l, r)) != Error && PredsFn([EQUALS_A], [], ONE_EACH)(l) == Error
  {
    hide *;
    MovedIs();
    ReadsUIs();
    JoinedHasBoth(l, r);
    PredsFnAt([EQUALS_A], [], ONE_EACH);
    OnePredicate(EQUALS_A, Joined(l, r), [], ONE_EACH);
    OnePredicate(EQUALS_A, l, [], ONE_EACH);
    ComparisonFails(T_OWN, READS_U, Joined(l, r), [], ONE_EACH);
    ComparisonFails(T_OWN, READS_U, l, [], ONE_EACH);
    ScanOne("t", [] + [Joined(l, r)]);
    ScanOne("t", [] + [l]);
    var rel := Rel([Field(Ident("t", "a"), Int64)], ScanRows("t", ONE_EACH["t"]));
    SubqueryDecided(U_A, "t", rel, Joined(l, r), ONE_EACH);
    SubqueryDecided(U_A, "t", rel, l, ONE_EACH);
    OneCellResult(rel, Ident("t", "a"));
  }

  lemma EmptyListTrue(row: Row)
    ensures PredsFn([], [], ONE_EACH)(row) == True
  {
    PredsFnAt([], [], ONE_EACH);
    NoPreds(row, [], ONE_EACH);
  }

  lemma CrossDistinct()
    ensures DistinctIds([Field(Ident("t", "a"), Int64)] + [Field(Ident("u", "a"), Int64)])
  {
  }

  /** The query returns its rows; once its conjunct is below the join, the subquery cannot see `u` and the query fails. */
  lemma PushCanLoseColumns()
    ensures BoundPlan(MOVED) && Interpret(MOVED, ONE_EACH).Ok?
    ensures FilterIntoJoin(MOVED).Some? && Interpret(FilterIntoJoin(MOVED).value, ONE_EACH).Fails?
    ensures FilterOverJoin(MOVED) && !InnerPushIsHarmless(MOVED, [], ONE_EACH)
  {
    var p := FilterIntoJoin(MOVED);
    assert p.Some? ==> Interpret(p.value, ONE_EACH) == Run(p.value, [], ONE_EACH) by { hide Run, FilterIntoJoin; }
    assert Interpret(MOVED, ONE_EACH) == Run(MOVED, [], ONE_EACH) by { hide Run; }
    hide *;
    MovedIs();
    MovedBound();
    ConjunctMoves();
    CrossDistinct();
    ScanOne("t", []);
    ScanOne("u", []);
    InnerPlans(MOVED, [], ONE_EACH);
    var left, right := Run(ScanOf("t"), [], ONE_EACH).value, Run(ScanOf("u"), [], ONE_EACH).value;
    var f, w := PredsFn([], [], ONE_EACH), PredsFn([EQUALS_A], [], ONE_EACH);
    ConjunctDecided(left.rows[0], right.rows[0]);
    EmptyListTrue(Joined(left.rows[0], right.rows[0]));
    FilteredInner(f, MemberFn(None, [], ONE_EACH), w, left, right);
    OnlyPairFine(left.rows, right.rows, f, w);
    FilterOutcome(left, w);
    FilterFailsFirst(left, right, MemberFn(None, [], ONE_EACH), w, PredsFn(Placed(Inner, [EQUALS_A], AtRight, {"t"}, {"u"}), [], ONE_EACH),
                     PredsFn([] + Placed(Inner, [EQUALS_A], AtJoin, {"t"}, {"u"}), [], ONE_EACH),
                     PredsFn(Placed(Inner, [EQUALS_A], AtResidual, {"t"}, {"u"}), [], ONE_EACH));
    FilterIntoInnerExactly(MOVED, [], ONE_EACH);
  }

  lemma FilterFailsFirst(left: Rel, right: Rel, m: Row -> Truth, a: Row -> Truth, b: Row -> Truth, g: Row -> Truth, res: Row -> Truth)
    requires FilterRel(left, a).Fails?
    ensures PushedJoin(left, right, m, a, b, g, res).Fails?
  {
  }

  lemma OnlyPairFine(ls: seq<Row>, rs: seq<Row>, f: Row -> Truth, w: Row -> Truth)
    requires |ls| == 1 && |rs| == 1 && f(Joined(ls[0], rs[0])) != Error && w(Joined(ls[0], rs[0])) != Error
    ensures !SomePair(ls, rs, BadAbove(f, w))
  {
  }

  // ---------------------------------------------------------------- a failure exposed

  /** t.a = (SELECT a FROM t WHERE owner.a = owner.a): more than one row, for every owner row. */
  const TWO_VALUES: Pred := Cmp(Column(T_OWN), Eq, ScalarQuery(BOTH_ROWS, Int64))

  const SEMI: Plan := Node(Arbitrary, Join(Semi, [], None), [ScanOf("t"), ScanOf("u")])

  /** A filter over a SEMI join with an empty right side. */
  const ABOVE_SEMI: Plan := Node(Arbitrary, Filter([TWO_VALUES]), [SEMI])

  lemma TwoValuesFail(row: Row)
    requires row.Keys == {Ident("t", "a")} && !row[Ident("t", "a")].Null?
    ensures EvalPred(TWO_VALUES, row, [], TABLES) == Error
  {
    BothRowsRaise(row);
    hide EvalSub, Run;
    assert EvalScalar(ScalarQuery(BOTH_ROWS, Int64), row, [], TABLES).Fails?;
  }

  lemma AboveSemiIs()
    ensures FilterIntoJoin(ABOVE_SEMI).Some? && FilterOverJoin(ABOVE_SEMI) && ABOVE_SEMI.kids[0].op == Join(Semi, [], None)
    ensures ABOVE_SEMI.kids[0].kids == [ScanOf("t"), ScanOf("u")] && ABOVE_SEMI.op.preds == [TWO_VALUES]
    ensures OutputTables(ScanOf("t")) == {"t"} && OutputTables(ScanOf("u")) == {"u"} && Placed(Semi, [TWO_VALUES], AtLeft, {"t"}, {"u"}) == [TWO_VALUES]
    ensures Executable(Join(Semi, [], None)) && PreparedOp(Join(Semi, [], None), [], TABLES) && PreparedPreds([TWO_VALUES], [], TABLES)
  {
    OnePrepared(TWO_VALUES, [], TABLES);
    var ps := [TWO_VALUES];
    assert RefTables(TWO_VALUES) == {"t"};
    assert PlaceOf(Semi, TWO_VALUES, {"t"}, {"u"}) == AtLeft;
    assert ps[..|ps| - 1] == [];
    hide Run;
  }

  lemma AboveSemiBound()
    ensures BoundPlan(ABOVE_SEMI)
  {
    assert ABOVE_SEMI == Node(Arbitrary, Filter([TWO_VALUES]), [Node(Arbitrary, Join(Semi, [], None), [ScanOf("t"), ScanOf("u")])]);
    BothRowsIs();
    hide *;
    SelfEqualityBound(T_A, "t");
    ComparisonBound(T_OWN, BOTH_ROWS);
    JoinBound(Semi);
    FilterBound(Arbitrary, [TWO_VALUES], Node(Arbitrary, Join(Semi, [], None), [ScanOf("t"), ScanOf("u")]));
  }

  lemma BothRowsIs()
    ensures BOTH_ROWS == Subplan(Node(Arbitrary, Filter([Cmp(Column(T_A), Eq, Column(T_A))]), [ScanOf("t")]), [T_A]) && T_A.depth == 1
    ensures TWO_VALUES == Cmp(Column(T_OWN), Eq, ScalarQuery(BOTH_ROWS, Int64))
  {
  }

  lemma NothingSeen(f: Row -> Truth, m: Row -> Truth, right: Rel)
    requires right.rows == []
    ensures forall l: Row :: JoinTruth(Semi, f, m, right)(l) == False
  {
  }

  lemma NeverReached(rel: Rel, j: Row -> Truth, whole: Row -> Truth, a: Row -> Truth, b: Row -> Truth)
    requires (forall l: Row :: j(l) == False) && rel.rows != [] && a(rel.rows[0]) == Error
    ensures FilterTwice(rel, j, whole) == Ok(Rel(rel.header, [])) && FilterThrice(rel, a, j, b).Fails?
  {
    FilterOutcome(rel, a);
    hide FilterRel, FilterThrice, FilterTwice;
    TwiceOutcome(rel, j, whole);
    ThriceOutcome(rel, a, j, b);
    KeepSomething(rel.rows, Conj(IsTrue(j), IsTrue(whole)));
    assert BelowFails(rel, j, a, b) && !VisibleFailure(rel, j, whole);
  }

  /** The SEMI join keeps no row, so the conjunct is never evaluated; below the join it is, and fails. */
  lemma PushCanExposeFailure()
    ensures BoundPlan(ABOVE_SEMI) && Interpret(ABOVE_SEMI, TABLES).Ok? && Interpret(ABOVE_SEMI, TABLES).value.rows == []
    ensures FilterIntoJoin(ABOVE_SEMI).Some? && Interpret(FilterIntoJoin(ABOVE_SEMI).value, TABLES).Fails?
    ensures FilterOverJoin(ABOVE_SEMI) && !PushIsHarmless(ABOVE_SEMI, [], TABLES)
  {
    var p, kind := ABOVE_SEMI, JoinKind.Semi;
    InterpretIsRun(p);
    assert FilterIntoJoin(p).Some? by { AboveSemiIs(); }
    InterpretIsRun(FilterIntoJoin(p).value);
    assert !EmitsRight(kind);
    hide *;
    AboveSemiIs();
    AboveSemiBound();
    ScanIs("t", []);
    ScanIs("u", []);
    TwoRows();
    NoRows();
    ExistencePlans(p, [], TABLES);
    var left, right := Run(ScanOf("t"), [], TABLES).value, Run(ScanOf("u"), [], TABLES).value;
    var f, m := PredsFn([], [], TABLES), MemberFn(None, [], TABLES);
    var a, b := PredsFn([TWO_VALUES], [], TABLES), PredsFn(Placed(Semi, [TWO_VALUES], AtResidual, {"t"}, {"u"}), [], TABLES);
    CellOfT(0);
    IntIsNotNull(left.rows[0]);
    TwoValuesFail(left.rows[0]);
    PredsFnAt([TWO_VALUES], [], TABLES);
    OnePredicate(TWO_VALUES, left.rows[0], [], TABLES);
    NothingSeen(f, m, right);
    NeverReached(left, JoinTruth(Semi, f, m, right), a, a, b);
    FilterIntoExistenceExactly(p, [], TABLES);
  }

  lemma NoRows()
    ensures ScanRows("u", TABLES["u"]) == []
  {
    assert |ScanRows("u", TABLES["u"])| == 0;
  }

  lemma IntIsNotNull(row: Row)
    requires Ident("t", "a") in row && row[Ident("t", "a")] == IntV(7)
    ensures !row[Ident("t", "a")].Null?
  {
  }

  // ---------------------------------------------------------------- a failure masked

  const T_IS_NINE: Pred := Cmp(Column(T_OWN), Eq, IntLit(9))

  /** The same table under another name. */
  const SCAN_V: Plan := Node(Arbitrary, Scan("t", "v"), [])

  /** A filter over a SEMI join that keeps every row: one conjunct moves and drops them all, the other stays and fails. */
  const DROPPED: Plan :=
    Node(Arbitrary, Filter([T_IS_NINE, FAILING]), [Node(Arbitrary, Join(Semi, [], None), [ScanOf("t"), SCAN_V])])

  lemma ScanOfV(outer: seq<Row>)
    ensures Run(SCAN_V, outer, TABLES).Ok? && Run(SCAN_V, outer, TABLES).value.rows != []
  {
    var header := Rename("v", TABLES["t"].header);
    assert header == [Field(Ident("v", "a"), Int64)];
    assert DistinctIds(header) && Prepared(SCAN_V, outer, TABLES);
  }

  lemma NineMoves()
    ensures Placed(Semi, [T_IS_NINE, FAILING], AtLeft, {"t"}, {"v"}) == [T_IS_NINE]
  {
    var ps := [T_IS_NINE, FAILING];
    assert RefTables(T_IS_NINE) == {"t"} && RefTables(FAILING) == {};
    assert PlaceOf(Semi, T_IS_NINE, {"t"}, {"v"}) == AtLeft && PlaceOf(Semi, FAILING, {"t"}, {"v"}) == AtResidual;
    hide PlaceOf;
    assert ps[..1] == [T_IS_NINE] && ps[..1][..0] == [];
    assert Placed(Semi, ps[..1], AtLeft, {"t"}, {"v"}) == [T_IS_NINE];
  }

  lemma DroppedReady()
    ensures Executable(Join(Semi, [], None)) && PreparedOp(Join(Semi, [], None), [], TABLES) && PreparedPreds([T_IS_NINE, FAILING], [], TABLES)
  {
    hide Run;
    assert PreparedPred(T_IS_NINE, [], TABLES) && PreparedPred(FAILING, [], TABLES);
  }

  lemma DroppedIs()
    ensures FilterIntoJoin(DROPPED).Some? && FilterOverJoin(DROPPED) && DROPPED.kids[0].op == Join(Semi, [], None)
    ensures DROPPED.kids[0].kids == [ScanOf("t"), SCAN_V] && DROPPED.op.preds == [T_IS_NINE, FAILING]
    ensures OutputTables(ScanOf("t")) == {"t"} && OutputTables(SCAN_V) == {"v"}
  {
    NineMoves();
    hide Placed;
  }

  lemma DroppedBound()
    ensures BoundPlan(DROPPED)
  {
    var join := Node(Arbitrary, Join(Semi, [], None), [ScanOf("t"), SCAN_V]);
    assert DROPPED == Node(Arbitrary, Filter([T_IS_NINE, FAILING]), [join]) && BoundPred(T_IS_NINE);
    assert BoundPlan(join.kids[0]) && BoundPlan(join.kids[1]);
    assert BoundPlan(join);
    BothRowsBound();
    hide BoundPred, BoundPlan;
    FilterBound(Arbitrary, [T_IS_NINE, FAILING], join);
  }

  lemma SomethingSeen(f: Row -> Truth, m: Row -> Truth, right: Rel, l: Row)
    requires right.rows != [] && f(Joined(l, right.rows[0])) == True
    ensures JoinTruth(Semi, f, m, right)(l) == True
  {
  }

  lemma DroppedFirst(rel: Rel, j: Row -> Truth, whole: Row -> Truth, a: Row -> Truth, b: Row -> Truth)
    requires rel.rows != [] && j(rel.rows[0]) == True && whole(rel.rows[0]) == Error
    requires forall k | 0 <= k < |rel.rows| :: a(rel.rows[k]) == False
    ensures FilterTwice(rel, j, whole).Fails? && FilterThrice(rel, a, j, b) == Ok(Rel(rel.header, []))
  {
    hide FilterRel, FilterThrice, FilterTwice;
    TwiceOutcome(rel, j, whole);
    ThriceOutcome(rel, a, j, b);
    KeepSomething(rel.rows, Conj(IsTrue(a), Conj(IsTrue(j), IsTrue(b))));
    assert VisibleFailure(rel, j, whole) && !BelowFails(rel, j, a, b);
  }

  lemma NineDrops(k: int)
    requires 0 <= k < 2
    ensures PredsFn([T_IS_NINE], [], TABLES)(ScanRows("t", TABLES["t"])[k]) == False
    ensures PredsFn([T_IS_NINE, FAILING], [], TABLES)(ScanRows("t", TABLES["t"])[k]) == Error
  {
    var row := ScanRows("t", TABLES["t"])[k];
    CellOfT(k);
    BothRowsRaise(row);
    assert EvalPred(T_IS_NINE, row, [], TABLES) == False;
    PredsFnAt([T_IS_NINE], [], TABLES);
    PredsFnAt([T_IS_NINE, FAILING], [], TABLES);
    hide EvalPred;
    OnePredicate(T_IS_NINE, row, [], TABLES);
    ConjunctLast([T_IS_NINE], FAILING, row, [], TABLES);
    assert [T_IS_NINE] + [FAILING] == [T_IS_NINE, FAILING];
  }

  lemma DroppedForms(left: Rel, right: Rel, b: Row -> Truth)
    requires left.rows == ScanRows("t", TABLES["t"]) && right.rows != []
    ensures var j := JoinTruth(Semi, PredsFn([], [], TABLES), MemberFn(None, [], TABLES), right);
            && FilterTwice(left, j, PredsFn([T_IS_NINE, FAILING], [], TABLES)).Fails?
            && FilterThrice(left, PredsFn([T_IS_NINE], [], TABLES), j, b) == Ok(Rel(left.header, []))
  {
    hide *;
    TwoRows();
    NineDrops(0);
    NineDrops(1);
    var f, m := PredsFn([], [], TABLES), MemberFn(None, [], TABLES);
    PredsFnAt([], [], TABLES);
    NoPreds(Joined(left.rows[0], right.rows[0]), [], TABLES);
    SomethingSeen(f, m, right, left.rows[0]);
    DroppedFirst(left, JoinTruth(Semi, f, m, right), PredsFn([T_IS_NINE, FAILING], [], TABLES), PredsFn([T_IS_NINE], [], TABLES), b);
  }

  /** The residual conjunct fails on every row above the join; below it the moved conjunct drops the rows first. */
  lemma PushCanMaskFailure()
    ensures BoundPlan(DROPPED) && Interpret(DROPPED, TABLES).Fails?
    ensures FilterIntoJoin(DROPPED).Some?
    ensures var r := Interpret(FilterIntoJoin(DROPPED).value, TABLES);
            r.Ok? && r.value.rows == []
    ensures FilterOverJoin(DROPPED) && !PushIsHarmless(DROPPED, [], TABLES)
  {
    var p, kind := DROPPED, JoinKind.Semi;
    InterpretIsRun(p);
    assert FilterIntoJoin(p).Some? by { DroppedIs(); }
    InterpretIsRun(FilterIntoJoin(p).value);
    assert !EmitsRight(kind);
    hide *;
    DroppedIs();
    NineMoves();
    DroppedReady();
    DroppedBound();
    ScanIs("t", []);
    ScanOfV([]);
    ExistencePlans(p, [], TABLES);
    DroppedForms(Run(ScanOf("t"), [], TABLES).value, Run(SCAN_V, [], TABLES).value,
                 PredsFn(Placed(Semi, [T_IS_NINE, FAILING], AtResidual, {"t"}, {"v"}), [], TABLES));
    FilterIntoExistenceExactly(p, [], TABLES);
  }

  // ---------------------------------------------------------------- a failure that disappears

  const U_IS_SEVEN: Pred := Cmp(Column(ColumnRef(Ident("u", "a"), Int64, 0)), Eq, IntLit(7))

  /** t LEFT JOIN u under a filter that rejects NULLs of u and fails on every row of t. */
  const ABOVE_LEFT: Plan :=
    Node(Arbitrary, Filter([U_IS_SEVEN, FAILING]), [Node(Arbitrary, Join(JoinKind.Left, [], None), [ScanOf("t"), ScanOf("u")])])

  lemma FailingOnExtended(l: Row, nulls: Row)
    requires l.Keys == {Ident("t", "a")} && l[Ident("t", "a")] == IntV(7)
    ensures EvalPreds([U_IS_SEVEN, FAILING], Joined(l, nulls), [], TABLES) == Error
  {
    var row, ps := Joined(l, nulls), [U_IS_SEVEN, FAILING];
    FailingReadsT(l, nulls);
    hide EvalPred;
    ConjunctLast([U_IS_SEVEN], FAILING, row, [], TABLES);
    assert [U_IS_SEVEN] + [FAILING] == ps;
  }

  /** The failing conjunct reads only the column of t. */
  lemma FailingReadsT(l: Row, more: Row)
    requires l.Keys == {Ident("t", "a")} && l[Ident("t", "a")] == IntV(7)
    ensures EvalPred(FAILING, Joined(l, more), [], TABLES) == Error
  {
    BothRowsRaise(l);
    BothRowsBound();
    var ids := more.Keys - {Ident("t", "a")};
    assert BOTH_ROWS.corr == [T_A] && T_A.id == Ident("t", "a");
    assert SubqueriesAvoid(FAILING, ids) && RefColumns(FAILING) == {};
    assert SameExcept(ids, Joined(l, more), l);
    hide BoundPred, EvalPred, SubqueriesAvoid, SameExcept;
    PredSees(FAILING, ids, Joined(l, more), l, [], TABLES);
  }

  lemma AboveLeftIs()
    ensures LeftToInner(ABOVE_LEFT).Some? && FilterOverJoin(ABOVE_LEFT) && RejectingBound(ABOVE_LEFT, [], TABLES)
    ensures ABOVE_LEFT.kids[0].op == Join(JoinKind.Left, [], None) && ABOVE_LEFT.kids[0].kids == [ScanOf("t"), ScanOf("u")]
    ensures ABOVE_LEFT.op.preds == [U_IS_SEVEN, FAILING]
    ensures PreparedPreds([], [], TABLES) && PreparedPreds([U_IS_SEVEN, FAILING], [], TABLES)
  {
    var ps, join := ABOVE_LEFT.op.preds, ABOVE_LEFT.kids[0];
    assert OutputTables(join.kids[0]) == {"t"} && OutputTables(join.kids[1]) == {"u"};
    assert "u" in ScalarTables(U_IS_SEVEN.lhs) * {"u"};
    assert NullRejecting(ps[0], {"u"}) && !NullRejecting(ps[1], {"u"});
    ScanColumns("t");
    ScanColumns("u");
    assert Ident("u", "a") in Names([Field(Ident("u", "a"), Int64)]) by {
      assert [Field(Ident("u", "a"), Int64)][0].id == Ident("u", "a");
    }
    assert PreparedPred(U_IS_SEVEN, [], TABLES) && PreparedPred(FAILING, [], TABLES);
  }

  lemma ScanColumns(table: string)
    requires table in TABLES
    ensures ColumnsOf(ScanOf(table), TABLES) == [Field(Ident(table, "a"), Int64)]
  {
    assert Rename(table, TABLES[table].header) == [Field(Ident(table, "a"), Int64)];
  }

  lemma AboveLeftBound()
    ensures BoundPlan(ABOVE_LEFT)
  {
    var ps, join := [U_IS_SEVEN, FAILING], Node(Arbitrary, Join(JoinKind.Left, [], None), [ScanOf("t"), ScanOf("u")]);
    assert ABOVE_LEFT == Node(Arbitrary, Filter(ps), [join]);
    assert BoundPred(U_IS_SEVEN);
    hide BoundPred, BoundPlan;
    BothRowsBound();
    JoinBound(JoinKind.Left);
    assert BoundPreds(ps);
    FilterBound(Arbitrary, ps, join);
  }

  /** The extended rows fail in the filter; the INNER join has no rows. */
  lemma InnerCanHideFailure()
    ensures BoundPlan(ABOVE_LEFT) && Interpret(ABOVE_LEFT, TABLES).Fails? && LeftToInner(ABOVE_LEFT).Some?
    ensures Interpret(LeftToInner(ABOVE_LEFT).value, TABLES).Ok?
    ensures FilterOverJoin(ABOVE_LEFT) && !LeftIsHarmless(ABOVE_LEFT, [], TABLES)
  {
    var p := ABOVE_LEFT;
    AboveLeftIs();
    AboveLeftBound();
    InterpretIsRun(p);
    InterpretIsRun(LeftToInner(p).value);
    ScanIs("t", []);
    ScanIs("u", []);
    TwoRows();
    NoRows();
    CellOfT(0);
    CrossDistinct();
    PredsFnAt([U_IS_SEVEN, FAILING], [], TABLES);
    var left, right := Run(ScanOf("t"), [], TABLES).value, Run(ScanOf("u"), [], TABLES).value;
    FailingOnExtended(left.rows[0], NullRow(right.header));
    hide Run, Interpret, EvalPreds, PredsFn, NullRow, Joined, LeftToInner, RejectingBound, PreparedPreds, DistinctIds, ScanRows;
    assert NotDropped(PredsFn([U_IS_SEVEN, FAILING], [], TABLES))(Joined(left.rows[0], NullRow(right.header)));
    assert ExtendedRowShows(p, left, right, [], TABLES);
    assert !LeftIsHarmless(p, [], TABLES);
    LeftToInnerExactly(p, [], TABLES);
    RejectingOnlyHidesFailure(p, [], TABLES);
  }

  // ---------------------------------------------------------------- rows lost

  /** A column of an enclosing block, under the binding of a table of this one. */
  const U_W: ColumnRef := ColumnRef(Ident("u", "w"), Int64, 1)

  const W_IS_SEVEN: Pred := Cmp(Column(U_W), Eq, IntLit(7))

  /** t LEFT JOIN u WHERE w = 7, in a block whose owner is named u too and alone has the column w. */
  const SHADOWED: Plan :=
    Node(Arbitrary, Filter([W_IS_SEVEN]), [Node(Arbitrary, Join(JoinKind.Left, [], None), [ScanOf("t"), ScanOf("u")])])

  const OWNER_ROW: Row := map[Ident("u", "w") := IntV(7)]

  lemma ShadowedIs()
    ensures LeftToInner(SHADOWED).Some? && FilterOverJoin(SHADOWED) && SHADOWED.kids[0].op == Join(JoinKind.Left, [], None)
    ensures SHADOWED.kids[0].kids == [ScanOf("t"), ScanOf("u")] && SHADOWED.op.preds == [W_IS_SEVEN]
    ensures PreparedPreds([], [OWNER_ROW], TABLES) && PreparedPreds([W_IS_SEVEN], [OWNER_ROW], TABLES)
  {
    var ps, join := SHADOWED.op.preds, SHADOWED.kids[0];
    assert OutputTables(join.kids[1]) == {"u"} && "u" in ScalarTables(W_IS_SEVEN.lhs) * {"u"};
    assert NullRejecting(ps[0], {"u"});
    assert PreparedPred(W_IS_SEVEN, [OWNER_ROW], TABLES);
  }

  lemma ShadowedBound()
    ensures BoundPlan(SHADOWED)
  {
    var ps, join := [W_IS_SEVEN], Node(Arbitrary, Join(JoinKind.Left, [], None), [ScanOf("t"), ScanOf("u")]);
    assert SHADOWED == Node(Arbitrary, Filter(ps), [join]) && BoundPred(W_IS_SEVEN);
    hide BoundPred, BoundPlan;
    JoinBound(JoinKind.Left);
    FilterBound(Arbitrary, ps, join);
  }

  lemma OwnerPasses()
    ensures forall row: Row :: PredsFn([W_IS_SEVEN], [OWNER_ROW], TABLES)(row) == True
  {
    PredsFnAt([W_IS_SEVEN], [OWNER_ROW], TABLES);
    forall row: Row ensures EvalPreds([W_IS_SEVEN], row, [OWNER_ROW], TABLES) == True {
      assert EvalPred(W_IS_SEVEN, row, [OWNER_ROW], TABLES) == True;
      hide EvalPred, EvalPreds;
      OnePredicate(W_IS_SEVEN, row, [OWNER_ROW], TABLES);
    }
  }

  /** Without right rows, LEFT under a filter that passes everything returns rows and INNER none. */
  lemma OnlyExtendedRows(left: Rel, right: Rel, f: Row -> Truth, m: Row -> Truth, whole: Row -> Truth)
    requires left.rows != [] && right.rows == [] && DistinctIds(left.header + right.header) && forall row: Row :: whole(row) == True
    ensures var above := match JoinRel(JoinKind.Left, f, m, left, right) case Fails => Fails case Ok(joined) => FilterRel(joined, whole);
            var below := match JoinRel(Inner, f, m, left, right) case Fails => Fails case Ok(joined) => FilterRel(joined, whole);
            above.Ok? && above.value.rows != [] && below.Ok? && below.value.rows == []
  {
    var nulls := NullRow(right.header);
    assert IsTrue(whole)(Joined(left.rows[0], nulls)) && SomeExtended(left.rows, right.rows, nulls, IsTrue(f), IsTrue(whole));
    assert !SomeExtended(left.rows, right.rows, nulls, IsTrue(f), IsError(whole));
    hide FilterRel, JoinRel, LeftRows, InnerRows, Keep, Joined, DistinctIds, NullRow, SomeExtended;
    FilteredLeft(f, m, whole, left, right);
    FilteredInner(f, m, whole, left, right);
    LeftAgainstInner(left.rows, right.rows, nulls, IsTrue(f), IsTrue(whole));
    JoinAlgebra.NoRightRows(left.rows, IsTrue(f));
    KeepSomething(InnerRows(left.rows, right.rows, IsTrue(f)), IsTrue(whole));
  }

  /** The test counts the outer column as one of u's, although it is not NULL on extended rows: the LEFT join returns
    rows, the INNER join none. */
  lemma InnerCanLoseRows()
    ensures BoundPlan(SHADOWED) && LeftToInner(SHADOWED).Some?
    ensures var r, q := Run(SHADOWED, [OWNER_ROW], TABLES), Run(LeftToInner(SHADOWED).value, [OWNER_ROW], TABLES);
            r.Ok? && r.value.rows != [] && q.Ok? && q.value.rows == []
    ensures FilterOverJoin(SHADOWED) && !LeftIsHarmless(SHADOWED, [OWNER_ROW], TABLES)
  {
    ScanIs("t", [OWNER_ROW]);
    ScanIs("u", [OWNER_ROW]);
    hide *;
    ShadowedIs();
    ShadowedBound();
    TwoRows();
    NoRows();
    CrossDistinct();
    OwnerPasses();
    LeftPlans(SHADOWED, [OWNER_ROW], TABLES);
    OnlyExtendedRows(Run(ScanOf("t"), [OWNER_ROW], TABLES).value, Run(ScanOf("u"), [OWNER_ROW], TABLES).value,
                     PredsFn([], [OWNER_ROW], TABLES), MemberFn(None, [OWNER_ROW], TABLES), PredsFn([W_IS_SEVEN], [OWNER_ROW], TABLES));
    LeftToInnerExactly(SHADOWED, [OWNER_ROW], TABLES);
  }
}
