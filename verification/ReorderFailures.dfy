/** A query that re-association changes: a conjunct moves into the inner join by the tables of its own columns, away from
  the columns its subquery reads.
 */
module ReorderFailures {
  import opened Plans
  import opened Sequences
  import opened Values
  import opened Algebra
  import opened Semantics
  import opened Shapes
  import opened Correlation
  import opened FilterRuleSoundness
  import opened SmallPlans
  import opened JoinAlgebra
  import opened JoinRules
  import opened JoinReorder
  import opened PlanRuns
  import opened JoinShapes
  import opened DecorrelationSoundness
  import opened InnerPushdown
  import opened ReorderExactly
  import opened SubqueryFailures
  import opened PushdownFailures

  const U_OWN: ColumnRef := ColumnRef(Ident("u", "a"), Int64, 0)

  const V_OWN: ColumnRef := ColumnRef(Ident("v", "a"), Int64, 0)

  const T_EQUALS_U: Pred := Cmp(Column(T_OWN), Eq, Column(U_OWN))

  const U_EQUALS_V: Pred := Cmp(Column(U_OWN), Eq, Column(V_OWN))

  /** u.a = (SELECT a FROM t WHERE owner.a = owner.a), with the owner's t.a. */
  const U_EQUALS_T: Pred := Cmp(Column(U_OWN), Eq, ScalarQuery(BOTH_ROWS, Int64))

  /** (t JOIN u ON t.a = u.a) JOIN t AS v ON u.a = v.a AND u.a = (SELECT ... t.a ...). */
  const REASSOCIATED: Plan :=
    Node(Arbitrary, Join(Inner, [U_EQUALS_V, U_EQUALS_T], None),
         [Node(Arbitrary, Join(Inner, [T_EQUALS_U], None), [ScanOf("t"), ScanOf("u")]), SCAN_V])

  lemma ScanVOne(outer: seq<Row>)
    ensures "t" in ONE_EACH
    ensures var rel := Rel([Field(V_OWN.id, Int64)], ScanRows("v", ONE_EACH["t"]));
            Run(SCAN_V, outer, ONE_EACH) == Ok(rel) && |rel.rows| == 1 && rel.rows[0].Keys == {V_OWN.id}
  {
    var table := ONE_EACH["t"];
    var header := Rename("v", table.header);
    assert header == [Field(V_OWN.id, Int64)];
    assert DistinctIds(header) && Prepared(SCAN_V, outer, ONE_EACH);
    MakeRowFits(header, CellsOf(table.header, table.rows[0]));
    assert header[0].id == V_OWN.id;
    assert RowFits([Field(V_OWN.id, Int64)], ScanRows("v", table)[0]);
  }

  lemma TablesAre()
    ensures OutputTables(ScanOf("t")) == {"t"} && OutputTables(ScanOf("u")) == {"u"} && OutputTables(SCAN_V) == {"v"}
    ensures RefTables(U_EQUALS_V) == {"u", "v"} && RefTables(U_EQUALS_T) == {"u"}
  {
  }

  /** Both conjuncts name only u and v, so both move. */
  lemma BothMove()
    ensures var high, tables := [U_EQUALS_V, U_EQUALS_T], {"u"} + {"v"};
            Within(high, tables, true) == high && Within(high, tables, false) == [] && AllWithin(high, {"t"} + {"u"} + {"v"}) && Connects(high, {"u"}, {"v"})
  {
    var high, tables := [U_EQUALS_V, U_EQUALS_T], {"u"} + {"v"};
    TablesAre();
    assert high[0] == U_EQUALS_V && high[1] == U_EQUALS_T && high[..1] == [U_EQUALS_V] && high[..1][..0] == [];
    hide RefTables, OutputTables;
    assert Within(high[..1], tables, true) == [U_EQUALS_V] && Within(high[..1], tables, false) == [];
    assert "u" in RefTables(high[0]) * {"u"} && "v" in RefTables(high[0]) * {"v"};
  }

  lemma Ready()
    ensures PreparedPreds([T_EQUALS_U], [], ONE_EACH) && PreparedPreds([U_EQUALS_V, U_EQUALS_T], [], ONE_EACH) && PreparedPreds([T_EQUALS_U] + [], [], ONE_EACH)
  {
    hide Run;
    assert PreparedPred(T_EQUALS_U, [], ONE_EACH) && PreparedPred(U_EQUALS_V, [], ONE_EACH) && PreparedPred(U_EQUALS_T, [], ONE_EACH);
  }

  lemma ReassociatedIs()
    ensures REASSOCIATED == LeftDeep(Arbitrary, Arbitrary, ScanOf("t"), ScanOf("u"), SCAN_V, [T_EQUALS_U], [U_EQUALS_V, U_EQUALS_T])
    ensures AssociateRight(REASSOCIATED).Some?
    ensures AssociateRight(REASSOCIATED).value ==
            RightDeep(Arbitrary, Arbitrary, ScanOf("t"), ScanOf("u"), SCAN_V, [U_EQUALS_V, U_EQUALS_T], [T_EQUALS_U] + [])
  {
    TablesAre();
    BothMove();
    hide OutputTables, RefTables, Within, AllWithin, Connects;
    assert REASSOCIATED == LeftDeep(Arbitrary, Arbitrary, ScanOf("t"), ScanOf("u"), SCAN_V, [T_EQUALS_U], [U_EQUALS_V, U_EQUALS_T]);
    assert Reorderable(REASSOCIATED) && Reorderable(REASSOCIATED.kids[0]);
  }

  lemma ReassociatedBound()
    ensures BoundPlan(REASSOCIATED)
  {
    var low, high := [T_EQUALS_U], [U_EQUALS_V, U_EQUALS_T];
    var ab := Node(Arbitrary, Join(Inner, low, None), [ScanOf("t"), ScanOf("u")]);
    SelfEqualityBound(T_A, "t");
    assert BOTH_ROWS == Subplan(Node(Arbitrary, Filter([Cmp(Column(T_A), Eq, Column(T_A))]), [ScanOf("t")]), [T_A]);
    hide BoundSub;
    assert BoundPred(T_EQUALS_U) && BoundPred(U_EQUALS_V) && BoundPred(U_EQUALS_T);
    assert BoundPreds(low) && BoundPreds(high);
    CorrOfScan("t");
    CorrOfScan("u");
    assert BoundPlan(ab.kids[0]) && BoundPlan(ab.kids[1]) && BoundPlan(SCAN_V);
    assert BoundPlan(ab);
    assert REASSOCIATED == Node(Arbitrary, Join(Inner, high, None), [ab, SCAN_V]);
    assert BoundPlan(REASSOCIATED.kids[0]) && BoundPlan(REASSOCIATED.kids[1]);
  }

  lemma ConjunctIs()
    ensures U_EQUALS_T == Cmp(Column(U_OWN), Eq, ScalarQuery(BOTH_ROWS, Int64)) && BOTH_ROWS.corr != [] && U_OWN.depth == 0 && U_OWN.id == Ident("u", "a")
    ensures BOTH_ROWS.plan == Node(Arbitrary, Filter([Cmp(Column(T_A), Eq, Column(T_A))]), [ScanOf("t")]) && T_A.depth == 1 && T_A.id == Ident("t", "a")
  {
  }

  /** The subquery compares where the row has t.a, and fails where it does not. */
  lemma ConjunctNeedsT(row: Row)
    requires Ident("u", "a") in row
    ensures Ident("t", "a") in row && !row[Ident("t", "a")].Null? ==> EvalPred(U_EQUALS_T, row, [], ONE_EACH) != Error
    ensures Ident("t", "a") !in row ==> EvalPred(U_EQUALS_T, row, [], ONE_EACH) == Error
  {
    hide *;
    ConjunctIs();
    ComparisonFails(U_OWN, BOTH_ROWS, row, [], ONE_EACH);
    ScanOne("t", [] + [row]);
    var rel := Rel([Field(Ident("t", "a"), Int64)], ScanRows("t", ONE_EACH["t"]));
    SubqueryDecided(T_A, "t", rel, row, ONE_EACH);
    OneCellResult(rel, Ident("t", "a"));
  }

  lemma TwoConjuncts(row: Row)
    requires Ident("u", "a") in row && Ident("v", "a") in row
    ensures PredsFn([U_EQUALS_V, U_EQUALS_T], [], ONE_EACH)(row) == Error <==> EvalPred(U_EQUALS_T, row, [], ONE_EACH) == Error
  {
    assert EvalPred(U_EQUALS_V, row, [], ONE_EACH) != Error;
    PredsFnAt([U_EQUALS_V, U_EQUALS_T], [], ONE_EACH);
    hide EvalPred;
    OnePredicate(U_EQUALS_V, row, [], ONE_EACH);
    ConjunctLast([U_EQUALS_V], U_EQUALS_T, row, [], ONE_EACH);
    assert [U_EQUALS_V] + [U_EQUALS_T] == [U_EQUALS_V, U_EQUALS_T];
  }

  lemma FirstConjunct(row: Row)
    requires Ident("t", "a") in row && Ident("u", "a") in row
    ensures PredsFn([T_EQUALS_U], [], ONE_EACH)(row) != Error
  {
    assert EvalPred(T_EQUALS_U, row, [], ONE_EACH) != Error;
    PredsFnAt([T_EQUALS_U], [], ONE_EACH);
    hide EvalPred;
    OnePredicate(T_EQUALS_U, row, [], ONE_EACH);
  }

  lemma OnlyTripleFine(as_: seq<Row>, bs: seq<Row>, cs: seq<Row>, p: Row -> Truth, all: Row -> Truth)
    requires |as_| == 1 && |bs| == 1 && |cs| == 1
    requires p(Joined(as_[0], bs[0])) != Error && all(Joined(Joined(as_[0], bs[0]), cs[0])) != Error
    ensures !LeftDeepFails(as_, bs, cs, p, all)
  {
    hide Joined;
  }

  lemma PairFails(as_: seq<Row>, bs: seq<Row>, cs: seq<Row>, q: Row -> Truth, all: Row -> Truth)
    requires |bs| == 1 && |cs| == 1 && q(Joined(bs[0], cs[0])) == Error
    ensures RightDeepFails(as_, bs, cs, q, all)
  {
    hide Joined;
    assert BadAbove(q, WithLeft(all, as_))(Joined(bs[0], cs[0]));
  }

  lemma ThreeColumns(t: Row, u: Row, v: Row)
    requires t.Keys == {Ident("t", "a")} && u.Keys == {Ident("u", "a")} && v.Keys == {Ident("v", "a")} && !t[Ident("t", "a")].Null?
    ensures var abc := Joined(Joined(t, u), v);
            Ident("t", "a") in abc && !abc[Ident("t", "a")].Null? && Ident("u", "a") in abc && Ident("v", "a") in abc
    ensures Joined(u, v).Keys == {Ident("u", "a"), Ident("v", "a")} && Joined(t, u).Keys == {Ident("t", "a"), Ident("u", "a")}
  {
  }

  lemma ThreeDistinct()
    ensures DistinctIds([Field(Ident("t", "a"), Int64)] + [Field(Ident("u", "a"), Int64)] + [Field(Ident("v", "a"), Int64)])
    ensures V_OWN.id == Ident("v", "a")
  {
  }

  /** Above both joins the subquery sees t.a; in the inner join of u and v it does not, and the query fails. */
  lemma ReassociationCanLoseColumns()
    ensures BoundPlan(REASSOCIATED) && Interpret(REASSOCIATED, ONE_EACH).Ok?
    ensures AssociateRight(REASSOCIATED).Some? && Interpret(AssociateRight(REASSOCIATED).value, ONE_EACH).Fails?
    ensures InnerJoin(REASSOCIATED) && InnerJoin(REASSOCIATED.kids[0]) && !AssociateRightIsHarmless(REASSOCIATED, [], ONE_EACH)
  {
    var low, high := [T_EQUALS_U], [U_EQUALS_V, U_EQUALS_T];
    hide *;
    ReassociatedIs();
    ReassociatedBound();
    ThreeDistinct();
    ScanOne("t", []);
    ScanOne("u", []);
    ScanVOne([]);
    var ra, rb, rc := Run(ScanOf("t"), [], ONE_EACH).value, Run(ScanOf("u"), [], ONE_EACH).value, Run(SCAN_V, [], ONE_EACH).value;
    ThreeColumns(ra.rows[0], rb.rows[0], rc.rows[0]);
    FirstConjunct(Joined(ra.rows[0], rb.rows[0]));
    ConjunctNeedsT(Joined(Joined(ra.rows[0], rb.rows[0]), rc.rows[0]));
    ConjunctNeedsT(Joined(rb.rows[0], rc.rows[0]));
    TwoConjuncts(Joined(Joined(ra.rows[0], rb.rows[0]), rc.rows[0]));
    TwoConjuncts(Joined(rb.rows[0], rc.rows[0]));
    var m, f, g, last := MemberFn(None, [], ONE_EACH), PredsFn(low, [], ONE_EACH), PredsFn(high, [], ONE_EACH), PredsFn(low + [], [], ONE_EACH);
    OnlyTripleFine(ra.rows, rb.rows, rc.rows, f, g);
    PairFails(ra.rows, rb.rows, rc.rows, g, last);
    LeftDeepOutcome(ra, rb, rc, m, f, g);
    RightDeepOutcome(ra, rb, rc, m, g, last);
    BothReady();
    RunLeftDeep(Arbitrary, Arbitrary, ScanOf("t"), ScanOf("u"), SCAN_V, low, high, [], ONE_EACH);
    RunRightDeep(Arbitrary, Arbitrary, ScanOf("t"), ScanOf("u"), SCAN_V, high, low + [], [], ONE_EACH);
    AssociateRightExactly(REASSOCIATED, [], ONE_EACH);
    RunsAlone(REASSOCIATED);
    RunsAlone(AssociateRight(REASSOCIATED).value);
  }

  lemma RunsAlone(p: Plan)
    ensures Interpret(p, ONE_EACH) == Run(p, [], ONE_EACH)
  {
    hide Run;
  }

  lemma BothReady()
    ensures DeepReady(ScanOf("t"), ScanOf("u"), SCAN_V, [T_EQUALS_U], [U_EQUALS_V, U_EQUALS_T], [], ONE_EACH)
    ensures DeepReady(ScanOf("t"), ScanOf("u"), SCAN_V, [U_EQUALS_V, U_EQUALS_T], [T_EQUALS_U] + [], [], ONE_EACH)
  {
    Ready();
    ScanOne("t", []);
    ScanOne("u", []);
    ScanVOne([]);
    hide Run, PreparedPreds;
  }
}
