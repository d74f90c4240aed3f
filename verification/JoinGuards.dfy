/** Where the join rules are always right: over existing columns and without correlated subqueries no predicate fails, so
  the exact conditions hold and every outcome is kept.
 */
module JoinGuards {
  import opened Plans
  import opened Sequences
  import opened Values
  import opened Algebra
  import opened Semantics
  import opened Shapes
  import opened Correlation
  import opened FilterRuleSoundness
  import opened JoinAlgebra
  import opened JoinRules
  import opened JoinPushdown
  import opened JoinReorder
  import opened PlanRuns
  import opened JoinShapes
  import opened PushdownExactly
  import opened InnerPushdown
  import opened LeftJoinExactly
  import opened ReorderExactly

  /** Predicates over existing columns that own no correlated subquery. */
  ghost predicate PlainList(ps: seq<Pred>, names: set<Ident>, outer: seq<Row>, db: Db) {
    AllResolve(ps, names, outer) && AllUncorrelated(ps, db)
  }

  lemma PlainIsSteady(ps: seq<Pred>, names: set<Ident>, outer: seq<Row>, db: Db)
    requires PlainList(ps, names, outer, db) && PreparedPreds(ps, outer, db)
    ensures SteadyList(ps, names, outer, db)
  {
    hide AllResolve, AllUncorrelated, PreparedPreds;
  }

  /** Two rows with these columns, joined. */
  lemma PairNames(left: Rel, right: Rel)
    requires WellFormedRel(left) && WellFormedRel(right)
    ensures forall i, j | 0 <= i < |left.rows| && 0 <= j < |right.rows| :: Joined(left.rows[i], right.rows[j]).Keys == Names(left.header) + Names(right.header)
  {
    hide WellFormedRel;
    FitsNames(left);
    FitsNames(right);
    JoinedKeys(left.rows, right.rows, Names(left.header), Names(right.header));
  }

  lemma NeverOnRows(ps: seq<Pred>, rel: Rel, outer: seq<Row>, db: Db)
    requires SteadyList(ps, Names(rel.header), outer, db) && WellFormedRel(rel)
    ensures forall i | 0 <= i < |rel.rows| :: PredsFn(ps, outer, db)(rel.rows[i]) != Error
  {
    hide SteadyList, WellFormedRel, PredsFn;
    FitsNames(rel);
    forall i | 0 <= i < |rel.rows| ensures PredsFn(ps, outer, db)(rel.rows[i]) != Error {
      SteadyTotal(ps, Names(rel.header), rel.rows[i], outer, db);
    }
  }

  lemma NeverOnPairs(ps: seq<Pred>, left: Rel, right: Rel, outer: seq<Row>, db: Db)
    requires SteadyList(ps, Names(left.header) + Names(right.header), outer, db) && WellFormedRel(left) && WellFormedRel(right)
    ensures forall i, j | 0 <= i < |left.rows| && 0 <= j < |right.rows| :: PredsFn(ps, outer, db)(Joined(left.rows[i], right.rows[j])) != Error
  {
    hide SteadyList, WellFormedRel, PredsFn, Joined;
    PairNames(left, right);
    forall i, j | 0 <= i < |left.rows| && 0 <= j < |right.rows| ensures PredsFn(ps, outer, db)(Joined(left.rows[i], right.rows[j])) != Error {
      SteadyTotal(ps, Names(left.header) + Names(right.header), Joined(left.rows[i], right.rows[j]), outer, db);
    }
  }

  // ---------------------------------------------------------------- filters into joins

  ghost predicate InnerBound(p: Plan, outer: seq<Row>, db: Db) {
    && FilterOverJoin(p) && p.kids[0].op.kind == Inner && p.kids[0].op.membership.None?
    && DisjointSides(p.kids[0].kids[0], p.kids[0].kids[1], db)
    && PlainList(p.op.preds, BothNames(p.kids[0].kids[0], p.kids[0].kids[1], db), outer, db)
    && PlainList(p.kids[0].op.on, BothNames(p.kids[0].kids[0], p.kids[0].kids[1], db), outer, db)
  }

  lemma NothingFailsInner(ps: seq<Pred>, on: seq<Pred>, lt: set<string>, rt: set<string>, left: Rel, right: Rel, outer: seq<Row>, db: Db)
    requires SteadyList(ps, Names(left.header) + Names(right.header), outer, db) && SteadyList(on, Names(left.header) + Names(right.header), outer, db)
    requires Side(left.header, lt) && Side(right.header, rt) && lt !! rt && WellFormedRel(left) && WellFormedRel(right)
    ensures !SomePair(left.rows, right.rows, BadAbove(PredsFn(on, outer, db), PredsFn(ps, outer, db)))
    ensures !SplitFails(left.rows, right.rows, PredsFn(Placed(Inner, ps, AtLeft, lt, rt), outer, db), PredsFn(Placed(Inner, ps, AtRight, lt, rt), outer, db),
                        PredsFn(on + Placed(Inner, ps, AtJoin, lt, rt), outer, db), PredsFn(Placed(Inner, ps, AtResidual, lt, rt), outer, db))
  {
    var all, pj := Names(left.header) + Names(right.header), Placed(Inner, ps, AtJoin, lt, rt);
    SideOf(left.header, lt);
    SideOf(right.header, rt);
    hide SteadyList, WellFormedRel, PredsFn, Joined, Placed, Side;
    PlacedLeftSteady(Inner, ps, left.header, right.header, lt, rt, outer, db);
    PlacedRightSteady(ps, left.header, right.header, lt, rt, outer, db);
    PlacedSteady(Inner, ps, AtJoin, lt, rt, all, outer, db);
    PlacedSteady(Inner, ps, AtResidual, lt, rt, all, outer, db);
    SteadyAppend(on, pj, all, outer, db);
    NeverOnRows(Placed(Inner, ps, AtLeft, lt, rt), left, outer, db);
    NeverOnRows(Placed(Inner, ps, AtRight, lt, rt), right, outer, db);
    NeverOnPairs(on, left, right, outer, db);
    NeverOnPairs(ps, left, right, outer, db);
    NeverOnPairs(on + pj, left, right, outer, db);
    NeverOnPairs(Placed(Inner, ps, AtResidual, lt, rt), left, right, outer, db);
  }

  /** Splitting the conjuncts above an INNER join keeps the outcome of a plan without correlated subqueries. */
  lemma FilterIntoInnerRuns(p: Plan, outer: seq<Row>, db: Db)
    requires InnerBound(p, outer, db) && FilterIntoJoin(p).Some?
    ensures InnerPushIsHarmless(p, outer, db) && Run(FilterIntoJoin(p).value, outer, db) == Run(p, outer, db)
  {
    var l, r, ps, on := p.kids[0].kids[0], p.kids[0].kids[1], p.op.preds, p.kids[0].op.on;
    hide Run, FilterIntoJoin, OutputTables, PreparedPreds, Side, AllResolve, AllUncorrelated, ColumnsOf, RowFits, PredsFn, Placed, SplitFails, SomePair, DistinctIds,
         SteadyList, Names;
    if Run(l, outer, db).Ok? && Run(r, outer, db).Ok? && PreparedPreds(on, outer, db) && PreparedPreds(ps, outer, db) {
      RunFits(l, outer, db);
      RunFits(r, outer, db);
      PlainIsSteady(ps, BothNames(l, r, db), outer, db);
      PlainIsSteady(on, BothNames(l, r, db), outer, db);
      NothingFailsInner(ps, on, OutputTables(l), OutputTables(r), Run(l, outer, db).value, Run(r, outer, db).value, outer, db);
    }
    FilterIntoInnerExactly(p, outer, db);
  }

  ghost predicate ExistenceBound(p: Plan, outer: seq<Row>, db: Db) {
    && FilterOverJoin(p) && !EmitsRight(p.kids[0].op.kind)
    && PlainList(p.op.preds, Names(ColumnsOf(p.kids[0].kids[0], db)), outer, db)
    && PlainList(p.kids[0].op.on, BothNames(p.kids[0].kids[0], p.kids[0].kids[1], db), outer, db)
    && (p.kids[0].op.membership.Some? ==>
          PlainList([p.kids[0].op.membership.value], BothNames(p.kids[0].kids[0], p.kids[0].kids[1], db), outer, db))
  }

  lemma OneIsPrepared(p: Pred, outer: seq<Row>, db: Db)
    requires PreparedPred(p, outer, db)
    ensures PreparedPreds([p], outer, db)
  {
    hide PreparedPred;
  }

  lemma {:induction false} ProbeTotal(f: Row -> Truth, l: Row, rs: seq<Row>)
    requires forall j | 0 <= j < |rs| :: f(Joined(l, rs[j])) != Error
    ensures Probe(f, l, rs) != Error
  {
    if rs != [] {
      assert forall j | 0 <= j < |rs[1..]| :: rs[1..][j] == rs[j + 1];
      ProbeTotal(f, l, rs[1..]);
    }
  }

  lemma {:induction false} SuppressedTotal(f: Row -> Truth, m: Row -> Truth, l: Row, rs: seq<Row>)
    requires forall j | 0 <= j < |rs| :: f(Joined(l, rs[j])) != Error && m(Joined(l, rs[j])) != Error
    ensures Suppressed(f, m, l, rs) != Error
  {
    if rs != [] {
      assert forall j | 0 <= j < |rs[1..]| :: rs[1..][j] == rs[j + 1];
      SuppressedTotal(f, m, l, rs[1..]);
    }
  }

  lemma MemberNeverFails(m: Pred, left: Rel, right: Rel, outer: seq<Row>, db: Db)
    requires SteadyList([m], Names(left.header) + Names(right.header), outer, db) && WellFormedRel(left) && WellFormedRel(right)
    ensures forall i, j | 0 <= i < |left.rows| && 0 <= j < |right.rows| :: MemberFn(Some(m), outer, db)(Joined(left.rows[i], right.rows[j])) != Error
  {
    hide SteadyList, WellFormedRel, EvalPred, EvalPreds, Joined;
    NeverOnPairs([m], left, right, outer, db);
    MemberFnAt(Some(m), outer, db);
    PredsFnAt([m], outer, db);
    forall i, j | 0 <= i < |left.rows| && 0 <= j < |right.rows| ensures EvalPred(m, Joined(left.rows[i], right.rows[j]), outer, db) != Error {
      ConjunctLast([], m, Joined(left.rows[i], right.rows[j]), outer, db);
      assert [] + [m] == [m];
      assert PredsFn([m], outer, db)(Joined(left.rows[i], right.rows[j])) != Error;
    }
  }

  /** The join keeps or drops every left row. */
  lemma NothingFailsExistence(kind: JoinKind, on: seq<Pred>, membership: Option<Pred>, left: Rel, right: Rel, outer: seq<Row>, db: Db)
    requires !EmitsRight(kind) && WellFormedRel(left) && WellFormedRel(right)
    requires SteadyList(on, Names(left.header) + Names(right.header), outer, db)
    requires membership.Some? ==> SteadyList([membership.value], Names(left.header) + Names(right.header), outer, db)
    ensures forall i | 0 <= i < |left.rows| :: JoinTruth(kind, PredsFn(on, outer, db), MemberFn(membership, outer, db), right)(left.rows[i]) != Error
  {
    var f, m := PredsFn(on, outer, db), MemberFn(membership, outer, db);
    hide SteadyList, EvalPreds, EvalPred, WellFormedRel, PredsFn, Probe, Suppressed, Joined;
    NeverOnPairs(on, left, right, outer, db);
    if membership.Some? {
      MemberNeverFails(membership.value, left, right, outer, db);
    }
    forall i | 0 <= i < |left.rows| ensures JoinTruth(kind, f, m, right)(left.rows[i]) != Error {
      ProbeTotal(f, left.rows[i], right.rows);
      SuppressedTotal(f, m, left.rows[i], right.rows);
    }
  }

  lemma NeitherFormFails(rel: Rel, j: Row -> Truth, a: Row -> Truth, b: Row -> Truth)
    requires forall k | 0 <= k < |rel.rows| :: j(rel.rows[k]) != Error && a(rel.rows[k]) != Error && b(rel.rows[k]) != Error
    ensures !AboveFails(rel, j, a, b) && !BelowFails(rel, j, a, b)
  {
  }

  lemma NothingFailsAround(kind: JoinKind, ps: seq<Pred>, on: seq<Pred>, m: Option<Pred>, lt: set<string>, rt: set<string>, left: Rel, right: Rel, outer: seq<Row>, db: Db)
    requires !EmitsRight(kind) && WellFormedRel(left) && WellFormedRel(right) && SteadyList(ps, Names(left.header), outer, db)
    requires SteadyList(on, Names(left.header) + Names(right.header), outer, db)
    requires m.Some? ==> SteadyList([m.value], Names(left.header) + Names(right.header), outer, db)
    ensures var j := JoinTruth(kind, PredsFn(on, outer, db), MemberFn(m, outer, db), right);
            var a, b := PredsFn(Placed(kind, ps, AtLeft, lt, rt), outer, db), PredsFn(Placed(kind, ps, AtResidual, lt, rt), outer, db);
            !AboveFails(left, j, a, b) && !BelowFails(left, j, a, b)
  {
    hide *;
    NothingFailsExistence(kind, on, m, left, right, outer, db);
    PlacedSteady(kind, ps, AtLeft, lt, rt, Names(left.header), outer, db);
    PlacedSteady(kind, ps, AtResidual, lt, rt, Names(left.header), outer, db);
    NeverOnRows(Placed(kind, ps, AtLeft, lt, rt), left, outer, db);
    NeverOnRows(Placed(kind, ps, AtResidual, lt, rt), left, outer, db);
    NeitherFormFails(left, JoinTruth(kind, PredsFn(on, outer, db), MemberFn(m, outer, db), right),
                     PredsFn(Placed(kind, ps, AtLeft, lt, rt), outer, db), PredsFn(Placed(kind, ps, AtResidual, lt, rt), outer, db));
  }

  /** Pushing left-only conjuncts below a SEMI, ANTI or NULL-aware ANTI join keeps the outcome of a plan without
    correlated subqueries. */
  lemma FilterIntoExistenceRuns(p: Plan, outer: seq<Row>, db: Db)
    requires ExistenceBound(p, outer, db) && FilterIntoJoin(p).Some?
    ensures PushIsHarmless(p, outer, db) && Run(FilterIntoJoin(p).value, outer, db) == Run(p, outer, db)
  {
    var join, kind, ps := p.kids[0], p.kids[0].op.kind, p.op.preds;
    var l, r, on, m := join.kids[0], join.kids[1], join.op.on, join.op.membership;
    assert PreparedOp(join.op, outer, db) ==> PreparedPreds(on, outer, db) && (m.Some? ==> PreparedPred(m.value, outer, db));
    hide Run, FilterIntoJoin, PreparedPreds, PreparedPred, PreparedOp, Executable, AllResolve, AllUncorrelated, ColumnsOf, RowFits, PredsFn, MemberFn, Placed, OutputTables,
         JoinTruth, DistinctIds, SteadyList, Names, AboveFails, BelowFails;
    if Run(l, outer, db).Ok? && Run(r, outer, db).Ok? && PreparedOp(join.op, outer, db) && PreparedPreds(ps, outer, db) {
      RunFits(l, outer, db);
      RunFits(r, outer, db);
      PlainIsSteady(ps, Names(ColumnsOf(l, db)), outer, db);
      PlainIsSteady(on, BothNames(l, r, db), outer, db);
      if m.Some? {
        OneIsPrepared(m.value, outer, db);
        PlainIsSteady([m.value], BothNames(l, r, db), outer, db);
      }
      NothingFailsAround(kind, ps, on, m, OutputTables(l), OutputTables(r), Run(l, outer, db).value, Run(r, outer, db).value, outer, db);
    }
    FilterIntoExistenceExactly(p, outer, db);
  }

  // ---------------------------------------------------------------- LEFT to INNER

  ghost predicate LeftBound(p: Plan, outer: seq<Row>, db: Db) {
    && FilterOverJoin(p) && p.kids[0].op.kind == JoinKind.Left && p.kids[0].op.membership.None?
    && DisjointSides(p.kids[0].kids[0], p.kids[0].kids[1], db)
    && PlainList(p.op.preds, BothNames(p.kids[0].kids[0], p.kids[0].kids[1], db), outer, db)
    && forall i | 0 <= i < |p.op.preds| :: OwnBindings(p.op.preds[i], OutputTables(p.kids[0].kids[1]))
  }

  lemma NothingShows(p: Plan, left: Rel, right: Rel, outer: seq<Row>, db: Db)
    requires LeftBound(p, outer, db) && LeftToInner(p).Some? && WellFormedRel(left) && WellFormedRel(right) && DistinctIds(left.header + right.header)
    requires left.header == ColumnsOf(p.kids[0].kids[0], db) && right.header == ColumnsOf(p.kids[0].kids[1], db)
    requires SteadyList(p.op.preds, Names(left.header) + Names(right.header), outer, db)
    ensures !ExtendedRowShows(p, left, right, outer, db)
  {
    var ps, nulls := p.op.preds, NullRow(right.header);
    assert forall i | 0 <= i < |ps| :: ColumnsResolve(ps[i], BothNames(p.kids[0].kids[0], p.kids[0].kids[1], db), outer);
    assert RejectingBound(p, outer, db);
    assert DistinctIds(right.header) by { DistinctParts(left.header, right.header); }
    hide SteadyList, WellFormedRel, PredsFn, Joined, NullRow, DistinctIds, RejectingBound, LeftBound, LeftToInner, ColumnsOf;
    FitsNames(left);
    NullRowFits(right.header);
    JoinedKeys(left.rows, [nulls], Names(left.header), Names(right.header));
    ExtendedRejected(p, left, right, outer, db);
    forall i | 0 <= i < |left.rows| ensures !NotDropped(PredsFn(ps, outer, db))(Joined(left.rows[i], nulls)) {
      assert Joined(left.rows[i], [nulls][0]).Keys == Names(left.header) + Names(right.header);
      SteadyTotal(ps, Names(left.header) + Names(right.header), Joined(left.rows[i], nulls), outer, db);
    }
    NothingExtendedPasses(left.rows, right.rows, nulls, IsTrue(PredsFn(p.kids[0].op.on, outer, db)), NotDropped(PredsFn(ps, outer, db)));
  }

  /** A LEFT join under a filter that rejects NULL-extended rows keeps the outcome of a filter without correlated
    subqueries as an INNER join. */
  lemma LeftToInnerRuns(p: Plan, outer: seq<Row>, db: Db)
    requires LeftBound(p, outer, db) && LeftToInner(p).Some?
    ensures LeftIsHarmless(p, outer, db) && Run(LeftToInner(p).value, outer, db) == Run(p, outer, db)
  {
    var l, r, ps := p.kids[0].kids[0], p.kids[0].kids[1], p.op.preds;
    assert PlainList(ps, BothNames(l, r, db), outer, db);
    hide Run, LeftToInner, OutputTables, PreparedPreds, Side, PlainList, ColumnsOf, RowFits, PredsFn, OwnBindings, DistinctIds, SomePair, SteadyList, Names, LeftBound,
         ExtendedRowShows;
    if Run(l, outer, db).Ok? && Run(r, outer, db).Ok? && PreparedPreds(ps, outer, db) {
      var left, right := Run(l, outer, db).value, Run(r, outer, db).value;
      RunFits(l, outer, db);
      RunFits(r, outer, db);
      PlainIsSteady(ps, BothNames(l, r, db), outer, db);
      if DistinctIds(left.header + right.header) {
        NothingShows(p, left, right, outer, db);
      }
    }
    LeftIsLeft(p, outer, db);
    LeftToInnerExactly(p, outer, db);
  }

  lemma LeftIsLeft(p: Plan, outer: seq<Row>, db: Db)
    requires LeftBound(p, outer, db)
    ensures FilterOverJoin(p) && p.kids[0].op.kind == JoinKind.Left && p.kids[0].op.membership.None?
  {
  }

  // ---------------------------------------------------------------- re-association

  /** Three inputs of disjoint tables. */
  ghost predicate ThreeBound(a: Plan, b: Plan, c: Plan, db: Db) {
    && Side(ColumnsOf(a, db), OutputTables(a)) && Side(ColumnsOf(b, db), OutputTables(b)) && Side(ColumnsOf(c, db), OutputTables(c))
    && OutputTables(a) !! OutputTables(b) && OutputTables(a) !! OutputTables(c) && OutputTables(b) !! OutputTables(c)
  }

  function AllNames(a: Plan, b: Plan, c: Plan, db: Db): set<Ident> {
    Names(ColumnsOf(a, db)) + Names(ColumnsOf(b, db)) + Names(ColumnsOf(c, db))
  }

  ghost predicate AssociateRightBound(p: Plan, outer: seq<Row>, db: Db) {
    && InnerJoin(p) && InnerJoin(p.kids[0]) && ThreeBound(p.kids[0].kids[0], p.kids[0].kids[1], p.kids[1], db)
    && PlainList(p.kids[0].op.on, BothNames(p.kids[0].kids[0], p.kids[0].kids[1], db), outer, db)
    && PlainList(p.op.on, AllNames(p.kids[0].kids[0], p.kids[0].kids[1], p.kids[1], db), outer, db)
  }

  ghost predicate AssociateLeftBound(p: Plan, outer: seq<Row>, db: Db) {
    && InnerJoin(p) && InnerJoin(p.kids[1]) && ThreeBound(p.kids[0], p.kids[1].kids[0], p.kids[1].kids[1], db)
    && PlainList(p.kids[1].op.on, BothNames(p.kids[1].kids[0], p.kids[1].kids[1], db), outer, db)
    && PlainList(p.op.on, AllNames(p.kids[0], p.kids[1].kids[0], p.kids[1].kids[1], db), outer, db)
  }

  /** Three evaluated inputs with disjoint tables. */
  ghost predicate ThreeWay(ra: Rel, rb: Rel, rc: Rel, at: set<string>, bt: set<string>, ct: set<string>) {
    && WellFormedRel(ra) && WellFormedRel(rb) && WellFormedRel(rc)
    && Side(ra.header, at) && Side(rb.header, bt) && Side(rc.header, ct)
    && at !! bt && at !! ct && bt !! ct
  }

  lemma NeverOnTriples(ps: seq<Pred>, ra: Rel, rb: Rel, rc: Rel, i: int, j: int, k: int, outer: seq<Row>, db: Db)
    requires SteadyList(ps, Names(ra.header) + Names(rb.header) + Names(rc.header), outer, db)
    requires WellFormedRel(ra) && WellFormedRel(rb) && WellFormedRel(rc)
    requires 0 <= i < |ra.rows| && 0 <= j < |rb.rows| && 0 <= k < |rc.rows|
    ensures PredsFn(ps, outer, db)(Joined(Joined(ra.rows[i], rb.rows[j]), rc.rows[k])) != Error
    ensures PredsFn(ps, outer, db)(Joined(ra.rows[i], Joined(rb.rows[j], rc.rows[k]))) != Error
  {
    FitsNames(ra);
    FitsNames(rb);
    FitsNames(rc);
    var row := Joined(Joined(ra.rows[i], rb.rows[j]), rc.rows[k]);
    assert row.Keys == Names(ra.header) + Names(rb.header) + Names(rc.header);
    JoinedAssociates(ra.rows[i], rb.rows[j], rc.rows[k]);
    hide SteadyList, WellFormedRel, PredsFn, Joined;
    SteadyTotal(ps, Names(ra.header) + Names(rb.header) + Names(rc.header), row, outer, db);
  }

  lemma LeftDeepNeverFails(ra: Rel, rb: Rel, rc: Rel, low: seq<Pred>, high: seq<Pred>, outer: seq<Row>, db: Db)
    requires WellFormedRel(ra) && WellFormedRel(rb) && WellFormedRel(rc)
    requires SteadyList(low, Names(ra.header) + Names(rb.header), outer, db)
    requires SteadyList(high, Names(ra.header) + Names(rb.header) + Names(rc.header), outer, db)
    ensures !LeftDeepFails(ra.rows, rb.rows, rc.rows, PredsFn(low, outer, db), PredsFn(high, outer, db))
  {
    hide SteadyList, WellFormedRel, PredsFn, Joined;
    NeverOnPairs(low, ra, rb, outer, db);
    var f, w := PredsFn(low, outer, db), WithRight(PredsFn(high, outer, db), rc.rows);
    forall i, j | 0 <= i < |ra.rows| && 0 <= j < |rb.rows| ensures !BadAbove(f, w)(Joined(ra.rows[i], rb.rows[j])) {
      forall k | 0 <= k < |rc.rows| ensures PredsFn(high, outer, db)(Joined(Joined(ra.rows[i], rb.rows[j]), rc.rows[k])) != Error {
        NeverOnTriples(high, ra, rb, rc, i, j, k, outer, db);
      }
    }
  }

  lemma RightDeepNeverFails(ra: Rel, rb: Rel, rc: Rel, low: seq<Pred>, high: seq<Pred>, outer: seq<Row>, db: Db)
    requires WellFormedRel(ra) && WellFormedRel(rb) && WellFormedRel(rc)
    requires SteadyList(low, Names(rb.header) + Names(rc.header), outer, db)
    requires SteadyList(high, Names(ra.header) + Names(rb.header) + Names(rc.header), outer, db)
    ensures !RightDeepFails(ra.rows, rb.rows, rc.rows, PredsFn(low, outer, db), PredsFn(high, outer, db))
  {
    hide SteadyList, WellFormedRel, PredsFn, Joined;
    NeverOnPairs(low, rb, rc, outer, db);
    var f, w := PredsFn(low, outer, db), WithLeft(PredsFn(high, outer, db), ra.rows);
    forall j, k | 0 <= j < |rb.rows| && 0 <= k < |rc.rows| ensures !BadAbove(f, w)(Joined(rb.rows[j], rc.rows[k])) {
      forall i | 0 <= i < |ra.rows| ensures PredsFn(high, outer, db)(Joined(ra.rows[i], Joined(rb.rows[j], rc.rows[k]))) != Error {
        NeverOnTriples(high, ra, rb, rc, i, j, k, outer, db);
      }
    }
  }

  lemma NothingFailsRight(ra: Rel, rb: Rel, rc: Rel, at: set<string>, bt: set<string>, ct: set<string>, low: seq<Pred>, high: seq<Pred>, outer: seq<Row>, db: Db)
    requires ThreeWay(ra, rb, rc, at, bt, ct) && SteadyList(low, Names(ra.header) + Names(rb.header), outer, db)
    requires SteadyList(high, Names(ra.header) + Names(rb.header) + Names(rc.header), outer, db)
    ensures var inner, rest := Within(high, bt + ct, true), Within(high, bt + ct, false);
            && !LeftDeepFails(ra.rows, rb.rows, rc.rows, PredsFn(low, outer, db), PredsFn(high, outer, db))
            && !RightDeepFails(ra.rows, rb.rows, rc.rows, PredsFn(inner, outer, db), PredsFn(low + rest, outer, db))
  {
    var inner, rest, an, bn, cn := Within(high, bt + ct, true), Within(high, bt + ct, false), Names(ra.header), Names(rb.header), Names(rc.header);
    hide SteadyList, Within, WellFormedRel, Names, PredsFn, LeftDeepFails, RightDeepFails;
    NamesAppend(rb.header, rc.header);
    assert an + bn + cn == Names(rb.header + rc.header) + an;
    WithinNarrows(high, rb.header + rc.header, ra.header, bt + ct, at, outer, db);
    WithinSteady(high, bt + ct, false, an + bn + cn, outer, db);
    SteadyWiden(low, an + bn, an + bn + cn, outer, db);
    SteadyAppend(low, rest, an + bn + cn, outer, db);
    LeftDeepNeverFails(ra, rb, rc, low, high, outer, db);
    RightDeepNeverFails(ra, rb, rc, inner, low + rest, outer, db);
  }

  lemma NothingFailsLeft(ra: Rel, rb: Rel, rc: Rel, at: set<string>, bt: set<string>, ct: set<string>, low: seq<Pred>, high: seq<Pred>, outer: seq<Row>, db: Db)
    requires ThreeWay(ra, rb, rc, at, bt, ct) && SteadyList(low, Names(rb.header) + Names(rc.header), outer, db)
    requires SteadyList(high, Names(ra.header) + Names(rb.header) + Names(rc.header), outer, db)
    ensures var inner, rest := Within(high, at + bt, true), Within(high, at + bt, false);
            && !RightDeepFails(ra.rows, rb.rows, rc.rows, PredsFn(low, outer, db), PredsFn(high, outer, db))
            && !LeftDeepFails(ra.rows, rb.rows, rc.rows, PredsFn(inner, outer, db), PredsFn(low + rest, outer, db))
  {
    var inner, rest, an, bn, cn := Within(high, at + bt, true), Within(high, at + bt, false), Names(ra.header), Names(rb.header), Names(rc.header);
    hide SteadyList, Within, WellFormedRel, Names, PredsFn, LeftDeepFails, RightDeepFails;
    NamesAppend(ra.header, rb.header);
    WithinNarrows(high, ra.header + rb.header, rc.header, at + bt, ct, outer, db);
    WithinSteady(high, at + bt, false, an + bn + cn, outer, db);
    SteadyWiden(low, bn + cn, an + bn + cn, outer, db);
    SteadyAppend(low, rest, an + bn + cn, outer, db);
    RightDeepNeverFails(ra, rb, rc, low, high, outer, db);
    LeftDeepNeverFails(ra, rb, rc, inner, low + rest, outer, db);
  }

  /** (A join B) join C and A join (B join C) have the same outcome without correlated subqueries. */
  lemma AssociateRightRuns(p: Plan, outer: seq<Row>, db: Db)
    requires AssociateRightBound(p, outer, db) && AssociateRight(p).Some?
    ensures AssociateRightIsHarmless(p, outer, db) && Run(AssociateRight(p).value, outer, db) == Run(p, outer, db)
  {
    var a, b, c, low, high := p.kids[0].kids[0], p.kids[0].kids[1], p.kids[1], p.kids[0].op.on, p.op.on;
    hide Run, AssociateRight, OutputTables, PreparedPreds, AllResolve, AllUncorrelated, ColumnsOf, RowFits, PredsFn, Within, Side, DistinctIds, LeftDeepFails, RightDeepFails,
         SteadyList, Names;
    if DeepReady(a, b, c, low, high, outer, db) {
      RunFits(a, outer, db);
      RunFits(b, outer, db);
      RunFits(c, outer, db);
      PlainIsSteady(low, BothNames(a, b, db), outer, db);
      PlainIsSteady(high, AllNames(a, b, c, db), outer, db);
      NothingFailsRight(Run(a, outer, db).value, Run(b, outer, db).value, Run(c, outer, db).value, OutputTables(a), OutputTables(b), OutputTables(c), low, high, outer, db);
    }
    AssociateRightExactly(p, outer, db);
  }

  /** The converse re-association. */
  lemma AssociateLeftRuns(p: Plan, outer: seq<Row>, db: Db)
    requires AssociateLeftBound(p, outer, db) && AssociateLeft(p).Some?
    ensures AssociateLeftIsHarmless(p, outer, db) && Run(AssociateLeft(p).value, outer, db) == Run(p, outer, db)
  {
    var a, b, c, low, high := p.kids[0], p.kids[1].kids[0], p.kids[1].kids[1], p.kids[1].op.on, p.op.on;
    hide Run, AssociateLeft, OutputTables, PreparedPreds, AllResolve, AllUncorrelated, ColumnsOf, RowFits, PredsFn, Within, Side, DistinctIds, LeftDeepFails, RightDeepFails,
         SteadyList, Names;
    if DeepReady(a, b, c, low, high, outer, db) {
      RunFits(a, outer, db);
      RunFits(b, outer, db);
      RunFits(c, outer, db);
      PlainIsSteady(low, BothNames(b, c, db), outer, db);
      PlainIsSteady(high, AllNames(a, b, c, db), outer, db);
      NothingFailsLeft(Run(a, outer, db).value, Run(b, outer, db).value, Run(c, outer, db).value, OutputTables(a), OutputTables(b), OutputTables(c), low, high, outer, db);
    }
    AssociateLeftExactly(p, outer, db);
  }
}
