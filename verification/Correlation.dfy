/** Which outer columns a plan depends on. The binder collects them into `corr`; the executors trust an
  empty set to mean that the subquery may be evaluated once and reused for every owner row.
 */
module Correlation {
  import opened Plans
  import opened Sequences
  import opened Values
  import opened Algebra
  import opened Windows
  import opened Semantics

  function OuterOnly(cs: seq<ColumnRef>): (r: seq<ColumnRef>)
    ensures forall c :: c in r <==> c in cs && c.depth != 0
  {
    if cs == [] then []
    else
      assert cs == cs[..|cs| - 1] + [cs[|cs| - 1]];
      OuterOnly(cs[..|cs| - 1]) + if cs[|cs| - 1].depth != 0 then [cs[|cs| - 1]] else []
  }

  /** A nested subquery's depth-one columns belong to the owner's row; deeper ones move one level out. */
  function Rebased(cs: seq<ColumnRef>): seq<ColumnRef> {
    if cs == [] then []
    else
      var c := cs[|cs| - 1];
      Rebased(cs[..|cs| - 1]) + if c.depth > 1 then [c.(depth := c.depth - 1)] else []
  }

  lemma {:induction false} RebasedExactly(cs: seq<ColumnRef>, c: ColumnRef)
    ensures c in Rebased(cs) <==> c.depth > 0 && c.(depth := c.depth + 1) in cs
  {
    if cs != [] {
      RebasedExactly(cs[..|cs| - 1], c);
      assert cs == cs[..|cs| - 1] + [cs[|cs| - 1]];
    }
  }

  function ScalarCorr(e: Scalar): seq<ColumnRef> {
    match e
    case Column(c) => OuterOnly([c])
    case ScalarQuery(sub, _) => Rebased(sub.corr)
    case _ => []
  }

  function PredCorr(p: Pred): seq<ColumnRef> {
    match p
    case Cmp(l, _, r) => ScalarCorr(l) + ScalarCorr(r)
    case IsNull(e) => ScalarCorr(e)
    case IsNotNull(e) => ScalarCorr(e)
    case In(e, sub) => ScalarCorr(e) + Rebased(sub.corr)
    case NotIn(e, sub) => ScalarCorr(e) + Rebased(sub.corr)
    case Exists(sub) => Rebased(sub.corr)
    case NotExists(sub) => Rebased(sub.corr)
    case And(l, r) => PredCorr(l) + PredCorr(r)
    case Or(l, r) => PredCorr(l) + PredCorr(r)
  }

  function PredsCorr(ps: seq<Pred>): seq<ColumnRef> {
    if ps == [] then [] else PredsCorr(ps[..|ps| - 1]) + PredCorr(ps[|ps| - 1])
  }

  function ProjsCorr(projs: seq<Projection>): seq<ColumnRef> {
    if projs == [] then [] else ProjsCorr(projs[..|projs| - 1]) + ScalarCorr(projs[|projs| - 1].expr)
  }

  function OpCorr(op: Op): seq<ColumnRef> {
    match op
    case Filter(preds) => PredsCorr(preds)
    case Project(projs) => ProjsCorr(projs)
    case Join(_, on, membership) => PredsCorr(on) + (match membership case None => [] case Some(m) => PredCorr(m))
    case _ => OuterOnly(OwnColumns(op))
  }

  function PlanCorr(p: Plan): seq<ColumnRef>
    decreases p
  {
    OpCorr(p.op) + KidsCorr(p.kids)
  }

  function KidsCorr(kids: seq<Plan>): seq<ColumnRef>
    decreases kids
  {
    if kids == [] then [] else KidsCorr(kids[..|kids| - 1]) + PlanCorr(kids[|kids| - 1])
  }

  /** The outer columns of a query block, each listed once. */
  function CorrelationSet(p: Plan): seq<ColumnRef> {
    Dedup(PlanCorr(p))
  }

  // ---------------------------------------------------------------- bound plans

  predicate BoundScalar(e: Scalar)
    decreases e
  {
    e.ScalarQuery? ==> BoundSub(e.sub)
  }

  predicate BoundSub(sub: Subplan)
    decreases sub
  {
    sub.corr == CorrelationSet(sub.plan) && BoundPlan(sub.plan)
  }

  predicate BoundPred(p: Pred)
    decreases p
  {
    match p
    case Cmp(l, _, r) => BoundScalar(l) && BoundScalar(r)
    case IsNull(e) => BoundScalar(e)
    case IsNotNull(e) => BoundScalar(e)
    case In(e, sub) => BoundScalar(e) && BoundSub(sub)
    case NotIn(e, sub) => BoundScalar(e) && BoundSub(sub)
    case Exists(sub) => BoundSub(sub)
    case NotExists(sub) => BoundSub(sub)
    case And(l, r) => BoundPred(l) && BoundPred(r)
    case Or(l, r) => BoundPred(l) && BoundPred(r)
  }

  predicate BoundPreds(ps: seq<Pred>)
    decreases ps
  {
    forall i | 0 <= i < |ps| :: BoundPred(ps[i])
  }

  predicate BoundOp(op: Op)
    decreases op
  {
    match op
    case Filter(preds) => BoundPreds(preds)
    case Project(projs) => forall i | 0 <= i < |projs| :: BoundScalar(projs[i].expr)
    case Join(_, on, membership) => BoundPreds(on) && (membership.Some? ==> BoundPred(membership.value))
    case _ => true
  }

  /** Every subquery carries the correlation set of its own plan, as binding leaves it. */
  predicate BoundPlan(p: Plan)
    decreases p
  {
    BoundOp(p.op) && forall i | 0 <= i < |p.kids| :: BoundPlan(p.kids[i])
  }

  // ---------------------------------------------------------------- locality

  /** Two frame stacks give every listed outer column the same cell. */
  ghost predicate SameFrames(cs: seq<ColumnRef>, o1: seq<Row>, o2: seq<Row>) {
    forall c | c in cs && c.depth != 0 :: OuterCell(c, o1) == OuterCell(c, o2)
  }

  lemma NestedCell(c: ColumnRef, row: Row, outer: seq<Row>)
    requires c.depth > 0
    ensures c.depth > 1 ==> OuterCell(c, outer + [row]) == OuterCell(c.(depth := c.depth - 1), outer)
    ensures c.depth == 1 ==> OuterCell(c, outer + [row]) == if c.id in row then Ok(row[c.id]) else Fails
  {
  }

  lemma SameFramesNested(cs: seq<ColumnRef>, row: Row, o1: seq<Row>, o2: seq<Row>)
    requires SameFrames(Rebased(cs), o1, o2)
    ensures SameFrames(cs, o1 + [row], o2 + [row])
  {
    hide OuterCell;
    forall c | c in cs && c.depth != 0 ensures OuterCell(c, o1 + [row]) == OuterCell(c, o2 + [row]) {
      NestedCell(c, row, o1);
      NestedCell(c, row, o2);
      if c.depth > 1 {
        RebasedExactly(cs, c.(depth := c.depth - 1));
      }
    }
  }

  lemma SameEnv(cs: seq<ColumnRef>, o1: seq<Row>, o2: seq<Row>)
    requires SameFrames(OuterOnly(cs), o1, o2)
    ensures OuterEnv(cs, o1) == OuterEnv(cs, o2)
  {
    assert forall c | c in cs :: OuterCell(c, o1) == OuterCell(c, o2);
  }

  lemma {:induction false} ProbeAgree(on: Row -> Truth, on2: Row -> Truth, l: Row, rs: seq<Row>)
    requires forall row :: on(row) == on2(row)
    ensures Probe(on, l, rs) == Probe(on2, l, rs)
  {
    if rs != [] { ProbeAgree(on, on2, l, rs[1..]); }
  }

  lemma {:induction false} SuppressedAgree(on: Row -> Truth, on2: Row -> Truth, m: Row -> Truth, m2: Row -> Truth, l: Row, rs: seq<Row>)
    requires forall row :: on(row) == on2(row) && m(row) == m2(row)
    ensures Suppressed(on, m, l, rs) == Suppressed(on2, m2, l, rs)
  {
    if rs != [] { SuppressedAgree(on, on2, m, m2, l, rs[1..]); }
  }

  /** Joins see their predicates only through the truth of joined rows. */
  lemma JoinAgree(kind: JoinKind, on: Row -> Truth, on2: Row -> Truth, m: Row -> Truth, m2: Row -> Truth, left: Rel, right: Rel)
    requires forall row :: on(row) == on2(row) && m(row) == m2(row)
    ensures JoinRel(kind, on, m, left, right) == JoinRel(kind, on2, m2, left, right)
  {
    forall i | 0 <= i < |left.rows|
      ensures JoinOne(kind, on, m, right)(left.rows[i]) == JoinOne(kind, on2, m2, right)(left.rows[i])
    {
      var l := left.rows[i];
      forall k | 0 <= k < |right.rows| ensures Match(on, l)(right.rows[k]) == Match(on2, l)(right.rows[k]) {
        assert on(Joined(l, right.rows[k])) == on2(Joined(l, right.rows[k]));
      }
      FlatMapAgree(right.rows, Match(on, l), Match(on2, l));
      ProbeAgree(on, on2, l, right.rows);
      SuppressedAgree(on, on2, m, m2, l, right.rows);
    }
    FlatMapAgree(left.rows, JoinOne(kind, on, m, right), JoinOne(kind, on2, m2, right));
  }

  lemma {:induction false} MapAllAgree<A, B>(xs: seq<A>, h: A -> Outcome<B>, k: A -> Outcome<B>)
    requires forall i | 0 <= i < |xs| :: h(xs[i]) == k(xs[i])
    ensures MapAll(xs, h) == MapAll(xs, k)
  {
    if xs != [] { MapAllAgree(xs[..|xs| - 1], h, k); }
  }

  lemma {:induction false} ScalarLocal(e: Scalar, row: Row, o1: seq<Row>, o2: seq<Row>, db: Db)
    requires BoundScalar(e) && SameFrames(ScalarCorr(e), o1, o2)
    ensures EvalScalar(e, row, o1, db) == EvalScalar(e, row, o2, db)
    ensures PreparedScalar(e, o1, db) == PreparedScalar(e, o2, db)
    decreases e
  {
    match e
    case Column(c) => assert c.depth != 0 ==> c in ScalarCorr(e);
    case ScalarQuery(sub, _) => SubLocal(sub, row, o1, o2, db);
    case _ =>
  }

  lemma {:induction false} SubLocal(sub: Subplan, row: Row, o1: seq<Row>, o2: seq<Row>, db: Db)
    requires BoundSub(sub) && SameFrames(Rebased(sub.corr), o1, o2)
    ensures EvalSub(sub, row, o1, db) == EvalSub(sub, row, o2, db)
    ensures PreparedSub(sub, o1, db) == PreparedSub(sub, o2, db)
    ensures sub.corr == [] ==> Run(sub.plan, o1, db) == Run(sub.plan, o2, db)
    decreases sub
  {
    if sub.corr == [] {
      RunLocal(sub.plan, o1, o2, db);
    } else {
      SameFramesNested(sub.corr, row, o1, o2);
      RunLocal(sub.plan, o1 + [row], o2 + [row], db);
    }
  }

  lemma FramesAppend(a: seq<ColumnRef>, b: seq<ColumnRef>, o1: seq<Row>, o2: seq<Row>)
    requires SameFrames(a + b, o1, o2)
    ensures SameFrames(a, o1, o2) && SameFrames(b, o1, o2)
  {
  }

  lemma {:induction false} PredLocal(p: Pred, row: Row, o1: seq<Row>, o2: seq<Row>, db: Db)
    requires BoundPred(p) && SameFrames(PredCorr(p), o1, o2)
    ensures EvalPred(p, row, o1, db) == EvalPred(p, row, o2, db)
    ensures PreparedPred(p, o1, db) == PreparedPred(p, o2, db)
    decreases p
  {
    hide SameFrames, EvalScalar, EvalSub, ScalarCorr, Rebased, BoundScalar, BoundSub;
    match p
    case Cmp(l, _, r) =>
      FramesAppend(ScalarCorr(l), ScalarCorr(r), o1, o2);
      ScalarLocal(l, row, o1, o2, db);
      ScalarLocal(r, row, o1, o2, db);
    case IsNull(e) => ScalarLocal(e, row, o1, o2, db);
    case IsNotNull(e) => ScalarLocal(e, row, o1, o2, db);
    case In(e, sub) =>
      FramesAppend(ScalarCorr(e), Rebased(sub.corr), o1, o2);
      ScalarLocal(e, row, o1, o2, db);
      SubLocal(sub, row, o1, o2, db);
    case NotIn(e, sub) =>
      FramesAppend(ScalarCorr(e), Rebased(sub.corr), o1, o2);
      ScalarLocal(e, row, o1, o2, db);
      SubLocal(sub, row, o1, o2, db);
    case Exists(sub) => SubLocal(sub, row, o1, o2, db);
    case NotExists(sub) => SubLocal(sub, row, o1, o2, db);
    case And(l, r) =>
      FramesAppend(PredCorr(l), PredCorr(r), o1, o2);
      PredLocal(l, row, o1, o2, db);
      PredLocal(r, row, o1, o2, db);
    case Or(l, r) =>
      FramesAppend(PredCorr(l), PredCorr(r), o1, o2);
      PredLocal(l, row, o1, o2, db);
      PredLocal(r, row, o1, o2, db);
  }

  lemma {:induction false} PredsLocal(ps: seq<Pred>, row: Row, o1: seq<Row>, o2: seq<Row>, db: Db)
    requires BoundPreds(ps) && SameFrames(PredsCorr(ps), o1, o2)
    ensures EvalPreds(ps, row, o1, db) == EvalPreds(ps, row, o2, db)
    ensures PreparedPreds(ps, o1, db) == PreparedPreds(ps, o2, db)
    decreases ps
  {
    if ps != [] {
      var n := |ps| - 1;
      assert ps == ps[..n] + [ps[n]];
      PredsLocal(ps[..n], row, o1, o2, db);
      PredLocal(ps[n], row, o1, o2, db);
      PreparedSnoc(ps, o1, db);
      PreparedSnoc(ps, o2, db);
    }
  }

  lemma PreparedSnoc(ps: seq<Pred>, outer: seq<Row>, db: Db)
    requires ps != []
    ensures PreparedPreds(ps, outer, db) <==>
            PreparedPreds(ps[..|ps| - 1], outer, db) && PreparedPred(ps[|ps| - 1], outer, db)
  {
    hide PreparedPred;
    var init := ps[..|ps| - 1];
    assert forall i | 0 <= i < |init| :: init[i] == ps[i];
    if PreparedPreds(init, outer, db) && PreparedPred(ps[|ps| - 1], outer, db) {
      forall i | 0 <= i < |ps| ensures PreparedPred(ps[i], outer, db) {
        assert i < |init| ==> PreparedPred(init[i], outer, db);
      }
    }
  }

  lemma ProjsLast(projs: seq<Projection>, row: Row, outer: seq<Row>, db: Db)
    requires projs != []
    ensures var n := |projs| - 1;
            && EvalProjs(projs, row, outer, db) == (
                 match EvalProjs(projs[..n], row, outer, db)
                 case Fails => Fails
                 case Ok(cells) =>
                   match EvalScalar(projs[n].expr, row, outer, db)
                   case Fails => Fails
                   case Ok(v) => Ok(cells + [Cast(projs[n].expr.Type(), v)]))
            && (PreparedOp(Project(projs), outer, db) <==> PreparedOp(Project(projs[..n]), outer, db) && PreparedScalar(projs[n].expr, outer, db))
  {
    hide EvalScalar, PreparedScalar, Cast;
    var n := |projs| - 1;
    forall i | 0 <= i < n ensures projs[..n][i] == projs[i] {
    }
    if PreparedOp(Project(projs[..n]), outer, db) && PreparedScalar(projs[n].expr, outer, db) {
      forall i | 0 <= i < |projs| ensures PreparedScalar(projs[i].expr, outer, db) {
        assert i < n ==> PreparedScalar(projs[..n][i].expr, outer, db);
      }
    }
  }

  lemma ProjsCorrLast(projs: seq<Projection>, o1: seq<Row>, o2: seq<Row>)
    requires projs != [] && BoundOp(Project(projs)) && SameFrames(ProjsCorr(projs), o1, o2)
    ensures var n := |projs| - 1;
            && BoundOp(Project(projs[..n])) && SameFrames(ProjsCorr(projs[..n]), o1, o2)
            && BoundScalar(projs[n].expr) && SameFrames(ScalarCorr(projs[n].expr), o1, o2)
  {
    hide BoundScalar, ScalarCorr, SameFrames;
    FramesAppend(ProjsCorr(projs[..|projs| - 1]), ScalarCorr(projs[|projs| - 1].expr), o1, o2);
  }

  lemma {:induction false} ProjsLocal(projs: seq<Projection>, row: Row, o1: seq<Row>, o2: seq<Row>, db: Db)
    requires BoundOp(Project(projs)) && SameFrames(ProjsCorr(projs), o1, o2)
    ensures EvalProjs(projs, row, o1, db) == EvalProjs(projs, row, o2, db)
    ensures PreparedOp(Project(projs), o1, db) == PreparedOp(Project(projs), o2, db)
    decreases projs
  {
    if projs != [] {
      hide EvalProjs, EvalScalar, PreparedOp, PreparedScalar, SameFrames, ProjsCorr, ScalarCorr, BoundOp, BoundScalar, Cast;
      var n := |projs| - 1;
      assert projs == projs[..n] + [projs[n]];
      ProjsCorrLast(projs, o1, o2);
      ProjsLocal(projs[..n], row, o1, o2, db);
      ScalarLocal(projs[n].expr, row, o1, o2, db);
      ProjsLast(projs, row, o1, db);
      ProjsLast(projs, row, o2, db);
    }
  }

  lemma OpLocal(op: Op, o1: seq<Row>, o2: seq<Row>, db: Db)
    requires BoundOp(op) && SameFrames(OpCorr(op), o1, o2)
    ensures PreparedOp(op, o1, db) == PreparedOp(op, o2, db)
    ensures OuterEnv(OwnColumns(op), o1) == OuterEnv(OwnColumns(op), o2)
    ensures op.Filter? ==> forall row :: EvalPreds(op.preds, row, o1, db) == EvalPreds(op.preds, row, o2, db)
    ensures op.Project? ==> forall row :: EvalProjs(op.projs, row, o1, db) == EvalProjs(op.projs, row, o2, db)
    ensures op.Join? ==> forall row :: EvalPreds(op.on, row, o1, db) == EvalPreds(op.on, row, o2, db)
    ensures op.Join? && op.membership.Some? ==>
              forall row :: EvalPred(op.membership.value, row, o1, db) == EvalPred(op.membership.value, row, o2, db)
    decreases op
  {
    SameEnvOp(op, o1, o2);
    match op
    case Filter(preds) =>
      forall row ensures EvalPreds(preds, row, o1, db) == EvalPreds(preds, row, o2, db) {
        PredsLocal(preds, row, o1, o2, db);
      }
      PredsLocal(preds, map[], o1, o2, db);
    case Project(projs) =>
      forall row ensures EvalProjs(projs, row, o1, db) == EvalProjs(projs, row, o2, db) {
        ProjsLocal(projs, row, o1, o2, db);
      }
      ProjsLocal(projs, map[], o1, o2, db);
    case Join(_, on, membership) =>
      forall row ensures EvalPreds(on, row, o1, db) == EvalPreds(on, row, o2, db) {
        PredsLocal(on, row, o1, o2, db);
      }
      PredsLocal(on, map[], o1, o2, db);
      if membership.Some? {
        forall row ensures EvalPred(membership.value, row, o1, db) == EvalPred(membership.value, row, o2, db) {
          PredLocal(membership.value, row, o1, o2, db);
        }
        PredLocal(membership.value, map[], o1, o2, db);
      }
    case _ =>
  }

  lemma SameEnvOp(op: Op, o1: seq<Row>, o2: seq<Row>)
    requires SameFrames(OpCorr(op), o1, o2)
    ensures OuterEnv(OwnColumns(op), o1) == OuterEnv(OwnColumns(op), o2)
  {
    if !op.Filter? && !op.Project? && !op.Join? {
      SameEnv(OwnColumns(op), o1, o2);
    } else {
      assert OwnColumns(op) == [];
    }
  }

  lemma {:induction false} KidsFrames(kids: seq<Plan>, i: int, o1: seq<Row>, o2: seq<Row>)
    requires SameFrames(KidsCorr(kids), o1, o2) && 0 <= i < |kids|
    ensures SameFrames(PlanCorr(kids[i]), o1, o2)
  {
    if i < |kids| - 1 {
      KidsFrames(kids[..|kids| - 1], i, o1, o2);
    }
  }

  /** A plan sees only the frames in its correlation set: results, failures and preparation included. */
  lemma {:induction false} EvalLocal(p: Plan, o1: seq<Row>, o2: seq<Row>, db: Db)
    requires BoundPlan(p) && SameFrames(PlanCorr(p), o1, o2)
    ensures Eval(p, o1, db) == Eval(p, o2, db)
    ensures Prepared(p, o1, db) == Prepared(p, o2, db)
    decreases p, 0
  {
    forall i | 0 <= i < |p.kids|
      ensures Eval(p.kids[i], o1, db) == Eval(p.kids[i], o2, db)
      ensures Prepared(p.kids[i], o1, db) == Prepared(p.kids[i], o2, db)
    {
      KidsFrames(p.kids, i, o1, o2);
      EvalLocal(p.kids[i], o1, o2, db);
    }
    OpLocal(p.op, o1, o2, db);
    if |p.kids| == 1 && |p.kids[0].kids| == 1 {
      KidsFrames(p.kids, 0, o1, o2);
      KidsFrames(p.kids[0].kids, 0, o1, o2);
      EvalLocal(p.kids[0].kids[0], o1, o2, db);
    }
    EvalFromKids(p, o1, o2, db);
  }

  lemma PredsFnAt(ps: seq<Pred>, outer: seq<Row>, db: Db)
    ensures forall row :: PredsFn(ps, outer, db)(row) == EvalPreds(ps, row, outer, db)
  {
  }

  lemma MemberFnAt(m: Option<Pred>, outer: seq<Row>, db: Db)
    ensures forall row :: MemberFn(m, outer, db)(row) == if m.None? then False else EvalPred(m.value, row, outer, db)
  {
  }

  lemma ProjectFnAt(projs: seq<Projection>, outer: seq<Row>, db: Db)
    ensures forall row :: ProjectFn(projs, outer, db)(row) ==
              match EvalProjs(projs, row, outer, db)
              case Fails => Fails
              case Ok(cells) => Ok(MakeRow(Ids(ProjectHeader(projs)), cells))
  {
  }

  /** The step from children to parent. */
  lemma EvalFromKids(p: Plan, o1: seq<Row>, o2: seq<Row>, db: Db)
    requires forall i | 0 <= i < |p.kids| :: Eval(p.kids[i], o1, db) == Eval(p.kids[i], o2, db)
    requires |p.kids| == 1 && |p.kids[0].kids| == 1 ==> Eval(p.kids[0].kids[0], o1, db) == Eval(p.kids[0].kids[0], o2, db)
    requires OuterEnv(OwnColumns(p.op), o1) == OuterEnv(OwnColumns(p.op), o2)
    requires p.op.Filter? ==> forall row :: EvalPreds(p.op.preds, row, o1, db) == EvalPreds(p.op.preds, row, o2, db)
    requires p.op.Project? ==> forall row :: EvalProjs(p.op.projs, row, o1, db) == EvalProjs(p.op.projs, row, o2, db)
    requires p.op.Join? ==> forall row :: EvalPreds(p.op.on, row, o1, db) == EvalPreds(p.op.on, row, o2, db)
    requires p.op.Join? && p.op.membership.Some? ==>
              forall row :: EvalPred(p.op.membership.value, row, o1, db) == EvalPred(p.op.membership.value, row, o2, db)
    ensures Eval(p, o1, db) == Eval(p, o2, db)
  {
    hide FilterRel, JoinRel, AggregateRel, WindowRel, SortRel, SortProjected, ScanRel, OuterEnv, DistinctRel, LimitRel;
    if Executable(p.op) && |p.kids| == Arity(p.op) && !p.op.Scan? && Eval(p.kids[0], o1, db).Ok? {
      var rel := Eval(p.kids[0], o1, db).value;
      match p.op
      case Join(kind, on, membership) =>
        if Eval(p.kids[1], o1, db).Ok? {
          PredsFnAt(on, o1, db);
          PredsFnAt(on, o2, db);
          MemberFnAt(membership, o1, db);
          MemberFnAt(membership, o2, db);
          JoinAgree(kind, PredsFn(on, o1, db), PredsFn(on, o2, db), MemberFn(membership, o1, db), MemberFn(membership, o2, db),
                    rel, Eval(p.kids[1], o1, db).value);
        }
      case Filter(preds) =>
        PredsFnAt(preds, o1, db);
        PredsFnAt(preds, o2, db);
        FilterAgree(rel, PredsFn(preds, o1, db), PredsFn(preds, o2, db));
      case Project(projs) =>
        ProjectFnAt(projs, o1, db);
        ProjectFnAt(projs, o2, db);
        MapAllAgree(rel.rows, ProjectFn(projs, o1, db), ProjectFn(projs, o2, db));
      case _ =>
    }
  }

  lemma FilterAgree(rel: Rel, f: Row -> Truth, g: Row -> Truth)
    requires forall row :: f(row) == g(row)
    ensures FilterRel(rel, f) == FilterRel(rel, g)
  {
    FlatMapAgree(rel.rows, KeepTrue(f), KeepTrue(g));
  }

  lemma {:induction false} RunLocal(p: Plan, o1: seq<Row>, o2: seq<Row>, db: Db)
    requires BoundPlan(p) && SameFrames(CorrelationSet(p), o1, o2)
    ensures Run(p, o1, db) == Run(p, o2, db)
    decreases p, 1
  {
    EvalLocal(p, o1, o2, db);
  }

  /** A subquery with an empty correlation set has one result under every frame stack, so evaluating it
    once and reusing the answer is the same as evaluating it for every owner row. */
  lemma UncorrelatedIsConstant(sub: Subplan, row: Row, outer: seq<Row>, row2: Row, outer2: seq<Row>, db: Db)
    requires BoundSub(sub) && sub.corr == []
    ensures EvalSub(sub, row, outer, db) == EvalSub(sub, row2, outer2, db)
  {
    RunLocal(sub.plan, outer, outer2, db);
  }
}
