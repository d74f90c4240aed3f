/** Moving filter conjuncts into joins, for predicates of any kind: conjuncts that fail may be evaluated on other rows
  than before, so pushing keeps the outcome exactly when a failure shows on both sides or on neither.
 */
module PushdownExactly {
  import opened Plans
  import opened Sequences
  import opened Values
  import opened Algebra
  import opened Semantics
  import opened Shapes
  import opened Correlation
  import opened FilterRuleSoundness
  import opened RewriteFixpoint
  import opened JoinAlgebra
  import opened JoinRules
  import opened JoinPushdown
  import opened PlanRuns
  import opened JoinShapes
  import opened DecorrelationSoundness

  // ---------------------------------------------------------------- truths of conjunct lists

  lemma {:induction false} AnyError(ps: seq<Pred>, row: Row, outer: seq<Row>, db: Db)
    ensures EvalPreds(ps, row, outer, db) == Error <==> exists q :: q in ps && EvalPred(q, row, outer, db) == Error
  {
    hide EvalPred;
    if ps != [] {
      var n := |ps| - 1;
      AnyError(ps[..n], row, outer, db);
      assert ps == ps[..n] + [ps[n]];
      if EvalPreds(ps[..n], row, outer, db) == Error {
        var q :| q in ps[..n] && EvalPred(q, row, outer, db) == Error;
        assert q in ps;
      }
      assert ps[n] in ps;
    }
  }

  lemma EveryTrue(ps: seq<Pred>, row: Row, outer: seq<Row>, db: Db)
    ensures EvalPreds(ps, row, outer, db) == True <==> forall q | q in ps :: EvalPred(q, row, outer, db) == True
  {
    hide EvalPred, EvalPreds;
    AllTrue(ps, row, outer, db);
    assert forall i | 0 <= i < |ps| :: ps[i] in ps;
  }

  /** `whole` fails where some part does, and is true where all parts are. */
  ghost predicate MadeOf(whole: Row -> Truth, a: Row -> Truth, b: Row -> Truth) {
    forall row :: (whole(row) == Error <==> a(row) == Error || b(row) == Error) && (whole(row) == True <==> a(row) == True && b(row) == True)
  }

  function Both(a: Row -> Truth, b: Row -> Truth): Row -> Truth {
    row => AndTruth(a(row), b(row))
  }

  lemma AppendMadeOf(ps: seq<Pred>, qs: seq<Pred>, outer: seq<Row>, db: Db)
    ensures MadeOf(PredsFn(ps + qs, outer, db), PredsFn(ps, outer, db), PredsFn(qs, outer, db))
  {
    hide EvalPreds;
    PredsFnAt(ps, outer, db);
    PredsFnAt(qs, outer, db);
    PredsFnAt(ps + qs, outer, db);
    forall row: Row ensures EvalPreds(ps + qs, row, outer, db) == AndTruth(EvalPreds(ps, row, outer, db), EvalPreds(qs, row, outer, db)) {
      PredsAppend(ps, qs, row, outer, db);
    }
  }

  /** A list and its parts under one row. */
  lemma PartTruths(kind: JoinKind, ps: seq<Pred>, lt: set<string>, rt: set<string>, row: Row, outer: seq<Row>, db: Db)
    ensures var pl, pr := Placed(kind, ps, AtLeft, lt, rt), Placed(kind, ps, AtRight, lt, rt);
            var pj, res := Placed(kind, ps, AtJoin, lt, rt), Placed(kind, ps, AtResidual, lt, rt);
            && (EvalPreds(ps, row, outer, db) == Error <==>
                  EvalPreds(pl, row, outer, db) == Error || EvalPreds(pr, row, outer, db) == Error ||
                  EvalPreds(pj, row, outer, db) == Error || EvalPreds(res, row, outer, db) == Error)
            && (EvalPreds(ps, row, outer, db) == True <==>
                  && EvalPreds(pl, row, outer, db) == True && EvalPreds(pr, row, outer, db) == True
                  && EvalPreds(pj, row, outer, db) == True && EvalPreds(res, row, outer, db) == True)
  {
    var pl, pr := Placed(kind, ps, AtLeft, lt, rt), Placed(kind, ps, AtRight, lt, rt);
    var pj, res := Placed(kind, ps, AtJoin, lt, rt), Placed(kind, ps, AtResidual, lt, rt);
    hide EvalPred, EvalPreds, PlaceOf, Placed;
    AnyError(ps, row, outer, db);
    AnyError(pl, row, outer, db);
    AnyError(pr, row, outer, db);
    AnyError(pj, row, outer, db);
    AnyError(res, row, outer, db);
    EveryTrue(ps, row, outer, db);
    EveryTrue(pl, row, outer, db);
    EveryTrue(pr, row, outer, db);
    EveryTrue(pj, row, outer, db);
    EveryTrue(res, row, outer, db);
    forall q | q in ps ensures q in pl || q in pr || q in pj || q in res {
      match PlaceOf(kind, q, lt, rt)
      case AtLeft =>
      case AtRight =>
      case AtJoin =>
      case AtResidual =>
    }
  }

  // ---------------------------------------------------------------- filters in another order

  /** Filtering by `j` and then by everything fails. */
  ghost predicate AboveFails(rel: Rel, j: Row -> Truth, a: Row -> Truth, b: Row -> Truth) {
    exists k :: 0 <= k < |rel.rows| &&
      (j(rel.rows[k]) == Error || (j(rel.rows[k]) == True && (a(rel.rows[k]) == Error || b(rel.rows[k]) == Error)))
  }

  /** Filtering by `a`, then by `j`, then by `b` fails. */
  ghost predicate BelowFails(rel: Rel, j: Row -> Truth, a: Row -> Truth, b: Row -> Truth) {
    exists k :: 0 <= k < |rel.rows| &&
      (a(rel.rows[k]) == Error ||
       (a(rel.rows[k]) == True && (j(rel.rows[k]) == Error || (j(rel.rows[k]) == True && b(rel.rows[k]) == Error))))
  }

  function FilterThrice(rel: Rel, a: Row -> Truth, j: Row -> Truth, b: Row -> Truth): Outcome<Rel> {
    match FilterRel(rel, a)
    case Fails => Fails
    case Ok(first) => FilterTwice(first, j, b)
  }

  /** A filter either fails at some row or keeps what is true. */
  lemma FilterOutcome(rel: Rel, f: Row -> Truth)
    ensures FilterRel(rel, f) ==
            if exists k :: 0 <= k < |rel.rows| && f(rel.rows[k]) == Error then Fails else Ok(Rel(rel.header, Keep(rel.rows, IsTrue(f))))
  {
    hide FlatMap, Keep;
    if exists k :: 0 <= k < |rel.rows| && f(rel.rows[k]) == Error {
      var k :| 0 <= k < |rel.rows| && f(rel.rows[k]) == Error;
      FlatMapFails(rel.rows, KeepTrue(f));
      assert KeepTrue(f)(rel.rows[k]).Fails?;
    } else {
      FilterIsKeep(rel.rows, f);
    }
  }

  lemma TwiceOutcome(rel: Rel, f: Row -> Truth, g: Row -> Truth)
    ensures FilterTwice(rel, f, g) ==
            if VisibleFailure(rel, f, g) then Fails else Ok(Rel(rel.header, Keep(rel.rows, Conj(IsTrue(f), IsTrue(g)))))
  {
    hide FilterRel, Keep;
    TwiceFails(rel, f, g);
    if !VisibleFailure(rel, f, g) {
      FilterOutcome(rel, f);
      FilterOutcome(Rel(rel.header, Keep(rel.rows, IsTrue(f))), g);
      KeepKeep(rel.rows, IsTrue(f), IsTrue(g));
    }
  }

  lemma ThriceOutcome(rel: Rel, a: Row -> Truth, j: Row -> Truth, b: Row -> Truth)
    ensures FilterThrice(rel, a, j, b) ==
            if BelowFails(rel, j, a, b) then Fails else Ok(Rel(rel.header, Keep(rel.rows, Conj(IsTrue(a), Conj(IsTrue(j), IsTrue(b))))))
  {
    hide FilterRel, FilterTwice, Keep;
    var bad := (row: Row) => j(row) == Error || (j(row) == True && b(row) == Error);
    var kept := Rel(rel.header, Keep(rel.rows, IsTrue(a)));
    FilterOutcome(rel, a);
    TwiceOutcome(kept, j, b);
    KeptBlocked(rel.rows, IsTrue(a), bad);
    KeepKeep(rel.rows, IsTrue(a), Conj(IsTrue(j), IsTrue(b)));
    BadRows(rel, kept, j, a, b, bad);
  }

  lemma BadRows(rel: Rel, kept: Rel, j: Row -> Truth, a: Row -> Truth, b: Row -> Truth, bad: Row -> bool)
    requires forall row :: bad(row) == (j(row) == Error || (j(row) == True && b(row) == Error))
    requires (exists k :: 0 <= k < |kept.rows| && bad(kept.rows[k])) <==> exists k :: 0 <= k < |rel.rows| && IsTrue(a)(rel.rows[k]) && bad(rel.rows[k])
    ensures BelowFails(rel, j, a, b) <==> (exists k :: 0 <= k < |rel.rows| && a(rel.rows[k]) == Error) || VisibleFailure(kept, j, b)
  {
    if VisibleFailure(kept, j, b) {
      var k :| 0 <= k < |kept.rows| && (j(kept.rows[k]) == Error || (j(kept.rows[k]) == True && b(kept.rows[k]) == Error));
      assert bad(kept.rows[k]);
      var i :| 0 <= i < |rel.rows| && IsTrue(a)(rel.rows[i]) && bad(rel.rows[i]);
      assert a(rel.rows[i]) == True;
    }
    if BelowFails(rel, j, a, b) && !exists k :: 0 <= k < |rel.rows| && a(rel.rows[k]) == Error {
      var i :| 0 <= i < |rel.rows| && (a(rel.rows[i]) == Error ||
        (a(rel.rows[i]) == True && (j(rel.rows[i]) == Error || (j(rel.rows[i]) == True && b(rel.rows[i]) == Error))));
      assert IsTrue(a)(rel.rows[i]) && bad(rel.rows[i]);
      var k :| 0 <= k < |kept.rows| && bad(kept.rows[k]);
    }
  }

  /** Pushing `a` below `j`: the same rows unless exactly one form fails. */
  lemma ThreeFilters(rel: Rel, j: Row -> Truth, a: Row -> Truth, b: Row -> Truth, whole: Row -> Truth)
    requires MadeOf(whole, a, b)
    ensures FilterTwice(rel, j, whole) == FilterThrice(rel, a, j, b) <==> (AboveFails(rel, j, a, b) <==> BelowFails(rel, j, a, b))
    ensures FilterTwice(rel, j, whole).Ok? && FilterThrice(rel, a, j, b).Ok? ==> FilterTwice(rel, j, whole) == FilterThrice(rel, a, j, b)
  {
    hide FilterTwice, FilterThrice, BelowFails, Keep;
    TwiceOutcome(rel, j, whole);
    ThriceOutcome(rel, a, j, b);
    assert VisibleFailure(rel, j, whole) <==> AboveFails(rel, j, a, b);
    var above, below := Conj(IsTrue(j), IsTrue(whole)), Conj(IsTrue(a), Conj(IsTrue(j), IsTrue(b)));
    forall k | 0 <= k < |rel.rows| ensures above(rel.rows[k]) == below(rel.rows[k]) {
    }
    KeepAgree(rel.rows, above, below);
  }

  // ---------------------------------------------------------------- SEMI, ANTI and NULL-aware ANTI

  /** An existence join as a predicate on left rows. */
  function JoinTruth(kind: JoinKind, f: Row -> Truth, m: Row -> Truth, right: Rel): Row -> Truth {
    l =>
      var hit := if kind == NullAwareAnti then Suppressed(f, m, l, right.rows) else Probe(f, l, right.rows);
      if hit == Error then Error else TruthOf(hit == if kind == Semi then True else False)
  }

  lemma ExistenceIsFilter(kind: JoinKind, f: Row -> Truth, m: Row -> Truth, left: Rel, right: Rel)
    requires !EmitsRight(kind) && DistinctIds(left.header)
    ensures JoinRel(kind, f, m, left, right) == FilterRel(left, JoinTruth(kind, f, m, right))
  {
    hide FlatMap, Probe, Suppressed, DistinctIds;
    var t := JoinTruth(kind, f, m, right);
    forall k | 0 <= k < |left.rows| ensures JoinOne(kind, f, m, right)(left.rows[k]) == KeepTrue(t)(left.rows[k]) {
    }
    FlatMapAgree(left.rows, JoinOne(kind, f, m, right), KeepTrue(t));
  }

  /** When the rule keeps the outcome: pushing exposes no failure that did not show above the join, and masks none. */
  ghost predicate PushIsHarmless(p: Plan, outer: seq<Row>, db: Db)
    requires FilterOverJoin(p)
  {
    var join, kind := p.kids[0], p.kids[0].op.kind;
    var left, right := Run(join.kids[0], outer, db), Run(join.kids[1], outer, db);
    var lt, rt := OutputTables(join.kids[0]), OutputTables(join.kids[1]);
    left.Ok? && right.Ok? && Executable(join.op) && PreparedOp(join.op, outer, db) && PreparedPreds(p.op.preds, outer, db) ==>
      var j := JoinTruth(kind, PredsFn(join.op.on, outer, db), MemberFn(join.op.membership, outer, db), right.value);
      var a, b := PredsFn(Placed(kind, p.op.preds, AtLeft, lt, rt), outer, db), PredsFn(Placed(kind, p.op.preds, AtResidual, lt, rt), outer, db);
      && (BelowFails(left.value, j, a, b) ==> AboveFails(left.value, j, a, b))
      && (AboveFails(left.value, j, a, b) ==> BelowFails(left.value, j, a, b))
  }

  lemma NotExecutable(perm: OrderPermission, op: Op, l: Plan, r: Plan, outer: seq<Row>, db: Db)
    requires op.Join? && !Executable(op)
    ensures Run(Node(perm, op, [l, r]), outer, db).Fails?
  {
    hide Executable, Prepared;
  }

  /** A join node, whatever its fields. */
  lemma RunAnyJoin(perm: OrderPermission, op: Op, l: Plan, r: Plan, outer: seq<Row>, db: Db)
    requires op.Join?
    ensures Run(Node(perm, op, [l, r]), outer, db) ==
            if !Executable(op) || !PreparedOp(op, outer, db) || Run(l, outer, db).Fails? || Run(r, outer, db).Fails? then Fails
            else JoinRel(op.kind, PredsFn(op.on, outer, db), MemberFn(op.membership, outer, db), Run(l, outer, db).value, Run(r, outer, db).value)
  {
    hide Run, Executable, PreparedOp, JoinRel;
    if Executable(op) {
      RunJoin(perm, op, l, r, outer, db);
    } else {
      NotExecutable(perm, op, l, r, outer, db);
    }
  }

  lemma ExistencePartTruths(kind: JoinKind, ps: seq<Pred>, lt: set<string>, rt: set<string>, row: Row, outer: seq<Row>, db: Db)
    requires !EmitsRight(kind)
    ensures var pl, res := Placed(kind, ps, AtLeft, lt, rt), Placed(kind, ps, AtResidual, lt, rt);
            && (EvalPreds(ps, row, outer, db) == Error <==> EvalPreds(pl, row, outer, db) == Error || EvalPreds(res, row, outer, db) == Error)
            && (EvalPreds(ps, row, outer, db) == True <==> EvalPreds(pl, row, outer, db) == True && EvalPreds(res, row, outer, db) == True)
  {
    hide EvalPreds, Placed;
    ExistenceKeepsTruths(kind, ps, lt, rt);
    PartTruths(kind, ps, lt, rt, row, outer, db);
    NoPreds(row, outer, db);
  }

  lemma ExistenceParts(kind: JoinKind, ps: seq<Pred>, lt: set<string>, rt: set<string>, outer: seq<Row>, db: Db)
    requires !EmitsRight(kind)
    ensures MadeOf(PredsFn(ps, outer, db), PredsFn(Placed(kind, ps, AtLeft, lt, rt), outer, db), PredsFn(Placed(kind, ps, AtResidual, lt, rt), outer, db))
  {
    hide EvalPreds, Placed;
    var pl, res := Placed(kind, ps, AtLeft, lt, rt), Placed(kind, ps, AtResidual, lt, rt);
    PredsFnAt(ps, outer, db);
    PredsFnAt(pl, outer, db);
    PredsFnAt(res, outer, db);
    forall row: Row { ExistencePartTruths(kind, ps, lt, rt, row, outer, db); }
  }

  /** The original and the pushed plan over their inputs. */
  lemma ExistencePlans(p: Plan, outer: seq<Row>, db: Db)
    requires FilterIntoJoin(p).Some? && FilterOverJoin(p) && !EmitsRight(p.kids[0].op.kind)
    requires Run(p.kids[0].kids[0], outer, db).Ok? && Run(p.kids[0].kids[1], outer, db).Ok?
    requires Executable(p.kids[0].op) && PreparedOp(p.kids[0].op, outer, db) && PreparedPreds(p.op.preds, outer, db)
    ensures var join, kind := p.kids[0], p.kids[0].op.kind;
            var left, right := Run(join.kids[0], outer, db).value, Run(join.kids[1], outer, db).value;
            var lt, rt := OutputTables(join.kids[0]), OutputTables(join.kids[1]);
            var j := JoinTruth(kind, PredsFn(join.op.on, outer, db), MemberFn(join.op.membership, outer, db), right);
            && Run(p, outer, db) == FilterTwice(left, j, PredsFn(p.op.preds, outer, db))
            && Run(FilterIntoJoin(p).value, outer, db) ==
               FilterThrice(left, PredsFn(Placed(kind, p.op.preds, AtLeft, lt, rt), outer, db), j,
                            PredsFn(Placed(kind, p.op.preds, AtResidual, lt, rt), outer, db))
  {
    PushedShape(p);
    var join, kind, ps := p.kids[0], p.kids[0].op.kind, p.op.preds;
    var l, r, on, m := join.kids[0], join.kids[1], join.op.on, join.op.membership;
    var lt, rt := OutputTables(l), OutputTables(r);
    var pl, res := Placed(kind, ps, AtLeft, lt, rt), Placed(kind, ps, AtResidual, lt, rt);
    ExistenceKeepsTruths(kind, ps, lt, rt);
    assert on + [] == on && Filtered(r.perm, [], r) == r && join.op == Join(kind, on, m);
    var f, g := PredsFn(on, outer, db), MemberFn(m, outer, db);
    var left, right := Run(l, outer, db).value, Run(r, outer, db).value;
    hide Run, PreparedPreds, PredsFn, MemberFn, JoinRel, FilterRel, JoinTruth, Executable, PreparedOp, Placed, OutputTables, FilterIntoJoin, DistinctIds, RowFits, Filtered;
    RunFits(l, outer, db);
    PlacedPrepared(kind, ps, lt, rt, outer, db);
    RunFilter(p.perm, ps, join, outer, db);
    RunAnyJoin(join.perm, Join(kind, on, m), l, r, outer, db);
    ExistenceIsFilter(kind, f, g, left, right);
    RunFiltered(l.perm, pl, l, outer, db);
    RunAnyJoin(p.perm, Join(kind, on, m), Filtered(l.perm, pl, l), r, outer, db);
    RunFiltered(p.perm, res, Node(p.perm, Join(kind, on, m), [Filtered(l.perm, pl, l), r]), outer, db);
    KeepsHeader(left, PredsFn(pl, outer, db));
    if FilterRel(left, PredsFn(pl, outer, db)).Ok? {
      ExistenceIsFilter(kind, f, g, FilterRel(left, PredsFn(pl, outer, db)).value, right);
    }
  }

  lemma KeepsHeader(rel: Rel, f: Row -> Truth)
    ensures FilterRel(rel, f).Ok? ==> FilterRel(rel, f).value.header == rel.header
  {
    hide FlatMap;
  }

  /** The cases in which neither form gets to the rows. */
  lemma ExistenceFailsEarly(p: Plan, outer: seq<Row>, db: Db)
    requires FilterIntoJoin(p).Some? && FilterOverJoin(p) && !EmitsRight(p.kids[0].op.kind)
    requires Run(p.kids[0].kids[0], outer, db).Fails? || Run(p.kids[0].kids[1], outer, db).Fails? || !Executable(p.kids[0].op) ||
             !PreparedOp(p.kids[0].op, outer, db) || !PreparedPreds(p.op.preds, outer, db)
    ensures Run(p, outer, db).Fails? && Run(FilterIntoJoin(p).value, outer, db).Fails?
  {
    PushedShape(p);
    var join, kind, ps := p.kids[0], p.kids[0].op.kind, p.op.preds;
    var l, r, on, m := join.kids[0], join.kids[1], join.op.on, join.op.membership;
    var lt, rt := OutputTables(l), OutputTables(r);
    var pl, res := Placed(kind, ps, AtLeft, lt, rt), Placed(kind, ps, AtResidual, lt, rt);
    ExistenceKeepsTruths(kind, ps, lt, rt);
    assert on + [] == on && Filtered(r.perm, [], r) == r && join.op == Join(kind, on, m);
    NothingToPrepare(outer, db);
    hide Run, PreparedPreds, PredsFn, MemberFn, JoinRel, FilterRel, JoinTruth, Executable, PreparedOp, Placed, OutputTables, FilterIntoJoin, DistinctIds, Filtered;
    PlacedPrepared(kind, ps, lt, rt, outer, db);
    RunFilter(p.perm, ps, join, outer, db);
    RunAnyJoin(join.perm, Join(kind, on, m), l, r, outer, db);
    RunFiltered(l.perm, pl, l, outer, db);
    RunAnyJoin(p.perm, Join(kind, on, m), Filtered(l.perm, pl, l), r, outer, db);
    RunFiltered(p.perm, res, Node(p.perm, Join(kind, on, m), [Filtered(l.perm, pl, l), r]), outer, db);
  }

  /** Pushing left-only conjuncts below a SEMI, ANTI or NULL-aware ANTI join, whatever the conjuncts are: the outcome is
    kept exactly when no failure is exposed or masked, and two results are always the same rows in the same order. */
  lemma FilterIntoExistenceExactly(p: Plan, outer: seq<Row>, db: Db)
    requires FilterIntoJoin(p).Some? && FilterOverJoin(p) && !EmitsRight(p.kids[0].op.kind)
    ensures Run(FilterIntoJoin(p).value, outer, db) == Run(p, outer, db) <==> PushIsHarmless(p, outer, db)
    ensures Run(FilterIntoJoin(p).value, outer, db).Ok? && Run(p, outer, db).Ok? ==> Run(FilterIntoJoin(p).value, outer, db) == Run(p, outer, db)
  {
    var join, kind := p.kids[0], p.kids[0].op.kind;
    var left, right := Run(join.kids[0], outer, db), Run(join.kids[1], outer, db);
    var lt, rt := OutputTables(join.kids[0]), OutputTables(join.kids[1]);
    hide Run, PreparedPreds, PredsFn, MemberFn, JoinTruth, Executable, PreparedOp, Placed, OutputTables, FilterIntoJoin, FilterTwice, FilterThrice, AboveFails, BelowFails,
         MadeOf;
    if left.Ok? && right.Ok? && Executable(join.op) && PreparedOp(join.op, outer, db) && PreparedPreds(p.op.preds, outer, db) {
      ExistencePlans(p, outer, db);
      ExistenceParts(kind, p.op.preds, lt, rt, outer, db);
      ThreeFilters(left.value, JoinTruth(kind, PredsFn(join.op.on, outer, db), MemberFn(join.op.membership, outer, db), right.value),
                   PredsFn(Placed(kind, p.op.preds, AtLeft, lt, rt), outer, db), PredsFn(Placed(kind, p.op.preds, AtResidual, lt, rt), outer, db),
                   PredsFn(p.op.preds, outer, db));
    } else {
      ExistenceFailsEarly(p, outer, db);
    }
  }
}
