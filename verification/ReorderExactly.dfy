/** Re-association and commutation of INNER joins, whatever their predicates are. Re-association evaluates conjuncts on
  other pairs than before, so it keeps the outcome exactly when a failure shows in both shapes or in neither;
  commutation always keeps whether the plan fails, and the bag of rows.
 */
module ReorderExactly {
  import opened Plans
  import opened Sequences
  import opened Values
  import opened Algebra
  import opened Semantics
  import opened Shapes
  import opened Correlation
  import opened FilterRuleSoundness
  import opened RewriteFixpoint
  import opened JoinAlgebra
  import opened JoinRules
  import opened JoinPushdown
  import opened JoinReorder
  import opened PlanRuns
  import opened JoinShapes
  import opened PushdownExactly
  import opened InnerPushdown
  import opened Widening

  // ---------------------------------------------------------------- two joins

  function LeftDeepRel(ra: Rel, rb: Rel, rc: Rel, m: Row -> Truth, p: Row -> Truth, all: Row -> Truth): Outcome<Rel> {
    match JoinRel(Inner, p, m, ra, rb)
    case Fails => Fails
    case Ok(ab) => JoinRel(Inner, all, m, ab, rc)
  }

  function RightDeepRel(ra: Rel, rb: Rel, rc: Rel, m: Row -> Truth, q: Row -> Truth, all: Row -> Truth): Outcome<Rel> {
    match JoinRel(Inner, q, m, rb, rc)
    case Fails => Fails
    case Ok(bc) => JoinRel(Inner, all, m, ra, bc)
  }

  predicate FailsWithRight(all: Row -> Truth, ab: Row, cs: seq<Row>) {
    exists k | 0 <= k < |cs| :: all(Joined(ab, cs[k])) == Error
  }

  predicate FailsWithLeft(all: Row -> Truth, as_: seq<Row>, bc: Row) {
    exists i | 0 <= i < |as_| :: all(Joined(as_[i], bc)) == Error
  }

  /** What becomes of a pair when it meets the third input. */
  function WithRight(all: Row -> Truth, cs: seq<Row>): Row -> Truth {
    ab => if FailsWithRight(all, ab, cs) then Error else True
  }

  function WithLeft(all: Row -> Truth, as_: seq<Row>): Row -> Truth {
    bc => if FailsWithLeft(all, as_, bc) then Error else True
  }

  /** The left-deep shape fails: on a pair of A and B, or on a matching pair with a row of C. */
  ghost predicate LeftDeepFails(as_: seq<Row>, bs: seq<Row>, cs: seq<Row>, p: Row -> Truth, all: Row -> Truth) {
    SomePair(as_, bs, BadAbove(p, WithRight(all, cs)))
  }

  /** The right-deep shape fails: on a pair of B and C, or on a matching pair with a row of A. */
  ghost predicate RightDeepFails(as_: seq<Row>, bs: seq<Row>, cs: seq<Row>, q: Row -> Truth, all: Row -> Truth) {
    SomePair(bs, cs, BadAbove(q, WithLeft(all, as_)))
  }

  lemma SecondFailsRight(xs: seq<Row>, cs: seq<Row>, all: Row -> Truth)
    ensures SomePair(xs, cs, IsError(all)) <==> exists x :: 0 <= x < |xs| && IsError(WithRight(all, cs))(xs[x])
  {
    hide Joined, FailsWithRight;
    forall x | 0 <= x < |xs| ensures IsError(WithRight(all, cs))(xs[x]) <==> FailsWithRight(all, xs[x], cs) {
    }
    hide IsError, WithRight;
    if SomePair(xs, cs, IsError(all)) {
      var x, k :| 0 <= x < |xs| && 0 <= k < |cs| && IsError(all)(Joined(xs[x], cs[k]));
      FoundRight(all, xs[x], cs, k);
      assert IsError(WithRight(all, cs))(xs[x]);
    }
    if exists x :: 0 <= x < |xs| && IsError(WithRight(all, cs))(xs[x]) {
      var x :| 0 <= x < |xs| && IsError(WithRight(all, cs))(xs[x]);
      var k := TakeRight(all, xs[x], cs);
      assert IsError(all)(Joined(xs[x], cs[k]));
    }
  }

  lemma FoundRight(all: Row -> Truth, ab: Row, cs: seq<Row>, k: int)
    requires 0 <= k < |cs| && IsError(all)(Joined(ab, cs[k]))
    ensures FailsWithRight(all, ab, cs)
  {
    hide Joined;
  }

  lemma TakeRight(all: Row -> Truth, ab: Row, cs: seq<Row>) returns (k: int)
    requires FailsWithRight(all, ab, cs)
    ensures 0 <= k < |cs| && IsError(all)(Joined(ab, cs[k]))
  {
    hide Joined;
    k :| 0 <= k < |cs| && all(Joined(ab, cs[k])) == Error;
  }

  lemma SecondFailsLeft(as_: seq<Row>, xs: seq<Row>, all: Row -> Truth)
    ensures SomePair(as_, xs, IsError(all)) <==> exists x :: 0 <= x < |xs| && IsError(WithLeft(all, as_))(xs[x])
  {
    hide Joined, FailsWithLeft;
    forall x | 0 <= x < |xs| ensures IsError(WithLeft(all, as_))(xs[x]) <==> FailsWithLeft(all, as_, xs[x]) {
    }
    hide IsError, WithLeft;
    if SomePair(as_, xs, IsError(all)) {
      var i, x :| 0 <= i < |as_| && 0 <= x < |xs| && IsError(all)(Joined(as_[i], xs[x]));
      FoundLeft(all, as_, xs[x], i);
      assert IsError(WithLeft(all, as_))(xs[x]);
    }
    if exists x :: 0 <= x < |xs| && IsError(WithLeft(all, as_))(xs[x]) {
      var x :| 0 <= x < |xs| && IsError(WithLeft(all, as_))(xs[x]);
      var i := TakeLeft(all, as_, xs[x]);
      assert IsError(all)(Joined(as_[i], xs[x]));
    }
  }

  lemma FoundLeft(all: Row -> Truth, as_: seq<Row>, bc: Row, i: int)
    requires 0 <= i < |as_| && IsError(all)(Joined(as_[i], bc))
    ensures FailsWithLeft(all, as_, bc)
  {
    hide Joined;
  }

  lemma TakeLeft(all: Row -> Truth, as_: seq<Row>, bc: Row) returns (i: int)
    requires FailsWithLeft(all, as_, bc)
    ensures 0 <= i < |as_| && IsError(all)(Joined(as_[i], bc))
  {
    hide Joined;
    i :| 0 <= i < |as_| && all(Joined(as_[i], bc)) == Error;
  }

  /** Failure of the first join, or of the second over its matches. */
  lemma FirstOrSecond(ls: seq<Row>, rs: seq<Row>, p: Row -> Truth, w: Row -> Truth, rows: seq<Row>)
    requires rows == InnerRows(ls, rs, IsTrue(p))
    ensures SomePair(ls, rs, BadAbove(p, w)) <==> SomePair(ls, rs, IsError(p)) || exists x :: 0 <= x < |rows| && IsError(w)(rows[x])
  {
    hide InnerRows, Joined, SomePair;
    InnerRowsHave(ls, rs, IsTrue(p), IsError(w));
    BadPairs(p, w, ls, rs, rows);
    assert forall x | 0 <= x < |rows| :: IsError(w)(rows[x]) <==> w(rows[x]) == Error;
  }

  lemma LeftDeepOutcome(ra: Rel, rb: Rel, rc: Rel, m: Row -> Truth, p: Row -> Truth, all: Row -> Truth)
    requires DistinctIds(ra.header + rb.header + rc.header)
    ensures LeftDeepRel(ra, rb, rc, m, p, all) ==
            if LeftDeepFails(ra.rows, rb.rows, rc.rows, p, all) then Fails
            else Ok(Rel(ra.header + rb.header + rc.header, InnerRows(InnerRows(ra.rows, rb.rows, IsTrue(p)), rc.rows, IsTrue(all))))
  {
    hide JoinRel, InnerRows, DistinctIds, SomePair, WithRight, Names;
    ThreeHeaders(ra, rb, rc);
    InnerOutcome(p, m, ra, rb);
    var rows := InnerRows(ra.rows, rb.rows, IsTrue(p));
    InnerOutcome(all, m, Rel(ra.header + rb.header, rows), rc);
    SecondFailsRight(rows, rc.rows, all);
    FirstOrSecond(ra.rows, rb.rows, p, WithRight(all, rc.rows), rows);
  }

  lemma RightDeepOutcome(ra: Rel, rb: Rel, rc: Rel, m: Row -> Truth, q: Row -> Truth, all: Row -> Truth)
    requires DistinctIds(ra.header + rb.header + rc.header)
    ensures RightDeepRel(ra, rb, rc, m, q, all) ==
            if RightDeepFails(ra.rows, rb.rows, rc.rows, q, all) then Fails
            else Ok(Rel(ra.header + rb.header + rc.header, InnerRows(ra.rows, InnerRows(rb.rows, rc.rows, IsTrue(q)), IsTrue(all))))
  {
    hide JoinRel, InnerRows, DistinctIds, SomePair, WithLeft, Names;
    ThreeHeaders(ra, rb, rc);
    InnerOutcome(q, m, rb, rc);
    var rows := InnerRows(rb.rows, rc.rows, IsTrue(q));
    InnerOutcome(all, m, ra, Rel(rb.header + rc.header, rows));
    SecondFailsLeft(ra.rows, rows, all);
    FirstOrSecond(rb.rows, rc.rows, q, WithLeft(all, ra.rows), rows);
  }

  /** A predicate that a pair decides is decided the same way by every triple of it. */
  ghost predicate PairsDecide(as_: seq<Row>, bs: seq<Row>, cs: seq<Row>, p: Row -> Truth, q: Row -> Truth) {
    forall i, j, k | 0 <= i < |as_| && 0 <= j < |bs| && 0 <= k < |cs| ::
      var ab, bc := Joined(as_[i], bs[j]), Joined(bs[j], cs[k]);
      && (p(ab) != Error ==> p(Joined(as_[i], bc)) == p(ab))
      && (q(bc) != Error ==> q(Joined(as_[i], bc)) == q(bc))
  }

  lemma DecidedTriples(as_: seq<Row>, bs: seq<Row>, cs: seq<Row>, p: Row -> Truth, all: Row -> Truth, q: Row -> Truth, rest: Row -> Truth, last: Row -> Truth)
    requires PairsDecide(as_, bs, cs, p, q) && MadeOf(all, q, rest) && MadeOf(last, p, rest)
    requires !LeftDeepFails(as_, bs, cs, p, all) && !RightDeepFails(as_, bs, cs, q, last)
    ensures SameTriples(as_, bs, cs, IsTrue(p), IsTrue(all), IsTrue(q), IsTrue(last))
  {
    hide Joined, WithRight, WithLeft;
    forall i, j, k | 0 <= i < |as_| && 0 <= j < |bs| && 0 <= k < |cs|
      ensures var abc := Joined(as_[i], Joined(bs[j], cs[k]));
              (IsTrue(q)(Joined(bs[j], cs[k])) && IsTrue(last)(abc)) == (IsTrue(p)(Joined(as_[i], bs[j])) && IsTrue(all)(abc))
    {
      assert !BadAbove(p, WithRight(all, cs))(Joined(as_[i], bs[j])) && !BadAbove(q, WithLeft(last, as_))(Joined(bs[j], cs[k]));
    }
  }

  /** The two shapes agree unless exactly one of them fails. */
  lemma Reassociated(ra: Rel, rb: Rel, rc: Rel, m: Row -> Truth, p: Row -> Truth, all: Row -> Truth, q: Row -> Truth, rest: Row -> Truth, last: Row -> Truth)
    requires DistinctIds(ra.header + rb.header + rc.header)
    requires PairsDecide(ra.rows, rb.rows, rc.rows, p, q) && MadeOf(all, q, rest) && MadeOf(last, p, rest)
    ensures var left, right := LeftDeepRel(ra, rb, rc, m, p, all), RightDeepRel(ra, rb, rc, m, q, last);
            && (left == right <==> (LeftDeepFails(ra.rows, rb.rows, rc.rows, p, all) <==> RightDeepFails(ra.rows, rb.rows, rc.rows, q, last)))
            && (left.Ok? && right.Ok? ==> left == right)
  {
    hide LeftDeepRel, RightDeepRel, LeftDeepFails, RightDeepFails, InnerRows, DistinctIds, PairsDecide, MadeOf, SameTriples;
    LeftDeepOutcome(ra, rb, rc, m, p, all);
    RightDeepOutcome(ra, rb, rc, m, q, last);
    if !LeftDeepFails(ra.rows, rb.rows, rc.rows, p, all) && !RightDeepFails(ra.rows, rb.rows, rc.rows, q, last) {
      DecidedTriples(ra.rows, rb.rows, rc.rows, p, all, q, rest, last);
      JoinAlgebra.Associate(ra.rows, rb.rows, rc.rows, IsTrue(p), IsTrue(all), IsTrue(q), IsTrue(last));
    }
  }

  // ---------------------------------------------------------------- whole plans

  /** Both shapes need their inputs to run and their predicates to be prepared. */
  ghost predicate DeepReady(a: Plan, b: Plan, c: Plan, low: seq<Pred>, high: seq<Pred>, outer: seq<Row>, db: Db) {
    && Run(a, outer, db).Ok? && Run(b, outer, db).Ok? && Run(c, outer, db).Ok?
    && PreparedPreds(low, outer, db) && PreparedPreds(high, outer, db)
  }

  lemma RunLeftDeep(p1: OrderPermission, p2: OrderPermission, a: Plan, b: Plan, c: Plan, low: seq<Pred>, high: seq<Pred>, outer: seq<Row>, db: Db)
    ensures Run(LeftDeep(p1, p2, a, b, c, low, high), outer, db) ==
            if !DeepReady(a, b, c, low, high, outer, db) then Fails
            else LeftDeepRel(Run(a, outer, db).value, Run(b, outer, db).value, Run(c, outer, db).value, MemberFn(None, outer, db),
                             PredsFn(low, outer, db), PredsFn(high, outer, db))
  {
    hide Run, JoinRel, PredsFn, MemberFn, Executable, PreparedOp, PreparedPreds;
    InnerFields(low, outer, db);
    InnerFields(high, outer, db);
    RunJoin(p2, Join(Inner, low, None), a, b, outer, db);
    RunJoin(p1, Join(Inner, high, None), Node(p2, Join(Inner, low, None), [a, b]), c, outer, db);
  }

  lemma RunRightDeep(p1: OrderPermission, p2: OrderPermission, a: Plan, b: Plan, c: Plan, low: seq<Pred>, high: seq<Pred>, outer: seq<Row>, db: Db)
    ensures Run(RightDeep(p1, p2, a, b, c, low, high), outer, db) ==
            if !DeepReady(a, b, c, low, high, outer, db) then Fails
            else RightDeepRel(Run(a, outer, db).value, Run(b, outer, db).value, Run(c, outer, db).value, MemberFn(None, outer, db),
                              PredsFn(low, outer, db), PredsFn(high, outer, db))
  {
    hide Run, JoinRel, PredsFn, MemberFn, Executable, PreparedOp, PreparedPreds;
    InnerFields(low, outer, db);
    InnerFields(high, outer, db);
    RunJoin(p2, Join(Inner, low, None), b, c, outer, db);
    RunJoin(p1, Join(Inner, high, None), a, Node(p2, Join(Inner, low, None), [b, c]), outer, db);
  }

  lemma InnerHeader(p: Row -> Truth, m: Row -> Truth, left: Rel, right: Rel)
    ensures JoinRel(Inner, p, m, left, right).Ok? ==>
              JoinRel(Inner, p, m, left, right).value.header == left.header + right.header && DistinctIds(left.header + right.header)
  {
    hide FlatMap, DistinctIds;
  }

  /** A column exposed twice makes both shapes fail. */
  lemma DuplicatesFailDeep(ra: Rel, rb: Rel, rc: Rel, m: Row -> Truth, p: Row -> Truth, all: Row -> Truth, q: Row -> Truth, last: Row -> Truth)
    requires !DistinctIds(ra.header + rb.header + rc.header)
    ensures LeftDeepRel(ra, rb, rc, m, p, all).Fails? && RightDeepRel(ra, rb, rc, m, q, last).Fails?
  {
    hide JoinRel, DistinctIds;
    assert ra.header + (rb.header + rc.header) == ra.header + rb.header + rc.header;
    InnerHeader(p, m, ra, rb);
    InnerHeader(q, m, rb, rc);
    if JoinRel(Inner, p, m, ra, rb).Ok? {
      InnerHeader(all, m, JoinRel(Inner, p, m, ra, rb).value, rc);
    }
    if JoinRel(Inner, q, m, rb, rc).Ok? {
      InnerHeader(last, m, ra, JoinRel(Inner, q, m, rb, rc).value);
    }
  }

  lemma TripleExtends(x: Row, y: Row, z: Row)
    requires x.Keys !! y.Keys && x.Keys !! z.Keys && y.Keys !! z.Keys
    ensures Extends(Joined(x, y), Joined(x, Joined(y, z))) && Extends(Joined(y, z), Joined(x, Joined(y, z)))
  {
  }

  lemma RowsApart(ra: Rel, rb: Rel, rc: Rel, i: int, j: int, k: int)
    requires WellFormedRel(ra) && WellFormedRel(rb) && WellFormedRel(rc) && DistinctIds(ra.header + rb.header + rc.header)
    requires 0 <= i < |ra.rows| && 0 <= j < |rb.rows| && 0 <= k < |rc.rows|
    ensures ra.rows[i].Keys !! rb.rows[j].Keys && ra.rows[i].Keys !! rc.rows[k].Keys && rb.rows[j].Keys !! rc.rows[k].Keys
  {
    hide DistinctIds, Names;
    ThreeHeaders(ra, rb, rc);
    DisjointNames(ra.header + rb.header, rc.header);
    DisjointNames(ra.header, rb.header);
    FitsNames(ra);
    FitsNames(rb);
    FitsNames(rc);
  }

  /** Rows of distinct columns: what a pair decides, a triple decides alike. */
  lemma TriplesStay(ps: seq<Pred>, qs: seq<Pred>, ra: Rel, rb: Rel, rc: Rel, outer: seq<Row>, db: Db)
    requires WellFormedRel(ra) && WellFormedRel(rb) && WellFormedRel(rc) && DistinctIds(ra.header + rb.header + rc.header)
    ensures PairsDecide(ra.rows, rb.rows, rc.rows, PredsFn(ps, outer, db), PredsFn(qs, outer, db))
  {
    hide EvalPreds, DistinctIds, WellFormedRel, Extends, Widens, Joined;
    PredsFnAt(ps, outer, db);
    PredsFnAt(qs, outer, db);
    WidensItself(outer);
    forall i, j, k | 0 <= i < |ra.rows| && 0 <= j < |rb.rows| && 0 <= k < |rc.rows|
      ensures var ab, bc := Joined(ra.rows[i], rb.rows[j]), Joined(rb.rows[j], rc.rows[k]);
              && (EvalPreds(ps, ab, outer, db) != Error ==> EvalPreds(ps, Joined(ra.rows[i], bc), outer, db) == EvalPreds(ps, ab, outer, db))
              && (EvalPreds(qs, bc, outer, db) != Error ==> EvalPreds(qs, Joined(ra.rows[i], bc), outer, db) == EvalPreds(qs, bc, outer, db))
    {
      RowsApart(ra, rb, rc, i, j, k);
      TripleExtends(ra.rows[i], rb.rows[j], rc.rows[k]);
      var ab, bc := Joined(ra.rows[i], rb.rows[j]), Joined(rb.rows[j], rc.rows[k]);
      PredsStay(ps, ab, Joined(ra.rows[i], bc), outer, outer, db);
      PredsStay(qs, bc, Joined(ra.rows[i], bc), outer, outer, db);
    }
  }

  lemma WithinMadeOf(ps: seq<Pred>, tables: set<string>, outer: seq<Row>, db: Db)
    ensures MadeOf(PredsFn(ps, outer, db), PredsFn(Within(ps, tables, true), outer, db), PredsFn(Within(ps, tables, false), outer, db))
  {
    hide EvalPred, EvalPreds, RefTables, Within;
    var xs, ys := Within(ps, tables, true), Within(ps, tables, false);
    PredsFnAt(ps, outer, db);
    PredsFnAt(xs, outer, db);
    PredsFnAt(ys, outer, db);
    forall row: Row
      ensures EvalPreds(ps, row, outer, db) == Error <==> EvalPreds(xs, row, outer, db) == Error || EvalPreds(ys, row, outer, db) == Error
      ensures EvalPreds(ps, row, outer, db) == True <==> EvalPreds(xs, row, outer, db) == True && EvalPreds(ys, row, outer, db) == True
    {
      WithinTruths(ps, tables, row, outer, db);
    }
  }

  lemma WithinTruths(ps: seq<Pred>, tables: set<string>, row: Row, outer: seq<Row>, db: Db)
    ensures var xs, ys := Within(ps, tables, true), Within(ps, tables, false);
            && (EvalPreds(ps, row, outer, db) == Error <==> EvalPreds(xs, row, outer, db) == Error || EvalPreds(ys, row, outer, db) == Error)
            && (EvalPreds(ps, row, outer, db) == True <==> EvalPreds(xs, row, outer, db) == True && EvalPreds(ys, row, outer, db) == True)
  {
    hide EvalPred, EvalPreds, RefTables, Within;
    var xs, ys := Within(ps, tables, true), Within(ps, tables, false);
    AnyError(ps, row, outer, db);
    AnyError(xs, row, outer, db);
    AnyError(ys, row, outer, db);
    EveryTrue(ps, row, outer, db);
    EveryTrue(xs, row, outer, db);
    EveryTrue(ys, row, outer, db);
    assert forall q | q in ps :: q in xs || q in ys;
  }

  /** Moving the conjuncts within some tables between the two joins. */
  lemma ConjunctsMove(low: seq<Pred>, high: seq<Pred>, tables: set<string>, outer: seq<Row>, db: Db)
    ensures var inner, rest := Within(high, tables, true), Within(high, tables, false);
            && MadeOf(PredsFn(high, outer, db), PredsFn(inner, outer, db), PredsFn(rest, outer, db))
            && MadeOf(PredsFn(low + rest, outer, db), PredsFn(low, outer, db), PredsFn(rest, outer, db))
            && (PreparedPreds(low, outer, db) && PreparedPreds(high, outer, db) <==> PreparedPreds(inner, outer, db) && PreparedPreds(low + rest, outer, db))
  {
    hide MadeOf, PredsFn, PreparedPreds, Within;
    WithinMadeOf(high, tables, outer, db);
    AppendMadeOf(low, Within(high, tables, false), outer, db);
    WithinPrepared(high, tables, outer, db);
    PreparedAppend(low, Within(high, tables, false), outer, db);
  }

  // ---------------------------------------------------------------- re-association

  /** When re-association keeps the outcome: it exposes no failure that did not show before, and masks none. */
  ghost predicate AssociateRightIsHarmless(p: Plan, outer: seq<Row>, db: Db)
    requires InnerJoin(p) && InnerJoin(p.kids[0])
  {
    var a, b, c, low, high := p.kids[0].kids[0], p.kids[0].kids[1], p.kids[1], p.kids[0].op.on, p.op.on;
    var tables := OutputTables(b) + OutputTables(c);
    var inner, rest := Within(high, tables, true), Within(high, tables, false);
    var ra, rb, rc := Run(a, outer, db), Run(b, outer, db), Run(c, outer, db);
    DeepReady(a, b, c, low, high, outer, db) && DistinctIds(ra.value.header + rb.value.header + rc.value.header) ==>
      var before := LeftDeepFails(ra.value.rows, rb.value.rows, rc.value.rows, PredsFn(low, outer, db), PredsFn(high, outer, db));
      var after := RightDeepFails(ra.value.rows, rb.value.rows, rc.value.rows, PredsFn(inner, outer, db), PredsFn(low + rest, outer, db));
      (after ==> before) && (before ==> after)
  }

  ghost predicate AssociateLeftIsHarmless(p: Plan, outer: seq<Row>, db: Db)
    requires InnerJoin(p) && InnerJoin(p.kids[1])
  {
    var a, b, c, low, high := p.kids[0], p.kids[1].kids[0], p.kids[1].kids[1], p.kids[1].op.on, p.op.on;
    var tables := OutputTables(a) + OutputTables(b);
    var inner, rest := Within(high, tables, true), Within(high, tables, false);
    var ra, rb, rc := Run(a, outer, db), Run(b, outer, db), Run(c, outer, db);
    DeepReady(a, b, c, low, high, outer, db) && DistinctIds(ra.value.header + rb.value.header + rc.value.header) ==>
      var before := RightDeepFails(ra.value.rows, rb.value.rows, rc.value.rows, PredsFn(low, outer, db), PredsFn(high, outer, db));
      var after := LeftDeepFails(ra.value.rows, rb.value.rows, rc.value.rows, PredsFn(inner, outer, db), PredsFn(low + rest, outer, db));
      (after ==> before) && (before ==> after)
  }

  /** (A join B) join C and A join (B join C) have the same outcome exactly when a failure shows in both shapes or in
    neither, and two results are always the same rows in the same order. Nothing is asked of the predicates. */
  lemma AssociateRightExactly(p: Plan, outer: seq<Row>, db: Db)
    requires AssociateRight(p).Some?
    ensures InnerJoin(p) && InnerJoin(p.kids[0])
    ensures Run(AssociateRight(p).value, outer, db) == Run(p, outer, db) <==> AssociateRightIsHarmless(p, outer, db)
    ensures Run(AssociateRight(p).value, outer, db).Ok? && Run(p, outer, db).Ok? ==> Run(AssociateRight(p).value, outer, db) == Run(p, outer, db)
  {
    AssociateRightShape(p);
    var a, b, c, low, high := p.kids[0].kids[0], p.kids[0].kids[1], p.kids[1], p.kids[0].op.on, p.op.on;
    var tables := OutputTables(b) + OutputTables(c);
    var inner, rest, m := Within(high, tables, true), Within(high, tables, false), MemberFn(None, outer, db);
    hide Run, AssociateRight, OutputTables, PreparedPreds, LeftDeep, RightDeep, Within, DistinctIds, PredsFn, MemberFn, LeftDeepRel, RightDeepRel, LeftDeepFails,
         RightDeepFails, RowFits, ColumnsOf;
    RunLeftDeep(p.perm, p.kids[0].perm, a, b, c, low, high, outer, db);
    RunRightDeep(p.perm, p.perm, a, b, c, inner, low + rest, outer, db);
    ConjunctsMove(low, high, tables, outer, db);
    if DeepReady(a, b, c, low, high, outer, db) {
      var ra, rb, rc := Run(a, outer, db).value, Run(b, outer, db).value, Run(c, outer, db).value;
      if DistinctIds(ra.header + rb.header + rc.header) {
        RunFits(a, outer, db);
        RunFits(b, outer, db);
        RunFits(c, outer, db);
        TriplesStay(low, inner, ra, rb, rc, outer, db);
        Reassociated(ra, rb, rc, m, PredsFn(low, outer, db), PredsFn(high, outer, db), PredsFn(inner, outer, db), PredsFn(rest, outer, db), PredsFn(low + rest, outer, db));
      } else {
        DuplicatesFailDeep(ra, rb, rc, m, PredsFn(low, outer, db), PredsFn(high, outer, db), PredsFn(inner, outer, db), PredsFn(low + rest, outer, db));
      }
    }
  }

  /** The converse re-association. */
  lemma AssociateLeftExactly(p: Plan, outer: seq<Row>, db: Db)
    requires AssociateLeft(p).Some?
    ensures InnerJoin(p) && InnerJoin(p.kids[1])
    ensures Run(AssociateLeft(p).value, outer, db) == Run(p, outer, db) <==> AssociateLeftIsHarmless(p, outer, db)
    ensures Run(AssociateLeft(p).value, outer, db).Ok? && Run(p, outer, db).Ok? ==> Run(AssociateLeft(p).value, outer, db) == Run(p, outer, db)
  {
    AssociateLeftShape(p);
    var a, b, c, low, high := p.kids[0], p.kids[1].kids[0], p.kids[1].kids[1], p.kids[1].op.on, p.op.on;
    var tables := OutputTables(a) + OutputTables(b);
    var inner, rest, m := Within(high, tables, true), Within(high, tables, false), MemberFn(None, outer, db);
    hide Run, AssociateLeft, OutputTables, PreparedPreds, LeftDeep, RightDeep, Within, DistinctIds, PredsFn, MemberFn, LeftDeepRel, RightDeepRel, LeftDeepFails,
         RightDeepFails, RowFits, ColumnsOf;
    RunRightDeep(p.perm, p.kids[1].perm, a, b, c, low, high, outer, db);
    RunLeftDeep(p.perm, p.perm, a, b, c, inner, low + rest, outer, db);
    ConjunctsMove(low, high, tables, outer, db);
    if DeepReady(a, b, c, low, high, outer, db) {
      var ra, rb, rc := Run(a, outer, db).value, Run(b, outer, db).value, Run(c, outer, db).value;
      if DistinctIds(ra.header + rb.header + rc.header) {
        RunFits(a, outer, db);
        RunFits(b, outer, db);
        RunFits(c, outer, db);
        TriplesStay(inner, low, ra, rb, rc, outer, db);
        Reassociated(ra, rb, rc, m, PredsFn(inner, outer, db), PredsFn(low + rest, outer, db), PredsFn(low, outer, db), PredsFn(rest, outer, db), PredsFn(high, outer, db));
      } else {
        DuplicatesFailDeep(ra, rb, rc, m, PredsFn(inner, outer, db), PredsFn(low + rest, outer, db), PredsFn(low, outer, db), PredsFn(high, outer, db));
      }
    }
  }

  // ---------------------------------------------------------------- commutation

  /** The same bag of rows over the same set of columns. */
  predicate SameBag(x: Rel, y: Rel) {
    multiset(x.rows) == multiset(y.rows) && Names(x.header) == Names(y.header)
  }

  lemma PairsSwap(ls: seq<Row>, rs: seq<Row>, q: Row -> bool)
    requires DisjointRows(ls, rs)
    ensures SomePair(ls, rs, q) <==> SomePair(rs, ls, q)
  {
    hide Joined;
    if SomePair(ls, rs, q) {
      var i, j :| 0 <= i < |ls| && 0 <= j < |rs| && q(Joined(ls[i], rs[j]));
      assert q(Joined(rs[j], ls[i]));
    }
    if SomePair(rs, ls, q) {
      var j, i :| 0 <= j < |rs| && 0 <= i < |ls| && q(Joined(rs[j], ls[i]));
      assert q(Joined(ls[i], rs[j]));
    }
  }

  /** Both loop orders fail together, and give the same bag. */
  lemma CommutedForms(left: Rel, right: Rel, f: Row -> Truth, m: Row -> Truth)
    requires WellFormedRel(left) && WellFormedRel(right) && DistinctIds(left.header + right.header)
    ensures var x, y := JoinRel(Inner, f, m, left, right), JoinRel(Inner, f, m, right, left);
            && (x.Ok? <==> y.Ok?) && (x.Ok? ==> SameBag(x.value, y.value))
  {
    hide JoinRel, InnerRows, DistinctIds, Names, SomePair, Joined;
    FitsNames(left);
    FitsNames(right);
    DistinctSwap(left.header, right.header);
    DisjointNames(left.header, right.header);
    NamesAppend(left.header, right.header);
    NamesAppend(right.header, left.header);
    JoinedCommutes(left, right);
    InnerOutcome(f, m, left, right);
    InnerOutcome(f, m, right, left);
    PairsSwap(left.rows, right.rows, IsError(f));
    JoinAlgebra.Commute(left.rows, right.rows, IsTrue(f));
    assert Names(left.header) + Names(right.header) == Names(right.header) + Names(left.header);
  }

  /** Commuting an INNER join keeps whether the plan fails, and the bag of its rows where it does not, whatever its
    predicates are. */
  lemma JoinCommuteExactly(p: Plan, outer: seq<Row>, db: Db)
    requires JoinCommute(p).Some?
    ensures var x, y := Run(p, outer, db), Run(JoinCommute(p).value, outer, db);
            && (x.Ok? <==> y.Ok?) && (x.Ok? ==> SameBag(x.value, y.value))
  {
    var l, r, on := p.kids[0], p.kids[1], p.op.on;
    assert p == Node(p.perm, Join(Inner, on, None), [l, r]) && JoinCommute(p).value == Node(p.perm, Join(Inner, on, None), [r, l]);
    var f, m := PredsFn(on, outer, db), MemberFn(None, outer, db);
    hide Run, PreparedPreds, PredsFn, MemberFn, JoinRel, DistinctIds, RowFits, ColumnsOf, JoinCommute, Executable, PreparedOp, SameBag;
    InnerFields(on, outer, db);
    RunJoin(p.perm, Join(Inner, on, None), l, r, outer, db);
    RunJoin(p.perm, Join(Inner, on, None), r, l, outer, db);
    if PreparedPreds(on, outer, db) && Run(l, outer, db).Ok? && Run(r, outer, db).Ok? {
      var left, right := Run(l, outer, db).value, Run(r, outer, db).value;
      if DistinctIds(left.header + right.header) {
        RunFits(l, outer, db);
        RunFits(r, outer, db);
        CommutedForms(left, right, f, m);
      } else {
        if DistinctIds(right.header + left.header) {
          DistinctSwap(right.header, left.header);
        }
        DuplicateInner(f, m, left, right);
        DuplicateInner(f, m, right, left);
      }
    }
  }
}
