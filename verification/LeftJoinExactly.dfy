/** LEFT joins under a filter, for filters of any kind: as an INNER join the filter no longer sees NULL-extended rows, so
  the outcome is kept exactly when it drops them all or fails anyway.
 */
module LeftJoinExactly {
  import opened Plans
  import opened Sequences
  import opened Values
  import opened Algebra
  import opened Semantics
  import opened Shapes
  import opened Correlation
  import opened FilterRuleSoundness
  import opened RewriteFixpoint
  import opened JoinAlgebra
  import opened JoinRules
  import opened JoinPushdown
  import opened JoinReorder
  import opened PlanRuns
  import opened JoinShapes
  import opened PushdownExactly
  import opened InnerPushdown

  // ---------------------------------------------------------------- rows of a LEFT join

  /** A left row without a match, extended with NULLs, has a property. */
  ghost predicate SomeExtended(ls: seq<Row>, rs: seq<Row>, nulls: Row, b: Row -> bool, q: Row -> bool) {
    exists i :: 0 <= i < |ls| && (forall j | 0 <= j < |rs| :: !b(Joined(ls[i], rs[j]))) && q(Joined(ls[i], nulls))
  }

  lemma {:induction false} NoMatches(l: Row, rs: seq<Row>, b: Row -> bool)
    ensures Pairs(l, rs, b) == [] <==> forall j | 0 <= j < |rs| :: !b(Joined(l, rs[j]))
  {
    hide Joined;
    if rs != [] {
      var init := rs[..|rs| - 1];
      NoMatches(l, init, b);
      assert forall j | 0 <= j < |init| :: init[j] == rs[j];
      if forall j | 0 <= j < |rs| :: !b(Joined(l, rs[j])) {
        forall j | 0 <= j < |init| ensures !b(Joined(l, init[j])) {
          assert !b(Joined(l, rs[j]));
        }
      }
    }
  }

  lemma {:induction false} LeftRowsHave(ls: seq<Row>, rs: seq<Row>, nulls: Row, b: Row -> bool, q: Row -> bool)
    ensures (exists k :: 0 <= k < |LeftRows(ls, rs, nulls, b)| && q(LeftRows(ls, rs, nulls, b)[k])) <==>
            (exists i, j :: 0 <= i < |ls| && 0 <= j < |rs| && b(Joined(ls[i], rs[j])) && q(Joined(ls[i], rs[j]))) ||
            SomeExtended(ls, rs, nulls, b, q)
  {
    hide Joined, Pairs, SomeExtended;
    if ls == [] {
      NoLeftRows(rs, nulls, b, q);
    } else {
      var init, l := ls[..|ls| - 1], ls[|ls| - 1];
      var last := if Pairs(l, rs, b) == [] then [Joined(l, nulls)] else Pairs(l, rs, b);
      LeftRowsHave(init, rs, nulls, b, q);
      AppendHas(LeftRows(init, rs, nulls, b), last, q);
      LastLeft(ls, init, rs, b, q);
      LastExtended(ls, init, rs, nulls, b, q);
      PairsHave(l, rs, b, q);
      NoMatches(l, rs, b);
      assert LeftRows(ls, rs, nulls, b) == LeftRows(init, rs, nulls, b) + last;
      assert Pairs(l, rs, b) == [] ==> last == [Joined(l, nulls)];
      assert Pairs(l, rs, b) == [] ==> ((exists k :: 0 <= k < |last| && q(last[k])) <==> q(Joined(l, nulls))) by {
        OnlyOne(Joined(l, nulls), q);
      }
    }
  }

  lemma NoLeftRows(rs: seq<Row>, nulls: Row, b: Row -> bool, q: Row -> bool)
    ensures LeftRows([], rs, nulls, b) == [] && !SomeExtended([], rs, nulls, b, q)
  {
  }

  lemma LastExtended(ls: seq<Row>, init: seq<Row>, rs: seq<Row>, nulls: Row, b: Row -> bool, q: Row -> bool)
    requires ls != [] && init == ls[..|ls| - 1]
    ensures SomeExtended(ls, rs, nulls, b, q) <==>
            || SomeExtended(init, rs, nulls, b, q)
            || ((forall j | 0 <= j < |rs| :: !b(Joined(ls[|ls| - 1], rs[j]))) && q(Joined(ls[|ls| - 1], nulls)))
  {
    hide Joined;
    if SomeExtended(ls, rs, nulls, b, q) {
      var i :| 0 <= i < |ls| && (forall j | 0 <= j < |rs| :: !b(Joined(ls[i], rs[j]))) && q(Joined(ls[i], nulls));
      assert i < |init| ==> init[i] == ls[i];
    }
    if SomeExtended(init, rs, nulls, b, q) {
      var i :| 0 <= i < |init| && (forall j | 0 <= j < |rs| :: !b(Joined(init[i], rs[j]))) && q(Joined(init[i], nulls));
      assert init[i] == ls[i];
    }
  }

  /** A LEFT join either fails at some pair or returns the matches and the extended rows. */
  lemma LeftOutcome(f: Row -> Truth, m: Row -> Truth, left: Rel, right: Rel)
    requires DistinctIds(left.header + right.header)
    ensures JoinRel(JoinKind.Left, f, m, left, right) ==
            if SomePair(left.rows, right.rows, IsError(f)) then Fails
            else Ok(Rel(left.header + right.header, LeftRows(left.rows, right.rows, NullRow(right.header), IsTrue(f))))
  {
    hide FlatMap, LeftRows, DistinctIds, Joined, NullRow;
    if SomePair(left.rows, right.rows, IsError(f)) {
      var i, j :| 0 <= i < |left.rows| && 0 <= j < |right.rows| && IsError(f)(Joined(left.rows[i], right.rows[j]));
      FlatMapFails(right.rows, Match(f, left.rows[i]));
      assert f(Joined(left.rows[i], right.rows[j])) == Error;
      assert Match(f, left.rows[i])(right.rows[j]).Fails?;
      assert JoinOne(JoinKind.Left, f, m, right)(left.rows[i]).Fails?;
      FlatMapFails(left.rows, JoinOne(JoinKind.Left, f, m, right));
    } else {
      forall i, j | 0 <= i < |left.rows| && 0 <= j < |right.rows| ensures f(Joined(left.rows[i], right.rows[j])) != Error {
        assert !IsError(f)(Joined(left.rows[i], right.rows[j]));
      }
      hide JoinOne;
      LeftIsPairs(left.rows, right, f, m);
    }
  }

  /** A filter over a LEFT join. */
  lemma FilteredLeft(f: Row -> Truth, m: Row -> Truth, whole: Row -> Truth, left: Rel, right: Rel)
    requires DistinctIds(left.header + right.header)
    ensures (match JoinRel(JoinKind.Left, f, m, left, right) case Fails => Fails case Ok(joined) => FilterRel(joined, whole)) ==
            if SomePair(left.rows, right.rows, BadAbove(f, whole)) || SomeExtended(left.rows, right.rows, NullRow(right.header), IsTrue(f), IsError(whole))
               || SomePair(left.rows, right.rows, IsError(f))
            then Fails
            else Ok(Rel(left.header + right.header, Keep(LeftRows(left.rows, right.rows, NullRow(right.header), IsTrue(f)), IsTrue(whole))))
  {
    hide FilterRel, JoinRel, LeftRows, Keep, Joined, DistinctIds, NullRow, SomePair, SomeExtended;
    LeftOutcome(f, m, left, right);
    var ls, rs, nulls := left.rows, right.rows, NullRow(right.header);
    var rows := LeftRows(ls, rs, nulls, IsTrue(f));
    FilterOutcome(Rel(left.header + right.header, rows), whole);
    LeftRowsHave(ls, rs, nulls, IsTrue(f), IsError(whole));
    assert (exists k :: 0 <= k < |rows| && whole(rows[k]) == Error) <==> exists k :: 0 <= k < |rows| && IsError(whole)(rows[k]);
    BadAmongPairs(f, whole, ls, rs);
  }

  lemma BadAmongPairs(f: Row -> Truth, whole: Row -> Truth, ls: seq<Row>, rs: seq<Row>)
    ensures SomePair(ls, rs, BadAbove(f, whole)) <==>
            SomePair(ls, rs, IsError(f)) ||
            exists i, j :: 0 <= i < |ls| && 0 <= j < |rs| && IsTrue(f)(Joined(ls[i], rs[j])) && IsError(whole)(Joined(ls[i], rs[j]))
  {
    hide Joined;
    if SomePair(ls, rs, BadAbove(f, whole)) {
      var i, j :| 0 <= i < |ls| && 0 <= j < |rs| && BadAbove(f, whole)(Joined(ls[i], rs[j]));
      if f(Joined(ls[i], rs[j])) == Error {
        assert IsError(f)(Joined(ls[i], rs[j]));
      } else {
        assert IsTrue(f)(Joined(ls[i], rs[j])) && IsError(whole)(Joined(ls[i], rs[j]));
      }
    }
    if SomePair(ls, rs, IsError(f)) {
      var i, j :| 0 <= i < |ls| && 0 <= j < |rs| && IsError(f)(Joined(ls[i], rs[j]));
      assert BadAbove(f, whole)(Joined(ls[i], rs[j]));
    }
    if exists i, j :: 0 <= i < |ls| && 0 <= j < |rs| && IsTrue(f)(Joined(ls[i], rs[j])) && IsError(whole)(Joined(ls[i], rs[j])) {
      var i, j :| 0 <= i < |ls| && 0 <= j < |rs| && IsTrue(f)(Joined(ls[i], rs[j])) && IsError(whole)(Joined(ls[i], rs[j]));
      assert BadAbove(f, whole)(Joined(ls[i], rs[j]));
    }
  }

  // ---------------------------------------------------------------- LEFT against INNER

  /** A row that a filter does not drop: it passes, or makes the filter fail. */
  function NotDropped(f: Row -> Truth): Row -> bool {
    row => f(row) == True || f(row) == Error
  }

  lemma ShowsOrFails(f: Row -> Truth, b: Row -> bool, ls: seq<Row>, rs: seq<Row>, nulls: Row)
    ensures SomeExtended(ls, rs, nulls, b, NotDropped(f)) <==> SomeExtended(ls, rs, nulls, b, IsTrue(f)) || SomeExtended(ls, rs, nulls, b, IsError(f))
  {
    hide Joined;
    if SomeExtended(ls, rs, nulls, b, NotDropped(f)) {
      var i :| 0 <= i < |ls| && (forall j | 0 <= j < |rs| :: !b(Joined(ls[i], rs[j]))) && NotDropped(f)(Joined(ls[i], nulls));
      assert IsTrue(f)(Joined(ls[i], nulls)) || IsError(f)(Joined(ls[i], nulls));
    }
    if SomeExtended(ls, rs, nulls, b, IsTrue(f)) {
      var i :| 0 <= i < |ls| && (forall j | 0 <= j < |rs| :: !b(Joined(ls[i], rs[j]))) && IsTrue(f)(Joined(ls[i], nulls));
      assert NotDropped(f)(Joined(ls[i], nulls));
    }
    if SomeExtended(ls, rs, nulls, b, IsError(f)) {
      var i :| 0 <= i < |ls| && (forall j | 0 <= j < |rs| :: !b(Joined(ls[i], rs[j]))) && IsError(f)(Joined(ls[i], nulls));
      assert NotDropped(f)(Joined(ls[i], nulls));
    }
  }

  lemma KeepOne(x: Row, g: Row -> bool)
    ensures Keep([x], g) == (if g(x) then [x] else []) && Keep([], g) == []
  {
    assert [x][..0] == [];
  }

  /** Under a filter, LEFT returns more rows than INNER exactly when an extended row passes; otherwise the same. */
  lemma {:induction false} LeftAgainstInner(ls: seq<Row>, rs: seq<Row>, nulls: Row, b: Row -> bool, g: Row -> bool)
    ensures var left, inner := Keep(LeftRows(ls, rs, nulls, b), g), Keep(InnerRows(ls, rs, b), g);
            && |left| >= |inner|
            && (if SomeExtended(ls, rs, nulls, b, g) then |left| > |inner| else left == inner)
  {
    hide Joined, Pairs, Keep, SomeExtended;
    if ls == [] {
      NoLeftRows(rs, nulls, b, g);
    } else {
      var init, l := ls[..|ls| - 1], ls[|ls| - 1];
      var last := if Pairs(l, rs, b) == [] then [Joined(l, nulls)] else Pairs(l, rs, b);
      LeftAgainstInner(init, rs, nulls, b, g);
      NoMatches(l, rs, b);
      LastExtended(ls, init, rs, nulls, b, g);
      KeepAppend(LeftRows(init, rs, nulls, b), last, g);
      KeepAppend(InnerRows(init, rs, b), Pairs(l, rs, b), g);
      KeepOne(Joined(l, nulls), g);
      assert LeftRows(ls, rs, nulls, b) == LeftRows(init, rs, nulls, b) + last;
      assert InnerRows(ls, rs, b) == InnerRows(init, rs, b) + Pairs(l, rs, b);
    }
  }

  /** The two joins under the filter, over inputs of distinct columns. */
  lemma LeftForms(left: Rel, right: Rel, f: Row -> Truth, m: Row -> Truth, whole: Row -> Truth)
    requires DistinctIds(left.header + right.header)
    ensures var nulls := NullRow(right.header);
            var bad, shows := SomePair(left.rows, right.rows, BadAbove(f, whole)), SomeExtended(left.rows, right.rows, nulls, IsTrue(f), NotDropped(whole));
            var above := match JoinRel(JoinKind.Left, f, m, left, right) case Fails => Fails case Ok(joined) => FilterRel(joined, whole);
            var below := match JoinRel(Inner, f, m, left, right) case Fails => Fails case Ok(joined) => FilterRel(joined, whole);
            && (below == above <==> (shows ==> bad)) && (!(shows ==> bad) ==> below.Ok?)
            && (!bad && above.Ok? ==> !SomeExtended(left.rows, right.rows, nulls, IsTrue(f), IsError(whole)))
  {
    hide FilterRel, JoinRel, LeftRows, InnerRows, Keep, Joined, DistinctIds, NullRow, SomePair, SomeExtended;
    FilteredLeft(f, m, whole, left, right);
    FilteredInner(f, m, whole, left, right);
    BadAmongPairs(f, whole, left.rows, right.rows);
    ShowsOrFails(whole, IsTrue(f), left.rows, right.rows, NullRow(right.header));
    LeftAgainstInner(left.rows, right.rows, NullRow(right.header), IsTrue(f), IsTrue(whole));
  }

  // ---------------------------------------------------------------- the rule

  /** The sides are disjoint, and the conjuncts that reject NULLs read existing columns, under bindings of their own block. */
  ghost predicate RejectingBound(p: Plan, outer: seq<Row>, db: Db) {
    && FilterOverJoin(p) && p.kids[0].op.kind == JoinKind.Left && p.kids[0].op.membership.None?
    && DisjointSides(p.kids[0].kids[0], p.kids[0].kids[1], db)
    && var rt := OutputTables(p.kids[0].kids[1]);
       forall i | 0 <= i < |p.op.preds| && NullRejecting(p.op.preds[i], rt) ::
         ColumnsResolve(p.op.preds[i], BothNames(p.kids[0].kids[0], p.kids[0].kids[1], db), outer) && OwnBindings(p.op.preds[i], rt)
  }

  /** No extended row passes the filter. */
  lemma ExtendedRejected(p: Plan, left: Rel, right: Rel, outer: seq<Row>, db: Db)
    requires RejectingBound(p, outer, db) && LeftToInner(p).Some? && WellFormedRel(left) && DistinctIds(left.header + right.header)
    requires left.header == ColumnsOf(p.kids[0].kids[0], db) && right.header == ColumnsOf(p.kids[0].kids[1], db)
    ensures forall i | 0 <= i < |left.rows| :: !IsTrue(PredsFn(p.op.preds, outer, db))(Joined(left.rows[i], NullRow(right.header)))
  {
    var ps, lt, rt := p.op.preds, OutputTables(p.kids[0].kids[0]), OutputTables(p.kids[0].kids[1]);
    var k :| 0 <= k < |ps| && NullRejecting(ps[k], rt);
    hide EvalPred, EvalPreds, ColumnsResolve, NullRow, NullRejecting, OwnBindings, OutputTables, DistinctIds, NullExtended, Side, ColumnsOf;
    PredsFnAt(ps, outer, db);
    forall i | 0 <= i < |left.rows| ensures EvalPreds(ps, Joined(left.rows[i], NullRow(right.header)), outer, db) != True {
      var row := Joined(left.rows[i], NullRow(right.header));
      NullRowIsExtended(left, right, left.rows[i], lt, rt);
      AllTrue(ps, row, outer, db);
      RejectsNullExtended(ps[k], Names(left.header) + Names(right.header), rt, row, outer, db);
    }
  }

  /** Some left row without a match, extended with NULLs, passes the filter or makes it fail. */
  ghost predicate ExtendedRowShows(p: Plan, left: Rel, right: Rel, outer: seq<Row>, db: Db)
    requires FilterOverJoin(p)
  {
    SomeExtended(left.rows, right.rows, NullRow(right.header), IsTrue(PredsFn(p.kids[0].op.on, outer, db)), NotDropped(PredsFn(p.op.preds, outer, db)))
  }

  /** When the rule keeps the outcome: the filter drops every extended row, or fails anyway. */
  ghost predicate LeftIsHarmless(p: Plan, outer: seq<Row>, db: Db)
    requires FilterOverJoin(p)
  {
    var on, ps := p.kids[0].op.on, p.op.preds;
    var left, right := Run(p.kids[0].kids[0], outer, db), Run(p.kids[0].kids[1], outer, db);
    left.Ok? && right.Ok? && PreparedPreds(on, outer, db) && PreparedPreds(ps, outer, db) && DistinctIds(left.value.header + right.value.header) &&
    ExtendedRowShows(p, left.value, right.value, outer, db) ==>
      SomePair(left.value.rows, right.value.rows, BadAbove(PredsFn(on, outer, db), PredsFn(ps, outer, db)))
  }

  lemma LeftFields(on: seq<Pred>, outer: seq<Row>, db: Db)
    ensures Executable(Join(JoinKind.Left, on, None)) && (PreparedOp(Join(JoinKind.Left, on, None), outer, db) <==> PreparedPreds(on, outer, db))
  {
  }

  lemma LeftPlans(p: Plan, outer: seq<Row>, db: Db)
    requires LeftToInner(p).Some? && FilterOverJoin(p) && p.kids[0].op.kind == JoinKind.Left && p.kids[0].op.membership.None?
    ensures var l, r, ps, on := p.kids[0].kids[0], p.kids[0].kids[1], p.op.preds, p.kids[0].op.on;
            var left, right, m := Run(l, outer, db), Run(r, outer, db), MemberFn(None, outer, db);
            var ready := left.Ok? && right.Ok? && PreparedPreds(on, outer, db) && PreparedPreds(ps, outer, db);
            && Run(p, outer, db) == (
                 if !ready then Fails
                 else match JoinRel(JoinKind.Left, PredsFn(on, outer, db), m, left.value, right.value)
                      case Fails => Fails case Ok(joined) => FilterRel(joined, PredsFn(ps, outer, db)))
            && Run(LeftToInner(p).value, outer, db) == (
                 if !ready then Fails
                 else match JoinRel(Inner, PredsFn(on, outer, db), m, left.value, right.value)
                      case Fails => Fails case Ok(joined) => FilterRel(joined, PredsFn(ps, outer, db)))
  {
    LeftShape(p);
    var join, ps := p.kids[0], p.op.preds;
    var l, r, on := join.kids[0], join.kids[1], join.op.on;
    hide Run, PreparedPreds, PredsFn, MemberFn, JoinRel, FilterRel, Executable, PreparedOp, LeftToInner;
    LeftFields(on, outer, db);
    InnerFields(on, outer, db);
    RunFilter(p.perm, ps, join, outer, db);
    RunJoin(join.perm, Join(JoinKind.Left, on, None), l, r, outer, db);
    RunFilter(p.perm, ps, Node(join.perm, Join(Inner, on, None), [l, r]), outer, db);
    RunJoin(join.perm, Join(Inner, on, None), l, r, outer, db);
  }

  lemma DuplicateJoin(kind: JoinKind, f: Row -> Truth, m: Row -> Truth, left: Rel, right: Rel)
    requires EmitsRight(kind) && !DistinctIds(left.header + right.header)
    ensures JoinRel(kind, f, m, left, right).Fails?
  {
  }

  /** A LEFT join under a filter keeps its outcome as an INNER join exactly when the filter drops every extended row or
    fails anyway; otherwise the rewritten plan succeeds. */
  lemma LeftToInnerExactly(p: Plan, outer: seq<Row>, db: Db)
    requires LeftToInner(p).Some? && FilterOverJoin(p) && p.kids[0].op.kind == JoinKind.Left && p.kids[0].op.membership.None?
    ensures Run(LeftToInner(p).value, outer, db) == Run(p, outer, db) <==> LeftIsHarmless(p, outer, db)
    ensures !LeftIsHarmless(p, outer, db) ==> Run(LeftToInner(p).value, outer, db).Ok?
  {
    LeftPlans(p, outer, db);
    var l, r, ps, on := p.kids[0].kids[0], p.kids[0].kids[1], p.op.preds, p.kids[0].op.on;
    var left, right, m := Run(l, outer, db), Run(r, outer, db), MemberFn(None, outer, db);
    hide Run, PreparedPreds, PredsFn, MemberFn, JoinRel, FilterRel, OutputTables, LeftToInner, SomePair, SomeExtended, DistinctIds, NullRow, Joined;
    if left.Ok? && right.Ok? && PreparedPreds(on, outer, db) && PreparedPreds(ps, outer, db) {
      if DistinctIds(left.value.header + right.value.header) {
        LeftForms(left.value, right.value, PredsFn(on, outer, db), m, PredsFn(ps, outer, db));
      } else {
        DuplicateJoin(JoinKind.Left, PredsFn(on, outer, db), m, left.value, right.value);
        DuplicateJoin(Inner, PredsFn(on, outer, db), m, left.value, right.value);
      }
    }
  }

  /** Where the columns of the NULL-rejecting conjuncts are the block's own, no extended row passes, so the only
    difference the rule can make is that a plan that failed on an extended row now succeeds. */
  lemma RejectingOnlyHidesFailure(p: Plan, outer: seq<Row>, db: Db)
    requires LeftToInner(p).Some? && RejectingBound(p, outer, db)
    ensures Run(p, outer, db).Ok? ==> Run(LeftToInner(p).value, outer, db) == Run(p, outer, db)
  {
    LeftToInnerExactly(p, outer, db);
    LeftPlans(p, outer, db);
    var l, r, ps, on := p.kids[0].kids[0], p.kids[0].kids[1], p.op.preds, p.kids[0].op.on;
    var left, right, m := Run(l, outer, db), Run(r, outer, db), MemberFn(None, outer, db);
    hide Run, PreparedPreds, PredsFn, MemberFn, JoinRel, FilterRel, OutputTables, LeftToInner, SomePair, SomeExtended, DistinctIds, RowFits, RejectingBound, ColumnsOf, NullRow,
         Joined;
    if Run(p, outer, db).Ok? && DistinctIds(left.value.header + right.value.header) {
      RunFits(l, outer, db);
      RunFits(r, outer, db);
      ExtendedRejected(p, left.value, right.value, outer, db);
      NothingExtendedPasses(left.value.rows, right.value.rows, NullRow(right.value.header), IsTrue(PredsFn(on, outer, db)), IsTrue(PredsFn(ps, outer, db)));
      ShowsOrFails(PredsFn(ps, outer, db), IsTrue(PredsFn(on, outer, db)), left.value.rows, right.value.rows, NullRow(right.value.header));
      LeftForms(left.value, right.value, PredsFn(on, outer, db), m, PredsFn(ps, outer, db));
    }
  }

  lemma NothingExtendedPasses(ls: seq<Row>, rs: seq<Row>, nulls: Row, b: Row -> bool, g: Row -> bool)
    requires forall i | 0 <= i < |ls| :: !g(Joined(ls[i], nulls))
    ensures !SomeExtended(ls, rs, nulls, b, g)
  {
    hide Joined;
  }
}
