/** Moving filter conjuncts into INNER joins, whatever the conjuncts read: the outcome is kept exactly when a failure shows
  in both forms or in neither. A conjunct that moves to one side sees fewer columns there, which can make it fail but
  cannot change its truth.
 */
module InnerPushdown {
  import opened Plans
  import opened Sequences
  import opened Values
  import opened Algebra
  import opened Semantics
  import opened Shapes
  import opened Correlation
  import opened FilterRuleSoundness
  import opened RewriteFixpoint
  import opened JoinAlgebra
  import opened JoinRules
  import opened JoinPushdown
  import opened PlanRuns
  import opened JoinShapes
  import opened DecorrelationSoundness
  import opened PushdownExactly
  import opened Widening

  // ---------------------------------------------------------------- pairs

  /** Some pair has a property. */
  ghost predicate SomePair(ls: seq<Row>, rs: seq<Row>, q: Row -> bool) {
    exists i, j :: 0 <= i < |ls| && 0 <= j < |rs| && q(Joined(ls[i], rs[j]))
  }

  function IsError(f: Row -> Truth): Row -> bool {
    row => f(row) == Error
  }

  /** An INNER join either fails at some pair or returns the pairs that are true. */
  lemma InnerOutcome(f: Row -> Truth, m: Row -> Truth, left: Rel, right: Rel)
    requires DistinctIds(left.header + right.header)
    ensures JoinRel(Inner, f, m, left, right) ==
            if SomePair(left.rows, right.rows, IsError(f)) then Fails
            else Ok(Rel(left.header + right.header, InnerRows(left.rows, right.rows, IsTrue(f))))
  {
    hide FlatMap, InnerRows, DistinctIds, Joined;
    if SomePair(left.rows, right.rows, IsError(f)) {
      var i, j :| 0 <= i < |left.rows| && 0 <= j < |right.rows| && IsError(f)(Joined(left.rows[i], right.rows[j]));
      FlatMapFails(right.rows, Match(f, left.rows[i]));
      assert f(Joined(left.rows[i], right.rows[j])) == Error;
      assert Match(f, left.rows[i])(right.rows[j]).Fails?;
      assert JoinOne(Inner, f, m, right)(left.rows[i]).Fails?;
      FlatMapFails(left.rows, JoinOne(Inner, f, m, right));
    } else {
      forall i, j | 0 <= i < |left.rows| && 0 <= j < |right.rows| ensures f(Joined(left.rows[i], right.rows[j])) != Error {
        assert !IsError(f)(Joined(left.rows[i], right.rows[j]));
      }
      hide JoinOne;
      InnerIsPairs(left.rows, right, f, m);
    }
  }

  lemma AppendHas(xs: seq<Row>, ys: seq<Row>, q: Row -> bool)
    ensures (exists k :: 0 <= k < |xs + ys| && q((xs + ys)[k])) <==>
            (exists k :: 0 <= k < |xs| && q(xs[k])) || exists k :: 0 <= k < |ys| && q(ys[k])
  {
    var all := xs + ys;
    if exists k :: 0 <= k < |xs| && q(xs[k]) {
      var k :| 0 <= k < |xs| && q(xs[k]);
      assert q(all[k]);
    }
    if exists k :: 0 <= k < |ys| && q(ys[k]) {
      var k :| 0 <= k < |ys| && q(ys[k]);
      assert q(all[|xs| + k]);
    }
  }

  lemma {:induction false} PairsHave(l: Row, rs: seq<Row>, b: Row -> bool, q: Row -> bool)
    ensures (exists k :: 0 <= k < |Pairs(l, rs, b)| && q(Pairs(l, rs, b)[k])) <==>
            exists j :: 0 <= j < |rs| && b(Joined(l, rs[j])) && q(Joined(l, rs[j]))
  {
    hide Joined;
    if rs != [] {
      var init, x := rs[..|rs| - 1], Joined(l, rs[|rs| - 1]);
      var last := if b(x) then [x] else [];
      PairsHave(l, init, b, q);
      AppendHas(Pairs(l, init, b), last, q);
      OnlyOne(x, q);
      LastRight(l, rs, init, b, q);
      assert Pairs(l, rs, b) == Pairs(l, init, b) + last;
    }
  }

  lemma OnlyOne(x: Row, q: Row -> bool)
    ensures (exists k :: 0 <= k < |[x]| && q([x][k])) <==> q(x)
  {
    if q(x) {
      assert q([x][0]);
    }
  }

  lemma LastRight(l: Row, rs: seq<Row>, init: seq<Row>, b: Row -> bool, q: Row -> bool)
    requires rs != [] && init == rs[..|rs| - 1]
    ensures (exists j :: 0 <= j < |rs| && b(Joined(l, rs[j])) && q(Joined(l, rs[j]))) <==>
            || (exists j :: 0 <= j < |init| && b(Joined(l, init[j])) && q(Joined(l, init[j])))
            || (b(Joined(l, rs[|rs| - 1])) && q(Joined(l, rs[|rs| - 1])))
  {
    hide Joined;
    if exists j :: 0 <= j < |rs| && b(Joined(l, rs[j])) && q(Joined(l, rs[j])) {
      var j :| 0 <= j < |rs| && b(Joined(l, rs[j])) && q(Joined(l, rs[j]));
      assert j < |init| ==> init[j] == rs[j];
    }
    if exists j :: 0 <= j < |init| && b(Joined(l, init[j])) && q(Joined(l, init[j])) {
      var j :| 0 <= j < |init| && b(Joined(l, init[j])) && q(Joined(l, init[j]));
      assert init[j] == rs[j];
    }
  }

  lemma {:induction false} InnerRowsHave(ls: seq<Row>, rs: seq<Row>, b: Row -> bool, q: Row -> bool)
    ensures (exists k :: 0 <= k < |InnerRows(ls, rs, b)| && q(InnerRows(ls, rs, b)[k])) <==>
            exists i, j :: 0 <= i < |ls| && 0 <= j < |rs| && b(Joined(ls[i], rs[j])) && q(Joined(ls[i], rs[j]))
  {
    hide Joined, Pairs;
    if ls != [] {
      var init := ls[..|ls| - 1];
      InnerRowsHave(init, rs, b, q);
      PairsHave(ls[|ls| - 1], rs, b, q);
      AppendHas(InnerRows(init, rs, b), Pairs(ls[|ls| - 1], rs, b), q);
      LastLeft(ls, init, rs, b, q);
      assert InnerRows(ls, rs, b) == InnerRows(init, rs, b) + Pairs(ls[|ls| - 1], rs, b);
    }
  }

  lemma LastLeft(ls: seq<Row>, init: seq<Row>, rs: seq<Row>, b: Row -> bool, q: Row -> bool)
    requires ls != [] && init == ls[..|ls| - 1]
    ensures (exists i, j :: 0 <= i < |ls| && 0 <= j < |rs| && b(Joined(ls[i], rs[j])) && q(Joined(ls[i], rs[j]))) <==>
            || (exists i, j :: 0 <= i < |init| && 0 <= j < |rs| && b(Joined(init[i], rs[j])) && q(Joined(init[i], rs[j])))
            || exists j :: 0 <= j < |rs| && b(Joined(ls[|ls| - 1], rs[j])) && q(Joined(ls[|ls| - 1], rs[j]))
  {
    hide Joined;
    if exists i, j :: 0 <= i < |ls| && 0 <= j < |rs| && b(Joined(ls[i], rs[j])) && q(Joined(ls[i], rs[j])) {
      var i, j :| 0 <= i < |ls| && 0 <= j < |rs| && b(Joined(ls[i], rs[j])) && q(Joined(ls[i], rs[j]));
      assert i < |init| ==> init[i] == ls[i];
    }
    if exists i, j :: 0 <= i < |init| && 0 <= j < |rs| && b(Joined(init[i], rs[j])) && q(Joined(init[i], rs[j])) {
      var i, j :| 0 <= i < |init| && 0 <= j < |rs| && b(Joined(init[i], rs[j])) && q(Joined(init[i], rs[j]));
      assert b(Joined(ls[i], rs[j]));
    }
  }

  function BadAbove(f: Row -> Truth, whole: Row -> Truth): Row -> bool {
    row => f(row) == Error || (f(row) == True && whole(row) == Error)
  }

  /** A filter over an INNER join. */
  lemma FilteredInner(f: Row -> Truth, m: Row -> Truth, whole: Row -> Truth, left: Rel, right: Rel)
    requires DistinctIds(left.header + right.header)
    ensures (match JoinRel(Inner, f, m, left, right) case Fails => Fails case Ok(joined) => FilterRel(joined, whole)) ==
            if SomePair(left.rows, right.rows, BadAbove(f, whole)) then Fails
            else Ok(Rel(left.header + right.header, Keep(InnerRows(left.rows, right.rows, IsTrue(f)), IsTrue(whole))))
  {
    hide FilterRel, JoinRel, InnerRows, Keep, Joined, DistinctIds;
    InnerOutcome(f, m, left, right);
    var rows := InnerRows(left.rows, right.rows, IsTrue(f));
    FilterOutcome(Rel(left.header + right.header, rows), whole);
    InnerRowsHave(left.rows, right.rows, IsTrue(f), IsError(whole));
    BadPairs(f, whole, left.rows, right.rows, rows);
  }

  lemma BadPairs(f: Row -> Truth, whole: Row -> Truth, ls: seq<Row>, rs: seq<Row>, rows: seq<Row>)
    requires (exists k :: 0 <= k < |rows| && IsError(whole)(rows[k])) <==>
             exists i, j :: 0 <= i < |ls| && 0 <= j < |rs| && IsTrue(f)(Joined(ls[i], rs[j])) && IsError(whole)(Joined(ls[i], rs[j]))
    ensures SomePair(ls, rs, BadAbove(f, whole)) <==> SomePair(ls, rs, IsError(f)) || exists k :: 0 <= k < |rows| && whole(rows[k]) == Error
  {
    hide Joined;
    if SomePair(ls, rs, BadAbove(f, whole)) {
      var i, j :| 0 <= i < |ls| && 0 <= j < |rs| && BadAbove(f, whole)(Joined(ls[i], rs[j]));
      if f(Joined(ls[i], rs[j])) == Error {
        assert IsError(f)(Joined(ls[i], rs[j]));
      } else {
        assert IsTrue(f)(Joined(ls[i], rs[j])) && IsError(whole)(Joined(ls[i], rs[j]));
        var k :| 0 <= k < |rows| && IsError(whole)(rows[k]);
      }
    }
    if SomePair(ls, rs, IsError(f)) {
      var i, j :| 0 <= i < |ls| && 0 <= j < |rs| && IsError(f)(Joined(ls[i], rs[j]));
      assert BadAbove(f, whole)(Joined(ls[i], rs[j]));
    }
    if exists k :: 0 <= k < |rows| && whole(rows[k]) == Error {
      var k :| 0 <= k < |rows| && whole(rows[k]) == Error;
      assert IsError(whole)(rows[k]);
      var i, j :| 0 <= i < |ls| && 0 <= j < |rs| && IsTrue(f)(Joined(ls[i], rs[j])) && IsError(whole)(Joined(ls[i], rs[j]));
      assert BadAbove(f, whole)(Joined(ls[i], rs[j]));
    }
  }

  // ---------------------------------------------------------------- the two forms over rows

  /** Conjuncts placed on a side have the same truth on the side's row as on the pair. */
  ghost predicate SidesRead(ls: seq<Row>, rs: seq<Row>, a: Row -> Truth, b: Row -> Truth) {
    forall i, j | 0 <= i < |ls| && 0 <= j < |rs| :: a(Joined(ls[i], rs[j])) == a(ls[i]) && b(Joined(ls[i], rs[j])) == b(rs[j])
  }

  function BadBelow(a: Row -> Truth, b: Row -> Truth, g: Row -> Truth, res: Row -> Truth): Row -> bool {
    row => a(row) == True && b(row) == True && (g(row) == Error || (g(row) == True && res(row) == Error))
  }

  /** Where the pushed form fails: on a left row, on a right row, or on a pair whose rows both pass. */
  ghost predicate SplitFails(ls: seq<Row>, rs: seq<Row>, a: Row -> Truth, b: Row -> Truth, g: Row -> Truth, res: Row -> Truth) {
    || (exists i :: 0 <= i < |ls| && a(ls[i]) == Error)
    || (exists j :: 0 <= j < |rs| && b(rs[j]) == Error)
    || SomePair(ls, rs, BadBelow(a, b, g, res))
  }

  function PushedJoin(left: Rel, right: Rel, m: Row -> Truth, a: Row -> Truth, b: Row -> Truth, g: Row -> Truth, res: Row -> Truth): Outcome<Rel> {
    match FilterRel(left, a)
    case Fails => Fails
    case Ok(kl) =>
      match FilterRel(right, b)
      case Fails => Fails
      case Ok(kr) =>
        match JoinRel(Inner, g, m, kl, kr)
        case Fails => Fails
        case Ok(joined) => FilterRel(joined, res)
  }

  lemma PushedOutcome(left: Rel, right: Rel, m: Row -> Truth, a: Row -> Truth, b: Row -> Truth, g: Row -> Truth, res: Row -> Truth)
    requires DistinctIds(left.header + right.header) && SidesRead(left.rows, right.rows, a, b)
    ensures PushedJoin(left, right, m, a, b, g, res) ==
            if SplitFails(left.rows, right.rows, a, b, g, res) then Fails
            else Ok(Rel(left.header + right.header,
                        Keep(InnerRows(Keep(left.rows, IsTrue(a)), Keep(right.rows, IsTrue(b)), IsTrue(g)), IsTrue(res))))
  {
    hide FilterRel, JoinRel, InnerRows, Keep, DistinctIds, SidesRead, SomePair;
    FilterOutcome(left, a);
    FilterOutcome(right, b);
    var kl, kr := Rel(left.header, Keep(left.rows, IsTrue(a))), Rel(right.header, Keep(right.rows, IsTrue(b)));
    FilteredInner(g, m, res, kl, kr);
    KeptPairs(left.rows, right.rows, a, b, g, res);
  }

  /** Bad pairs of kept rows are bad pairs whose rows pass. */
  lemma KeptPairs(ls: seq<Row>, rs: seq<Row>, a: Row -> Truth, b: Row -> Truth, g: Row -> Truth, res: Row -> Truth)
    requires SidesRead(ls, rs, a, b)
    ensures SomePair(Keep(ls, IsTrue(a)), Keep(rs, IsTrue(b)), BadAbove(g, res)) <==> SomePair(ls, rs, BadBelow(a, b, g, res))
  {
    hide Keep, Joined;
    var kl, kr := Keep(ls, IsTrue(a)), Keep(rs, IsTrue(b));
    KeptFrom(ls, IsTrue(a));
    KeptFrom(rs, IsTrue(b));
    if SomePair(kl, kr, BadAbove(g, res)) {
      var x, y :| 0 <= x < |kl| && 0 <= y < |kr| && BadAbove(g, res)(Joined(kl[x], kr[y]));
      var i :| 0 <= i < |ls| && ls[i] == kl[x];
      var j :| 0 <= j < |rs| && rs[j] == kr[y];
      assert BadBelow(a, b, g, res)(Joined(ls[i], rs[j]));
    }
    if SomePair(ls, rs, BadBelow(a, b, g, res)) {
      var i, j :| 0 <= i < |ls| && 0 <= j < |rs| && BadBelow(a, b, g, res)(Joined(ls[i], rs[j]));
      KeptAt(ls, IsTrue(a), i);
      KeptAt(rs, IsTrue(b), j);
      var x :| 0 <= x < |kl| && kl[x] == ls[i];
      var y :| 0 <= y < |kr| && kr[y] == rs[j];
      assert BadAbove(g, res)(Joined(kl[x], kr[y]));
    }
  }

  /** What the four parts make of the join predicates and the whole list. */
  ghost predicate Splits(f: Row -> Truth, whole: Row -> Truth, a: Row -> Truth, b: Row -> Truth, c: Row -> Truth, g: Row -> Truth, res: Row -> Truth) {
    && MadeOf(g, f, c)
    && forall row ::
         && (whole(row) == Error <==> a(row) == Error || b(row) == Error || c(row) == Error || res(row) == Error)
         && (whole(row) == True <==> a(row) == True && b(row) == True && c(row) == True && res(row) == True)
  }

  /** Pushing parts into an INNER join: the same rows unless exactly one form fails. */
  lemma InnerForms(left: Rel, right: Rel, m: Row -> Truth, f: Row -> Truth, whole: Row -> Truth,
                   a: Row -> Truth, b: Row -> Truth, c: Row -> Truth, g: Row -> Truth, res: Row -> Truth)
    requires DistinctIds(left.header + right.header) && SidesRead(left.rows, right.rows, a, b) && Splits(f, whole, a, b, c, g, res)
    ensures var above := match JoinRel(Inner, f, m, left, right) case Fails => Fails case Ok(joined) => FilterRel(joined, whole);
            var below := PushedJoin(left, right, m, a, b, g, res);
            && (above == below <==> (SomePair(left.rows, right.rows, BadAbove(f, whole)) <==> SplitFails(left.rows, right.rows, a, b, g, res)))
            && (above.Ok? && below.Ok? ==> above == below)
  {
    hide FilterRel, JoinRel, InnerRows, Keep, DistinctIds, SomePair, SplitFails, PushedJoin, Splits, SidesRead;
    FilteredInner(f, m, whole, left, right);
    PushedOutcome(left, right, m, a, b, g, res);
    SameInnerRows(left.rows, right.rows, f, whole, a, b, c, g, res);
  }

  lemma SameInnerRows(ls: seq<Row>, rs: seq<Row>, f: Row -> Truth, whole: Row -> Truth,
                      a: Row -> Truth, b: Row -> Truth, c: Row -> Truth, g: Row -> Truth, res: Row -> Truth)
    requires SidesRead(ls, rs, a, b) && Splits(f, whole, a, b, c, g, res)
    ensures Keep(InnerRows(ls, rs, IsTrue(f)), IsTrue(whole)) == Keep(InnerRows(Keep(ls, IsTrue(a)), Keep(rs, IsTrue(b)), IsTrue(g)), IsTrue(res))
  {
    hide Keep, InnerRows, Joined;
    PushedPairs(ls, rs, IsTrue(f), IsTrue(whole), IsTrue(a), IsTrue(b), IsTrue(g), IsTrue(res));
  }

  // ---------------------------------------------------------------- the rule

  /** Some conjunct placed on a side fails on a row of that side. */
  ghost predicate SideFails(ls: seq<Row>, rs: seq<Row>, a: Row -> Truth, b: Row -> Truth) {
    (exists i :: 0 <= i < |ls| && a(ls[i]) == Error) || exists j :: 0 <= j < |rs| && b(rs[j]) == Error
  }

  lemma JoinedExtends(l: Row, r: Row)
    requires l.Keys !! r.Keys
    ensures Extends(l, Joined(l, r)) && Extends(r, Joined(l, r))
  {
  }

  /** A conjunct that does not fail on its side's rows has the same truth on every pair, whatever its subqueries read. */
  lemma SidesDecide(pl: seq<Pred>, pr: seq<Pred>, left: Rel, right: Rel, outer: seq<Row>, db: Db)
    requires WellFormedRel(left) && WellFormedRel(right) && DistinctIds(left.header + right.header)
    requires !SideFails(left.rows, right.rows, PredsFn(pl, outer, db), PredsFn(pr, outer, db))
    ensures SidesRead(left.rows, right.rows, PredsFn(pl, outer, db), PredsFn(pr, outer, db))
  {
    hide EvalPreds, DistinctIds, Names, WellFormedRel, Widens, Extends, Joined;
    PredsFnAt(pl, outer, db);
    PredsFnAt(pr, outer, db);
    FitsNames(left);
    FitsNames(right);
    DisjointNames(left.header, right.header);
    WidensItself(outer);
    forall i, j | 0 <= i < |left.rows| && 0 <= j < |right.rows|
      ensures EvalPreds(pl, Joined(left.rows[i], right.rows[j]), outer, db) == EvalPreds(pl, left.rows[i], outer, db)
      ensures EvalPreds(pr, Joined(left.rows[i], right.rows[j]), outer, db) == EvalPreds(pr, right.rows[j], outer, db)
    {
      JoinedExtends(left.rows[i], right.rows[j]);
      PredsStay(pl, left.rows[i], Joined(left.rows[i], right.rows[j]), outer, outer, db);
      PredsStay(pr, right.rows[j], Joined(left.rows[i], right.rows[j]), outer, outer, db);
      assert PredsFn(pl, outer, db)(left.rows[i]) != Error && PredsFn(pr, outer, db)(right.rows[j]) != Error;
    }
  }

  lemma SideFailsEarly(left: Rel, right: Rel, m: Row -> Truth, a: Row -> Truth, b: Row -> Truth, g: Row -> Truth, res: Row -> Truth)
    requires SideFails(left.rows, right.rows, a, b)
    ensures PushedJoin(left, right, m, a, b, g, res).Fails? && SplitFails(left.rows, right.rows, a, b, g, res)
  {
    hide FilterRel, JoinRel, SomePair;
    FilterOutcome(left, a);
    FilterOutcome(right, b);
  }

  lemma PartsSplit(ps: seq<Pred>, on: seq<Pred>, lt: set<string>, rt: set<string>, outer: seq<Row>, db: Db)
    ensures var pj := Placed(Inner, ps, AtJoin, lt, rt);
            Splits(PredsFn(on, outer, db), PredsFn(ps, outer, db), PredsFn(Placed(Inner, ps, AtLeft, lt, rt), outer, db),
                   PredsFn(Placed(Inner, ps, AtRight, lt, rt), outer, db), PredsFn(pj, outer, db), PredsFn(on + pj, outer, db),
                   PredsFn(Placed(Inner, ps, AtResidual, lt, rt), outer, db))
  {
    hide EvalPreds, Placed, MadeOf;
    var pj := Placed(Inner, ps, AtJoin, lt, rt);
    AppendMadeOf(on, pj, outer, db);
    PredsFnAt(ps, outer, db);
    PredsFnAt(Placed(Inner, ps, AtLeft, lt, rt), outer, db);
    PredsFnAt(Placed(Inner, ps, AtRight, lt, rt), outer, db);
    PredsFnAt(pj, outer, db);
    PredsFnAt(Placed(Inner, ps, AtResidual, lt, rt), outer, db);
    forall row: Row { PartTruths(Inner, ps, lt, rt, row, outer, db); }
  }

  /** The filter above the join fails on some pair. */
  ghost predicate InnerAboveFails(p: Plan, left: Rel, right: Rel, outer: seq<Row>, db: Db)
    requires FilterOverJoin(p)
  {
    SomePair(left.rows, right.rows, BadAbove(PredsFn(p.kids[0].op.on, outer, db), PredsFn(p.op.preds, outer, db)))
  }

  /** The pushed form fails on a left row, on a right row, or on a pair whose rows pass. */
  ghost predicate InnerBelowFails(p: Plan, left: Rel, right: Rel, outer: seq<Row>, db: Db)
    requires FilterOverJoin(p)
  {
    var ps, lt, rt := p.op.preds, OutputTables(p.kids[0].kids[0]), OutputTables(p.kids[0].kids[1]);
    SplitFails(left.rows, right.rows, PredsFn(Placed(Inner, ps, AtLeft, lt, rt), outer, db),
               PredsFn(Placed(Inner, ps, AtRight, lt, rt), outer, db), PredsFn(p.kids[0].op.on + Placed(Inner, ps, AtJoin, lt, rt), outer, db),
               PredsFn(Placed(Inner, ps, AtResidual, lt, rt), outer, db))
  }

  /** When the rule keeps the outcome: pushing exposes no failure that did not show above the join, and masks none. */
  ghost predicate InnerPushIsHarmless(p: Plan, outer: seq<Row>, db: Db)
    requires FilterOverJoin(p)
  {
    var left, right := Run(p.kids[0].kids[0], outer, db), Run(p.kids[0].kids[1], outer, db);
    left.Ok? && right.Ok? && PreparedPreds(p.kids[0].op.on, outer, db) && PreparedPreds(p.op.preds, outer, db) &&
    DistinctIds(left.value.header + right.value.header) ==>
      && (InnerBelowFails(p, left.value, right.value, outer, db) ==> InnerAboveFails(p, left.value, right.value, outer, db))
      && (InnerAboveFails(p, left.value, right.value, outer, db) ==> InnerBelowFails(p, left.value, right.value, outer, db))
  }

  lemma InnerFields(on: seq<Pred>, outer: seq<Row>, db: Db)
    ensures Executable(Join(Inner, on, None)) && (PreparedOp(Join(Inner, on, None), outer, db) <==> PreparedPreds(on, outer, db))
  {
  }

  lemma DuplicateInner(f: Row -> Truth, m: Row -> Truth, left: Rel, right: Rel)
    requires !DistinctIds(left.header + right.header)
    ensures JoinRel(Inner, f, m, left, right).Fails?
  {
  }

  /** The original and the pushed plan, as functions of their inputs. */
  lemma InnerPlans(p: Plan, outer: seq<Row>, db: Db)
    requires FilterIntoJoin(p).Some? && FilterOverJoin(p) && p.kids[0].op.kind == Inner && p.kids[0].op.membership.None?
    ensures var l, r, ps, on := p.kids[0].kids[0], p.kids[0].kids[1], p.op.preds, p.kids[0].op.on;
            var left, right, lt, rt, m := Run(l, outer, db), Run(r, outer, db), OutputTables(l), OutputTables(r), MemberFn(None, outer, db);
            var ready := left.Ok? && right.Ok? && PreparedPreds(on, outer, db) && PreparedPreds(ps, outer, db);
            && Run(p, outer, db) == (
                 if !ready then Fails
                 else match JoinRel(Inner, PredsFn(on, outer, db), m, left.value, right.value) case Fails => Fails case Ok(joined) => FilterRel(joined, PredsFn(ps, outer, db)))
            && Run(FilterIntoJoin(p).value, outer, db) == (
                 if !ready then Fails
                 else PushedJoin(left.value, right.value, m, PredsFn(Placed(Inner, ps, AtLeft, lt, rt), outer, db),
                                 PredsFn(Placed(Inner, ps, AtRight, lt, rt), outer, db), PredsFn(on + Placed(Inner, ps, AtJoin, lt, rt), outer, db),
                                 PredsFn(Placed(Inner, ps, AtResidual, lt, rt), outer, db)))
  {
    PushedShape(p);
    var join, ps := p.kids[0], p.op.preds;
    var l, r, on := join.kids[0], join.kids[1], join.op.on;
    var lt, rt := OutputTables(l), OutputTables(r);
    var pl, pr := Placed(Inner, ps, AtLeft, lt, rt), Placed(Inner, ps, AtRight, lt, rt);
    var pj, res := Placed(Inner, ps, AtJoin, lt, rt), Placed(Inner, ps, AtResidual, lt, rt);
    hide Run, PreparedPreds, PredsFn, MemberFn, JoinRel, FilterRel, Executable, PreparedOp, Placed, OutputTables, FilterIntoJoin, Filtered;
    PlacedPrepared(Inner, ps, lt, rt, outer, db);
    PreparedAppend(on, pj, outer, db);
    InnerFields(on, outer, db);
    InnerFields(on + pj, outer, db);
    RunFilter(p.perm, ps, join, outer, db);
    RunJoin(join.perm, Join(Inner, on, None), l, r, outer, db);
    RunFiltered(l.perm, pl, l, outer, db);
    RunFiltered(r.perm, pr, r, outer, db);
    RunJoin(p.perm, Join(Inner, on + pj, None), Filtered(l.perm, pl, l), Filtered(r.perm, pr, r), outer, db);
    RunFiltered(p.perm, res, Node(p.perm, Join(Inner, on + pj, None), [Filtered(l.perm, pl, l), Filtered(r.perm, pr, r)]), outer, db);
  }

  lemma DuplicatePushed(left: Rel, right: Rel, m: Row -> Truth, a: Row -> Truth, b: Row -> Truth, g: Row -> Truth, res: Row -> Truth)
    requires !DistinctIds(left.header + right.header)
    ensures PushedJoin(left, right, m, a, b, g, res).Fails?
  {
    hide FilterRel, JoinRel, DistinctIds;
    KeepsHeader(left, a);
    KeepsHeader(right, b);
    if FilterRel(left, a).Ok? && FilterRel(right, b).Ok? {
      DuplicateInner(g, m, FilterRel(left, a).value, FilterRel(right, b).value);
    }
  }

  /** Both forms over inputs of distinct columns. */
  lemma InnerDecided(ps: seq<Pred>, on: seq<Pred>, lt: set<string>, rt: set<string>, left: Rel, right: Rel, m: Row -> Truth, outer: seq<Row>, db: Db)
    requires WellFormedRel(left) && WellFormedRel(right) && DistinctIds(left.header + right.header)
    ensures var f, whole := PredsFn(on, outer, db), PredsFn(ps, outer, db);
            var a, b := PredsFn(Placed(Inner, ps, AtLeft, lt, rt), outer, db), PredsFn(Placed(Inner, ps, AtRight, lt, rt), outer, db);
            var g, res := PredsFn(on + Placed(Inner, ps, AtJoin, lt, rt), outer, db), PredsFn(Placed(Inner, ps, AtResidual, lt, rt), outer, db);
            var above := match JoinRel(Inner, f, m, left, right) case Fails => Fails case Ok(joined) => FilterRel(joined, whole);
            var below := PushedJoin(left, right, m, a, b, g, res);
            && (above == below <==> (SomePair(left.rows, right.rows, BadAbove(f, whole)) <==> SplitFails(left.rows, right.rows, a, b, g, res)))
            && (above.Ok? && below.Ok? ==> above == below)
  {
    hide PredsFn, JoinRel, FilterRel, Placed, SomePair, SplitFails, PushedJoin, DistinctIds, Splits, SidesRead, SideFails, WellFormedRel;
    var pl, pr := Placed(Inner, ps, AtLeft, lt, rt), Placed(Inner, ps, AtRight, lt, rt);
    var a, b := PredsFn(pl, outer, db), PredsFn(pr, outer, db);
    var g, res := PredsFn(on + Placed(Inner, ps, AtJoin, lt, rt), outer, db), PredsFn(Placed(Inner, ps, AtResidual, lt, rt), outer, db);
    if SideFails(left.rows, right.rows, a, b) {
      FilteredInner(PredsFn(on, outer, db), m, PredsFn(ps, outer, db), left, right);
      SideFailsEarly(left, right, m, a, b, g, res);
    } else {
      SidesDecide(pl, pr, left, right, outer, db);
      PartsSplit(ps, on, lt, rt, outer, db);
      InnerForms(left, right, m, PredsFn(on, outer, db), PredsFn(ps, outer, db), a, b, PredsFn(Placed(Inner, ps, AtJoin, lt, rt), outer, db), g, res);
    }
  }

  /** Splitting the conjuncts above an INNER join keeps the outcome exactly when it exposes and masks no failure, and two
    results are always the same rows in the same order. Nothing is asked of the conjuncts or of their subqueries. */
  lemma FilterIntoInnerExactly(p: Plan, outer: seq<Row>, db: Db)
    requires FilterIntoJoin(p).Some? && FilterOverJoin(p) && p.kids[0].op.kind == Inner && p.kids[0].op.membership.None?
    ensures Run(FilterIntoJoin(p).value, outer, db) == Run(p, outer, db) <==> InnerPushIsHarmless(p, outer, db)
    ensures Run(FilterIntoJoin(p).value, outer, db).Ok? && Run(p, outer, db).Ok? ==> Run(FilterIntoJoin(p).value, outer, db) == Run(p, outer, db)
  {
    InnerPlans(p, outer, db);
    var l, r, ps, on := p.kids[0].kids[0], p.kids[0].kids[1], p.op.preds, p.kids[0].op.on;
    var left, right, lt, rt, m := Run(l, outer, db), Run(r, outer, db), OutputTables(l), OutputTables(r), MemberFn(None, outer, db);
    hide Run, PreparedPreds, PredsFn, MemberFn, JoinRel, FilterRel, Placed, OutputTables, FilterIntoJoin, SomePair, SplitFails, PushedJoin, DistinctIds, RowFits, ColumnsOf;
    if left.Ok? && right.Ok? && PreparedPreds(on, outer, db) && PreparedPreds(ps, outer, db) {
      if DistinctIds(left.value.header + right.value.header) {
        RunFits(l, outer, db);
        RunFits(r, outer, db);
        InnerDecided(ps, on, lt, rt, left.value, right.value, m, outer, db);
      } else {
        DuplicateInner(PredsFn(on, outer, db), m, left.value, right.value);
        DuplicatePushed(left.value, right.value, m, PredsFn(Placed(Inner, ps, AtLeft, lt, rt), outer, db),
                        PredsFn(Placed(Inner, ps, AtRight, lt, rt), outer, db), PredsFn(on + Placed(Inner, ps, AtJoin, lt, rt), outer, db),
                        PredsFn(Placed(Inner, ps, AtResidual, lt, rt), outer, db));
      }
    }
  }
}
