/** Rewriting to a fixpoint: when it stops, why it cannot run out of passes, and what it preserves. */
module RewriteFixpoint {
  import opened Plans
  import opened Sequences
  import opened Values
  import opened Algebra
  import opened Windows
  import opened Semantics
  import opened Shapes
  import opened Correlation
  import opened FilterRules
  import opened FilterRuleSoundness
  import opened SmallPlans

  // ---------------------------------------------------------------- plans the rules preserve

  function NamesOf(p: Plan, db: Db): set<Ident> {
    match OutputColumns(p, db)
    case None => {}
    case Some(h) => Names(h)
  }

  /** What the rules rely on at one node: filter columns exist, and so do sort keys over anything but a projection.
    To keep results exactly, a filter over a filter must also own no correlated subquery. */
  ghost predicate SafeNode(exact: bool, p: Plan, outer: seq<Row>, db: Db) {
    p.kids != [] ==>
      && (p.op.Filter? ==> AllResolve(p.op.preds, NamesOf(p.kids[0], db), outer))
      && (exact && p.op.Filter? && p.kids[0].op.Filter? ==> AllUncorrelated(p.op.preds, db))
      && (p.op.Sort? && !p.kids[0].op.Project? ==>
            KeysResolve(p.op.order, NamesOf(p.kids[0], db), OuterEnv(OwnColumns(p.op), outer)))
  }

  /** The same outcome or, unless exactness is asked for, a failure. */
  ghost predicate Agrees(exact: bool, rewritten: Outcome<Rel>, original: Outcome<Rel>) {
    rewritten == original || (!exact && rewritten.Fails?)
  }

  ghost predicate Safe(exact: bool, p: Plan, outer: seq<Row>, db: Db)
    decreases p
  {
    SafeNode(exact, p, outer, db) && forall i | 0 <= i < |p.kids| :: Safe(exact, p.kids[i], outer, db)
  }

  // ---------------------------------------------------------------- one rule

  lemma FoldPreserves(p: Plan, outer: seq<Row>, db: Db)
    requires p.op.Filter? && |p.kids| == 1 && AllResolve(p.op.preds, NamesOf(p.kids[0], db), outer) && FoldAll(p.op.preds).1
    ensures var q := p.(op := Filter(FoldAll(p.op.preds).0));
            Eval(q, outer, db) == Eval(p, outer, db)
  {
    hide FoldAll, EvalPreds, WellFormedRel, RowFits;
    var folded := FoldAll(p.op.preds).0;
    if Eval(p.kids[0], outer, db).Ok? {
      var rel := Eval(p.kids[0], outer, db).value;
      KidRows(p.kids[0], outer, db);
      PredsFnAt(folded, outer, db);
      PredsFnAt(p.op.preds, outer, db);
      forall i | 0 <= i < |rel.rows| ensures EvalPreds(folded, rel.rows[i], outer, db) == EvalPreds(p.op.preds, rel.rows[i], outer, db) {
        FoldAllKeepsTruth(p.op.preds, NamesOf(p.kids[0], db), rel.rows[i], outer, db);
      }
      FilterAgreeOn(rel, PredsFn(folded, outer, db), PredsFn(p.op.preds, outer, db));
    }
  }

  /** A child's rows carry the columns the parent's predicates were bound against. */
  lemma KidRows(kid: Plan, outer: seq<Row>, db: Db)
    requires Eval(kid, outer, db).Ok?
    ensures var rel := Eval(kid, outer, db).value;
            NamesOf(kid, db) == Names(rel.header) && WellFormedRel(rel) && forall i | 0 <= i < |rel.rows| :: NamesOf(kid, db) <= rel.rows[i].Keys
  {
    EvalFits(kid, outer, db);
    OutputColumnsAreHeader(kid, outer, db);
    var rel := Eval(kid, outer, db).value;
    forall i | 0 <= i < |rel.rows| ensures NamesOf(kid, db) <= rel.rows[i].Keys {
      assert RowFits(rel.header, rel.rows[i]);
    }
  }

  lemma EvalTwice(p: Plan, outer: seq<Row>, db: Db)
    requires p.op.Filter? && |p.kids| == 1 && p.kids[0].op.Filter? && |p.kids[0].kids| == 1
    ensures Eval(p, outer, db) ==
            match Eval(p.kids[0].kids[0], outer, db)
            case Fails => Fails
            case Ok(rel) => FilterTwice(rel, PredsFn(p.kids[0].op.preds, outer, db), PredsFn(p.op.preds, outer, db))
  {
    hide Eval, FilterRel, PredsFn;
    var kid := p.kids[0];
    assert kid == Node(kid.perm, Filter(kid.op.preds), [kid.kids[0]]) && p == Node(p.perm, Filter(p.op.preds), [kid]);
    EvalFilter(kid.perm, kid.op.preds, kid.kids[0], outer, db);
    EvalFilter(p.perm, p.op.preds, kid, outer, db);
  }

  /** The merged filter, over the rows below both. */
  lemma EvalMerged(p: Plan, outer: seq<Row>, db: Db)
    requires p.op.Filter? && |p.kids| == 1 && p.kids[0].op.Filter? && |p.kids[0].kids| == 1
    ensures var both := PredsFn(p.kids[0].op.preds + p.op.preds, outer, db);
            && (forall row :: both(row) == AndTruth(PredsFn(p.kids[0].op.preds, outer, db)(row), PredsFn(p.op.preds, outer, db)(row)))
            && Eval(Node(p.perm, Filter(p.kids[0].op.preds + p.op.preds), p.kids[0].kids), outer, db) ==
               match Eval(p.kids[0].kids[0], outer, db) case Fails => Fails case Ok(rel) => FilterRel(rel, both)
  {
    hide Eval, FilterRel, EvalPreds;
    var kid := p.kids[0];
    PredsFnAt(kid.op.preds, outer, db);
    PredsFnAt(p.op.preds, outer, db);
    PredsFnAt(kid.op.preds + p.op.preds, outer, db);
    forall row ensures EvalPreds(kid.op.preds + p.op.preds, row, outer, db) == AndTruth(EvalPreds(kid.op.preds, row, outer, db), EvalPreds(p.op.preds, row, outer, db)) {
      PredsAppend(kid.op.preds, p.op.preds, row, outer, db);
    }
    assert kid.kids == [kid.kids[0]];
    EvalFilter(p.perm, kid.op.preds + p.op.preds, kid.kids[0], outer, db);
  }

  lemma MergePreserves(exact: bool, p: Plan, outer: seq<Row>, db: Db)
    requires p.op.Filter? && |p.kids| == 1 && p.kids[0].op.Filter? && |p.kids[0].kids| == 1
    requires SafeNode(exact, p, outer, db) && PreparedPreds(p.op.preds, outer, db)
    ensures var q := Node(p.perm, Filter(p.kids[0].op.preds + p.op.preds), p.kids[0].kids);
            Agrees(exact, Eval(q, outer, db), Eval(p, outer, db))
  {
    hide EvalPreds, WellFormedRel, RowFits, FilterRel, Eval, FilterTwice, PreparedPred, Uncorrelated, ColumnsResolve, ContainsSubquery;
    var kid := p.kids[0];
    var grand := kid.kids[0];
    EvalTwice(p, outer, db);
    EvalMerged(p, outer, db);
    if Eval(grand, outer, db).Ok? {
      var rel := Eval(grand, outer, db).value;
      var f, g := PredsFn(kid.op.preds, outer, db), PredsFn(p.op.preds, outer, db);
      MergedFiltersExactly(rel, f, g, PredsFn(kid.op.preds + p.op.preds, outer, db));
      if exact {
        KidRows(grand, outer, db);
        PredsFnAt(p.op.preds, outer, db);
        forall i | 0 <= i < |rel.rows| ensures g(rel.rows[i]) != Error {
          SteadyPreds(p.op.preds, NamesOf(grand, db), rel.rows[i], outer, db);
        }
        assert !HiddenFailure(rel, f, g);
      }
    }
  }

  lemma FalsePreserves(p: Plan, outer: seq<Row>, db: Db)
    requires p.op.Filter? && |p.kids| == 1 && CANONICAL_FALSE in p.op.preds && AllResolve(p.op.preds, NamesOf(p.kids[0], db), outer)
    requires forall i | 0 <= i < |p.op.preds| :: !ContainsSubquery(p.op.preds[i])
    ensures Eval(Node(p.perm, Filter([CANONICAL_FALSE]), p.kids), outer, db) == Eval(p, outer, db)
  {
    hide WellFormedRel, RowFits, EvalPreds;
    if Eval(p.kids[0], outer, db).Ok? {
      var rel := Eval(p.kids[0], outer, db).value;
      KidRows(p.kids[0], outer, db);
      var one := [CANONICAL_FALSE];
      PredsFnAt(one, outer, db);
      PredsFnAt(p.op.preds, outer, db);
      forall i | 0 <= i < |rel.rows| ensures EvalPreds(one, rel.rows[i], outer, db) == EvalPreds(p.op.preds, rel.rows[i], outer, db) {
        FalseConjunct(p.op.preds, NamesOf(p.kids[0], db), rel.rows[i], outer, db);
        FalseConjunct(one, NamesOf(p.kids[0], db), rel.rows[i], outer, db);
      }
      FilterAgreeOn(rel, PredsFn(one, outer, db), PredsFn(p.op.preds, outer, db));
    }
  }

  lemma {:induction false} TrueFilterKeepsAll(rel: Rel, f: Row -> Truth)
    requires forall row :: f(row) == True
    ensures FlatMap(rel.rows, KeepTrue(f)) == Ok(rel.rows)
    decreases |rel.rows|
  {
    if rel.rows != [] {
      var n := |rel.rows| - 1;
      TrueFilterKeepsAll(Rel(rel.header, rel.rows[..n]), f);
      assert rel.rows == rel.rows[..n] + [rel.rows[n]];
    }
  }

  lemma DropTruePreserves(p: Plan, outer: seq<Row>, db: Db)
    requires p.op.Filter? && |p.kids| == 1 && CANONICAL_TRUE in p.op.preds
    ensures var kept := WithoutTrue(p.op.preds);
            Eval(if kept == [] then p.kids[0] else Node(p.perm, Filter(kept), p.kids), outer, db) == Eval(p, outer, db)
  {
    hide EvalPreds;
    var kept := WithoutTrue(p.op.preds);
    if Eval(p.kids[0], outer, db).Ok? {
      var rel := Eval(p.kids[0], outer, db).value;
      PredsFnAt(kept, outer, db);
      PredsFnAt(p.op.preds, outer, db);
      forall row ensures EvalPreds(kept, row, outer, db) == EvalPreds(p.op.preds, row, outer, db) {
        WithoutTrueKeepsTruth(p.op.preds, row, outer, db);
      }
      if kept == [] {
        forall row ensures PredsFn(p.op.preds, outer, db)(row) == True {
          NoPreds(row, outer, db);
        }
        TrueFilterKeepsAll(rel, PredsFn(p.op.preds, outer, db));
      } else {
        FilterAgree(rel, PredsFn(kept, outer, db), PredsFn(p.op.preds, outer, db));
      }
    }
  }

  lemma NoPreds(row: Row, outer: seq<Row>, db: Db)
    ensures EvalPreds([], row, outer, db) == True
  {
  }

  /** A firing at the root keeps the result. */
  lemma ApplyPreserves(exact: bool, rule: Rule, p: Plan, outer: seq<Row>, db: Db)
    requires Apply(rule, p).Some? && SafeNode(exact, p, outer, db) && Prepared(p, outer, db)
    ensures Agrees(exact, Eval(Apply(rule, p).value, outer, db), Eval(p, outer, db))
  {
    hide FoldAll, AllResolve, AllUncorrelated, EvalPreds, FilterRel, PreparedPreds;
    match rule
    case ConstantFold => FoldPreserves(p, outer, db);
    case MergeAdjacentFilters => MergePreserves(exact, p, outer, db);
    case AlwaysFalseFilter => FalsePreserves(p, outer, db);
    case DropAlwaysTrueFilter => DropTruePreserves(p, outer, db);
  }

  // ---------------------------------------------------------------- eager preparation

  lemma PreparedAppend(ps: seq<Pred>, qs: seq<Pred>, outer: seq<Row>, db: Db)
    ensures PreparedPreds(ps + qs, outer, db) <==> PreparedPreds(ps, outer, db) && PreparedPreds(qs, outer, db)
  {
    hide PreparedPred;
    var all := ps + qs;
    assert forall i | 0 <= i < |ps| :: all[i] == ps[i];
    assert forall i | 0 <= i < |qs| :: all[|ps| + i] == qs[i];
    if PreparedPreds(all, outer, db) {
      forall i | 0 <= i < |ps| ensures PreparedPred(ps[i], outer, db) { assert PreparedPred(all[i], outer, db); }
      forall i | 0 <= i < |qs| ensures PreparedPred(qs[i], outer, db) { assert PreparedPred(all[|ps| + i], outer, db); }
    }
  }

  lemma {:induction false} WithoutTruePrepared(ps: seq<Pred>, outer: seq<Row>, db: Db)
    ensures PreparedPreds(WithoutTrue(ps), outer, db) <==> PreparedPreds(ps, outer, db)
  {
    hide PreparedPreds;
    if ps != [] {
      var n := |ps| - 1;
      WithoutTruePrepared(ps[..n], outer, db);
      PreparedAppend(ps[..n], [ps[n]], outer, db);
      PreparedAppend(WithoutTrue(ps[..n]), if ps[n] == CANONICAL_TRUE then [] else [ps[n]], outer, db);
      assert ps == ps[..n] + [ps[n]];
      TrueNeedsNothing(ps[n], outer, db);
    }
  }

  lemma TrueNeedsNothing(p: Pred, outer: seq<Row>, db: Db)
    ensures p == CANONICAL_TRUE ==> PreparedPreds([p], outer, db)
    ensures PreparedPreds([], outer, db)
    ensures PreparedPreds([CANONICAL_FALSE], outer, db)
  {
  }

  lemma FoldAllPrepared(ps: seq<Pred>, outer: seq<Row>, db: Db)
    ensures PreparedPreds(FoldAll(ps).0, outer, db) <==> PreparedPreds(ps, outer, db)
  {
    hide PreparedPred, Fold;
    var folded := FoldAll(ps).0;
    forall i | 0 <= i < |ps| ensures PreparedPred(folded[i], outer, db) == PreparedPred(ps[i], outer, db) {
      FoldKeepsPreparation(ps[i], outer, db);
    }
  }

  /** A firing keeps exactly the subqueries that are prepared. */
  lemma ApplyKeepsPreparation(rule: Rule, p: Plan, outer: seq<Row>, db: Db)
    requires Apply(rule, p).Some?
    ensures Prepared(Apply(rule, p).value, outer, db) == Prepared(p, outer, db)
  {
    var preds, kid := p.op.preds, p.kids[0];
    assert p == Node(p.perm, Filter(preds), [kid]);
    PreparedFilter(p.perm, preds, kid, outer, db);
    hide PreparedPreds, Fold, Prepared, FoldAll, WithoutTrue, ContainsSubquery;
    match rule
    case ConstantFold =>
      FoldAllPrepared(preds, outer, db);
      PreparedFilter(p.perm, FoldAll(preds).0, kid, outer, db);
    case MergeAdjacentFilters =>
      var inner := kid.kids[0];
      assert kid == Node(kid.perm, Filter(kid.op.preds), [inner]);
      PreparedFilter(kid.perm, kid.op.preds, inner, outer, db);
      PreparedAppend(kid.op.preds, preds, outer, db);
      PreparedFilter(p.perm, kid.op.preds + preds, inner, outer, db);
    case AlwaysFalseFilter =>
      TrueNeedsNothing(CANONICAL_TRUE, outer, db);
      AllPrepared(preds, outer, db);
      PreparedFilter(p.perm, [CANONICAL_FALSE], kid, outer, db);
    case DropAlwaysTrueFilter =>
      WithoutTruePrepared(preds, outer, db);
      TrueNeedsNothing(CANONICAL_TRUE, outer, db);
      PreparedFilter(p.perm, WithoutTrue(preds), kid, outer, db);
  }

  lemma PreparedFilter(perm: OrderPermission, ps: seq<Pred>, kid: Plan, outer: seq<Row>, db: Db)
    ensures Prepared(Node(perm, Filter(ps), [kid]), outer, db) <==> PreparedPreds(ps, outer, db) && Prepared(kid, outer, db)
  {
    hide PreparedPreds;
    var p := Node(perm, Filter(ps), [kid]);
    assert p.kids[0] == kid;
  }

  lemma AllPrepared(ps: seq<Pred>, outer: seq<Row>, db: Db)
    requires forall i | 0 <= i < |ps| :: !ContainsSubquery(ps[i])
    ensures PreparedPreds(ps, outer, db)
  {
    forall i | 0 <= i < |ps| ensures PreparedPred(ps[i], outer, db) {
      NoSubqueryPrepared(ps[i], outer, db);
    }
  }

  // ---------------------------------------------------------------- safety is kept

  lemma ApplyKeepsColumns(rule: Rule, p: Plan, db: Db)
    requires Apply(rule, p).Some?
    ensures OutputColumns(Apply(rule, p).value, db) == OutputColumns(p, db)
  {
    hide FoldAll, WithoutTrue;
  }

  lemma FoldAllResolves(ps: seq<Pred>, names: set<Ident>, outer: seq<Row>, db: Db)
    requires AllResolve(ps, names, outer)
    ensures AllResolve(FoldAll(ps).0, names, outer)
    ensures AllUncorrelated(ps, db) ==> AllUncorrelated(FoldAll(ps).0, db)
  {
    hide ColumnsResolve, Uncorrelated, Fold;
    var folded := FoldAll(ps).0;
    forall i | 0 <= i < |ps|
      ensures ColumnsResolve(folded[i], names, outer)
      ensures Uncorrelated(ps[i], db) ==> Uncorrelated(folded[i], db)
    {
      FoldKeepsColumns(ps[i], names, outer);
      FoldKeepsPreparation(ps[i], outer, db);
    }
  }

  lemma {:induction false} FoldKeepsColumns(p: Pred, names: set<Ident>, outer: seq<Row>)
    requires ColumnsResolve(p, names, outer)
    ensures ColumnsResolve(Fold(p).0, names, outer)
  {
    match p
    case And(l, r) =>
      FoldKeepsColumns(l, names, outer);
      FoldKeepsColumns(r, names, outer);
    case Or(l, r) =>
      FoldKeepsColumns(l, names, outer);
      FoldKeepsColumns(r, names, outer);
    case _ =>
  }

  lemma WithoutTrueSubset(ps: seq<Pred>, names: set<Ident>, outer: seq<Row>, db: Db)
    requires AllResolve(ps, names, outer)
    ensures AllResolve(WithoutTrue(ps), names, outer)
    ensures AllUncorrelated(ps, db) ==> AllUncorrelated(WithoutTrue(ps), db)
  {
    hide ColumnsResolve, Uncorrelated;
    var kept := WithoutTrue(ps);
    forall i | 0 <= i < |kept| ensures kept[i] in ps {
      assert kept[i] in kept;
    }
  }

  lemma AppendedSafe(ps: seq<Pred>, qs: seq<Pred>, names: set<Ident>, outer: seq<Row>, db: Db)
    requires AllResolve(ps, names, outer) && AllResolve(qs, names, outer)
    ensures AllResolve(ps + qs, names, outer)
    ensures AllUncorrelated(ps, db) && AllUncorrelated(qs, db) ==> AllUncorrelated(ps + qs, db)
  {
    hide ColumnsResolve, Uncorrelated;
  }

  lemma FalseIsSafe(names: set<Ident>, outer: seq<Row>, db: Db)
    ensures AllResolve([CANONICAL_FALSE], names, outer) && AllUncorrelated([CANONICAL_FALSE], db)
  {
  }

  lemma ApplyKeepsSafe(exact: bool, rule: Rule, p: Plan, outer: seq<Row>, db: Db)
    requires Apply(rule, p).Some? && Safe(exact, p, outer, db)
    ensures Safe(exact, Apply(rule, p).value, outer, db)
  {
    hide AllResolve, AllUncorrelated, FoldAll, WithoutTrue;
    var preds, kid := p.op.preds, p.kids[0];
    assert SafeNode(exact, p, outer, db);
    assert Safe(exact, p.kids[0], outer, db);
    match rule
    case ConstantFold => FoldAllResolves(preds, NamesOf(kid, db), outer, db);
    case MergeAdjacentFilters =>
      assert SafeNode(exact, kid, outer, db) && Safe(exact, kid.kids[0], outer, db);
      AppendedSafe(kid.op.preds, preds, NamesOf(kid.kids[0], db), outer, db);
    case AlwaysFalseFilter => FalseIsSafe(NamesOf(kid, db), outer, db);
    case DropAlwaysTrueFilter => WithoutTrueSubset(preds, NamesOf(kid, db), outer, db);
  }

  // ---------------------------------------------------------------- one pass

  /** What one rewrite of a plan keeps. */
  ghost predicate Preserves(exact: bool, p: Plan, q: Plan, outer: seq<Row>, db: Db) {
    && OutputColumns(q, db) == OutputColumns(p, db)
    && Prepared(q, outer, db) == Prepared(p, outer, db)
    && (Safe(exact, p, outer, db) ==> Safe(exact, q, outer, db))
    && (Safe(exact, p, outer, db) && Prepared(p, outer, db) ==> Agrees(exact, Eval(q, outer, db), Eval(p, outer, db)))
    && (q.op == p.op || p.op.Filter?)
  }

  lemma {:induction false} PassPreserves(exact: bool, p: Plan, outer: seq<Row>, db: Db)
    requires RewriteOnce(p).Some?
    ensures Preserves(exact, p, RewriteOnce(p).value.1, outer, db)
    decreases p, 1
  {
    hide Apply, FirstRule, Safe, Eval, Prepared, OutputColumns, Preserves;
    if RewriteKid(p, 0).Some? {
      KidPreserves(exact, p, 0, outer, db);
    } else {
      FirstRuleApplies(DEFAULT_RULES, p);
      var (rule, q) := FirstRule(DEFAULT_RULES, p).value;
      RootPreserves(exact, rule, p, outer, db);
    }
  }

  lemma RootPreserves(exact: bool, rule: Rule, p: Plan, outer: seq<Row>, db: Db)
    requires Apply(rule, p).Some?
    ensures Preserves(exact, p, Apply(rule, p).value, outer, db)
  {
    ApplyKeepsColumns(rule, p, db);
    ApplyKeepsPreparation(rule, p, outer, db);
    if Safe(exact, p, outer, db) {
      ApplyKeepsSafe(exact, rule, p, outer, db);
      if Prepared(p, outer, db) {
        ApplyPreserves(exact, rule, p, outer, db);
      }
    }
    RootIsFilter(rule, p);
  }

  lemma RootIsFilter(rule: Rule, p: Plan)
    requires Apply(rule, p).Some?
    ensures p.op.Filter?
  {
  }

  lemma {:induction false} KidPreserves(exact: bool, p: Plan, i: nat, outer: seq<Row>, db: Db)
    requires RewriteKid(p, i).Some?
    ensures Preserves(exact, p, RewriteKid(p, i).value.1, outer, db)
    decreases p, 0, |p.kids| - i
  {
    hide Apply, FirstRule, Safe, Eval, Prepared, OutputColumns, Preserves;
    match RewriteOnce(p.kids[i])
    case None => KidPreserves(exact, p, i + 1, outer, db);
    case Some(q) =>
      PassPreserves(exact, p.kids[i], outer, db);
      if p.op.Sort? && p.kids[i].op.Project? && |p.kids[i].kids| == 1 {
        ProjectRewritesBelow(p.kids[i]);
        PassPreserves(exact, p.kids[i].kids[0], outer, db);
      }
      KidReplaced(exact, p, i, q.1, outer, db);
  }

  /** No rule fires at a projection, so its rewrite changes only its input. */
  lemma ProjectRewritesBelow(k: Plan)
    requires k.op.Project? && |k.kids| == 1 && RewriteOnce(k).Some?
    ensures RewriteOnce(k.kids[0]).Some?
    ensures RewriteOnce(k).value.1 == k.(kids := [RewriteOnce(k.kids[0]).value.1])
  {
    FirstRuleApplies(DEFAULT_RULES, k);
    assert RewriteKid(k, 1).None?;
  }

  lemma KidReplaced(exact: bool, p: Plan, i: int, k: Plan, outer: seq<Row>, db: Db)
    requires 0 <= i < |p.kids| && Preserves(exact, p.kids[i], k, outer, db)
    requires p.op.Sort? && p.kids[i].op.Project? && |p.kids[i].kids| == 1 ==>
               |k.kids| == 1 && Preserves(exact, p.kids[i].kids[0], k.kids[0], outer, db)
    ensures Preserves(exact, p, p.(kids := p.kids[i := k]), outer, db)
  {
    var q := p.(kids := p.kids[i := k]);
    KidColumns(p, i, k, db);
    KidPrepared(p, i, k, outer, db);
    if Safe(exact, p, outer, db) {
      KidSafe(exact, p, i, k, outer, db);
      if Prepared(p, outer, db) {
        KidEval(exact, p, i, k, outer, db);
      }
    }
  }

  lemma KidColumns(p: Plan, i: int, k: Plan, db: Db)
    requires 0 <= i < |p.kids| && OutputColumns(k, db) == OutputColumns(p.kids[i], db)
    ensures OutputColumns(p.(kids := p.kids[i := k]), db) == OutputColumns(p, db)
  {
  }

  lemma KidPrepared(p: Plan, i: int, k: Plan, outer: seq<Row>, db: Db)
    requires 0 <= i < |p.kids| && Prepared(k, outer, db) == Prepared(p.kids[i], outer, db)
    ensures Prepared(p.(kids := p.kids[i := k]), outer, db) == Prepared(p, outer, db)
  {
    hide PreparedOp;
    var q := p.(kids := p.kids[i := k]);
    forall j | 0 <= j < |p.kids| ensures Prepared(q.kids[j], outer, db) == Prepared(p.kids[j], outer, db) {
    }
  }

  lemma KidSafe(exact: bool, p: Plan, i: int, k: Plan, outer: seq<Row>, db: Db)
    requires 0 <= i < |p.kids| && Safe(exact, p, outer, db) && Safe(exact, k, outer, db)
    requires OutputColumns(k, db) == OutputColumns(p.kids[i], db) && (k.op == p.kids[i].op || p.kids[i].op.Filter?)
    ensures Safe(exact, p.(kids := p.kids[i := k]), outer, db)
  {
    hide AllResolve, AllUncorrelated, KeysResolve, OuterEnv;
    var q := p.(kids := p.kids[i := k]);
    assert SafeNode(exact, p, outer, db);
    forall j | 0 <= j < |p.kids| ensures Safe(exact, q.kids[j], outer, db) {
      assert j != i ==> q.kids[j] == p.kids[j];
    }
    assert SafeNode(exact, q, outer, db);
  }

  lemma KidEval(exact: bool, p: Plan, i: int, k: Plan, outer: seq<Row>, db: Db)
    requires 0 <= i < |p.kids| && Safe(exact, p, outer, db) && Prepared(p, outer, db) && Preserves(exact, p.kids[i], k, outer, db)
    requires p.op.Sort? && p.kids[i].op.Project? && |p.kids[i].kids| == 1 ==>
               |k.kids| == 1 && Preserves(exact, p.kids[i].kids[0], k.kids[0], outer, db)
    ensures Agrees(exact, Eval(p.(kids := p.kids[i := k]), outer, db), Eval(p, outer, db))
  {
    hide FilterRel, ProjectRel, JoinRel, AggregateRel, WindowRel, SortRel, SortProjected, ScanRel, DistinctRel, LimitRel, OuterEnv,
         AllResolve, AllUncorrelated, OutputColumns, PreparedOp;
    assert Safe(exact, p.kids[i], outer, db) && Prepared(p.kids[i], outer, db);
    var q := p.(kids := p.kids[i := k]);
    if p.op.Sort? && |p.kids| == 1 {
      SortedKid(exact, p, k, outer, db);
    }
  }

  /** Under a sort, a projection may come into view once a filter above it is dropped. */
  lemma SortedKid(exact: bool, p: Plan, k: Plan, outer: seq<Row>, db: Db)
    requires p.op.Sort? && |p.kids| == 1 && Safe(exact, p, outer, db) && Prepared(p, outer, db) && Preserves(exact, p.kids[0], k, outer, db)
    requires p.kids[0].op.Project? && |p.kids[0].kids| == 1 ==> |k.kids| == 1 && Preserves(exact, p.kids[0].kids[0], k.kids[0], outer, db)
    ensures Agrees(exact, Eval(p.(kids := [k]), outer, db), Eval(p, outer, db))
  {
    hide FilterRel, JoinRel, AggregateRel, WindowRel, SortRel, SortProjected, ScanRel, DistinctRel, LimitRel, OuterEnv,
         AllResolve, AllUncorrelated, OutputColumns, PreparedOp, KeysResolve;
    var kid := p.kids[0];
    assert SafeNode(exact, p, outer, db) && Safe(exact, kid, outer, db) && Prepared(kid, outer, db);
    if kid.op.Project? && |kid.kids| == 1 {
      assert Safe(exact, kid.kids[0], outer, db) && Prepared(kid.kids[0], outer, db);
    } else if k.op.Project? && |k.kids| == 1 && Eval(k, outer, db).Ok? {
      var env := OuterEnv(OwnColumns(p.op), outer);
      KidRows(kid, outer, db);
      assert Eval(k.kids[0], outer, db).Ok?;
      SortProjectedIsSort(p.op.order, Eval(k.kids[0], outer, db).value, Eval(k, outer, db).value, env);
    }
  }

  // ---------------------------------------------------------------- to the fixpoint

  datatype RewriteResult = RewriteResult(plan: Plan, trace: seq<Rule>, passes: nat)

  /** Wherever the original's columns resolve, the other plan gives the same outcome or fails: it never turns a
    failure into a result or changes a result. Where the original is safe, it gives the same outcome. */
  ghost predicate SameRuns(p: Plan, q: Plan) {
    forall exact, outer, db | Safe(exact, p, outer, db) ::
      Safe(exact, q, outer, db) && Agrees(exact, Run(q, outer, db), Run(p, outer, db))
  }

  lemma PassSameRuns(p: Plan)
    requires RewriteOnce(p).Some?
    ensures SameRuns(p, RewriteOnce(p).value.1)
  {
    hide Safe, Eval, Prepared, OutputColumns, RewriteOnce;
    var q := RewriteOnce(p).value.1;
    forall exact, outer, db | Safe(exact, p, outer, db) ensures Safe(exact, q, outer, db) && Agrees(exact, Run(q, outer, db), Run(p, outer, db)) {
      PassPreserves(exact, p, outer, db);
    }
  }

  lemma SameRunsThrough(p: Plan, q: Plan, r: Plan)
    requires SameRuns(p, q) && SameRuns(q, r)
    ensures SameRuns(p, r)
  {
    hide Safe, Run;
    forall exact, outer, db | Safe(exact, p, outer, db) ensures Safe(exact, r, outer, db) && Agrees(exact, Run(r, outer, db), Run(p, outer, db)) {
      assert Safe(exact, q, outer, db);
    }
  }

  /** The merge of two filters is harmless when it exposes no failure, or one shows without it. */
  ghost predicate MergeIsHarmless(p: Plan, outer: seq<Row>, db: Db)
    requires p.op.Filter? && |p.kids| == 1 && p.kids[0].op.Filter? && |p.kids[0].kids| == 1
  {
    var inner, below := p.kids[0].op.preds, Run(p.kids[0].kids[0], outer, db);
    below.Ok? && PreparedPreds(inner, outer, db) && PreparedPreds(p.op.preds, outer, db) &&
    HiddenFailure(below.value, PredsFn(inner, outer, db), PredsFn(p.op.preds, outer, db)) ==>
      VisibleFailure(below.value, PredsFn(inner, outer, db), PredsFn(p.op.preds, outer, db))
  }

  /** Merging adjacent filters keeps the outcome of a plan exactly when it is harmless, and otherwise makes the plan fail. */
  lemma MergeExactly(p: Plan, outer: seq<Row>, db: Db)
    requires Apply(MergeAdjacentFilters, p).Some?
    ensures var q := Apply(MergeAdjacentFilters, p).value;
            && (Run(q, outer, db) == Run(p, outer, db) <==> MergeIsHarmless(p, outer, db))
            && (!MergeIsHarmless(p, outer, db) ==> Run(q, outer, db).Fails?)
  {
    var kid := p.kids[0];
    var grand := kid.kids[0];
    ApplyKeepsPreparation(MergeAdjacentFilters, p, outer, db);
    PreparedFilter(p.perm, p.op.preds, kid, outer, db);
    PreparedFilter(kid.perm, kid.op.preds, grand, outer, db);
    assert kid == Node(kid.perm, Filter(kid.op.preds), [grand]) && p == Node(p.perm, Filter(p.op.preds), [kid]);
    EvalTwice(p, outer, db);
    EvalMerged(p, outer, db);
    hide Eval, Prepared, PreparedPreds, HiddenFailure, VisibleFailure, FilterRel, FilterTwice, PredsFn;
    if Eval(grand, outer, db).Ok? {
      MergedFiltersExactly(Eval(grand, outer, db).value, PredsFn(kid.op.preds, outer, db), PredsFn(p.op.preds, outer, db),
                           PredsFn(kid.op.preds + p.op.preds, outer, db));
    }
  }

  /** Applies one rule at a time until none fires, or fails when the passes run out. More passes than the
    measure always suffice. */
  method RewriteToFixpoint(p: Plan, maxPasses: nat) returns (r: Outcome<RewriteResult>)
    ensures maxPasses > Measure(p) ==> r.Ok?
    ensures r.Ok? ==> AtFixpoint(r.value.plan) && SameRuns(p, r.value.plan)
    ensures r.Ok? ==> |r.value.trace| == r.value.passes <= Measure(p) && r.value.passes < maxPasses
  {
    assert SameRuns(p, p);
    hide SameRuns, RewriteOnce, Measure, AtFixpoint;
    var plan, trace, pass := p, [], 0;
    while pass < maxPasses
      invariant 0 <= pass <= maxPasses && |trace| == pass
      invariant Measure(plan) + pass <= Measure(p)
      invariant SameRuns(p, plan)
    {
      NothingFiresAtFixpoint(plan);
      match RewriteOnce(plan) {
        case None => return Ok(RewriteResult(plan, trace, pass));
        case Some(next) =>
          RewriteLowers(plan);
          PassSameRuns(plan);
          SameRunsThrough(p, plan, next.1);
          plan, trace := next.1, trace + [next.0];
      }
      pass := pass + 1;
    }
    r := Fails;
  }

  // ---------------------------------------------------------------- the merge that exposes a failure

  const OWNER: ColumnRef := ColumnRef(Ident("t", "a"), Int64, 1)

  /** A correlated scalar subquery that returns every row of `u`. */
  const EVERY_U: Subplan := Subplan(Node(Arbitrary, Filter([Cmp(Column(OWNER), Eq, Column(OWNER))]), [Node(Arbitrary, Scan("u", "u"), [])]), [OWNER])

  const GUARDED: Plan :=
    Node(Arbitrary, Filter([IsNull(ScalarQuery(EVERY_U, Int64))]),
         [Node(Arbitrary, Filter([CANONICAL_FALSE]), [Node(Arbitrary, Scan("t", "t"), [])])])

  const TWO_ROWS: Db := map["t" := OneColumn([7]), "u" := OneColumn([1, 2])]

  lemma ScanReads(name: string, outer: seq<Row>)
    requires name in TWO_ROWS && name != ""
    ensures var r := Eval(ScanOf(name), outer, TWO_ROWS);
            r.Ok? && |r.value.rows| == |TWO_ROWS[name].rows| && forall i | 0 <= i < |r.value.rows| :: r.value.rows[i].Keys == {Ident(name, "a")}
    ensures Prepared(ScanOf(name), outer, TWO_ROWS)
  {
    var table := TWO_ROWS[name];
    var rel := Rel(Rename(name, table.header), ScanRows(name, table));
    assert Eval(ScanOf(name), outer, TWO_ROWS) == Ok(rel);
    ScanFits(name, table);
    assert Rename(name, table.header) == [Field(Ident(name, "a"), Int64)];
    forall i | 0 <= i < |rel.rows| ensures rel.rows[i].Keys == {Ident(name, "a")} {
      assert RowFits(rel.header, rel.rows[i]);
    }
  }

  /** The subquery returns both rows of `u` for every owner row. */
  lemma EveryRowReturned(row: Row)
    requires row.Keys == {Ident("t", "a")} && !row[Ident("t", "a")].Null?
    ensures EvalScalar(ScalarQuery(EVERY_U, Int64), row, [], TWO_ROWS).Fails?
  {
    var outer := [] + [row];
    var p := EVERY_U.plan;
    ScanReads("u", outer);
    var rel := Eval(ScanOf("u"), outer, TWO_ROWS).value;
    SelfEqualityDecided(OWNER, row, [], TWO_ROWS);
    assert p.op.preds == [Cmp(Column(OWNER), Eq, Column(OWNER))] && OWNER.id in row;
    assert forall r: Row :: PredsFn(p.op.preds, outer, TWO_ROWS)(r) == True;
    TrueFilterKeepsAll(rel, PredsFn(p.op.preds, outer, TWO_ROWS));
    assert p.kids == [ScanOf("u")];
    assert Eval(p, outer, TWO_ROWS) == Ok(rel);
    assert PreparedPreds(p.op.preds, outer, TWO_ROWS);
    assert Prepared(p, outer, TWO_ROWS);
    assert |rel.rows| == 2;
    assert EvalSub(EVERY_U, row, [], TWO_ROWS) == Run(p, outer, TWO_ROWS) == Ok(rel);
  }

  lemma OwnerRow(row: Row)
    requires Eval(ScanOf("t"), [], TWO_ROWS).Ok? && Eval(ScanOf("t"), [], TWO_ROWS).value.rows == [row]
    ensures row.Keys == {Ident("t", "a")} && !row[Ident("t", "a")].Null?
  {
    ScanReads("t", []);
    var table := TWO_ROWS["t"];
    assert row == ScanRows("t", table)[0];
    assert CellsOf(table.header, table.rows[0])[0] == IntV(7);
    ScanFits("t", table);
    MakeRowFits(Rename("t", table.header), CellsOf(table.header, table.rows[0]));
  }

  lemma InnerRejectsAll(rel: Rel)
    ensures FilterRel(rel, PredsFn([CANONICAL_FALSE], [], TWO_ROWS)) == Ok(Rel(rel.header, []))
  {
    var f := PredsFn([CANONICAL_FALSE], [], TWO_ROWS);
    PredsFnAt([CANONICAL_FALSE], [], TWO_ROWS);
    forall r: Row ensures f(r) == False {
      CanonicalTruths(r, [], TWO_ROWS);
      ConjunctLast([], CANONICAL_FALSE, r, [], TWO_ROWS);
      assert [] + [CANONICAL_FALSE] == [CANONICAL_FALSE];
    }
    RejectsAll(rel.rows, f);
  }

  lemma {:induction false} RejectsAll(rows: seq<Row>, f: Row -> Truth)
    requires forall r: Row :: f(r) == False
    ensures FlatMap(rows, KeepTrue(f)) == Ok([])
  {
    if rows != [] {
      RejectsAll(rows[..|rows| - 1], f);
      assert f(rows[|rows| - 1]) == False;
      var none: seq<Row> := [];
      assert KeepTrue(f)(rows[|rows| - 1]) == Ok(none) && none + none == none;
    }
  }

  lemma GuardedBound()
    ensures BoundPlan(GUARDED)
  {
    SelfEqualityBound(OWNER, "u");
    assert EVERY_U == Subplan(Node(Arbitrary, Filter([Cmp(Column(OWNER), Eq, Column(OWNER))]), [ScanOf("u")]), [OWNER]);
    var guard, constant := [IsNull(ScalarQuery(EVERY_U, Int64))], [CANONICAL_FALSE];
    assert BoundPred(guard[0]) && BoundPred(constant[0]);
    CorrOfScan("t");
    FilterBound(Arbitrary, constant, ScanOf("t"));
    FilterBound(Arbitrary, guard, Node(Arbitrary, Filter(constant), [ScanOf("t")]));
  }

  /** Why the safety condition matters: the inner filter keeps no row, so the query returns nothing; after
    the merge the subquery is evaluated, finds two rows, and the query fails. */
  lemma MergeCanExposeFailure()
    ensures BoundPlan(GUARDED) && Interpret(GUARDED, TWO_ROWS).Ok? && Interpret(GUARDED, TWO_ROWS).value.rows == []
    ensures Apply(MergeAdjacentFilters, GUARDED).Some?
    ensures Interpret(Apply(MergeAdjacentFilters, GUARDED).value, TWO_ROWS).Fails?
  {
    var guard, inner := GUARDED.op.preds, GUARDED.kids[0];
    GuardedBound();
    ScanReads("t", []);
    var rel := Eval(ScanOf("t"), [], TWO_ROWS).value;
    var row := rel.rows[0];
    assert rel.rows == [row];
    OwnerRow(row);
    EveryRowReturned(row);
    InnerRejectsAll(rel);
    assert inner.kids == [ScanOf("t")] && GUARDED.kids == [inner];
    assert Eval(inner, [], TWO_ROWS) == Ok(Rel(rel.header, []));
    assert PreparedPreds(guard, [], TWO_ROWS) && PreparedPreds([CANONICAL_FALSE], [], TWO_ROWS);
    assert Prepared(inner, [], TWO_ROWS) && Prepared(GUARDED, [], TWO_ROWS);
    assert FilterRel(Rel(rel.header, []), PredsFn(guard, [], TWO_ROWS)) == Ok(Rel(rel.header, []));
    assert Eval(GUARDED, [], TWO_ROWS) == Ok(Rel(rel.header, []));
    var merged := Apply(MergeAdjacentFilters, GUARDED).value;
    var both := [CANONICAL_FALSE] + guard;
    assert merged == Node(Arbitrary, Filter(both), [ScanOf("t")]);
    PredsFnAt(both, [], TWO_ROWS);
    assert both[..1] == [CANONICAL_FALSE];
    assert EvalPred(guard[0], row, [], TWO_ROWS) == Error;
    assert EvalPreds(both, row, [], TWO_ROWS) == Error;
    FlatMapFails(rel.rows, KeepTrue(PredsFn(both, [], TWO_ROWS)));
    assert KeepTrue(PredsFn(both, [], TWO_ROWS))(rel.rows[0]).Fails?;
    assert Eval(merged, [], TWO_ROWS) == FilterRel(rel, PredsFn(both, [], TWO_ROWS));
  }
}
