/** When a correlated subquery is decorrelated, stated through the correlation sets of its parts, and what the result is made
  of: every conjunct of the block's filter is either kept below or becomes one equality of the join.
 */
module DecorrelationFiring {
  import opened Plans
  import opened Sequences
  import opened FilterRules
  import opened FixpointForm
  import opened Correlation
  import opened JoinRules
  import opened Decorrelation
  import opened DecorrelationSoundness
  import opened SubqueryRules
  import Semantics

  // ---------------------------------------------------------------- reading the owner

  lemma {:induction false} OuterOnlyEmpty(cs: seq<ColumnRef>)
    ensures OuterOnly(cs) == [] <==> forall i | 0 <= i < |cs| :: cs[i].depth == 0
  {
    if cs != [] {
      var n := |cs| - 1;
      OuterOnlyEmpty(cs[..n]);
      assert forall i | 0 <= i < n :: cs[..n][i] == cs[i];
    }
  }

  lemma {:induction false} PredsCorrEmpty(ps: seq<Pred>)
    ensures PredsCorr(ps) == [] <==> forall i | 0 <= i < |ps| :: !PredReferencesOuter(ps[i])
  {
    if ps != [] {
      hide PredCorr, PredReferencesOuter;
      var n := |ps| - 1;
      PredsCorrEmpty(ps[..n]);
      PredNeedsOwner(ps[n]);
      assert forall i | 0 <= i < n :: ps[..n][i] == ps[i];
    }
  }

  lemma {:induction false} ProjsCorrEmpty(projs: seq<Projection>)
    ensures ProjsCorr(projs) == [] <==> forall i | 0 <= i < |projs| :: !ScalarReferencesOuter(projs[i].expr)
  {
    if projs != [] {
      hide ScalarCorr, ScalarReferencesOuter;
      var n := |projs| - 1;
      ProjsCorrEmpty(projs[..n]);
      ScalarNeedsOwner(projs[n].expr);
      assert forall i | 0 <= i < n :: projs[..n][i] == projs[i];
    }
  }

  lemma OpCorrEmpty(op: Op)
    ensures OpCorr(op) == [] <==> !OpReferencesOuter(op)
  {
    hide PredCorr, PredReferencesOuter, ScalarReferencesOuter;
    match op
    case Filter(preds) => PredsCorrEmpty(preds);
    case Project(projs) => ProjsCorrEmpty(projs);
    case Join(_, on, membership) =>
      PredsCorrEmpty(on);
      if membership.Some? { PredNeedsOwner(membership.value); }
    case _ => OuterOnlyEmpty(Semantics.OwnColumns(op));
  }

  /** A plan reads an enclosing row exactly when its correlation set is not empty. */
  lemma {:induction false} PlanReadsOwner(p: Plan)
    ensures PlanCorr(p) == [] <==> !PlanReferencesOuter(p)
    decreases p, 1
  {
    hide OpCorr, OpReferencesOuter;
    OpCorrEmpty(p.op);
    KidsReadOwner(p, |p.kids|);
    assert p.kids[..|p.kids|] == p.kids;
  }

  lemma {:induction false} KidsReadOwner(p: Plan, n: nat)
    requires n <= |p.kids|
    ensures KidsCorr(p.kids[..n]) == [] <==> forall i | 0 <= i < n :: !PlanReferencesOuter(p.kids[i])
    decreases p, 0, n
  {
    hide KidsCorr, PlanCorr, PlanReferencesOuter;
    KidsCorrSnoc(p.kids, n);
    if n > 0 {
      KidsReadOwner(p, n - 1);
      PlanReadsOwner(p.kids[n - 1]);
    }
  }

  lemma KidsCorrSnoc(kids: seq<Plan>, n: nat)
    requires n <= |kids|
    ensures KidsCorr(kids[..n]) == if n == 0 then [] else KidsCorr(kids[..n - 1]) + PlanCorr(kids[n - 1])
  {
    assert n > 0 ==> kids[..n][..n - 1] == kids[..n - 1];
  }

  // ---------------------------------------------------------------- the conjuncts

  /** An equality between a column of the owner and a column of the block, either way round. */
  predicate EqualsOwner(p: Pred, outer: ColumnRef, inner: ColumnRef) {
    outer.depth == 1 && inner.depth == 0 && (p == Cmp(Column(outer), Eq, Column(inner)) || p == Cmp(Column(inner), Eq, Column(outer)))
  }

  ghost predicate OwnerEquality(p: Pred) {
    exists outer, inner :: EqualsOwner(p, outer, inner)
  }

  lemma EqualityIs(p: Pred)
    ensures CorrelationEquality(p).Some? <==> OwnerEquality(p)
    ensures forall outer, inner :: EqualsOwner(p, outer, inner) <==> CorrelationEquality(p) == Some(Equality(outer, inner))
    ensures OwnerEquality(p) ==> PredReferencesOuter(p)
  {
    if CorrelationEquality(p).Some? {
      assert EqualsOwner(p, CorrelationEquality(p).value.outer, CorrelationEquality(p).value.inner);
    }
  }

  /** Every conjunct either reads no enclosing row or is such an equality. */
  ghost predicate Separable(ps: seq<Pred>) {
    forall i | 0 <= i < |ps| :: PredCorr(ps[i]) == [] || OwnerEquality(ps[i])
  }

  /** The equalities found, one for each correlated conjunct. */
  lemma {:induction false} EqualitiesFound(ps: seq<Pred>)
    ensures Equalities(ps).Some? <==> Separable(ps)
    ensures Equalities(ps).Some? ==> |Equalities(ps).value| + |Residuals(ps)| == |ps|
    ensures Equalities(ps).Some? ==> forall e :: e in Equalities(ps).value <==> FoundIn(ps, e)
  {
    if ps != [] {
      var n := |ps| - 1;
      EqualitiesFound(ps[..n]);
      EqualityIs(ps[n]);
      PredNeedsOwner(ps[n]);
      hide PredCorr, PredReferencesOuter, CorrelationEquality, EqualsOwner, OwnerEquality;
      assert forall i | 0 <= i < n :: ps[..n][i] == ps[i];
      SeparableSnoc(ps);
      if Equalities(ps).Some? {
        forall e ensures e in Equalities(ps).value <==> FoundIn(ps, e) {
          FoundSnoc(ps, e);
        }
      }
    }
  }

  lemma SeparableSnoc(ps: seq<Pred>)
    requires ps != []
    ensures Separable(ps) <==> Separable(ps[..|ps| - 1]) && (PredCorr(ps[|ps| - 1]) == [] || OwnerEquality(ps[|ps| - 1]))
  {
    hide PredCorr, OwnerEquality;
    var n := |ps| - 1;
    assert forall i | 0 <= i < n :: ps[..n][i] == ps[i];
  }

  ghost predicate FoundIn(ps: seq<Pred>, e: Equality) {
    exists i :: 0 <= i < |ps| && EqualsOwner(ps[i], e.outer, e.inner)
  }

  lemma FoundSnoc(ps: seq<Pred>, e: Equality)
    requires ps != []
    ensures FoundIn(ps, e) <==> FoundIn(ps[..|ps| - 1], e) || EqualsOwner(ps[|ps| - 1], e.outer, e.inner)
  {
    hide EqualsOwner;
    var init := ps[..|ps| - 1];
    assert forall i | 0 <= i < |init| :: init[i] == ps[i];
    if FoundIn(init, e) {
      var i :| 0 <= i < |init| && EqualsOwner(init[i], e.outer, e.inner);
      assert EqualsOwner(ps[i], e.outer, e.inner);
    }
    if FoundIn(ps, e) {
      var i :| 0 <= i < |ps| && EqualsOwner(ps[i], e.outer, e.inner);
      assert i < |init| ==> EqualsOwner(init[i], e.outer, e.inner);
    }
  }

  // ---------------------------------------------------------------- firing

  /** A projection of a filter of a scan or a join. */
  predicate BlockShape(p: Plan) {
    p.op.Project? && |p.kids| == 1 && p.kids[0].op.Filter? && |p.kids[0].kids| == 1 &&
    (p.kids[0].kids[0].op.Scan? || p.kids[0].kids[0].op.Join?)
  }

  /** Only the block's filter reads the owner's row, through equalities that name every correlated column. */
  ghost predicate Decorrelatable(sub: Subplan) {
    && sub.corr != [] && BlockShape(sub.plan)
    && ProjsCorr(sub.plan.op.projs) == [] && PlanCorr(sub.plan.kids[0].kids[0]) == []
    && Separable(sub.plan.kids[0].op.preds)
    && forall i | 0 <= i < |sub.corr| :: NamedByEquality(sub.plan.kids[0].op.preds, sub.corr[i])
  }

  ghost predicate NamedByEquality(ps: seq<Pred>, c: ColumnRef) {
    exists i, inner :: 0 <= i < |ps| && EqualsOwner(ps[i], c, inner)
  }

  lemma CoveredIs(ps: seq<Pred>, c: ColumnRef)
    requires Equalities(ps).Some?
    ensures Covered(c, Equalities(ps).value) <==> NamedByEquality(ps, c)
  {
    hide EqualsOwner;
    EqualitiesFound(ps);
    var es := Equalities(ps).value;
    if Covered(c, es) {
      var i :| 0 <= i < |es| && es[i].outer == c;
      assert es[i] in es;
      var k :| 0 <= k < |ps| && EqualsOwner(ps[k], c, es[i].inner);
    }
    if NamedByEquality(ps, c) {
      var k, inner :| 0 <= k < |ps| && EqualsOwner(ps[k], c, inner);
      var e := Equality(c, inner);
      assert EqualsOwner(ps[k], e.outer, e.inner);
      assert e in es;
      var i :| 0 <= i < |es| && es[i] == e;
    }
  }

  lemma AllCovered(sub: Subplan, ps: seq<Pred>)
    requires Equalities(ps).Some?
    ensures (forall i | 0 <= i < |sub.corr| :: Covered(sub.corr[i], Equalities(ps).value)) <==>
            (forall i | 0 <= i < |sub.corr| :: NamedByEquality(ps, sub.corr[i]))
    ensures sub.corr != [] && (forall i | 0 <= i < |sub.corr| :: Covered(sub.corr[i], Equalities(ps).value)) ==> Equalities(ps).value != []
  {
    hide NamedByEquality, Equalities;
    forall i | 0 <= i < |sub.corr| ensures Covered(sub.corr[i], Equalities(ps).value) <==> NamedByEquality(ps, sub.corr[i]) {
      CoveredIs(ps, sub.corr[i]);
    }
    assert sub.corr != [] ==> sub.corr[0] == sub.corr[0];
  }

  /** Decorrelation succeeds exactly on such subqueries. */
  lemma DecorrelationFires(sub: Subplan, avoid: set<string>)
    ensures DecorrelateEqualityWhere(sub, avoid).Some? <==> Decorrelatable(sub)
  {
    var p := sub.plan;
    if sub.corr != [] && BlockShape(p) {
      var ps := p.kids[0].op.preds;
      ProjsCorrEmpty(p.op.projs);
      PlanReadsOwner(p.kids[0].kids[0]);
      EqualitiesFound(ps);
      if Equalities(ps).Some? {
        AllCovered(sub, ps);
      }
      hide PlanReferencesOuter, PlanCorr, ProjsCorr, ScalarReferencesOuter, Separable, HiddenNames, ProjectionNames, Residuals, NamedByEquality,
           Covered, Equalities, HiddenProjections, JoinEqualities;
    }
  }

  /** A join conjunct that compares an owner column with the hidden column of a projection, for one equality of the filter. */
  ghost predicate ExposedKey(ps: seq<Pred>, on: Pred, projection: Projection) {
    exists i, outer, inner :: 0 <= i < |ps| && EqualsOwner(ps[i], outer, inner) && projection.expr == Column(inner) &&
      on == Cmp(Column(outer.(depth := 0)), Eq, Column(ColumnRef(Ident("", projection.name), inner.ty, 0)))
  }

  /** The plan keeps the conjuncts that read no enclosing row and exposes one hidden column for each equality; the join compares
    each with its owner column. */
  ghost predicate BuiltFrom(p: Plan, d: Decorrelated)
    requires BlockShape(p)
  {
    var ps := p.kids[0].op.preds;
    && d.plan.op.Project? && d.plan.kids == [Filtered(p.kids[0].perm, Residuals(ps), p.kids[0].kids[0])]
    && p.op.projs <= d.plan.op.projs && |d.plan.op.projs| == |p.op.projs| + |d.on| && |d.on| + |Residuals(ps)| == |ps|
    && forall k | 0 <= k < |d.on| :: ExposedKey(ps, d.on[k], d.plan.op.projs[|p.op.projs| + k])
  }

  lemma DecorrelationBuilds(sub: Subplan, avoid: set<string>)
    requires DecorrelateEqualityWhere(sub, avoid).Some?
    ensures BlockShape(sub.plan) && BuiltFrom(sub.plan, DecorrelateEqualityWhere(sub, avoid).value)
  {
    var es, names := DecorrelatedParts(sub, avoid);
    var d := DecorrelateEqualityWhere(sub, avoid).value;
    assert BlockShape(sub.plan);
    hide DecorrelateEqualityWhere;
    PartsBuild(sub.plan, d, es, names);
  }

  lemma PartsBuild(p: Plan, d: Decorrelated, es: seq<Equality>, names: seq<string>)
    requires BlockShape(p)
    requires var ps := p.kids[0].op.preds;
             && |names| == |es| && |es| + |Residuals(ps)| == |ps| && (forall k | 0 <= k < |es| :: FoundIn(ps, es[k]))
             && d.on == JoinEqualities(es, names) && d.plan.op.Project? && d.plan.op.projs == p.op.projs + HiddenProjections(es, names)
             && d.plan.kids == [Filtered(p.kids[0].perm, Residuals(ps), p.kids[0].kids[0])]
    ensures BuiltFrom(p, d)
  {
    hide ExposedKey, FoundIn, Residuals;
    var ps := p.kids[0].op.preds;
    forall k | 0 <= k < |d.on| ensures ExposedKey(ps, d.on[k], d.plan.op.projs[|p.op.projs| + k]) {
      KeyExposed(ps, es[k], names[k]);
      assert d.plan.op.projs[|p.op.projs| + k] == HiddenProjections(es, names)[k];
    }
  }

  /** The equalities found and their hidden names. */
  lemma DecorrelatedParts(sub: Subplan, avoid: set<string>) returns (es: seq<Equality>, names: seq<string>)
    requires DecorrelateEqualityWhere(sub, avoid).Some?
    ensures var p, d := sub.plan, DecorrelateEqualityWhere(sub, avoid).value;
            var ps := p.kids[0].op.preds;
            && |names| == |es| && |es| + |Residuals(ps)| == |ps| && (forall k | 0 <= k < |es| :: FoundIn(ps, es[k]))
            && d.on == JoinEqualities(es, names) && d.plan.op.Project? && d.plan.op.projs == p.op.projs + HiddenProjections(es, names)
            && d.plan.kids == [Filtered(p.kids[0].perm, Residuals(ps), p.kids[0].kids[0])]
  {
    var p := sub.plan;
    var ps := p.kids[0].op.preds;
    EqualitiesFound(ps);
    es := Equalities(ps).value;
    hide PlanReferencesOuter, ScalarReferencesOuter, ProjectionNames, Residuals, Covered, Equalities, Separable, FoundIn;
    names := HiddenNames(|es|, ProjectionNames(p.op.projs) + avoid);
    assert p.kids[0].kids == [p.kids[0].kids[0]];
    forall k | 0 <= k < |es| ensures FoundIn(ps, es[k]) {
      assert es[k] in es;
    }
  }

  lemma KeyExposed(ps: seq<Pred>, e: Equality, name: string)
    requires FoundIn(ps, e)
    ensures ExposedKey(ps, JoinEquality(e, name), Projection(name, Column(e.inner)))
  {
    hide EqualsOwner;
    var i :| 0 <= i < |ps| && EqualsOwner(ps[i], e.outer, e.inner);
  }

  // ---------------------------------------------------------------- the subquery rules

  /** The subqueries owned by the expressions of an operator, and of the relational nodes of a plan. */
  ghost function OpOwned(op: Op): set<Subplan> {
    match op
    case Filter(preds) => ListOwned(preds)
    case Project(projs) => ProjectionsOwned(projs)
    case Join(_, on, membership) => ListOwned(on) + if membership.Some? then Owned(membership.value) else {}
    case _ => {}
  }

  ghost function ListOwned(ps: seq<Pred>): set<Subplan> {
    set i, s | 0 <= i < |ps| && s in Owned(ps[i]) :: s
  }

  ghost function ProjectionsOwned(projs: seq<Projection>): set<Subplan> {
    set i, s | 0 <= i < |projs| && s in OwnedBy(projs[i].expr) :: s
  }

  ghost predicate NodesOwn(p: Plan)
    decreases p
  {
    OpOwned(p.op) != {} || exists i :: 0 <= i < |p.kids| && NodesOwn(p.kids[i])
  }

  lemma SomeOwned(ps: seq<Pred>)
    ensures ListOwned(ps) != {} <==> exists i | 0 <= i < |ps| :: ContainsSubquery(ps[i])
  {
    forall i | 0 <= i < |ps| ensures ContainsSubquery(ps[i]) <==> Owned(ps[i]) != {} {
      OwnsExactly(ps[i]);
    }
    hide ContainsSubquery, Owned;
    var all := ListOwned(ps);
    if i :| 0 <= i < |ps| && Owned(ps[i]) != {} {
      var s :| s in Owned(ps[i]);
      assert s in all;
    }
    if s :| s in all {
      var i :| 0 <= i < |ps| && s in Owned(ps[i]);
      assert Owned(ps[i]) != {};
    }
  }

  lemma SomeProjectionOwns(projs: seq<Projection>)
    ensures ProjectionsOwned(projs) != {} <==> exists i | 0 <= i < |projs| :: projs[i].expr.ScalarQuery?
  {
    if i :| 0 <= i < |projs| && projs[i].expr.ScalarQuery? {
      assert projs[i].expr.sub in OwnedBy(projs[i].expr);
      assert projs[i].expr.sub in ProjectionsOwned(projs);
    }
  }

  lemma {:induction false} PlanOwnsExactly(p: Plan)
    ensures OwnsSubquery(p) <==> NodesOwn(p)
    decreases p
  {
    forall i | 0 <= i < |p.kids| ensures OwnsSubquery(p.kids[i]) <==> NodesOwn(p.kids[i]) {
      PlanOwnsExactly(p.kids[i]);
    }
    hide ContainsSubquery, Owned, OwnedBy, ListOwned, ProjectionsOwned;
    match p.op
    case Filter(preds) => SomeOwned(preds);
    case Project(projs) => SomeProjectionOwns(projs);
    case Join(_, on, membership) =>
      SomeOwned(on);
      if membership.Some? { OwnsExactly(membership.value); }
    case _ =>
  }

  /** EXISTS becomes a SEMI join, and NOT EXISTS an ANTI join, exactly when the subquery is decorrelatable; the other
    conjuncts stay above. */
  lemma ExistenceRulesFire(p: Plan, i: int)
    ensures CorrelatedExistsToSemi(p, i).Some? <==>
            p.op.Filter? && |p.kids| == 1 && 0 <= i < |p.op.preds| && p.op.preds[i].Exists? && Decorrelatable(p.op.preds[i].sub)
    ensures CorrelatedNotExistsToAnti(p, i).Some? <==>
            p.op.Filter? && |p.kids| == 1 && 0 <= i < |p.op.preds| && p.op.preds[i].NotExists? && Decorrelatable(p.op.preds[i].sub)
    ensures CorrelatedExistsToSemi(p, i).Some? ==>
              var d := DecorrelateEqualityWhere(p.op.preds[i].sub, {}).value;
              CorrelatedExistsToSemi(p, i).value ==
              Filtered(p.perm, p.op.preds[..i] + p.op.preds[i + 1..], Node(p.perm, Join(Semi, d.on, None), [p.kids[0], d.plan]))
    ensures CorrelatedNotExistsToAnti(p, i).Some? ==>
              var d := DecorrelateEqualityWhere(p.op.preds[i].sub, {}).value;
              CorrelatedNotExistsToAnti(p, i).value ==
              Filtered(p.perm, p.op.preds[..i] + p.op.preds[i + 1..], Node(p.perm, Join(Anti, d.on, None), [p.kids[0], d.plan]))
  {
    hide Decorrelatable, DecorrelateEqualityWhere;
    if Conjunct(p, i) && (p.op.preds[i].Exists? || p.op.preds[i].NotExists?) {
      DecorrelationFires(p.op.preds[i].sub, {});
    }
  }

  /** NOT IN becomes a NULL-aware ANTI join exactly when its one-column subquery is decorrelatable, its operand and the
    subquery's own nodes hold no subquery, and neither does another conjunct of the filter. */
  lemma NotInRuleFires(p: Plan, i: int)
    ensures CorrelatedNotInToNullAwareAnti(p, i).Some? <==>
            && p.op.Filter? && |p.kids| == 1 && 0 <= i < |p.op.preds| && p.op.preds[i].NotIn?
            && Decorrelatable(p.op.preds[i].sub) && |p.op.preds[i].sub.plan.op.projs| == 1
            && OwnedBy(p.op.preds[i].arg) == {} && !NodesOwn(p.op.preds[i].sub.plan)
            && (forall k | 0 <= k < |p.op.preds| && k != i :: Owned(p.op.preds[k]) == {})
  {
    if Conjunct(p, i) && p.op.preds[i].NotIn? {
      forall k | 0 <= k < |p.op.preds| ensures ContainsSubquery(p.op.preds[k]) <==> Owned(p.op.preds[k]) != {} {
        OwnsExactly(p.op.preds[k]);
      }
      PlanOwnsExactly(p.op.preds[i].sub.plan);
      DecorrelationFires(p.op.preds[i].sub, ComputedNames(p.kids[0]));
      assert Decorrelatable(p.op.preds[i].sub) ==> p.op.preds[i].sub.plan.op.Project?;
      assert OwnedBy(p.op.preds[i].arg) == {} <==> !p.op.preds[i].arg.ScalarQuery? by {
        if p.op.preds[i].arg.ScalarQuery? { assert p.op.preds[i].arg.sub in OwnedBy(p.op.preds[i].arg); }
      }
      hide Decorrelatable, DecorrelateEqualityWhere, OwnsSubquery, NodesOwn, ContainsSubquery, Owned, OwnedBy, ComputedNames;
    }
  }

  /** The other conjuncts stay above; the members are read from a column that the owner cannot expose and that repeats the
    subquery's own output. */
  lemma NotInRuleBuilds(p: Plan, i: int) returns (right: Plan, name: string)
    requires CorrelatedNotInToNullAwareAnti(p, i).Some?
    ensures var sub, avoid := p.op.preds[i].sub, ComputedNames(p.kids[0]);
            var output := sub.plan.op.projs[0];
            && DecorrelateEqualityWhere(sub, avoid).Some? && name !in avoid
            && CorrelatedNotInToNullAwareAnti(p, i).value ==
               Filtered(p.perm, p.op.preds[..i] + p.op.preds[i + 1..],
                        Node(p.perm, Join(NullAwareAnti, DecorrelateEqualityWhere(sub, avoid).value.on,
                                          Some(Cmp(p.op.preds[i].arg, Eq, Column(ColumnRef(Ident("", name), output.expr.Type(), 0))))),
                             [p.kids[0], right]))
            && right.op.Project? && right.kids == DecorrelateEqualityWhere(sub, avoid).value.plan.kids
            && DecorrelateEqualityWhere(sub, avoid).value.plan.op.projs <= right.op.projs
            && Projection(name, output.expr) in right.op.projs
            && (output.name !in avoid ==> name == output.name && right == DecorrelateEqualityWhere(sub, avoid).value.plan)
  {
    var sub, avoid := p.op.preds[i].sub, ComputedNames(p.kids[0]);
    var output, d := sub.plan.op.projs[0], DecorrelateEqualityWhere(sub, avoid).value;
    DecorrelationBuilds(sub, avoid);
    assert d.plan.op.projs[0] == output;
    hide DecorrelateEqualityWhere, ComputedNames, OwnsSubquery, ContainsSubquery;
    var column := MembershipColumn(d, output, avoid);
    right, name := column.0, column.1;
  }

  // ---------------------------------------------------------------- hidden names

  /** A hidden name spells the number of its equality, followed by whatever makes it unused. */
  lemma {:induction false} HiddenNamesSpell(n: nat, taken: set<string>, i: int)
    requires 0 <= i < n
    ensures "__corr_key_" + DigitString(i) <= HiddenNames(n, taken)[i]
  {
    var init := HiddenNames(n - 1, taken);
    var used := set k | 0 <= k < |init| :: init[k];
    if i == n - 1 {
      FreshExtends("__corr_key_" + DigitString(i), taken + used);
    } else {
      HiddenNamesSpell(n - 1, taken, i);
    }
  }

  lemma {:induction false} FreshExtends(name: string, taken: set<string>)
    ensures name <= Fresh(name, taken)
    decreases |Longer(taken, |name|)|
  {
    if name in taken {
      assert name in Longer(taken, |name|) && name !in Longer(taken, |name| + 1);
      assert Longer(taken, |name| + 1) < Longer(taken, |name|);
      SubsetIsSmaller(Longer(taken, |name| + 1), Longer(taken, |name|));
      FreshExtends(name + "_", taken);
      assert name <= name + "_";
    }
  }
}
