/** The plans no default rule changes, described without the rules: every filter's conjuncts are folded, none is trivially
  true, a false one stands alone unless a subquery must still run, and no filter sits directly on another.
 */
module FixpointForm {
  import opened Plans
  import opened FilterRules

  /** The subqueries a predicate owns. */
  function OwnedBy(e: Scalar): set<Subplan> {
    if e.ScalarQuery? then {e.sub} else {}
  }

  function Owned(p: Pred): set<Subplan> {
    match p
    case Cmp(l, _, r) => OwnedBy(l) + OwnedBy(r)
    case IsNull(e) => OwnedBy(e)
    case IsNotNull(e) => OwnedBy(e)
    case In(e, sub) => OwnedBy(e) + {sub}
    case NotIn(e, sub) => OwnedBy(e) + {sub}
    case Exists(sub) => {sub}
    case NotExists(sub) => {sub}
    case And(l, r) => Owned(l) + Owned(r)
    case Or(l, r) => Owned(l) + Owned(r)
  }

  lemma {:induction false} OwnsExactly(p: Pred)
    ensures ContainsSubquery(p) <==> Owned(p) != {}
  {
    match p
    case And(l, r) => OwnsExactly(l); OwnsExactly(r);
    case Or(l, r) => OwnsExactly(l); OwnsExactly(r);
    case Cmp(l, _, r) =>
      assert l.ScalarQuery? ==> l.sub in Owned(p);
      assert r.ScalarQuery? ==> r.sub in Owned(p);
    case IsNull(e) => assert e.ScalarQuery? ==> e.sub in Owned(p);
    case IsNotNull(e) => assert e.ScalarQuery? ==> e.sub in Owned(p);
    case In(e, sub) => assert sub in Owned(p);
    case NotIn(e, sub) => assert sub in Owned(p);
    case Exists(sub) => assert sub in Owned(p);
    case NotExists(sub) => assert sub in Owned(p);
  }

  predicate LiteralTrue(p: Pred) {
    p == Cmp(IntLit(1), Eq, IntLit(1))
  }

  predicate LiteralFalse(p: Pred) {
    p == Cmp(IntLit(1), Eq, IntLit(0))
  }

  /** Two integer literals are compared only in the canonical forms; no conjunction has a true side and no disjunction a false
    one; and the side that would decide the whole is left only beside an operand that owns a subquery. */
  predicate Folded(p: Pred) {
    match p
    case Cmp(l, _, r) => l.IntLit? && r.IntLit? ==> LiteralTrue(p) || LiteralFalse(p)
    case And(l, r) =>
      && Folded(l) && Folded(r) && !LiteralTrue(l) && !LiteralTrue(r)
      && (LiteralFalse(l) ==> Owned(r) != {}) && (LiteralFalse(r) ==> Owned(l) != {})
    case Or(l, r) =>
      && Folded(l) && Folded(r) && !LiteralFalse(l) && !LiteralFalse(r)
      && (LiteralTrue(l) ==> Owned(r) != {}) && (LiteralTrue(r) ==> Owned(l) != {})
    case _ => true
  }

  /** Folding reports a change exactly on predicates that are not folded yet, and always reaches a folded one. */
  lemma {:induction false} FoldReaches(p: Pred)
    ensures Fold(p).1 <==> !Folded(p)
    ensures Folded(Fold(p).0)
  {
    match p
    case And(l, r) =>
      FoldReaches(l);
      FoldReaches(r);
      FoldLowers(l);
      FoldLowers(r);
      OwnsExactly(Fold(l).0);
      OwnsExactly(Fold(r).0);
    case Or(l, r) =>
      FoldReaches(l);
      FoldReaches(r);
      FoldLowers(l);
      FoldLowers(r);
      OwnsExactly(Fold(l).0);
      OwnsExactly(Fold(r).0);
    case _ =>
  }

  /** A literal comparison folds to the truth of the comparison. */
  lemma LiteralFolds(a: int64, op: CmpOp, b: int64)
    ensures var p := Fold(Cmp(IntLit(a), op, IntLit(b))).0;
            var holds := match op case Eq => a == b case Ne => a != b case Lt => a < b case Le => a <= b case Gt => a > b case Ge => a >= b;
            if holds then LiteralTrue(p) else LiteralFalse(p)
  {
  }

  /** A filter that stands as it is. */
  predicate SettledFilter(preds: seq<Pred>, kid: Plan) {
    && (forall i | 0 <= i < |preds| :: Folded(preds[i]) && !LiteralTrue(preds[i]))
    && ((exists i | 0 <= i < |preds| :: LiteralFalse(preds[i])) ==> |preds| == 1 || exists i | 0 <= i < |preds| :: Owned(preds[i]) != {})
    && !(kid.op.Filter? && |kid.kids| == 1)
  }

  predicate Settled(p: Plan)
    decreases p
  {
    && (p.op.Filter? && |p.kids| == 1 ==> SettledFilter(p.op.preds, p.kids[0]))
    && forall i | 0 <= i < |p.kids| :: Settled(p.kids[i])
  }

  lemma RulesSettle(p: Plan)
    ensures (forall i | 0 <= i < |DEFAULT_RULES| :: Apply(DEFAULT_RULES[i], p).None?) <==>
            (p.op.Filter? && |p.kids| == 1 ==> SettledFilter(p.op.preds, p.kids[0]))
  {
    assert DEFAULT_RULES[0] == ConstantFold && DEFAULT_RULES[1] == MergeAdjacentFilters;
    assert DEFAULT_RULES[2] == AlwaysFalseFilter && DEFAULT_RULES[3] == DropAlwaysTrueFilter;
    if p.op.Filter? && |p.kids| == 1 {
      var preds := p.op.preds;
      forall i | 0 <= i < |preds| ensures (Fold(preds[i]).1 <==> !Folded(preds[i])) && (ContainsSubquery(preds[i]) <==> Owned(preds[i]) != {}) {
        FoldReaches(preds[i]);
        OwnsExactly(preds[i]);
      }
      hide Fold, Folded, ContainsSubquery, Owned;
      assert CANONICAL_TRUE in preds <==> exists i | 0 <= i < |preds| :: LiteralTrue(preds[i]);
      assert CANONICAL_FALSE in preds <==> exists i | 0 <= i < |preds| :: LiteralFalse(preds[i]);
    }
  }

  /** The fixpoints of the default rules are exactly the settled plans. */
  lemma {:induction false} FixpointsAreSettled(p: Plan)
    ensures AtFixpoint(p) <==> Settled(p)
    decreases p
  {
    hide Apply, SettledFilter;
    RulesSettle(p);
    forall i | 0 <= i < |p.kids| ensures AtFixpoint(p.kids[i]) <==> Settled(p.kids[i]) {
      FixpointsAreSettled(p.kids[i]);
    }
  }

  lemma {:induction false} WithoutTrueBag(ps: seq<Pred>, q: Pred)
    ensures multiset(WithoutTrue(ps))[q] == if LiteralTrue(q) then 0 else multiset(ps)[q]
  {
    if ps != [] {
      var n := |ps| - 1;
      assert ps == ps[..n] + [ps[n]];
      WithoutTrueBag(ps[..n], q);
      assert WithoutTrue(ps[..n]) + [] == WithoutTrue(ps[..n]);
    }
  }

  /** What the rules make of a filter: merging keeps the lower filter's conjuncts first, a false conjunct replaces the whole
    list, dropping removes exactly the true ones, and folding leaves every conjunct folded. */
  lemma RulesBuild(rule: Rule, p: Plan)
    requires Apply(rule, p).Some?
    ensures var preds, kid, r := p.op.preds, p.kids[0], Apply(rule, p).value;
            match rule
            case MergeAdjacentFilters => r == Node(p.perm, Filter(kid.op.preds + preds), kid.kids)
            case AlwaysFalseFilter =>
              (exists i :: 0 <= i < |preds| && LiteralFalse(preds[i])) && r.op.Filter? && r.kids == p.kids &&
              |r.op.preds| == 1 && LiteralFalse(r.op.preds[0])
            case DropAlwaysTrueFilter =>
              if r == kid then forall i | 0 <= i < |preds| :: LiteralTrue(preds[i])
              else r.op.Filter? && r.kids == p.kids &&
                   forall q :: multiset(r.op.preds)[q] == if LiteralTrue(q) then 0 else multiset(preds)[q]
            case ConstantFold => r.op.Filter? && r.kids == p.kids && |r.op.preds| == |preds| &&
                                 forall i | 0 <= i < |preds| :: Folded(r.op.preds[i])
  {
    var preds := p.op.preds;
    match rule
    case ConstantFold =>
      forall i | 0 <= i < |preds| ensures Folded(Fold(preds[i]).0) {
        FoldReaches(preds[i]);
      }
    case MergeAdjacentFilters =>
    case AlwaysFalseFilter => assert exists i :: 0 <= i < |preds| && LiteralFalse(preds[i]);
    case DropAlwaysTrueFilter => DropBuilds(p);
  }

  lemma DropBuilds(p: Plan)
    requires Apply(DropAlwaysTrueFilter, p).Some?
    ensures var preds, kid, r := p.op.preds, p.kids[0], Apply(DropAlwaysTrueFilter, p).value;
            if r == kid then forall i | 0 <= i < |preds| :: LiteralTrue(preds[i])
            else r.op.Filter? && r.kids == p.kids &&
                 forall q :: multiset(r.op.preds)[q] == if LiteralTrue(q) then 0 else multiset(preds)[q]
  {
    var preds := p.op.preds;
    if WithoutTrue(preds) == [] {
      forall i | 0 <= i < |preds| ensures LiteralTrue(preds[i]) {
        assert preds[i] in preds;
      }
    } else {
      assert p.kids == [p.kids[0]];
      forall q ensures multiset(WithoutTrue(preds))[q] == if LiteralTrue(q) then 0 else multiset(preds)[q] {
        WithoutTrueBag(preds, q);
      }
    }
  }
}
