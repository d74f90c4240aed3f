/** The rewrite rules that run before memo exploration: folding literal comparisons, merging adjacent
  filters, and dropping trivial ones, applied bottom-up until none fires.
 */
module FilterRules {
  import opened Plans
  import opened Values

  const CANONICAL_TRUE: Pred := Cmp(IntLit(1), Eq, IntLit(1))
  const CANONICAL_FALSE: Pred := Cmp(IntLit(1), Eq, IntLit(0))

  predicate CompareInts(a: int, op: CmpOp, b: int) {
    match op
    case Eq => a == b
    case Ne => a != b
    case Lt => a < b
    case Le => a <= b
    case Gt => a > b
    case Ge => a >= b
  }

  predicate ContainsSubquery(p: Pred) {
    match p
    case Cmp(l, _, r) => l.ScalarQuery? || r.ScalarQuery?
    case IsNull(e) => e.ScalarQuery?
    case IsNotNull(e) => e.ScalarQuery?
    case And(l, r) => ContainsSubquery(l) || ContainsSubquery(r)
    case Or(l, r) => ContainsSubquery(l) || ContainsSubquery(r)
    case _ => true
  }

  /** A folded conjunction: false absorbs, true disappears. */
  function FoldAnd(x: (Pred, bool), y: (Pred, bool)): (Pred, bool) {
    var (a, b) := (x.0, y.0);
    if (a == CANONICAL_FALSE || b == CANONICAL_FALSE) &&
       !((a == CANONICAL_FALSE && ContainsSubquery(b)) || (b == CANONICAL_FALSE && ContainsSubquery(a))) then (CANONICAL_FALSE, true)
    else if a == CANONICAL_TRUE then (b, true)
    else if b == CANONICAL_TRUE then (a, true)
    else (And(a, b), x.1 || y.1)
  }

  /** A folded disjunction: true absorbs, false disappears. */
  function FoldOr(x: (Pred, bool), y: (Pred, bool)): (Pred, bool) {
    var (a, b) := (x.0, y.0);
    if (a == CANONICAL_TRUE || b == CANONICAL_TRUE) &&
       !((a == CANONICAL_TRUE && ContainsSubquery(b)) || (b == CANONICAL_TRUE && ContainsSubquery(a))) then (CANONICAL_TRUE, true)
    else if a == CANONICAL_FALSE then (b, true)
    else if b == CANONICAL_FALSE then (a, true)
    else (Or(a, b), x.1 || y.1)
  }

  /** The folded tree, and whether anything was folded. An operand that owns a subquery is never dropped:
    its eager evaluation may still fail the query. */
  function Fold(p: Pred): (Pred, bool) {
    match p
    case Cmp(l, op, r) =>
      if p == CANONICAL_TRUE || p == CANONICAL_FALSE || !l.IntLit? || !r.IntLit? then (p, false)
      else (if CompareInts(l.i, op, r.i) then CANONICAL_TRUE else CANONICAL_FALSE, true)
    case And(l, r) => FoldAnd(Fold(l), Fold(r))
    case Or(l, r) => FoldOr(Fold(l), Fold(r))
    case _ => (p, false)
  }

  function FoldAll(ps: seq<Pred>): (r: (seq<Pred>, bool))
    ensures |r.0| == |ps| && forall i | 0 <= i < |ps| :: r.0[i] == Fold(ps[i]).0
    ensures r.1 <==> exists i | 0 <= i < |ps| :: Fold(ps[i]).1
  {
    if ps == [] then ([], false)
    else
      var n := |ps| - 1;
      var (init, changed) := FoldAll(ps[..n]);
      (init + [Fold(ps[n]).0], changed || Fold(ps[n]).1)
  }

  function WithoutTrue(ps: seq<Pred>): (r: seq<Pred>)
    ensures forall p :: p in r <==> p in ps && p != CANONICAL_TRUE
    ensures |r| <= |ps|
  {
    if ps == [] then []
    else
      assert ps == ps[..|ps| - 1] + [ps[|ps| - 1]];
      WithoutTrue(ps[..|ps| - 1]) + if ps[|ps| - 1] == CANONICAL_TRUE then [] else [ps[|ps| - 1]]
  }

  datatype Rule = ConstantFold | MergeAdjacentFilters | AlwaysFalseFilter | DropAlwaysTrueFilter

  const DEFAULT_RULES: seq<Rule> := [ConstantFold, MergeAdjacentFilters, AlwaysFalseFilter, DropAlwaysTrueFilter]

  /** One rule at the root of a plan. */
  function Apply(rule: Rule, p: Plan): Option<Plan> {
    if !p.op.Filter? || |p.kids| != 1 then None
    else
      var preds, kid := p.op.preds, p.kids[0];
      match rule
      case ConstantFold =>
        var (folded, changed) := FoldAll(preds);
        if changed then Some(p.(op := Filter(folded))) else None
      case MergeAdjacentFilters =>
        if kid.op.Filter? && |kid.kids| == 1 then Some(Node(p.perm, Filter(kid.op.preds + preds), kid.kids)) else None
      case AlwaysFalseFilter =>
        if CANONICAL_FALSE !in preds || (exists i | 0 <= i < |preds| :: ContainsSubquery(preds[i])) || |preds| == 1 then None
        else Some(Node(p.perm, Filter([CANONICAL_FALSE]), [kid]))
      case DropAlwaysTrueFilter =>
        if CANONICAL_TRUE !in preds then None
        else if WithoutTrue(preds) == [] then Some(kid)
        else Some(Node(p.perm, Filter(WithoutTrue(preds)), [kid]))
  }

  /** The first default rule that fires at the root. */
  function FirstRule(rules: seq<Rule>, p: Plan): Option<(Rule, Plan)> {
    if rules == [] then None
    else
      match Apply(rules[0], p)
      case Some(q) => Some((rules[0], q))
      case None => FirstRule(rules[1..], p)
  }

  /** One pass: the first firing, children first and left before right. */
  function RewriteOnce(p: Plan): Option<(Rule, Plan)>
    decreases p, 1
  {
    match RewriteKid(p, 0)
    case Some(q) => Some(q)
    case None => FirstRule(DEFAULT_RULES, p)
  }

  function RewriteKid(p: Plan, i: nat): Option<(Rule, Plan)>
    decreases p, 0, |p.kids| - i
  {
    if i >= |p.kids| then None
    else
      match RewriteOnce(p.kids[i])
      case Some(q) => Some((q.0, p.(kids := p.kids[i := q.1])))
      case None => RewriteKid(p, i + 1)
  }

  // ---------------------------------------------------------------- the measure

  /** Predicate nodes, plus one for each literal comparison that is not canonical yet. */
  function Weight(p: Pred): (w: nat)
    ensures w >= 1
  {
    match p
    case Cmp(l, _, r) => if l.IntLit? && r.IntLit? && p != CANONICAL_TRUE && p != CANONICAL_FALSE then 2 else 1
    case And(l, r) => 1 + Weight(l) + Weight(r)
    case Or(l, r) => 1 + Weight(l) + Weight(r)
    case _ => 1
  }

  function WeightAll(ps: seq<Pred>): (w: nat)
    ensures w >= |ps|
  {
    if ps == [] then 0 else WeightAll(ps[..|ps| - 1]) + Weight(ps[|ps| - 1])
  }

  function OpMeasure(op: Op): nat {
    if op.Filter? then 1 + WeightAll(op.preds) else 0
  }

  /** Filter nodes plus the weight of their predicates, over the relational nodes. */
  function Measure(p: Plan): nat
    decreases p
  {
    OpMeasure(p.op) + KidsMeasure(p.kids)
  }

  function KidsMeasure(kids: seq<Plan>): nat
    decreases kids
  {
    if kids == [] then 0 else KidsMeasure(kids[..|kids| - 1]) + Measure(kids[|kids| - 1])
  }

  lemma {:induction false} FoldLowers(p: Pred)
    ensures !Fold(p).1 ==> Fold(p).0 == p
    ensures Fold(p).1 ==> Weight(Fold(p).0) < Weight(p)
  {
    match p
    case And(l, r) =>
      FoldLowers(l);
      FoldLowers(r);
      NodeLowers(l, r, Fold(l), Fold(r));
    case Or(l, r) =>
      FoldLowers(l);
      FoldLowers(r);
      NodeLowers(l, r, Fold(l), Fold(r));
    case _ =>
  }

  lemma NodeLowers(l: Pred, r: Pred, a: (Pred, bool), b: (Pred, bool))
    requires (!a.1 ==> a.0 == l) && (a.1 ==> Weight(a.0) < Weight(l))
    requires (!b.1 ==> b.0 == r) && (b.1 ==> Weight(b.0) < Weight(r))
    ensures !FoldAnd(a, b).1 ==> FoldAnd(a, b).0 == And(l, r)
    ensures FoldAnd(a, b).1 ==> Weight(FoldAnd(a, b).0) < Weight(And(l, r))
    ensures !FoldOr(a, b).1 ==> FoldOr(a, b).0 == Or(l, r)
    ensures FoldOr(a, b).1 ==> Weight(FoldOr(a, b).0) < Weight(Or(l, r))
  {
  }

  lemma {:induction false} FoldAllLowers(ps: seq<Pred>)
    ensures WeightAll(FoldAll(ps).0) <= WeightAll(ps)
    ensures FoldAll(ps).1 ==> WeightAll(FoldAll(ps).0) < WeightAll(ps)
  {
    if ps != [] {
      var n := |ps| - 1;
      FoldAllLowers(ps[..n]);
      FoldLowers(ps[n]);
      assert FoldAll(ps).0[..n] == FoldAll(ps[..n]).0;
    }
  }

  lemma {:induction false} WeightAppend(ps: seq<Pred>, qs: seq<Pred>)
    ensures WeightAll(ps + qs) == WeightAll(ps) + WeightAll(qs)
  {
    if qs == [] {
      assert ps + qs == ps;
    } else {
      assert (ps + qs)[..|ps + qs| - 1] == ps + qs[..|qs| - 1];
      WeightAppend(ps, qs[..|qs| - 1]);
    }
  }

  lemma {:induction false} WithoutTrueLowers(ps: seq<Pred>)
    ensures WeightAll(WithoutTrue(ps)) <= WeightAll(ps)
    ensures CANONICAL_TRUE in ps ==> WeightAll(WithoutTrue(ps)) < WeightAll(ps)
  {
    if ps != [] {
      assert ps == ps[..|ps| - 1] + [ps[|ps| - 1]];
      WithoutTrueLowers(ps[..|ps| - 1]);
      var init := WithoutTrue(ps[..|ps| - 1]);
      assert (init + [ps[|ps| - 1]])[..|init|] == init;
      assert init + [] == init;
    }
  }

  lemma KidsMeasureOne(k: Plan)
    ensures KidsMeasure([k]) == Measure(k)
  {
    assert [k][..0] == [];
  }

  lemma ApplyLowers(rule: Rule, p: Plan)
    requires Apply(rule, p).Some?
    ensures Measure(Apply(rule, p).value) < Measure(p)
  {
    hide Fold;
    var preds, kid := p.op.preds, p.kids[0];
    assert p.kids == [kid];
    KidsMeasureOne(kid);
    match rule
    case ConstantFold => FoldAllLowers(preds);
    case MergeAdjacentFilters =>
      WeightAppend(kid.op.preds, preds);
    case AlwaysFalseFilter =>
      assert [CANONICAL_FALSE][..0] == [];
      assert WeightAll([CANONICAL_FALSE]) == 1;
    case DropAlwaysTrueFilter => WithoutTrueLowers(preds);
  }

  lemma {:induction false} FirstRuleApplies(rules: seq<Rule>, p: Plan)
    ensures match FirstRule(rules, p)
            case Some(q) => q.0 in rules && Apply(q.0, p) == Some(q.1)
            case None => forall i | 0 <= i < |rules| :: Apply(rules[i], p).None?
  {
    hide Apply;
    if rules != [] && Apply(rules[0], p).None? {
      FirstRuleApplies(rules[1..], p);
      assert forall i | 0 < i < |rules| :: rules[i] == rules[1..][i - 1];
    }
  }

  lemma {:induction false} KidsMeasureUpdate(kids: seq<Plan>, i: int, k: Plan)
    requires 0 <= i < |kids|
    ensures KidsMeasure(kids[i := k]) == KidsMeasure(kids) - Measure(kids[i]) + Measure(k)
    decreases |kids|
  {
    var n := |kids| - 1;
    if i < n {
      KidsMeasureUpdate(kids[..n], i, k);
      assert kids[i := k][..n] == kids[..n][i := k];
    } else {
      assert kids[i := k][..n] == kids[..n];
    }
  }

  /** Every firing strictly lowers the measure. */
  lemma {:induction false} RewriteLowers(p: Plan)
    ensures RewriteOnce(p).Some? ==> Measure(RewriteOnce(p).value.1) < Measure(p)
    decreases p, 1
  {
    hide FirstRule, Apply, OpMeasure;
    KidLowers(p, 0);
    if RewriteKid(p, 0).None? {
      FirstRuleApplies(DEFAULT_RULES, p);
      if FirstRule(DEFAULT_RULES, p).Some? {
        ApplyLowers(FirstRule(DEFAULT_RULES, p).value.0, p);
      }
    }
  }

  lemma {:induction false} KidLowers(p: Plan, i: nat)
    ensures RewriteKid(p, i).Some? ==> Measure(RewriteKid(p, i).value.1) < Measure(p)
    decreases p, 0, |p.kids| - i
  {
    hide FirstRule, Apply, OpMeasure;
    if i < |p.kids| {
      RewriteLowers(p.kids[i]);
      match RewriteOnce(p.kids[i])
      case Some(q) => KidsMeasureUpdate(p.kids, i, q.1);
      case None => KidLowers(p, i + 1);
    }
  }

  /** No default rule applies at any relational node. */
  ghost predicate AtFixpoint(p: Plan)
    decreases p
  {
    && (forall i | 0 <= i < |DEFAULT_RULES| :: Apply(DEFAULT_RULES[i], p).None?)
    && (forall i | 0 <= i < |p.kids| :: AtFixpoint(p.kids[i]))
  }

  /** A pass finds nothing exactly at a fixpoint. */
  lemma {:induction false} NothingFiresAtFixpoint(p: Plan)
    ensures RewriteOnce(p).None? <==> AtFixpoint(p)
    decreases p, 1
  {
    hide Apply, FirstRule;
    KidsAtFixpoint(p, 0);
    FirstRuleApplies(DEFAULT_RULES, p);
    if FirstRule(DEFAULT_RULES, p).Some? {
      var rule := FirstRule(DEFAULT_RULES, p).value.0;
      var i :| 0 <= i < |DEFAULT_RULES| && DEFAULT_RULES[i] == rule;
      assert Apply(DEFAULT_RULES[i], p).Some?;
    }
  }

  lemma {:induction false} KidsAtFixpoint(p: Plan, i: nat)
    ensures RewriteKid(p, i).None? <==> forall k | i <= k < |p.kids| :: AtFixpoint(p.kids[k])
    decreases p, 0, |p.kids| - i
  {
    hide Apply, FirstRule;
    if i < |p.kids| {
      NothingFiresAtFixpoint(p.kids[i]);
      if RewriteOnce(p.kids[i]).None? {
        KidsAtFixpoint(p, i + 1);
      }
    }
  }
}
