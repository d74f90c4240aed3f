/** Turning a correlated subquery whose correlation is a list of equalities into the right side of a join:
  the inner columns are exposed under hidden names and compared with the owner's columns by the join.
 */
module Decorrelation {
  import opened Plans
  import opened Sequences
  import opened Correlation
  import Semantics

  // ---------------------------------------------------------------- who needs the owner's row

  predicate DeeperThanOwner(cs: seq<ColumnRef>) {
    exists i | 0 <= i < |cs| :: cs[i].depth > 1
  }

  predicate ScalarReferencesOuter(e: Scalar) {
    match e
    case Column(c) => c.depth != 0
    case ScalarQuery(sub, _) => DeeperThanOwner(sub.corr)
    case _ => false
  }

  predicate PredReferencesOuter(p: Pred) {
    match p
    case Cmp(l, _, r) => ScalarReferencesOuter(l) || ScalarReferencesOuter(r)
    case IsNull(e) => ScalarReferencesOuter(e)
    case IsNotNull(e) => ScalarReferencesOuter(e)
    case In(e, sub) => ScalarReferencesOuter(e) || DeeperThanOwner(sub.corr)
    case NotIn(e, sub) => ScalarReferencesOuter(e) || DeeperThanOwner(sub.corr)
    case Exists(sub) => DeeperThanOwner(sub.corr)
    case NotExists(sub) => DeeperThanOwner(sub.corr)
    case And(l, r) => PredReferencesOuter(l) || PredReferencesOuter(r)
    case Or(l, r) => PredReferencesOuter(l) || PredReferencesOuter(r)
  }

  predicate OpReferencesOuter(op: Op) {
    match op
    case Filter(preds) => exists i | 0 <= i < |preds| :: PredReferencesOuter(preds[i])
    case Project(projs) => exists i | 0 <= i < |projs| :: ScalarReferencesOuter(projs[i].expr)
    case Join(_, on, membership) =>
      (exists i | 0 <= i < |on| :: PredReferencesOuter(on[i])) || (membership.Some? && PredReferencesOuter(membership.value))
    case _ => exists i | 0 <= i < |Semantics.OwnColumns(op)| :: Semantics.OwnColumns(op)[i].depth != 0
  }

  predicate PlanReferencesOuter(p: Plan)
    decreases p
  {
    OpReferencesOuter(p.op) || exists i | 0 <= i < |p.kids| :: PlanReferencesOuter(p.kids[i])
  }

  lemma DeeperSnoc(cs: seq<ColumnRef>)
    requires cs != []
    ensures DeeperThanOwner(cs) <==> DeeperThanOwner(cs[..|cs| - 1]) || cs[|cs| - 1].depth > 1
  {
    var n := |cs| - 1;
    var init := cs[..n];
    if DeeperThanOwner(cs) {
      var i :| 0 <= i < |cs| && cs[i].depth > 1;
      assert i < n ==> init[i].depth > 1;
    }
    if DeeperThanOwner(init) {
      var i :| 0 <= i < n && init[i].depth > 1;
      assert cs[i].depth > 1;
    }
  }

  lemma {:induction false} RebasedEmpty(cs: seq<ColumnRef>)
    ensures Rebased(cs) == [] <==> !DeeperThanOwner(cs)
  {
    hide DeeperThanOwner;
    if cs == [] {
      NothingDeeper();
    } else {
      RebasedEmpty(cs[..|cs| - 1]);
      DeeperSnoc(cs);
    }
  }

  lemma NothingDeeper()
    ensures !DeeperThanOwner([])
  {
  }

  lemma {:induction false} NoOuterColumns(cs: seq<ColumnRef>)
    requires forall i | 0 <= i < |cs| :: cs[i].depth == 0
    ensures OuterOnly(cs) == []
  {
    if cs != [] { NoOuterColumns(cs[..|cs| - 1]); }
  }

  lemma ScalarNeedsOwner(e: Scalar)
    ensures ScalarCorr(e) == [] <==> !ScalarReferencesOuter(e)
  {
    match e
    case Column(c) =>
      assert c.depth != 0 ==> c in OuterOnly([c]);
      assert OuterOnly([c]) != [] ==> OuterOnly([c])[0] in OuterOnly([c]);
    case ScalarQuery(sub, _) => RebasedEmpty(sub.corr);
    case _ =>
  }

  lemma {:induction false} PredNeedsOwner(p: Pred)
    ensures PredCorr(p) == [] <==> !PredReferencesOuter(p)
  {
    hide ScalarCorr, ScalarReferencesOuter, Rebased, DeeperThanOwner;
    match p
    case Cmp(l, _, r) => ScalarNeedsOwner(l); ScalarNeedsOwner(r);
    case IsNull(e) => ScalarNeedsOwner(e);
    case IsNotNull(e) => ScalarNeedsOwner(e);
    case In(e, sub) => ScalarNeedsOwner(e); RebasedEmpty(sub.corr);
    case NotIn(e, sub) => ScalarNeedsOwner(e); RebasedEmpty(sub.corr);
    case Exists(sub) => RebasedEmpty(sub.corr);
    case NotExists(sub) => RebasedEmpty(sub.corr);
    case And(l, r) => PredNeedsOwner(l); PredNeedsOwner(r);
    case Or(l, r) => PredNeedsOwner(l); PredNeedsOwner(r);
  }

  lemma {:induction false} PredsNeedOwner(ps: seq<Pred>)
    requires forall i | 0 <= i < |ps| :: !PredReferencesOuter(ps[i])
    ensures PredsCorr(ps) == []
  {
    if ps != [] {
      PredsNeedOwner(ps[..|ps| - 1]);
      PredNeedsOwner(ps[|ps| - 1]);
    }
  }

  lemma {:induction false} ProjsNeedOwner(projs: seq<Projection>)
    requires forall i | 0 <= i < |projs| :: !ScalarReferencesOuter(projs[i].expr)
    ensures ProjsCorr(projs) == []
  {
    if projs != [] {
      ProjsNeedOwner(projs[..|projs| - 1]);
      ScalarNeedsOwner(projs[|projs| - 1].expr);
    }
  }

  lemma OpNeedsOwner(op: Op)
    requires !OpReferencesOuter(op)
    ensures OpCorr(op) == []
  {
    match op
    case Filter(preds) => PredsNeedOwner(preds);
    case Project(projs) => ProjsNeedOwner(projs);
    case Join(_, on, membership) =>
      PredsNeedOwner(on);
      if membership.Some? { PredNeedsOwner(membership.value); }
    case _ => NoOuterColumns(Semantics.OwnColumns(op));
  }

  /** A plan without outer references has an empty correlation set. */
  lemma {:induction false} PlanNeedsOwner(p: Plan)
    requires !PlanReferencesOuter(p)
    ensures PlanCorr(p) == []
    decreases p, 1
  {
    OpNeedsOwner(p.op);
    KidsNeedOwner(p, p.kids);
  }

  lemma {:induction false} KidsNeedOwner(p: Plan, kids: seq<Plan>)
    requires kids <= p.kids && forall i | 0 <= i < |p.kids| :: !PlanReferencesOuter(p.kids[i])
    ensures KidsCorr(kids) == []
    decreases p, 0, |kids|
  {
    if kids != [] {
      var n := |kids| - 1;
      KidsNeedOwner(p, kids[..n]);
      assert kids[n] == p.kids[n];
      PlanNeedsOwner(kids[n]);
    }
  }

  // ---------------------------------------------------------------- fresh names

  function DigitString(n: nat): string {
    if n < 10 then ["0123456789"[n]] else DigitString(n / 10) + ["0123456789"[n % 10]]
  }

  /** Appends underscores until the name is unused. */
  function Fresh(name: string, taken: set<string>): (r: string)
    ensures r !in taken
    decreases |Longer(taken, |name|)|
  {
    if name !in taken then name
    else
      assert name in Longer(taken, |name|) && name !in Longer(taken, |name| + 1);
      assert Longer(taken, |name| + 1) < Longer(taken, |name|);
      SubsetIsSmaller(Longer(taken, |name| + 1), Longer(taken, |name|));
      Fresh(name + "_", taken)
  }

  function Longer(names: set<string>, n: nat): set<string> {
    set s | s in names && |s| >= n
  }

  lemma SubsetIsSmaller(a: set<string>, b: set<string>)
    requires a < b
    ensures |a| < |b|
  {
    var x :| x in b && x !in a;
    assert a <= b - {x};
    SubsetSize(a, b - {x});
  }

  lemma {:induction false} SubsetSize(a: set<string>, b: set<string>)
    requires a <= b
    ensures |a| <= |b|
    decreases |a|
  {
    if a != {} {
      var x :| x in a;
      SubsetSize(a - {x}, b - {x});
    }
  }

  /** One hidden name per equality, none of them taken and none repeated. */
  function HiddenNames(n: nat, taken: set<string>): (r: seq<string>)
    ensures |r| == n && forall i | 0 <= i < n :: r[i] !in taken
    ensures Unrepeated(r)
  {
    if n == 0 then []
    else
      var init := HiddenNames(n - 1, taken);
      var used := set i | 0 <= i < |init| :: init[i];
      init + [Fresh("__corr_key_" + DigitString(n - 1), taken + used)]
  }

  /** The computed output names a plan may expose. */
  function ComputedNames(p: Plan): set<string>
    decreases p
  {
    match p.op
    case Scan(_, _) => {}
    case Project(projs) => set i | 0 <= i < |projs| :: projs[i].name
    case Aggregate(keys, aggs) =>
      (set i | 0 <= i < |keys| && keys[i].id.binding == "" :: keys[i].id.column) + (set i | 0 <= i < |aggs| :: aggs[i].name)
    case Window(wins) => (if p.kids == [] then {} else ComputedNames(p.kids[0])) + (set i | 0 <= i < |wins| :: wins[i].name)
    case Join(kind, _, _) =>
      (if p.kids == [] then {} else ComputedNames(p.kids[0])) +
      (if |p.kids| < 2 || (kind != Inner && kind != Left) then {} else ComputedNames(p.kids[1]))
    case _ => if p.kids == [] then {} else ComputedNames(p.kids[0])
  }

  // ---------------------------------------------------------------- the transformation

  datatype Equality = Equality(outer: ColumnRef, inner: ColumnRef)

  /** An equality between an owner column and a column of the subquery's own block. */
  function CorrelationEquality(p: Pred): Option<Equality> {
    if !p.Cmp? || p.op != Eq || !p.lhs.Column? || !p.rhs.Column? then None
    else if p.lhs.col.depth == 1 && p.rhs.col.depth == 0 then Some(Equality(p.lhs.col, p.rhs.col))
    else if p.rhs.col.depth == 1 && p.lhs.col.depth == 0 then Some(Equality(p.rhs.col, p.lhs.col))
    else None
  }

  function Residuals(ps: seq<Pred>): (r: seq<Pred>)
    ensures forall q :: q in r <==> q in ps && !PredReferencesOuter(q)
  {
    if ps == [] then []
    else
      assert ps == ps[..|ps| - 1] + [ps[|ps| - 1]];
      Residuals(ps[..|ps| - 1]) + if PredReferencesOuter(ps[|ps| - 1]) then [] else [ps[|ps| - 1]]
  }

  /** The correlation equalities, unless some correlated conjunct is of another form. */
  function Equalities(ps: seq<Pred>): Option<seq<Equality>> {
    if ps == [] then Some([])
    else
      match Equalities(ps[..|ps| - 1])
      case None => None
      case Some(init) =>
        if !PredReferencesOuter(ps[|ps| - 1]) then Some(init)
        else
          match CorrelationEquality(ps[|ps| - 1])
          case None => None
          case Some(e) => Some(init + [e])
  }

  predicate Covered(c: ColumnRef, es: seq<Equality>) {
    exists i | 0 <= i < |es| :: es[i].outer == c
  }

  datatype Decorrelated = Decorrelated(plan: Plan, on: seq<Pred>)

  function HiddenProjections(es: seq<Equality>, names: seq<string>): (r: seq<Projection>)
    requires |names| == |es|
    ensures |r| == |es| && forall i | 0 <= i < |r| :: r[i] == Projection(names[i], Column(es[i].inner))
  {
    seq(|es|, i requires 0 <= i < |es| => Projection(names[i], Column(es[i].inner)))
  }

  function JoinEqualities(es: seq<Equality>, names: seq<string>): (r: seq<Pred>)
    requires |names| == |es|
    ensures |r| == |es| && forall i | 0 <= i < |r| :: r[i] == JoinEquality(es[i], names[i])
  {
    seq(|es|, i requires 0 <= i < |es| => JoinEquality(es[i], names[i]))
  }

  function JoinEquality(e: Equality, name: string): Pred {
    Cmp(Column(e.outer.(depth := 0)), Eq, Column(ColumnRef(Ident("", name), e.inner.ty, 0)))
  }

  function ProjectionNames(projs: seq<Projection>): set<string> {
    set i | 0 <= i < |projs| :: projs[i].name
  }

  /** A projection of a filter of a scan or join: the shape the rule looks for. */
  predicate DecorrelatableShape(p: Plan) {
    && p.op.Project? && |p.kids| == 1 && p.kids[0].op.Filter? && |p.kids[0].kids| == 1
    && (p.kids[0].kids[0].op.Scan? || p.kids[0].kids[0].op.Join?)
  }

  /** The uncorrelated plan and the join predicates that replace the correlation; `avoid` holds names the
    owner exposes, when the rule checks them. */
  function DecorrelateEqualityWhere(sub: Subplan, avoid: set<string>): Option<Decorrelated> {
    var p := sub.plan;
    if sub.corr == [] || !DecorrelatableShape(p) then None
    else if (exists i | 0 <= i < |p.op.projs| :: ScalarReferencesOuter(p.op.projs[i].expr)) || PlanReferencesOuter(p.kids[0].kids[0]) then None
    else
      var filter := p.kids[0];
      match Equalities(filter.op.preds)
      case None => None
      case Some(es) =>
        if es == [] || exists i | 0 <= i < |sub.corr| :: !Covered(sub.corr[i], es) then None
        else
          var names := HiddenNames(|es|, ProjectionNames(p.op.projs) + avoid);
          var residuals := Residuals(filter.op.preds);
          var source := if residuals == [] then filter.kids[0] else filter.(op := Filter(residuals));
          Some(Decorrelated(p.(op := Project(p.op.projs + HiddenProjections(es, names)), kids := [source]), JoinEqualities(es, names)))
  }

  /** Splits the conjuncts: those that read the owner's row must all be equalities of the right form. */
  method SplitCorrelated(ps: seq<Pred>) returns (residuals: seq<Pred>, es: Option<seq<Equality>>)
    ensures es == Equalities(ps)
    ensures es.Some? ==> residuals == Residuals(ps)
  {
    residuals := [];
    var found: seq<Equality> := [];
    var i := 0;
    while i < |ps|
      invariant 0 <= i <= |ps|
      invariant residuals == Residuals(ps[..i]) && Equalities(ps[..i]) == Some(found)
    {
      assert ps[..i + 1][..i] == ps[..i];
      if !PredReferencesOuter(ps[i]) {
        residuals := residuals + [ps[i]];
      } else {
        match CorrelationEquality(ps[i]) {
          case None =>
            LaterNone(ps, i + 1);
            return residuals, None;
          case Some(e) => found := found + [e];
        }
        assert residuals + [] == residuals;
      }
      i := i + 1;
    }
    assert ps[..i] == ps;
    es := Some(found);
  }

  method NameKeys(n: nat, taken: set<string>) returns (names: seq<string>)
    ensures names == HiddenNames(n, taken)
  {
    names := [];
    while |names| < n
      invariant |names| <= n && names == HiddenNames(|names|, taken)
    {
      var used := set k | 0 <= k < |names| :: names[k];
      names := names + [Fresh("__corr_key_" + DigitString(|names|), taken + used)];
    }
  }

  method Decorrelate(sub: Subplan, avoid: set<string>) returns (r: Option<Decorrelated>)
    ensures r == DecorrelateEqualityWhere(sub, avoid)
  {
    var p := sub.plan;
    if sub.corr == [] || !DecorrelatableShape(p) {
      return None;
    }
    if (exists i | 0 <= i < |p.op.projs| :: ScalarReferencesOuter(p.op.projs[i].expr)) || PlanReferencesOuter(p.kids[0].kids[0]) {
      return None;
    }
    var filter := p.kids[0];
    var residuals, found := SplitCorrelated(filter.op.preds);
    if found.None? {
      return None;
    }
    var es := found.value;
    if es == [] || exists k | 0 <= k < |sub.corr| :: !Covered(sub.corr[k], es) {
      return None;
    }
    var names := NameKeys(|es|, ProjectionNames(p.op.projs) + avoid);
    var source := if residuals == [] then filter.kids[0] else filter.(op := Filter(residuals));
    r := Some(Decorrelated(p.(op := Project(p.op.projs + HiddenProjections(es, names)), kids := [source]), JoinEqualities(es, names)));
  }

  lemma {:induction false} LaterNone(ps: seq<Pred>, i: int)
    requires 0 <= i <= |ps| && Equalities(ps[..i]).None?
    ensures Equalities(ps).None?
  {
    if i == |ps| {
      assert ps[..i] == ps;
    } else {
      assert ps[..|ps| - 1][..i] == ps[..i];
      LaterNone(ps[..|ps| - 1], i);
    }
  }
}
