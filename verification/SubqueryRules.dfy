/** The rules that replace a correlated EXISTS, NOT EXISTS or NOT IN conjunct by a join, and exactly when the first
  two keep the outcome of a plan.
 */
module SubqueryRules {
  import opened Plans
  import opened Sequences
  import opened Values
  import opened Algebra
  import opened Semantics
  import opened Shapes
  import opened Schemas
  import opened Correlation
  import opened FilterRules
  import opened FilterRuleSoundness
  import opened RewriteFixpoint
  import opened JoinAlgebra
  import opened JoinRules
  import opened PlanRuns
  import opened Decorrelation
  import opened DecorrelationSoundness

  // ---------------------------------------------------------------- the rules

  function JoinInstead(p: Plan, i: int, kind: JoinKind, on: seq<Pred>, membership: Option<Pred>, right: Plan): Plan
    requires p.op.Filter? && |p.kids| == 1 && 0 <= i < |p.op.preds|
  {
    Filtered(p.perm, Others(p.op.preds, i), Node(p.perm, Join(kind, on, membership), [p.kids[0], right]))
  }

  predicate Conjunct(p: Plan, i: int) {
    p.op.Filter? && |p.kids| == 1 && 0 <= i < |p.op.preds|
  }

  function CorrelatedExistsToSemi(p: Plan, i: int): Option<Plan> {
    if !Conjunct(p, i) || !p.op.preds[i].Exists? then None
    else
      match DecorrelateEqualityWhere(p.op.preds[i].sub, {})
      case None => None
      case Some(d) => Some(JoinInstead(p, i, Semi, d.on, None, d.plan))
  }

  function CorrelatedNotExistsToAnti(p: Plan, i: int): Option<Plan> {
    if !Conjunct(p, i) || !p.op.preds[i].NotExists? then None
    else
      match DecorrelateEqualityWhere(p.op.preds[i].sub, {})
      case None => None
      case Some(d) => Some(JoinInstead(p, i, Anti, d.on, None, d.plan))
  }

  function InternalName(k: nat): string {
    "__not_in_value_" + DigitString(k)
  }

  predicate Digits(s: string) {
    forall i | 0 <= i < |s| :: '0' <= s[i] <= '9'
  }

  /** The number a digit string spells. */
  function ValueOf(s: string): nat {
    if s == [] || !('0' <= s[|s| - 1] <= '9') then 0 else ValueOf(s[..|s| - 1]) * 10 + (s[|s| - 1] as int - '0' as int)
  }

  lemma {:induction false} DigitsSpell(n: nat)
    ensures ValueOf(DigitString(n)) == n && DigitString(n) != []
  {
    var ds := "0123456789";
    assert forall d | 0 <= d < 10 :: '0' <= ds[d] <= '9' && ds[d] as int - '0' as int == d;
    if n < 10 {
      assert [ds[n]][..0] == [];
    } else {
      DigitsSpell(n / 10);
      assert (DigitString(n / 10) + [ds[n % 10]])[..|DigitString(n / 10)|] == DigitString(n / 10);
    }
  }

  /** The internal index of a name. */
  function IndexOfName(s: string): nat {
    var prefix := "__not_in_value_";
    if |s| < |prefix| then 0 else ValueOf(s[|prefix|..])
  }

  function FromIndex(taken: set<string>, k: nat): set<string> {
    set s | s in taken && IndexOfName(s) >= k
  }

  /** The first internal name that neither side uses. */
  function UniqueInternalName(k: nat, taken: set<string>): (r: string)
    ensures r !in taken
    decreases |FromIndex(taken, k)|
  {
    if InternalName(k) !in taken then InternalName(k)
    else
      DigitsSpell(k);
      assert InternalName(k)[|"__not_in_value_"|..] == DigitString(k);
      assert InternalName(k) in FromIndex(taken, k) && InternalName(k) !in FromIndex(taken, k + 1);
      assert FromIndex(taken, k + 1) < FromIndex(taken, k);
      SubsetIsSmaller(FromIndex(taken, k + 1), FromIndex(taken, k));
      UniqueInternalName(k + 1, taken)
  }

  predicate OwnsSubquery(p: Plan)
    decreases p
  {
    || (match p.op
        case Filter(preds) => exists i | 0 <= i < |preds| :: ContainsSubquery(preds[i])
        case Project(projs) => exists i | 0 <= i < |projs| :: projs[i].expr.ScalarQuery?
        case Join(_, on, membership) =>
          (exists i | 0 <= i < |on| :: ContainsSubquery(on[i])) || (membership.Some? && ContainsSubquery(membership.value))
        case _ => false)
    || exists i | 0 <= i < |p.kids| :: OwnsSubquery(p.kids[i])
  }

  /** The right plan and the column its members are read from; an alias is added when the owner may expose the
    column's own name. */
  function MembershipColumn(d: Decorrelated, output: Projection, avoid: set<string>): (Plan, string)
    requires d.plan.op.Project?
  {
    if output.name !in avoid then (d.plan, output.name)
    else
      var name := UniqueInternalName(0, avoid + ProjectionNames(d.plan.op.projs));
      (d.plan.(op := Project(d.plan.op.projs + [Projection(name, output.expr)])), name)
  }

  function MembershipTest(v: Scalar, name: string, ty: ColumnType): Pred {
    Cmp(v, Eq, Column(ColumnRef(Ident("", name), ty, 0)))
  }

  function CorrelatedNotInToNullAwareAnti(p: Plan, i: int): Option<Plan> {
    if !Conjunct(p, i) || !p.op.preds[i].NotIn? || p.op.preds[i].arg.ScalarQuery? || OwnsSubquery(p.op.preds[i].sub.plan) ||
       (exists k | 0 <= k < |p.op.preds| && k != i :: ContainsSubquery(p.op.preds[k])) || !p.op.preds[i].sub.plan.op.Project? ||
       |p.op.preds[i].sub.plan.op.projs| != 1 then None
    else
      var avoid := ComputedNames(p.kids[0]);
      match DecorrelateEqualityWhere(p.op.preds[i].sub, avoid)
      case None => None
      case Some(d) =>
        var output := p.op.preds[i].sub.plan.op.projs[0];
        var (right, name) := MembershipColumn(d, output, avoid);
        Some(JoinInstead(p, i, NullAwareAnti, d.on, Some(MembershipTest(p.op.preds[i].arg, name, output.expr.Type())), right))
  }

  // ---------------------------------------------------------------- names and projections

  lemma {:induction false} EqualityDepths(ps: seq<Pred>)
    ensures Equalities(ps).Some? ==> forall i | 0 <= i < |Equalities(ps).value| ::
              Equalities(ps).value[i].outer.depth == 1 && Equalities(ps).value[i].inner.depth == 0
  {
    if ps != [] {
      EqualityDepths(ps[..|ps| - 1]);
    }
  }

  lemma DistinctProjections(own: seq<Projection>, more: seq<Projection>)
    requires DistinctIds(ProjectHeader(own))
    requires forall i | 0 <= i < |more| :: more[i].name !in ProjectionNames(own)
    requires forall i, j | 0 <= i < j < |more| :: more[i].name != more[j].name
    ensures DistinctIds(ProjectHeader(own + more))
  {
    var all := own + more;
    var h := ProjectHeader(all);
    forall i, j | 0 <= i < j < |h| ensures h[i].id != h[j].id {
      if j < |own| {
        assert ProjectHeader(own)[i].id != ProjectHeader(own)[j].id;
      } else if i < |own| {
        assert own[i].name in ProjectionNames(own);
        assert all[j] == more[j - |own|];
      } else {
        assert all[i] == more[i - |own|] && all[j] == more[j - |own|];
      }
    }
  }

  /** The block of a conjunct, its equalities and hidden names. */
  ghost predicate DecorrelatedBlock(sub: Subplan, avoid: set<string>, es: seq<Equality>, names: seq<string>) {
    && DecorrelatableShape(sub.plan) && Equalities(sub.plan.kids[0].op.preds) == Some(es)
    && names == HiddenNames(|es|, ProjectionNames(sub.plan.op.projs) + avoid)
  }

  lemma DecorrelatedIs(sub: Subplan, avoid: set<string>) returns (es: seq<Equality>, names: seq<string>)
    requires DecorrelateEqualityWhere(sub, avoid).Some?
    ensures DecorrelatedBlock(sub, avoid, es, names) && |names| == |es|
    ensures DecorrelateEqualityWhere(sub, avoid).value.plan == RightPlan(sub, sub.plan.op.projs + HiddenProjections(es, names))
    ensures DecorrelateEqualityWhere(sub, avoid).value.on == JoinEqualities(es, names)
    ensures sub.corr != [] && !PlanReferencesOuter(Source(sub))
    ensures forall i | 0 <= i < |sub.plan.op.projs| :: !ScalarReferencesOuter(sub.plan.op.projs[i].expr)
  {
    hide PlanReferencesOuter, HiddenNames, Equalities, Residuals;
    es := Equalities(sub.plan.kids[0].op.preds).value;
    names := HiddenNames(|es|, ProjectionNames(sub.plan.op.projs) + avoid);
    var filter := sub.plan.kids[0];
    assert filter == Node(filter.perm, filter.op, [Source(sub)]);
  }

  lemma PrefixDistinct(own: seq<Projection>, more: seq<Projection>)
    requires DistinctIds(ProjectHeader(own + more))
    ensures DistinctIds(ProjectHeader(own))
  {
    var all := ProjectHeader(own + more);
    assert forall i | 0 <= i < |own| :: (own + more)[i] == own[i];
    forall i, j | 0 <= i < j < |own| ensures ProjectHeader(own)[i].id != ProjectHeader(own)[j].id {
      assert all[i].id != all[j].id;
    }
  }

  /** The hidden projections complete the block's own to right-side projections. */
  lemma HiddenComplete(sub: Subplan, avoid: set<string>, es: seq<Equality>, names: seq<string>, lh: seq<Field>, h: seq<Field>, db: Db)
    requires DecorrelatedBlock(sub, avoid, es, names) && |names| == |es| && BlockBound(sub, es, h, lh, db)
    ensures JoinBlock(sub, es, names, sub.plan.op.projs + HiddenProjections(es, names), lh, h, db)
  {
    hide HiddenNames, Equalities, PlanReferencesOuter, BoundSub, OutputColumns, Names, Has;
    var own, hidden := sub.plan.op.projs, HiddenProjections(es, names);
    EqualityDepths(sub.plan.kids[0].op.preds);
    hide BlockBound;
    forall i, j | 0 <= i < j < |hidden| ensures hidden[i].name != hidden[j].name {
      assert names[i] != names[j];
    }
    var projs := own + hidden;
    if DistinctIds(ProjectHeader(own)) {
      DistinctProjections(own, hidden);
    }
    if DistinctIds(ProjectHeader(projs)) {
      PrefixDistinct(own, hidden);
    }
    hide DistinctIds;
    assert forall i | 0 <= i < |es| :: projs[|own| + i] == hidden[i];
  }

  // ---------------------------------------------------------------- EXISTS and NOT EXISTS

  /** The equalities of a block of the rule's shape. */
  function EqualitiesOf(sub: Subplan): seq<Equality>
    requires DecorrelatableShape(sub.plan)
  {
    match Equalities(sub.plan.kids[0].op.preds) case None => [] case Some(es) => es
  }

  /** The columns of the rewritten conjunct resolve, as binding leaves them. */
  ghost predicate ConjunctBound(p: Plan, i: int, sub: Subplan, db: Db) {
    && Conjunct(p, i) && DecorrelatableShape(sub.plan) && OutputColumns(p.kids[0], db).Some?
    && BlockBound(sub, EqualitiesOf(sub), ColumnsOf(Source(sub), db), ColumnsOf(p.kids[0], db), db)
  }

  /** The names the rule gives to the hidden columns. */
  function HiddenOf(sub: Subplan, avoid: set<string>): (r: seq<string>)
    requires DecorrelatableShape(sub.plan)
    ensures |r| == |EqualitiesOf(sub)|
  {
    HiddenNames(|EqualitiesOf(sub)|, ProjectionNames(sub.plan.op.projs) + avoid)
  }

  /** The owner exposes none of the hidden column names. The rules for EXISTS and NOT EXISTS do not check it. */
  ghost predicate NamesFree(sub: Subplan, avoid: set<string>, lh: seq<Field>)
    requires DecorrelatableShape(sub.plan)
  {
    Unexposed(HiddenOf(sub, avoid), lh)
  }

  /** The other conjuncts are abandoned on a row. */
  ghost predicate SiblingFails(p: Plan, i: int, row: Row, outer: seq<Row>, db: Db)
    requires Conjunct(p, i)
  {
    EvalPreds(Others(p.op.preds, i), row, outer, db) == Error
  }

  /** The other conjuncts are true on a row. */
  ghost predicate SiblingPasses(p: Plan, i: int, row: Row, outer: seq<Row>, db: Db)
    requires Conjunct(p, i)
  {
    EvalPreds(Others(p.op.preds, i), row, outer, db) == True
  }

  /** Some source row matches an owner row. */
  ghost predicate Matches(sub: Subplan, row: Row, outer: seq<Row>, db: Db)
    requires DecorrelatableShape(sub.plan)
  {
    HasMatch(sub, EqualitiesOf(sub), row, outer, db)
  }

  /** The join sees some source row that matches an owner row. */
  ghost predicate Seen(sub: Subplan, row: Row, outer: seq<Row>, db: Db)
    requires DecorrelatableShape(sub.plan)
  {
    SeesMatch(sub, EqualitiesOf(sub), HiddenOf(sub, {}), row, outer, db)
  }

  /** With a right plan that runs: a sibling that fails on some owner row also fails on one that the join keeps; and where
    none fails, the join sees a match exactly where there is one, at least on the rows the siblings keep. */
  ghost predicate RowsAgree(p: Plan, i: int, sub: Subplan, owners: Rel, outer: seq<Row>, db: Db)
    requires Conjunct(p, i) && DecorrelatableShape(sub.plan)
  {
    if exists k :: 0 <= k < |owners.rows| && SiblingFails(p, i, owners.rows[k], outer, db) then
      exists k :: 0 <= k < |owners.rows| && SiblingFails(p, i, owners.rows[k], outer, db) &&
                  (Seen(sub, owners.rows[k], outer, db) <==> p.op.preds[i].Exists?)
    else
      forall k | 0 <= k < |owners.rows| && SiblingPasses(p, i, owners.rows[k], outer, db) ::
        Seen(sub, owners.rows[k], outer, db) <==> Matches(sub, owners.rows[k], outer, db)
  }

  /** Something fails for some owner row: a sibling, the part of the block that does not depend on the row, or the
    projection of a row that matches it. */
  ghost predicate OwnerRowFails(p: Plan, i: int, sub: Subplan, owners: Rel, outer: seq<Row>, db: Db)
    requires Conjunct(p, i) && DecorrelatableShape(sub.plan)
  {
    exists k :: 0 <= k < |owners.rows| &&
      (SiblingFails(p, i, owners.rows[k], outer, db) || !BaseRuns(sub, outer, db) || MatchFails(sub, EqualitiesOf(sub), owners.rows[k], outer, db))
  }

  /** When the rules for EXISTS and NOT EXISTS keep the outcome: if the right plan runs, they mask no sibling's failure
    and capture no name; if it does not, the original failed too. */
  ghost predicate ExistenceIsHarmless(p: Plan, i: int, sub: Subplan, outer: seq<Row>, db: Db)
    requires Conjunct(p, i) && DecorrelatableShape(sub.plan)
  {
    var owners := Run(p.kids[0], outer, db);
    owners.Ok? && PreparedPreds(Others(p.op.preds, i), outer, db) ==>
      if RightRuns(sub, outer, db) then RowsAgree(p, i, sub, owners.value, outer, db) else OwnerRowFails(p, i, sub, owners.value, outer, db)
  }

  lemma EqualitiesPrepared(es: seq<Equality>, names: seq<string>, outer: seq<Row>, db: Db)
    requires |names| == |es|
    ensures PreparedPreds(JoinEqualities(es, names), outer, db)
  {
    forall i | 0 <= i < |es| ensures PreparedPred(JoinEqualities(es, names)[i], outer, db) {
    }
  }

  /** The original and the rewritten plan, as filters over the owner's rows. */
  lemma RulePlans(p: Plan, i: int, kind: JoinKind, on: seq<Pred>, membership: Option<Pred>, right: Plan, outer: seq<Row>, db: Db)
    requires Conjunct(p, i) && Executable(Join(kind, on, membership)) && PreparedOp(Join(kind, on, membership), outer, db)
    ensures var owners, others := Run(p.kids[0], outer, db), Others(p.op.preds, i);
            && Run(p, outer, db) == (
                 if owners.Fails? || !PreparedPreds(p.op.preds, outer, db) then Fails else FilterRel(owners.value, PredsFn(p.op.preds, outer, db)))
            && Run(JoinInstead(p, i, kind, on, membership, right), outer, db) == (
                 if owners.Fails? || !PreparedPreds(others, outer, db) || Run(right, outer, db).Fails? then Fails
                 else
                   match JoinRel(kind, PredsFn(on, outer, db), MemberFn(membership, outer, db), owners.value, Run(right, outer, db).value)
                   case Fails => Fails
                   case Ok(joined) => FilterRel(joined, PredsFn(others, outer, db)))
  {
    var owner, others := p.kids[0], Others(p.op.preds, i);
    assert p == Node(p.perm, Filter(p.op.preds), [owner]);
    hide Run, PreparedPreds, FilterRel, JoinRel, PredsFn, MemberFn, Others, Filtered, Executable, PreparedOp;
    RunFilter(p.perm, p.op.preds, owner, outer, db);
    RunJoin(p.perm, Join(kind, on, membership), owner, right, outer, db);
    RunFiltered(p.perm, others, Node(p.perm, Join(kind, on, membership), [owner, right]), outer, db);
  }

  /** The truth of the rewritten conjunct on an owner row. */
  lemma ConjunctTruth(p: Plan, i: int, sub: Subplan, k: int, outer: seq<Row>, db: Db)
    requires ConjunctBound(p, i, sub, db) && (p.op.preds[i] == Exists(sub) || p.op.preds[i] == NotExists(sub))
    requires Run(p.kids[0], outer, db).Ok? && 0 <= k < |Run(p.kids[0], outer, db).value.rows|
    ensures var l := Run(p.kids[0], outer, db).value.rows[k];
            TruthAt(p.op.preds[i], outer, db)(l) ==
              if !BaseRuns(sub, outer, db) || MatchFails(sub, EqualitiesOf(sub), l, outer, db) then Error
              else TruthOf(Matches(sub, l, outer, db) <==> p.op.preds[i].Exists?)
  {
    hide Run, BaseRuns, MatchFails, HasMatch, BlockBound, EvalExists, RowFits, Equalities, OutputColumns, EqualitiesOf, ColumnsOf;
    RunFits(p.kids[0], outer, db);
    ExistsIs(sub, EqualitiesOf(sub), ColumnsOf(Source(sub), db), ColumnsOf(p.kids[0], db), Run(p.kids[0], outer, db).value.rows[k], outer, db);
  }

  /** What the join keeps of the owner's rows. */
  ghost function SeenAt(p: Plan, i: int, sub: Subplan, outer: seq<Row>, db: Db): Row -> Truth
    requires Conjunct(p, i) && DecorrelatableShape(sub.plan)
  {
    row => TruthOf(Seen(sub, row, outer, db) <==> p.op.preds[i].Exists?)
  }

  /** Where the right plan runs, the join is a filter by what it sees. */
  lemma ExistenceJoinIsFilter(p: Plan, i: int, kind: JoinKind, sub: Subplan, projs: seq<Projection>, outer: seq<Row>, db: Db)
    requires ConjunctBound(p, i, sub, db) && Run(p.kids[0], outer, db).Ok? && RightRuns(sub, outer, db)
    requires JoinBlock(sub, EqualitiesOf(sub), HiddenOf(sub, {}), projs, ColumnsOf(p.kids[0], db), ColumnsOf(Source(sub), db), db)
    requires (kind == Semi && p.op.preds[i] == Exists(sub)) || (kind == Anti && p.op.preds[i] == NotExists(sub))
    ensures JoinRel(kind, PredsFn(JoinEqualities(EqualitiesOf(sub), HiddenOf(sub, {})), outer, db), MemberFn(None, outer, db), Run(p.kids[0], outer, db).value,
                    Rel(ProjectHeader(projs), RightRows(sub, projs, outer, db))) ==
            FilterRel(Run(p.kids[0], outer, db).value, SeenAt(p, i, sub, outer, db))
  {
    hide Run, RightRuns, JoinBlock, RowFits, Equalities, OutputColumns, EqualitiesOf, ColumnsOf, PredsFn, MemberFn, Probe, JoinEqualities,
         BlockBound, RightRows, JoinRel, FilterRel, SeesMatch, WellFormedRel, HiddenOf;
    var es, names, owners := EqualitiesOf(sub), HiddenOf(sub, {}), Run(p.kids[0], outer, db).value;
    var f, m, u := PredsFn(JoinEqualities(es, names), outer, db), MemberFn(None, outer, db), SeenAt(p, i, sub, outer, db);
    var right := Rel(ProjectHeader(projs), RightRows(sub, projs, outer, db));
    RunFits(p.kids[0], outer, db);
    forall k | 0 <= k < |owners.rows|
      ensures u(owners.rows[k]) != Error
      ensures JoinOne(kind, f, m, right)(owners.rows[k]) == Ok(if u(owners.rows[k]) == True then [owners.rows[k]] else [])
    {
      ProbeSeesMatch(sub, es, names, projs, ColumnsOf(p.kids[0], db), ColumnsOf(Source(sub), db), owners.rows[k], outer, db);
    }
    JoinIsFilter(kind, f, m, owners, right, u);
  }

  lemma KeepSame(xs: seq<Row>, b: Row -> bool, c: Row -> bool)
    ensures Keep(xs, b) == Keep(xs, c) <==> forall k | 0 <= k < |xs| :: b(xs[k]) == c(xs[k])
  {
    hide Keep;
    if forall k | 0 <= k < |xs| :: b(xs[k]) == c(xs[k]) {
      KeepAgree(xs, b, c);
    }
    if Keep(xs, b) == Keep(xs, c) {
      KeptFrom(xs, b);
      KeptFrom(xs, c);
      forall k | 0 <= k < |xs| ensures b(xs[k]) == c(xs[k]) {
        if b(xs[k]) {
          KeptAt(xs, b, k);
        }
        if c(xs[k]) {
          KeptAt(xs, c, k);
        }
      }
    }
  }

  /** Filtering by `u` and then by `s` is filtering by `t` and `s` together exactly when a failure of `s` shows in both,
    and otherwise `u` and `t` agree on the rows that `s` keeps. */
  lemma TwoFiltersAgree(rel: Rel, t: Row -> Truth, u: Row -> Truth, s: Row -> Truth, both: Row -> Truth)
    requires forall k | 0 <= k < |rel.rows| :: t(rel.rows[k]) != Error && u(rel.rows[k]) != Error
    requires forall row :: both(row) == AndTruth(t(row), s(row))
    ensures FilterTwice(rel, u, s) == FilterRel(rel, both) <==>
              if exists k :: 0 <= k < |rel.rows| && s(rel.rows[k]) == Error
              then exists k :: 0 <= k < |rel.rows| && s(rel.rows[k]) == Error && u(rel.rows[k]) == True
              else forall k | 0 <= k < |rel.rows| && s(rel.rows[k]) == True :: u(rel.rows[k]) == True <==> t(rel.rows[k]) == True
    ensures (exists k :: 0 <= k < |rel.rows| && s(rel.rows[k]) == Error) ==> FilterRel(rel, both).Fails?
  {
    hide FilterRel, FilterTwice, Keep;
    TwiceFails(rel, u, s);
    BothFails(rel, t, s, both);
    if exists k :: 0 <= k < |rel.rows| && s(rel.rows[k]) == Error {
      var k :| 0 <= k < |rel.rows| && s(rel.rows[k]) == Error;
      assert HiddenFailure(rel, t, s) || VisibleFailure(rel, t, s);
    } else {
      NoFailureAgree(rel, t, u, s, both);
    }
  }

  lemma NoFailureAgree(rel: Rel, t: Row -> Truth, u: Row -> Truth, s: Row -> Truth, both: Row -> Truth)
    requires forall k | 0 <= k < |rel.rows| :: t(rel.rows[k]) != Error && u(rel.rows[k]) != Error && s(rel.rows[k]) != Error
    requires forall row :: both(row) == AndTruth(t(row), s(row))
    ensures FilterTwice(rel, u, s) == FilterRel(rel, both) <==>
              forall k | 0 <= k < |rel.rows| && s(rel.rows[k]) == True :: u(rel.rows[k]) == True <==> t(rel.rows[k]) == True
  {
    hide FilterTwice, Keep, FlatMap;
    var seen := (row: Row) => AndTruth(u(row), s(row));
    BothFails(rel, u, s, seen);
    BothAgree(rel, u, s, seen);
    FilterIsKeep(rel.rows, seen);
    FilterIsKeep(rel.rows, both);
    KeepSame(rel.rows, IsTrue(seen), IsTrue(both));
    forall k | 0 <= k < |rel.rows|
      ensures IsTrue(seen)(rel.rows[k]) == IsTrue(both)(rel.rows[k]) <==>
              (s(rel.rows[k]) == True ==> (u(rel.rows[k]) == True <==> t(rel.rows[k]) == True))
    {
    }
  }

  /** If the right plan runs, the rewritten plan filters by what the join sees and then by the others. */
  lemma HarmlessWhenRightRuns(p: Plan, i: int, sub: Subplan, owners: Rel, outer: seq<Row>, db: Db)
    requires ConjunctBound(p, i, sub, db) && (p.op.preds[i] == Exists(sub) || p.op.preds[i] == NotExists(sub))
    requires Run(p.kids[0], outer, db) == Ok(owners) && RightRuns(sub, outer, db)
    ensures (FilterTwice(owners, SeenAt(p, i, sub, outer, db), PredsFn(Others(p.op.preds, i), outer, db)) ==
             FilterRel(owners, PredsFn(p.op.preds, outer, db))) <==> RowsAgree(p, i, sub, owners, outer, db)
    ensures (exists k :: 0 <= k < |owners.rows| && SiblingFails(p, i, owners.rows[k], outer, db)) ==> FilterRel(owners, PredsFn(p.op.preds, outer, db)).Fails?
  {
    var t, u, s := TruthAt(p.op.preds[i], outer, db), SeenAt(p, i, sub, outer, db), PredsFn(Others(p.op.preds, i), outer, db);
    ConjunctionFn(p.op.preds, i, outer, db);
    PredsFnAt(Others(p.op.preds, i), outer, db);
    hide Run, EvalPred, EvalPreds, HasMatch, SeesMatch, BlockBound, Equalities, OutputColumns, EqualitiesOf, ColumnsOf, BaseRuns, FilterTwice, FilterRel, Others,
         EvalProjs, AllEqual, HiddenOf, TruthAt, PredsFn;
    forall k | 0 <= k < |owners.rows|
      ensures t(owners.rows[k]) == TruthOf(Matches(sub, owners.rows[k], outer, db) <==> p.op.preds[i].Exists?)
    {
      ConjunctTruth(p, i, sub, k, outer, db);
    }
    TwoFiltersAgree(owners, t, u, s, PredsFn(p.op.preds, outer, db));
    AgreeByRow(p, i, sub, owners, t, u, s, outer, db);
  }

  lemma AgreeByRow(p: Plan, i: int, sub: Subplan, owners: Rel, t: Row -> Truth, u: Row -> Truth, s: Row -> Truth, outer: seq<Row>, db: Db)
    requires Conjunct(p, i) && DecorrelatableShape(sub.plan) && u == SeenAt(p, i, sub, outer, db)
    requires forall row :: s(row) == EvalPreds(Others(p.op.preds, i), row, outer, db)
    requires forall k | 0 <= k < |owners.rows| :: t(owners.rows[k]) == TruthOf(Matches(sub, owners.rows[k], outer, db) <==> p.op.preds[i].Exists?)
    ensures (exists k :: 0 <= k < |owners.rows| && SiblingFails(p, i, owners.rows[k], outer, db)) <==> exists k :: 0 <= k < |owners.rows| && s(owners.rows[k]) == Error
    ensures RowsAgree(p, i, sub, owners, outer, db) <==>
              if exists k :: 0 <= k < |owners.rows| && s(owners.rows[k]) == Error
              then exists k :: 0 <= k < |owners.rows| && s(owners.rows[k]) == Error && u(owners.rows[k]) == True
              else forall k | 0 <= k < |owners.rows| && s(owners.rows[k]) == True :: u(owners.rows[k]) == True <==> t(owners.rows[k]) == True
  {
    hide EvalPreds, Matches, Seen, Others;
  }

  /** If the right plan does not run, the rewritten plan fails, and the original fails exactly where some owner row does. */
  lemma OriginalFails(p: Plan, i: int, sub: Subplan, owners: Rel, outer: seq<Row>, db: Db)
    requires ConjunctBound(p, i, sub, db) && (p.op.preds[i] == Exists(sub) || p.op.preds[i] == NotExists(sub))
    requires Run(p.kids[0], outer, db) == Ok(owners)
    ensures FilterRel(owners, PredsFn(p.op.preds, outer, db)).Fails? <==> OwnerRowFails(p, i, sub, owners, outer, db)
  {
    hide Run, EvalPred, EvalPreds, HasMatch, MatchFails, BlockBound, Equalities, OutputColumns, EqualitiesOf, ColumnsOf, BaseRuns, FilterRel, Others;
    var t, s := TruthAt(p.op.preds[i], outer, db), PredsFn(Others(p.op.preds, i), outer, db);
    ConjunctionFn(p.op.preds, i, outer, db);
    PredsFnAt(Others(p.op.preds, i), outer, db);
    forall k | 0 <= k < |owners.rows|
      ensures t(owners.rows[k]) == Error <==> !BaseRuns(sub, outer, db) || MatchFails(sub, EqualitiesOf(sub), owners.rows[k], outer, db)
    {
      ConjunctTruth(p, i, sub, k, outer, db);
    }
    BothFails(owners, t, s, PredsFn(p.op.preds, outer, db));
    if OwnerRowFails(p, i, sub, owners, outer, db) {
      var k :| 0 <= k < |owners.rows| && (SiblingFails(p, i, owners.rows[k], outer, db) || !BaseRuns(sub, outer, db) ||
                                          MatchFails(sub, EqualitiesOf(sub), owners.rows[k], outer, db));
      assert t(owners.rows[k]) == Error || s(owners.rows[k]) == Error;
    }
    if HiddenFailure(owners, t, s) || VisibleFailure(owners, t, s) {
      var k :| 0 <= k < |owners.rows| && (t(owners.rows[k]) == Error || s(owners.rows[k]) == Error);
      assert t(owners.rows[k]) == Error || SiblingFails(p, i, owners.rows[k], outer, db);
    }
  }

  /** The rewritten plan, over owners and a right plan that run. */
  lemma RewrittenKeeps(p: Plan, i: int, kind: JoinKind, sub: Subplan, projs: seq<Projection>, owners: Rel, outer: seq<Row>, db: Db)
    requires ConjunctBound(p, i, sub, db) && Run(p.kids[0], outer, db) == Ok(owners) && RightRuns(sub, outer, db)
    requires JoinBlock(sub, EqualitiesOf(sub), HiddenOf(sub, {}), projs, ColumnsOf(p.kids[0], db), ColumnsOf(Source(sub), db), db)
    requires (kind == Semi && p.op.preds[i] == Exists(sub)) || (kind == Anti && p.op.preds[i] == NotExists(sub))
    ensures (match JoinRel(kind, PredsFn(JoinEqualities(EqualitiesOf(sub), HiddenOf(sub, {})), outer, db), MemberFn(None, outer, db), owners,
                           Rel(ProjectHeader(projs), RightRows(sub, projs, outer, db)))
             case Fails => Fails
             case Ok(joined) => FilterRel(joined, PredsFn(Others(p.op.preds, i), outer, db))) ==
            FilterRel(owners, PredsFn(p.op.preds, outer, db))
            <==> RowsAgree(p, i, sub, owners, outer, db)
    ensures (exists k :: 0 <= k < |owners.rows| && SiblingFails(p, i, owners.rows[k], outer, db)) ==> FilterRel(owners, PredsFn(p.op.preds, outer, db)).Fails?
  {
    hide Run, RightRuns, JoinBlock, ConjunctBound, PredsFn, MemberFn, SeenAt, Others, EqualitiesOf, ColumnsOf, JoinRel, FilterRel, RowsAgree, HiddenOf;
    ExistenceJoinIsFilter(p, i, kind, sub, projs, outer, db);
    HarmlessWhenRightRuns(p, i, sub, owners, outer, db);
  }

  /** With free names, rows agree unless a sibling fails. */
  lemma FreeNamesAgree(p: Plan, i: int, sub: Subplan, owners: Rel, outer: seq<Row>, db: Db)
    requires ConjunctBound(p, i, sub, db) && NamesFree(sub, {}, ColumnsOf(p.kids[0], db)) && Run(p.kids[0], outer, db) == Ok(owners)
    ensures forall k | 0 <= k < |owners.rows| :: Seen(sub, owners.rows[k], outer, db) <==> Matches(sub, owners.rows[k], outer, db)
    ensures !RowsAgree(p, i, sub, owners, outer, db) ==> exists k :: 0 <= k < |owners.rows| && SiblingFails(p, i, owners.rows[k], outer, db)
  {
    hide Run, SiblingFails, SiblingPasses, SeesMatch, HasMatch, HiddenOf, EqualitiesOf, ColumnsOf, OutputColumns, BlockBound, RowFits, Names;
    RunFits(p.kids[0], outer, db);
    forall k | 0 <= k < |owners.rows| ensures Seen(sub, owners.rows[k], outer, db) <==> Matches(sub, owners.rows[k], outer, db) {
      FreeNamesMatch(sub, EqualitiesOf(sub), HiddenOf(sub, {}), ColumnsOf(p.kids[0], db), owners.rows[k], outer, db);
    }
    hide Seen, Matches;
  }

  lemma ExistenceExactly(p: Plan, i: int, kind: JoinKind, sub: Subplan, outer: seq<Row>, db: Db)
    requires ConjunctBound(p, i, sub, db) && DecorrelateEqualityWhere(sub, {}).Some?
    requires (kind == Semi && p.op.preds[i] == Exists(sub)) || (kind == Anti && p.op.preds[i] == NotExists(sub))
    ensures var d := DecorrelateEqualityWhere(sub, {}).value;
            && (Run(JoinInstead(p, i, kind, d.on, None, d.plan), outer, db) == Run(p, outer, db) <==> ExistenceIsHarmless(p, i, sub, outer, db))
            && (NamesFree(sub, {}, ColumnsOf(p.kids[0], db)) && !ExistenceIsHarmless(p, i, sub, outer, db) ==>
                  Run(p, outer, db).Fails? || Run(JoinInstead(p, i, kind, d.on, None, d.plan), outer, db).Fails?)
  {
    hide Run, Eval, Prepared, DecorrelateEqualityWhere, JoinInstead, PredsFn, MemberFn, JoinRel, FilterRel, PreparedPreds, BlockBound, BaseRuns, NamesFree,
         AllProject, JoinBlock, RowsAgree, OwnerRowFails, Others, HiddenNames, Equalities, JoinEqualities, HiddenProjections, RightPlan, SiblingFails;
    var es, names := DecorrelatedIs(sub, {});
    var projs, lh, h := sub.plan.op.projs + HiddenProjections(es, names), ColumnsOf(p.kids[0], db), ColumnsOf(Source(sub), db);
    assert es == EqualitiesOf(sub) && names == HiddenOf(sub, {});
    HiddenComplete(sub, {}, es, names, lh, h, db);
    EqualitiesPrepared(es, names, outer, db);
    OthersPrepared(p.op.preds, i, outer, db);
    BlockIsCorrelated(p, i, sub, outer, db);
    RulePlans(p, i, kind, JoinEqualities(es, names), None, RightPlan(sub, projs), outer, db);
    RightIs(sub, es, names, projs, lh, h, outer, db);
    if Run(p.kids[0], outer, db).Ok? && PreparedPreds(Others(p.op.preds, i), outer, db) {
      var owners := Run(p.kids[0], outer, db).value;
      if RightRuns(sub, outer, db) {
        RewrittenKeeps(p, i, kind, sub, projs, owners, outer, db);
        if NamesFree(sub, {}, lh) {
          FreeNamesAgree(p, i, sub, owners, outer, db);
        }
      } else {
        OriginalFails(p, i, sub, owners, outer, db);
      }
    }
  }

  lemma BlockIsCorrelated(p: Plan, i: int, sub: Subplan, outer: seq<Row>, db: Db)
    requires ConjunctBound(p, i, sub, db) && (p.op.preds[i] == Exists(sub) || p.op.preds[i] == NotExists(sub))
    ensures PreparedPred(p.op.preds[i], outer, db)
  {
  }

  /** Correlated EXISTS is a SEMI join, the same owner rows in the same order, exactly when no failure is exposed or
    masked and no name is captured. With free names, a difference is a failure on one side. */
  lemma ExistsToSemiExactly(p: Plan, i: int, outer: seq<Row>, db: Db)
    requires CorrelatedExistsToSemi(p, i).Some? && ConjunctBound(p, i, p.op.preds[i].sub, db)
    ensures Run(CorrelatedExistsToSemi(p, i).value, outer, db) == Run(p, outer, db) <==> ExistenceIsHarmless(p, i, p.op.preds[i].sub, outer, db)
    ensures NamesFree(p.op.preds[i].sub, {}, ColumnsOf(p.kids[0], db)) && !ExistenceIsHarmless(p, i, p.op.preds[i].sub, outer, db) ==>
              Run(p, outer, db).Fails? || Run(CorrelatedExistsToSemi(p, i).value, outer, db).Fails?
  {
    hide Run, ConjunctBound, NamesFree, DecorrelateEqualityWhere, JoinInstead, ExistenceIsHarmless;
    ExistenceExactly(p, i, Semi, p.op.preds[i].sub, outer, db);
  }

  /** Correlated NOT EXISTS is an ANTI join, exactly under the same condition. */
  lemma NotExistsToAntiExactly(p: Plan, i: int, outer: seq<Row>, db: Db)
    requires CorrelatedNotExistsToAnti(p, i).Some? && ConjunctBound(p, i, p.op.preds[i].sub, db)
    ensures Run(CorrelatedNotExistsToAnti(p, i).value, outer, db) == Run(p, outer, db) <==> ExistenceIsHarmless(p, i, p.op.preds[i].sub, outer, db)
    ensures NamesFree(p.op.preds[i].sub, {}, ColumnsOf(p.kids[0], db)) && !ExistenceIsHarmless(p, i, p.op.preds[i].sub, outer, db) ==>
              Run(p, outer, db).Fails? || Run(CorrelatedNotExistsToAnti(p, i).value, outer, db).Fails?
  {
    hide Run, ConjunctBound, NamesFree, DecorrelateEqualityWhere, JoinInstead, ExistenceIsHarmless;
    ExistenceExactly(p, i, Anti, p.op.preds[i].sub, outer, db);
  }
}
