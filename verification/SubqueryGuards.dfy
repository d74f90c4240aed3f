/** A test on the plan under which the three decorrelation rules keep every outcome, and queries that show what goes
  wrong without it: the rules for EXISTS and NOT EXISTS make no such test.
 */
module SubqueryGuards {
  import opened Plans
  import opened Sequences
  import opened Values
  import opened Algebra
  import opened Semantics
  import opened Shapes
  import opened Schemas
  import opened Correlation
  import opened FilterRules
  import opened FilterRuleSoundness
  import opened RewriteFixpoint
  import opened JoinAlgebra
  import opened JoinRules
  import opened PlanRuns
  import opened Decorrelation
  import opened DecorrelationSoundness
  import opened SubqueryRules
  import opened NotInRule
  import opened HashJoins
  import opened NullAwareJoins
  import opened Interpreter

  // ---------------------------------------------------------------- sources that run

  /** A tree of scans, filters and joins over existing tables, whose columns resolve and do not clash. */
  ghost predicate Grounded(p: Plan, outer: seq<Row>, db: Db)
    decreases p
  {
    && |p.kids| == Arity(p.op)
    && match p.op
       case Scan(table, binding) => table in db && DistinctIds(Rename(binding, db[table].header))
       case Filter(preds) => Grounded(p.kids[0], outer, db) && AllResolve(preds, Names(ColumnsOf(p.kids[0], db)), outer)
       case Join(kind, on, membership) =>
         && Grounded(p.kids[0], outer, db) && Grounded(p.kids[1], outer, db) && Executable(p.op)
         && DistinctIds(JoinHeader(kind, ColumnsOf(p.kids[0], db), ColumnsOf(p.kids[1], db)))
         && AllResolve(on, Names(ColumnsOf(p.kids[0], db)) + Names(ColumnsOf(p.kids[1], db)), outer)
         && (membership.Some? ==> ColumnsResolve(membership.value, Names(ColumnsOf(p.kids[0], db)) + Names(ColumnsOf(p.kids[1], db)), outer))
       case _ => false
  }

  /** Predicates without subqueries, over columns that exist, are not abandoned. */
  lemma PlainFilterRuns(rel: Rel, ps: seq<Pred>, outer: seq<Row>, db: Db)
    requires WellFormedRel(rel) && AllResolve(ps, Names(rel.header), outer) && forall i | 0 <= i < |ps| :: !ContainsSubquery(ps[i])
    ensures FilterRel(rel, PredsFn(ps, outer, db)).Ok? && PreparedPreds(ps, outer, db)
  {
    hide ColumnsResolve, ContainsSubquery, EvalPreds, RowFits, FlatMap, DistinctIds;
    AllPrepared(ps, outer, db);
    var f := PredsFn(ps, outer, db);
    PredsFnAt(ps, outer, db);
    FlatMapFails(rel.rows, KeepTrue(f));
    forall i | 0 <= i < |rel.rows| ensures KeepTrue(f)(rel.rows[i]).Ok? {
      OwnerKeys(rel.header, rel.rows[i]);
      SteadyPreds(ps, Names(rel.header), rel.rows[i], outer, db);
    }
  }

  /** A left row of a join whose predicates are not abandoned. */
  lemma JoinOneRuns(kind: JoinKind, f: Row -> Truth, m: Row -> Truth, l: Row, right: Rel)
    requires TotalOn(f, l, right.rows) && TotalOn(m, l, right.rows)
    ensures JoinOne(kind, f, m, right)(l).Ok?
  {
    hide FlatMap, Joined, NullRow;
    match kind
    case Semi => ProbeIs(f, l, right.rows);
    case Anti => ProbeIs(f, l, right.rows);
    case NullAwareAnti => SuppressedIs(f, m, l, right.rows);
    case _ =>
      FlatMapFails(right.rows, Match(f, l));
      assert forall j | 0 <= j < |right.rows| :: Match(f, l)(right.rows[j]).Ok?;
  }

  lemma JoinRelRuns(kind: JoinKind, f: Row -> Truth, m: Row -> Truth, left: Rel, right: Rel)
    requires DistinctIds(JoinHeader(kind, left.header, right.header))
    requires forall k | 0 <= k < |left.rows| :: TotalOn(f, left.rows[k], right.rows) && TotalOn(m, left.rows[k], right.rows)
    ensures JoinRel(kind, f, m, left, right).Ok?
  {
    hide FlatMap, JoinOne, TotalOn, DistinctIds;
    FlatMapFails(left.rows, JoinOne(kind, f, m, right));
    forall k | 0 <= k < |left.rows| ensures JoinOne(kind, f, m, right)(left.rows[k]).Ok? {
      JoinOneRuns(kind, f, m, left.rows[k], right);
    }
  }

  lemma PlainOnPair(ps: seq<Pred>, lh: seq<Field>, rh: seq<Field>, l: Row, rows: seq<Row>, outer: seq<Row>, db: Db)
    requires AllResolve(ps, Names(lh) + Names(rh), outer) && forall i | 0 <= i < |ps| :: !ContainsSubquery(ps[i])
    requires RowFits(lh, l) && forall j | 0 <= j < |rows| :: RowFits(rh, rows[j])
    ensures forall j | 0 <= j < |rows| :: EvalPreds(ps, Joined(l, rows[j]), outer, db) != Error
  {
    hide ColumnsResolve, ContainsSubquery, EvalPreds, RowFits;
    OwnerKeys(lh, l);
    forall j | 0 <= j < |rows| ensures EvalPreds(ps, Joined(l, rows[j]), outer, db) != Error {
      OwnerKeys(rh, rows[j]);
      SteadyPreds(ps, Names(lh) + Names(rh), Joined(l, rows[j]), outer, db);
    }
  }

  lemma PlainJoinRuns(kind: JoinKind, on: seq<Pred>, membership: Option<Pred>, left: Rel, right: Rel, outer: seq<Row>, db: Db)
    requires WellFormedRel(left) && WellFormedRel(right) && DistinctIds(JoinHeader(kind, left.header, right.header))
    requires AllResolve(on, Names(left.header) + Names(right.header), outer) && forall i | 0 <= i < |on| :: !ContainsSubquery(on[i])
    requires membership.Some? ==> ColumnsResolve(membership.value, Names(left.header) + Names(right.header), outer) && !ContainsSubquery(membership.value)
    ensures JoinRel(kind, PredsFn(on, outer, db), MemberFn(membership, outer, db), left, right).Ok?
  {
    hide ColumnsResolve, ContainsSubquery, EvalPreds, EvalPred, RowFits, JoinRel, DistinctIds, Joined, Names;
    var f, m := PredsFn(on, outer, db), MemberFn(membership, outer, db);
    PredsFnAt(on, outer, db);
    MemberFnAt(membership, outer, db);
    forall k | 0 <= k < |left.rows| ensures TotalOn(f, left.rows[k], right.rows) && TotalOn(m, left.rows[k], right.rows) {
      PlainOnPair(on, left.header, right.header, left.rows[k], right.rows, outer, db);
      if membership.Some? {
        PlainOnPair([membership.value], left.header, right.header, left.rows[k], right.rows, outer, db);
        forall j | 0 <= j < |right.rows| ensures EvalPred(membership.value, Joined(left.rows[k], right.rows[j]), outer, db) != Error {
          OnePredicate(membership.value, Joined(left.rows[k], right.rows[j]), outer, db);
        }
      }
    }
    JoinRelRuns(kind, f, m, left, right);
  }

  /** A grounded tree that owns no subquery is not abandoned. */
  lemma {:induction false} GroundedRuns(p: Plan, outer: seq<Row>, db: Db)
    requires Grounded(p, outer, db) && !OwnsSubquery(p)
    ensures Run(p, outer, db).Ok?
    decreases p
  {
    match p.op
    case Scan(table, binding) => GroundedScan(p, outer, db);
    case Filter(preds) =>
      GroundedRuns(p.kids[0], outer, db);
      GroundedFilter(p, outer, db);
    case Join(_, _, _) =>
      GroundedRuns(p.kids[0], outer, db);
      GroundedRuns(p.kids[1], outer, db);
      GroundedJoin(p, outer, db);
    case _ =>
  }

  lemma GroundedScan(p: Plan, outer: seq<Row>, db: Db)
    requires p.op.Scan? && Grounded(p, outer, db)
    ensures Run(p, outer, db).Ok?
  {
    hide DistinctIds;
    assert Prepared(p, outer, db);
  }

  lemma GroundedFilter(p: Plan, outer: seq<Row>, db: Db)
    requires p.op.Filter? && Grounded(p, outer, db) && !OwnsSubquery(p) && Run(p.kids[0], outer, db).Ok?
    ensures Run(p, outer, db).Ok?
  {
    hide Run, ColumnsOf, ColumnsResolve, ContainsSubquery, FilterRel, PreparedPreds, PredsFn;
    RunFits(p.kids[0], outer, db);
    assert p == Node(p.perm, Filter(p.op.preds), [p.kids[0]]);
    RunFilter(p.perm, p.op.preds, p.kids[0], outer, db);
    PlainFilterRuns(Run(p.kids[0], outer, db).value, p.op.preds, outer, db);
  }

  lemma GroundedJoin(p: Plan, outer: seq<Row>, db: Db)
    requires p.op.Join? && Grounded(p, outer, db) && !OwnsSubquery(p) && Run(p.kids[0], outer, db).Ok? && Run(p.kids[1], outer, db).Ok?
    ensures Run(p, outer, db).Ok?
  {
    hide Run, ColumnsOf, ColumnsResolve, ContainsSubquery, JoinRel, PredsFn, MemberFn, DistinctIds, Names;
    RunFits(p.kids[0], outer, db);
    RunFits(p.kids[1], outer, db);
    assert p == Node(p.perm, p.op, [p.kids[0], p.kids[1]]);
    RunJoin(p.perm, p.op, p.kids[0], p.kids[1], outer, db);
    AllPrepared(p.op.on, outer, db);
    if p.op.membership.Some? {
      NoSubqueryPrepared(p.op.membership.value, outer, db);
    }
    PlainJoinRuns(p.op.kind, p.op.on, p.op.membership, Run(p.kids[0], outer, db).value, Run(p.kids[1], outer, db).value, outer, db);
  }

  // ---------------------------------------------------------------- the guard

  /** The block reads existing tables and columns, and exposes columns of different names. */
  ghost predicate BlockResolves(sub: Subplan, outer: seq<Row>, db: Db)
    requires DecorrelatableShape(sub.plan)
  {
    var names := Names(ColumnsOf(Source(sub), db));
    && Grounded(Source(sub), outer, db) && AllResolve(Residuals(sub.plan.kids[0].op.preds), names, outer)
    && (forall i | 0 <= i < |sub.plan.op.projs| :: ColumnResolves(sub.plan.op.projs[i].expr, names, outer))
    && DistinctIds(ProjectHeader(sub.plan.op.projs))
  }

  /** What the rule for NOT IN tests before it fires: no subquery in the block, none in the other conjuncts. */
  predicate Guarded(p: Plan, i: int, sub: Subplan) {
    Conjunct(p, i) && !OwnsSubquery(sub.plan) && forall k | 0 <= k < |p.op.preds| && k != i :: !ContainsSubquery(p.op.preds[k])
  }

  lemma GuardedParts(sub: Subplan)
    requires DecorrelatableShape(sub.plan) && !OwnsSubquery(sub.plan)
    ensures !OwnsSubquery(Source(sub)) && forall i | 0 <= i < |sub.plan.op.projs| :: !sub.plan.op.projs[i].expr.ScalarQuery?
    ensures forall i | 0 <= i < |Residuals(sub.plan.kids[0].op.preds)| :: !ContainsSubquery(Residuals(sub.plan.kids[0].op.preds)[i])
  {
    hide ContainsSubquery, PredReferencesOuter;
    var filter := sub.plan.kids[0];
    assert !OwnsSubquery(filter);
    assert !OwnsSubquery(filter.kids[0]);
    var residuals := Residuals(filter.op.preds);
    forall i | 0 <= i < |residuals| ensures !ContainsSubquery(residuals[i]) {
      assert residuals[i] in residuals;
    }
  }

  /** The base of such a block runs. */
  lemma GuardedBase(sub: Subplan, outer: seq<Row>, db: Db)
    requires DecorrelatableShape(sub.plan) && !OwnsSubquery(sub.plan) && BlockResolves(sub, outer, db)
    ensures BaseRuns(sub, outer, db)
  {
    GuardedParts(sub);
    hide Run, OwnsSubquery, ContainsSubquery, Residuals, ColumnsOf, AllResolve, Grounded, FilterRel, PreparedPreds, PredsFn, Filtered, DistinctIds, ColumnResolves;
    GroundedRuns(Source(sub), outer, db);
    RunFits(Source(sub), outer, db);
    PlainFilterRuns(Run(Source(sub), outer, db).value, Residuals(sub.plan.kids[0].op.preds), outer, db);
    RunFiltered(sub.plan.kids[0].perm, Residuals(sub.plan.kids[0].op.preds), Source(sub), outer, db);
    assert sub.plan.op == Project(sub.plan.op.projs);
    assert PreparedOp(sub.plan.op, outer, db);
    assert Run(BasePlan(sub), outer, db).Ok?;
  }

  /** Its right plan runs too: every kept row can be projected. */
  lemma GuardedBlockRuns(sub: Subplan, es: seq<Equality>, h: seq<Field>, lh: seq<Field>, outer: seq<Row>, db: Db)
    requires BlockBound(sub, es, h, lh, db) && !OwnsSubquery(sub.plan) && BlockResolves(sub, outer, db)
    ensures RightRuns(sub, outer, db)
  {
    GuardedBase(sub, outer, db);
    GuardedParts(sub);
    BaseFits(sub, es, h, lh, outer, db);
    var kept, projs := KeptRows(sub, outer, db), sub.plan.op.projs;
    hide Run, OwnsSubquery, ContainsSubquery, Residuals, AllResolve, Grounded, BaseRuns, KeptRows, ColumnResolves, EvalScalar, EvalProjs, RowFits, BoundSub,
         PlanReferencesOuter, Equalities, DistinctIds;
    forall k | 0 <= k < |kept| ensures EvalProjs(projs, kept[k], outer, db).Ok? {
      OwnerKeys(h, kept[k]);
      forall j | 0 <= j < |projs| ensures EvalScalar(projs[j].expr, kept[k], outer, db).Ok? {
        SteadyScalar(projs[j].expr, Names(h), kept[k], outer, db);
      }
      ProjsPointwise(projs, kept[k], outer, db);
    }
  }

  lemma GuardedSiblings(p: Plan, i: int, sub: Subplan)
    requires Guarded(p, i, sub)
    ensures forall k | 0 <= k < |Others(p.op.preds, i)| :: !ContainsSubquery(Others(p.op.preds, i)[k])
  {
    hide ContainsSubquery, OwnsSubquery;
    forall k | 0 <= k < |Others(p.op.preds, i)| ensures !ContainsSubquery(Others(p.op.preds, i)[k]) {
      assert Others(p.op.preds, i)[k] == p.op.preds[if k < i then k else k + 1];
    }
  }

  /** Under the guard, the rules for EXISTS and NOT EXISTS expose and mask nothing. */
  lemma GuardedExistence(p: Plan, i: int, sub: Subplan, outer: seq<Row>, db: Db)
    requires ConjunctBound(p, i, sub, db) && Guarded(p, i, sub) && BlockResolves(sub, outer, db)
    requires AllResolve(Others(p.op.preds, i), Names(ColumnsOf(p.kids[0], db)), outer) && NamesFree(sub, {}, ColumnsOf(p.kids[0], db))
    ensures ExistenceIsHarmless(p, i, sub, outer, db)
  {
    hide Run, OwnsSubquery, ContainsSubquery, Others, AllResolve, ColumnsOf, EqualitiesOf, BlockBound, BlockResolves, RightRuns, RowsAgree, EvalPreds,
         OwnerRowFails, Names, NamesFree;
    GuardedSiblings(p, i, sub);
    GuardedBlockRuns(sub, EqualitiesOf(sub), ColumnsOf(Source(sub), db), ColumnsOf(p.kids[0], db), outer, db);
    if Run(p.kids[0], outer, db).Ok? {
      forall k | 0 <= k < |Run(p.kids[0], outer, db).value.rows| ensures !SiblingFails(p, i, Run(p.kids[0], outer, db).value.rows[k], outer, db) {
        SiblingsSteady(p, i, k, outer, db);
      }
      FreeNamesAgree(p, i, sub, Run(p.kids[0], outer, db).value, outer, db);
    }
  }

  /** Hidden names are free when they are none of the owner's computed columns, which can be read off the plan. */
  lemma UnusedNamesAreFree(p: Plan, sub: Subplan, names: seq<string>, db: Db)
    requires OutputColumns(p, db).Some? && ScansNamed(p) && DecorrelatableShape(sub.plan)
    requires names == HiddenOf(sub, {}) && forall k | 0 <= k < |names| :: names[k] !in ComputedNames(p)
    ensures NamesFree(sub, {}, ColumnsOf(p, db))
  {
    hide HiddenOf, OutputColumns, ComputedNames, ScansNamed, EqualitiesOf, Names;
    forall k | 0 <= k < |names| ensures Ident("", names[k]) !in Names(ColumnsOf(p, db)) {
      AvoidedIsFree(p, names[k], db);
    }
  }

  /** With the guard, correlated EXISTS is a SEMI join and correlated NOT EXISTS an ANTI join on every database. */
  lemma GuardedExistsToSemi(p: Plan, i: int, outer: seq<Row>, db: Db)
    requires CorrelatedExistsToSemi(p, i).Some? && ConjunctBound(p, i, p.op.preds[i].sub, db)
    requires NamesFree(p.op.preds[i].sub, {}, ColumnsOf(p.kids[0], db))
    requires Guarded(p, i, p.op.preds[i].sub) && BlockResolves(p.op.preds[i].sub, outer, db)
    requires AllResolve(Others(p.op.preds, i), Names(ColumnsOf(p.kids[0], db)), outer)
    ensures Run(CorrelatedExistsToSemi(p, i).value, outer, db) == Run(p, outer, db)
  {
    assert p.op.preds[i].Exists?;
    hide Run, CorrelatedExistsToSemi, NamesFree, Guarded, BlockResolves, Others, AllResolve, ColumnsOf, ExistenceIsHarmless, BlockBound;
    GuardedExistence(p, i, p.op.preds[i].sub, outer, db);
    ExistsToSemiExactly(p, i, outer, db);
  }

  lemma GuardedNotExistsToAnti(p: Plan, i: int, outer: seq<Row>, db: Db)
    requires CorrelatedNotExistsToAnti(p, i).Some? && ConjunctBound(p, i, p.op.preds[i].sub, db)
    requires NamesFree(p.op.preds[i].sub, {}, ColumnsOf(p.kids[0], db))
    requires Guarded(p, i, p.op.preds[i].sub) && BlockResolves(p.op.preds[i].sub, outer, db)
    requires AllResolve(Others(p.op.preds, i), Names(ColumnsOf(p.kids[0], db)), outer)
    ensures Run(CorrelatedNotExistsToAnti(p, i).value, outer, db) == Run(p, outer, db)
  {
    assert p.op.preds[i].NotExists?;
    hide Run, CorrelatedNotExistsToAnti, NamesFree, Guarded, BlockResolves, Others, AllResolve, ColumnsOf, ExistenceIsHarmless, BlockBound;
    GuardedExistence(p, i, p.op.preds[i].sub, outer, db);
    NotExistsToAntiExactly(p, i, outer, db);
  }

  /** The rule for NOT IN makes the test itself. */
  lemma NotInIsGuarded(p: Plan, i: int)
    requires CorrelatedNotInToNullAwareAnti(p, i).Some?
    ensures Guarded(p, i, p.op.preds[i].sub)
  {
    hide OwnsSubquery, ContainsSubquery, DecorrelateEqualityWhere;
  }

  /** So it keeps the outcome on every database, whenever columns resolve. */
  lemma NotInToNullAwareIsExact(p: Plan, i: int, outer: seq<Row>, db: Db)
    requires CorrelatedNotInToNullAwareAnti(p, i).Some? && NotInBound(p, i, outer, db) && BlockResolves(p.op.preds[i].sub, outer, db)
    ensures Run(CorrelatedNotInToNullAwareAnti(p, i).value, outer, db) == Run(p, outer, db)
  {
    NotInIsGuarded(p, i);
    NotInToNullAwareExactly(p, i, outer, db);
    var sub := p.op.preds[i].sub;
    hide Run, OwnsSubquery, ContainsSubquery, Others, AllResolve, BlockBound, BlockResolves, RightRuns, CorrelatedNotInToNullAwareAnti, ColumnsOf, ColumnResolves,
         EqualitiesOf, ScansNamed, Names;
    GuardedBlockRuns(sub, EqualitiesOf(sub), ColumnsOf(Source(sub), db), ColumnsOf(p.kids[0], db), outer, db);
  }
}
