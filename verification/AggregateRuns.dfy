/** Pushing filter conjuncts below an aggregate, on whole plans: groups that the filter would discard are no longer
  computed, and conjuncts see the columns of the input again, so a plan that failed may succeed, and nothing else changes.
 */
module AggregateRuns {
  import opened Plans
  import opened Sequences
  import opened Values
  import opened Algebra
  import opened Semantics
  import opened Shapes
  import opened Schemas
  import opened Correlation
  import opened FilterRuleSoundness
  import opened RewriteFixpoint
  import opened JoinAlgebra
  import opened JoinRules
  import opened JoinPushdown
  import opened PlanRuns
  import opened JoinShapes
  import opened PushdownExactly
  import opened AggregatePushdown
  import opened SubqueryReads
  import opened Widening

  // ---------------------------------------------------------------- a filter over an aggregate

  /** A group that is abandoned, or whose row makes the filter fail. */
  predicate GroupFails(row: Outcome<Row>, f: Row -> Truth) {
    row.Fails? || f(row.value) == Error
  }

  ghost predicate SomeGroupFails(keys: seq<ColumnRef>, aggs: seq<AggExpr>, rows: seq<Row>, env: Env, f: Row -> Truth) {
    exists g :: 0 <= g < |GroupKeys(keys, rows, env)| && GroupFails(GroupRow(keys, aggs, rows, env)(GroupKeys(keys, rows, env)[g]), f)
  }

  /** The columns of an aggregate resolve and its outputs have different names. */
  predicate AggregateForms(keys: seq<ColumnRef>, aggs: seq<AggExpr>, header: seq<Field>, env: Env) {
    AggregateResolves(keys, aggs, Names(header), env) && DistinctIds(AggregateHeader(keys, aggs))
  }

  function Having(keys: seq<ColumnRef>, aggs: seq<AggExpr>, rel: Rel, env: Env, f: Row -> Truth): Outcome<Rel> {
    match AggregateRel(keys, aggs, rel, env)
    case Fails => Fails
    case Ok(out) => FilterRel(out, f)
  }

  lemma HavingFails(keys: seq<ColumnRef>, aggs: seq<AggExpr>, rel: Rel, env: Env, f: Row -> Truth)
    ensures Having(keys, aggs, rel, env, f).Fails? <==>
              !AggregateForms(keys, aggs, rel.header, env) || SomeGroupFails(keys, aggs, rel.rows, env, f)
  {
    hide GroupRow, AggregateResolves, DistinctIds, GroupKeys, FilterRel, MapAll, AggregateRel;
    var gk, h := GroupKeys(keys, rel.rows, env), GroupRow(keys, aggs, rel.rows, env);
    AggregateRows(keys, aggs, rel, env);
    if AggregateForms(keys, aggs, rel.header, env) {
      if MapAll(gk, h).Fails? {
        var g :| 0 <= g < |gk| && h(gk[g]).Fails?;
        assert GroupFails(h(gk[g]), f);
      } else {
        var rows := MapAll(gk, h).value;
        FilterOutcome(Rel(AggregateHeader(keys, aggs), rows), f);
        assert forall g | 0 <= g < |gk| :: h(gk[g]) == Ok(rows[g]);
        if exists k :: 0 <= k < |rows| && f(rows[k]) == Error {
          var k :| 0 <= k < |rows| && f(rows[k]) == Error;
          assert GroupFails(h(gk[k]), f);
        }
        if SomeGroupFails(keys, aggs, rel.rows, env, f) {
          var g :| 0 <= g < |gk| && GroupFails(h(gk[g]), f);
          assert f(rows[g]) == Error;
        }
      }
    }
  }

  /** Filtering, aggregating, and filtering again. */
  function PushedHaving(keys: seq<ColumnRef>, aggs: seq<AggExpr>, rel: Rel, env: Env, push: Row -> Truth, rest: Row -> Truth): Outcome<Rel> {
    match FilterRel(rel, push)
    case Fails => Fails
    case Ok(kept) => Having(keys, aggs, kept, env, rest)
  }

  ghost predicate SomeRowFails(rows: seq<Row>, f: Row -> Truth) {
    exists k :: 0 <= k < |rows| && f(rows[k]) == Error
  }

  lemma PushedHavingFails(keys: seq<ColumnRef>, aggs: seq<AggExpr>, rel: Rel, env: Env, push: Row -> Truth, rest: Row -> Truth)
    ensures PushedHaving(keys, aggs, rel, env, push, rest).Fails? <==>
              || SomeRowFails(rel.rows, push) || !AggregateForms(keys, aggs, rel.header, env)
              || SomeGroupFails(keys, aggs, Keep(rel.rows, IsTrue(push)), env, rest)
  {
    hide Having, FilterRel, Keep, AggregateForms, SomeGroupFails;
    FilterOutcome(rel, push);
    HavingFails(keys, aggs, Rel(rel.header, Keep(rel.rows, IsTrue(push))), env, rest);
  }

  // ---------------------------------------------------------------- keys decide

  /** `k` is what the pushed conjuncts make of a group key: an input row agrees unless the key alone does not decide,
    and a group's output row agrees always. */
  ghost predicate KeysDecide(k: seq<Cell> -> Truth, push: Row -> Truth, keys: seq<ColumnRef>, aggs: seq<AggExpr>, rows: seq<Row>, env: Env) {
    forall i | 0 <= i < |rows| ::
      var key := KeyOf(keys, rows[i], env);
      && (k(key) != Error ==> push(rows[i]) == k(key))
      && (GroupRow(keys, aggs, rows, env)(key).Ok? ==> push(GroupRow(keys, aggs, rows, env)(key).value) == k(key))
  }

  lemma GroupOfRow(keys: seq<ColumnRef>, rows: seq<Row>, env: Env)
    requires keys != []
    ensures forall i | 0 <= i < |rows| :: KeyOf(keys, rows[i], env) in GroupKeys(keys, rows, env)
    ensures forall g | 0 <= g < |GroupKeys(keys, rows, env)| :: exists i :: 0 <= i < |rows| && KeyOf(keys, rows[i], env) == GroupKeys(keys, rows, env)[g]
  {
    hide KeyOf, Dedup;
    var all, gk := AllKeys(keys, rows, env), GroupKeys(keys, rows, env);
    forall i | 0 <= i < |rows| ensures KeyOf(keys, rows[i], env) in gk {
      assert all[i] in all;
    }
    forall g | 0 <= g < |gk| ensures exists i :: 0 <= i < |rows| && KeyOf(keys, rows[i], env) == gk[g] {
      assert gk[g] in all;
      var i :| 0 <= i < |all| && all[i] == gk[g];
      assert KeyOf(keys, rows[i], env) == gk[g];
    }
  }

  /** Where the original succeeds, every group's key decides, for its rows as for its output. */
  lemma DecidedRows(keys: seq<ColumnRef>, aggs: seq<AggExpr>, rel: Rel, out: Rel, env: Env, k: seq<Cell> -> Truth, whole: Row -> Truth, push: Row -> Truth, rest: Row -> Truth)
    requires keys != [] && MadeOf(whole, push, rest) && KeysDecide(k, push, keys, aggs, rel.rows, env)
    requires AggregateRel(keys, aggs, rel, env) == Ok(out) && FilterRel(out, whole).Ok?
    ensures |out.rows| == |GroupKeys(keys, rel.rows, env)|
    ensures forall i | 0 <= i < |rel.rows| :: push(rel.rows[i]) != Error && push(rel.rows[i]) == k(KeyOf(keys, rel.rows[i], env))
    ensures forall g | 0 <= g < |out.rows| ::
              whole(out.rows[g]) != Error && push(out.rows[g]) != Error && push(out.rows[g]) == k(GroupKeys(keys, rel.rows, env)[g])
  {
    hide KeyOf, GroupRow, AggregateResolves, DistinctIds, GroupKeys, FilterRel, MapAll, AggregateRel;
    var gk, h := GroupKeys(keys, rel.rows, env), GroupRow(keys, aggs, rel.rows, env);
    AggregateRows(keys, aggs, rel, env);
    FilterOutcome(out, whole);
    GroupOfRow(keys, rel.rows, env);
    assert MapAll(gk, h) == Ok(out.rows);
    forall g | 0 <= g < |out.rows| ensures whole(out.rows[g]) != Error && push(out.rows[g]) != Error && push(out.rows[g]) == k(gk[g]) {
      assert h(gk[g]) == Ok(out.rows[g]);
      var i :| 0 <= i < |rel.rows| && KeyOf(keys, rel.rows[i], env) == gk[g];
    }
    forall i | 0 <= i < |rel.rows| ensures push(rel.rows[i]) != Error && push(rel.rows[i]) == k(KeyOf(keys, rel.rows[i], env)) {
      var g :| 0 <= g < |gk| && gk[g] == KeyOf(keys, rel.rows[i], env);
      assert push(out.rows[g]) == k(gk[g]);
    }
  }

  /** A filter that does not fail, in two steps. */
  lemma TwoSteps(out: Rel, whole: Row -> Truth, push: Row -> Truth, rest: Row -> Truth)
    requires MadeOf(whole, push, rest) && FilterRel(out, whole).Ok?
    ensures FilterRel(Rel(out.header, Keep(out.rows, IsTrue(push))), rest) == FilterRel(out, whole)
  {
    hide FilterRel, Keep;
    FilterOutcome(out, whole);
    FilterOutcome(Rel(out.header, Keep(out.rows, IsTrue(push))), rest);
    KeptFrom(out.rows, IsTrue(push));
    forall i | 0 <= i < |Keep(out.rows, IsTrue(push))| ensures rest(Keep(out.rows, IsTrue(push))[i]) != Error {
      var k :| 0 <= k < |out.rows| && out.rows[k] == Keep(out.rows, IsTrue(push))[i];
      assert whole(out.rows[k]) != Error;
    }
    KeepKeep(out.rows, IsTrue(push), IsTrue(rest));
    KeepAgree(out.rows, Conj(IsTrue(push), IsTrue(rest)), IsTrue(whole));
  }

  function KeyPasses(k: seq<Cell> -> Truth): seq<Cell> -> bool {
    key => k(key) == True
  }

  /** Where the original succeeds, pushing gives the same rows. */
  lemma PushedHavingKept(keys: seq<ColumnRef>, aggs: seq<AggExpr>, rel: Rel, env: Env, k: seq<Cell> -> Truth, whole: Row -> Truth, push: Row -> Truth, rest: Row -> Truth)
    requires keys != [] && MadeOf(whole, push, rest) && KeysDecide(k, push, keys, aggs, rel.rows, env)
    requires Having(keys, aggs, rel, env, whole).Ok?
    ensures PushedHaving(keys, aggs, rel, env, push, rest) == Having(keys, aggs, rel, env, whole)
  {
    hide KeyOf, GroupKeys, FilterRel, AggregateRel, Keep, MadeOf, KeysDecide;
    var out := AggregateRel(keys, aggs, rel, env).value;
    DecidedRows(keys, aggs, rel, out, env, k, whole, push, rest);
    FilterOutcome(rel, push);
    AggregateKept(keys, aggs, rel, IsTrue(push), KeyPasses(k), out, env);
    TwoSteps(out, whole, push, rest);
  }

  // ---------------------------------------------------------------- the rule

  /** The columns that hold aggregates. */
  function OutputIds(aggs: seq<AggExpr>): set<Ident> {
    set i | 0 <= i < |aggs| :: Ident("", aggs[i].name)
  }

  /** What binding guarantees: group keys are columns of the input, and the conjuncts that move are bound, with subqueries
    that name table columns and so no aggregate of this block. */
  ghost predicate AggregateBound(p: Plan, db: Db) {
    && p.op.Filter? && |p.kids| == 1 && p.kids[0].op.Aggregate? && |p.kids[0].kids| == 1
    && InputKeys(p.kids[0].op.keys, ColumnsOf(p.kids[0].kids[0], db))
    && forall q | q in p.op.preds && OnlyGroupKeys(q, p.kids[0].op.keys) :: BoundPred(q) && SubqueriesAvoid(q, OutputIds(p.kids[0].op.aggs))
  }

  /** When the push keeps the outcome: if some group is abandoned or its row makes the filter fail, then a conjunct that
    moves fails on an input row, or a group of the rows it keeps is abandoned or makes a conjunct that stays fail. */
  ghost predicate AggregatePushIsHarmless(p: Plan, outer: seq<Row>, db: Db)
    requires p.op.Filter? && |p.kids| == 1 && p.kids[0].op.Aggregate? && |p.kids[0].kids| == 1
  {
    var keys, aggs, input := p.kids[0].op.keys, p.kids[0].op.aggs, Run(p.kids[0].kids[0], outer, db);
    var env := OuterEnv(OwnColumns(p.kids[0].op), outer);
    var push, rest := PredsFn(Pushable(p.op.preds, keys, true), outer, db), PredsFn(Pushable(p.op.preds, keys, false), outer, db);
    input.Ok? && PreparedPreds(p.op.preds, outer, db) && AggregateForms(keys, aggs, input.value.header, env) &&
    SomeGroupFails(keys, aggs, input.value.rows, env, PredsFn(p.op.preds, outer, db)) ==>
      SomeRowFails(input.value.rows, push) || SomeGroupFails(keys, aggs, Keep(input.value.rows, IsTrue(push)), env, rest)
  }

  lemma PushedAggregateShape(p: Plan)
    requires FilterThroughAggregate(p).Some?
    ensures p.op.Filter? && |p.kids| == 1 && p.kids[0].op.Aggregate? && |p.kids[0].kids| == 1
    ensures var agg := p.kids[0];
            var keys, x := agg.op.keys, agg.kids[0];
            && agg == Node(agg.perm, Aggregate(keys, agg.op.aggs), [x]) && p == Node(p.perm, Filter(p.op.preds), [agg]) && keys != []
            && FilterThroughAggregate(p).value ==
               Filtered(p.perm, Pushable(p.op.preds, keys, false),
                        Node(p.perm, Aggregate(keys, agg.op.aggs), [Filtered(x.perm, Pushable(p.op.preds, keys, true), x)]))
  {
    hide Pushable, Filtered;
    PushNeedsKeys(p.op.preds, p.kids[0].op.keys);
  }

  lemma PushablePrepared(ps: seq<Pred>, keys: seq<ColumnRef>, outer: seq<Row>, db: Db)
    ensures PreparedPreds(ps, outer, db) <==>
            PreparedPreds(Pushable(ps, keys, true), outer, db) && PreparedPreds(Pushable(ps, keys, false), outer, db)
  {
    hide PreparedPred, PreparedPreds, Pushable, OnlyGroupKeys;
    PreparedMembers(ps, outer, db);
    PreparedMembers(Pushable(ps, keys, true), outer, db);
    PreparedMembers(Pushable(ps, keys, false), outer, db);
    assert forall q | q in ps :: q in Pushable(ps, keys, true) || q in Pushable(ps, keys, false);
  }

  /** The original and the pushed plan, as functions of the aggregate's input. */
  lemma AggregatePlans(p: Plan, outer: seq<Row>, db: Db)
    requires FilterThroughAggregate(p).Some?
    ensures p.op.Filter? && |p.kids| == 1 && p.kids[0].op.Aggregate? && |p.kids[0].kids| == 1 && p.kids[0].op.keys != []
    ensures var keys, aggs, x := p.kids[0].op.keys, p.kids[0].op.aggs, p.kids[0].kids[0];
            var env := OuterEnv(OwnColumns(Aggregate(keys, aggs)), outer);
            var push, rest := Pushable(p.op.preds, keys, true), Pushable(p.op.preds, keys, false);
            var input := Run(x, outer, db);
            && Run(p, outer, db) == (
                 if !PreparedPreds(p.op.preds, outer, db) || input.Fails? then Fails
                 else Having(keys, aggs, input.value, env, PredsFn(p.op.preds, outer, db)))
            && Run(FilterThroughAggregate(p).value, outer, db) == (
                 if !PreparedPreds(p.op.preds, outer, db) || input.Fails? then Fails
                 else PushedHaving(keys, aggs, input.value, env, PredsFn(push, outer, db), PredsFn(rest, outer, db)))
  {
    PushedAggregateShape(p);
    var agg, x := p.kids[0], p.kids[0].kids[0];
    var keys, aggs := agg.op.keys, agg.op.aggs;
    var push, rest := Pushable(p.op.preds, keys, true), Pushable(p.op.preds, keys, false);
    hide Run, PreparedPreds, FilterRel, AggregateRel, PredsFn, OwnColumns, OuterEnv, Pushable, Filtered, FilterThroughAggregate;
    PushablePrepared(p.op.preds, keys, outer, db);
    RunFilter(p.perm, p.op.preds, agg, outer, db);
    RunAggregate(agg.perm, keys, aggs, x, outer, db);
    RunFiltered(x.perm, push, x, outer, db);
    RunAggregate(p.perm, keys, aggs, Filtered(x.perm, push, x), outer, db);
    RunFiltered(p.perm, rest, Node(p.perm, Aggregate(keys, aggs), [Filtered(x.perm, push, x)]), outer, db);
  }

  lemma PushableMadeOf(ps: seq<Pred>, keys: seq<ColumnRef>, outer: seq<Row>, db: Db)
    ensures MadeOf(PredsFn(ps, outer, db), PredsFn(Pushable(ps, keys, true), outer, db), PredsFn(Pushable(ps, keys, false), outer, db))
  {
    hide EvalPred, EvalPreds, OnlyGroupKeys, Pushable;
    var push, rest := Pushable(ps, keys, true), Pushable(ps, keys, false);
    PredsFnAt(ps, outer, db);
    PredsFnAt(push, outer, db);
    PredsFnAt(rest, outer, db);
    forall row: Row
      ensures EvalPreds(ps, row, outer, db) == Error <==> EvalPreds(push, row, outer, db) == Error || EvalPreds(rest, row, outer, db) == Error
      ensures EvalPreds(ps, row, outer, db) == True <==> EvalPreds(push, row, outer, db) == True && EvalPreds(rest, row, outer, db) == True
    {
      PushableTruths(ps, keys, row, outer, db);
    }
  }

  lemma PushableTruths(ps: seq<Pred>, keys: seq<ColumnRef>, row: Row, outer: seq<Row>, db: Db)
    ensures var push, rest := Pushable(ps, keys, true), Pushable(ps, keys, false);
            && (EvalPreds(ps, row, outer, db) == Error <==> EvalPreds(push, row, outer, db) == Error || EvalPreds(rest, row, outer, db) == Error)
            && (EvalPreds(ps, row, outer, db) == True <==> EvalPreds(push, row, outer, db) == True && EvalPreds(rest, row, outer, db) == True)
  {
    hide EvalPred, EvalPreds, OnlyGroupKeys, Pushable;
    var push, rest := Pushable(ps, keys, true), Pushable(ps, keys, false);
    AnyError(ps, row, outer, db);
    AnyError(push, row, outer, db);
    AnyError(rest, row, outer, db);
    EveryTrue(ps, row, outer, db);
    EveryTrue(push, row, outer, db);
    EveryTrue(rest, row, outer, db);
    assert forall q | q in ps :: q in push || q in rest;
  }

  /** What the conjuncts make of a group key alone. */
  function KeyTruth(push: seq<Pred>, keys: seq<ColumnRef>, outer: seq<Row>, db: Db): seq<Cell> -> Truth {
    key => if |key| == |keys| then EvalPreds(push, KeyRow(keys, key), outer, db) else Error
  }

  lemma KeyRowIn(keys: seq<ColumnRef>, header: seq<Field>, row: Row, env: Env)
    requires InputKeys(keys, header) && RowFits(header, row)
    ensures Extends(KeyRow(keys, KeyOf(keys, row, env)), row)
    ensures forall i | 0 <= i < |keys| :: KeyOf(keys, row, env)[i].Type() == keys[i].ty
  {
    SourceAgrees(keys, header, row, env);
    KeyRowNames(keys, KeyOf(keys, row, env));
    hide KeyRow, KeyOf, InputKeys, RowFits;
  }

  lemma KeyRowNames(keys: seq<ColumnRef>, key: seq<Cell>)
    requires |key| == |keys|
    ensures KeyRow(keys, key).Keys == KeyNames(keys)
  {
    var ids := seq(|keys|, i requires 0 <= i < |keys| => keys[i].id);
    assert forall i | 0 <= i < |keys| :: ids[i] == keys[i].id && ids[i] in ids;
  }

  /** A group's output row is its key, and the aggregates. */
  lemma OutputIsKey(keys: seq<ColumnRef>, aggs: seq<AggExpr>, rows: seq<Row>, key: seq<Cell>, env: Env)
    requires DistinctIds(AggregateHeader(keys, aggs)) && DistinctKeys(keys) && GroupRow(keys, aggs, rows, env)(key).Ok?
    requires |key| == |keys| && forall i | 0 <= i < |keys| :: key[i].Type() == keys[i].ty
    ensures SameExcept(OutputIds(aggs), GroupRow(keys, aggs, rows, env)(key).value, KeyRow(keys, key))
  {
    GroupRowAgrees(keys, aggs, rows, key, env);
    KeyRowNames(keys, key);
    GroupRowNames(keys, aggs, rows, key, env);
    hide GroupRow, KeyRow, DistinctIds;
  }

  lemma HeaderHolds(keys: seq<ColumnRef>, aggs: seq<AggExpr>, id: Ident)
    requires id in KeyNames(keys) + OutputIds(aggs)
    ensures id in Ids(AggregateHeader(keys, aggs))
  {
    var ids := Ids(AggregateHeader(keys, aggs));
    if id in KeyNames(keys) {
      var i :| 0 <= i < |keys| && keys[i].id == id;
      assert ids[i] == id;
    } else {
      var i :| 0 <= i < |aggs| && Ident("", aggs[i].name) == id;
      assert ids[|keys| + i] == id;
    }
  }

  lemma HeaderHoldsOnly(keys: seq<ColumnRef>, aggs: seq<AggExpr>, id: Ident)
    requires id in Ids(AggregateHeader(keys, aggs))
    ensures id in KeyNames(keys) + OutputIds(aggs)
  {
    var header := AggregateHeader(keys, aggs);
    var i :| 0 <= i < |header| && Ids(header)[i] == id;
    if i >= |keys| {
      assert header[|keys| + (i - |keys|)].id == Ident("", aggs[i - |keys|].name);
    }
  }

  lemma GroupRowIds(keys: seq<ColumnRef>, aggs: seq<AggExpr>, rows: seq<Row>, key: seq<Cell>, env: Env)
    requires GroupRow(keys, aggs, rows, env)(key).Ok?
    ensures forall id :: id in GroupRow(keys, aggs, rows, env)(key).value <==> id in Ids(AggregateHeader(keys, aggs))
  {
    hide AggCells, Members;
  }

  lemma GroupRowNames(keys: seq<ColumnRef>, aggs: seq<AggExpr>, rows: seq<Row>, key: seq<Cell>, env: Env)
    requires GroupRow(keys, aggs, rows, env)(key).Ok?
    ensures GroupRow(keys, aggs, rows, env)(key).value.Keys == KeyNames(keys) + OutputIds(aggs)
  {
    hide GroupRow, KeyNames, OutputIds;
    GroupRowIds(keys, aggs, rows, key, env);
    forall id | id in KeyNames(keys) + OutputIds(aggs) ensures id in Ids(AggregateHeader(keys, aggs)) {
      HeaderHolds(keys, aggs, id);
    }
    forall id | id in Ids(AggregateHeader(keys, aggs)) ensures id in KeyNames(keys) + OutputIds(aggs) {
      HeaderHoldsOnly(keys, aggs, id);
    }
  }

  lemma KeysAreNotOutputs(keys: seq<ColumnRef>, aggs: seq<AggExpr>)
    requires DistinctIds(AggregateHeader(keys, aggs))
    ensures KeyNames(keys) !! OutputIds(aggs)
  {
    var header := AggregateHeader(keys, aggs);
    forall i, j | 0 <= i < |keys| && 0 <= j < |aggs| ensures keys[i].id != Ident("", aggs[j].name) {
      assert header[i].id != header[|keys| + j].id;
    }
  }

  lemma PushedAvoid(p: Plan, db: Db)
    requires AggregateBound(p, db) && DistinctIds(AggregateHeader(p.kids[0].op.keys, p.kids[0].op.aggs))
    ensures ListAvoids(Pushable(p.op.preds, p.kids[0].op.keys, true), OutputIds(p.kids[0].op.aggs))
  {
    var keys, aggs := p.kids[0].op.keys, p.kids[0].op.aggs;
    KeysAreNotOutputs(keys, aggs);
    hide BoundPred, SubqueriesAvoid, RefColumns, DistinctIds, InputKeys, KeyNames, OutputIds;
    forall q | q in Pushable(p.op.preds, keys, true) ensures BoundPred(q) && RefColumns(q) !! OutputIds(aggs) && SubqueriesAvoid(q, OutputIds(aggs)) {
      assert q in p.op.preds && OnlyGroupKeys(q, keys);
    }
  }

  lemma KeysDecideRow(push: seq<Pred>, keys: seq<ColumnRef>, aggs: seq<AggExpr>, header: seq<Field>, rows: seq<Row>, i: int, outer: seq<Row>, db: Db, env: Env)
    requires InputKeys(keys, header) && DistinctIds(AggregateHeader(keys, aggs)) && ListAvoids(push, OutputIds(aggs))
    requires 0 <= i < |rows| && RowFits(header, rows[i])
    ensures var key := KeyOf(keys, rows[i], env);
            var t := EvalPreds(push, KeyRow(keys, key), outer, db);
            && (t != Error ==> EvalPreds(push, rows[i], outer, db) == t)
            && (GroupRow(keys, aggs, rows, env)(key).Ok? ==> EvalPreds(push, GroupRow(keys, aggs, rows, env)(key).value, outer, db) == t)
  {
    assert DistinctKeys(keys);
    hide *;
    var key := KeyOf(keys, rows[i], env);
    KeyRowIn(keys, header, rows[i], env);
    WidensItself(outer);
    PredsStay(push, KeyRow(keys, key), rows[i], outer, outer, db);
    if GroupRow(keys, aggs, rows, env)(key).Ok? {
      OutputIsKey(keys, aggs, rows, key, env);
      PredsSee(push, OutputIds(aggs), GroupRow(keys, aggs, rows, env)(key).value, KeyRow(keys, key), outer, db);
    }
  }

  lemma PushedKeysDecide(p: Plan, rel: Rel, outer: seq<Row>, db: Db)
    requires AggregateBound(p, db) && DistinctIds(AggregateHeader(p.kids[0].op.keys, p.kids[0].op.aggs))
    requires WellFormedRel(rel) && rel.header == ColumnsOf(p.kids[0].kids[0], db)
    ensures var keys := p.kids[0].op.keys;
            var push := Pushable(p.op.preds, keys, true);
            KeysDecide(KeyTruth(push, keys, outer, db), PredsFn(push, outer, db), keys, p.kids[0].op.aggs, rel.rows, OuterEnv(OwnColumns(p.kids[0].op), outer))
  {
    var keys, aggs, env := p.kids[0].op.keys, p.kids[0].op.aggs, OuterEnv(OwnColumns(p.kids[0].op), outer);
    var push := Pushable(p.op.preds, keys, true);
    assert InputKeys(keys, rel.header);
    PredsFnAt(push, outer, db);
    PushedAvoid(p, db);
    hide EvalPreds, GroupRow, KeyRow, InputKeys, DistinctIds, ListAvoids, OutputIds, RowFits, Pushable, ColumnsOf, OwnColumns, OuterEnv, AggregateBound, KeyOf, PredsFn;
    forall i | 0 <= i < |rel.rows|
      ensures var key := KeyOf(keys, rel.rows[i], env);
              var t := EvalPreds(push, KeyRow(keys, key), outer, db);
              && (t != Error ==> EvalPreds(push, rel.rows[i], outer, db) == t)
              && (GroupRow(keys, aggs, rel.rows, env)(key).Ok? ==> EvalPreds(push, GroupRow(keys, aggs, rel.rows, env)(key).value, outer, db) == t)
    {
      KeysDecideRow(push, keys, aggs, rel.header, rel.rows, i, outer, db, env);
    }
  }

  /** Where the original succeeds, so does the pushed plan, with the same rows. */
  lemma PushKeepsResult(p: Plan, outer: seq<Row>, db: Db)
    requires AggregateBound(p, db) && FilterThroughAggregate(p).Some? && Run(p, outer, db).Ok?
    ensures Run(FilterThroughAggregate(p).value, outer, db) == Run(p, outer, db)
  {
    AggregatePlans(p, outer, db);
    var keys, aggs, x := p.kids[0].op.keys, p.kids[0].op.aggs, p.kids[0].kids[0];
    var env, push := OuterEnv(OwnColumns(Aggregate(keys, aggs)), outer), Pushable(p.op.preds, keys, true);
    assert p.kids[0].op == Aggregate(keys, aggs);
    RunFits(x, outer, db);
    var rel := Run(x, outer, db).value;
    HavingFails(keys, aggs, rel, env, PredsFn(p.op.preds, outer, db));
    hide Run, PreparedPreds, PredsFn, OwnColumns, OuterEnv, Pushable, FilterThroughAggregate, AggregateBound, KeyTruth, Having, PushedHaving, KeysDecide, MadeOf, SomeGroupFails,
         ColumnsOf, WellFormedRel, RowFits, AggregateResolves, DistinctIds;
    PushedKeysDecide(p, rel, outer, db);
    PushableMadeOf(p.op.preds, keys, outer, db);
    PushedHavingKept(keys, aggs, rel, env, KeyTruth(push, keys, outer, db), PredsFn(p.op.preds, outer, db), PredsFn(push, outer, db),
                     PredsFn(Pushable(p.op.preds, keys, false), outer, db));
  }

  /** Pushing group-key conjuncts below the aggregate keeps the outcome exactly when it is harmless; otherwise a plan
    that failed now succeeds. Nothing is asked of the conjuncts that stay. */
  lemma FilterThroughAggregateExactly(p: Plan, outer: seq<Row>, db: Db)
    requires AggregateBound(p, db) && FilterThroughAggregate(p).Some?
    ensures Run(FilterThroughAggregate(p).value, outer, db) == Run(p, outer, db) <==> AggregatePushIsHarmless(p, outer, db)
    ensures !AggregatePushIsHarmless(p, outer, db) ==> Run(p, outer, db).Fails? && Run(FilterThroughAggregate(p).value, outer, db).Ok?
  {
    AggregatePlans(p, outer, db);
    var keys, aggs, x := p.kids[0].op.keys, p.kids[0].op.aggs, p.kids[0].kids[0];
    var env := OuterEnv(OwnColumns(Aggregate(keys, aggs)), outer);
    assert p.kids[0].op == Aggregate(keys, aggs);
    hide Run, PreparedPreds, PredsFn, OwnColumns, OuterEnv, Pushable, FilterThroughAggregate, AggregateBound, Having, PushedHaving, SomeGroupFails, SomeRowFails, Keep,
         AggregateForms;
    if Run(p, outer, db).Ok? {
      PushKeepsResult(p, outer, db);
    }
    if PreparedPreds(p.op.preds, outer, db) && Run(x, outer, db).Ok? {
      var rel := Run(x, outer, db).value;
      HavingFails(keys, aggs, rel, env, PredsFn(p.op.preds, outer, db));
      PushedHavingFails(keys, aggs, rel, env, PredsFn(Pushable(p.op.preds, keys, true), outer, db), PredsFn(Pushable(p.op.preds, keys, false), outer, db));
    }
  }
}
