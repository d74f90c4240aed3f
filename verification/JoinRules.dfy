/** The memo rules that move filter conjuncts into joins, turn LEFT joins into INNER ones, and re-order
  INNER joins, as plan transformations. A conjunct is placed whole, by the tables its operands name.
 */
module JoinRules {
  import opened Plans
  import opened Sequences
  import opened Values
  import opened Algebra
  import opened Semantics
  import opened Shapes
  import opened Correlation
  import opened FilterRuleSoundness
  import opened JoinAlgebra
  import opened RewriteFixpoint

  // ---------------------------------------------------------------- tables and classes

  function ScalarTables(e: Scalar): set<string> {
    if e.Column? then {e.col.id.binding} else {}
  }

  /** The tables named by a predicate's own operands; a subquery's columns do not count. */
  function RefTables(p: Pred): set<string> {
    match p
    case Cmp(l, _, r) => ScalarTables(l) + ScalarTables(r)
    case IsNull(e) => ScalarTables(e)
    case IsNotNull(e) => ScalarTables(e)
    case In(e, _) => ScalarTables(e)
    case NotIn(e, _) => ScalarTables(e)
    case And(l, r) => RefTables(l) + RefTables(r)
    case Or(l, r) => RefTables(l) + RefTables(r)
    case _ => {}
  }

  /** The tables whose columns a plan exposes. */
  function OutputTables(p: Plan): set<string>
    decreases p
  {
    match p.op
    case Scan(_, binding) => {binding}
    case Join(kind, _, _) =>
      if |p.kids| != 2 then {}
      else if EmitsRight(kind) then OutputTables(p.kids[0]) + OutputTables(p.kids[1])
      else OutputTables(p.kids[0])
    case _ => if p.kids == [] then {} else OutputTables(p.kids[0])
  }

  datatype Place = AtLeft | AtRight | AtJoin | AtResidual

  /** Where a conjunct above an INNER join goes. */
  function InnerPlace(p: Pred, lt: set<string>, rt: set<string>): Place {
    var refs := RefTables(p);
    if refs == {} then AtResidual
    else if refs <= lt && !(refs <= rt) then AtLeft
    else if refs <= rt && !(refs <= lt) then AtRight
    else if p.Cmp? && refs <= lt + rt && refs * lt != {} && refs * rt != {} then AtJoin
    else AtResidual
  }

  /** Where a conjunct above a join that exposes only its left side goes. */
  function ExistencePlace(p: Pred, lt: set<string>): Place {
    if RefTables(p) != {} && RefTables(p) <= lt then AtLeft else AtResidual
  }

  function PlaceOf(kind: JoinKind, p: Pred, lt: set<string>, rt: set<string>): Place {
    if kind == Inner then InnerPlace(p, lt, rt) else ExistencePlace(p, lt)
  }

  function Placed(kind: JoinKind, ps: seq<Pred>, at: Place, lt: set<string>, rt: set<string>): (r: seq<Pred>)
    ensures forall q :: q in r <==> q in ps && PlaceOf(kind, q, lt, rt) == at
  {
    if ps == [] then []
    else
      assert ps == ps[..|ps| - 1] + [ps[|ps| - 1]];
      Placed(kind, ps[..|ps| - 1], at, lt, rt) + if PlaceOf(kind, ps[|ps| - 1], lt, rt) == at then [ps[|ps| - 1]] else []
  }

  function Filtered(perm: OrderPermission, ps: seq<Pred>, kid: Plan): Plan {
    if ps == [] then kid else Node(perm, Filter(ps), [kid])
  }

  predicate FilterOverJoin(p: Plan) {
    p.op.Filter? && |p.kids| == 1 && p.kids[0].op.Join? && |p.kids[0].kids| == 2
  }

  /** Splits the conjuncts above a join and moves what can be moved. */
  function FilterIntoJoin(p: Plan): Option<Plan> {
    if !FilterOverJoin(p) || p.kids[0].op.kind == JoinKind.Left then None
    else
      var join := p.kids[0];
      var kind, l, r := join.op.kind, join.kids[0], join.kids[1];
      var lt, rt := OutputTables(l), OutputTables(r);
      var atLeft, atRight := Placed(kind, p.op.preds, AtLeft, lt, rt), Placed(kind, p.op.preds, AtRight, lt, rt);
      var atJoin, residual := Placed(kind, p.op.preds, AtJoin, lt, rt), Placed(kind, p.op.preds, AtResidual, lt, rt);
      if atLeft == [] && atRight == [] && atJoin == [] then None
      else
        var pushed := Node(p.perm, Join(kind, join.op.on + atJoin, join.op.membership),
                           [Filtered(l.perm, atLeft, l), Filtered(r.perm, atRight, r)]);
        Some(Filtered(p.perm, residual, pushed))
  }

  // ---------------------------------------------------------------- steady predicate lists

  /** Predicates that read existing columns, own no correlated subquery, and whose subqueries are prepared. */
  ghost predicate SteadyList(ps: seq<Pred>, names: set<Ident>, outer: seq<Row>, db: Db) {
    AllResolve(ps, names, outer) && AllUncorrelated(ps, db) && PreparedPreds(ps, outer, db)
  }

  function Passes(ps: seq<Pred>, outer: seq<Row>, db: Db): Row -> bool {
    IsTrue(PredsFn(ps, outer, db))
  }

  lemma PassesIs(ps: seq<Pred>, outer: seq<Row>, db: Db)
    ensures forall row :: Passes(ps, outer, db)(row) <==> EvalPreds(ps, row, outer, db) == True
  {
    hide EvalPreds;
    PredsFnAt(ps, outer, db);
  }

  lemma {:induction false} AllTrue(ps: seq<Pred>, row: Row, outer: seq<Row>, db: Db)
    ensures EvalPreds(ps, row, outer, db) == True <==> forall i | 0 <= i < |ps| :: EvalPred(ps[i], row, outer, db) == True
  {
    hide EvalPred;
    if ps != [] {
      AllTrue(ps[..|ps| - 1], row, outer, db);
    }
  }

  lemma SteadyTotal(ps: seq<Pred>, names: set<Ident>, row: Row, outer: seq<Row>, db: Db)
    requires SteadyList(ps, names, outer, db) && names <= row.Keys
    ensures PredsFn(ps, outer, db)(row) != Error
  {
    hide EvalPreds, ColumnsResolve, Uncorrelated, PreparedPred;
    PredsFnAt(ps, outer, db);
    SteadyPreds(ps, names, row, outer, db);
  }

  /** Two rows that agree on the columns a predicate may read. */
  ghost predicate AgreeOn(names: set<Ident>, x: Row, y: Row) {
    forall id | id in names :: id in x && id in y && x[id] == y[id]
  }

  lemma {:induction false} KeepAll(xs: seq<Row>, b: Row -> bool)
    requires forall row :: b(row)
    ensures Keep(xs, b) == xs
  {
    if xs != [] { KeepAll(xs[..|xs| - 1], b); }
  }

  lemma NoFilter(rows: seq<Row>, outer: seq<Row>, db: Db)
    ensures Keep(rows, Passes([], outer, db)) == rows
  {
    hide EvalPreds, Keep;
    PassesIs([], outer, db);
    forall row: Row ensures Passes([], outer, db)(row) {
      NoPreds(row, outer, db);
    }
    KeepAll(rows, Passes([], outer, db));
  }

  // ---------------------------------------------------------------- sides

  /** Every named column belongs to one of the tables; computed columns have no binding. */
  predicate Side(header: seq<Field>, tables: set<string>) {
    "" !in tables && forall i | 0 <= i < |header| :: header[i].id.binding != "" ==> header[i].id.binding in tables
  }

  lemma SideNames(header: seq<Field>, tables: set<string>, id: Ident)
    requires Side(header, tables) && id in Names(header)
    ensures id.binding == "" || id.binding in tables
  {
  }

  lemma ScalarNarrows(e: Scalar, lh: seq<Field>, rh: seq<Field>, lt: set<string>, rt: set<string>, outer: seq<Row>)
    requires ColumnResolves(e, Names(lh) + Names(rh), outer) && ScalarTables(e) <= lt
    requires "" !in lt && Side(rh, rt) && lt !! rt
    ensures ColumnResolves(e, Names(lh), outer)
  {
    if e.Column? && e.col.depth == 0 && e.col.id in Names(rh) {
      SideNames(rh, rt, e.col.id);
    }
  }

  /** A conjunct over one side's tables reads only that side's columns. */
  lemma {:induction false} Narrows(p: Pred, lh: seq<Field>, rh: seq<Field>, lt: set<string>, rt: set<string>, outer: seq<Row>)
    requires ColumnsResolve(p, Names(lh) + Names(rh), outer) && RefTables(p) <= lt
    requires "" !in lt && Side(rh, rt) && lt !! rt
    ensures ColumnsResolve(p, Names(lh), outer)
  {
    hide ColumnResolves, Side, ScalarTables;
    match p
    case Cmp(l, _, r) =>
      ScalarNarrows(l, lh, rh, lt, rt, outer);
      ScalarNarrows(r, lh, rh, lt, rt, outer);
    case IsNull(e) => ScalarNarrows(e, lh, rh, lt, rt, outer);
    case IsNotNull(e) => ScalarNarrows(e, lh, rh, lt, rt, outer);
    case In(e, _) => ScalarNarrows(e, lh, rh, lt, rt, outer);
    case NotIn(e, _) => ScalarNarrows(e, lh, rh, lt, rt, outer);
    case And(l, r) =>
      Narrows(l, lh, rh, lt, rt, outer);
      Narrows(r, lh, rh, lt, rt, outer);
    case Or(l, r) =>
      Narrows(l, lh, rh, lt, rt, outer);
      Narrows(r, lh, rh, lt, rt, outer);
    case _ =>
  }

  lemma SteadySubset(ps: seq<Pred>, qs: seq<Pred>, names: set<Ident>, outer: seq<Row>, db: Db)
    requires SteadyList(ps, names, outer, db) && forall i | 0 <= i < |qs| :: qs[i] in ps
    ensures SteadyList(qs, names, outer, db)
  {
    hide ColumnsResolve, Uncorrelated, PreparedPred;
    forall i | 0 <= i < |qs|
      ensures ColumnsResolve(qs[i], names, outer) && Uncorrelated(qs[i], db) && PreparedPred(qs[i], outer, db)
    {
      var k :| 0 <= k < |ps| && ps[k] == qs[i];
    }
  }

  lemma PlacedSteady(kind: JoinKind, ps: seq<Pred>, at: Place, lt: set<string>, rt: set<string>, names: set<Ident>, outer: seq<Row>, db: Db)
    requires SteadyList(ps, names, outer, db)
    ensures SteadyList(Placed(kind, ps, at, lt, rt), names, outer, db)
  {
    hide SteadyList, PlaceOf;
    var qs := Placed(kind, ps, at, lt, rt);
    forall i | 0 <= i < |qs| ensures qs[i] in ps {
      assert qs[i] in qs;
    }
    SteadySubset(ps, qs, names, outer, db);
  }

  lemma SteadyAppend(ps: seq<Pred>, qs: seq<Pred>, names: set<Ident>, outer: seq<Row>, db: Db)
    requires SteadyList(ps, names, outer, db) && SteadyList(qs, names, outer, db)
    ensures SteadyList(ps + qs, names, outer, db)
  {
    hide ColumnsResolve, Uncorrelated, PreparedPred;
  }

  /** Left-placed conjuncts are steady over the left columns alone. */
  lemma PlacedLeftSteady(kind: JoinKind, ps: seq<Pred>, lh: seq<Field>, rh: seq<Field>, lt: set<string>, rt: set<string>, outer: seq<Row>, db: Db)
    requires SteadyList(ps, Names(lh) + Names(rh), outer, db) && "" !in lt && Side(rh, rt) && lt !! rt
    ensures SteadyList(Placed(kind, ps, AtLeft, lt, rt), Names(lh), outer, db)
  {
    hide ColumnsResolve, Uncorrelated, PreparedPreds, Side;
    PlacedSteady(kind, ps, AtLeft, lt, rt, Names(lh) + Names(rh), outer, db);
    var qs := Placed(kind, ps, AtLeft, lt, rt);
    forall i | 0 <= i < |qs| ensures ColumnsResolve(qs[i], Names(lh), outer) {
      assert qs[i] in qs;
      Narrows(qs[i], lh, rh, lt, rt, outer);
    }
  }

  lemma PlacedRightSteady(ps: seq<Pred>, lh: seq<Field>, rh: seq<Field>, lt: set<string>, rt: set<string>, outer: seq<Row>, db: Db)
    requires SteadyList(ps, Names(lh) + Names(rh), outer, db) && "" !in rt && Side(lh, lt) && lt !! rt
    ensures SteadyList(Placed(Inner, ps, AtRight, lt, rt), Names(rh), outer, db)
  {
    hide ColumnsResolve, Uncorrelated, PreparedPreds, Side;
    PlacedSteady(Inner, ps, AtRight, lt, rt, Names(lh) + Names(rh), outer, db);
    var qs := Placed(Inner, ps, AtRight, lt, rt);
    assert Names(lh) + Names(rh) == Names(rh) + Names(lh);
    forall i | 0 <= i < |qs| ensures ColumnsResolve(qs[i], Names(rh), outer) {
      assert qs[i] in qs;
      Narrows(qs[i], rh, lh, rt, lt, outer);
    }
  }
}
