/** The meaning of a plan: what the row-at-a-time engine returns, without its subquery cache.
  `outer` holds the rows of the enclosing query blocks, innermost last.
 */
module Semantics {
  import opened Plans
  import opened Sequences
  import opened Values
  import opened Algebra
  import opened Windows

  // ---------------------------------------------------------------- operator columns

  function AggColumns(aggs: seq<AggExpr>): seq<ColumnRef> {
    if aggs == [] then []
    else AggColumns(aggs[..|aggs| - 1]) + (match aggs[|aggs| - 1].arg case None => [] case Some(c) => [c])
  }

  function WinColumns(wins: seq<WinExpr>): seq<ColumnRef> {
    if wins == [] then []
    else
      var w := wins[|wins| - 1];
      WinColumns(wins[..|wins| - 1]) + (match w.arg case None => [] case Some(c) => [c]) + w.partition + OrderColumns(w.order)
  }

  /** The columns an operator reads itself, outside scalar and predicate expressions. */
  function OwnColumns(op: Op): seq<ColumnRef> {
    match op
    case Aggregate(keys, aggs) => keys + AggColumns(aggs)
    case Window(wins) => WinColumns(wins)
    case Sort(order) => OrderColumns(order)
    case _ => []
  }

  // ---------------------------------------------------------------- expressions

  /** A scalar subquery yields its single cell, or NULL over no rows. */
  function ScalarResult(rel: Rel, ty: ColumnType): Outcome<Cell> {
    if rel.rows == [] then Ok(Null(ty))
    else if |rel.rows| > 1 || |rel.header| != 1 || rel.header[0].id !in rel.rows[0] then Fails
    else if rel.rows[0][rel.header[0].id].Null? then Ok(Null(ty))
    else Ok(rel.rows[0][rel.header[0].id])
  }

  function MemberResult(v: Cell, rel: Rel): Truth {
    if rel.rows == [] then False
    else if |rel.header| != 1 then Error
    else MemberTruth(v, seq(|rel.rows|, i requires 0 <= i < |rel.rows| => CellsOf(rel.header, rel.rows[i])[0]))
  }

  function ComparisonResult(a: Outcome<Cell>, op: CmpOp, b: Outcome<Cell>): Truth {
    if a.Fails? || b.Fails? then Error
    else if a.value.Null? || b.value.Null? then Unknown
    else TruthOf(Compare(a.value, op, b.value))
  }

  function EvalScalar(e: Scalar, row: Row, outer: seq<Row>, db: Db): Outcome<Cell>
    decreases e
  {
    match e
    case Column(c) =>
      if c.depth != 0 then OuterCell(c, outer) else if c.id in row then Ok(row[c.id]) else Fails
    case IntLit(i) => Ok(IntV(i))
    case StrLit(s) => Ok(StrV(s))
    case NullLit(ty) => Ok(Null(ty))
    case ScalarQuery(sub, ty) =>
      match EvalSub(sub, row, outer, db)
      case Fails => Fails
      case Ok(rel) => ScalarResult(rel, ty)
  }

  function EvalIn(v: Outcome<Cell>, sub: Subplan, row: Row, outer: seq<Row>, db: Db): Truth
    decreases sub, 1
  {
    if v.Fails? then Error
    else
      match EvalSub(sub, row, outer, db)
      case Fails => Error
      case Ok(rel) => MemberResult(v.value, rel)
  }

  function EvalExists(sub: Subplan, row: Row, outer: seq<Row>, db: Db): Truth
    decreases sub, 1
  {
    match EvalSub(sub, row, outer, db)
    case Fails => Error
    case Ok(rel) => TruthOf(rel.rows != [])
  }

  function EvalPred(p: Pred, row: Row, outer: seq<Row>, db: Db): Truth
    decreases p
  {
    match p
    case Cmp(l, op, r) => ComparisonResult(EvalScalar(l, row, outer, db), op, EvalScalar(r, row, outer, db))
    case IsNull(e) => (
      match EvalScalar(e, row, outer, db)
      case Fails => Error
      case Ok(v) => TruthOf(v.Null?))
    case IsNotNull(e) => (
      match EvalScalar(e, row, outer, db)
      case Fails => Error
      case Ok(v) => TruthOf(!v.Null?))
    case In(e, sub) => EvalIn(EvalScalar(e, row, outer, db), sub, row, outer, db)
    case NotIn(e, sub) => NotTruth(EvalIn(EvalScalar(e, row, outer, db), sub, row, outer, db))
    case Exists(sub) => EvalExists(sub, row, outer, db)
    case NotExists(sub) => NotTruth(EvalExists(sub, row, outer, db))
    case And(l, r) => AndTruth(EvalPred(l, row, outer, db), EvalPred(r, row, outer, db))
    case Or(l, r) => OrTruth(EvalPred(l, row, outer, db), EvalPred(r, row, outer, db))
  }

  /** The conjunction of a predicate list. */
  function EvalPreds(ps: seq<Pred>, row: Row, outer: seq<Row>, db: Db): Truth
    decreases ps, 0
  {
    if ps == [] then True
    else AndTruth(EvalPreds(ps[..|ps| - 1], row, outer, db), EvalPred(ps[|ps| - 1], row, outer, db))
  }

  function EvalProjs(projs: seq<Projection>, row: Row, outer: seq<Row>, db: Db): (r: Outcome<seq<Cell>>)
    ensures r.Ok? ==> |r.value| == |projs|
    decreases projs, 0
  {
    if projs == [] then Ok([])
    else
      var e := projs[|projs| - 1].expr;
      match EvalProjs(projs[..|projs| - 1], row, outer, db)
      case Fails => Fails
      case Ok(cells) =>
        match EvalScalar(e, row, outer, db)
        case Fails => Fails
        case Ok(v) => Ok(cells + [Cast(e.Type(), v)])
  }

  /** A correlated subquery sees the owner row as one more frame. */
  function EvalSub(sub: Subplan, row: Row, outer: seq<Row>, db: Db): Outcome<Rel>
    decreases sub, 0
  {
    Run(sub.plan, if sub.corr == [] then outer else outer + [row], db)
  }

  // ---------------------------------------------------------------- relational operators

  function PredsFn(ps: seq<Pred>, outer: seq<Row>, db: Db): Row -> Truth
    decreases ps, 1
  {
    row => EvalPreds(ps, row, outer, db)
  }

  function MemberFn(p: Option<Pred>, outer: seq<Row>, db: Db): Row -> Truth
    decreases p, 1
  {
    row => match p case None => False case Some(m) => EvalPred(m, row, outer, db)
  }

  function ProjectHeader(projs: seq<Projection>): (r: seq<Field>)
    ensures |r| == |projs| && forall i | 0 <= i < |r| :: r[i] == Field(Ident("", projs[i].name), projs[i].expr.Type())
  {
    seq(|projs|, i requires 0 <= i < |projs| => Field(Ident("", projs[i].name), projs[i].expr.Type()))
  }

  function ProjectFn(projs: seq<Projection>, outer: seq<Row>, db: Db): Row -> Outcome<Row>
    decreases projs, 1
  {
    row =>
      match EvalProjs(projs, row, outer, db)
      case Fails => Fails
      case Ok(cells) => Ok(MakeRow(Ids(ProjectHeader(projs)), cells))
  }

  function ProjectRel(header: seq<Field>, rel: Rel, f: Row -> Outcome<Row>): Outcome<Rel> {
    if !DistinctIds(header) then Fails
    else
      match MapAll(rel.rows, f)
      case Fails => Fails
      case Ok(rows) => Ok(Rel(header, rows))
  }

  /** The shape checks of execution. A batch without columns has no rows, so an operator that would
    produce one is not considered. */
  predicate Executable(op: Op) {
    match op
    case Project(projs) => projs != []
    case Aggregate(keys, aggs) => keys != [] || aggs != []
    case Join(kind, _, membership) =>
      (kind == NullAwareAnti <==> membership.Some?) && (membership.Some? ==> IsMembership(membership.value))
    case _ => true
  }

  /** The result of a plan, once its uncorrelated subqueries have been prepared. */
  function Eval(p: Plan, outer: seq<Row>, db: Db): Outcome<Rel>
    decreases p, 0
  {
    var op := p.op;
    if !Executable(op) || |p.kids| != Arity(op) then Fails
    else if op.Scan? then
      if op.table in db then ScanRel(op.binding, db[op.table]) else Fails
    else if op.Join? then
      match Eval(p.kids[0], outer, db)
      case Fails => Fails
      case Ok(left) =>
        match Eval(p.kids[1], outer, db)
        case Fails => Fails
        case Ok(right) => JoinRel(op.kind, PredsFn(op.on, outer, db), MemberFn(op.membership, outer, db), left, right)
    else if op.Sort? && p.kids[0].op.Project? && |p.kids[0].kids| == 1 then
      match Eval(p.kids[0].kids[0], outer, db)
      case Fails => Fails
      case Ok(source) =>
        match Eval(p.kids[0], outer, db)
        case Fails => Fails
        case Ok(projected) => SortProjected(op.order, source, projected, OuterEnv(OwnColumns(op), outer))
    else
      match Eval(p.kids[0], outer, db)
      case Fails => Fails
      case Ok(rel) =>
        match op
        case Filter(preds) => FilterRel(rel, PredsFn(preds, outer, db))
        case Project(projs) => ProjectRel(ProjectHeader(projs), rel, ProjectFn(projs, outer, db))
        case Aggregate(keys, aggs) => AggregateRel(keys, aggs, rel, OuterEnv(OwnColumns(op), outer))
        case Window(wins) => WindowRel(wins, rel, OuterEnv(OwnColumns(op), outer))
        case Distinct => Ok(DistinctRel(rel))
        case Sort(order) => SortRel(order, rel, OuterEnv(OwnColumns(op), outer))
        case Limit(count) => Ok(LimitRel(count, rel))
  }

  lemma EvalFilter(perm: OrderPermission, ps: seq<Pred>, kid: Plan, outer: seq<Row>, db: Db)
    ensures Eval(Node(perm, Filter(ps), [kid]), outer, db) ==
            match Eval(kid, outer, db) case Fails => Fails case Ok(rel) => FilterRel(rel, PredsFn(ps, outer, db))
  {
    hide FilterRel, PredsFn;
  }

  lemma EvalProject(perm: OrderPermission, projs: seq<Projection>, kid: Plan, outer: seq<Row>, db: Db)
    requires projs != []
    ensures Eval(Node(perm, Project(projs), [kid]), outer, db) ==
            match Eval(kid, outer, db) case Fails => Fails case Ok(rel) => ProjectRel(ProjectHeader(projs), rel, ProjectFn(projs, outer, db))
  {
    hide ProjectRel, ProjectFn;
  }

  lemma EvalJoin(perm: OrderPermission, op: Op, l: Plan, r: Plan, outer: seq<Row>, db: Db)
    requires op.Join? && Executable(op) && Eval(l, outer, db).Ok? && Eval(r, outer, db).Ok?
    ensures Eval(Node(perm, op, [l, r]), outer, db) ==
            JoinRel(op.kind, PredsFn(op.on, outer, db), MemberFn(op.membership, outer, db), Eval(l, outer, db).value, Eval(r, outer, db).value)
  {
    hide JoinRel, PredsFn, MemberFn;
  }

  // ---------------------------------------------------------------- eager preparation

  predicate PreparedSub(sub: Subplan, outer: seq<Row>, db: Db)
    decreases sub, 1
  {
    sub.corr != [] || Run(sub.plan, outer, db).Ok?
  }

  predicate PreparedScalar(e: Scalar, outer: seq<Row>, db: Db)
    decreases e
  {
    match e
    case ScalarQuery(sub, _) =>
      sub.corr != [] || (var r := Run(sub.plan, outer, db); r.Ok? && |r.value.rows| <= 1)
    case _ => true
  }

  predicate PreparedPred(p: Pred, outer: seq<Row>, db: Db)
    decreases p
  {
    match p
    case Cmp(l, _, r) => PreparedScalar(l, outer, db) && PreparedScalar(r, outer, db)
    case IsNull(e) => PreparedScalar(e, outer, db)
    case IsNotNull(e) => PreparedScalar(e, outer, db)
    case In(e, sub) => PreparedScalar(e, outer, db) && PreparedSub(sub, outer, db)
    case NotIn(e, sub) => PreparedScalar(e, outer, db) && PreparedSub(sub, outer, db)
    case Exists(sub) => PreparedSub(sub, outer, db)
    case NotExists(sub) => PreparedSub(sub, outer, db)
    case And(l, r) => PreparedPred(l, outer, db) && PreparedPred(r, outer, db)
    case Or(l, r) => PreparedPred(l, outer, db) && PreparedPred(r, outer, db)
  }

  predicate PreparedPreds(ps: seq<Pred>, outer: seq<Row>, db: Db)
    decreases ps, 0
  {
    forall i | 0 <= i < |ps| :: PreparedPred(ps[i], outer, db)
  }

  predicate PreparedOp(op: Op, outer: seq<Row>, db: Db)
    decreases op
  {
    match op
    case Filter(preds) => PreparedPreds(preds, outer, db)
    case Project(projs) => forall i | 0 <= i < |projs| :: PreparedScalar(projs[i].expr, outer, db)
    case Join(_, on, membership) =>
      PreparedPreds(on, outer, db) && (membership.Some? ==> PreparedPred(membership.value, outer, db))
    case _ => true
  }

  /** Every uncorrelated subquery of the plan's relational nodes evaluates. They are evaluated before
    any row is produced, so one that fails does so even over empty inputs. */
  predicate Prepared(p: Plan, outer: seq<Row>, db: Db)
    decreases p, 0
  {
    PreparedOp(p.op, outer, db) && forall i | 0 <= i < |p.kids| :: Prepared(p.kids[i], outer, db)
  }

  function Run(p: Plan, outer: seq<Row>, db: Db): Outcome<Rel>
    decreases p, 1
  {
    if Prepared(p, outer, db) then Eval(p, outer, db) else Fails
  }

  /** What the engine returns for a top-level query. */
  function Interpret(p: Plan, db: Db): Outcome<Rel> {
    Run(p, [], db)
  }
}
