/** Well-typed plans without subqueries: every column is found with its declared type, and comparisons and
  aggregates get operands of the types they need. Such plans are abandoned only by overflow.
 */
module Schemas {
  import opened Plans
  import opened Sequences
  import opened Values
  import opened Algebra
  import opened Windows
  import opened Semantics
  import opened Shapes
  import opened Correlation

  predicate Has(header: seq<Field>, c: ColumnRef) {
    exists i :: 0 <= i < |header| && header[i] == Field(c.id, c.ty)
  }

  /** A current-block column, found in the left header or, failing that, in the right one. */
  predicate TypedColumn(c: ColumnRef, left: seq<Field>, right: seq<Field>) {
    c.depth == 0 && if c.id in Names(left) then Has(left, c) else Has(right, c)
  }

  predicate TypedScalar(e: Scalar, left: seq<Field>, right: seq<Field>) {
    match e
    case Column(c) => TypedColumn(c, left, right)
    case ScalarQuery(_, _) => false
    case _ => true
  }

  predicate TypedPred(p: Pred, left: seq<Field>, right: seq<Field>) {
    match p
    case Cmp(l, _, r) => TypedScalar(l, left, right) && TypedScalar(r, left, right) && l.Type() == r.Type()
    case IsNull(e) => TypedScalar(e, left, right)
    case IsNotNull(e) => TypedScalar(e, left, right)
    case And(l, r) => TypedPred(l, left, right) && TypedPred(r, left, right)
    case Or(l, r) => TypedPred(l, left, right) && TypedPred(r, left, right)
    case _ => false
  }

  predicate TypedPreds(ps: seq<Pred>, left: seq<Field>, right: seq<Field>) {
    forall i | 0 <= i < |ps| :: TypedPred(ps[i], left, right)
  }

  predicate TypedAgg(fn: AggFn, arg: Option<ColumnRef>, ty: ColumnType, header: seq<Field>) {
    match arg
    case None => fn == Count && ty == Int64
    case Some(c) =>
      TypedColumn(c, header, []) &&
      match fn
      case Count => ty == Int64
      case Sum => c.ty == ty == Int64
      case _ => c.ty == ty
  }

  predicate TypedKeys(keys: seq<ColumnRef>, header: seq<Field>) {
    forall i | 0 <= i < |keys| :: TypedColumn(keys[i], header, [])
  }

  predicate TypedWin(w: WinExpr, header: seq<Field>) {
    && (w.fn.Aggregated? ==> TypedAgg(w.fn.fn, w.arg, w.ty, header))
    && (!w.fn.Aggregated? ==> w.ty == Int64 && w.arg.None?)
    && TypedKeys(w.partition, header) && TypedKeys(OrderColumns(w.order), header)
  }

  /** The output columns of a well-typed plan. */
  function Schema(p: Plan, db: Db): Option<seq<Field>>
    decreases p
  {
    var op := p.op;
    if !Executable(op) || |p.kids| != Arity(op) then None
    else if op.Scan? then
      if op.table in db && DistinctIds(Rename(op.binding, db[op.table].header)) then Some(Rename(op.binding, db[op.table].header)) else None
    else
      match Schema(p.kids[0], db)
      case None => None
      case Some(header) =>
        match op
        case Filter(preds) => if TypedPreds(preds, header, []) then Some(header) else None
        case Project(projs) =>
          if DistinctIds(ProjectHeader(projs)) && forall i | 0 <= i < |projs| :: TypedScalar(projs[i].expr, header, []) then
            Some(ProjectHeader(projs))
          else None
        case Aggregate(keys, aggs) =>
          if DistinctIds(AggregateHeader(keys, aggs)) && TypedKeys(keys, header) &&
             forall i | 0 <= i < |aggs| :: TypedAgg(aggs[i].fn, aggs[i].arg, aggs[i].ty, header) then
            Some(AggregateHeader(keys, aggs))
          else None
        case Window(wins) =>
          if DistinctIds(header + WindowHeader(wins)) && forall i | 0 <= i < |wins| :: TypedWin(wins[i], header) then
            Some(header + WindowHeader(wins))
          else None
        case Distinct => Some(header)
        case Limit(_) => Some(header)
        case Sort(order) =>
          if p.kids[0].op.Project? then
            match Schema(p.kids[0].kids[0], db)
            case None => None
            case Some(source) =>
              if TypedSortKeys(order, header, source) then Some(header) else None
          else if TypedKeys(OrderColumns(order), header) then Some(header) else None
        case Join(kind, on, membership) =>
          match Schema(p.kids[1], db)
          case None => None
          case Some(right) =>
            if DistinctIds(JoinHeader(kind, header, right)) && TypedPreds(on, header, right) &&
               (membership.Some? ==> TypedPred(membership.value, header, right)) then
              Some(JoinHeader(kind, header, right))
            else None
  }

  /** Sort keys over a projection come from its output first, then from its source. */
  predicate TypedSortKeys(order: seq<SortKey>, projected: seq<Field>, source: seq<Field>) {
    forall i | 0 <= i < |order| :: TypedColumn(order[i].col, projected, source)
  }

  // ---------------------------------------------------------------- typed columns have typed cells

  lemma HasCell(header: seq<Field>, row: Row, c: ColumnRef)
    requires RowFits(header, row) && Has(header, c)
    ensures c.id in row && row[c.id].Type() == c.ty && c.id in Names(header)
  {
  }

  lemma TypedCell(c: ColumnRef, left: seq<Field>, right: seq<Field>, l: Row, r: Row)
    requires RowFits(left, l) && RowFits(right, r) && TypedColumn(c, left, right)
    ensures c.id in Joined(l, r) && Joined(l, r)[c.id].Type() == c.ty
    ensures Joined(l, r)[c.id] == if c.id in l then l[c.id] else r[c.id]
  {
    if c.id in Names(left) {
      HasCell(left, l, c);
    } else {
      HasCell(right, r, c);
    }
  }

  lemma TypedScalarValue(e: Scalar, left: seq<Field>, right: seq<Field>, l: Row, r: Row, db: Db)
    requires RowFits(left, l) && RowFits(right, r) && TypedScalar(e, left, right)
    ensures EvalScalar(e, Joined(l, r), [], db).Ok? && EvalScalar(e, Joined(l, r), [], db).value.Type() == e.Type()
  {
    if e.Column? {
      TypedCell(e.col, left, right, l, r);
    }
  }

  /** A well-typed predicate is never abandoned. */
  lemma {:induction false} TypedPredTotal(p: Pred, left: seq<Field>, right: seq<Field>, l: Row, r: Row, db: Db)
    requires RowFits(left, l) && RowFits(right, r) && TypedPred(p, left, right)
    ensures EvalPred(p, Joined(l, r), [], db) != Error
  {
    match p
    case Cmp(a, _, b) =>
      TypedScalarValue(a, left, right, l, r, db);
      TypedScalarValue(b, left, right, l, r, db);
    case IsNull(e) => TypedScalarValue(e, left, right, l, r, db);
    case IsNotNull(e) => TypedScalarValue(e, left, right, l, r, db);
    case And(a, b) =>
      TypedPredTotal(a, left, right, l, r, db);
      TypedPredTotal(b, left, right, l, r, db);
    case Or(a, b) =>
      TypedPredTotal(a, left, right, l, r, db);
      TypedPredTotal(b, left, right, l, r, db);
  }

  lemma {:induction false} TypedPredsTotal(ps: seq<Pred>, left: seq<Field>, right: seq<Field>, l: Row, r: Row, db: Db)
    requires RowFits(left, l) && RowFits(right, r) && TypedPreds(ps, left, right)
    ensures EvalPreds(ps, Joined(l, r), [], db) != Error
  {
    if ps != [] {
      TypedPredsTotal(ps[..|ps| - 1], left, right, l, r, db);
      TypedPredTotal(ps[|ps| - 1], left, right, l, r, db);
    }
  }

  lemma NoRow()
    ensures RowFits([], map[])
    ensures forall row: Row :: Joined(row, map[]) == row
  {
    assert Names([]) == {};
  }

  lemma TypedResolves(c: ColumnRef, header: seq<Field>, env: Env)
    requires TypedColumn(c, header, [])
    ensures Resolves(c, Names(header), env)
  {
  }

  /** The result of a well-typed plan has the schema's columns. */
  lemma {:induction false} SchemaIsHeader(p: Plan, db: Db)
    requires Schema(p, db).Some?
    ensures Eval(p, [], db).Ok? ==> Eval(p, [], db).value.header == Schema(p, db).value
    decreases p
  {
    if p.op.Join? {
      SchemaIsHeader(p.kids[0], db);
      SchemaIsHeader(p.kids[1], db);
      JoinSchema(p, db);
    } else if p.op.Scan? {
      hide DistinctIds, ScanRows;
    } else {
      SchemaIsHeader(p.kids[0], db);
      UnarySchema(p, db);
    }
  }

  lemma JoinSchema(p: Plan, db: Db)
    requires Schema(p, db).Some? && p.op.Join?
    requires forall i | 0 <= i < |p.kids| :: Eval(p.kids[i], [], db).Ok? ==> Eval(p.kids[i], [], db).value.header == Schema(p.kids[i], db).value
    ensures Eval(p, [], db).Ok? ==> Eval(p, [], db).value.header == Schema(p, db).value
  {
    hide TypedPreds, TypedPred, DistinctIds, FlatMap, PredsFn, MemberFn, JoinOne;
  }

  lemma UnarySchema(p: Plan, db: Db)
    requires Schema(p, db).Some? && !p.op.Join? && !p.op.Scan?
    requires Eval(p.kids[0], [], db).Ok? ==> Eval(p.kids[0], [], db).value.header == Schema(p.kids[0], db).value
    ensures Eval(p, [], db).Ok? ==> Eval(p, [], db).value.header == Schema(p, db).value
  {
    hide TypedPreds, TypedPred, TypedKeys, TypedWin, TypedAgg, TypedSortKeys, EvalPreds, DistinctIds, OuterEnv, FlatMap, MapAll, StableSort, PredsFn,
         ProjectFn, JoinRel, ScanRel;
  }
}
