/** Which plans the engines are compared on: those without subqueries, in which every column is found with its declared type
  and operands have the types their operator needs. Stated without the functions that check it.
 */
module TypingLaws {
  import opened Plans
  import opened Sequences
  import opened Values
  import opened Algebra
  import opened Windows
  import opened Semantics
  import opened FixpointForm
  import opened Schemas

  /** The comparisons, NULL tests and other atoms of a predicate. */
  function Atoms(p: Pred): set<Pred> {
    match p
    case And(l, r) => Atoms(l) + Atoms(r)
    case Or(l, r) => Atoms(l) + Atoms(r)
    case _ => {p}
  }

  /** A literal, or a column of the current block shown with its type: by the left side if that has a column of the name, and
    otherwise by the right side. */
  ghost predicate Readable(e: Scalar, left: seq<Field>, right: seq<Field>) {
    match e
    case Column(c) =>
      c.depth == 0 && if exists f | 0 <= f < |left| :: left[f].id == c.id then Field(c.id, c.ty) in left else Field(c.id, c.ty) in right
    case ScalarQuery(_, _) => false
    case _ => true
  }

  ghost predicate TypedAtom(q: Pred, left: seq<Field>, right: seq<Field>) {
    match q
    case Cmp(l, _, r) => Readable(l, left, right) && Readable(r, left, right) && l.Type() == r.Type()
    case IsNull(e) => Readable(e, left, right)
    case IsNotNull(e) => Readable(e, left, right)
    case _ => false
  }

  lemma ColumnShown(c: ColumnRef, header: seq<Field>)
    ensures Has(header, c) <==> Field(c.id, c.ty) in header
    ensures c.id in Names(header) <==> exists f | 0 <= f < |header| :: header[f].id == c.id
  {
    if Field(c.id, c.ty) in header {
      var i :| 0 <= i < |header| && header[i] == Field(c.id, c.ty);
    }
  }

  lemma ScalarTypedExactly(e: Scalar, left: seq<Field>, right: seq<Field>)
    ensures TypedScalar(e, left, right) <==> Readable(e, left, right)
  {
    if e.Column? {
      ColumnShown(e.col, left);
      ColumnShown(e.col, right);
    }
  }

  /** A predicate is typed exactly when every one of its atoms is. */
  lemma {:induction false} PredTypedExactly(p: Pred, left: seq<Field>, right: seq<Field>)
    ensures TypedPred(p, left, right) <==> forall q | q in Atoms(p) :: TypedAtom(q, left, right)
  {
    hide TypedScalar, Readable;
    match p
    case And(l, r) =>
      PredTypedExactly(l, left, right);
      PredTypedExactly(r, left, right);
    case Or(l, r) =>
      PredTypedExactly(l, left, right);
      PredTypedExactly(r, left, right);
    case _ =>
      AtomTypedExactly(p, left, right);
      OneAtom(p, left, right);
  }

  lemma AtomTypedExactly(q: Pred, left: seq<Field>, right: seq<Field>)
    requires !q.And? && !q.Or?
    ensures TypedPred(q, left, right) <==> TypedAtom(q, left, right)
  {
    hide TypedScalar, Readable;
    match q
    case Cmp(l, _, r) =>
      ScalarTypedExactly(l, left, right);
      ScalarTypedExactly(r, left, right);
    case IsNull(e) => ScalarTypedExactly(e, left, right);
    case IsNotNull(e) => ScalarTypedExactly(e, left, right);
    case _ =>
  }

  lemma OneAtom(q: Pred, left: seq<Field>, right: seq<Field>)
    requires !q.And? && !q.Or?
    ensures (forall x | x in Atoms(q) :: TypedAtom(x, left, right)) <==> TypedAtom(q, left, right)
  {
    hide TypedAtom;
    assert q in Atoms(q);
  }

  /** Every column of a list is shown by the header with its type. */
  ghost predicate Shown(cs: seq<ColumnRef>, header: seq<Field>) {
    forall i | 0 <= i < |cs| :: Readable(Column(cs[i]), header, [])
  }

  /** COUNT of anything is an integer, SUM adds integers, MIN and MAX keep the type of their column. */
  ghost predicate TypedFn(fn: AggFn, arg: Option<ColumnRef>, ty: ColumnType, header: seq<Field>) {
    && (arg.None? ==> fn == Count)
    && (arg.Some? ==> Readable(Column(arg.value), header, []))
    && match fn case Count => ty == Int64 case Sum => ty == Int64 && arg.value.ty == Int64 case _ => ty == arg.value.ty
  }

  lemma FnTypedExactly(fn: AggFn, arg: Option<ColumnRef>, ty: ColumnType, header: seq<Field>)
    ensures TypedAgg(fn, arg, ty, header) <==> TypedFn(fn, arg, ty, header)
  {
    if arg.Some? { ScalarTypedExactly(Column(arg.value), header, []); }
  }

  lemma KeysTypedExactly(cs: seq<ColumnRef>, header: seq<Field>)
    ensures TypedKeys(cs, header) <==> Shown(cs, header)
  {
    forall i | 0 <= i < |cs| ensures TypedColumn(cs[i], header, []) <==> Readable(Column(cs[i]), header, []) {
      ScalarTypedExactly(Column(cs[i]), header, []);
    }
  }

  /** What each operator asks of the columns of its inputs. */
  ghost predicate TypedOver(op: Op, left: seq<Field>, right: seq<Field>) {
    match op
    case Filter(preds) => forall i, q | 0 <= i < |preds| && q in Atoms(preds[i]) :: TypedAtom(q, left, [])
    case Project(projs) => |projs| > 0 && forall i | 0 <= i < |projs| :: Readable(projs[i].expr, left, [])
    case Aggregate(keys, aggs) =>
      |keys| + |aggs| > 0 && Shown(keys, left) && forall i | 0 <= i < |aggs| :: TypedFn(aggs[i].fn, aggs[i].arg, aggs[i].ty, left)
    case Window(wins) => forall i | 0 <= i < |wins| ::
      && Shown(wins[i].partition, left) && Shown(OrderColumns(wins[i].order), left)
      && (if wins[i].fn.Aggregated? then TypedFn(wins[i].fn.fn, wins[i].arg, wins[i].ty, left) else wins[i].ty == Int64 && wins[i].arg.None?)
    case Join(kind, on, membership) =>
      && (forall i, q | 0 <= i < |on| && q in Atoms(on[i]) :: TypedAtom(q, left, right))
      && (kind == NullAwareAnti <==> membership.Some?)
      && (membership.Some? ==> membership.value.Cmp? && membership.value.op == Eq && TypedAtom(membership.value, left, right))
    case _ => true
  }

  lemma PredsTypedExactly(ps: seq<Pred>, left: seq<Field>, right: seq<Field>)
    ensures TypedPreds(ps, left, right) <==> forall i, q | 0 <= i < |ps| && q in Atoms(ps[i]) :: TypedAtom(q, left, right)
  {
    hide TypedPred, Atoms, TypedAtom;
    forall i | 0 <= i < |ps| ensures TypedPred(ps[i], left, right) <==> forall q | q in Atoms(ps[i]) :: TypedAtom(q, left, right) {
      PredTypedExactly(ps[i], left, right);
    }
  }

  lemma WindowTypedExactly(w: WinExpr, header: seq<Field>)
    ensures TypedWin(w, header) <==>
            && Shown(w.partition, header) && Shown(OrderColumns(w.order), header)
            && (if w.fn.Aggregated? then TypedFn(w.fn.fn, w.arg, w.ty, header) else w.ty == Int64 && w.arg.None?)
  {
    KeysTypedExactly(w.partition, header);
    KeysTypedExactly(OrderColumns(w.order), header);
    if w.fn.Aggregated? { FnTypedExactly(w.fn.fn, w.arg, w.ty, header); }
    hide TypedKeys, Shown, TypedAgg, TypedFn;
  }

  /** The columns an operator shows over its inputs. */
  function Shows(op: Op, left: seq<Field>, right: seq<Field>): seq<Field> {
    match op
    case Project(projs) => ProjectHeader(projs)
    case Aggregate(keys, aggs) => AggregateHeader(keys, aggs)
    case Window(wins) => left + WindowHeader(wins)
    case Join(kind, _, _) => if kind == Inner || kind == JoinKind.Left then left + right else left
    case _ => left
  }

  /** A plan over one input is typed exactly when its input is, its operator is typed over the input's columns, and the columns
    it shows are distinct. */
  lemma UnaryTypedExactly(p: Plan, db: Db)
    requires |p.kids| == 1 && (p.op.Filter? || p.op.Project? || p.op.Aggregate? || p.op.Window? || p.op.Distinct? || p.op.Limit?)
    ensures Schema(p, db).Some? <==>
            && Schema(p.kids[0], db).Some? && TypedOver(p.op, Schema(p.kids[0], db).value, [])
            && (p.op.Project? || p.op.Aggregate? || p.op.Window? ==> DistinctIds(Shows(p.op, Schema(p.kids[0], db).value, [])))
    ensures Schema(p, db).Some? ==> Schema(p, db).value == Shows(p.op, Schema(p.kids[0], db).value, [])
  {
    if Schema(p.kids[0], db).Some? {
      var header := Schema(p.kids[0], db).value;
      match p.op
      case Filter(preds) => PredsTypedExactly(preds, header, []);
      case Project(projs) =>
        forall i | 0 <= i < |projs| ensures TypedScalar(projs[i].expr, header, []) <==> Readable(projs[i].expr, header, []) {
          ScalarTypedExactly(projs[i].expr, header, []);
        }
      case Aggregate(keys, aggs) =>
        KeysTypedExactly(keys, header);
        forall i | 0 <= i < |aggs|
          ensures TypedAgg(aggs[i].fn, aggs[i].arg, aggs[i].ty, header) <==> TypedFn(aggs[i].fn, aggs[i].arg, aggs[i].ty, header)
        {
          FnTypedExactly(aggs[i].fn, aggs[i].arg, aggs[i].ty, header);
        }
      case Window(wins) =>
        forall i | 0 <= i < |wins|
          ensures TypedWin(wins[i], header) <==>
                  && Shown(wins[i].partition, header) && Shown(OrderColumns(wins[i].order), header)
                  && (if wins[i].fn.Aggregated? then TypedFn(wins[i].fn.fn, wins[i].arg, wins[i].ty, header) else wins[i].ty == Int64 && wins[i].arg.None?)
        {
          WindowTypedExactly(wins[i], header);
        }
      case _ =>
      hide TypedPreds, TypedScalar, TypedKeys, TypedAgg, TypedWin, TypedFn, Shown, Readable, TypedAtom, Atoms, DistinctIds, Schema;
    }
  }

  /** A join is typed exactly when both inputs are, its predicates are typed over their columns, and the columns it shows are
    distinct. */
  lemma JoinTypedExactly(p: Plan, db: Db)
    requires |p.kids| == 2 && p.op.Join?
    ensures Schema(p, db).Some? <==>
            && Schema(p.kids[0], db).Some? && Schema(p.kids[1], db).Some?
            && TypedOver(p.op, Schema(p.kids[0], db).value, Schema(p.kids[1], db).value)
            && DistinctIds(Shows(p.op, Schema(p.kids[0], db).value, Schema(p.kids[1], db).value))
    ensures Schema(p, db).Some? ==> Schema(p, db).value == Shows(p.op, Schema(p.kids[0], db).value, Schema(p.kids[1], db).value)
  {
    if Schema(p.kids[0], db).Some? && Schema(p.kids[1], db).Some? {
      var left, right := Schema(p.kids[0], db).value, Schema(p.kids[1], db).value;
      PredsTypedExactly(p.op.on, left, right);
      if p.op.membership.Some? {
        PredTypedExactly(p.op.membership.value, left, right);
        assert p.op.membership.value.Cmp? ==> Atoms(p.op.membership.value) == {p.op.membership.value};
      }
      hide TypedPreds, TypedPred, Readable, Atoms, DistinctIds;
    }
  }

  ghost predicate SortShown(p: Plan, db: Db)
    requires p.op.Sort? && |p.kids| == 1 && p.kids[0].op.Project? && Schema(p.kids[0], db).Some?
  {
    forall i | 0 <= i < |p.op.order| ::
      Readable(Column(p.op.order[i].col), Schema(p.kids[0], db).value, Schema(p.kids[0].kids[0], db).value)
  }

  /** A scan needs the table with columns that stay apart; a sort needs its keys among the columns of its input, or, over a
    projection, of that or its source. */
  lemma ScanAndSortTypedExactly(p: Plan, db: Db)
    ensures p.op.Scan? ==>
              (Schema(p, db).Some? <==> |p.kids| == 0 && p.op.table in db && DistinctIds(Rename(p.op.binding, db[p.op.table].header)))
    ensures p.op.Sort? && |p.kids| == 1 && !p.kids[0].op.Project? ==>
              (Schema(p, db).Some? <==> Schema(p.kids[0], db).Some? && Shown(OrderColumns(p.op.order), Schema(p.kids[0], db).value))
    ensures p.op.Sort? && |p.kids| == 1 && p.kids[0].op.Project? ==>
              (Schema(p, db).Some? <==> Schema(p.kids[0], db).Some? && SortShown(p, db))
  {
    if p.op.Sort? && |p.kids| == 1 && Schema(p.kids[0], db).Some? {
      var header := Schema(p.kids[0], db).value;
      if p.kids[0].op.Project? {
        var source := Schema(p.kids[0].kids[0], db).value;
        forall i | 0 <= i < |p.op.order|
          ensures TypedColumn(p.op.order[i].col, header, source) <==> Readable(Column(p.op.order[i].col), header, source)
        {
          ScalarTypedExactly(Column(p.op.order[i].col), header, source);
        }
      } else {
        KeysTypedExactly(OrderColumns(p.op.order), header);
      }
    }
  }
}
