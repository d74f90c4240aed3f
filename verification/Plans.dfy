/** The bound relational algebra shared by the optimizer and both executors.

  A plan node owns its operator's fields (`Op`), its order permission and its
  relational children. A subquery is a plan together with the correlation
  columns the binder computed for it.
 */
module Plans {
  const INT64_MIN: int := -0x8000_0000_0000_0000
  const INT64_MAX: int := 0x7FFF_FFFF_FFFF_FFFF

  type int64 = x: int | INT64_MIN <= x <= INT64_MAX

  datatype Option<+T> = None | Some(value: T)

  datatype ColumnType = Int64 | String

  /** A column identity: the binding that exposes it (empty for computed outputs) and its name. */
  datatype Ident = Ident(binding: string, column: string)

  /** `depth` is the lexical distance to the query block that owns the column; 0 is the current block. */
  datatype ColumnRef = ColumnRef(id: Ident, ty: ColumnType, depth: nat)

  datatype CmpOp = Eq | Ne | Lt | Le | Gt | Ge

  datatype Scalar =
    | Column(col: ColumnRef)
    | IntLit(i: int64)
    | StrLit(s: string)
    | NullLit(nullTy: ColumnType)
    | ScalarQuery(sub: Subplan, subTy: ColumnType)
  {
    function Type(): ColumnType {
      match this
      case Column(c) => c.ty
      case IntLit(_) => Int64
      case StrLit(_) => String
      case NullLit(t) => t
      case ScalarQuery(_, t) => t
    }
  }

  datatype Pred =
    | Cmp(lhs: Scalar, op: CmpOp, rhs: Scalar)
    | IsNull(arg: Scalar)
    | IsNotNull(arg: Scalar)
    | In(arg: Scalar, sub: Subplan)
    | NotIn(arg: Scalar, sub: Subplan)
    | Exists(sub: Subplan)
    | NotExists(sub: Subplan)
    | And(left: Pred, right: Pred)
    | Or(left: Pred, right: Pred)

  datatype Subplan = Subplan(plan: Plan, corr: seq<ColumnRef>)

  datatype Projection = Projection(name: string, expr: Scalar)

  datatype AggFn = Count | Sum | Min | Max

  /** COUNT(*) is the only aggregate without an argument. */
  datatype AggExpr = AggExpr(name: string, fn: AggFn, arg: Option<ColumnRef>, ty: ColumnType)

  datatype Direction = Asc | Desc

  datatype SortKey = SortKey(col: ColumnRef, dir: Direction)

  datatype WinFn = RowNumber | Rank | DenseRank | Aggregated(fn: AggFn)

  datatype WinFrame = WholePartition | RangeCumulative | RowsCumulative

  datatype WinExpr = WinExpr(name: string, fn: WinFn, arg: Option<ColumnRef>,
                             partition: seq<ColumnRef>, order: seq<SortKey>, frame: WinFrame, ty: ColumnType)

  datatype OrderPermission = Deterministic | Arbitrary

  datatype JoinKind = Inner | Left | Semi | Anti | NullAwareAnti

  datatype Op =
    | Scan(table: string, binding: string)
    | Filter(preds: seq<Pred>)
    | Project(projs: seq<Projection>)
    | Aggregate(keys: seq<ColumnRef>, aggs: seq<AggExpr>)
    | Window(wins: seq<WinExpr>)
    | Distinct
    | Sort(order: seq<SortKey>)
    | Limit(count: nat)
    | Join(kind: JoinKind, on: seq<Pred>, membership: Option<Pred>)

  datatype Plan = Node(perm: OrderPermission, op: Op, kids: seq<Plan>)

  function Arity(op: Op): nat {
    match op
    case Scan(_, _) => 0
    case Join(_, _, _) => 2
    case _ => 1
  }

  /** A NOT IN membership test is an equality between operands of one type. */
  predicate IsMembership(p: Pred) {
    p.Cmp? && p.op == Eq && p.lhs.Type() == p.rhs.Type()
  }

  /** The per-kind field checks shared by memo validation and execution. */
  predicate ValidOp(op: Op) {
    match op
    case Scan(table, binding) => table != "" && binding != ""
    case Filter(preds) => preds != []
    case Project(projs) => projs != []
    case Aggregate(keys, aggs) => keys != [] || aggs != []
    case Window(wins) => wins != []
    case Distinct => true
    case Sort(order) => order != []
    case Limit(_) => true
    case Join(kind, _, membership) =>
      (kind == NullAwareAnti <==> membership.Some?) &&
      (membership.Some? ==> IsMembership(membership.value))
  }

  /** Every relational node has valid fields and the children its kind requires. */
  predicate WellShaped(p: Plan) {
    ValidOp(p.op) && |p.kids| == Arity(p.op) && forall k | k in p.kids :: WellShaped(k)
  }
}
