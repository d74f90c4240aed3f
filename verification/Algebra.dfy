/** The relational operators on ordered relations, as the row-at-a-time engine defines them.
  A row maps column identities to cells; a relation is a header and a sequence of rows.
 */
module Algebra {
  import opened Plans
  import opened Sequences
  import opened Values

  type Row = map<Ident, Cell>

  datatype Field = Field(id: Ident, ty: ColumnType)

  datatype Rel = Rel(header: seq<Field>, rows: seq<Row>)

  type Db = map<string, Rel>

  /** Cells of the columns that belong to enclosing query blocks. */
  type Env = map<ColumnRef, Cell>

  function Ids(header: seq<Field>): (r: seq<Ident>)
    ensures |r| == |header| && forall i | 0 <= i < |r| :: r[i] == header[i].id
  {
    seq(|header|, i requires 0 <= i < |header| => header[i].id)
  }

  function Names(header: seq<Field>): set<Ident> {
    set i | 0 <= i < |header| :: header[i].id
  }

  predicate DistinctIds(header: seq<Field>) {
    forall i, j | 0 <= i < j < |header| :: header[i].id != header[j].id
  }

  /** Exactly the header's columns, each cell of its column's type. */
  predicate RowFits(header: seq<Field>, row: Row) {
    && row.Keys == Names(header)
    && forall i | 0 <= i < |header| :: header[i].id in row && row[header[i].id].Type() == header[i].ty
  }

  ghost predicate WellFormedRel(rel: Rel) {
    DistinctIds(rel.header) && forall i | 0 <= i < |rel.rows| :: RowFits(rel.header, rel.rows[i])
  }

  function MakeRow(ids: seq<Ident>, cells: seq<Cell>): (r: Row)
    requires |ids| == |cells|
    ensures forall id :: id in r <==> id in ids
    ensures Unrepeated(ids) ==> forall i | 0 <= i < |ids| :: ids[i] in r && r[ids[i]] == cells[i]
  {
    if ids == [] then map[]
    else
      var n := |ids| - 1;
      MakeRow(ids[..n], cells[..n])[ids[n] := cells[n]]
  }

  function NullCells(header: seq<Field>): (r: seq<Cell>)
    ensures |r| == |header| && forall i | 0 <= i < |r| :: r[i] == Null(header[i].ty)
  {
    seq(|header|, i requires 0 <= i < |header| => Null(header[i].ty))
  }

  function NullRow(header: seq<Field>): Row {
    MakeRow(Ids(header), NullCells(header))
  }

  // ---------------------------------------------------------------- column lookup

  /** A column of an enclosing block: `depth` counts frames from the innermost. */
  function OuterCell(c: ColumnRef, outer: seq<Row>): Outcome<Cell> {
    if c.depth == 0 || c.depth > |outer| then Fails
    else
      var frame := outer[|outer| - c.depth];
      if c.id in frame then Ok(frame[c.id]) else Fails
  }

  /** The outer cells an operator can read. */
  function OuterEnv(refs: seq<ColumnRef>, outer: seq<Row>): Env {
    map c | c in refs && OuterCell(c, outer).Ok? :: OuterCell(c, outer).value
  }

  predicate Resolves(c: ColumnRef, names: set<Ident>, env: Env) {
    if c.depth != 0 then c in env else c.id in names
  }

  /** The cell of a column that resolves. */
  function CellOf(c: ColumnRef, row: Row, env: Env): Cell {
    if c.depth != 0 then (if c in env then env[c] else Null(c.ty))
    else if c.id in row then row[c.id] else Null(c.ty)
  }

  /** Stores a cell in a column of type `ty`; a cell of the other type leaves that column's default. */
  function Cast(ty: ColumnType, v: Cell): (r: Cell)
    ensures r.Type() == ty
    ensures v.Type() == ty ==> r == v
  {
    if v.Type() == ty then v
    else if v.Null? then Null(ty)
    else
      match ty
      case Int64 => IntV(0)
      case String => StrV("")
  }

  function CastAll(header: seq<Field>, cells: seq<Cell>): (r: seq<Cell>)
    requires |header| == |cells|
    ensures |r| == |cells| && forall i | 0 <= i < |r| :: r[i] == Cast(header[i].ty, cells[i])
  {
    seq(|cells|, i requires 0 <= i < |cells| => Cast(header[i].ty, cells[i]))
  }

  // ---------------------------------------------------------------- scan, filter, join

  function Rename(binding: string, header: seq<Field>): (r: seq<Field>)
    ensures |r| == |header|
    ensures forall i | 0 <= i < |r| :: r[i] == Field(Ident(binding, header[i].id.column), header[i].ty)
  {
    seq(|header|, i requires 0 <= i < |header| => Field(Ident(binding, header[i].id.column), header[i].ty))
  }

  /** The cells of a row under a header, in header order. */
  function CellsOf(header: seq<Field>, row: Row): (r: seq<Cell>)
    ensures |r| == |header|
    ensures forall i | 0 <= i < |r| :: r[i] == Cast(header[i].ty, if header[i].id in row then row[header[i].id] else Null(header[i].ty))
  {
    seq(|header|, i requires 0 <= i < |header| =>
      Cast(header[i].ty, if header[i].id in row then row[header[i].id] else Null(header[i].ty)))
  }

  function ScanRows(binding: string, table: Rel): (r: seq<Row>)
    ensures |r| == |table.rows|
    ensures forall i | 0 <= i < |r| ::
              r[i] == MakeRow(Ids(Rename(binding, table.header)), CellsOf(table.header, table.rows[i]))
  {
    seq(|table.rows|, i requires 0 <= i < |table.rows| =>
      MakeRow(Ids(Rename(binding, table.header)), CellsOf(table.header, table.rows[i])))
  }

  function ScanRel(binding: string, table: Rel): Outcome<Rel> {
    var header := Rename(binding, table.header);
    if DistinctIds(header) then Ok(Rel(header, ScanRows(binding, table))) else Fails
  }

  /** Keeps a row exactly when the predicate is true. */
  function Select<T>(t: Truth, x: T): Outcome<seq<T>> {
    match t
    case Error => Fails
    case True => Ok([x])
    case _ => Ok([])
  }

  function KeepTrue<T>(f: T -> Truth): T -> Outcome<seq<T>> {
    x => Select(f(x), x)
  }

  function FilterRel(rel: Rel, f: Row -> Truth): Outcome<Rel> {
    match FlatMap(rel.rows, KeepTrue(f))
    case Fails => Fails
    case Ok(rows) => Ok(Rel(rel.header, rows))
  }

  /** A joined row; a column that both sides expose is read from the left. */
  function Joined(l: Row, r: Row): Row {
    r + l
  }

  function Match(on: Row -> Truth, l: Row): Row -> Outcome<seq<Row>> {
    r => Select(on(Joined(l, r)), Joined(l, r))
  }

  /** Scans right rows until the first true match. */
  function Probe(on: Row -> Truth, l: Row, rs: seq<Row>): Truth {
    if rs == [] then False
    else
      match on(Joined(l, rs[0]))
      case Error => Error
      case True => True
      case _ => Probe(on, l, rs[1..])
  }

  /** Scans candidates until one whose membership test is not false. */
  function Suppressed(on: Row -> Truth, member: Row -> Truth, l: Row, rs: seq<Row>): Truth {
    if rs == [] then False
    else
      match on(Joined(l, rs[0]))
      case Error => Error
      case True => (
        match member(Joined(l, rs[0]))
        case Error => Error
        case False => Suppressed(on, member, l, rs[1..])
        case _ => True)
      case _ => Suppressed(on, member, l, rs[1..])
  }

  function KeepLeft(l: Row, hit: Truth, wanted: Truth): Outcome<seq<Row>> {
    match hit
    case Error => Fails
    case t => Ok(if t == wanted then [l] else [])
  }

  /** The output of one left row. */
  function JoinOne(kind: JoinKind, on: Row -> Truth, member: Row -> Truth, right: Rel): Row -> Outcome<seq<Row>> {
    l =>
      match kind
      case Inner => FlatMap(right.rows, Match(on, l))
      case Left => (
        match FlatMap(right.rows, Match(on, l))
        case Fails => Fails
        case Ok(rows) => Ok(if rows == [] then [Joined(l, NullRow(right.header))] else rows))
      case Semi => KeepLeft(l, Probe(on, l, right.rows), True)
      case Anti => KeepLeft(l, Probe(on, l, right.rows), False)
      case NullAwareAnti => KeepLeft(l, Suppressed(on, member, l, right.rows), False)
  }

  predicate EmitsRight(kind: JoinKind) {
    kind == Inner || kind == Left
  }

  function JoinHeader(kind: JoinKind, left: seq<Field>, right: seq<Field>): seq<Field> {
    if EmitsRight(kind) then left + right else left
  }

  function JoinRel(kind: JoinKind, on: Row -> Truth, member: Row -> Truth, left: Rel, right: Rel): Outcome<Rel> {
    var header := JoinHeader(kind, left.header, right.header);
    if !DistinctIds(header) then Fails
    else
      match FlatMap(left.rows, JoinOne(kind, on, member, right))
      case Fails => Fails
      case Ok(rows) => Ok(Rel(header, rows))
  }

  // ---------------------------------------------------------------- sorting

  /** NULL is the largest key value: last when ascending, first when descending. */
  predicate KeyBefore(dir: Direction, va: Cell, vb: Cell) {
    if va.Null? || vb.Null? then (if dir == Asc then vb.Null? else va.Null?)
    else if dir == Asc then CellLess(va, vb)
    else CellLess(vb, va)
  }

  /** The first differing key decides. */
  predicate RowLess(keys: seq<SortKey>, env: Env, a: Row, b: Row) {
    if keys == [] then false
    else
      var va, vb := CellOf(keys[0].col, a, env), CellOf(keys[0].col, b, env);
      if va == vb then RowLess(keys[1..], env, a, b) else KeyBefore(keys[0].dir, va, vb)
  }

  /** Inserts behind everything that `x` does not precede. */
  function InsertSorted<T>(less: (T, T) -> bool, s: seq<T>, x: T): seq<T> {
    if s == [] then [x]
    else if less(x, s[|s| - 1]) then InsertSorted(less, s[..|s| - 1], x) + [s[|s| - 1]]
    else s + [x]
  }

  /** The stable sort of a sequence. */
  function StableSort<T>(less: (T, T) -> bool, s: seq<T>): seq<T> {
    if s == [] then [] else InsertSorted(less, StableSort(less, s[..|s| - 1]), s[|s| - 1])
  }

  function KeysResolve(keys: seq<SortKey>, names: set<Ident>, env: Env): bool {
    forall i | 0 <= i < |keys| :: Resolves(keys[i].col, names, env)
  }

  function SortRel(keys: seq<SortKey>, rel: Rel, env: Env): Outcome<Rel> {
    if !KeysResolve(keys, Names(rel.header), env) then Fails
    else Ok(Rel(rel.header, StableSort((a, b) => RowLess(keys, env, a, b), rel.rows)))
  }

  /** Sorting a projection may use source columns that the projection drops. */
  function SortProjected(keys: seq<SortKey>, source: Rel, projected: Rel, env: Env): Outcome<Rel> {
    if |source.rows| != |projected.rows| || !KeysResolve(keys, Names(source.header) + Names(projected.header), env) then Fails
    else
      var items := seq(|source.rows|, i requires 0 <= i < |source.rows| => (source.rows[i] + projected.rows[i], projected.rows[i]));
      var sorted := StableSort((a: (Row, Row), b: (Row, Row)) => RowLess(keys, env, a.0, b.0), items);
      Ok(Rel(projected.header, seq(|sorted|, i requires 0 <= i < |sorted| => sorted[i].1)))
  }

  function DistinctRel(rel: Rel): Rel {
    Rel(rel.header, Dedup(rel.rows))
  }

  function LimitRel(count: nat, rel: Rel): Rel {
    Rel(rel.header, if count < |rel.rows| then rel.rows[..count] else rel.rows)
  }

  // ---------------------------------------------------------------- aggregates

  predicate Fits(n: int) {
    INT64_MIN <= n <= INT64_MAX
  }

  function NonNull(cells: seq<Cell>): seq<Cell> {
    if cells == [] then []
    else NonNull(cells[..|cells| - 1]) + if cells[|cells| - 1].Null? then [] else [cells[|cells| - 1]]
  }

  function IntOf(c: Cell): int {
    if c.IntV? then c.i else 0
  }

  function Total(cells: seq<Cell>): int {
    if cells == [] then 0 else Total(cells[..|cells| - 1]) + IntOf(cells[|cells| - 1])
  }

  /** No partial sum, in this order, leaves the 64-bit range. */
  predicate PrefixesFit(cells: seq<Cell>) {
    forall n | 0 <= n <= |cells| :: Fits(Total(cells[..n]))
  }

  function LeastOf(cells: seq<Cell>): Cell
    requires cells != []
  {
    var n := |cells| - 1;
    if n == 0 then cells[0]
    else
      var best := LeastOf(cells[..n]);
      if CellLess(cells[n], best) then cells[n] else best
  }

  function GreatestOf(cells: seq<Cell>): Cell
    requires cells != []
  {
    var n := |cells| - 1;
    if n == 0 then cells[0]
    else
      var best := GreatestOf(cells[..n]);
      if CellLess(best, cells[n]) then cells[n] else best
  }

  function CountCell(n: nat): Outcome<Cell> {
    if n <= INT64_MAX then Ok(IntV(n)) else Fails
  }

  /** The value of an aggregate over its argument cells, taken in order. NULL arguments are skipped;
    a SUM is abandoned when a partial sum overflows. */
  function AggOutcome(fn: AggFn, ty: ColumnType, cells: seq<Cell>): Outcome<Cell> {
    var args := NonNull(cells);
    match fn
    case Count => CountCell(|args|)
    case Sum =>
      if args == [] then Ok(Null(Int64))
      else if PrefixesFit(args) then
        assert args[..|args|] == args;
        Ok(IntV(Total(args)))
      else Fails
    case Min => Ok(if args == [] then Null(ty) else LeastOf(args))
    case Max => Ok(if args == [] then Null(ty) else GreatestOf(args))
  }

  /** Argument cells of an aggregate; COUNT(*) counts a constant. */
  function ArgCell(arg: Option<ColumnRef>, row: Row, env: Env): Cell {
    match arg
    case None => IntV(1)
    case Some(c) => CellOf(c, row, env)
  }

  function ArgCells(arg: Option<ColumnRef>, rows: seq<Row>, env: Env): (r: seq<Cell>)
    ensures |r| == |rows| && forall i | 0 <= i < |r| :: r[i] == ArgCell(arg, rows[i], env)
  {
    seq(|rows|, i requires 0 <= i < |rows| => ArgCell(arg, rows[i], env))
  }

  predicate ArgResolves(fn: AggFn, arg: Option<ColumnRef>, names: set<Ident>, env: Env) {
    match arg
    case None => fn == Count
    case Some(c) => Resolves(c, names, env)
  }

  function KeyOf(keys: seq<ColumnRef>, row: Row, env: Env): (r: seq<Cell>)
    ensures |r| == |keys| && forall i | 0 <= i < |r| :: r[i] == CellOf(keys[i], row, env)
  {
    seq(|keys|, i requires 0 <= i < |keys| => CellOf(keys[i], row, env))
  }

  function AllKeys(keys: seq<ColumnRef>, rows: seq<Row>, env: Env): (r: seq<seq<Cell>>)
    ensures |r| == |rows| && forall i | 0 <= i < |r| :: r[i] == KeyOf(keys, rows[i], env)
  {
    seq(|rows|, i requires 0 <= i < |rows| => KeyOf(keys, rows[i], env))
  }

  /** Group keys in order of first appearance; NULL keys compare equal. Without keys there is
    one group, even over no rows. */
  function GroupKeys(keys: seq<ColumnRef>, rows: seq<Row>, env: Env): seq<seq<Cell>> {
    if keys == [] then [[]] else Dedup(AllKeys(keys, rows, env))
  }

  function Members(keys: seq<ColumnRef>, rows: seq<Row>, key: seq<Cell>, env: Env): seq<Row> {
    if rows == [] then []
    else
      Members(keys, rows[..|rows| - 1], key, env) +
      if KeyOf(keys, rows[|rows| - 1], env) == key then [rows[|rows| - 1]] else []
  }

  function AggCells(aggs: seq<AggExpr>, members: seq<Row>, env: Env): Outcome<seq<Cell>> {
    MapAll(aggs, (a: AggExpr) => AggOutcome(a.fn, a.ty, ArgCells(a.arg, members, env)))
  }

  function AggregateHeader(keys: seq<ColumnRef>, aggs: seq<AggExpr>): (r: seq<Field>)
    ensures |r| == |keys| + |aggs|
    ensures forall i | 0 <= i < |keys| :: r[i] == Field(keys[i].id, keys[i].ty)
    ensures forall i | 0 <= i < |aggs| :: r[|keys| + i] == Field(Ident("", aggs[i].name), aggs[i].ty)
  {
    seq(|keys|, i requires 0 <= i < |keys| => Field(keys[i].id, keys[i].ty)) +
    seq(|aggs|, i requires 0 <= i < |aggs| => Field(Ident("", aggs[i].name), aggs[i].ty))
  }

  function GroupRow(keys: seq<ColumnRef>, aggs: seq<AggExpr>, rows: seq<Row>, env: Env): seq<Cell> -> Outcome<Row> {
    (key: seq<Cell>) =>
      match AggCells(aggs, Members(keys, rows, key, env), env)
      case Fails => Fails
      case Ok(cells) =>
        if |key| == |keys| && |cells| == |aggs| then
          Ok(MakeRow(Ids(AggregateHeader(keys, aggs)), CastAll(AggregateHeader(keys, aggs), key + cells)))
        else Fails
  }

  predicate AggregateResolves(keys: seq<ColumnRef>, aggs: seq<AggExpr>, names: set<Ident>, env: Env) {
    && (forall i | 0 <= i < |keys| :: Resolves(keys[i], names, env))
    && (forall i | 0 <= i < |aggs| :: ArgResolves(aggs[i].fn, aggs[i].arg, names, env))
  }

  function AggregateRel(keys: seq<ColumnRef>, aggs: seq<AggExpr>, rel: Rel, env: Env): Outcome<Rel> {
    var header := AggregateHeader(keys, aggs);
    if !AggregateResolves(keys, aggs, Names(rel.header), env) || !DistinctIds(header) then Fails
    else
      match MapAll(GroupKeys(keys, rel.rows, env), GroupRow(keys, aggs, rel.rows, env))
      case Fails => Fails
      case Ok(rows) => Ok(Rel(header, rows))
  }
}
