/** What aggregates compute, stated on the positions of the rows they range over: how many rows a COUNT counts, what a SUM
  adds up and when it overflows, what a MIN and a MAX pick, and which rows make up a group or a window frame.
 */
module AggregateLaws {
  import opened Plans
  import opened Sequences
  import opened Values
  import opened Algebra
  import opened Windows
  import opened Aggregation
  import opened ValueLaws

  /** The rows with an argument: every row for COUNT(*), and those whose cell is not NULL otherwise. */
  predicate Counted(arg: Option<ColumnRef>, row: Row, env: Env) {
    arg.None? || !CellOf(arg.value, row, env).Null?
  }

  /** The positions of the chosen rows that have an argument. */
  ghost function Known(rows: seq<Row>, g: (int, Row) -> bool, arg: Option<ColumnRef>, env: Env): set<int> {
    set i | 0 <= i < |rows| && g(i, rows[i]) && Counted(arg, rows[i], env)
  }

  function Number(c: Cell): int {
    match c
    case IntV(i) => i
    case _ => 0
  }

  /** The sum of a column over those of the given positions that lie below `n`. */
  ghost function SumBelow(rows: seq<Row>, at: set<int>, c: ColumnRef, env: Env, n: nat): int
    requires n <= |rows|
  {
    if n == 0 then 0
    else SumBelow(rows, at, c, env, n - 1) + if n - 1 in at then Number(CellOf(c, rows[n - 1], env)) else 0
  }

  /** `x` is no larger than `y`, of one type. */
  ghost predicate AtMost(x: Cell, y: Cell) {
    && (x.IntV? && y.IntV? ==> x.i <= y.i)
    && (x.StrV? && y.StrV? ==> x.s == y.s || Lexicographic(x.s, y.s))
  }

  /** `v` is the aggregate of the rows at the given positions. */
  ghost predicate IsAggregate(fn: AggFn, arg: Option<ColumnRef>, ty: ColumnType, rows: seq<Row>, at: set<int>, env: Env, v: Cell) {
    match fn
    case Count => v.IntV? && v.i == |at|
    case Sum =>
      if at == {} then v == Null(Int64)
      else arg.Some? && v.IntV? && v.i == SumBelow(rows, at, arg.value, env, |rows|)
    case Min =>
      if at == {} then v == Null(ty)
      else arg.Some? && IsCellAt(rows, at, arg.value, env, v) && forall i | i in at && 0 <= i < |rows| :: AtMost(v, CellOf(arg.value, rows[i], env))
    case Max =>
      if at == {} then v == Null(ty)
      else arg.Some? && IsCellAt(rows, at, arg.value, env, v) && forall i | i in at && 0 <= i < |rows| :: AtMost(CellOf(arg.value, rows[i], env), v)
  }

  ghost predicate IsCellAt(rows: seq<Row>, at: set<int>, c: ColumnRef, env: Env, v: Cell) {
    exists i :: i in at && 0 <= i < |rows| && v == CellOf(c, rows[i], env)
  }

  /** Counting past the 64-bit range fails, and so does a sum that leaves it after some row. */
  ghost predicate Overflows(fn: AggFn, arg: Option<ColumnRef>, rows: seq<Row>, at: set<int>, env: Env) {
    match fn
    case Count => |at| > INT64_MAX
    case Sum => arg.Some? && exists n :: 0 <= n <= |rows| && !(INT64_MIN <= SumBelow(rows, at, arg.value, env, n) <= INT64_MAX)
    case _ => false
  }

  // ---------------------------------------------------------------- lists and positions

  /** The arguments of the chosen rows, in input order. */
  ghost function Args(rows: seq<Row>, g: (int, Row) -> bool, arg: Option<ColumnRef>, env: Env): seq<Cell> {
    NonNull(ArgCells(arg, Picked(rows, g), env))
  }

  lemma ArgsSnoc(rows: seq<Row>, g: (int, Row) -> bool, arg: Option<ColumnRef>, env: Env)
    requires rows != []
    ensures var n := |rows| - 1;
            Args(rows, g, arg, env) ==
            Args(rows[..n], g, arg, env) + if g(n, rows[n]) && Counted(arg, rows[n], env) then [ArgCell(arg, rows[n], env)] else []
  {
    var n := |rows| - 1;
    var init := Picked(rows[..n], g);
    if g(n, rows[n]) {
      assert ArgCells(arg, init + [rows[n]], env) == ArgCells(arg, init, env) + [ArgCell(arg, rows[n], env)];
      NonNullSnoc(ArgCells(arg, init, env), ArgCell(arg, rows[n], env));
    } else {
      assert init + [] == init;
    }
  }

  lemma KnownSnoc(rows: seq<Row>, g: (int, Row) -> bool, arg: Option<ColumnRef>, env: Env)
    requires rows != []
    ensures var n := |rows| - 1;
            var init := Known(rows[..n], g, arg, env);
            n !in init && Known(rows, g, arg, env) == if g(n, rows[n]) && Counted(arg, rows[n], env) then init + {n} else init
  {
    var n := |rows| - 1;
    forall i ensures i in Known(rows, g, arg, env) <==>
                     i in Known(rows[..n], g, arg, env) || (i == n && g(n, rows[n]) && Counted(arg, rows[n], env)) {
      assert 0 <= i < n ==> rows[..n][i] == rows[i];
    }
  }

  lemma {:induction false} SumOfPrefix(rows: seq<Row>, at: set<int>, m: nat, init: set<int>, c: ColumnRef, env: Env, n: nat)
    requires n <= m <= |rows| && forall i | 0 <= i < m :: i in at <==> i in init
    ensures SumBelow(rows, at, c, env, n) == SumBelow(rows[..m], init, c, env, n)
  {
    if n > 0 {
      SumOfPrefix(rows, at, m, init, c, env, n - 1);
    }
  }

  lemma {:induction false} ArgsCount(rows: seq<Row>, g: (int, Row) -> bool, arg: Option<ColumnRef>, env: Env)
    ensures |Args(rows, g, arg, env)| == |Known(rows, g, arg, env)|
  {
    if rows == [] {
      assert Known(rows, g, arg, env) == {};
    } else {
      hide Args, Known, Counted;
      ArgsSnoc(rows, g, arg, env);
      KnownSnoc(rows, g, arg, env);
      ArgsCount(rows[..|rows| - 1], g, arg, env);
    }
  }

  lemma {:induction false} ArgsMembers(rows: seq<Row>, g: (int, Row) -> bool, arg: Option<ColumnRef>, env: Env, v: Cell)
    ensures v in Args(rows, g, arg, env) <==> exists i :: i in Known(rows, g, arg, env) && v == ArgCell(arg, rows[i], env)
  {
    if rows != [] {
      var n := |rows| - 1;
      ArgsSnoc(rows, g, arg, env);
      KnownSnoc(rows, g, arg, env);
      ArgsMembers(rows[..n], g, arg, env, v);
      hide Args, Counted, ArgCell;
      if v in Args(rows[..n], g, arg, env) {
        var i :| i in Known(rows[..n], g, arg, env) && v == ArgCell(arg, rows[..n][i], env);
        assert i in Known(rows, g, arg, env) && v == ArgCell(arg, rows[i], env);
      }
      if exists i :: i in Known(rows, g, arg, env) && v == ArgCell(arg, rows[i], env) {
        var i :| i in Known(rows, g, arg, env) && v == ArgCell(arg, rows[i], env);
        if i < n {
          assert i in Known(rows[..n], g, arg, env) && v == ArgCell(arg, rows[..n][i], env);
        }
      }
    }
  }

  ghost predicate SumsFit(rows: seq<Row>, at: set<int>, c: ColumnRef, env: Env) {
    forall n | 0 <= n <= |rows| :: Fits(SumBelow(rows, at, c, env, n))
  }

  lemma {:induction false} ArgsSum(rows: seq<Row>, g: (int, Row) -> bool, c: ColumnRef, env: Env)
    ensures Total(Args(rows, g, Some(c), env)) == SumBelow(rows, Known(rows, g, Some(c), env), c, env, |rows|)
    ensures PrefixesFit(Args(rows, g, Some(c), env)) <==> SumsFit(rows, Known(rows, g, Some(c), env), c, env)
  {
    var at := Known(rows, g, Some(c), env);
    if rows == [] {
      NoPrefix();
    } else {
      var n := |rows| - 1;
      var init := Known(rows[..n], g, Some(c), env);
      ArgsSnoc(rows, g, Some(c), env);
      KnownSnoc(rows, g, Some(c), env);
      ArgsSum(rows[..n], g, c, env);
      forall m | 0 <= m <= n ensures SumBelow(rows, at, c, env, m) == SumBelow(rows[..n], init, c, env, m) {
        SumOfPrefix(rows, at, n, init, c, env, m);
      }
      SumsFitSnoc(rows, at, init, c, env);
      var args := Args(rows[..n], g, Some(c), env);
      hide Args, Known, PrefixesFit, SumsFit, SumBelow, Total;
      if n in at {
        TotalSnoc(args, ArgCell(Some(c), rows[n], env));
        PrefixesSnoc(args, ArgCell(Some(c), rows[n], env));
        SumBelowStep(rows, at, c, env);
      } else {
        SumBelowStep(rows, at, c, env);
        WholePrefix(args);
        assert args + [] == args;
      }
    }
  }

  lemma SumBelowStep(rows: seq<Row>, at: set<int>, c: ColumnRef, env: Env)
    requires rows != []
    ensures var n := |rows| - 1;
            SumBelow(rows, at, c, env, |rows|) ==
            SumBelow(rows, at, c, env, n) + if n in at then Number(ArgCell(Some(c), rows[n], env)) else 0
    ensures forall x: Cell :: Number(x) == IntOf(x)
  {
  }

  lemma WholePrefix(args: seq<Cell>)
    ensures PrefixesFit(args) ==> Fits(Total(args))
  {
    assert args[..|args|] == args;
  }

  lemma SumsFitSnoc(rows: seq<Row>, at: set<int>, init: set<int>, c: ColumnRef, env: Env)
    requires rows != []
    requires forall m | 0 <= m < |rows| :: SumBelow(rows, at, c, env, m) == SumBelow(rows[..|rows| - 1], init, c, env, m)
    ensures SumsFit(rows, at, c, env) <==>
            SumsFit(rows[..|rows| - 1], init, c, env) && Fits(SumBelow(rows, at, c, env, |rows|))
  {
    var n := |rows| - 1;
    if SumsFit(rows, at, c, env) {
      forall m | 0 <= m <= n ensures Fits(SumBelow(rows[..n], init, c, env, m)) {
        assert Fits(SumBelow(rows, at, c, env, m));
      }
    }
    if SumsFit(rows[..n], init, c, env) && Fits(SumBelow(rows, at, c, env, |rows|)) {
      forall m | 0 <= m <= |rows| ensures Fits(SumBelow(rows, at, c, env, m)) {
        if m <= n { assert Fits(SumBelow(rows[..n], init, c, env, m)); }
      }
    }
  }

  /** No cell of the list is smaller than the least one, nor larger than the greatest. */
  lemma ExtremesMean(cells: seq<Cell>)
    requires cells != []
    ensures LeastOf(cells) in cells && forall v | v in cells :: AtMost(LeastOf(cells), v)
    ensures GreatestOf(cells) in cells && forall v | v in cells :: AtMost(v, GreatestOf(cells))
  {
    hide LeastOf, GreatestOf, CellLess;
    LeastIsLeast(cells);
    GreatestIsGreatest(cells);
    forall v | v in cells ensures AtMost(LeastOf(cells), v) && AtMost(v, GreatestOf(cells)) {
      var i :| 0 <= i < |cells| && cells[i] == v;
      NotLess(v, LeastOf(cells));
      NotLess(GreatestOf(cells), v);
    }
  }

  lemma NotLess(x: Cell, y: Cell)
    ensures !CellLess(x, y) ==> AtMost(y, x)
  {
    if x.StrV? && y.StrV? {
      StrOrder(x.s, y.s);
      StrLessIsLexicographic(y.s, x.s);
    }
  }

  /** The aggregate of the chosen rows, taken in input order, is their aggregate by position, or overflows. */
  lemma OutcomeMeans(fn: AggFn, arg: Option<ColumnRef>, ty: ColumnType, rows: seq<Row>, g: (int, Row) -> bool, env: Env)
    requires fn != Count ==> arg.Some?
    ensures var at, r := Known(rows, g, arg, env), AggOutcome(fn, ty, ArgCells(arg, Picked(rows, g), env));
            && (r.Fails? <==> Overflows(fn, arg, rows, at, env))
            && (r.Ok? ==> IsAggregate(fn, arg, ty, rows, at, env, r.value))
  {
    hide Known, Picked, ArgCells, NonNull, Total, PrefixesFit, LeastOf, GreatestOf, SumBelow, AtMost;
    var args := Args(rows, g, arg, env);
    ArgsCount(rows, g, arg, env);
    NoneKnown(Known(rows, g, arg, env));
    match fn
    case Count =>
    case Sum =>
      ArgsSum(rows, g, arg.value, env);
      NoSum(args);
    case _ =>
      if args != [] {
        ExtremesMean(args);
        ExtremeAt(rows, g, arg, env, LeastOf(args));
        ExtremeAt(rows, g, arg, env, GreatestOf(args));
        AllKnown(rows, g, arg, env);
      }
  }

  lemma NoneKnown(at: set<int>)
    ensures |at| == 0 <==> at == {}
  {
  }

  lemma NoSum(args: seq<Cell>)
    ensures args == [] ==> PrefixesFit(args)
  {
    NoPrefix();
  }

  lemma ExtremeAt(rows: seq<Row>, g: (int, Row) -> bool, arg: Option<ColumnRef>, env: Env, v: Cell)
    requires arg.Some? && v in Args(rows, g, arg, env)
    ensures IsCellAt(rows, Known(rows, g, arg, env), arg.value, env, v)
  {
    ArgsMembers(rows, g, arg, env, v);
    hide Args;
    var i :| i in Known(rows, g, arg, env) && v == ArgCell(arg, rows[i], env);
    assert 0 <= i < |rows| && v == CellOf(arg.value, rows[i], env);
  }

  lemma AllKnown(rows: seq<Row>, g: (int, Row) -> bool, arg: Option<ColumnRef>, env: Env)
    requires arg.Some?
    ensures forall i | i in Known(rows, g, arg, env) && 0 <= i < |rows| :: CellOf(arg.value, rows[i], env) in Args(rows, g, arg, env)
  {
    forall i | i in Known(rows, g, arg, env) && 0 <= i < |rows| ensures CellOf(arg.value, rows[i], env) in Args(rows, g, arg, env) {
      ArgsMembers(rows, g, arg, env, ArgCell(arg, rows[i], env));
    }
  }

  // ---------------------------------------------------------------- groups

  /** A row belongs to the group of a key when its key columns hold the key's cells. */
  ghost predicate InGroup(keys: seq<ColumnRef>, key: seq<Cell>, env: Env, row: Row) {
    |key| == |keys| && forall k | 0 <= k < |keys| :: CellOf(keys[k], row, env) == key[k]
  }

  /** The positions of a group's rows that have an argument. */
  ghost function GroupAt(keys: seq<ColumnRef>, key: seq<Cell>, arg: Option<ColumnRef>, rows: seq<Row>, env: Env): set<int> {
    set i | 0 <= i < |rows| && InGroup(keys, key, env, rows[i]) && Counted(arg, rows[i], env)
  }

  function HasKey(keys: seq<ColumnRef>, key: seq<Cell>, env: Env): (int, Row) -> bool {
    (i: int, r: Row) => KeyOf(keys, r, env) == key
  }

  lemma {:induction false} MembersArePicked(keys: seq<ColumnRef>, rows: seq<Row>, key: seq<Cell>, env: Env)
    ensures Members(keys, rows, key, env) == Picked(rows, HasKey(keys, key, env))
  {
    if rows != [] {
      hide KeyOf;
      MembersArePicked(keys, rows[..|rows| - 1], key, env);
    }
  }

  lemma KeyIsGroup(keys: seq<ColumnRef>, key: seq<Cell>, env: Env, row: Row)
    ensures KeyOf(keys, row, env) == key <==> InGroup(keys, key, env, row)
  {
  }

  lemma GroupKnown(keys: seq<ColumnRef>, key: seq<Cell>, arg: Option<ColumnRef>, rows: seq<Row>, env: Env)
    ensures Known(rows, HasKey(keys, key, env), arg, env) == GroupAt(keys, key, arg, rows, env)
  {
    hide KeyOf, InGroup;
    forall i | 0 <= i < |rows| ensures KeyOf(keys, rows[i], env) == key <==> InGroup(keys, key, env, rows[i]) {
      KeyIsGroup(keys, key, env, rows[i]);
    }
  }

  /** The value of one aggregate over one group. */
  lemma GroupOutcome(a: AggExpr, keys: seq<ColumnRef>, key: seq<Cell>, rows: seq<Row>, env: Env)
    requires a.fn != Count ==> a.arg.Some?
    ensures var at, r := GroupAt(keys, key, a.arg, rows, env), AggOutcome(a.fn, a.ty, ArgCells(a.arg, Members(keys, rows, key, env), env));
            && (r.Fails? <==> Overflows(a.fn, a.arg, rows, at, env))
            && (r.Ok? ==> IsAggregate(a.fn, a.arg, a.ty, rows, at, env, r.value))
  {
    hide *;
    MembersArePicked(keys, rows, key, env);
    GroupKnown(keys, key, a.arg, rows, env);
    OutcomeMeans(a.fn, a.arg, a.ty, rows, HasKey(keys, key, env), env);
  }

  lemma {:induction false} DedupOrder<T(!new)>(s: seq<T>, g: int, h: int)
    requires 0 <= g < h < |Dedup(s)|
    ensures exists i :: 0 <= i < |s| && s[i] == Dedup(s)[g] && Dedup(s)[h] !in s[..i + 1]
  {
    var n := |s| - 1;
    var d := Dedup(s[..n]);
    if h < |d| {
      DedupOrder(s[..n], g, h);
      var i :| 0 <= i < n && s[..n][i] == d[g] && d[h] !in s[..n][..i + 1];
      assert s[..n][..i + 1] == s[..i + 1];
      assert s[i] == Dedup(s)[g];
    } else {
      assert d[g] in s[..n];
      var i :| 0 <= i < n && s[..n][i] == d[g];
      assert s[n] !in s[..n] && s[..n] == s[..i + 1] + s[i + 1..n];
      assert s[i] == Dedup(s)[g];
    }
  }

  /** The groups of some rows: one for every key that occurs, in order of first appearance. Without keys there is exactly one. */
  ghost predicate GroupsOf(keys: seq<ColumnRef>, rows: seq<Row>, env: Env, groups: seq<seq<Cell>>) {
    && Unrepeated(groups)
    && (forall g | 0 <= g < |groups| :: |groups[g]| == |keys|)
    && (keys == [] ==> groups == [[]])
    && (forall i | 0 <= i < |rows| :: HasGroup(keys, rows[i], env, groups))
    && (keys != [] ==> forall g | 0 <= g < |groups| :: Occurs(keys, groups[g], env, rows))
    && (forall g, h | 0 <= g < h < |groups| :: AppearsFirst(keys, rows, env, groups[g], groups[h]))
  }

  ghost predicate HasGroup(keys: seq<ColumnRef>, row: Row, env: Env, groups: seq<seq<Cell>>) {
    exists g :: 0 <= g < |groups| && InGroup(keys, groups[g], env, row)
  }

  ghost predicate Occurs(keys: seq<ColumnRef>, key: seq<Cell>, env: Env, rows: seq<Row>) {
    exists i :: 0 <= i < |rows| && InGroup(keys, key, env, rows[i])
  }

  ghost predicate AppearsFirst(keys: seq<ColumnRef>, rows: seq<Row>, env: Env, a: seq<Cell>, b: seq<Cell>) {
    exists i :: 0 <= i < |rows| && InGroup(keys, a, env, rows[i]) && forall j | 0 <= j <= i :: !InGroup(keys, b, env, rows[j])
  }

  lemma GroupKeysMean(keys: seq<ColumnRef>, rows: seq<Row>, env: Env)
    ensures GroupsOf(keys, rows, env, GroupKeys(keys, rows, env))
  {
    hide InGroup, AppearsFirst, KeyOf, Dedup, HasGroup, Occurs;
    var groups := GroupKeys(keys, rows, env);
    GroupKeyWidths(keys, rows, env);
    assert Unrepeated(groups);
    forall i | 0 <= i < |rows| ensures HasGroup(keys, rows[i], env, groups) {
      RowHasGroup(keys, rows, env, i);
    }
    if keys != [] {
      forall g | 0 <= g < |groups| ensures Occurs(keys, groups[g], env, rows) {
        GroupOccurs(keys, rows, env, g);
      }
      forall g, h | 0 <= g < h < |groups| ensures AppearsFirst(keys, rows, env, groups[g], groups[h]) {
        FirstAppearance(keys, rows, env, g, h);
      }
    }
  }

  lemma RowHasGroup(keys: seq<ColumnRef>, rows: seq<Row>, env: Env, i: int)
    requires 0 <= i < |rows|
    ensures HasGroup(keys, rows[i], env, GroupKeys(keys, rows, env))
  {
    hide InGroup, GroupKeys;
    var g := KeyOfPosition(keys, rows, i, env);
    KeyIsGroup(keys, GroupKeys(keys, rows, env)[g], env, rows[i]);
  }

  lemma GroupOccurs(keys: seq<ColumnRef>, rows: seq<Row>, env: Env, g: int)
    requires keys != [] && 0 <= g < |GroupKeys(keys, rows, env)|
    ensures Occurs(keys, GroupKeys(keys, rows, env)[g], env, rows)
  {
    hide InGroup, KeyOf, Dedup;
    var key, all := GroupKeys(keys, rows, env)[g], AllKeys(keys, rows, env);
    assert key in all;
    var i :| 0 <= i < |all| && all[i] == key;
    KeyIsGroup(keys, key, env, rows[i]);
  }

  lemma FirstAppearance(keys: seq<ColumnRef>, rows: seq<Row>, env: Env, g: int, h: int)
    requires keys != [] && 0 <= g < h < |GroupKeys(keys, rows, env)|
    ensures AppearsFirst(keys, rows, env, GroupKeys(keys, rows, env)[g], GroupKeys(keys, rows, env)[h])
  {
    hide InGroup, KeyOf, Dedup;
    var groups, all := GroupKeys(keys, rows, env), AllKeys(keys, rows, env);
    DedupOrder(all, g, h);
    var i :| 0 <= i < |all| && all[i] == groups[g] && groups[h] !in all[..i + 1];
    KeyIsGroup(keys, groups[g], env, rows[i]);
    forall j | 0 <= j <= i ensures !InGroup(keys, groups[h], env, rows[j]) {
      assert all[..i + 1][j] == all[j] == KeyOf(keys, rows[j], env);
      KeyIsGroup(keys, groups[h], env, rows[j]);
    }
  }

  /** An output row shows its group's key and one value for each aggregate, stored in columns of the declared types. */
  ghost predicate ShowsGroup(keys: seq<ColumnRef>, aggs: seq<AggExpr>, rows: seq<Row>, env: Env, key: seq<Cell>, row: Row)
    requires |key| == |keys|
  {
    && (forall k | 0 <= k < |keys| :: keys[k].id in row && row[keys[k].id] == Cast(keys[k].ty, key[k]))
    && (forall a | 0 <= a < |aggs| :: ShowsAggregate(keys, aggs[a], rows, env, key, row))
  }

  ghost predicate ShowsAggregate(keys: seq<ColumnRef>, a: AggExpr, rows: seq<Row>, env: Env, key: seq<Cell>, row: Row) {
    Ident("", a.name) in row &&
    exists v :: row[Ident("", a.name)] == Cast(a.ty, v) && IsAggregate(a.fn, a.arg, a.ty, rows, GroupAt(keys, key, a.arg, rows, env), env, v)
  }

  ghost predicate GroupOverflows(keys: seq<ColumnRef>, aggs: seq<AggExpr>, rows: seq<Row>, env: Env, key: seq<Cell>) {
    exists a :: 0 <= a < |aggs| && Overflows(aggs[a].fn, aggs[a].arg, rows, GroupAt(keys, key, aggs[a].arg, rows, env), env)
  }

  /** Every key and argument can be read, and only COUNT goes without an argument. */
  ghost predicate Readable(keys: seq<ColumnRef>, aggs: seq<AggExpr>, rel: Rel, env: Env) {
    && (forall k | 0 <= k < |keys| :: Resolves(keys[k], Names(rel.header), env))
    && (forall a | 0 <= a < |aggs| :: if aggs[a].arg.Some? then Resolves(aggs[a].arg.value, Names(rel.header), env) else aggs[a].fn == Count)
  }

  /** An aggregate returns one row for each group; it fails exactly when a column cannot be read, two output columns coincide,
    or some value overflows. */
  lemma AggregateMeans(keys: seq<ColumnRef>, aggs: seq<AggExpr>, rel: Rel, env: Env) returns (groups: seq<seq<Cell>>)
    ensures GroupsOf(keys, rel.rows, env, groups)
    ensures AggregateRel(keys, aggs, rel, env).Fails? <==>
            || !Readable(keys, aggs, rel, env) || !DistinctIds(AggregateHeader(keys, aggs))
            || exists g :: 0 <= g < |groups| && GroupOverflows(keys, aggs, rel.rows, env, groups[g])
    ensures AggregateRel(keys, aggs, rel, env).Ok? ==>
              var out := AggregateRel(keys, aggs, rel, env).value;
              && out.header == AggregateHeader(keys, aggs) && |out.rows| == |groups|
              && forall g | 0 <= g < |groups| :: ShowsGroup(keys, aggs, rel.rows, env, groups[g], out.rows[g])
  {
    groups := GroupKeys(keys, rel.rows, env);
    GroupKeysMean(keys, rel.rows, env);
    GroupKeyWidths(keys, rel.rows, env);
    ReadableIs(keys, aggs, rel, env);
    hide GroupKeys, GroupsOf, GroupRow, ShowsGroup, GroupOverflows, AggregateResolves, DistinctIds, Names, Readable, AggregateHeader;
    if AggregateResolves(keys, aggs, Names(rel.header), env) && DistinctIds(AggregateHeader(keys, aggs)) {
      forall g | 0 <= g < |groups|
        ensures var r := GroupRow(keys, aggs, rel.rows, env)(groups[g]);
                && (r.Fails? <==> GroupOverflows(keys, aggs, rel.rows, env, groups[g]))
                && (r.Ok? ==> ShowsGroup(keys, aggs, rel.rows, env, groups[g], r.value))
      {
        GroupRowMeans(keys, aggs, rel.rows, env, groups[g]);
      }
    }
  }

  lemma ReadableIs(keys: seq<ColumnRef>, aggs: seq<AggExpr>, rel: Rel, env: Env)
    ensures AggregateResolves(keys, aggs, Names(rel.header), env) <==> Readable(keys, aggs, rel, env)
    ensures Readable(keys, aggs, rel, env) ==> forall a | 0 <= a < |aggs| :: aggs[a].fn != Count ==> aggs[a].arg.Some?
  {
    hide Resolves;
  }

  lemma GroupRowMeans(keys: seq<ColumnRef>, aggs: seq<AggExpr>, rows: seq<Row>, env: Env, key: seq<Cell>)
    requires |key| == |keys| && DistinctIds(AggregateHeader(keys, aggs))
    requires forall a | 0 <= a < |aggs| :: aggs[a].fn != Count ==> aggs[a].arg.Some?
    ensures var r := GroupRow(keys, aggs, rows, env)(key);
            && (r.Fails? <==> GroupOverflows(keys, aggs, rows, env, key))
            && (r.Ok? ==> ShowsGroup(keys, aggs, rows, env, key, r.value))
  {
    hide AggCells, Members, GroupOverflows, GroupAt, IsAggregate, DistinctIds, MakeRow, AggregateHeader, CastAll, ShowsGroup;
    AggCellsMean(keys, aggs, rows, env, key);
    var cells := AggCells(aggs, Members(keys, rows, key, env), env);
    if cells.Ok? {
      var header := AggregateHeader(keys, aggs);
      var row := MakeRow(Ids(header), CastAll(header, key + cells.value));
      assert GroupRow(keys, aggs, rows, env)(key) == Ok(row);
      hide *;
      RowOfCells(keys, aggs, key, cells.value);
      RowShows(keys, aggs, rows, env, key, cells.value, row);
    }
  }

  lemma RowShows(keys: seq<ColumnRef>, aggs: seq<AggExpr>, rows: seq<Row>, env: Env, key: seq<Cell>, cells: seq<Cell>, row: Row)
    requires |key| == |keys| && |cells| == |aggs|
    requires forall k | 0 <= k < |keys| :: keys[k].id in row && row[keys[k].id] == Cast(keys[k].ty, key[k])
    requires forall a | 0 <= a < |aggs| :: Ident("", aggs[a].name) in row && row[Ident("", aggs[a].name)] == Cast(aggs[a].ty, cells[a])
    requires forall a | 0 <= a < |aggs| ::
               IsAggregate(aggs[a].fn, aggs[a].arg, aggs[a].ty, rows, GroupAt(keys, key, aggs[a].arg, rows, env), env, cells[a])
    ensures ShowsGroup(keys, aggs, rows, env, key, row)
  {
    hide Cast, IsAggregate, GroupAt;
  }

  lemma AggCellsMean(keys: seq<ColumnRef>, aggs: seq<AggExpr>, rows: seq<Row>, env: Env, key: seq<Cell>)
    requires forall a | 0 <= a < |aggs| :: aggs[a].fn != Count ==> aggs[a].arg.Some?
    ensures var cells := AggCells(aggs, Members(keys, rows, key, env), env);
            && (cells.Fails? <==> GroupOverflows(keys, aggs, rows, env, key))
            && (cells.Ok? ==> |cells.value| == |aggs| && forall a | 0 <= a < |aggs| ::
                  IsAggregate(aggs[a].fn, aggs[a].arg, aggs[a].ty, rows, GroupAt(keys, key, aggs[a].arg, rows, env), env, cells.value[a]))
  {
    hide AggOutcome, Members, Overflows, GroupAt, IsAggregate, ArgCells;
    forall a | 0 <= a < |aggs|
      ensures var at, r := GroupAt(keys, key, aggs[a].arg, rows, env),
                           AggOutcome(aggs[a].fn, aggs[a].ty, ArgCells(aggs[a].arg, Members(keys, rows, key, env), env));
              && (r.Fails? <==> Overflows(aggs[a].fn, aggs[a].arg, rows, at, env))
              && (r.Ok? ==> IsAggregate(aggs[a].fn, aggs[a].arg, aggs[a].ty, rows, at, env, r.value))
    {
      GroupOutcome(aggs[a], keys, key, rows, env);
    }
  }

  lemma RowOfCells(keys: seq<ColumnRef>, aggs: seq<AggExpr>, key: seq<Cell>, cells: seq<Cell>)
    requires |key| == |keys| && |cells| == |aggs| && DistinctIds(AggregateHeader(keys, aggs))
    ensures var header := AggregateHeader(keys, aggs);
            var row := MakeRow(Ids(header), CastAll(header, key + cells));
            && (forall k | 0 <= k < |keys| :: keys[k].id in row && row[keys[k].id] == Cast(keys[k].ty, key[k]))
            && (forall a | 0 <= a < |aggs| :: Ident("", aggs[a].name) in row && row[Ident("", aggs[a].name)] == Cast(aggs[a].ty, cells[a]))
  {
    var header := AggregateHeader(keys, aggs);
    var ids, stored := Ids(header), CastAll(header, key + cells);
    assert Unrepeated(ids);
    forall k | 0 <= k < |keys| ensures ids[k] == keys[k].id && stored[k] == Cast(keys[k].ty, key[k]) {
    }
    forall a | 0 <= a < |aggs| ensures ids[|keys| + a] == Ident("", aggs[a].name) && stored[|keys| + a] == Cast(aggs[a].ty, cells[a]) {
    }
    hide MakeRow;
    forall k | 0 <= k < |keys| ensures keys[k].id in MakeRow(ids, stored) && MakeRow(ids, stored)[keys[k].id] == stored[k] {
      assert ids[k] == keys[k].id;
    }
    forall a | 0 <= a < |aggs|
      ensures Ident("", aggs[a].name) in MakeRow(ids, stored) && MakeRow(ids, stored)[Ident("", aggs[a].name)] == stored[|keys| + a]
    {
      assert ids[|keys| + a] == Ident("", aggs[a].name);
    }
  }

  // ---------------------------------------------------------------- counting rows

  /** COUNT(*) shows how many rows have the group's key, and COUNT of a column how many of them have a value there. */
  lemma CountMeans(keys: seq<ColumnRef>, aggs: seq<AggExpr>, a: int, rows: seq<Row>, env: Env, key: seq<Cell>, row: Row)
    requires |key| == |keys| && 0 <= a < |aggs| && aggs[a].fn == Count && aggs[a].ty == Int64
    requires ShowsGroup(keys, aggs, rows, env, key, row)
    ensures var v := row[Ident("", aggs[a].name)];
            v.IntV? &&
            match aggs[a].arg
            case None => v.i == |set i | 0 <= i < |rows| && InGroup(keys, key, env, rows[i])|
            case Some(c) => v.i == |set i | 0 <= i < |rows| && InGroup(keys, key, env, rows[i]) && !CellOf(c, rows[i], env).Null?|
  {
    hide InGroup, CellOf;
    assert ShowsAggregate(keys, aggs[a], rows, env, key, row);
    match aggs[a].arg
    case None =>
      assert GroupAt(keys, key, None, rows, env) == set i | 0 <= i < |rows| && InGroup(keys, key, env, rows[i]);
    case Some(c) =>
      assert GroupAt(keys, key, Some(c), rows, env) ==
             set i | 0 <= i < |rows| && InGroup(keys, key, env, rows[i]) && !CellOf(c, rows[i], env).Null?;
  }

  /** Without grouping, COUNT(*) is one row with the number of input rows, 0 over none. */
  lemma UngroupedCount(name: string, rel: Rel, env: Env)
    requires |rel.rows| <= INT64_MAX
    ensures AggregateRel([], [AggExpr(name, Count, None, Int64)], rel, env) ==
            Ok(Rel([Field(Ident("", name), Int64)], [map[Ident("", name) := IntV(|rel.rows|)]]))
  {
    var aggs, out := [AggExpr(name, Count, None, Int64)], map[Ident("", name) := IntV(|rel.rows|)];
    OneGroupRow(name, rel.rows, env);
    MapAllIs([[]], GroupRow([], aggs, rel.rows, env), [out]);
    hide GroupRow, MapAll;
    assert AggregateHeader([], aggs) == [Field(Ident("", name), Int64)];
  }

  lemma OneGroupRow(name: string, rows: seq<Row>, env: Env)
    requires |rows| <= INT64_MAX
    ensures GroupRow([], [AggExpr(name, Count, None, Int64)], rows, env)([]) == Ok(map[Ident("", name) := IntV(|rows|)])
  {
    var aggs, cells := [AggExpr(name, Count, None, Int64)], [IntV(|rows|)];
    EveryRowCounted(rows, env);
    hide AggOutcome, Members, ArgCells;
    MapAllIs(aggs, (a: AggExpr) => AggOutcome(a.fn, a.ty, ArgCells(a.arg, Members([], rows, [], env), env)), cells);
    assert AggCells(aggs, Members([], rows, [], env), env) == Ok(cells);
    hide AggCells, MakeRow, CastAll, AggregateHeader;
    OneCellRow(name, IntV(|rows|));
    assert [] + cells == cells;
  }

  lemma OneCellRow(name: string, v: Cell)
    requires v.Type() == Int64
    ensures var header := AggregateHeader([], [AggExpr(name, Count, None, Int64)]);
            MakeRow(Ids(header), CastAll(header, [v])) == map[Ident("", name) := v]
  {
    var header := AggregateHeader([], [AggExpr(name, Count, None, Int64)]);
    assert header == [Field(Ident("", name), Int64)];
    assert Ids(header) == [Ident("", name)] && CastAll(header, [v]) == [v];
    assert [Ident("", name)][..0] == [] && [v][..0] == [];
  }

  lemma EveryRowCounted(rows: seq<Row>, env: Env)
    requires |rows| <= INT64_MAX
    ensures AggOutcome(Count, Int64, ArgCells(None, Members([], rows, [], env), env)) == Ok(IntV(|rows|))
  {
    hide AggOutcome, Overflows, Members;
    GroupOutcome(AggExpr("", Count, None, Int64), [], [], rows, env);
    var at := GroupAt([], [], None, rows, env);
    forall i ensures i in at <==> 0 <= i < |rows| {
    }
    RangeSize(at, |rows|);
    CountOverflow(rows, at, env);
  }

  lemma CountOverflow(rows: seq<Row>, at: set<int>, env: Env)
    requires |at| <= INT64_MAX
    ensures !Overflows(Count, None, rows, at, env)
  {
  }

  lemma {:induction false} RangeSize(at: set<int>, n: nat)
    requires forall i :: i in at <==> 0 <= i < n
    ensures |at| == n
  {
    if n == 0 {
      assert forall i :: i !in at;
    } else {
      RangeSize(at - {n - 1}, n - 1);
    }
  }
}
