/** The aggregate kernel both engines run: a hash table from group key to group number, running
  aggregate states, and output in order of first appearance.
 */
module Aggregation {
  import opened Plans
  import opened Sequences
  import opened Values
  import opened Algebra

  datatype AggState = AggState(count: int, sum: int, value: Cell, hasValue: bool)

  const FRESH: AggState := AggState(0, 0, Null(Int64), false)

  /** The rows a selection vector names. */
  function Fetch<T>(rows: seq<T>, sel: seq<int>): (r: seq<T>)
    requires forall i | 0 <= i < |sel| :: 0 <= sel[i] < |rows|
    ensures |r| == |sel| && forall i | 0 <= i < |r| :: r[i] == rows[sel[i]]
  {
    seq(|sel|, i requires 0 <= i < |sel| => rows[sel[i]])
  }

  function Identity(n: nat): (r: seq<int>)
    ensures |r| == n && forall i | 0 <= i < n :: r[i] == i
  {
    seq(n, i => i)
  }

  lemma FetchIdentity<T>(rows: seq<T>)
    ensures Fetch(rows, Identity(|rows|)) == rows
  {
  }

  // ---------------------------------------------------------------- running states

  /** Folds one argument into a state; a NULL leaves it alone. */
  function Update(fn: AggFn, s: AggState, arg: Cell): Outcome<AggState> {
    if arg.Null? then Ok(s)
    else
      match fn
      case Count => if s.count == INT64_MAX then Fails else Ok(s.(count := s.count + 1))
      case Sum =>
        if !s.hasValue then Ok(s.(sum := IntOf(arg), hasValue := true))
        else if Fits(s.sum + IntOf(arg)) then Ok(s.(sum := s.sum + IntOf(arg)))
        else Fails
      case Min => Ok(s.(value := if !s.hasValue || CellLess(arg, s.value) then arg else s.value, hasValue := true))
      case Max => Ok(s.(value := if !s.hasValue || CellLess(s.value, arg) then arg else s.value, hasValue := true))
  }

  function Finalize(fn: AggFn, ty: ColumnType, s: AggState): Cell {
    match fn
    case Count => if Fits(s.count) then IntV(s.count) else Null(Int64)
    case Sum => if s.hasValue && Fits(s.sum) then IntV(s.sum) else Null(Int64)
    case Min => if s.hasValue then s.value else Null(ty)
    case Max => if s.hasValue then s.value else Null(ty)
  }

  /** `s` is the state after the arguments `cells`. */
  ghost predicate Accumulates(fn: AggFn, s: AggState, cells: seq<Cell>) {
    var args := NonNull(cells);
    match fn
    case Count => s.count == |args| <= INT64_MAX
    case Sum => s.hasValue == (args != []) && s.sum == Total(args) && PrefixesFit(args)
    case Min => s.hasValue == (args != []) && (args != [] ==> s.value == LeastOf(args))
    case Max => s.hasValue == (args != []) && (args != [] ==> s.value == GreatestOf(args))
  }

  lemma PrefixesSnoc(cells: seq<Cell>, x: Cell)
    ensures PrefixesFit(cells + [x]) <==> PrefixesFit(cells) && Fits(Total(cells + [x]))
  {
    var all := cells + [x];
    assert forall n | 0 <= n <= |cells| :: all[..n] == cells[..n];
    assert all[..|all|] == all;
    if PrefixesFit(all) {
      forall n | 0 <= n <= |cells| ensures Fits(Total(cells[..n])) {
        assert all[..n] == cells[..n];
      }
    }
    if PrefixesFit(cells) && Fits(Total(all)) {
      forall n | 0 <= n <= |all| ensures Fits(Total(all[..n])) {
        assert n <= |cells| ==> all[..n] == cells[..n];
      }
    }
  }

  lemma NonNullSnoc(cells: seq<Cell>, arg: Cell)
    ensures NonNull(cells + [arg]) == if arg.Null? then NonNull(cells) else NonNull(cells) + [arg]
  {
    assert (cells + [arg])[..|cells|] == cells;
    assert NonNull(cells) + [] == NonNull(cells);
  }

  lemma TotalSnoc(args: seq<Cell>, arg: Cell)
    ensures Total(args + [arg]) == Total(args) + IntOf(arg)
  {
    assert (args + [arg])[..|args|] == args;
  }

  lemma ExtremesSnoc(args: seq<Cell>, arg: Cell)
    ensures args == [] ==> LeastOf(args + [arg]) == arg == GreatestOf(args + [arg])
    ensures args != [] ==> LeastOf(args + [arg]) == if CellLess(arg, LeastOf(args)) then arg else LeastOf(args)
    ensures args != [] ==> GreatestOf(args + [arg]) == if CellLess(GreatestOf(args), arg) then arg else GreatestOf(args)
  {
    hide CellLess;
    assert (args + [arg])[..|args|] == args;
  }

  lemma NoPrefix()
    ensures Total([]) == 0 && PrefixesFit([])
  {
  }

  lemma UpdateAccumulates(fn: AggFn, ty: ColumnType, s: AggState, cells: seq<Cell>, arg: Cell)
    requires Accumulates(fn, s, cells)
    ensures match Update(fn, s, arg)
            case Ok(t) => Accumulates(fn, t, cells + [arg])
            case Fails => AggOutcome(fn, ty, cells + [arg]).Fails?
  {
    hide NonNull, Total, PrefixesFit, LeastOf, GreatestOf, CellLess;
    NonNullSnoc(cells, arg);
    if !arg.Null? {
      var args := NonNull(cells);
      match fn
      case Count =>
      case Sum =>
        NoPrefix();
        PrefixesSnoc(args, arg);
        TotalSnoc(args, arg);
        assert args == [] ==> Fits(IntOf(arg));
      case Min => ExtremesSnoc(args, arg);
      case Max => ExtremesSnoc(args, arg);
    }
  }

  lemma FinalizeIsOutcome(fn: AggFn, ty: ColumnType, s: AggState, cells: seq<Cell>)
    requires Accumulates(fn, s, cells)
    ensures AggOutcome(fn, ty, cells) == Ok(Finalize(fn, ty, s))
  {
    var args := NonNull(cells);
    if fn == Sum {
      assert args[..|args|] == args;
    }
  }

  lemma {:induction false} NonNullAppend(s: seq<Cell>, t: seq<Cell>)
    ensures NonNull(s + t) == NonNull(s) + NonNull(t)
  {
    if t == [] {
      assert s + t == s;
    } else {
      assert (s + t)[..|s + t| - 1] == s + t[..|t| - 1];
      NonNullAppend(s, t[..|t| - 1]);
    }
  }

  /** An aggregate abandoned on a prefix of its arguments is abandoned on all of them. */
  lemma FailureSticks(fn: AggFn, ty: ColumnType, cells: seq<Cell>, more: seq<Cell>)
    requires AggOutcome(fn, ty, cells).Fails?
    ensures AggOutcome(fn, ty, cells + more).Fails?
  {
    NonNullAppend(cells, more);
    var args, all := NonNull(cells), NonNull(cells + more);
    if fn == Sum {
      var n :| 0 <= n <= |args| && !Fits(Total(args[..n]));
      assert all[..n] == args[..n];
    }
  }

  // ---------------------------------------------------------------- groups

  datatype Group = Group(key: seq<Cell>, states: seq<AggState>)

  lemma {:induction false} MembersAppend(keys: seq<ColumnRef>, s: seq<Row>, t: seq<Row>, key: seq<Cell>, env: Env)
    ensures Members(keys, s + t, key, env) == Members(keys, s, key, env) + Members(keys, t, key, env)
  {
    if t == [] {
      assert s + t == s;
    } else {
      assert (s + t)[..|s + t| - 1] == s + t[..|t| - 1];
      MembersAppend(keys, s, t[..|t| - 1], key, env);
    }
  }

  /** The argument cells of one aggregate over one group. */
  function GroupArgs(keys: seq<ColumnRef>, a: AggExpr, rows: seq<Row>, key: seq<Cell>, env: Env): seq<Cell> {
    ArgCells(a.arg, Members(keys, rows, key, env), env)
  }

  lemma GroupArgsSnoc(keys: seq<ColumnRef>, a: AggExpr, rows: seq<Row>, x: Row, key: seq<Cell>, env: Env)
    ensures GroupArgs(keys, a, rows + [x], key, env) ==
            GroupArgs(keys, a, rows, key, env) + if KeyOf(keys, x, env) == key then [ArgCell(a.arg, x, env)] else []
  {
    hide KeyOf, ArgCell;
    var all := rows + [x];
    assert all[..|all| - 1] == rows;
    if KeyOf(keys, x, env) == key {
      assert Members(keys, all, key, env) == Members(keys, rows, key, env) + [x];
    } else {
      assert Members(keys, all, key, env) == Members(keys, rows, key, env);
    }
  }

  lemma GroupArgsAppend(keys: seq<ColumnRef>, a: AggExpr, s: seq<Row>, t: seq<Row>, key: seq<Cell>, env: Env)
    returns (more: seq<Cell>)
    ensures GroupArgs(keys, a, s + t, key, env) == GroupArgs(keys, a, s, key, env) + more
  {
    hide KeyOf, ArgCell, Members;
    MembersAppend(keys, s, t, key, env);
    var ms, mt := Members(keys, s, key, env), Members(keys, t, key, env);
    more := ArgCells(a.arg, mt, env);
    assert ArgCells(a.arg, ms + mt, env) == ArgCells(a.arg, ms, env) + more;
  }

  /** All states of one group follow its members so far. */
  ghost predicate Follows(aggs: seq<AggExpr>, keys: seq<ColumnRef>, g: Group, rows: seq<Row>, env: Env) {
    |g.states| == |aggs| && forall j | 0 <= j < |aggs| :: Accumulates(aggs[j].fn, g.states[j], GroupArgs(keys, aggs[j], rows, g.key, env))
  }

  /** Some aggregate of the group fails. */
  ghost predicate GroupFails(aggs: seq<AggExpr>, keys: seq<ColumnRef>, key: seq<Cell>, rows: seq<Row>, env: Env) {
    exists j :: 0 <= j < |aggs| && AggOutcome(aggs[j].fn, aggs[j].ty, GroupArgs(keys, aggs[j], rows, key, env)).Fails?
  }

  /** Folds a row into its group's states. */
  method UpdateGroup(aggs: seq<AggExpr>, ghost keys: seq<ColumnRef>, g: Group, x: Row, env: Env, ghost rows: seq<Row>) returns (r: Outcome<Group>)
    requires Follows(aggs, keys, g, rows, env) && KeyOf(keys, x, env) == g.key
    ensures r.Ok? ==> r.value.key == g.key && Follows(aggs, keys, r.value, rows + [x], env)
    ensures r.Fails? ==> GroupFails(aggs, keys, g.key, rows + [x], env)
  {
    hide KeyOf, ArgCell, GroupArgs, Accumulates, AggOutcome, Update;
    var states := [];
    var j := 0;
    while j < |aggs|
      invariant 0 <= j <= |aggs| && |states| == j
      invariant forall k | 0 <= k < j :: Accumulates(aggs[k].fn, states[k], GroupArgs(keys, aggs[k], rows + [x], g.key, env))
    {
      GroupArgsSnoc(keys, aggs[j], rows, x, g.key, env);
      UpdateAccumulates(aggs[j].fn, aggs[j].ty, g.states[j], GroupArgs(keys, aggs[j], rows, g.key, env), ArgCell(aggs[j].arg, x, env));
      match Update(aggs[j].fn, g.states[j], ArgCell(aggs[j].arg, x, env))
      case Fails => return Fails;
      case Ok(s) => states := states + [s];
      j := j + 1;
    }
    r := Ok(Group(g.key, states));
  }

  /** The groups are the group keys in first-appearance order, with their running states. */
  ghost predicate Grouped(keys: seq<ColumnRef>, aggs: seq<AggExpr>, groups: seq<Group>, rows: seq<Row>, env: Env) {
    && |groups| == |GroupKeys(keys, rows, env)|
    && (forall g | 0 <= g < |groups| :: groups[g].key == GroupKeys(keys, rows, env)[g])
    && (forall g | 0 <= g < |groups| :: Follows(aggs, keys, groups[g], rows, env))
  }

  ghost predicate IndexOf(index: map<seq<Cell>, int>, groups: seq<Group>) {
    && (forall k | k in index :: 0 <= index[k] < |groups| && groups[index[k]].key == k)
    && (forall g | 0 <= g < |groups| :: groups[g].key in index && index[groups[g].key] == g)
  }

  lemma GroupKeysSnoc(keys: seq<ColumnRef>, rows: seq<Row>, x: Row, env: Env)
    requires keys != []
    ensures var before := GroupKeys(keys, rows, env);
            GroupKeys(keys, rows + [x], env) == if KeyOf(keys, x, env) in before then before else before + [KeyOf(keys, x, env)]
  {
    var all := rows + [x];
    var ks := AllKeys(keys, all, env);
    assert ks[..|ks| - 1] == AllKeys(keys, rows, env);
  }

  lemma {:induction false} NoMembers(keys: seq<ColumnRef>, rows: seq<Row>, key: seq<Cell>, env: Env)
    requires key !in AllKeys(keys, rows, env)
    ensures Members(keys, rows, key, env) == []
  {
    if rows != [] {
      var n := |rows| - 1;
      assert AllKeys(keys, rows, env)[n] == KeyOf(keys, rows[n], env);
      forall i | 0 <= i < n ensures AllKeys(keys, rows[..n], env)[i] != key {
        assert AllKeys(keys, rows, env)[i] == KeyOf(keys, rows[i], env);
      }
      NoMembers(keys, rows[..n], key, env);
    }
  }

  function FreshStates(n: nat): (r: seq<AggState>)
    ensures |r| == n && forall i | 0 <= i < n :: r[i] == FRESH
  {
    seq(n, i => FRESH)
  }

  lemma FreshFollows(aggs: seq<AggExpr>, keys: seq<ColumnRef>, key: seq<Cell>, rows: seq<Row>, env: Env)
    requires Members(keys, rows, key, env) == []
    ensures Follows(aggs, keys, Group(key, FreshStates(|aggs|)), rows, env)
  {
    forall j | 0 <= j < |aggs| ensures Accumulates(aggs[j].fn, FRESH, GroupArgs(keys, aggs[j], rows, key, env)) {
      assert GroupArgs(keys, aggs[j], rows, key, env) == [];
      assert forall n | 0 <= n <= 0 :: (NonNull([]))[..n] == [];
    }
  }

  lemma OthersFollow(aggs: seq<AggExpr>, keys: seq<ColumnRef>, g: Group, rows: seq<Row>, x: Row, env: Env)
    requires Follows(aggs, keys, g, rows, env) && KeyOf(keys, x, env) != g.key
    ensures Follows(aggs, keys, g, rows + [x], env)
  {
    hide GroupArgs, KeyOf, Accumulates;
    forall j | 0 <= j < |aggs| ensures Accumulates(aggs[j].fn, g.states[j], GroupArgs(keys, aggs[j], rows + [x], g.key, env)) {
      GroupArgsSnoc(keys, aggs[j], rows, x, g.key, env);
      assert GroupArgs(keys, aggs[j], rows, g.key, env) + [] == GroupArgs(keys, aggs[j], rows, g.key, env);
    }
  }

  lemma GroupFailsLater(aggs: seq<AggExpr>, keys: seq<ColumnRef>, key: seq<Cell>, rows: seq<Row>, n: int, env: Env)
    requires 0 <= n <= |rows| && GroupFails(aggs, keys, key, rows[..n], env)
    ensures GroupFails(aggs, keys, key, rows, env)
  {
    hide GroupArgs, AggOutcome;
    var j :| 0 <= j < |aggs| && AggOutcome(aggs[j].fn, aggs[j].ty, GroupArgs(keys, aggs[j], rows[..n], key, env)).Fails?;
    assert rows == rows[..n] + rows[n..];
    var more := GroupArgsAppend(keys, aggs[j], rows[..n], rows[n..], key, env);
    FailureSticks(aggs[j].fn, aggs[j].ty, GroupArgs(keys, aggs[j], rows[..n], key, env), more);
  }

  function FinalCells(aggs: seq<AggExpr>, states: seq<AggState>): (r: seq<Cell>)
    requires |states| == |aggs|
    ensures |r| == |aggs| && forall j | 0 <= j < |r| :: r[j] == Finalize(aggs[j].fn, aggs[j].ty, states[j])
  {
    seq(|aggs|, j requires 0 <= j < |aggs| => Finalize(aggs[j].fn, aggs[j].ty, states[j]))
  }

  lemma FinalRow(keys: seq<ColumnRef>, aggs: seq<AggExpr>, g: Group, rows: seq<Row>, env: Env)
    requires Follows(aggs, keys, g, rows, env)
    ensures AggCells(aggs, Members(keys, rows, g.key, env), env) == Ok(FinalCells(aggs, g.states))
  {
    hide Accumulates, AggOutcome, Finalize, ArgCell, Members;
    forall j | 0 <= j < |aggs|
      ensures AggOutcome(aggs[j].fn, aggs[j].ty, GroupArgs(keys, aggs[j], rows, g.key, env)) == Ok(FinalCells(aggs, g.states)[j])
    {
      FinalizeIsOutcome(aggs[j].fn, aggs[j].ty, g.states[j], GroupArgs(keys, aggs[j], rows, g.key, env));
    }
    assert AggCells(aggs, Members(keys, rows, g.key, env), env).value == FinalCells(aggs, g.states);
  }

  lemma KeyOfPosition(keys: seq<ColumnRef>, rows: seq<Row>, n: int, env: Env) returns (g: int)
    requires 0 <= n < |rows|
    ensures 0 <= g < |GroupKeys(keys, rows, env)| && GroupKeys(keys, rows, env)[g] == KeyOf(keys, rows[n], env)
  {
    if keys == [] {
      g := 0;
      assert KeyOf(keys, rows[n], env) == [];
    } else {
      assert AllKeys(keys, rows, env)[n] == KeyOf(keys, rows[n], env);
      assert KeyOf(keys, rows[n], env) in GroupKeys(keys, rows, env);
      g :| 0 <= g < |GroupKeys(keys, rows, env)| && GroupKeys(keys, rows, env)[g] == KeyOf(keys, rows[n], env);
    }
  }

  lemma FailedGroupFailsAll(keys: seq<ColumnRef>, aggs: seq<AggExpr>, rows: seq<Row>, n: int, env: Env)
    requires 0 <= n < |rows| && GroupFails(aggs, keys, KeyOf(keys, rows[n], env), rows[..n + 1], env)
    ensures MapAll(GroupKeys(keys, rows, env), GroupRow(keys, aggs, rows, env)).Fails?
  {
    hide AggOutcome, ArgCell, Members, GroupKeys, KeyOf;
    var key := KeyOf(keys, rows[n], env);
    GroupFailsLater(aggs, keys, key, rows, n + 1, env);
    var g := KeyOfPosition(keys, rows, n, env);
    assert AggCells(aggs, Members(keys, rows, key, env), env).Fails?;
    assert GroupRow(keys, aggs, rows, env)(GroupKeys(keys, rows, env)[g]).Fails?;
  }

  function OutputRow(keys: seq<ColumnRef>, aggs: seq<AggExpr>, g: Group): Row
    requires |g.key| == |keys| && |g.states| == |aggs|
  {
    var header := AggregateHeader(keys, aggs);
    MakeRow(Ids(header), CastAll(header, g.key + FinalCells(aggs, g.states)))
  }

  lemma OutputIsGroupRow(keys: seq<ColumnRef>, aggs: seq<AggExpr>, g: Group, rows: seq<Row>, env: Env)
    requires Follows(aggs, keys, g, rows, env) && |g.key| == |keys|
    ensures GroupRow(keys, aggs, rows, env)(g.key) == Ok(OutputRow(keys, aggs, g))
  {
    hide Follows, AggCells, Members, MakeRow;
    FinalRow(keys, aggs, g, rows, env);
  }

  /** One output row per group. */
  method EmitGroups(keys: seq<ColumnRef>, aggs: seq<AggExpr>, groups: seq<Group>, ghost rows: seq<Row>, env: Env) returns (out: seq<Row>)
    requires Grouped(keys, aggs, groups, rows, env)
    requires forall g | 0 <= g < |groups| :: |groups[g].key| == |keys|
    ensures MapAll(GroupKeys(keys, rows, env), GroupRow(keys, aggs, rows, env)) == Ok(out)
  {
    hide Accumulates, GroupKeys, GroupRow, OutputRow;
    out := [];
    var g := 0;
    while g < |groups|
      invariant 0 <= g <= |groups| && |out| == g
      invariant forall k | 0 <= k < g :: GroupRow(keys, aggs, rows, env)(groups[k].key) == Ok(out[k])
    {
      OutputIsGroupRow(keys, aggs, groups[g], rows, env);
      out := out + [OutputRow(keys, aggs, groups[g])];
      g := g + 1;
    }
    MapAllIs(GroupKeys(keys, rows, env), GroupRow(keys, aggs, rows, env), out);
  }

  lemma OneGroup(rows: seq<Row>, x: Row, env: Env)
    ensures GroupKeys([], rows, env) == GroupKeys([], rows + [x], env) == [[]]
    ensures KeyOf([], x, env) == []
  {
  }

  lemma NewGroup(keys: seq<ColumnRef>, aggs: seq<AggExpr>, groups: seq<Group>, index: map<seq<Cell>, int>, key: seq<Cell>, rows: seq<Row>, env: Env)
    requires keys != [] && Grouped(keys, aggs, groups, rows, env) && IndexOf(index, groups) && key !in index
    ensures key !in GroupKeys(keys, rows, env)
    ensures Follows(aggs, keys, Group(key, FreshStates(|aggs|)), rows, env)
  {
    hide Follows, KeyOf;
    assert forall g | 0 <= g < |groups| :: GroupKeys(keys, rows, env)[g] != key;
    NoMembers(keys, rows, key, env);
    FreshFollows(aggs, keys, key, rows, env);
  }

  /** Finds or opens the group of a row. */
  method LocateGroup(keys: seq<ColumnRef>, aggs: seq<AggExpr>, groups: seq<Group>, index: map<seq<Cell>, int>, x: Row, env: Env, ghost rows: seq<Row>)
    returns (at: int, groups': seq<Group>, index': map<seq<Cell>, int>)
    requires Grouped(keys, aggs, groups, rows, env) && (keys != [] ==> IndexOf(index, groups))
    ensures 0 <= at < |groups'| && groups'[at].key == KeyOf(keys, x, env)
    ensures keys != [] ==> IndexOf(index', groups')
    ensures forall g | 0 <= g < |groups'| :: Follows(aggs, keys, groups'[g], rows, env)
    ensures |groups'| == |GroupKeys(keys, rows + [x], env)|
    ensures forall g | 0 <= g < |groups'| :: groups'[g].key == GroupKeys(keys, rows + [x], env)[g]
  {
    hide Follows, KeyOf, GroupKeys;
    groups', index' := groups, index;
    if keys == [] {
      OneGroup(rows, x, env);
      return 0, groups, index;
    }
    GroupKeysSnoc(keys, rows, x, env);
    var key := KeyOf(keys, x, env);
    if key in index {
      at := index[key];
      assert GroupKeys(keys, rows, env)[at] == key;
    } else {
      NewGroup(keys, aggs, groups, index, key, rows, env);
      at := |groups|;
      index' := index[key := at];
      groups' := groups + [Group(key, FreshStates(|aggs|))];
    }
  }

  lemma StillGrouped(keys: seq<ColumnRef>, aggs: seq<AggExpr>, groups: seq<Group>, at: int, g2: Group, rows: seq<Row>, x: Row, env: Env)
    requires 0 <= at < |groups| && groups[at].key == KeyOf(keys, x, env) == g2.key
    requires forall g | 0 <= g < |groups| :: Follows(aggs, keys, groups[g], rows, env)
    requires |groups| == |GroupKeys(keys, rows + [x], env)|
    requires forall g | 0 <= g < |groups| :: groups[g].key == GroupKeys(keys, rows + [x], env)[g]
    requires Follows(aggs, keys, g2, rows + [x], env)
    ensures Grouped(keys, aggs, groups[at := g2], rows + [x], env)
  {
    hide Follows, KeyOf;
    var ks := GroupKeys(keys, rows + [x], env);
    assert Unrepeated(ks);
    var updated := groups[at := g2];
    forall g | 0 <= g < |groups| ensures Follows(aggs, keys, updated[g], rows + [x], env) {
      if g != at {
        assert ks[g] != ks[at];
        OthersFollow(aggs, keys, groups[g], rows, x, env);
      }
    }
  }

  /** The hash aggregation of the selected rows is the grouped aggregate in first-appearance order;
    it is abandoned exactly when some group's aggregate is. */
  method HashAggregate(keys: seq<ColumnRef>, aggs: seq<AggExpr>, batch: seq<Row>, sel: seq<int>, env: Env) returns (r: Outcome<seq<Row>>)
    requires forall i | 0 <= i < |sel| :: 0 <= sel[i] < |batch|
    ensures r == MapAll(GroupKeys(keys, Fetch(batch, sel), env), GroupRow(keys, aggs, Fetch(batch, sel), env))
  {
    hide Follows, KeyOf, GroupKeys;
    ghost var rows := Fetch(batch, sel);
    var groups: seq<Group> := [];
    var index: map<seq<Cell>, int> := map[];
    if keys == [] {
      groups := [Group([], FreshStates(|aggs|))];
      FreshFollows(aggs, keys, [], rows[..0], env);
    }
    StartGrouped(keys, aggs, groups, rows, env);
    var n := 0;
    while n < |sel|
      invariant 0 <= n <= |sel|
      invariant Grouped(keys, aggs, groups, rows[..n], env)
      invariant keys != [] ==> IndexOf(index, groups)
    {
      var x := batch[sel[n]];
      assert rows[..n + 1] == rows[..n] + [x];
      var at;
      at, groups, index := LocateGroup(keys, aggs, groups, index, x, env, rows[..n]);
      var g := UpdateGroup(aggs, keys, groups[at], x, env, rows[..n]);
      if g.Fails? {
        FailedGroupFailsAll(keys, aggs, rows, n, env);
        return Fails;
      }
      StillGrouped(keys, aggs, groups, at, g.value, rows[..n], x, env);
      groups := groups[at := g.value];
      n := n + 1;
    }
    assert rows[..n] == rows;
    GroupKeyWidths(keys, rows, env);
    var out := EmitGroups(keys, aggs, groups, rows, env);
    r := Ok(out);
  }

  lemma StartGrouped(keys: seq<ColumnRef>, aggs: seq<AggExpr>, groups: seq<Group>, rows: seq<Row>, env: Env)
    requires keys == [] ==> groups == [Group([], FreshStates(|aggs|))] && Follows(aggs, keys, groups[0], rows[..0], env)
    requires keys != [] ==> groups == []
    ensures Grouped(keys, aggs, groups, rows[..0], env)
  {
  }

  lemma GroupKeyWidths(keys: seq<ColumnRef>, rows: seq<Row>, env: Env)
    ensures forall g | 0 <= g < |GroupKeys(keys, rows, env)| :: |GroupKeys(keys, rows, env)[g]| == |keys|
  {
    forall g | 0 <= g < |GroupKeys(keys, rows, env)| ensures |GroupKeys(keys, rows, env)[g]| == |keys| {
      if keys != [] {
        assert GroupKeys(keys, rows, env)[g] in AllKeys(keys, rows, env);
      }
    }
  }
}
