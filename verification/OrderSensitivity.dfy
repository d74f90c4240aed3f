/** Which operators see the order of their input rows. An aggregate without a SUM, and a window list without ROW_NUMBER,
  ROWS frames and whole-partition sums, depend on the input only as a bag; each of the others tells two orders of one bag
  apart. These are the operators whose inputs the binder pins.
 */
module OrderSensitivity {
  import opened Plans
  import opened Sequences
  import opened Values
  import opened Algebra
  import opened Windows
  import opened Aggregation
  import opened RowOrder
  import opened AggregateLaws
  import opened BinderOrder

  /** Both fail, or both return the same columns and the same bag of rows. */
  ghost predicate SameBag(r: Outcome<Rel>, s: Outcome<Rel>) {
    if r.Ok? && s.Ok? then r.value.header == s.value.header && multiset(r.value.rows) == multiset(s.value.rows)
    else r.Fails? && s.Fails?
  }

  // ---------------------------------------------------------------- aggregates

  lemma MapAllSame<A, B>(xs: seq<A>, h: A -> Outcome<B>, k: A -> Outcome<B>)
    requires forall i | 0 <= i < |xs| :: h(xs[i]) == k(xs[i])
    ensures MapAll(xs, h) == MapAll(xs, k)
  {
    if MapAll(xs, h).Ok? {
      MapAllIs(xs, k, MapAll(xs, h).value);
    }
  }

  lemma MapAllBag<A, B(00)>(xs: seq<A>, ys: seq<A>, h: A -> Outcome<B>)
    requires multiset(xs) == multiset(ys)
    ensures var r, s := MapAll(xs, h), MapAll(ys, h);
            (r.Ok? <==> s.Ok?) && (r.Ok? ==> multiset(r.value) == multiset(s.value))
  {
    SameMembers(xs, ys);
    var r, s := MapAll(xs, h), MapAll(ys, h);
    if r.Ok? && s.Ok? {
      var other: B :| true;
      var f := x => match h(x) case Ok(v) => v case Fails => other;
      MapBag(xs, ys, f);
      assert MapTo(xs, f) == r.value && MapTo(ys, f) == s.value;
    }
  }

  lemma SameMembers<T>(xs: seq<T>, ys: seq<T>)
    requires multiset(xs) == multiset(ys)
    ensures forall i | 0 <= i < |xs| :: xs[i] in ys
    ensures forall i | 0 <= i < |ys| :: ys[i] in xs
  {
    forall i | 0 <= i < |xs| ensures xs[i] in ys {
      assert xs[i] in multiset(ys);
    }
    forall i | 0 <= i < |ys| ensures ys[i] in xs {
      assert ys[i] in multiset(xs);
    }
  }

  /** Lists without repetition and with the same members are the same bag. */
  lemma UnrepeatedBag<T(!new)>(s: seq<T>, t: seq<T>)
    requires Unrepeated(s) && Unrepeated(t) && forall x :: x in s <==> x in t
    ensures multiset(s) == multiset(t)
  {
    forall x ensures multiset(s)[x] == multiset(t)[x] {
      CountedOnce(s, x);
      CountedOnce(t, x);
    }
  }

  lemma {:induction false} CountedOnce<T>(s: seq<T>, x: T)
    requires Unrepeated(s)
    ensures multiset(s)[x] == if x in s then 1 else 0
  {
    if s != [] {
      var n := |s| - 1;
      CountedOnce(s[..n], x);
      assert s == s[..n] + [s[n]];
    }
  }

  lemma GroupKeysBag(keys: seq<ColumnRef>, rows: seq<Row>, other: seq<Row>, env: Env)
    requires multiset(rows) == multiset(other)
    ensures multiset(GroupKeys(keys, rows, env)) == multiset(GroupKeys(keys, other, env))
  {
    if keys != [] {
      hide KeyOf;
      var ks, os := AllKeys(keys, rows, env), AllKeys(keys, other, env);
      SameMembers(rows, other);
      forall x ensures x in ks <==> x in os {
        if x in ks {
          var i :| 0 <= i < |ks| && ks[i] == x;
          var j :| 0 <= j < |other| && other[j] == rows[i];
          assert os[j] == x;
        }
        if x in os {
          var i :| 0 <= i < |os| && os[i] == x;
          var j :| 0 <= j < |rows| && rows[j] == other[i];
          assert ks[j] == x;
        }
      }
      UnrepeatedBag(Dedup(ks), Dedup(os));
    }
  }

  lemma GroupRowBag(keys: seq<ColumnRef>, aggs: seq<AggExpr>, rows: seq<Row>, other: seq<Row>, key: seq<Cell>, env: Env)
    requires multiset(rows) == multiset(other) && forall a | 0 <= a < |aggs| :: aggs[a].fn != Sum
    ensures GroupRow(keys, aggs, rows, env)(key) == GroupRow(keys, aggs, other, env)(key)
  {
    hide KeyOf, AggOutcome, ArgCell, MakeRow;
    MembersArePicked(keys, rows, key, env);
    MembersArePicked(keys, other, key, env);
    PickedBag(rows, other, HasKey(keys, key, env));
    var s, t := Members(keys, rows, key, env), Members(keys, other, key, env);
    forall a | 0 <= a < |aggs|
      ensures AggOutcome(aggs[a].fn, aggs[a].ty, ArgCells(aggs[a].arg, s, env)) == AggOutcome(aggs[a].fn, aggs[a].ty, ArgCells(aggs[a].arg, t, env))
    {
      ArgCellsBag(aggs[a].arg, s, t, env);
      AggSameBag(aggs[a].fn, aggs[a].ty, ArgCells(aggs[a].arg, s, env), ArgCells(aggs[a].arg, t, env));
    }
    MapAllSame(aggs, (a: AggExpr) => AggOutcome(a.fn, a.ty, ArgCells(a.arg, s, env)), (a: AggExpr) => AggOutcome(a.fn, a.ty, ArgCells(a.arg, t, env)));
  }

  /** An aggregate without a SUM gives the same bag of rows, or fails alike, on any two orders of its input. */
  lemma UnsummedSeesOnlyTheBag(keys: seq<ColumnRef>, aggs: seq<AggExpr>, rel: Rel, other: Rel, env: Env)
    requires forall a | 0 <= a < |aggs| :: aggs[a].fn != Sum
    requires rel.header == other.header && multiset(rel.rows) == multiset(other.rows)
    ensures SameBag(AggregateRel(keys, aggs, rel, env), AggregateRel(keys, aggs, other, env))
  {
    hide GroupKeys, GroupRow, AggregateResolves, DistinctIds;
    GroupKeysBag(keys, rel.rows, other.rows, env);
    var h, k := GroupRow(keys, aggs, rel.rows, env), GroupRow(keys, aggs, other.rows, env);
    forall key ensures h(key) == k(key) {
      GroupRowBag(keys, aggs, rel.rows, other.rows, key, env);
    }
    MapAllSame(GroupKeys(keys, rel.rows, env), h, k);
    MapAllBag(GroupKeys(keys, rel.rows, env), GroupKeys(keys, other.rows, env), k);
  }

  /** An integer in one column and 0 in the others. */
  function Sample(ids: set<Ident>, c: Ident, v: int64): Row {
    map id | id in ids :: if id == c then IntV(v) else IntV(0)
  }

  /** One bag in two orders: in the first the sum of the first two numbers leaves the 64-bit range. */
  function Overflowing(ids: set<Ident>, c: Ident): seq<Row> {
    [Sample(ids, c, INT64_MAX), Sample(ids, c, 1), Sample(ids, c, -1)]
  }

  function Fitting(ids: set<Ident>, c: Ident): seq<Row> {
    [Sample(ids, c, INT64_MAX), Sample(ids, c, -1), Sample(ids, c, 1)]
  }

  lemma SameSamples(ids: set<Ident>, c: Ident)
    ensures multiset(Overflowing(ids, c)) == multiset(Fitting(ids, c))
  {
    var a, x, y := Sample(ids, c, INT64_MAX), Sample(ids, c, 1), Sample(ids, c, -1);
    assert multiset([a, x, y]) == multiset{a, x, y} == multiset([a, y, x]);
  }

  /** Keys and arguments are columns of the input, and no SUM adds up a group key. */
  ghost predicate Ordinary(keys: seq<ColumnRef>, aggs: seq<AggExpr>) {
    && DistinctIds(AggregateHeader(keys, aggs))
    && (forall k | 0 <= k < |keys| :: keys[k].depth == 0)
    && (forall a | 0 <= a < |aggs| :: if aggs[a].arg.Some? then aggs[a].arg.value.depth == 0 else aggs[a].fn == Count)
    && (forall a, k | 0 <= a < |aggs| && 0 <= k < |keys| && aggs[a].fn == Sum :: aggs[a].arg.value.id != keys[k].id)
  }

  function IdSet(ids: seq<Ident>): set<Ident> {
    set id | id in ids
  }

  function InputIds(keys: seq<ColumnRef>, aggs: seq<AggExpr>): seq<Ident> {
    seq(|keys|, k requires 0 <= k < |keys| => keys[k].id) +
    seq(|aggs|, a requires 0 <= a < |aggs| => if aggs[a].arg.Some? then aggs[a].arg.value.id else Ident("", ""))
  }

  function Integers(ids: seq<Ident>): (r: seq<Field>)
    ensures |r| == |ids| && forall i | 0 <= i < |r| :: r[i] == Field(ids[i], Int64)
  {
    seq(|ids|, i requires 0 <= i < |ids| => Field(ids[i], Int64))
  }

  lemma SampleFits(ids: seq<Ident>, c: Ident, v: int64)
    requires Unrepeated(ids)
    ensures DistinctIds(Integers(ids)) && Names(Integers(ids)) == IdSet(ids)
    ensures RowFits(Integers(ids), Sample(IdSet(ids), c, v))
  {
    var header := Integers(ids);
    forall id | id in ids ensures id in Names(header) {
      var i :| 0 <= i < |ids| && ids[i] == id;
      assert header[i].id == id;
    }
    forall i | 0 <= i < |header| ensures header[i].id in ids {
      assert header[i].id == ids[i];
    }
  }

  lemma InputsListed(keys: seq<ColumnRef>, aggs: seq<AggExpr>)
    ensures forall k | 0 <= k < |keys| :: keys[k].id in InputIds(keys, aggs)
    ensures forall a | 0 <= a < |aggs| && aggs[a].arg.Some? :: aggs[a].arg.value.id in InputIds(keys, aggs)
  {
    var ids := InputIds(keys, aggs);
    forall k | 0 <= k < |keys| ensures keys[k].id in ids {
      assert ids[k] == keys[k].id;
    }
    forall a | 0 <= a < |aggs| && aggs[a].arg.Some? ensures aggs[a].arg.value.id in ids {
      assert ids[|keys| + a] == aggs[a].arg.value.id;
    }
  }

  /** The samples of one column fall into one group of the other columns. */
  lemma OneSampleGroup(keys: seq<ColumnRef>, key: seq<Cell>, arg: Option<ColumnRef>, ids: set<Ident>, c: Ident, rows: seq<Row>)
    requires forall k | 0 <= k < |keys| :: keys[k].depth == 0 && keys[k].id in ids && keys[k].id != c
    requires arg.Some? ==> arg.value.depth == 0 && arg.value.id in ids
    requires rows == Overflowing(ids, c) || rows == Fitting(ids, c)
    ensures GroupAt(keys, key, arg, rows, map[]) == {} || GroupAt(keys, key, arg, rows, map[]) == {0, 1, 2}
    ensures InGroup(keys, key, map[], rows[0]) ==> GroupAt(keys, key, arg, rows, map[]) == {0, 1, 2}
  {
    forall i, k | 0 <= i < 3 && 0 <= k < |keys| ensures CellOf(keys[k], rows[i], map[]) == IntV(0) {
    }
    forall i | 0 <= i < 3 ensures InGroup(keys, key, map[], rows[i]) <==> InGroup(keys, key, map[], rows[0]) {
    }
    forall i | 0 <= i < 3 ensures Counted(arg, rows[i], map[]) {
    }
  }

  /** The partial sums of the samples. */
  lemma SampleSums(d: ColumnRef, ids: set<Ident>, c: Ident, at: set<int>, n: nat)
    requires d.depth == 0 && d.id in ids && n <= 3
    ensures at == {0, 1, 2} && d.id == c ==> SumBelow(Overflowing(ids, c), at, d, map[], 2) == INT64_MAX + 1
    ensures at == {} || at == {0, 1, 2} ==> Fits(SumBelow(Fitting(ids, c), at, d, map[], n))
  {
    var r, s := Overflowing(ids, c), Fitting(ids, c);
    assert SumBelow(r, at, d, map[], 0) == 0 && SumBelow(s, at, d, map[], 0) == 0;
    assert SumBelow(r, at, d, map[], 1) == if 0 in at then Number(CellOf(d, r[0], map[])) else 0;
    assert SumBelow(s, at, d, map[], 1) == if 0 in at then Number(CellOf(d, s[0], map[])) else 0;
    assert SumBelow(s, at, d, map[], 2) == SumBelow(s, at, d, map[], 1) + if 1 in at then Number(CellOf(d, s[1], map[])) else 0;
    assert SumBelow(s, at, d, map[], 3) == SumBelow(s, at, d, map[], 2) + if 2 in at then Number(CellOf(d, s[2], map[])) else 0;
  }

  lemma SampleRel(keys: seq<ColumnRef>, aggs: seq<AggExpr>, c: Ident) returns (names: seq<Ident>, ids: set<Ident>)
    requires Ordinary(keys, aggs)
    ensures ids == IdSet(names)
    ensures forall k | 0 <= k < |keys| :: keys[k].id in ids
    ensures forall a | 0 <= a < |aggs| && aggs[a].arg.Some? :: aggs[a].arg.value.id in ids
    ensures WellFormedRel(Rel(Integers(names), Overflowing(ids, c))) && WellFormedRel(Rel(Integers(names), Fitting(ids, c)))
    ensures forall rel: Rel | rel.header == Integers(names) :: Readable(keys, aggs, rel, map[])
  {
    names := Dedup(InputIds(keys, aggs));
    ids := IdSet(names);
    InputsListed(keys, aggs);
    hide RowFits, DistinctIds, Names, Readable, Sample, Integers, AggregateHeader, Ordinary, Overflowing, Fitting;
    SampleRowsFit(names, c);
    SampleFits(names, c, 1);
    forall rel: Rel | rel.header == Integers(names) ensures Readable(keys, aggs, rel, map[]) {
      SampleReadable(keys, aggs, rel, ids);
    }
  }

  lemma SampleRowsFit(names: seq<Ident>, c: Ident)
    requires Unrepeated(names)
    ensures WellFormedRel(Rel(Integers(names), Overflowing(IdSet(names), c))) && WellFormedRel(Rel(Integers(names), Fitting(IdSet(names), c)))
  {
    SampleFits(names, c, INT64_MAX);
    SampleFits(names, c, 1);
    SampleFits(names, c, -1);
    hide RowFits, DistinctIds, Names, Sample, Integers;
  }

  lemma SampleReadable(keys: seq<ColumnRef>, aggs: seq<AggExpr>, rel: Rel, ids: set<Ident>)
    requires Ordinary(keys, aggs) && Names(rel.header) == ids
    requires forall k | 0 <= k < |keys| :: keys[k].id in ids
    requires forall a | 0 <= a < |aggs| && aggs[a].arg.Some? :: aggs[a].arg.value.id in ids
    ensures Readable(keys, aggs, rel, map[])
  {
    hide AggregateHeader, DistinctIds;
  }

  lemma OverflowingFails(keys: seq<ColumnRef>, aggs: seq<AggExpr>, a: int, ids: set<Ident>, rel: Rel)
    requires Ordinary(keys, aggs) && 0 <= a < |aggs| && aggs[a].fn == Sum && rel.rows == Overflowing(ids, aggs[a].arg.value.id)
    requires forall k | 0 <= k < |keys| :: keys[k].id in ids
    requires forall b | 0 <= b < |aggs| && aggs[b].arg.Some? :: aggs[b].arg.value.id in ids
    ensures AggregateRel(keys, aggs, rel, map[]).Fails?
  {
    var c := aggs[a].arg.value;
    hide AggregateRel, Readable, AggregateHeader, DistinctIds, Overflowing, InGroup, GroupAt;
    ThreeSamples(ids, c.id);
    var groups := AggregateMeans(keys, aggs, rel, map[]);
    assert HasGroup(keys, rel.rows[0], map[], groups);
    var g :| 0 <= g < |groups| && InGroup(keys, groups[g], map[], rel.rows[0]);
    OneSampleGroup(keys, groups[g], Some(c), ids, c.id, rel.rows);
    SampleSums(c, ids, c.id, {0, 1, 2}, 2);
    hide SumBelow;
    assert Overflows(Sum, Some(c), rel.rows, {0, 1, 2}, map[]);
    assert GroupOverflows(keys, aggs, rel.rows, map[], groups[g]);
  }

  lemma FittingRuns(keys: seq<ColumnRef>, aggs: seq<AggExpr>, a: int, ids: set<Ident>, rel: Rel)
    requires Ordinary(keys, aggs) && 0 <= a < |aggs| && aggs[a].fn == Sum && rel.rows == Fitting(ids, aggs[a].arg.value.id)
    requires forall k | 0 <= k < |keys| :: keys[k].id in ids
    requires forall b | 0 <= b < |aggs| && aggs[b].arg.Some? :: aggs[b].arg.value.id in ids
    requires Readable(keys, aggs, rel, map[])
    ensures AggregateRel(keys, aggs, rel, map[]).Ok?
  {
    var c := aggs[a].arg.value;
    hide AggregateRel, Readable, AggregateHeader, DistinctIds, Fitting, InGroup, GroupAt, Overflows;
    var groups := AggregateMeans(keys, aggs, rel, map[]);
    forall h | 0 <= h < |groups| ensures !GroupOverflows(keys, aggs, rel.rows, map[], groups[h]) {
      forall b | 0 <= b < |aggs|
        ensures !Overflows(aggs[b].fn, aggs[b].arg, rel.rows, GroupAt(keys, groups[h], aggs[b].arg, rel.rows, map[]), map[])
      {
        OneSampleGroup(keys, groups[h], aggs[b].arg, ids, c.id, rel.rows);
        FittingFits(aggs[b], ids, c.id, GroupAt(keys, groups[h], aggs[b].arg, rel.rows, map[]));
      }
    }
  }

  /** A SUM sees the order of its input: on one bag of rows it overflows in one order and not in another. */
  lemma SumSeesTheOrder(keys: seq<ColumnRef>, aggs: seq<AggExpr>, a: int) returns (rel: Rel, other: Rel)
    requires Ordinary(keys, aggs) && 0 <= a < |aggs| && aggs[a].fn == Sum
    ensures WellFormedRel(rel) && WellFormedRel(other)
    ensures rel.header == other.header && multiset(rel.rows) == multiset(other.rows)
    ensures AggregateRel(keys, aggs, rel, map[]).Fails? && AggregateRel(keys, aggs, other, map[]).Ok?
  {
    var c := aggs[a].arg.value.id;
    var names, ids := SampleRel(keys, aggs, c);
    rel, other := Rel(Integers(names), Overflowing(ids, c)), Rel(Integers(names), Fitting(ids, c));
    SameSamples(ids, c);
    hide WellFormedRel, AggregateRel, Readable, AggregateHeader, DistinctIds, Overflowing, Fitting;
    OverflowingFails(keys, aggs, a, ids, rel);
    FittingRuns(keys, aggs, a, ids, other);
  }

  lemma ThreeSamples(ids: set<Ident>, c: Ident)
    ensures |Overflowing(ids, c)| == 3 == |Fitting(ids, c)| && Overflowing(ids, c)[0] == Fitting(ids, c)[0]
  {
  }

  lemma FittingFits(a: AggExpr, ids: set<Ident>, c: Ident, at: set<int>)
    requires at == {} || at == {0, 1, 2}
    requires if a.arg.Some? then a.arg.value.depth == 0 && a.arg.value.id in ids else a.fn == Count
    ensures !Overflows(a.fn, a.arg, Fitting(ids, c), at, map[])
  {
    assert |at| <= 3;
    if a.fn == Sum {
      forall n | 0 <= n <= 3 ensures Fits(SumBelow(Fitting(ids, c), at, a.arg.value, map[], n)) {
        SampleSums(a.arg.value, ids, c, at, n);
      }
    }
  }

  /** The aggregates whose inputs the binder pins are those that see the order: one that is not pinned sees only the bag, and
    one that is pinned tells two orders of one bag apart. */
  lemma PinnedAggregatesSeeTheOrder(op: Op)
    requires op.Aggregate? && Ordinary(op.keys, op.aggs)
    ensures HasCheckedSum(op) <==>
            exists rel: Rel, other: Rel ::
              && WellFormedRel(rel) && WellFormedRel(other) && rel.header == other.header && multiset(rel.rows) == multiset(other.rows)
              && !SameBag(AggregateRel(op.keys, op.aggs, rel, map[]), AggregateRel(op.keys, op.aggs, other, map[]))
  {
    hide AggregateRel, WellFormedRel, Ordinary;
    if HasCheckedSum(op) {
      var a :| 0 <= a < |op.aggs| && op.aggs[a].fn == Sum;
      var rel, other := SumSeesTheOrder(op.keys, op.aggs, a);
      assert !SameBag(AggregateRel(op.keys, op.aggs, rel, map[]), AggregateRel(op.keys, op.aggs, other, map[]));
    } else {
      forall rel: Rel, other: Rel | rel.header == other.header && multiset(rel.rows) == multiset(other.rows)
        ensures SameBag(AggregateRel(op.keys, op.aggs, rel, map[]), AggregateRel(op.keys, op.aggs, other, map[]))
      {
        UnsummedSeesOnlyTheBag(op.keys, op.aggs, rel, other, map[]);
      }
    }
  }

  // ---------------------------------------------------------------- windows

  /** The first position of a row. */
  function Where(rows: seq<Row>, x: Row): (i: int)
    requires x in rows
    ensures 0 <= i < |rows| && rows[i] == x
  {
    if rows[0] == x then 0 else 1 + Where(rows[1..], x)
  }

  lemma ColumnBag(w: WinExpr, rows: seq<Row>, other: seq<Row>, env: Env)
    requires !OrderSensitive(w) && multiset(rows) == multiset(other) && WindowColumn(w, rows, env).Ok?
    ensures WindowColumn(w, other, env).Ok?
    ensures forall i, j | 0 <= i < |rows| && 0 <= j < |other| && rows[i] == other[j] ::
              WindowColumn(w, rows, env).value[i] == WindowColumn(w, other, env).value[j]
  {
    hide WindowAt, OrderSensitive;
    SameMembers(rows, other);
    forall j | 0 <= j < |other| ensures WindowAt(w, other, j, env).Ok? {
      UnpinnedSeesOnlyTheBag(w, rows, other, Where(rows, other[j]), j, env);
    }
    forall i, j | 0 <= i < |rows| && 0 <= j < |other| && rows[i] == other[j]
      ensures WindowAt(w, rows, i, env) == WindowAt(w, other, j, env)
    {
      UnpinnedSeesOnlyTheBag(w, rows, other, i, j, env);
    }
  }

  /** What a window list gives the rows that equal `x`. */
  ghost function RowOut(wins: seq<WinExpr>, cols: seq<seq<Cell>>, rows: seq<Row>, x: Row): Row
    requires |cols| == |wins| && forall k | 0 <= k < |cols| :: |cols[k]| == |rows|
  {
    if x in rows then x + MakeRow(Ids(WindowHeader(wins)), CellsAt(cols, Where(rows, x))) else x
  }

  lemma OutIsMapped(wins: seq<WinExpr>, cols: seq<seq<Cell>>, rows: seq<Row>, all: seq<seq<Cell>>, other: seq<Row>, f: Row -> Row)
    requires |cols| == |wins| == |all|
    requires forall k | 0 <= k < |wins| :: |cols[k]| == |rows| && |all[k]| == |other|
    requires forall k, i, j | 0 <= k < |wins| && 0 <= i < |rows| && 0 <= j < |other| && rows[i] == other[j] :: cols[k][i] == all[k][j]
    requires forall j | 0 <= j < |other| :: other[j] in rows
    requires forall x :: f(x) == RowOut(wins, cols, rows, x)
    ensures WithColumns(WindowHeader(wins), all, other) == MapTo(other, f)
  {
    hide MakeRow;
    var out := WithColumns(WindowHeader(wins), all, other);
    forall j | 0 <= j < |other| ensures out[j] == f(other[j]) {
      var i := Where(rows, other[j]);
      assert CellsAt(all, j) == CellsAt(cols, i);
    }
  }

  /** A window list without a pinned kind gives the same bag of rows, or fails alike, on any two orders of its input. */
  lemma UnpinnedWindowsSeeOnlyTheBag(wins: seq<WinExpr>, rel: Rel, other: Rel, env: Env)
    requires forall k | 0 <= k < |wins| :: !OrderSensitive(wins[k])
    requires rel.header == other.header && multiset(rel.rows) == multiset(other.rows)
    ensures SameBag(WindowRel(wins, rel, env), WindowRel(wins, other, env))
  {
    hide WindowColumn, OrderSensitive, WindowResolves, DistinctIds, WithColumns;
    forall k | 0 <= k < |wins| ensures WindowColumn(wins[k], rel.rows, env).Ok? <==> WindowColumn(wins[k], other.rows, env).Ok? {
      if WindowColumn(wins[k], rel.rows, env).Ok? { ColumnBag(wins[k], rel.rows, other.rows, env); }
      if WindowColumn(wins[k], other.rows, env).Ok? { ColumnBag(wins[k], other.rows, rel.rows, env); }
    }
    var cols, all := WindowColumns(wins, rel.rows, env), WindowColumns(wins, other.rows, env);
    if cols.Ok? && all.Ok? {
      SameMembers(rel.rows, other.rows);
      ColumnsAgree(wins, rel.rows, other.rows, cols.value, all.value, env);
      ColumnsAgree(wins, rel.rows, rel.rows, cols.value, cols.value, env);
      var f := x => RowOut(wins, cols.value, rel.rows, x);
      OutIsMapped(wins, cols.value, rel.rows, cols.value, rel.rows, f);
      OutIsMapped(wins, cols.value, rel.rows, all.value, other.rows, f);
      MapBag(rel.rows, other.rows, f);
    }
  }

  lemma ColumnsAgree(wins: seq<WinExpr>, rows: seq<Row>, other: seq<Row>, cols: seq<seq<Cell>>, all: seq<seq<Cell>>, env: Env)
    requires forall k | 0 <= k < |wins| :: !OrderSensitive(wins[k])
    requires multiset(rows) == multiset(other)
    requires WindowColumns(wins, rows, env) == Ok(cols) && WindowColumns(wins, other, env) == Ok(all)
    ensures |cols| == |wins| == |all|
    ensures forall k | 0 <= k < |wins| :: |cols[k]| == |rows| && |all[k]| == |other|
    ensures forall k, i, j | 0 <= k < |wins| && 0 <= i < |rows| && 0 <= j < |other| && rows[i] == other[j] :: cols[k][i] == all[k][j]
  {
    hide OrderSensitive, WindowAt;
    forall k, i, j | 0 <= k < |wins| && 0 <= i < |rows| && 0 <= j < |other| && rows[i] == other[j] ensures cols[k][i] == all[k][j] {
      ColumnBag(wins[k], rows, other, env);
    }
  }

  /** Partition, order and argument are columns of the input, and `c` is a column the window neither partitions nor orders by:
    its argument, when it has one. */
  ghost predicate OrdinaryWindow(w: WinExpr, c: Ident) {
    && (forall k | 0 <= k < |w.partition| :: w.partition[k].depth == 0 && w.partition[k].id != c)
    && (forall k | 0 <= k < |w.order| :: w.order[k].col.depth == 0 && w.order[k].col.id != c)
    && (w.fn.Aggregated? ==> if w.arg.Some? then w.arg.value.depth == 0 && w.arg.value.id == c else w.fn.fn == Count)
  }

  function WindowIds(w: WinExpr, c: Ident): set<Ident> {
    {c} + (set k | 0 <= k < |w.partition| :: w.partition[k].id) + (set k | 0 <= k < |w.order| :: w.order[k].col.id)
  }

  /** Samples that differ only in `c` are peers in one partition. */
  lemma SamplesArePeers(w: WinExpr, c: Ident, x: int64, y: int64)
    requires OrdinaryWindow(w, c)
    ensures var a, b := Sample(WindowIds(w, c), c, x), Sample(WindowIds(w, c), c, y);
            SamePart(w, a, b, map[]) && Peer(w, a, b, map[]) && !RowLess(w.order, map[], a, b)
  {
    var a, b := Sample(WindowIds(w, c), c, x), Sample(WindowIds(w, c), c, y);
    forall k | 0 <= k < |w.order| ensures CellOf(w.order[k].col, a, map[]) == IntV(0) == CellOf(w.order[k].col, b, map[]) {
      assert w.order[k].col.id in WindowIds(w, c);
    }
    forall k | 0 <= k < |w.partition| ensures CellOf(w.partition[k], a, map[]) == IntV(0) == CellOf(w.partition[k], b, map[]) {
      assert w.partition[k].id in WindowIds(w, c);
    }
    assert KeyOf(w.partition, a, map[]) == KeyOf(w.partition, b, map[]);
    RowTrichotomy(w.order, map[], a, b);
    PeerIsSameKey(w, a, b, map[]);
  }

  lemma PickedTwo<T>(x: T, y: T, g: (int, T) -> bool)
    ensures Picked([x, y], g) == (if g(0, x) then [x] else []) + (if g(1, y) then [y] else [])
  {
    assert [x, y][..1] == [x] && [x][..0] == [];
  }

  lemma PickedThree<T>(x: T, y: T, z: T, g: (int, T) -> bool)
    requires g(0, x) && g(1, y) && g(2, z)
    ensures Picked([x, y, z], g) == [x, y, z]
  {
    PickedTwo(x, y, g);
    assert [x, y, z][..2] == [x, y];
  }

  /** Every pinned kind of window sees the order of its input: on one bag of rows it gives two equal rows different values, or
    fails in one order and not in another. */
  lemma PinnedWindowsSeeTheOrder(w: WinExpr, c: Ident) returns (rows: seq<Row>, other: seq<Row>, i: int, j: int)
    requires OrderSensitive(w) && OrdinaryWindow(w, c)
    ensures multiset(rows) == multiset(other) && 0 <= i < |rows| && 0 <= j < |other| && rows[i] == other[j]
    ensures WindowAt(w, rows, i, map[]) != WindowAt(w, other, j, map[])
  {
    hide WindowAt, WindowIds, Sample, Overflowing, Fitting;
    var ids := WindowIds(w, c);
    if w.fn.Aggregated? && w.frame == WholePartition {
      rows, other, i, j := Overflowing(ids, c), Fitting(ids, c), 0, 0;
      SameSamples(ids, c);
      ThreeSamples(ids, c);
      WholeSumDiffers(w, c);
    } else {
      var x, y := if w.fn == Aggregated(Min) then 2 else 1, if w.fn == Aggregated(Min) then 1 else 2;
      var a, b := Sample(ids, c, x), Sample(ids, c, y);
      rows, other, i, j := [a, b], [b, a], 0, 1;
      assert multiset(rows) == multiset{a, b} == multiset(other);
      if w.fn == RowNumber {
        NumbersDiffer(w, c, x, y);
      } else {
        PrefixesDiffer(w, c, x, y);
      }
    }
  }

  lemma NumbersDiffer(w: WinExpr, c: Ident, x: int64, y: int64)
    requires OrdinaryWindow(w, c) && w.fn == RowNumber
    ensures var a, b := Sample(WindowIds(w, c), c, x), Sample(WindowIds(w, c), c, y);
            WindowAt(w, [a, b], 0, map[]) != WindowAt(w, [b, a], 1, map[])
  {
    var a, b := Sample(WindowIds(w, c), c, x), Sample(WindowIds(w, c), c, y);
    SamplesArePeers(w, c, x, x);
    SamplesArePeers(w, c, y, x);
    hide RowLess, SamePart, Peer;
    PickedTwo(a, b, Ahead(w, a, 0, map[]));
    PickedTwo(b, a, Ahead(w, a, 1, map[]));
    hide Picked;
    assert WindowAt(w, [a, b], 0, map[]) == CountCell(1);
    assert WindowAt(w, [b, a], 1, map[]) == CountCell(2);
  }

  lemma PrefixesDiffer(w: WinExpr, c: Ident, x: int64, y: int64)
    requires OrdinaryWindow(w, c) && w.fn.Aggregated? && w.frame == RowsCumulative
    requires 0 < x < 3 && 0 < y < 3 && if w.fn.fn == Min then y < x else x < y
    ensures var a, b := Sample(WindowIds(w, c), c, x), Sample(WindowIds(w, c), c, y);
            WindowAt(w, [a, b], 0, map[]) != WindowAt(w, [b, a], 1, map[])
  {
    var a, b := Sample(WindowIds(w, c), c, x), Sample(WindowIds(w, c), c, y);
    SamplePrefixes(w, c, x, y);
    assert WindowAt(w, [a, b], 0, map[]) == PrefixOutcome(w.fn.fn, w.ty, ArgCells(w.arg, [a], map[]));
    assert WindowAt(w, [b, a], 1, map[]) == PrefixOutcome(w.fn.fn, w.ty, ArgCells(w.arg, [b, a], map[]));
    SampleArguments(w, c, x, y);
    hide *;
    TwoArguments(w.fn.fn, w.ty, if w.arg.Some? then x else 1, if w.arg.Some? then y else 1);
  }

  lemma SamplePrefixes(w: WinExpr, c: Ident, x: int64, y: int64)
    requires OrdinaryWindow(w, c)
    ensures var a, b := Sample(WindowIds(w, c), c, x), Sample(WindowIds(w, c), c, y);
            Picked([a, b], Ahead(w, a, 1, map[])) == [a] && Picked([b, a], Ahead(w, a, 2, map[])) == [b, a]
  {
    var a, b := Sample(WindowIds(w, c), c, x), Sample(WindowIds(w, c), c, y);
    SamplesArePeers(w, c, x, x);
    SamplesArePeers(w, c, y, x);
    hide RowLess, SamePart, Peer;
    PickedTwo(a, b, Ahead(w, a, 1, map[]));
    PickedTwo(b, a, Ahead(w, a, 2, map[]));
  }

  lemma SampleArguments(w: WinExpr, c: Ident, x: int64, y: int64)
    requires OrdinaryWindow(w, c) && w.fn.Aggregated?
    ensures var a, b := Sample(WindowIds(w, c), c, x), Sample(WindowIds(w, c), c, y);
            var u, v := if w.arg.Some? then x else 1, if w.arg.Some? then y else 1;
            ArgCells(w.arg, [a], map[]) == [IntV(u)] && ArgCells(w.arg, [b, a], map[]) == [IntV(v), IntV(u)]
    ensures w.arg.None? ==> w.fn.fn == Count
  {
  }

  lemma OneOrTwoKnown(x: int64, y: int64)
    ensures NonNull([IntV(x)]) == [IntV(x)] && NonNull([IntV(y), IntV(x)]) == [IntV(y), IntV(x)]
  {
    assert NonNull([]) == [];
    hide NonNull;
    NonNullSnoc([], IntV(x));
    NonNullSnoc([], IntV(y));
    NonNullSnoc([IntV(y)], IntV(x));
    assert [] + [IntV(x)] == [IntV(x)] && [] + [IntV(y)] == [IntV(y)] && [IntV(y)] + [IntV(x)] == [IntV(y), IntV(x)];
  }

  lemma OneOrTwoSummed(x: int64, y: int64)
    ensures Total([IntV(x)]) == x && Total([IntV(y), IntV(x)]) == x + y
  {
    assert Total([]) == 0;
    hide Total;
    TotalSnoc([], IntV(x));
    TotalSnoc([], IntV(y));
    TotalSnoc([IntV(y)], IntV(x));
    assert [] + [IntV(x)] == [IntV(x)] && [] + [IntV(y)] == [IntV(y)] && [IntV(y)] + [IntV(x)] == [IntV(y), IntV(x)];
  }

  lemma OneOrTwoCompared(x: int64, y: int64)
    ensures LeastOf([IntV(x)]) == IntV(x) == GreatestOf([IntV(x)])
    ensures LeastOf([IntV(y), IntV(x)]) == IntV(if x < y then x else y)
    ensures GreatestOf([IntV(y), IntV(x)]) == IntV(if x > y then x else y)
  {
    assert [IntV(y), IntV(x)][..1] == [IntV(y)];
    assert LeastOf([IntV(y)]) == IntV(y) == GreatestOf([IntV(y)]);
  }

  lemma TwoArguments(fn: AggFn, ty: ColumnType, x: int64, y: int64)
    requires 0 < x < 3 && 0 < y < 3 && match fn case Min => y < x case Max => x < y case _ => true
    ensures PrefixOutcome(fn, ty, [IntV(x)]) != PrefixOutcome(fn, ty, [IntV(y), IntV(x)])
  {
    OneOrTwoKnown(x, y);
    OneOrTwoSummed(x, y);
    OneOrTwoCompared(x, y);
    hide NonNull, Total, LeastOf, GreatestOf;
  }

  lemma WholeSumDiffers(w: WinExpr, c: Ident)
    requires OrdinaryWindow(w, c) && w.fn == Aggregated(Sum) && w.frame == WholePartition
    ensures var ids := WindowIds(w, c);
            WindowAt(w, Overflowing(ids, c), 0, map[]).Fails? && WindowAt(w, Fitting(ids, c), 0, map[]).Ok?
  {
    var ids := WindowIds(w, c);
    var d := w.arg.value;
    var g := InPart(w, Sample(ids, c, INT64_MAX), map[]);
    SamplesArePeers(w, c, INT64_MAX, INT64_MAX);
    SamplesArePeers(w, c, 1, INT64_MAX);
    SamplesArePeers(w, c, -1, INT64_MAX);
    AllKnownSamples(w, c, Overflowing(ids, c));
    AllKnownSamples(w, c, Fitting(ids, c));
    hide RowLess, SamePart, Peer, AggOutcome, ArgCells, Picked;
    OutcomeMeans(Sum, w.arg, w.ty, Overflowing(ids, c), g, map[]);
    OutcomeMeans(Sum, w.arg, w.ty, Fitting(ids, c), g, map[]);
    SampleSums(d, ids, c, {0, 1, 2}, 2);
    FittingFits(AggExpr("", Sum, w.arg, w.ty), ids, c, {0, 1, 2});
  }

  lemma AllKnownSamples(w: WinExpr, c: Ident, rows: seq<Row>)
    requires OrdinaryWindow(w, c) && w.arg.Some? && w.fn.Aggregated?
    requires rows == Overflowing(WindowIds(w, c), c) || rows == Fitting(WindowIds(w, c), c)
    ensures Known(rows, InPart(w, Sample(WindowIds(w, c), c, INT64_MAX), map[]), w.arg, map[]) == {0, 1, 2}
  {
    SamplesArePeers(w, c, INT64_MAX, INT64_MAX);
    SamplesArePeers(w, c, 1, INT64_MAX);
    SamplesArePeers(w, c, -1, INT64_MAX);
    hide SamePart, Peer, RowLess;
  }

  // ---------------------------------------------------------------- what binding pins

  /** ROW_NUMBER, an aggregate over a ROWS frame, or a SUM over the whole partition. */
  predicate SeesOrder(w: WinExpr) {
    match w.fn
    case RowNumber => true
    case Aggregated(fn) => w.frame == RowsCumulative || (fn == Sum && w.frame == WholePartition)
    case _ => false
  }

  /** The operators whose inputs binding pins, kind by kind. */
  lemma PinnedKinds(op: Op)
    ensures op.Aggregate? ==> (Sensitive()(op) <==> exists a :: 0 <= a < |op.aggs| && op.aggs[a].fn == Sum)
    ensures op.Window? ==> (Sensitive()(op) <==> exists k :: 0 <= k < |op.wins| && SeesOrder(op.wins[k]))
    ensures Sensitive()(op) ==> op.Aggregate? || op.Window?
  {
    assert forall w :: OrderSensitive(w) <==> SeesOrder(w);
    assert Sensitive()(op) <==> HasCheckedSum(op) || NeedsOrderedInput(op);
    hide OrderSensitive, SeesOrder;
  }

  /** An aggregate or window operator that binding leaves unpinned gives the same bag of rows, or fails alike, on any two orders
    of its input. */
  lemma UnpinnedOperatorsSeeOnlyTheBag(op: Op, rel: Rel, other: Rel, env: Env)
    requires !Sensitive()(op) && rel.header == other.header && multiset(rel.rows) == multiset(other.rows)
    ensures op.Aggregate? ==> SameBag(AggregateRel(op.keys, op.aggs, rel, env), AggregateRel(op.keys, op.aggs, other, env))
    ensures op.Window? ==> SameBag(WindowRel(op.wins, rel, env), WindowRel(op.wins, other, env))
  {
    hide AggregateRel, WindowRel, SameBag, OrderSensitive;
    if op.Aggregate? {
      assert !HasCheckedSum(op);
      UnsummedSeesOnlyTheBag(op.keys, op.aggs, rel, other, env);
    } else if op.Window? {
      assert !NeedsOrderedInput(op);
      UnpinnedWindowsSeeOnlyTheBag(op.wins, rel, other, env);
    }
  }
}
