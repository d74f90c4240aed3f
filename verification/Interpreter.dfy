/** The row-at-a-time engine: a stack of outer rows and a cache of uncorrelated subquery results.
  Every step returns what the cache-free meaning says.
 */
module Interpreter {
  import opened Plans
  import opened Sequences
  import opened Values
  import opened Algebra
  import opened Windows
  import opened Semantics
  import opened Shapes
  import opened Correlation
  import opened Aggregation
  import opened Deduplication
  import opened RowOrder
  import opened WindowEvaluation

  /** A cached result that is right under every stack of outer rows. */
  ghost predicate Reusable(p: Plan, rel: Rel, db: Db) {
    forall outer: seq<Row> :: Run(p, outer, db) == Ok(rel)
  }

  lemma {:induction false} PredsErrorSticks(ps: seq<Pred>, i: int, row: Row, outer: seq<Row>, db: Db)
    requires 0 <= i <= |ps| && EvalPreds(ps[..i], row, outer, db) == Error
    ensures EvalPreds(ps, row, outer, db) == Error
  {
    if i == |ps| {
      assert ps[..i] == ps;
    } else {
      assert ps[..|ps| - 1][..i] == ps[..i];
      PredsErrorSticks(ps[..|ps| - 1], i, row, outer, db);
    }
  }

  lemma PredsSnoc(ps: seq<Pred>, i: int, row: Row, outer: seq<Row>, db: Db)
    requires 0 <= i < |ps|
    ensures EvalPreds(ps[..i + 1], row, outer, db) == AndTruth(EvalPreds(ps[..i], row, outer, db), EvalPred(ps[i], row, outer, db))
  {
    assert ps[..i + 1][..i] == ps[..i];
  }

  lemma {:induction false} ProjsPointwise(projs: seq<Projection>, row: Row, outer: seq<Row>, db: Db)
    ensures EvalProjs(projs, row, outer, db).Ok? <==> forall k | 0 <= k < |projs| :: EvalScalar(projs[k].expr, row, outer, db).Ok?
    ensures EvalProjs(projs, row, outer, db).Ok? ==> forall k | 0 <= k < |projs| ::
              EvalProjs(projs, row, outer, db).value[k] == Cast(projs[k].expr.Type(), EvalScalar(projs[k].expr, row, outer, db).value)
  {
    if projs != [] {
      ProjsPointwise(projs[..|projs| - 1], row, outer, db);
    }
  }

  lemma FlatMapSnoc<A, B>(xs: seq<A>, i: int, h: A -> Outcome<seq<B>>)
    requires 0 <= i < |xs|
    ensures FlatMap(xs[..i + 1], h) ==
            match FlatMap(xs[..i], h)
            case Fails => Fails
            case Ok(a) => match h(xs[i]) case Fails => Fails case Ok(b) => Ok(a + b)
  {
    assert xs[..i + 1][..i] == xs[..i];
  }

  lemma FlatMapFailsAt<A, B>(xs: seq<A>, i: int, h: A -> Outcome<seq<B>>)
    requires 0 <= i < |xs| && h(xs[i]).Fails?
    ensures FlatMap(xs, h).Fails?
  {
    FlatMapFails(xs, h);
  }

  /** Rows of a column-wise projection. */
  function ProjectedRows(header: seq<Field>, cols: seq<seq<Cell>>, n: nat): (r: seq<Row>)
    requires |cols| == |header| && forall k | 0 <= k < |cols| :: |cols[k]| == n
    ensures |r| == n && forall i | 0 <= i < n :: r[i] == MakeRow(Ids(header), CellsAt(cols, i))
  {
    seq(n, i requires 0 <= i < n => MakeRow(Ids(header), CellsAt(cols, i)))
  }

  lemma ColumnsAreProjection(projs: seq<Projection>, rel: Rel, cols: seq<seq<Cell>>, outer: seq<Row>, db: Db)
    requires |cols| == |projs| && forall k | 0 <= k < |cols| :: |cols[k]| == |rel.rows|
    requires forall k, i | 0 <= k < |cols| && 0 <= i < |rel.rows| ::
               var v := EvalScalar(projs[k].expr, rel.rows[i], outer, db); v.Ok? && cols[k][i] == Cast(projs[k].expr.Type(), v.value)
    ensures MapAll(rel.rows, ProjectFn(projs, outer, db)) == Ok(ProjectedRows(ProjectHeader(projs), cols, |rel.rows|))
  {
    hide EvalScalar, Cast;
    ProjectFnAt(projs, outer, db);
    forall i | 0 <= i < |rel.rows|
      ensures ProjectFn(projs, outer, db)(rel.rows[i]) == Ok(ProjectedRows(ProjectHeader(projs), cols, |rel.rows|)[i])
    {
      ProjsPointwise(projs, rel.rows[i], outer, db);
      assert EvalProjs(projs, rel.rows[i], outer, db).value == CellsAt(cols, i);
    }
    MapAllIs(rel.rows, ProjectFn(projs, outer, db), ProjectedRows(ProjectHeader(projs), cols, |rel.rows|));
  }

  lemma ProjectionFails(projs: seq<Projection>, rel: Rel, k: int, i: int, outer: seq<Row>, db: Db)
    requires 0 <= k < |projs| && 0 <= i < |rel.rows| && EvalScalar(projs[k].expr, rel.rows[i], outer, db).Fails?
    ensures MapAll(rel.rows, ProjectFn(projs, outer, db)).Fails?
  {
    hide EvalScalar;
    ProjectFnAt(projs, outer, db);
    ProjsPointwise(projs, rel.rows[i], outer, db);
    assert ProjectFn(projs, outer, db)(rel.rows[i]).Fails?;
  }

  class Interpreter {
    const db: Db
    var results: map<Plan, Rel>
    var outerRows: seq<Row>

    ghost predicate Valid()
      reads this
    {
      forall p | p in results :: Reusable(p, results[p], db)
    }

    constructor (db: Db)
      ensures Valid() && outerRows == [] && this.db == db
    {
      this.db := db;
      results := map[];
      outerRows := [];
    }

    /** The result of a subquery for one owner row. An uncorrelated one is computed once. */
    method Materialize(sub: Subplan, owner: Option<Row>) returns (r: Outcome<Rel>)
      requires Valid() && BoundSub(sub)
      modifies this
      ensures Valid() && outerRows == old(outerRows)
      ensures sub.corr == [] ==> r == Run(sub.plan, outerRows, db)
      ensures sub.corr != [] ==> r == if owner.None? then Fails else Run(sub.plan, outerRows + [owner.value], db)
      decreases sub, 0
    {
      if sub.corr == [] && sub.plan in results {
        return Ok(results[sub.plan]);
      }
      if sub.corr != [] {
        if owner.None? {
          return Fails;
        }
        outerRows := outerRows + [owner.value];
        var ready := PrepareSubqueries(sub.plan);
        r := Fails;
        if ready {
          r := ExecuteNode(sub.plan);
        }
        outerRows := outerRows[..|outerRows| - 1];
        return;
      }
      var ready := PrepareSubqueries(sub.plan);
      if !ready {
        return Fails;
      }
      r := ExecuteNode(sub.plan);
      if r.Ok? {
        forall outer: seq<Row> ensures Run(sub.plan, outer, db) == r {
          RunLocal(sub.plan, outer, outerRows, db);
        }
        results := results[sub.plan := r.value];
      }
    }

    method EvaluateScalar(e: Scalar, row: Row) returns (r: Outcome<Cell>)
      requires Valid() && BoundScalar(e)
      modifies this
      ensures Valid() && outerRows == old(outerRows)
      ensures r == EvalScalar(e, row, outerRows, db)
      decreases e, 0
    {
      match e
      case Column(c) =>
        r := if c.depth != 0 then OuterCell(c, outerRows) else if c.id in row then Ok(row[c.id]) else Fails;
      case IntLit(i) => r := Ok(IntV(i));
      case StrLit(s) => r := Ok(StrV(s));
      case NullLit(ty) => r := Ok(Null(ty));
      case ScalarQuery(sub, ty) =>
        var result := Materialize(sub, Some(row));
        r := match result case Fails => Fails case Ok(rel) => ScalarResult(rel, ty);
    }

    /** Scans the members for a match, remembering whether a NULL was seen. */
    method FindMember(v: Cell, rel: Rel) returns (t: Truth)
      ensures t == MemberResult(v, rel)
    {
      if rel.rows == [] {
        return False;
      }
      if |rel.header| != 1 {
        return Error;
      }
      if v.Null? {
        return Unknown;
      }
      ghost var members := seq(|rel.rows|, i requires 0 <= i < |rel.rows| => CellsOf(rel.header, rel.rows[i])[0]);
      var containsNull := false;
      var i := 0;
      while i < |rel.rows|
        invariant 0 <= i <= |rel.rows|
        invariant v !in members[..i]
        invariant containsNull <==> exists k :: 0 <= k < i && members[k].Null?
      {
        var member := CellsOf(rel.header, rel.rows[i])[0];
        assert member == members[i];
        if member.Null? {
          containsNull := true;
        } else if member == v {
          return True;
        }
        i := i + 1;
      }
      assert members[..i] == members;
      t := if containsNull then Unknown else False;
    }

    /** The membership truth of an IN or NOT IN predicate, before negation. */
    method EvaluateIn(p: Pred, row: Row) returns (t: Truth)
      requires Valid() && (p.In? || p.NotIn?) && BoundPred(p)
      modifies this
      ensures Valid() && outerRows == old(outerRows)
      ensures t == EvalIn(EvalScalar(p.arg, row, outerRows, db), p.sub, row, outerRows, db)
      decreases p, 0
    {
      var v := EvaluateScalar(p.arg, row);
      if v.Fails? {
        return Error;
      }
      var result := Materialize(p.sub, Some(row));
      if result.Fails? {
        return Error;
      }
      t := FindMember(v.value, result.value);
    }

    method EvaluateExists(sub: Subplan, row: Row) returns (t: Truth)
      requires Valid() && BoundSub(sub)
      modifies this
      ensures Valid() && outerRows == old(outerRows)
      ensures t == EvalExists(sub, row, outerRows, db)
      decreases sub, 1
    {
      var result := Materialize(sub, Some(row));
      t := match result case Fails => Error case Ok(rel) => TruthOf(rel.rows != []);
    }

    method EvaluatePredicate(p: Pred, row: Row) returns (t: Truth)
      requires Valid() && BoundPred(p)
      modifies this
      ensures Valid() && outerRows == old(outerRows)
      ensures t == EvalPred(p, row, outerRows, db)
      decreases p, 1
    {
      match p
      case Cmp(l, op, r) =>
        var lhs := EvaluateScalar(l, row);
        var rhs := EvaluateScalar(r, row);
        t := ComparisonResult(lhs, op, rhs);
      case IsNull(e) =>
        var v := EvaluateScalar(e, row);
        t := match v case Fails => Error case Ok(c) => TruthOf(c.Null?);
      case IsNotNull(e) =>
        var v := EvaluateScalar(e, row);
        t := match v case Fails => Error case Ok(c) => TruthOf(!c.Null?);
      case In(_, _) =>
        t := EvaluateIn(p, row);
      case NotIn(_, _) =>
        t := EvaluateIn(p, row);
        t := NotTruth(t);
      case Exists(sub) =>
        t := EvaluateExists(sub, row);
      case NotExists(sub) =>
        t := EvaluateExists(sub, row);
        t := NotTruth(t);
      case And(l, r) =>
        var a := EvaluatePredicate(l, row);
        var b := EvaluatePredicate(r, row);
        t := AndTruth(a, b);
      case Or(l, r) =>
        var a := EvaluatePredicate(l, row);
        var b := EvaluatePredicate(r, row);
        t := OrTruth(a, b);
    }

    method EvaluatePredicates(ps: seq<Pred>, row: Row) returns (t: Truth)
      requires Valid() && BoundPreds(ps)
      modifies this
      ensures Valid() && outerRows == old(outerRows)
      ensures t == EvalPreds(ps, row, outerRows, db)
      decreases ps, 1
    {
      t := True;
      var i := 0;
      while i < |ps|
        invariant 0 <= i <= |ps|
        invariant Valid() && outerRows == old(outerRows)
        invariant t == EvalPreds(ps[..i], row, outerRows, db)
      {
        var next := EvaluatePredicate(ps[i], row);
        PredsSnoc(ps, i, row, outerRows, db);
        if next == Error {
          PredsErrorSticks(ps, i + 1, row, outerRows, db);
          return Error;
        }
        t := AndTruth(t, next);
        i := i + 1;
      }
      assert ps[..i] == ps;
    }

    method ExecuteFilter(ps: seq<Pred>, rel: Rel) returns (r: Outcome<Rel>)
      requires Valid() && BoundPreds(ps)
      modifies this
      ensures Valid() && outerRows == old(outerRows)
      ensures r == FilterRel(rel, PredsFn(ps, outerRows, db))
      decreases ps, 2
    {
      hide EvalPreds;
      ghost var keep := KeepTrue(PredsFn(ps, outerRows, db));
      var rows: seq<Row> := [];
      var i := 0;
      while i < |rel.rows|
        invariant 0 <= i <= |rel.rows|
        invariant Valid() && outerRows == old(outerRows)
        invariant FlatMap(rel.rows[..i], keep) == Ok(rows)
      {
        var t := EvaluatePredicates(ps, rel.rows[i]);
        FlatMapSnoc(rel.rows, i, keep);
        PredsFnAt(ps, outerRows, db);
        assert rows + [] == rows;
        if t == Error {
          assert keep(rel.rows[i]).Fails?;
          FlatMapFailsAt(rel.rows, i, keep);
          return Fails;
        }
        if t == True {
          rows := rows + [rel.rows[i]];
        }
        i := i + 1;
      }
      assert rel.rows[..i] == rel.rows;
      r := Ok(Rel(rel.header, rows));
    }

    /** One output column. */
    method EvaluateProjection(projs: seq<Projection>, k: int, rel: Rel) returns (r: Outcome<seq<Cell>>)
      requires Valid() && 0 <= k < |projs| && BoundScalar(projs[k].expr)
      modifies this
      ensures Valid() && outerRows == old(outerRows)
      ensures r.Fails? ==> MapAll(rel.rows, ProjectFn(projs, outerRows, db)).Fails?
      ensures r.Ok? ==> |r.value| == |rel.rows|
      ensures r.Ok? ==> forall i | 0 <= i < |rel.rows| ::
                var v := EvalScalar(projs[k].expr, rel.rows[i], outerRows, db); v.Ok? && r.value[i] == Cast(projs[k].expr.Type(), v.value)
      decreases projs, 0
    {
      hide EvalScalar, Cast;
      var cells: seq<Cell> := [];
      var i := 0;
      while i < |rel.rows|
        invariant 0 <= i <= |rel.rows| && |cells| == i
        invariant Valid() && outerRows == old(outerRows)
        invariant forall j | 0 <= j < i ::
                    var v := EvalScalar(projs[k].expr, rel.rows[j], outerRows, db); v.Ok? && cells[j] == Cast(projs[k].expr.Type(), v.value)
      {
        var v := EvaluateScalar(projs[k].expr, rel.rows[i]);
        if v.Fails? {
          ProjectionFails(projs, rel, k, i, outerRows, db);
          return Fails;
        }
        cells := cells + [Cast(projs[k].expr.Type(), v.value)];
        i := i + 1;
      }
      r := Ok(cells);
    }

    /** A projection is computed column by column. */
    method ExecuteProject(projs: seq<Projection>, rel: Rel) returns (r: Outcome<Rel>)
      requires Valid() && BoundOp(Project(projs))
      modifies this
      ensures Valid() && outerRows == old(outerRows)
      ensures r == ProjectRel(ProjectHeader(projs), rel, ProjectFn(projs, outerRows, db))
      decreases projs, 1
    {
      hide EvalScalar, Cast;
      var header := ProjectHeader(projs);
      var cols: seq<seq<Cell>> := [];
      if !DistinctIds(header) {
        return Fails;
      }
      var k := 0;
      while k < |projs|
        invariant 0 <= k <= |projs| && |cols| == k
        invariant Valid() && outerRows == old(outerRows)
        invariant forall m | 0 <= m < k :: |cols[m]| == |rel.rows|
        invariant forall m, i | 0 <= m < k && 0 <= i < |rel.rows| ::
                    var v := EvalScalar(projs[m].expr, rel.rows[i], outerRows, db); v.Ok? && cols[m][i] == Cast(projs[m].expr.Type(), v.value)
      {
        var col := EvaluateProjection(projs, k, rel);
        if col.Fails? {
          return Fails;
        }
        cols := cols + [col.value];
        k := k + 1;
      }
      ColumnsAreProjection(projs, rel, cols, outerRows, db);
      r := Ok(Rel(header, ProjectedRows(header, cols, |rel.rows|)));
    }

    // -------------------------------------------------------------- joins

    /** All joined rows whose predicates are true. */
    method MatchingRows(on: seq<Pred>, l: Row, right: Rel) returns (r: Outcome<seq<Row>>)
      requires Valid() && BoundPreds(on)
      modifies this
      ensures Valid() && outerRows == old(outerRows)
      ensures r == FlatMap(right.rows, Match(PredsFn(on, outerRows, db), l))
      decreases on, 2
    {
      hide EvalPreds;
      ghost var hits := Match(PredsFn(on, outerRows, db), l);
      var rows: seq<Row> := [];
      var k := 0;
      while k < |right.rows|
        invariant 0 <= k <= |right.rows|
        invariant Valid() && outerRows == old(outerRows)
        invariant FlatMap(right.rows[..k], hits) == Ok(rows)
      {
        var t := EvaluatePredicates(on, Joined(l, right.rows[k]));
        FlatMapSnoc(right.rows, k, hits);
        PredsFnAt(on, outerRows, db);
        assert rows + [] == rows;
        if t == Error {
          assert hits(right.rows[k]).Fails?;
          FlatMapFailsAt(right.rows, k, hits);
          return Fails;
        }
        if t == True {
          rows := rows + [Joined(l, right.rows[k])];
        }
        k := k + 1;
      }
      assert right.rows[..k] == right.rows;
      r := Ok(rows);
    }

    /** Stops at the first right row whose predicates are true. */
    method FirstMatch(on: seq<Pred>, l: Row, right: Rel) returns (t: Truth)
      requires Valid() && BoundPreds(on)
      modifies this
      ensures Valid() && outerRows == old(outerRows)
      ensures t == Probe(PredsFn(on, outerRows, db), l, right.rows)
      decreases on, 2
    {
      hide EvalPreds;
      ghost var f := PredsFn(on, outerRows, db);
      var k := 0;
      while k < |right.rows|
        invariant 0 <= k <= |right.rows|
        invariant Valid() && outerRows == old(outerRows)
        invariant Probe(f, l, right.rows) == Probe(f, l, right.rows[k..])
      {
        var hit := EvaluatePredicates(on, Joined(l, right.rows[k]));
        assert right.rows[k..][1..] == right.rows[k + 1..];
        if hit == Error || hit == True {
          return hit;
        }
        k := k + 1;
      }
      t := False;
    }

    /** Stops at the first candidate whose membership test is true or unknown. */
    method FindSuppressor(op: Op, l: Row, right: Rel) returns (t: Truth)
      requires Valid() && BoundOp(op) && op.Join? && op.membership.Some?
      modifies this
      ensures Valid() && outerRows == old(outerRows)
      ensures t == Suppressed(PredsFn(op.on, outerRows, db), MemberFn(op.membership, outerRows, db), l, right.rows)
      decreases op, 0
    {
      hide EvalPreds, EvalPred;
      ghost var f, m := PredsFn(op.on, outerRows, db), MemberFn(op.membership, outerRows, db);
      MemberFnAt(op.membership, outerRows, db);
      var k := 0;
      while k < |right.rows|
        invariant 0 <= k <= |right.rows|
        invariant Valid() && outerRows == old(outerRows)
        invariant Suppressed(f, m, l, right.rows) == Suppressed(f, m, l, right.rows[k..])
      {
        var row := Joined(l, right.rows[k]);
        var hit := EvaluatePredicates(op.on, row);
        assert right.rows[k..][1..] == right.rows[k + 1..];
        if hit == Error {
          return Error;
        }
        if hit == True {
          var test := EvaluatePredicate(op.membership.value, row);
          if test == Error {
            return Error;
          }
          if test != False {
            return True;
          }
        }
        k := k + 1;
      }
      t := False;
    }

    /** The output rows of one left row. */
    method JoinLeftRow(op: Op, l: Row, right: Rel) returns (r: Outcome<seq<Row>>)
      requires Valid() && BoundOp(op) && op.Join? && Executable(op)
      modifies this
      ensures Valid() && outerRows == old(outerRows)
      ensures r == JoinOne(op.kind, PredsFn(op.on, outerRows, db), MemberFn(op.membership, outerRows, db), right)(l)
      decreases op, 1
    {
      hide FlatMap, Probe, Suppressed;
      match op.kind
      case Inner =>
        r := MatchingRows(op.on, l, right);
      case Left =>
        r := MatchingRows(op.on, l, right);
        if r == Ok([]) {
          r := Ok([Joined(l, NullRow(right.header))]);
        }
      case Semi =>
        var hit := FirstMatch(op.on, l, right);
        r := KeepLeft(l, hit, True);
      case Anti =>
        var hit := FirstMatch(op.on, l, right);
        r := KeepLeft(l, hit, False);
      case NullAwareAnti =>
        var hit := FindSuppressor(op, l, right);
        r := KeepLeft(l, hit, False);
    }

    method ExecuteJoin(op: Op, left: Rel, right: Rel) returns (r: Outcome<Rel>)
      requires Valid() && BoundOp(op) && op.Join? && Executable(op)
      modifies this
      ensures Valid() && outerRows == old(outerRows)
      ensures r == JoinRel(op.kind, PredsFn(op.on, outerRows, db), MemberFn(op.membership, outerRows, db), left, right)
      decreases op, 2
    {
      hide JoinOne;
      var header := JoinHeader(op.kind, left.header, right.header);
      if !DistinctIds(header) {
        return Fails;
      }
      ghost var one := JoinOne(op.kind, PredsFn(op.on, outerRows, db), MemberFn(op.membership, outerRows, db), right);
      var rows: seq<Row> := [];
      var k := 0;
      while k < |left.rows|
        invariant 0 <= k <= |left.rows|
        invariant Valid() && outerRows == old(outerRows)
        invariant FlatMap(left.rows[..k], one) == Ok(rows)
      {
        var out := JoinLeftRow(op, left.rows[k], right);
        FlatMapSnoc(left.rows, k, one);
        if out.Fails? {
          FlatMapFailsAt(left.rows, k, one);
          return Fails;
        }
        rows := rows + out.value;
        k := k + 1;
      }
      assert left.rows[..k] == left.rows;
      r := Ok(Rel(header, rows));
    }

    // -------------------------------------------------------------- nodes

    /** Aggregates, windows and sorts evaluate no subqueries; they read outer columns only. */
    method ExecuteGrouping(op: Op, rel: Rel) returns (r: Outcome<Rel>)
      requires Valid() && (op.Aggregate? || op.Window?) && WellFormedRel(rel)
      ensures op.Aggregate? ==> r == AggregateRel(op.keys, op.aggs, rel, OuterEnv(OwnColumns(op), outerRows))
      ensures op.Window? ==> r == WindowRel(op.wins, rel, OuterEnv(OwnColumns(op), outerRows))
    {
      hide AggCells, Members, WindowColumn, OwnColumns, KeysTyped;
      var env := OuterEnv(OwnColumns(op), outerRows);
      var all := Identity(|rel.rows|);
      FetchIdentity(rel.rows);
      match op
      case Aggregate(keys, aggs) =>
        var header := AggregateHeader(keys, aggs);
        if !AggregateResolves(keys, aggs, Names(rel.header), env) || !DistinctIds(header) {
          return Fails;
        }
        var rows := HashAggregate(keys, aggs, rel.rows, all, env);
        r := match rows case Fails => Fails case Ok(out) => Ok(Rel(header, out));
      case Window(wins) =>
        var header := rel.header + WindowHeader(wins);
        if !(forall i | 0 <= i < |wins| :: WindowResolves(wins[i], Names(rel.header), env)) || !DistinctIds(header) {
          return Fails;
        }
        forall k | 0 <= k < |wins| ensures KeysTyped(wins[k].order, env, rel.rows) {
          FittingRowsTyped(wins[k].order, env, rel.header, rel.rows);
        }
        var cols := EvaluateWindows(wins, rel.rows, all, env);
        r := match cols case Fails => Fails case Ok(cs) => Ok(Rel(header, WithColumns(WindowHeader(wins), cs, rel.rows)));
    }

    method ExecuteDistinct(rel: Rel) returns (r: Outcome<Rel>)
      requires WellFormedRel(rel)
      ensures r == Ok(DistinctRel(rel))
    {
      hide WellFormedRel;
      FetchIdentity(rel.rows);
      var kept := DistinctSelection(rel.header, rel.rows, Identity(|rel.rows|));
      r := Ok(Rel(rel.header, Fetch(rel.rows, kept)));
    }

    method ExecuteNode(p: Plan) returns (r: Outcome<Rel>)
      requires Valid() && BoundPlan(p)
      modifies this
      ensures Valid() && outerRows == old(outerRows)
      ensures r == Eval(p, outerRows, db)
      decreases p, 2
    {
      hide FilterRel, ProjectRel, JoinRel, AggregateRel, WindowRel, SortRel, SortProjected, ScanRel, WellFormedRel, DistinctRel, OuterEnv;
      var op := p.op;
      if !Executable(op) || |p.kids| != Arity(op) {
        return Fails;
      }
      if op.Scan? {
        return if op.table in db then ScanRel(op.binding, db[op.table]) else Fails;
      }
      if op.Join? {
        r := ExecuteInputsAndJoin(p);
        return;
      }
      var kid := p.kids[0];
      if op.Sort? && kid.op.Project? && |kid.kids| == 1 {
        r := ExecuteSortedProject(p);
        return;
      }
      var input := ExecuteNode(kid);
      if input.Fails? {
        return Fails;
      }
      EvalFits(kid, outerRows, db);
      match op
      case Filter(preds) => r := ExecuteFilter(preds, input.value);
      case Project(projs) => r := ExecuteProject(projs, input.value);
      case Aggregate(_, _) => r := ExecuteGrouping(op, input.value);
      case Window(_) => r := ExecuteGrouping(op, input.value);
      case Distinct => r := ExecuteDistinct(input.value);
      case Sort(order) => r := SortRel(order, input.value, OuterEnv(OwnColumns(op), outerRows));
      case Limit(count) => r := Ok(LimitRel(count, input.value));
    }

    /** The membership side of a NULL-aware join runs first. */
    method ExecuteInputsAndJoin(p: Plan) returns (r: Outcome<Rel>)
      requires Valid() && BoundPlan(p) && p.op.Join? && Executable(p.op) && |p.kids| == 2
      modifies this
      ensures Valid() && outerRows == old(outerRows)
      ensures r == Eval(p, outerRows, db)
      decreases p, 1
    {
      hide JoinRel;
      var left, right;
      if p.op.kind == NullAwareAnti {
        right := ExecuteNode(p.kids[1]);
        left := ExecuteNode(p.kids[0]);
      } else {
        left := ExecuteNode(p.kids[0]);
        right := ExecuteNode(p.kids[1]);
      }
      if left.Fails? || right.Fails? {
        return Fails;
      }
      r := ExecuteJoin(p.op, left.value, right.value);
    }

    /** A sort over a projection also sees the columns the projection drops. */
    method ExecuteSortedProject(p: Plan) returns (r: Outcome<Rel>)
      requires Valid() && BoundPlan(p) && p.op.Sort? && Executable(p.op)
      requires |p.kids| == 1 && p.kids[0].op.Project? && |p.kids[0].kids| == 1
      modifies this
      ensures Valid() && outerRows == old(outerRows)
      ensures r == Eval(p, outerRows, db)
      decreases p, 1
    {
      hide ProjectRel, SortProjected;
      var project := p.kids[0];
      var source := ExecuteNode(project.kids[0]);
      if source.Fails? || !Executable(project.op) {
        return Fails;
      }
      assert BoundPlan(project);
      var projected := ExecuteProject(project.op.projs, source.value);
      if projected.Fails? {
        return Fails;
      }
      r := SortProjected(p.op.order, source.value, projected.value, OuterEnv(OwnColumns(p.op), outerRows));
    }

    // -------------------------------------------------------------- eager preparation

    method PrepareScalar(e: Scalar) returns (ok: bool)
      requires Valid() && BoundScalar(e)
      modifies this
      ensures Valid() && outerRows == old(outerRows)
      ensures ok == PreparedScalar(e, outerRows, db)
      decreases e, 0
    {
      ok := true;
      if e.ScalarQuery? && e.sub.corr == [] {
        var r := Materialize(e.sub, None);
        ok := r.Ok? && |r.value.rows| <= 1;
      }
    }

    method PrepareSub(sub: Subplan) returns (ok: bool)
      requires Valid() && BoundSub(sub)
      modifies this
      ensures Valid() && outerRows == old(outerRows)
      ensures ok == PreparedSub(sub, outerRows, db)
      decreases sub, 1
    {
      ok := true;
      if sub.corr == [] {
        var r := Materialize(sub, None);
        ok := r.Ok?;
      }
    }

    method PreparePredicate(p: Pred) returns (ok: bool)
      requires Valid() && BoundPred(p)
      modifies this
      ensures Valid() && outerRows == old(outerRows)
      ensures ok == PreparedPred(p, outerRows, db)
      decreases p, 0
    {
      match p
      case Cmp(l, _, r) =>
        ok := PrepareScalar(l);
        if ok { ok := PrepareScalar(r); }
      case IsNull(e) => ok := PrepareScalar(e);
      case IsNotNull(e) => ok := PrepareScalar(e);
      case In(e, sub) =>
        ok := PrepareScalar(e);
        if ok { ok := PrepareSub(sub); }
      case NotIn(e, sub) =>
        ok := PrepareScalar(e);
        if ok { ok := PrepareSub(sub); }
      case Exists(sub) => ok := PrepareSub(sub);
      case NotExists(sub) => ok := PrepareSub(sub);
      case And(l, r) =>
        ok := PreparePredicate(l);
        if ok { ok := PreparePredicate(r); }
      case Or(l, r) =>
        ok := PreparePredicate(l);
        if ok { ok := PreparePredicate(r); }
    }

    method PreparePredicates(ps: seq<Pred>) returns (ok: bool)
      requires Valid() && BoundPreds(ps)
      modifies this
      ensures Valid() && outerRows == old(outerRows)
      ensures ok == PreparedPreds(ps, outerRows, db)
      decreases ps, 1
    {
      var i := 0;
      while i < |ps|
        invariant 0 <= i <= |ps|
        invariant Valid() && outerRows == old(outerRows)
        invariant forall k | 0 <= k < i :: PreparedPred(ps[k], outerRows, db)
      {
        ok := PreparePredicate(ps[i]);
        if !ok {
          return;
        }
        i := i + 1;
      }
      ok := true;
    }

    method PrepareOperator(op: Op) returns (ok: bool)
      requires Valid() && BoundOp(op)
      modifies this
      ensures Valid() && outerRows == old(outerRows)
      ensures ok == PreparedOp(op, outerRows, db)
      decreases op, 1
    {
      ok := true;
      match op
      case Filter(preds) => ok := PreparePredicates(preds);
      case Join(_, on, membership) =>
        ok := PreparePredicates(on);
        if ok && membership.Some? {
          ok := PreparePredicate(membership.value);
        }
      case Project(projs) =>
        var i := 0;
        while i < |projs|
          invariant 0 <= i <= |projs|
          invariant Valid() && outerRows == old(outerRows)
          invariant forall k | 0 <= k < i :: PreparedScalar(projs[k].expr, outerRows, db)
        {
          ok := PrepareScalar(projs[i].expr);
          if !ok {
            return;
          }
          i := i + 1;
        }
        ok := true;
      case _ =>
    }

    method PrepareSubqueries(p: Plan) returns (ok: bool)
      requires Valid() && BoundPlan(p)
      modifies this
      ensures Valid() && outerRows == old(outerRows)
      ensures ok == Prepared(p, outerRows, db)
      decreases p, 1
    {
      ok := PrepareOperator(p.op);
      if !ok {
        return;
      }
      var i := 0;
      while i < |p.kids|
        invariant 0 <= i <= |p.kids|
        invariant Valid() && outerRows == old(outerRows)
        invariant forall k | 0 <= k < i :: Prepared(p.kids[k], outerRows, db)
      {
        ok := PrepareSubqueries(p.kids[i]);
        if !ok {
          return;
        }
        i := i + 1;
      }
      ok := true;
    }

    /** A top-level query: prepare, then execute. */
    method ExecuteInterpreted(p: Plan) returns (r: Outcome<Rel>)
      requires Valid() && BoundPlan(p) && outerRows == []
      modifies this
      ensures Valid() && outerRows == [] && r == Interpret(p, db)
    {
      var ready := PrepareSubqueries(p);
      if !ready {
        return Fails;
      }
      r := ExecuteNode(p);
    }
  }
}
