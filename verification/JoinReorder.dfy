/** LEFT joins that become INNER under a NULL-rejecting filter, and re-association and commutation of INNER
  joins.
 */
module JoinReorder {
  import opened Plans
  import opened Sequences
  import opened Values
  import opened Algebra
  import opened Semantics
  import opened Shapes
  import opened Correlation
  import opened FilterRuleSoundness
  import opened JoinAlgebra
  import opened JoinRules
  import opened JoinPushdown

  // ---------------------------------------------------------------- LEFT to INNER

  /** Whether a predicate cannot be true once the given tables' columns are NULL. */
  predicate NullRejecting(p: Pred, tables: set<string>) {
    match p
    case Cmp(l, _, r) => (ScalarTables(l) + ScalarTables(r)) * tables != {}
    case In(e, _) => ScalarTables(e) * tables != {}
    case And(l, r) => NullRejecting(l, tables) || NullRejecting(r, tables)
    case Or(l, r) => NullRejecting(l, tables) && NullRejecting(r, tables)
    case _ => false
  }

  function LeftToInner(p: Plan): Option<Plan> {
    if !FilterOverJoin(p) || p.kids[0].op.kind != JoinKind.Left then None
    else
      var join := p.kids[0];
      if exists i | 0 <= i < |p.op.preds| :: NullRejecting(p.op.preds[i], OutputTables(join.kids[1])) then
        Some(p.(kids := [join.(op := Join(Inner, join.op.on, join.op.membership))]))
      else None
  }

  /** No column of an enclosing block carries one of these bindings. */
  predicate OwnScalar(e: Scalar, tables: set<string>) {
    e.Column? && e.col.id.binding in tables ==> e.col.depth == 0
  }

  predicate OwnBindings(p: Pred, tables: set<string>) {
    match p
    case Cmp(l, _, r) => OwnScalar(l, tables) && OwnScalar(r, tables)
    case IsNull(e) => OwnScalar(e, tables)
    case IsNotNull(e) => OwnScalar(e, tables)
    case In(e, _) => OwnScalar(e, tables)
    case NotIn(e, _) => OwnScalar(e, tables)
    case And(l, r) => OwnBindings(l, tables) && OwnBindings(r, tables)
    case Or(l, r) => OwnBindings(l, tables) && OwnBindings(r, tables)
    case _ => true
  }

  /** A row whose columns from these tables are all NULL. */
  ghost predicate NullExtended(row: Row, tables: set<string>) {
    forall id | id in row && id.binding in tables :: row[id].Null?
  }

  lemma RejectedScalar(e: Scalar, names: set<Ident>, tables: set<string>, row: Row, outer: seq<Row>, db: Db)
    requires ScalarTables(e) * tables != {} && ColumnResolves(e, names, outer) && names <= row.Keys
    requires OwnScalar(e, tables) && NullExtended(row, tables)
    ensures EvalScalar(e, row, outer, db).Ok? && EvalScalar(e, row, outer, db).value.Null?
  {
    assert e.col.id.binding in tables;
  }

  /** A NULL-rejecting predicate is false or unknown on a NULL-extended row. */
  lemma {:induction false} RejectsNullExtended(p: Pred, names: set<Ident>, tables: set<string>, row: Row, outer: seq<Row>, db: Db)
    requires NullRejecting(p, tables) && ColumnsResolve(p, names, outer) && names <= row.Keys
    requires OwnBindings(p, tables) && NullExtended(row, tables)
    ensures EvalPred(p, row, outer, db) != True
  {
    hide EvalScalar, ColumnResolves, OwnScalar, NullExtended, ScalarTables, EvalSub;
    match p
    case Cmp(l, _, r) =>
      if ScalarTables(l) * tables != {} {
        RejectedScalar(l, names, tables, row, outer, db);
      } else {
        assert ScalarTables(r) * tables != {};
        RejectedScalar(r, names, tables, row, outer, db);
      }
    case In(e, _) => RejectedScalar(e, names, tables, row, outer, db);
    case And(l, r) =>
      if NullRejecting(l, tables) {
        RejectsNullExtended(l, names, tables, row, outer, db);
      } else {
        RejectsNullExtended(r, names, tables, row, outer, db);
      }
    case Or(l, r) =>
      RejectsNullExtended(l, names, tables, row, outer, db);
      RejectsNullExtended(r, names, tables, row, outer, db);
  }

  lemma NullRowIsExtended(left: Rel, right: Rel, l: Row, lt: set<string>, rt: set<string>)
    requires RowFits(left.header, l) && DistinctIds(left.header + right.header)
    requires Side(left.header, lt) && Side(right.header, rt) && lt !! rt
    ensures NullExtended(Joined(l, NullRow(right.header)), rt)
    ensures NullRow(right.header).Keys == Names(right.header)
  {
    hide DistinctIds;
    DistinctParts(left.header, right.header);
    NullRowFits(right.header);
    var row := Joined(l, NullRow(right.header));
    forall id | id in row && id.binding in rt ensures row[id].Null? {
      if id in l {
        SideNames(left.header, lt, id);
      } else {
        var i :| 0 <= i < |right.header| && right.header[i].id == id;
      }
    }
  }

  // ---------------------------------------------------------------- re-association

  /** Conjuncts over the inner join's tables, and the others. */
  function Within(ps: seq<Pred>, tables: set<string>, inside: bool): (r: seq<Pred>)
    ensures forall q :: q in r <==> q in ps && (RefTables(q) <= tables) == inside
  {
    if ps == [] then []
    else
      assert ps == ps[..|ps| - 1] + [ps[|ps| - 1]];
      Within(ps[..|ps| - 1], tables, inside) + if (RefTables(ps[|ps| - 1]) <= tables) == inside then [ps[|ps| - 1]] else []
  }

  predicate Connects(ps: seq<Pred>, xt: set<string>, yt: set<string>) {
    exists i | 0 <= i < |ps| :: RefTables(ps[i]) * xt != {} && RefTables(ps[i]) * yt != {}
  }

  predicate AllWithin(ps: seq<Pred>, tables: set<string>) {
    forall i | 0 <= i < |ps| :: RefTables(ps[i]) <= tables
  }

  predicate InnerJoin(p: Plan) {
    p.op.Join? && p.op.kind == Inner && p.op.membership.None? && |p.kids| == 2
  }

  predicate Reorderable(p: Plan) {
    InnerJoin(p) && p.perm == Arbitrary
  }

  /** (A join B) join C becomes A join (B join C) when some conjunct connects B and C. */
  function AssociateRight(p: Plan): Option<Plan> {
    if !Reorderable(p) || !Reorderable(p.kids[0]) then None
    else
      var a, b, c := p.kids[0].kids[0], p.kids[0].kids[1], p.kids[1];
      var at, bt, ct := OutputTables(a), OutputTables(b), OutputTables(c);
      var inner, rest := Within(p.op.on, bt + ct, true), Within(p.op.on, bt + ct, false);
      if !AllWithin(p.op.on, at + bt + ct) || !Connects(inner, bt, ct) then None
      else Some(Node(p.perm, Join(Inner, p.kids[0].op.on + rest, None), [a, Node(p.perm, Join(Inner, inner, None), [b, c])]))
  }

  /** A join (B join C) becomes (A join B) join C when some conjunct connects A and B. */
  function AssociateLeft(p: Plan): Option<Plan> {
    if !Reorderable(p) || !Reorderable(p.kids[1]) then None
    else
      var a, b, c := p.kids[0], p.kids[1].kids[0], p.kids[1].kids[1];
      var at, bt, ct := OutputTables(a), OutputTables(b), OutputTables(c);
      var inner, rest := Within(p.op.on, at + bt, true), Within(p.op.on, at + bt, false);
      if !AllWithin(p.op.on, at + bt + ct) || !Connects(inner, at, bt) then None
      else Some(Node(p.perm, Join(Inner, p.kids[1].op.on + rest, None), [Node(p.perm, Join(Inner, inner, None), [a, b]), c]))
  }

  lemma WithinSteady(ps: seq<Pred>, tables: set<string>, inside: bool, names: set<Ident>, outer: seq<Row>, db: Db)
    requires SteadyList(ps, names, outer, db)
    ensures SteadyList(Within(ps, tables, inside), names, outer, db)
  {
    hide SteadyList;
    var qs := Within(ps, tables, inside);
    forall i | 0 <= i < |qs| ensures qs[i] in ps {
      assert qs[i] in qs;
    }
    SteadySubset(ps, qs, names, outer, db);
  }

  /** The conjuncts inside some tables are steady over those tables' columns alone. */
  lemma WithinNarrows(ps: seq<Pred>, inside: seq<Field>, others: seq<Field>, it: set<string>, ot: set<string>, outer: seq<Row>, db: Db)
    requires SteadyList(ps, Names(inside) + Names(others), outer, db) && "" !in it && Side(others, ot) && it !! ot
    ensures SteadyList(Within(ps, it, true), Names(inside), outer, db)
  {
    hide ColumnsResolve, Uncorrelated, PreparedPreds, Side;
    WithinSteady(ps, it, true, Names(inside) + Names(others), outer, db);
    var qs := Within(ps, it, true);
    forall i | 0 <= i < |qs| ensures ColumnsResolve(qs[i], Names(inside), outer) {
      assert qs[i] in qs;
      Narrows(qs[i], inside, others, it, ot, outer);
    }
  }

  lemma SteadyWiden(ps: seq<Pred>, names: set<Ident>, more: set<Ident>, outer: seq<Row>, db: Db)
    requires SteadyList(ps, names, outer, db) && names <= more
    ensures SteadyList(ps, more, outer, db)
  {
    hide Uncorrelated, PreparedPreds;
    forall i | 0 <= i < |ps| ensures ColumnsResolve(ps[i], more, outer) {
      WidenColumns(ps[i], names, more, outer);
    }
  }

  lemma {:induction false} WidenColumns(p: Pred, names: set<Ident>, more: set<Ident>, outer: seq<Row>)
    requires ColumnsResolve(p, names, outer) && names <= more
    ensures ColumnsResolve(p, more, outer)
  {
    match p
    case And(l, r) => WidenColumns(l, names, more, outer); WidenColumns(r, names, more, outer);
    case Or(l, r) => WidenColumns(l, names, more, outer); WidenColumns(r, names, more, outer);
    case _ =>
  }

  lemma ThreeHeaders(ra: Rel, rb: Rel, rc: Rel)
    requires DistinctIds(ra.header + rb.header + rc.header)
    ensures DistinctIds(ra.header + rb.header) && DistinctIds(rb.header + rc.header)
    ensures ra.header + (rb.header + rc.header) == ra.header + rb.header + rc.header
    ensures Names(ra.header + rb.header + rc.header) == Names(ra.header) + Names(rb.header) + Names(rc.header)
    ensures Names(ra.header + rb.header) == Names(ra.header) + Names(rb.header)
    ensures Names(rb.header + rc.header) == Names(rb.header) + Names(rc.header)
  {
    hide DistinctIds, Names;
    assert ra.header + (rb.header + rc.header) == ra.header + rb.header + rc.header;
    DistinctParts(ra.header + rb.header, rc.header);
    DistinctParts(ra.header, rb.header + rc.header);
    NamesAppend(ra.header + rb.header, rc.header);
    NamesAppend(ra.header, rb.header);
    NamesAppend(rb.header, rc.header);
  }

  lemma JoinedKeys(ls: seq<Row>, rs: seq<Row>, ln: set<Ident>, rn: set<Ident>)
    requires (forall i | 0 <= i < |ls| :: ls[i].Keys == ln) && (forall j | 0 <= j < |rs| :: rs[j].Keys == rn)
    ensures forall i, j | 0 <= i < |ls| && 0 <= j < |rs| :: Joined(ls[i], rs[j]).Keys == ln + rn
  {
  }

  lemma SideOf(header: seq<Field>, tables: set<string>)
    requires Side(header, tables)
    ensures "" !in tables
  {
  }

  // ---------------------------------------------------------------- commutation

  function JoinCommute(p: Plan): Option<Plan> {
    if Reorderable(p) then Some(p.(kids := [p.kids[1], p.kids[0]])) else None
  }

  lemma DistinctSwap(xs: seq<Field>, ys: seq<Field>)
    requires DistinctIds(xs + ys)
    ensures DistinctIds(ys + xs)
  {
    DistinctParts(xs, ys);
    DisjointNames(xs, ys);
    var h := ys + xs;
    forall i, j | 0 <= i < j < |h| ensures h[i].id != h[j].id {
      if i < |ys| <= j {
        assert h[i] == ys[i] && h[j] == xs[j - |ys|];
      }
    }
  }

  lemma JoinedCommutes(left: Rel, right: Rel)
    requires Names(left.header) !! Names(right.header)
    requires forall i | 0 <= i < |left.rows| :: left.rows[i].Keys == Names(left.header)
    requires forall j | 0 <= j < |right.rows| :: right.rows[j].Keys == Names(right.header)
    ensures forall i, j | 0 <= i < |left.rows| && 0 <= j < |right.rows| ::
              Joined(left.rows[i], right.rows[j]) == Joined(right.rows[j], left.rows[i])
  {
    hide Names;
  }
}
