/** The plans that the join rules make, and the subqueries that they prepare: moving conjuncts adds and drops none. */
module JoinShapes {
  import opened Plans
  import opened Sequences
  import opened Values
  import opened Algebra
  import opened Semantics
  import opened Shapes
  import opened Correlation
  import opened FilterRuleSoundness
  import opened RewriteFixpoint
  import opened JoinAlgebra
  import opened JoinRules
  import opened JoinPushdown
  import opened JoinReorder
  import opened PlanRuns

  // ---------------------------------------------------------------- preparation

  lemma PreparedMembers(ps: seq<Pred>, outer: seq<Row>, db: Db)
    ensures PreparedPreds(ps, outer, db) <==> forall q | q in ps :: PreparedPred(q, outer, db)
  {
    hide PreparedPred;
    assert forall i | 0 <= i < |ps| :: ps[i] in ps;
  }

  lemma NothingToPrepare(outer: seq<Row>, db: Db)
    ensures PreparedPreds([], outer, db)
  {
  }

  /** The four parts of a conjunct list own its subqueries. */
  lemma PlacedPrepared(kind: JoinKind, ps: seq<Pred>, lt: set<string>, rt: set<string>, outer: seq<Row>, db: Db)
    ensures PreparedPreds(ps, outer, db) <==>
            && PreparedPreds(Placed(kind, ps, AtLeft, lt, rt), outer, db) && PreparedPreds(Placed(kind, ps, AtRight, lt, rt), outer, db)
            && PreparedPreds(Placed(kind, ps, AtJoin, lt, rt), outer, db) && PreparedPreds(Placed(kind, ps, AtResidual, lt, rt), outer, db)
  {
    hide PreparedPred, PreparedPreds, PlaceOf, Placed;
    PreparedMembers(ps, outer, db);
    PreparedMembers(Placed(kind, ps, AtLeft, lt, rt), outer, db);
    PreparedMembers(Placed(kind, ps, AtRight, lt, rt), outer, db);
    PreparedMembers(Placed(kind, ps, AtJoin, lt, rt), outer, db);
    PreparedMembers(Placed(kind, ps, AtResidual, lt, rt), outer, db);
    forall q | q in ps
      ensures q in Placed(kind, ps, AtLeft, lt, rt) || q in Placed(kind, ps, AtRight, lt, rt) ||
              q in Placed(kind, ps, AtJoin, lt, rt) || q in Placed(kind, ps, AtResidual, lt, rt)
    {
      match PlaceOf(kind, q, lt, rt)
      case AtLeft =>
      case AtRight =>
      case AtJoin =>
      case AtResidual =>
    }
  }

  lemma WithinPrepared(ps: seq<Pred>, tables: set<string>, outer: seq<Row>, db: Db)
    ensures PreparedPreds(ps, outer, db) <==>
            PreparedPreds(Within(ps, tables, true), outer, db) && PreparedPreds(Within(ps, tables, false), outer, db)
  {
    hide PreparedPred, PreparedPreds, Within, RefTables;
    PreparedMembers(ps, outer, db);
    PreparedMembers(Within(ps, tables, true), outer, db);
    PreparedMembers(Within(ps, tables, false), outer, db);
    assert forall q | q in ps :: q in Within(ps, tables, true) || q in Within(ps, tables, false);
  }

  // ---------------------------------------------------------------- filters into joins

  /** Disjoint tables on the two sides of a join. */
  ghost predicate DisjointSides(l: Plan, r: Plan, db: Db) {
    && Side(ColumnsOf(l, db), OutputTables(l)) && Side(ColumnsOf(r, db), OutputTables(r)) && OutputTables(l) !! OutputTables(r)
  }

  function BothNames(l: Plan, r: Plan, db: Db): set<Ident> {
    Names(ColumnsOf(l, db)) + Names(ColumnsOf(r, db))
  }

  /** The plan that pushing makes. */
  lemma PushedShape(p: Plan)
    requires FilterIntoJoin(p).Some?
    ensures FilterOverJoin(p) && p.kids[0].op.kind != JoinKind.Left
    ensures var join, kind := p.kids[0], p.kids[0].op.kind;
            var l, r := join.kids[0], join.kids[1];
            var lt, rt := OutputTables(l), OutputTables(r);
            && join == Node(join.perm, Join(kind, join.op.on, join.op.membership), [l, r]) && p == Node(p.perm, Filter(p.op.preds), [join])
            && FilterIntoJoin(p).value ==
               Filtered(p.perm, Placed(kind, p.op.preds, AtResidual, lt, rt),
                        Node(p.perm, Join(kind, join.op.on + Placed(kind, p.op.preds, AtJoin, lt, rt), join.op.membership),
                             [Filtered(l.perm, Placed(kind, p.op.preds, AtLeft, lt, rt), l), Filtered(r.perm, Placed(kind, p.op.preds, AtRight, lt, rt), r)]))
  {
    hide Placed, OutputTables, Filtered;
  }

  // ---------------------------------------------------------------- LEFT to INNER

  lemma LeftShape(p: Plan)
    requires LeftToInner(p).Some?
    ensures FilterOverJoin(p)
    ensures var join := p.kids[0];
            && join == Node(join.perm, Join(JoinKind.Left, join.op.on, join.op.membership), [join.kids[0], join.kids[1]])
            && p == Node(p.perm, Filter(p.op.preds), [join])
            && LeftToInner(p).value ==
               Node(p.perm, Filter(p.op.preds), [Node(join.perm, Join(Inner, join.op.on, join.op.membership), [join.kids[0], join.kids[1]])])
  {
    hide NullRejecting, OutputTables;
  }

  // ---------------------------------------------------------------- re-association

  function LeftDeep(p1: OrderPermission, p2: OrderPermission, a: Plan, b: Plan, c: Plan, low: seq<Pred>, high: seq<Pred>): Plan {
    Node(p1, Join(Inner, high, None), [Node(p2, Join(Inner, low, None), [a, b]), c])
  }

  function RightDeep(p1: OrderPermission, p2: OrderPermission, a: Plan, b: Plan, c: Plan, low: seq<Pred>, high: seq<Pred>): Plan {
    Node(p1, Join(Inner, high, None), [a, Node(p2, Join(Inner, low, None), [b, c])])
  }

  lemma AssociateRightShape(p: Plan)
    requires AssociateRight(p).Some?
    ensures InnerJoin(p) && InnerJoin(p.kids[0])
    ensures var a, b, c, low, high := p.kids[0].kids[0], p.kids[0].kids[1], p.kids[1], p.kids[0].op.on, p.op.on;
            var tables := OutputTables(b) + OutputTables(c);
            && p == LeftDeep(p.perm, p.kids[0].perm, a, b, c, low, high)
            && AssociateRight(p).value == RightDeep(p.perm, p.perm, a, b, c, Within(high, tables, true), low + Within(high, tables, false))
  {
    hide OutputTables, Within, Connects, AllWithin;
    var kid := p.kids[0];
    assert kid == Node(kid.perm, Join(Inner, kid.op.on, None), [kid.kids[0], kid.kids[1]]) && p == Node(p.perm, Join(Inner, p.op.on, None), [kid, p.kids[1]]);
  }

  lemma AssociateLeftShape(p: Plan)
    requires AssociateLeft(p).Some?
    ensures InnerJoin(p) && InnerJoin(p.kids[1])
    ensures var a, b, c, low, high := p.kids[0], p.kids[1].kids[0], p.kids[1].kids[1], p.kids[1].op.on, p.op.on;
            var tables := OutputTables(a) + OutputTables(b);
            && p == RightDeep(p.perm, p.kids[1].perm, a, b, c, low, high)
            && AssociateLeft(p).value == LeftDeep(p.perm, p.perm, a, b, c, Within(high, tables, true), low + Within(high, tables, false))
  {
    hide OutputTables, Within, Connects, AllWithin;
    var kid := p.kids[1];
    assert kid == Node(kid.perm, Join(Inner, kid.op.on, None), [kid.kids[0], kid.kids[1]]) && p == Node(p.perm, Join(Inner, p.op.on, None), [p.kids[0], kid]);
  }
}
