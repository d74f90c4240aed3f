/** What a bound predicate sees of a row: the columns its own operands name, and those its subqueries' correlation names.
  Two rows that differ elsewhere give it the same truth, failures included.
 */
module SubqueryReads {
  import opened Plans
  import opened Sequences
  import opened Values
  import opened Algebra
  import opened Semantics
  import opened Correlation
  import opened AggregatePushdown

  /** The rows agree on every column outside `ids`. */
  ghost predicate SameExcept(ids: set<Ident>, x: Row, y: Row) {
    forall id | id !in ids :: (id in x <==> id in y) && (id in x ==> x[id] == y[id])
  }

  /** The subquery names none of these columns of its owner. */
  predicate SubAvoids(sub: Subplan, ids: set<Ident>) {
    forall c | c in sub.corr && c.depth == 1 :: c.id !in ids
  }

  predicate ScalarAvoids(e: Scalar, ids: set<Ident>) {
    e.ScalarQuery? ==> SubAvoids(e.sub, ids)
  }

  /** None of the predicate's subqueries names these columns of the row. */
  predicate SubqueriesAvoid(p: Pred, ids: set<Ident>) {
    match p
    case Cmp(l, _, r) => ScalarAvoids(l, ids) && ScalarAvoids(r, ids)
    case IsNull(e) => ScalarAvoids(e, ids)
    case IsNotNull(e) => ScalarAvoids(e, ids)
    case In(e, sub) => ScalarAvoids(e, ids) && SubAvoids(sub, ids)
    case NotIn(e, sub) => ScalarAvoids(e, ids) && SubAvoids(sub, ids)
    case Exists(sub) => SubAvoids(sub, ids)
    case NotExists(sub) => SubAvoids(sub, ids)
    case And(l, r) => SubqueriesAvoid(l, ids) && SubqueriesAvoid(r, ids)
    case Or(l, r) => SubqueriesAvoid(l, ids) && SubqueriesAvoid(r, ids)
  }

  /** A subquery sees an owner row only through the columns its correlation names. */
  lemma SubReads(sub: Subplan, ids: set<Ident>, x: Row, y: Row, outer: seq<Row>, db: Db)
    requires BoundSub(sub) && SubAvoids(sub, ids) && SameExcept(ids, x, y)
    ensures EvalSub(sub, x, outer, db) == EvalSub(sub, y, outer, db)
  {
    if sub.corr != [] {
      forall c | c in sub.corr && c.depth != 0 ensures OuterCell(c, outer + [x]) == OuterCell(c, outer + [y]) {
        NestedCell(c, x, outer);
        NestedCell(c, y, outer);
      }
      RunLocal(sub.plan, outer + [x], outer + [y], db);
    }
  }

  lemma ScalarSees(e: Scalar, ids: set<Ident>, x: Row, y: Row, outer: seq<Row>, db: Db)
    requires BoundScalar(e) && ScalarColumns(e) !! ids && ScalarAvoids(e, ids) && SameExcept(ids, x, y)
    ensures EvalScalar(e, x, outer, db) == EvalScalar(e, y, outer, db)
  {
    if e.ScalarQuery? {
      SubReads(e.sub, ids, x, y, outer, db);
    }
    if e.Column? {
      assert e.col.id in ScalarColumns(e);
    }
  }

  lemma TestSees(sub: Subplan, v: Outcome<Cell>, ids: set<Ident>, x: Row, y: Row, outer: seq<Row>, db: Db)
    requires BoundSub(sub) && SubAvoids(sub, ids) && SameExcept(ids, x, y)
    ensures EvalIn(v, sub, x, outer, db) == EvalIn(v, sub, y, outer, db)
    ensures EvalExists(sub, x, outer, db) == EvalExists(sub, y, outer, db)
  {
    SubReads(sub, ids, x, y, outer, db);
    hide EvalSub, BoundSub, SubAvoids, SameExcept;
  }

  /** A bound predicate sees a row only through the columns it and its subqueries name. */
  lemma {:induction false} PredSees(p: Pred, ids: set<Ident>, x: Row, y: Row, outer: seq<Row>, db: Db)
    requires BoundPred(p) && RefColumns(p) !! ids && SubqueriesAvoid(p, ids) && SameExcept(ids, x, y)
    ensures EvalPred(p, x, outer, db) == EvalPred(p, y, outer, db)
  {
    hide EvalScalar, EvalIn, EvalExists, SameExcept, ScalarAvoids, SubAvoids, ScalarColumns, BoundScalar, BoundSub;
    match p
    case Cmp(l, _, r) =>
      ScalarSees(l, ids, x, y, outer, db);
      ScalarSees(r, ids, x, y, outer, db);
    case IsNull(e) => ScalarSees(e, ids, x, y, outer, db);
    case IsNotNull(e) => ScalarSees(e, ids, x, y, outer, db);
    case In(e, sub) =>
      ScalarSees(e, ids, x, y, outer, db);
      TestSees(sub, EvalScalar(e, x, outer, db), ids, x, y, outer, db);
    case NotIn(e, sub) =>
      ScalarSees(e, ids, x, y, outer, db);
      TestSees(sub, EvalScalar(e, x, outer, db), ids, x, y, outer, db);
    case Exists(sub) => TestSees(sub, Fails, ids, x, y, outer, db);
    case NotExists(sub) => TestSees(sub, Fails, ids, x, y, outer, db);
    case And(l, r) =>
      PredSees(l, ids, x, y, outer, db);
      PredSees(r, ids, x, y, outer, db);
    case Or(l, r) =>
      PredSees(l, ids, x, y, outer, db);
      PredSees(r, ids, x, y, outer, db);
  }

  /** Bound conjuncts that name none of these columns, in their subqueries or outside. */
  ghost predicate ListAvoids(ps: seq<Pred>, ids: set<Ident>) {
    forall q | q in ps :: BoundPred(q) && RefColumns(q) !! ids && SubqueriesAvoid(q, ids)
  }

  lemma {:induction false} PredsSee(ps: seq<Pred>, ids: set<Ident>, x: Row, y: Row, outer: seq<Row>, db: Db)
    requires ListAvoids(ps, ids) && SameExcept(ids, x, y)
    ensures EvalPreds(ps, x, outer, db) == EvalPreds(ps, y, outer, db)
  {
    hide EvalPred, BoundPred, RefColumns, SubqueriesAvoid, SameExcept;
    if ps != [] {
      var n := |ps| - 1;
      assert ps == ps[..n] + [ps[n]];
      PredsSee(ps[..n], ids, x, y, outer, db);
      PredSees(ps[n], ids, x, y, outer, db);
    }
  }
}
