/** The small plans and tables that the counterexamples are built from, and what binding leaves in them. */
module SmallPlans {
  import opened Plans
  import opened Sequences
  import opened Values
  import opened Algebra
  import opened Semantics
  import opened Correlation

  /** A table with one column of integers. */
  function OneColumn(values: seq<int64>): Rel {
    Rel([Field(Ident("", "a"), Int64)], seq(|values|, i requires 0 <= i < |values| => map[Ident("", "a") := IntV(values[i])]))
  }

  function ScanOf(name: string): Plan {
    Node(Arbitrary, Scan(name, name), [])
  }

  // ---------------------------------------------------------------- bound plans

  lemma CorrOfNode(perm: OrderPermission, op: Op, kid: Plan)
    ensures PlanCorr(Node(perm, op, [kid])) == OpCorr(op) + PlanCorr(kid)
    ensures BoundPlan(Node(perm, op, [kid])) <==> BoundOp(op) && BoundPlan(kid)
  {
    hide OpCorr, BoundOp;
    var kids := [kid];
    var p := Node(perm, op, kids);
    assert kids[..|kids| - 1] == [] && KidsCorr([]) == [] && p.kids[0] == kid;
  }

  lemma CorrOfScan(table: string)
    ensures PlanCorr(ScanOf(table)) == [] && BoundPlan(ScanOf(table))
  {
  }

  lemma CorrSnoc(ps: seq<Pred>, q: Pred)
    ensures PredsCorr(ps + [q]) == PredsCorr(ps) + PredCorr(q)
    ensures PredsCorr([]) == []
  {
    var all := ps + [q];
    assert all[..|all| - 1] == ps && all[|all| - 1] == q;
  }

  lemma CorrOfColumn(c: ColumnRef)
    ensures ScalarCorr(Column(c)) == if c.depth != 0 then [c] else []
  {
    var cs := [c];
    assert cs[..|cs| - 1] == [] && OuterOnly([]) == [];
  }

  lemma ListedOnce(c: ColumnRef)
    ensures Dedup([c]) == [c] && Dedup([c, c]) == [c]
  {
    var one, two := [c], [c, c];
    assert one[..|one| - 1] == [] && two[..|two| - 1] == one;
  }

  lemma BoundSubIs(sub: Subplan)
    requires BoundPlan(sub.plan) && sub.corr == Dedup(PlanCorr(sub.plan))
    ensures BoundSub(sub)
  {
    hide BoundPlan, Dedup, PlanCorr;
  }

  lemma SelfEqualityCorr(c: ColumnRef)
    requires c.depth != 0
    ensures OpCorr(Filter([Cmp(Column(c), Eq, Column(c))])) == [c, c] && BoundOp(Filter([Cmp(Column(c), Eq, Column(c))]))
  {
    hide PredsCorr, ScalarCorr;
    var eq := Cmp(Column(c), Eq, Column(c));
    CorrOfColumn(c);
    CorrSnoc([], eq);
    assert [] + [eq] == [eq] && BoundPred(eq);
  }

  lemma SelfEqualityBound(c: ColumnRef, table: string)
    requires c.depth != 0
    ensures BoundSub(Subplan(Node(Arbitrary, Filter([Cmp(Column(c), Eq, Column(c))]), [ScanOf(table)]), [c]))
  {
    var ps := [Cmp(Column(c), Eq, Column(c))];
    SelfEqualityCorr(c);
    hide *;
    CorrOfScan(table);
    CorrOfNode(Arbitrary, Filter(ps), ScanOf(table));
    ListedOnce(c);
    BoundSubIs(Subplan(Node(Arbitrary, Filter(ps), [ScanOf(table)]), [c]));
  }

  lemma FilterBound(perm: OrderPermission, ps: seq<Pred>, kid: Plan)
    requires BoundPreds(ps) && BoundPlan(kid)
    ensures BoundPlan(Node(perm, Filter(ps), [kid]))
  {
    CorrOfNode(perm, Filter(ps), kid);
  }

  // ---------------------------------------------------------------- an owner's column compared with itself

  /** True when the owner has a value in the column, a failure when it has no such column. */
  lemma SelfEqualityDecided(c: ColumnRef, owner: Row, outer: seq<Row>, db: Db)
    requires c.depth == 1
    ensures var f := PredsFn([Cmp(Column(c), Eq, Column(c))], outer + [owner], db);
            && (c.id in owner && !owner[c.id].Null? ==> forall r: Row :: f(r) == True)
            && (c.id !in owner ==> forall r: Row :: f(r) == Error)
  {
    var eq, frames := Cmp(Column(c), Eq, Column(c)), outer + [owner];
    var ps := [eq];
    PredsFnAt(ps, frames, db);
    NestedCell(c, owner, outer);
    assert ps[..0] == [] && ps[0] == eq;
    forall r: Row
      ensures c.id in owner && !owner[c.id].Null? ==> EvalPreds(ps, r, frames, db) == True
      ensures c.id !in owner ==> EvalPreds(ps, r, frames, db) == Error
    {
      assert EvalScalar(Column(c), r, frames, db) == if c.id in owner then Ok(owner[c.id]) else Fails;
      assert EvalPreds(ps, r, frames, db) == AndTruth(EvalPreds(ps[..0], r, frames, db), EvalPred(eq, r, frames, db));
    }
  }

  lemma SelfEqualityPrepared(c: ColumnRef, outer: seq<Row>, db: Db)
    ensures PreparedPreds([Cmp(Column(c), Eq, Column(c))], outer, db)
  {
  }

  /** A comparison of a column with a correlated scalar subquery fails with the subquery, and when it returns no single cell. */
  lemma ComparisonFails(c: ColumnRef, sub: Subplan, row: Row, outer: seq<Row>, db: Db)
    requires sub.corr != [] && c.depth == 0 && c.id in row
    ensures EvalPred(Cmp(Column(c), Eq, ScalarQuery(sub, Int64)), row, outer, db) == Error <==>
            match Run(sub.plan, outer + [row], db) case Fails => true case Ok(rel) => ScalarResult(rel, Int64).Fails?
  {
    hide Eval, Prepared;
    assert EvalSub(sub, row, outer, db) == Run(sub.plan, outer + [row], db);
  }

  /** A NULL test of such a subquery fails in the same cases. */
  lemma NullTestFails(sub: Subplan, row: Row, outer: seq<Row>, db: Db)
    requires sub.corr != []
    ensures EvalPred(IsNull(ScalarQuery(sub, Int64)), row, outer, db) == Error <==>
            match Run(sub.plan, outer + [row], db) case Fails => true case Ok(rel) => ScalarResult(rel, Int64).Fails?
  {
    hide Eval, Prepared;
    assert EvalSub(sub, row, outer, db) == Run(sub.plan, outer + [row], db);
  }

  lemma ComparisonBound(c: ColumnRef, sub: Subplan)
    requires BoundSub(sub)
    ensures BoundPreds([Cmp(Column(c), Eq, ScalarQuery(sub, Int64))])
  {
  }
}
