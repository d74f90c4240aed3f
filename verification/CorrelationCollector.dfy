/** The binder's collector: it walks a bound query block and appends each outer column it has not seen. */
module CorrelationCollector {
  import opened Plans
  import opened Sequences
  import opened Windows
  import opened Semantics
  import opened Correlation

  /** `seen` after every column of `cs` has been offered in turn. */
  function Offered(seen: seq<ColumnRef>, cs: seq<ColumnRef>): seq<ColumnRef> {
    if cs == [] then seen
    else
      var before, c := Offered(seen, cs[..|cs| - 1]), cs[|cs| - 1];
      if c in before then before else before + [c]
  }

  lemma {:induction false} OfferedInTwo(seen: seq<ColumnRef>, a: seq<ColumnRef>, b: seq<ColumnRef>)
    ensures Offered(seen, a + b) == Offered(Offered(seen, a), b)
  {
    if b == [] {
      assert a + b == a;
    } else {
      assert (a + b)[..|a + b| - 1] == a + b[..|b| - 1];
      OfferedInTwo(seen, a, b[..|b| - 1]);
    }
  }

  lemma OfferedNothing(seen: seq<ColumnRef>)
    ensures Offered(seen, []) == seen
  {
  }

  /** Offering to an empty list keeps the first occurrences. */
  lemma {:induction false} OfferedIsDedup(cs: seq<ColumnRef>)
    ensures Offered([], cs) == Dedup(cs)
  {
    if cs != [] {
      OfferedIsDedup(cs[..|cs| - 1]);
    }
  }

  lemma {:induction false} OuterOnlyInTwo(a: seq<ColumnRef>, b: seq<ColumnRef>)
    ensures OuterOnly(a + b) == OuterOnly(a) + OuterOnly(b)
  {
    if b == [] {
      assert a + b == a;
    } else {
      assert (a + b)[..|a + b| - 1] == a + b[..|b| - 1];
      OuterOnlyInTwo(a, b[..|b| - 1]);
    }
  }

  lemma PrefixSnoc<T>(s: seq<T>, i: int)
    requires 0 <= i < |s|
    ensures s[..i + 1][..i] == s[..i] && s[..i + 1] == s[..i] + [s[i]]
  {
  }

  lemma KidsCorrSnoc(kids: seq<Plan>, i: int)
    requires 0 <= i < |kids|
    ensures KidsCorr(kids[..i + 1]) == KidsCorr(kids[..i]) + PlanCorr(kids[i])
  {
    PrefixSnoc(kids, i);
  }

  class Collector {
    var columns: seq<ColumnRef>

    constructor ()
      ensures columns == []
    {
      columns := [];
    }

    method Add(c: ColumnRef)
      modifies this
      ensures columns == Offered(old(columns), OuterOnly([c]))
    {
      if c.depth == 0 {
        return;
      }
      if c !in columns {
        columns := columns + [c];
      }
    }

    /** The columns an operator reads itself. */
    method AddAll(cs: seq<ColumnRef>)
      modifies this
      ensures columns == Offered(old(columns), OuterOnly(cs))
    {
      var i := 0;
      while i < |cs|
        invariant 0 <= i <= |cs|
        invariant columns == Offered(old(columns), OuterOnly(cs[..i]))
      {
        Add(cs[i]);
        PrefixSnoc(cs, i);
        OuterOnlyInTwo(cs[..i], [cs[i]]);
        OfferedInTwo(old(columns), OuterOnly(cs[..i]), OuterOnly([cs[i]]));
        i := i + 1;
      }
      assert cs[..i] == cs;
    }

    /** What a nested subquery still needs from outside the current block. */
    method AddNested(sub: Subplan)
      modifies this
      ensures columns == Offered(old(columns), Rebased(sub.corr))
    {
      var i := 0;
      while i < |sub.corr|
        invariant 0 <= i <= |sub.corr|
        invariant columns == Offered(old(columns), Rebased(sub.corr[..i]))
      {
        var c := sub.corr[i];
        PrefixSnoc(sub.corr, i);
        ghost var before := Rebased(sub.corr[..i]);
        if c.depth > 1 {
          var outward := c.(depth := c.depth - 1);
          Add(outward);
          assert OuterOnly([outward]) == [outward];
          OfferedInTwo(old(columns), before, [outward]);
        } else {
          assert before + [] == before;
        }
        i := i + 1;
      }
      assert sub.corr[..i] == sub.corr;
    }

    method AddScalar(e: Scalar)
      modifies this
      ensures columns == Offered(old(columns), ScalarCorr(e))
    {
      match e {
        case Column(c) => Add(c);
        case ScalarQuery(sub, _) => AddNested(sub);
        case _ =>
      }
    }

    method AddPredicate(p: Pred)
      modifies this
      ensures columns == Offered(old(columns), PredCorr(p))
      decreases p
    {
      hide Offered, ScalarCorr, Rebased;
      match p {
        case Cmp(l, _, r) =>
          AddScalar(l);
          AddScalar(r);
          OfferedInTwo(old(columns), ScalarCorr(l), ScalarCorr(r));
        case IsNull(e) => AddScalar(e);
        case IsNotNull(e) => AddScalar(e);
        case In(e, sub) =>
          AddScalar(e);
          AddNested(sub);
          OfferedInTwo(old(columns), ScalarCorr(e), Rebased(sub.corr));
        case NotIn(e, sub) =>
          AddScalar(e);
          AddNested(sub);
          OfferedInTwo(old(columns), ScalarCorr(e), Rebased(sub.corr));
        case Exists(sub) => AddNested(sub);
        case NotExists(sub) => AddNested(sub);
        case And(l, r) =>
          AddPredicate(l);
          AddPredicate(r);
          OfferedInTwo(old(columns), PredCorr(l), PredCorr(r));
        case Or(l, r) =>
          AddPredicate(l);
          AddPredicate(r);
          OfferedInTwo(old(columns), PredCorr(l), PredCorr(r));
      }
    }

    method AddPredicates(ps: seq<Pred>)
      modifies this
      ensures columns == Offered(old(columns), PredsCorr(ps))
    {
      var i := 0;
      while i < |ps|
        invariant 0 <= i <= |ps|
        invariant columns == Offered(old(columns), PredsCorr(ps[..i]))
      {
        AddPredicate(ps[i]);
        PrefixSnoc(ps, i);
        OfferedInTwo(old(columns), PredsCorr(ps[..i]), PredCorr(ps[i]));
        i := i + 1;
      }
      assert ps[..i] == ps;
    }

    method AddProjections(projs: seq<Projection>)
      modifies this
      ensures columns == Offered(old(columns), ProjsCorr(projs))
    {
      var i := 0;
      while i < |projs|
        invariant 0 <= i <= |projs|
        invariant columns == Offered(old(columns), ProjsCorr(projs[..i]))
      {
        AddScalar(projs[i].expr);
        PrefixSnoc(projs, i);
        OfferedInTwo(old(columns), ProjsCorr(projs[..i]), ScalarCorr(projs[i].expr));
        i := i + 1;
      }
      assert projs[..i] == projs;
    }

    method AddOperator(op: Op)
      modifies this
      ensures columns == Offered(old(columns), OpCorr(op))
    {
      match op {
        case Filter(preds) => AddPredicates(preds);
        case Project(projs) => AddProjections(projs);
        case Join(_, on, membership) =>
          AddPredicates(on);
          if membership.Some? {
            AddPredicate(membership.value);
            OfferedInTwo(old(columns), PredsCorr(on), PredCorr(membership.value));
          } else {
            assert PredsCorr(on) + [] == PredsCorr(on);
          }
        case _ => AddAll(OwnColumns(op));
      }
    }

    method AddPlan(p: Plan)
      modifies this
      ensures columns == Offered(old(columns), PlanCorr(p))
      decreases p
    {
      hide OpCorr, Offered, KidsCorr;
      AddOperator(p.op);
      AddKids(p.kids);
      OfferedInTwo(old(columns), OpCorr(p.op), KidsCorr(p.kids));
    }

    /** The relational children, in order. */
    method AddKids(kids: seq<Plan>)
      modifies this
      ensures columns == Offered(old(columns), KidsCorr(kids))
      decreases kids
    {
      assert KidsCorr(kids[..0]) == [];
      hide Offered, PlanCorr, KidsCorr;
      var i := 0;
      OfferedNothing(columns);
      while i < |kids|
        invariant 0 <= i <= |kids|
        invariant columns == Offered(old(columns), KidsCorr(kids[..i]))
      {
        AddPlan(kids[i]);
        OfferedInTwo(old(columns), KidsCorr(kids[..i]), PlanCorr(kids[i]));
        KidsCorrSnoc(kids, i);
        i := i + 1;
      }
      assert kids[..i] == kids;
    }
  }

  /** The correlation columns the binder stores beside a subquery. */
  method CollectCorrelations(p: Plan) returns (columns: seq<ColumnRef>)
    ensures columns == CorrelationSet(p)
  {
    var collector := new Collector();
    collector.AddPlan(p);
    columns := collector.columns;
    OfferedIsDedup(PlanCorr(p));
  }
}
