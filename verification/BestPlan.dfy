/** Choosing the cheapest plan of a group. The per-operator estimates and their costs are
  uninterpreted: any function of the children's estimates, compared by a real cost.
 */
module BestPlan {
  import opened Plans
  import opened Sequences
  import opened MemoGraph
  import opened MemoPlans
  import opened Alternatives
  import opened Memo

  datatype Model<!E> = Model(estimate: (OrderPermission, Op, seq<E>) -> E, cost: E -> real)

  /** A winner carries its plan, the plan's estimate and the expression it came from. */
  datatype Winner<E> = Winner(estimate: E, plan: Plan, index: nat)

  /** The estimate of a whole plan, recomputed from its leaves. */
  ghost function PlanEstimate<E>(m: Model<E>, p: Plan): E {
    m.estimate(p.perm, p.op, seq(|p.kids|, i requires 0 <= i < |p.kids| => PlanEstimate(m, p.kids[i])))
  }

  predicate Better<E>(m: Model<E>, candidate: Winner<E>, incumbent: Winner<E>) {
    var c, i := m.cost(candidate.estimate), m.cost(incumbent.estimate);
    c < i || (!(c > i) && candidate.index < incumbent.index)
  }

  /** Expression `j` over the winners of its children. */
  ghost function Candidate<E>(m: Model<E>, groups: seq<Group>, reps: seq<GroupId>, rank: seq<nat>, g: GroupId, j: nat): Winner<E>
    requires Graph(groups, reps, rank) && IsRoot(reps, g) && HasExpr(groups, g, j)
    decreases rank[g], 0
  {
    var e := Exprs(groups, g)[j];
    assert ValidExpr(reps, e);
    match e.tag
    case GroupRef =>
      assert IsEdge(groups, reps, g, j, 0);
      Best(m, groups, reps, rank, Child(groups, reps, g, j, 0)).(index := j)
    case Relational(op) =>
      var kids := seq(|e.kids|, i requires 0 <= i < |e.kids| =>
        assert IsEdge(groups, reps, g, j, i);
        Best(m, groups, reps, rank, Child(groups, reps, g, j, i)));
      Winner(m.estimate(e.perm, op, Estimates(kids)), Node(e.perm, op, PlansOf(kids)), j)
  }

  function Estimates<E>(ws: seq<Winner<E>>): (r: seq<E>)
    ensures |r| == |ws| && forall i | 0 <= i < |r| :: r[i] == ws[i].estimate
  {
    seq(|ws|, i requires 0 <= i < |ws| => ws[i].estimate)
  }

  function PlansOf<E>(ws: seq<Winner<E>>): (r: seq<Plan>)
    ensures |r| == |ws| && forall i | 0 <= i < |r| :: r[i] == ws[i].plan
  {
    seq(|ws|, i requires 0 <= i < |ws| => ws[i].plan)
  }

  /** The winner among the first `n` expressions, kept while scanning in index order. */
  ghost function BestUpTo<E>(m: Model<E>, groups: seq<Group>, reps: seq<GroupId>, rank: seq<nat>, g: GroupId, n: nat): Winner<E>
    requires Graph(groups, reps, rank) && IsRoot(reps, g) && 1 <= n <= |Exprs(groups, g)|
    decreases rank[g], 1, n
  {
    assert HasExpr(groups, g, n - 1);
    var last := Candidate(m, groups, reps, rank, g, n - 1);
    if n == 1 then last
    else
      var best := BestUpTo(m, groups, reps, rank, g, n - 1);
      if Better(m, last, best) then last else best
  }

  ghost function Best<E>(m: Model<E>, groups: seq<Group>, reps: seq<GroupId>, rank: seq<nat>, g: GroupId): Winner<E>
    requires Graph(groups, reps, rank) && IsRoot(reps, g)
    decreases rank[g], 2
  {
    assert HasExpr(groups, g, 0);
    BestUpTo(m, groups, reps, rank, g, |Exprs(groups, g)|)
  }

  lemma BestByScan<E>(m: Model<E>, groups: seq<Group>, reps: seq<GroupId>, rank: seq<nat>, g: GroupId)
    requires Graph(groups, reps, rank) && IsRoot(reps, g)
    ensures HasExpr(groups, g, 0)
    ensures BestUpTo(m, groups, reps, rank, g, 1) == Candidate(m, groups, reps, rank, g, 0)
    ensures Best(m, groups, reps, rank, g) == BestUpTo(m, groups, reps, rank, g, |Exprs(groups, g)|)
  {
  }

  lemma BestUpToStep<E>(m: Model<E>, groups: seq<Group>, reps: seq<GroupId>, rank: seq<nat>, g: GroupId, n: nat)
    requires Graph(groups, reps, rank) && IsRoot(reps, g) && 1 <= n < |Exprs(groups, g)|
    ensures HasExpr(groups, g, n)
    ensures
      var best, next := BestUpTo(m, groups, reps, rank, g, n), Candidate(m, groups, reps, rank, g, n);
      BestUpTo(m, groups, reps, rank, g, n + 1) == if Better(m, next, best) then next else best
  {
  }

  /** No expression of the group over its children's winners is cheaper, and among equally
    cheap ones the winner has the lowest index. */
  lemma {:induction false} BestIsLeast<E>(m: Model<E>, groups: seq<Group>, reps: seq<GroupId>, rank: seq<nat>,
                                          g: GroupId, n: nat)
    requires Graph(groups, reps, rank) && IsRoot(reps, g) && 1 <= n <= |Exprs(groups, g)|
    ensures
      var best := BestUpTo(m, groups, reps, rank, g, n);
      && best.index < n && HasExpr(groups, g, best.index)
      && best == Candidate(m, groups, reps, rank, g, best.index)
      && forall j | HasExpr(groups, g, j) && j < n ::
           var cost := m.cost(Candidate(m, groups, reps, rank, g, j).estimate);
           cost >= m.cost(best.estimate) && (cost == m.cost(best.estimate) ==> best.index <= j)
    decreases n
  {
    assert HasExpr(groups, g, n - 1);
    CandidateIndex(m, groups, reps, rank, g, n - 1);
    if n > 1 {
      BestIsLeast(m, groups, reps, rank, g, n - 1);
    }
  }

  lemma CandidateIndex<E>(m: Model<E>, groups: seq<Group>, reps: seq<GroupId>, rank: seq<nat>, g: GroupId, j: nat)
    requires Graph(groups, reps, rank) && IsRoot(reps, g) && HasExpr(groups, g, j)
    ensures Candidate(m, groups, reps, rank, g, j).index == j
  {
  }

  /** The chosen plan can be read off the group, and its stored estimate is the recomputed one. */
  lemma {:induction false} BestIsDerived<E>(m: Model<E>, groups: seq<Group>, reps: seq<GroupId>, rank: seq<nat>, g: GroupId)
    requires Graph(groups, reps, rank) && IsRoot(reps, g)
    ensures
      var best := Best(m, groups, reps, rank, g);
      Derives(groups, reps, rank, g, best.plan) && best.estimate == PlanEstimate(m, best.plan)
    decreases rank[g], 1
  {
    assert HasExpr(groups, g, 0);
    BestIsLeast(m, groups, reps, rank, g, |Exprs(groups, g)|);
    var best := Best(m, groups, reps, rank, g);
    CandidateIsDerived(m, groups, reps, rank, g, best.index);
    assert DerivesBy(groups, reps, rank, g, best.index, best.plan);
  }

  lemma {:induction false} CandidateIsDerived<E>(m: Model<E>, groups: seq<Group>, reps: seq<GroupId>, rank: seq<nat>,
                                                 g: GroupId, j: nat)
    requires Graph(groups, reps, rank) && IsRoot(reps, g) && HasExpr(groups, g, j)
    ensures
      var c := Candidate(m, groups, reps, rank, g, j);
      DerivesBy(groups, reps, rank, g, j, c.plan) && c.estimate == PlanEstimate(m, c.plan)
    decreases rank[g], 0
  {
    var e := Exprs(groups, g)[j];
    var c := Candidate(m, groups, reps, rank, g, j);
    assert ValidExpr(reps, e);
    forall i | 0 <= i < |e.kids|
      ensures IsEdge(groups, reps, g, j, i)
      ensures
        var kid := Best(m, groups, reps, rank, Child(groups, reps, g, j, i));
        Derives(groups, reps, rank, Child(groups, reps, g, j, i), kid.plan) && kid.estimate == PlanEstimate(m, kid.plan)
    {
      assert IsEdge(groups, reps, g, j, i);
      BestIsDerived(m, groups, reps, rank, Child(groups, reps, g, j, i));
    }
    if e.tag.Relational? {
      var kids := seq(|e.kids|, i requires 0 <= i < |e.kids| => Best(m, groups, reps, rank, Child(groups, reps, g, j, i)));
      assert c.plan.kids == PlansOf(kids);
      assert seq(|c.plan.kids|, i requires 0 <= i < |c.plan.kids| => PlanEstimate(m, c.plan.kids[i])) == Estimates(kids);
    }
  }

  /** Replacing children's estimates by cheaper ones does not make a plan dearer. */
  ghost predicate Monotone<E(!new)>(m: Model<E>) {
    forall perm, op, xs: seq<E>, ys: seq<E> | |xs| == |ys| && NoDearer(m, xs, ys) ::
      m.cost(m.estimate(perm, op, xs)) <= m.cost(m.estimate(perm, op, ys))
  }

  ghost predicate NoDearer<E>(m: Model<E>, xs: seq<E>, ys: seq<E>)
    requires |xs| == |ys|
  {
    forall i | 0 <= i < |xs| :: m.cost(xs[i]) <= m.cost(ys[i])
  }

  ghost function PlanEstimates<E>(m: Model<E>, ps: seq<Plan>): (r: seq<E>)
    ensures |r| == |ps| && forall i | 0 <= i < |r| :: r[i] == PlanEstimate(m, ps[i])
  {
    seq(|ps|, i requires 0 <= i < |ps| => PlanEstimate(m, ps[i]))
  }

  /** Where costs are monotone, keeping one winner per group loses nothing: no plan that can be read off the group is cheaper
    than the chosen one. */
  lemma {:induction false} BestIsCheapest<E(!new)>(m: Model<E>, groups: seq<Group>, reps: seq<GroupId>, rank: seq<nat>, g: GroupId, p: Plan)
    requires Graph(groups, reps, rank) && IsRoot(reps, g) && Monotone(m) && Derives(groups, reps, rank, g, p)
    ensures m.cost(Best(m, groups, reps, rank, g).estimate) <= m.cost(PlanEstimate(m, p))
    decreases rank[g], 1
  {
    var j :| HasExpr(groups, g, j) && DerivesBy(groups, reps, rank, g, j, p);
    BestIsLeast(m, groups, reps, rank, g, |Exprs(groups, g)|);
    CandidateIsNoDearer(m, groups, reps, rank, g, j, p);
  }

  lemma {:induction false} CandidateIsNoDearer<E(!new)>(m: Model<E>, groups: seq<Group>, reps: seq<GroupId>, rank: seq<nat>,
                                                        g: GroupId, j: nat, p: Plan)
    requires Graph(groups, reps, rank) && IsRoot(reps, g) && HasExpr(groups, g, j) && Monotone(m) && DerivesBy(groups, reps, rank, g, j, p)
    ensures m.cost(Candidate(m, groups, reps, rank, g, j).estimate) <= m.cost(PlanEstimate(m, p))
    decreases rank[g], 0
  {
    var e := Exprs(groups, g)[j];
    assert ValidExpr(reps, e);
    forall i | 0 <= i < |e.kids| ensures IsEdge(groups, reps, g, j, i) {
    }
    match e.tag
    case GroupRef => BestIsCheapest(m, groups, reps, rank, Child(groups, reps, g, j, 0), p);
    case Relational(op) =>
      var kids := seq(|e.kids|, i requires 0 <= i < |e.kids| => Best(m, groups, reps, rank, Child(groups, reps, g, j, i)));
      forall i | 0 <= i < |e.kids| ensures m.cost(Estimates(kids)[i]) <= m.cost(PlanEstimates(m, p.kids)[i]) {
        BestIsCheapest(m, groups, reps, rank, Child(groups, reps, g, j, i), p.kids[i]);
      }
      assert NoDearer(m, Estimates(kids), PlanEstimates(m, p.kids));
      assert PlanEstimate(m, p) == m.estimate(p.perm, p.op, PlanEstimates(m, p.kids)) by {
        assert PlanEstimates(m, p.kids) == seq(|p.kids|, i requires 0 <= i < |p.kids| => PlanEstimate(m, p.kids[i]));
      }
  }

  /** Exhaustive enumeration contains the chosen plan. */
  lemma BestIsAnAlternative<E>(m: Model<E>, groups: seq<Group>, reps: seq<GroupId>, rank: seq<nat>, g: GroupId)
    requires Graph(groups, reps, rank) && IsRoot(reps, g)
    ensures Best(m, groups, reps, rank, g).plan in AllPlans(groups, reps, rank, g)
  {
    BestIsDerived(m, groups, reps, rank, g);
    InAllPlans(groups, reps, rank, g, Best(m, groups, reps, rank, g).plan);
  }

  /** Extraction with one cached winner per group. */
  class BestExtractor<D(!new), E> {
    const memo: Memo<D>
    const model: Model<E>
    var winners: map<GroupId, Winner<E>>

    ghost predicate Valid()
      reads this, memo
    {
      && memo.Valid()
      && forall g | g in winners ::
           IsRoot(memo.reps, g) && winners[g] == Best(model, memo.groups, memo.reps, memo.rank, g)
    }

    constructor (memo: Memo<D>, model: Model<E>)
      requires memo.Valid()
      ensures Valid() && this.memo == memo && this.model == model
    {
      this.memo, this.model, winners := memo, model, map[];
    }

    method Extract(id: GroupId) returns (r: Outcome<Plan>)
      requires Valid()
      modifies this
      ensures Valid() && (r.Ok? <==> Known(memo.reps, id))
      ensures r.Ok? ==>
                var g := Root(memo.reps, id);
                && r.value == Best(model, memo.groups, memo.reps, memo.rank, g).plan
                && Derives(memo.groups, memo.reps, memo.rank, g, r.value)
                && PlanDen(memo.sem, r.value) == memo.den[id]
    {
      var root := memo.Representative(id);
      if root.Fails? {
        return Fails;
      }
      var best := BestForGroup(root.value);
      BestIsDerived(model, memo.groups, memo.reps, memo.rank, root.value);
      DerivedDen(memo.groups, memo.reps, memo.rank, memo.sem, memo.den, root.value, best.plan);
      return Ok(best.plan);
    }

    method BestForGroup(g: GroupId) returns (best: Winner<E>)
      requires Valid() && IsRoot(memo.reps, g)
      modifies this
      ensures Valid() && best == Best(model, memo.groups, memo.reps, memo.rank, g)
      decreases memo.rank[g], 1, 1
    {
      hide Shape, Acyclic, Sound, Tidy, Indexed, Best;
      if g in winners {
        return winners[g];
      }
      best := ScanGroup(g);
      winners := winners[g := best];
    }

    method ScanGroup(g: GroupId) returns (best: Winner<E>)
      requires Valid() && IsRoot(memo.reps, g)
      modifies this
      ensures Valid() && best == Best(model, memo.groups, memo.reps, memo.rank, g)
      decreases memo.rank[g], 1, 0
    {
      hide Shape, Acyclic, Sound, Tidy, Indexed, Candidate, Better, Best, BestUpTo;
      BestByScan(model, memo.groups, memo.reps, memo.rank, g);
      ghost var groups, reps, rank := memo.groups, memo.reps, memo.rank;
      var exprs := Exprs(memo.groups, g);
      best := EstimateExpression(g, 0);
      for j := 1 to |exprs|
        invariant Valid() && best == BestUpTo(model, groups, reps, rank, g, j)
      {
        BestUpToStep(model, groups, reps, rank, g, j);
        var candidate := EstimateExpression(g, j);
        if Better(model, candidate, best) {
          best := candidate;
        }
      }
    }

    method EstimateExpression(g: GroupId, j: nat) returns (w: Winner<E>)
      requires Valid() && IsRoot(memo.reps, g) && HasExpr(memo.groups, g, j)
      modifies this
      ensures Valid() && w == Candidate(model, memo.groups, memo.reps, memo.rank, g, j)
      decreases memo.rank[g], 0, 1
    {
      var e := Exprs(memo.groups, g)[j];
      CandidateByKids(model, memo.groups, memo.reps, memo.rank, g, j);
      hide Shape, Acyclic, Sound, Tidy, Indexed, Candidate, Best;
      if e.tag.GroupRef? {
        var kid := BestForGroup(e.kids[0]);
        return kid.(index := j);
      }
      var kids := BestForKids(e.kids, memo.rank[g]);
      w := Winner(model.estimate(e.perm, e.tag.op, Estimates(kids)), Node(e.perm, e.tag.op, PlansOf(kids)), j);
    }

    method BestForKids(ids: seq<GroupId>, ghost bound: nat) returns (kids: seq<Winner<E>>)
      requires Valid() && forall i | 0 <= i < |ids| :: IsRoot(memo.reps, ids[i]) && memo.rank[ids[i]] < bound
      modifies this
      ensures Valid() && kids == BestOfAll(model, memo.groups, memo.reps, memo.rank, ids)
      decreases bound, 0, 0
    {
      hide Shape, Acyclic, Sound, Tidy, Indexed, Best;
      kids := [];
      for i := 0 to |ids|
        invariant Valid() && |kids| == i
        invariant forall h | 0 <= h < i :: kids[h] == Best(model, memo.groups, memo.reps, memo.rank, ids[h])
      {
        var kid := BestForGroup(ids[i]);
        kids := kids + [kid];
      }
    }
  }

  ghost function BestOfAll<E>(m: Model<E>, groups: seq<Group>, reps: seq<GroupId>, rank: seq<nat>, ids: seq<GroupId>): (r: seq<Winner<E>>)
    requires Graph(groups, reps, rank) && forall i | 0 <= i < |ids| :: IsRoot(reps, ids[i])
    ensures |r| == |ids| && forall i | 0 <= i < |r| :: r[i] == Best(m, groups, reps, rank, ids[i])
  {
    seq(|ids|, i requires 0 <= i < |ids| => Best(m, groups, reps, rank, ids[i]))
  }

  lemma CandidateByKids<E>(m: Model<E>, groups: seq<Group>, reps: seq<GroupId>, rank: seq<nat>, g: GroupId, j: nat)
    requires Graph(groups, reps, rank) && Tidy(groups, reps) && IsRoot(reps, g) && HasExpr(groups, g, j)
    ensures
      var e := Exprs(groups, g)[j];
      var c := Candidate(m, groups, reps, rank, g, j);
      && (forall i | 0 <= i < |e.kids| :: IsRoot(reps, e.kids[i]) && rank[e.kids[i]] < rank[g])
      && (e.tag.GroupRef? ==> |e.kids| == 1 && c == Best(m, groups, reps, rank, e.kids[0]).(index := j))
      && (e.tag.Relational? ==> (
            var kids := BestOfAll(m, groups, reps, rank, e.kids);
            c == Winner(m.estimate(e.perm, e.tag.op, Estimates(kids)), Node(e.perm, e.tag.op, PlansOf(kids)), j)))
  {
    var e := Exprs(groups, g)[j];
    assert ValidExpr(reps, e);
    forall i | 0 <= i < |e.kids|
      ensures IsEdge(groups, reps, g, j, i) && Child(groups, reps, g, j, i) == e.kids[i]
    {
      assert IsEdge(groups, reps, g, j, i);
    }
    if e.tag.Relational? {
      assert BestOfAll(m, groups, reps, rank, e.kids) ==
             seq(|e.kids|, i requires 0 <= i < |e.kids| => Best(m, groups, reps, rank, Child(groups, reps, g, j, i)));
    }
  }
}
