/** Plans seen through the memo: which group a plan belongs to, which plans a group
  stands for, and why all of them mean the same.
 */
module MemoPlans {
  import opened Plans
  import opened MemoGraph

  /** What a plan denotes under a meaning of the operators. */
  ghost function PlanDen<D>(sem: Semantics<D>, p: Plan): D
  {
    sem(p.op, seq(|p.kids|, i requires 0 <= i < |p.kids| => PlanDen(sem, p.kids[i])))
  }

  // ---------------------------------------------------------------- from plans to groups

  function Embed(p: Plan, ids: seq<GroupId>): MemoExpr {
    MemoExpr(p.perm, Relational(p.op), ids)
  }

  /** The group that owns a plan, found bottom-up through the index. */
  ghost function Lookup(index: map<MemoExpr, GroupId>, p: Plan): Option<GroupId>
  {
    match LookupAll(index, p.kids)
    case None => None
    case Some(ids) => if Embed(p, ids) in index then Some(index[Embed(p, ids)]) else None
  }

  ghost function LookupAll(index: map<MemoExpr, GroupId>, ps: seq<Plan>): (r: Option<seq<GroupId>>)
    ensures r.Some? <==> forall i | 0 <= i < |ps| :: Lookup(index, ps[i]).Some?
    ensures r.Some? ==> |r.value| == |ps| && forall i | 0 <= i < |ps| :: r.value[i] == Lookup(index, ps[i]).value
  {
    if ps == [] then Some([])
    else
      match LookupAll(index, ps[..|ps| - 1])
      case None => None
      case Some(ids) =>
        match Lookup(index, ps[|ps| - 1])
        case None => None
        case Some(id) => Some(ids + [id])
  }

  ghost predicate IndexGrows(index0: map<MemoExpr, GroupId>, index1: map<MemoExpr, GroupId>) {
    forall e | e in index0 :: e in index1 && index1[e] == index0[e]
  }

  ghost predicate DenGrows<D>(den0: map<GroupId, D>, den1: map<GroupId, D>) {
    forall g | g in den0 :: g in den1 && den1[g] == den0[g]
  }

  lemma {:induction false} LookupGrows(index0: map<MemoExpr, GroupId>, index1: map<MemoExpr, GroupId>, p: Plan)
    requires IndexGrows(index0, index1) && Lookup(index0, p).Some?
    ensures Lookup(index1, p) == Lookup(index0, p)
  {
    var ids0 := LookupAll(index0, p.kids);
    forall i | 0 <= i < |p.kids| ensures Lookup(index1, p.kids[i]) == Lookup(index0, p.kids[i]) {
      LookupGrows(index0, index1, p.kids[i]);
    }
    assert LookupAll(index1, p.kids).value == ids0.value;
  }

  lemma LookupIsRoot(groups: seq<Group>, reps: seq<GroupId>, index: map<MemoExpr, GroupId>, p: Plan)
    requires |reps| == |groups| + 1 && Indexed(groups, reps, index) && Lookup(index, p).Some?
    ensures IsRoot(reps, Lookup(index, p).value)
  {
  }

  lemma EmbedIsCanonical(groups: seq<Group>, reps: seq<GroupId>, index: map<MemoExpr, GroupId>, p: Plan, ids: seq<GroupId>)
    requires RepsOk(reps) && |reps| == |groups| + 1 && Indexed(groups, reps, index) && |ids| == |p.kids|
    requires forall i | 0 <= i < |ids| :: Lookup(index, p.kids[i]) == Some(ids[i])
    ensures KidsKnown(reps, Embed(p, ids)) && Canon(reps, Embed(p, ids)) == Embed(p, ids)
    ensures Lookup(index, p) == if Embed(p, ids) in index then Some(index[Embed(p, ids)]) else None
  {
    assert LookupAll(index, p.kids).value == ids;
    forall i | 0 <= i < |ids| ensures IsRoot(reps, ids[i]) {
      LookupIsRoot(groups, reps, index, p.kids[i]);
    }
    CanonOfCanonical(reps, Embed(p, ids));
  }

  lemma EmbedDen<D>(sem: Semantics<D>, den: map<GroupId, D>, p: Plan, ids: seq<GroupId>)
    requires |ids| == |p.kids|
    requires forall i | 0 <= i < |ids| :: ids[i] in den && den[ids[i]] == PlanDen(sem, p.kids[i])
    ensures Denoted(den, Embed(p, ids)) && ExprDen(sem, den, Embed(p, ids)) == PlanDen(sem, p)
  {
    var e := Embed(p, ids);
    assert seq(|e.kids|, i requires 0 <= i < |e.kids| => den[e.kids[i]]) ==
           seq(|p.kids|, i requires 0 <= i < |p.kids| => PlanDen(sem, p.kids[i]));
  }

  /** What was indexed stays indexed, under later representatives. */
  lemma IndexedStays(groups0: seq<Group>, reps0: seq<GroupId>, index0: map<MemoExpr, GroupId>,
                     groups1: seq<Group>, reps1: seq<GroupId>, index1: map<MemoExpr, GroupId>, e: MemoExpr)
    requires Shape(groups0, reps0) && Indexed(groups0, reps0, index0)
    requires Shape(groups1, reps1) && Tidy(groups1, reps1) && Indexed(groups1, reps1, index1)
    requires Keeps(groups0, reps0, groups1, reps1) && e in index0
    ensures IsRoot(reps0, index0[e]) && Known(reps1, index0[e])
    ensures KidsKnown(reps1, e) && Canon(reps1, e) in index1
    ensures index1[Canon(reps1, e)] == Root(reps1, index0[e])
  {
    var g := index0[e];
    var j :| 0 <= j < |Exprs(groups0, g)| && Exprs(groups0, g)[j] == e;
    assert HasExpr(groups0, g, j);
    assert HasCanon(groups1, reps1, Root(reps1, g), e);
    IndexedHasCanon(groups1, reps1, index1, e);
  }

  /** Stable identity: after any mutation that keeps expressions, a plan that had a group
    is found in the representative of that group. */
  lemma {:induction false} LookupKeeps(groups0: seq<Group>, reps0: seq<GroupId>, index0: map<MemoExpr, GroupId>,
                                       groups1: seq<Group>, reps1: seq<GroupId>, index1: map<MemoExpr, GroupId>, p: Plan)
    requires Shape(groups0, reps0) && Indexed(groups0, reps0, index0)
    requires Shape(groups1, reps1) && Tidy(groups1, reps1) && Indexed(groups1, reps1, index1)
    requires Keeps(groups0, reps0, groups1, reps1)
    requires Lookup(index0, p).Some?
    ensures IsRoot(reps0, Lookup(index0, p).value) && Known(reps1, Lookup(index0, p).value)
    ensures Lookup(index1, p) == Some(Root(reps1, Lookup(index0, p).value))
  {
    hide Shape, Indexed, Tidy, HasCanon;
    var ids0 := LookupAll(index0, p.kids).value;
    IndexedStays(groups0, reps0, index0, groups1, reps1, index1, Embed(p, ids0));
    forall i | 0 <= i < |p.kids| ensures Lookup(index1, p.kids[i]) == Some(Root(reps1, ids0[i])) {
      LookupKeeps(groups0, reps0, index0, groups1, reps1, index1, p.kids[i]);
    }
    assert LookupAll(index1, p.kids).value == Canon(reps1, Embed(p, ids0)).kids;
  }

  // ---------------------------------------------------------------- from groups to plans

  ghost predicate Graph(groups: seq<Group>, reps: seq<GroupId>, rank: seq<nat>) {
    RepsOk(reps) && |groups| + 1 == |reps| == |rank| && Shape(groups, reps) && Acyclic(groups, reps, rank)
  }

  /** The plan built from the first expression of each group. */
  ghost function FirstPlan(groups: seq<Group>, reps: seq<GroupId>, rank: seq<nat>, g: GroupId): Plan
    requires Graph(groups, reps, rank) && IsRoot(reps, g)
    decreases rank[g]
  {
    var e := Exprs(groups, g)[0];
    match e.tag
    case GroupRef =>
      assert IsEdge(groups, reps, g, 0, 0);
      FirstPlan(groups, reps, rank, Child(groups, reps, g, 0, 0))
    case Relational(op) =>
      Node(e.perm, op, seq(|e.kids|, i requires 0 <= i < |e.kids| =>
        assert IsEdge(groups, reps, g, 0, i);
        FirstPlan(groups, reps, rank, Child(groups, reps, g, 0, i))))
  }

  lemma FirstPlanByKids(groups: seq<Group>, reps: seq<GroupId>, rank: seq<nat>, g: GroupId)
    requires Graph(groups, reps, rank) && Tidy(groups, reps) && IsRoot(reps, g)
    ensures
      var e := Exprs(groups, g)[0];
      var p := FirstPlan(groups, reps, rank, g);
      && Known(reps, g) && HasExpr(groups, g, 0)
      && (forall i | 0 <= i < |e.kids| :: IsRoot(reps, e.kids[i]) && rank[e.kids[i]] < rank[g])
      && (e.tag.GroupRef? ==> |e.kids| == 1 && p == FirstPlan(groups, reps, rank, e.kids[0]))
      && (e.tag.Relational? ==>
            (p.perm == e.perm && p.op == e.tag.op && |p.kids| == |e.kids| &&
             forall i | 0 <= i < |e.kids| :: p.kids[i] == FirstPlan(groups, reps, rank, e.kids[i])))
  {
    var e := Exprs(groups, g)[0];
    assert HasExpr(groups, g, 0) && ValidExpr(reps, e);
    forall i | 0 <= i < |e.kids|
      ensures IsEdge(groups, reps, g, 0, i) && Child(groups, reps, g, 0, i) == e.kids[i]
    {
      assert IsEdge(groups, reps, g, 0, i);
    }
  }

  /** Plan `p` can be read off group `g`: some expression of `g` has its root, and each child
    can be read off the corresponding child group. */
  ghost predicate Derives(groups: seq<Group>, reps: seq<GroupId>, rank: seq<nat>, g: GroupId, p: Plan)
    requires Graph(groups, reps, rank) && IsRoot(reps, g)
    decreases rank[g], 1
  {
    exists j :: HasExpr(groups, g, j) && DerivesBy(groups, reps, rank, g, j, p)
  }

  ghost predicate DerivesBy(groups: seq<Group>, reps: seq<GroupId>, rank: seq<nat>, g: GroupId, j: int, p: Plan)
    requires Graph(groups, reps, rank) && IsRoot(reps, g) && HasExpr(groups, g, j)
    decreases rank[g], 0
  {
    var e := Exprs(groups, g)[j];
    assert ValidExpr(reps, e);
    match e.tag
    case GroupRef =>
      assert IsEdge(groups, reps, g, j, 0);
      Derives(groups, reps, rank, Child(groups, reps, g, j, 0), p)
    case Relational(op) =>
      p.perm == e.perm && p.op == op && |p.kids| == |e.kids| &&
      forall i | 0 <= i < |e.kids| ::
        IsEdge(groups, reps, g, j, i) && Derives(groups, reps, rank, Child(groups, reps, g, j, i), p.kids[i])
  }

  /** Whatever a group stands for denotes what the group denotes. */
  lemma {:induction false} DerivedDen<D(!new)>(groups: seq<Group>, reps: seq<GroupId>, rank: seq<nat>,
                                               sem: Semantics<D>, den: map<GroupId, D>, g: GroupId, p: Plan)
    requires Loose(groups, reps, rank, sem, den) && IsRoot(reps, g) && Derives(groups, reps, rank, g, p)
    ensures PlanDen(sem, p) == den[g]
    decreases rank[g]
  {
    var j :| HasExpr(groups, g, j) && DerivesBy(groups, reps, rank, g, j, p);
    var e := Exprs(groups, g)[j];
    assert ValidExpr(reps, e) && ExprDen(sem, den, e) == den[g];
    forall i | 0 <= i < |e.kids| ensures IsEdge(groups, reps, g, j, i) &&
                                          den[e.kids[i]] == den[Child(groups, reps, g, j, i)] {
      assert IsEdge(groups, reps, g, j, i);
    }
    match e.tag
    case GroupRef =>
      DerivedDen(groups, reps, rank, sem, den, Child(groups, reps, g, j, 0), p);
    case Relational(op) =>
      forall i | 0 <= i < |e.kids| ensures PlanDen(sem, p.kids[i]) == den[e.kids[i]] {
        DerivedDen(groups, reps, rank, sem, den, Child(groups, reps, g, j, i), p.kids[i]);
      }
      assert seq(|p.kids|, i requires 0 <= i < |p.kids| => PlanDen(sem, p.kids[i])) ==
             seq(|e.kids|, i requires 0 <= i < |e.kids| => den[e.kids[i]]);
  }

  lemma {:induction false} FirstPlanDerives(groups: seq<Group>, reps: seq<GroupId>, rank: seq<nat>, g: GroupId)
    requires Graph(groups, reps, rank) && IsRoot(reps, g)
    ensures Derives(groups, reps, rank, g, FirstPlan(groups, reps, rank, g))
    decreases rank[g]
  {
    var e := Exprs(groups, g)[0];
    assert HasExpr(groups, g, 0) && ValidExpr(reps, e);
    forall i | 0 <= i < |e.kids|
      ensures IsEdge(groups, reps, g, 0, i)
      ensures Derives(groups, reps, rank, Child(groups, reps, g, 0, i),
                      FirstPlan(groups, reps, rank, Child(groups, reps, g, 0, i)))
    {
      assert IsEdge(groups, reps, g, 0, i);
      FirstPlanDerives(groups, reps, rank, Child(groups, reps, g, 0, i));
    }
    assert DerivesBy(groups, reps, rank, g, 0, FirstPlan(groups, reps, rank, g));
  }

  // ---------------------------------------------------------------- a memo with inserts only

  /** No group has merged or gained an alternative. */
  ghost predicate Pristine(groups: seq<Group>, reps: seq<GroupId>)
    requires |reps| == |groups| + 1
  {
    forall g | Known(reps, g) :: reps[g] == g && |Exprs(groups, g)| == 1 && Exprs(groups, g)[0].tag.Relational?
  }

  lemma AppendedIsPristine(groups: seq<Group>, reps: seq<GroupId>, e: MemoExpr)
    requires |reps| == |groups| + 1
    ensures Pristine(groups, reps) && e.tag.Relational? ==> Pristine(AppendedGroups(groups, e), reps + [|reps|])
  {
  }

  /** Before any merge, extraction inverts insertion. */
  lemma {:induction false} FirstPlanOfLookup(groups: seq<Group>, reps: seq<GroupId>, rank: seq<nat>,
                                             index: map<MemoExpr, GroupId>, p: Plan)
    requires Graph(groups, reps, rank) && Indexed(groups, reps, index) && Pristine(groups, reps)
    requires Lookup(index, p).Some?
    ensures IsRoot(reps, Lookup(index, p).value)
    ensures FirstPlan(groups, reps, rank, Lookup(index, p).value) == p
  {
    var ids := LookupAll(index, p.kids).value;
    var e := Embed(p, ids);
    var g := index[e];
    assert Exprs(groups, g)[0] == e;
    forall i | 0 <= i < |ids|
      ensures IsEdge(groups, reps, g, 0, i)
      ensures FirstPlan(groups, reps, rank, Child(groups, reps, g, 0, i)) == p.kids[i]
    {
      FirstPlanOfLookup(groups, reps, rank, index, p.kids[i]);
      assert IsEdge(groups, reps, g, 0, i);
      assert Child(groups, reps, g, 0, i) == ids[i];
    }
    assert FirstPlan(groups, reps, rank, g).kids == p.kids;
  }
}
