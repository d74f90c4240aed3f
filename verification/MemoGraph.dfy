/** The memo's state as values: groups of equivalent expressions, a parent table that
  merges groups, and a structural index. This module says what a well-formed memo is
  and how the steps of a merge act on it; `Memo` runs those steps in place.
 */
module MemoGraph {
  import opened Plans
  import opened Sequences

  type GroupId = int

  datatype Tag = Relational(op: Op) | GroupRef

  datatype MemoExpr = MemoExpr(perm: OrderPermission, tag: Tag, kids: seq<GroupId>)

  datatype Group = Group(id: GroupId, exprs: seq<MemoExpr>)

  type Semantics<!D> = (Op, seq<D>) -> D

  // ---------------------------------------------------------------- parent table

  /** A parent never exceeds its id, so every chain of parents ends in a root. */
  predicate RepsOk(reps: seq<GroupId>) {
    |reps| >= 1 && reps[0] == 0 && forall id | 1 <= id < |reps| :: 1 <= reps[id] <= id
  }

  predicate Known(reps: seq<GroupId>, id: GroupId) {
    1 <= id < |reps|
  }

  function Root(reps: seq<GroupId>, id: GroupId): (r: GroupId)
    requires RepsOk(reps) && Known(reps, id)
    ensures Known(reps, r) && reps[r] == r && r <= id
    decreases id
  {
    if reps[id] == id then id else Root(reps, reps[id])
  }

  predicate IsRoot(reps: seq<GroupId>, id: GroupId) {
    Known(reps, id) && reps[id] == id
  }

  /** The number of groups that are still their own representative. */
  function RootCount(reps: seq<GroupId>): (n: nat)
    ensures n <= |reps|
  {
    if reps == [] then 0
    else RootCount(reps[..|reps| - 1]) + if reps[|reps| - 1] == |reps| - 1 then 1 else 0
  }

  lemma {:induction false} RedirectLowersRootCount(reps: seq<GroupId>, loser: GroupId, winner: GroupId)
    requires 0 <= loser < |reps| && reps[loser] == loser && winner != loser
    ensures RootCount(reps[loser := winner]) == RootCount(reps) - 1
  {
    var n := |reps| - 1;
    var after := reps[loser := winner];
    if loser == n {
      assert after[..n] == reps[..n];
    } else {
      assert after[..n] == reps[..n][loser := winner];
      RedirectLowersRootCount(reps[..n], loser, winner);
    }
  }

  /** Redirecting one root sends exactly its class to the other root. */
  lemma {:induction false} RedirectRoot(reps: seq<GroupId>, loser: GroupId, winner: GroupId, id: GroupId)
    requires RepsOk(reps) && IsRoot(reps, loser) && IsRoot(reps, winner) && winner < loser
    requires Known(reps, id)
    ensures RepsOk(reps[loser := winner])
    ensures Root(reps[loser := winner], id) == if Root(reps, id) == loser then winner else Root(reps, id)
    decreases id
  {
    if reps[id] != id {
      RedirectRoot(reps, loser, winner, reps[id]);
    }
  }

  lemma {:induction false} AppendRoot(reps: seq<GroupId>, id: GroupId)
    requires RepsOk(reps) && Known(reps, id)
    ensures RepsOk(reps + [|reps|]) && Root(reps + [|reps|], id) == Root(reps, id)
    decreases id
  {
    if reps[id] != id {
      AppendRoot(reps, reps[id]);
    }
  }

  // ---------------------------------------------------------------- expressions

  predicate KidsKnown(reps: seq<GroupId>, e: MemoExpr) {
    forall i | 0 <= i < |e.kids| :: Known(reps, e.kids[i])
  }

  /** Field checks and known children. */
  predicate ValidExpr(reps: seq<GroupId>, e: MemoExpr) {
    KidsKnown(reps, e) &&
    match e.tag
    case Relational(op) => ValidOp(op) && |e.kids| == Arity(op)
    case GroupRef => |e.kids| == 1
  }

  function Canon(reps: seq<GroupId>, e: MemoExpr): (c: MemoExpr)
    requires RepsOk(reps) && KidsKnown(reps, e)
    ensures c.perm == e.perm && c.tag == e.tag && |c.kids| == |e.kids|
    ensures forall i | 0 <= i < |e.kids| :: c.kids[i] == Root(reps, e.kids[i])
  {
    e.(kids := seq(|e.kids|, i requires 0 <= i < |e.kids| => Root(reps, e.kids[i])))
  }

  predicate CanonicalKids(reps: seq<GroupId>, e: MemoExpr) {
    forall i | 0 <= i < |e.kids| :: IsRoot(reps, e.kids[i])
  }

  lemma CanonOfCanonical(reps: seq<GroupId>, e: MemoExpr)
    requires RepsOk(reps) && CanonicalKids(reps, e)
    ensures KidsKnown(reps, e) && Canon(reps, e) == e
  {
    assert Canon(reps, e).kids == e.kids;
  }

  function Alias(root: GroupId, perm: OrderPermission): (e: MemoExpr)
    ensures e.perm == perm && e.tag.GroupRef? && e.kids == [root]
  {
    MemoExpr(perm, GroupRef, [root])
  }

  // ---------------------------------------------------------------- groups

  function Exprs(groups: seq<Group>, g: GroupId): seq<MemoExpr>
    requires 1 <= g <= |groups|
  {
    groups[g - 1].exprs
  }

  predicate HasExpr(groups: seq<Group>, g: GroupId, j: int)
    requires 1 <= g <= |groups|
  {
    0 <= j < |Exprs(groups, g)|
  }

  ghost predicate Numbered(groups: seq<Group>) {
    forall i | 0 <= i < |groups| :: groups[i].id == i + 1
  }

  function WithExprs(groups: seq<Group>, g: GroupId, exprs: seq<MemoExpr>): (r: seq<Group>)
    requires 1 <= g <= |groups|
    ensures |r| == |groups|
    ensures Numbered(groups) ==> Numbered(r)
    ensures forall h | 1 <= h <= |groups| :: Exprs(r, h) == if h == g then exprs else Exprs(groups, h)
  {
    groups[g - 1 := groups[g - 1].(exprs := exprs)]
  }

  ghost predicate Shape(groups: seq<Group>, reps: seq<GroupId>) {
    && RepsOk(reps)
    && |reps| == |groups| + 1
    && Numbered(groups)
    && (forall g, j | Known(reps, g) && HasExpr(groups, g, j) :: ValidExpr(reps, Exprs(groups, g)[j]))
    && (forall g | IsRoot(reps, g) :: HasExpr(groups, g, 0))
  }

  /** Representative `g` has an edge to the representative of child `i` of its expression `j`. */
  predicate IsEdge(groups: seq<Group>, reps: seq<GroupId>, g: GroupId, j: int, i: int)
    requires |reps| == |groups| + 1
  {
    IsRoot(reps, g) && HasExpr(groups, g, j) && 0 <= i < |Exprs(groups, g)[j].kids|
  }

  function Child(groups: seq<Group>, reps: seq<GroupId>, g: GroupId, j: int, i: int): (r: GroupId)
    requires Shape(groups, reps) && IsEdge(groups, reps, g, j, i)
    ensures IsRoot(reps, r)
  {
    assert ValidExpr(reps, Exprs(groups, g)[j]);
    Root(reps, Exprs(groups, g)[j].kids[i])
  }

  /** Every edge goes down in rank. */
  ghost predicate Acyclic(groups: seq<Group>, reps: seq<GroupId>, rank: seq<nat>)
    requires Shape(groups, reps)
  {
    |rank| == |reps| &&
    forall g: GroupId, j, i | IsEdge(groups, reps, g, j, i) :: rank[Child(groups, reps, g, j, i)] < rank[g]
  }

  ghost predicate Denoted<D>(den: map<GroupId, D>, e: MemoExpr) {
    (forall i | 0 <= i < |e.kids| :: e.kids[i] in den) && (e.tag.GroupRef? ==> |e.kids| == 1)
  }

  /** What an expression denotes when its children denote `den`; a reference denotes its target. */
  ghost function ExprDen<D>(sem: Semantics<D>, den: map<GroupId, D>, e: MemoExpr): D
    requires Denoted(den, e)
  {
    match e.tag
    case Relational(op) => sem(op, seq(|e.kids|, i requires 0 <= i < |e.kids| => den[e.kids[i]]))
    case GroupRef => den[e.kids[0]]
  }

  /** Every expression of a group denotes the group, and merged groups denote the same. */
  ghost predicate Sound<D(!new)>(groups: seq<Group>, reps: seq<GroupId>, sem: Semantics<D>, den: map<GroupId, D>)
    requires Shape(groups, reps)
  {
    && (forall g :: g in den <==> Known(reps, g))
    && (forall g | Known(reps, g) :: den[g] == den[Root(reps, g)])
    && (forall g, j | Known(reps, g) && HasExpr(groups, g, j) :: ExprDen(sem, den, Exprs(groups, g)[j]) == den[g])
  }

  /** What holds between the steps of a merge, when children may not be canonical yet. */
  ghost predicate Loose<D(!new)>(groups: seq<Group>, reps: seq<GroupId>, rank: seq<nat>,
                                 sem: Semantics<D>, den: map<GroupId, D>) {
    && RepsOk(reps) && |groups| + 1 == |reps| == |rank|
    && Shape(groups, reps) && Acyclic(groups, reps, rank) && Sound(groups, reps, sem, den)
  }

  /** Children are canonical, losers hold one alias to their representative, no group repeats an expression. */
  ghost predicate Tidy(groups: seq<Group>, reps: seq<GroupId>)
    requires Shape(groups, reps)
  {
    && (forall g, j | Known(reps, g) && HasExpr(groups, g, j) :: CanonicalKids(reps, Exprs(groups, g)[j]))
    && (forall g | Known(reps, g) :: Unrepeated(Exprs(groups, g)))
    && (forall g | Known(reps, g) && !IsRoot(reps, g) ::
          HasExpr(groups, g, 0) && Exprs(groups, g) == [Alias(Root(reps, g), Exprs(groups, g)[0].perm)])
  }

  /** The index maps exactly the representatives' expressions, each to its one owner. */
  ghost predicate Indexed(groups: seq<Group>, reps: seq<GroupId>, index: map<MemoExpr, GroupId>)
    requires |reps| == |groups| + 1
  {
    && (forall g, j | IsRoot(reps, g) && HasExpr(groups, g, j) ::
          Exprs(groups, g)[j] in index && index[Exprs(groups, g)[j]] == g)
    && (forall e | e in index :: IsRoot(reps, index[e]) && e in Exprs(groups, index[e]))
  }

  ghost predicate WellFormed<D(!new)>(groups: seq<Group>, reps: seq<GroupId>, index: map<MemoExpr, GroupId>,
                                      rank: seq<nat>, sem: Semantics<D>, den: map<GroupId, D>) {
    Loose(groups, reps, rank, sem, den) && Tidy(groups, reps) && Indexed(groups, reps, index)
  }

  // ---------------------------------------------------------------- identity across mutations

  /** Group `g` holds an expression that agrees with `e` up to representatives of children. */
  ghost predicate HasCanon(groups: seq<Group>, reps: seq<GroupId>, g: GroupId, e: MemoExpr)
    requires Shape(groups, reps) && Known(reps, g)
  {
    KidsKnown(reps, e) &&
    exists j :: HasExpr(groups, g, j) && Canon(reps, Exprs(groups, g)[j]) == Canon(reps, e)
  }

  ghost predicate Refines(reps0: seq<GroupId>, reps1: seq<GroupId>) {
    && RepsOk(reps0) && RepsOk(reps1) && |reps0| <= |reps1|
    && forall g | Known(reps0, g) :: Root(reps1, Root(reps0, g)) == Root(reps1, g)
  }

  /** Later parents refine earlier ones, and no expression of a representative is lost:
    its canonical form stays in the class of its group. */
  ghost predicate Keeps(groups0: seq<Group>, reps0: seq<GroupId>, groups1: seq<Group>, reps1: seq<GroupId>) {
    && Shape(groups0, reps0) && Shape(groups1, reps1) && Refines(reps0, reps1)
    && (forall g, j | IsRoot(reps0, g) && HasExpr(groups0, g, j) ::
          HasCanon(groups1, reps1, Root(reps1, g), Exprs(groups0, g)[j]))
  }

  lemma KeepsReflexive(groups: seq<Group>, reps: seq<GroupId>)
    requires Shape(groups, reps)
    ensures Keeps(groups, reps, groups, reps)
  {
    forall g, j | IsRoot(reps, g) && HasExpr(groups, g, j)
      ensures HasCanon(groups, reps, Root(reps, g), Exprs(groups, g)[j])
    {
      assert ValidExpr(reps, Exprs(groups, g)[j]);
    }
  }

  /** Expressions with one canonical form keep having one under a later table. */
  lemma CanonThrough(reps0: seq<GroupId>, reps1: seq<GroupId>, e: MemoExpr, f: MemoExpr)
    requires Refines(reps0, reps1)
    requires KidsKnown(reps0, e) && KidsKnown(reps0, f) && Canon(reps0, e) == Canon(reps0, f)
    ensures KidsKnown(reps1, e) && KidsKnown(reps1, f) && Canon(reps1, e) == Canon(reps1, f)
  {
    var c := Canon(reps0, e);
    forall i | 0 <= i < |e.kids| ensures Canon(reps1, e).kids[i] == Canon(reps1, f).kids[i] {
      assert Root(reps0, e.kids[i]) == c.kids[i] == Root(reps0, f.kids[i]);
    }
    assert Canon(reps1, e).kids == Canon(reps1, f).kids;
  }

  lemma KeepsTransitive(groups0: seq<Group>, reps0: seq<GroupId>, groups1: seq<Group>, reps1: seq<GroupId>,
                        groups2: seq<Group>, reps2: seq<GroupId>)
    requires Keeps(groups0, reps0, groups1, reps1) && Keeps(groups1, reps1, groups2, reps2)
    ensures Keeps(groups0, reps0, groups2, reps2)
  {
    forall g | Known(reps0, g) ensures Root(reps2, Root(reps0, g)) == Root(reps2, g) {
      assert Root(reps1, Root(reps0, g)) == Root(reps1, g);
      assert Root(reps2, Root(reps1, Root(reps0, g))) == Root(reps2, Root(reps0, g));
      assert Root(reps2, Root(reps1, g)) == Root(reps2, g);
    }
    forall g, j | IsRoot(reps0, g) && HasExpr(groups0, g, j)
      ensures HasCanon(groups2, reps2, Root(reps2, g), Exprs(groups0, g)[j])
    {
      var e := Exprs(groups0, g)[j];
      var g1 := Root(reps1, g);
      assert HasCanon(groups1, reps1, g1, e);
      var j1 :| HasExpr(groups1, g1, j1) && Canon(reps1, Exprs(groups1, g1)[j1]) == Canon(reps1, e);
      var f := Exprs(groups1, g1)[j1];
      assert HasCanon(groups2, reps2, Root(reps2, g1), f);
      assert Root(reps2, g1) == Root(reps2, g);
      CanonThrough(reps1, reps2, f, e);
    }
  }

  // ---------------------------------------------------------------- reachability

  /** `target` can be reached from representative `from` along edges. */
  ghost predicate Reaches(groups: seq<Group>, reps: seq<GroupId>, rank: seq<nat>, from: GroupId, target: GroupId)
    requires Shape(groups, reps) && Acyclic(groups, reps, rank) && IsRoot(reps, from)
    decreases rank[from]
  {
    from == target ||
    exists j, i :: IsEdge(groups, reps, from, j, i) &&
                   Reaches(groups, reps, rank, Child(groups, reps, from, j, i), target)
  }

  lemma {:induction false} ReachesLowers(groups: seq<Group>, reps: seq<GroupId>, rank: seq<nat>,
                                         from: GroupId, target: GroupId)
    requires Shape(groups, reps) && Acyclic(groups, reps, rank) && IsRoot(reps, from)
    requires Reaches(groups, reps, rank, from, target)
    ensures IsRoot(reps, target) && (from == target || rank[target] < rank[from])
    decreases rank[from]
  {
    if from != target {
      var j, i :| IsEdge(groups, reps, from, j, i) &&
                  Reaches(groups, reps, rank, Child(groups, reps, from, j, i), target);
      ReachesLowers(groups, reps, rank, Child(groups, reps, from, j, i), target);
    }
  }

  lemma {:induction false} ReachesStep(groups: seq<Group>, reps: seq<GroupId>, rank: seq<nat>,
                                       from: GroupId, mid: GroupId, j: nat, i: nat)
    requires Shape(groups, reps) && Acyclic(groups, reps, rank) && IsRoot(reps, from)
    requires Reaches(groups, reps, rank, from, mid) && IsEdge(groups, reps, mid, j, i)
    ensures Reaches(groups, reps, rank, from, Child(groups, reps, mid, j, i))
    decreases rank[from]
  {
    var k := Child(groups, reps, mid, j, i);
    if from == mid {
      assert Reaches(groups, reps, rank, k, k);
    } else {
      var j0, i0 :| IsEdge(groups, reps, from, j0, i0) &&
                    Reaches(groups, reps, rank, Child(groups, reps, from, j0, i0), mid);
      ReachesStep(groups, reps, rank, Child(groups, reps, from, j0, i0), mid, j, i);
    }
  }

  function MaxRank(rank: seq<nat>): (m: nat)
    ensures forall i | 0 <= i < |rank| :: rank[i] <= m
  {
    if rank == [] then 0
    else
      var m := MaxRank(rank[..|rank| - 1]);
      if rank[|rank| - 1] > m then rank[|rank| - 1] else m
  }

  // ---------------------------------------------------------------- merging two groups

  /** The groups after `l`'s expressions move behind `w`'s. */
  function MergedGroups(groups: seq<Group>, w: GroupId, l: GroupId): (r: seq<Group>)
    requires 1 <= w < l <= |groups|
    ensures |r| == |groups|
    ensures forall g | 1 <= g <= |groups| ::
      Exprs(r, g) == if g == w then Exprs(groups, w) + Exprs(groups, l) else if g == l then [] else Exprs(groups, g)
  {
    groups[w - 1 := groups[w - 1].(exprs := Exprs(groups, w) + Exprs(groups, l))]
          [l - 1 := groups[l - 1].(exprs := [])]
  }

  /** Where expression `j` of group `g` was before the merge. */
  function SourceOf(groups: seq<Group>, w: GroupId, l: GroupId, g: GroupId, j: nat): (GroupId, nat)
    requires 1 <= w < l <= |groups|
  {
    var n := |Exprs(groups, w)|;
    if g == w && j >= n then (l, j - n) else (g, j)
  }

  lemma MergedShape(groups: seq<Group>, reps: seq<GroupId>, w: GroupId, l: GroupId)
    requires Shape(groups, reps) && IsRoot(reps, w) && IsRoot(reps, l) && w < l
    ensures Shape(MergedGroups(groups, w, l), reps[l := w])
  {
    var groups', reps' := MergedGroups(groups, w, l), reps[l := w];
    forall g, j | Known(reps', g) && HasExpr(groups', g, j) ensures ValidExpr(reps', Exprs(groups', g)[j]) {
      var (g0, j0) := SourceOf(groups, w, l, g, j);
      assert Exprs(groups', g)[j] == Exprs(groups, g0)[j0] && HasExpr(groups, g0, j0);
      assert ValidExpr(reps, Exprs(groups, g0)[j0]);
    }
    forall g | IsRoot(reps', g) ensures HasExpr(groups', g, 0) {
      assert IsRoot(reps, g) && HasExpr(groups, g, 0);
    }
  }

  /** Ranks after groups `w` and `l` become one: what lies below either keeps its rank,
    the merged group comes next, everything else goes above it. */
  ghost function MergedRankAt(groups: seq<Group>, reps: seq<GroupId>, rank: seq<nat>, w: GroupId, l: GroupId, x: GroupId): nat
    requires Shape(groups, reps) && Acyclic(groups, reps, rank) && IsRoot(reps, w) && IsRoot(reps, l) && 0 <= x < |rank|
  {
    if x == w || x == l then MaxRank(rank) + 1
    else if Reaches(groups, reps, rank, w, x) || Reaches(groups, reps, rank, l, x) then rank[x]
    else MaxRank(rank) + 2 + rank[x]
  }

  ghost function MergedRank(groups: seq<Group>, reps: seq<GroupId>, rank: seq<nat>, w: GroupId, l: GroupId): (r: seq<nat>)
    requires Shape(groups, reps) && Acyclic(groups, reps, rank) && IsRoot(reps, w) && IsRoot(reps, l)
    ensures |r| == |rank| && forall x | 0 <= x < |r| :: r[x] == MergedRankAt(groups, reps, rank, w, l, x)
  {
    seq(|rank|, x requires 0 <= x < |rank| => MergedRankAt(groups, reps, rank, w, l, x))
  }

  /** Contracting two representatives that do not reach each other keeps the graph acyclic. */
  lemma MergeKeepsAcyclic(groups: seq<Group>, reps: seq<GroupId>, rank: seq<nat>, w: GroupId, l: GroupId)
    requires Shape(groups, reps) && Acyclic(groups, reps, rank)
    requires IsRoot(reps, w) && IsRoot(reps, l) && w < l
    requires !Reaches(groups, reps, rank, w, l) && !Reaches(groups, reps, rank, l, w)
    ensures Shape(MergedGroups(groups, w, l), reps[l := w])
    ensures Acyclic(MergedGroups(groups, w, l), reps[l := w], MergedRank(groups, reps, rank, w, l))
  {
    MergedShape(groups, reps, w, l);
    var groups', reps' := MergedGroups(groups, w, l), reps[l := w];
    forall g: GroupId, j, i | IsEdge(groups', reps', g, j, i)
      ensures MergedRank(groups, reps, rank, w, l)[Child(groups', reps', g, j, i)] <
              MergedRank(groups, reps, rank, w, l)[g]
    {
      var (g0, j0) := SourceOf(groups, w, l, g, j);
      MergedChild(groups, reps, w, l, g, j, i);
      MergedRankLowers(groups, reps, rank, w, l, g0, j0, i);
    }
  }

  /** An edge after the merge comes from an edge before it. */
  lemma MergedChild(groups: seq<Group>, reps: seq<GroupId>, w: GroupId, l: GroupId, g: GroupId, j: int, i: int)
    requires Shape(groups, reps) && IsRoot(reps, w) && IsRoot(reps, l) && w < l
    requires Shape(MergedGroups(groups, w, l), reps[l := w])
    requires IsEdge(MergedGroups(groups, w, l), reps[l := w], g, j, i)
    ensures g != l && IsRoot(reps, g)
    ensures
      var (g0, j0) := SourceOf(groups, w, l, g, j);
      && IsEdge(groups, reps, g0, j0, i) && (g0 == g || (g == w && g0 == l))
      && (var k := Child(groups, reps, g0, j0, i);
          Child(MergedGroups(groups, w, l), reps[l := w], g, j, i) == if k == l then w else k)
  {
    var (g0, j0) := SourceOf(groups, w, l, g, j);
    assert Exprs(MergedGroups(groups, w, l), g)[j] == Exprs(groups, g0)[j0];
    assert IsEdge(groups, reps, g0, j0, i);
    assert ValidExpr(reps, Exprs(groups, g0)[j0]);
    RedirectRoot(reps, l, w, Exprs(groups, g0)[j0].kids[i]);
  }

  /** The new ranks go down along every old edge. */
  lemma MergedRankLowers(groups: seq<Group>, reps: seq<GroupId>, rank: seq<nat>, w: GroupId, l: GroupId,
                         g: GroupId, j: int, i: int)
    requires Shape(groups, reps) && Acyclic(groups, reps, rank)
    requires IsRoot(reps, w) && IsRoot(reps, l) && w != l
    requires !Reaches(groups, reps, rank, w, l) && !Reaches(groups, reps, rank, l, w)
    requires IsEdge(groups, reps, g, j, i)
    ensures MergedRankAt(groups, reps, rank, w, l, Child(groups, reps, g, j, i)) <
            MergedRankAt(groups, reps, rank, w, l, g)
  {
    assert rank[Child(groups, reps, g, j, i)] < rank[g] <= MaxRank(rank);
    hide Shape, Acyclic, MaxRank, Child;
    if Reaches(groups, reps, rank, w, g) {
      ReachesLowers(groups, reps, rank, w, g);
      ReachesStep(groups, reps, rank, w, g, j, i);
    } else if Reaches(groups, reps, rank, l, g) {
      ReachesLowers(groups, reps, rank, l, g);
      ReachesStep(groups, reps, rank, l, g, j, i);
    }
  }

  /** Merging two groups that denote the same keeps every meaning. */
  lemma MergeKeepsSound<D(!new)>(groups: seq<Group>, reps: seq<GroupId>, sem: Semantics<D>, den: map<GroupId, D>,
                                 w: GroupId, l: GroupId)
    requires Shape(groups, reps) && Sound(groups, reps, sem, den)
    requires IsRoot(reps, w) && IsRoot(reps, l) && w < l && den[w] == den[l]
    ensures Shape(MergedGroups(groups, w, l), reps[l := w])
    ensures Sound(MergedGroups(groups, w, l), reps[l := w], sem, den)
  {
    MergedShape(groups, reps, w, l);
    var groups', reps' := MergedGroups(groups, w, l), reps[l := w];
    forall g | Known(reps', g) ensures g in den && den[g] == den[Root(reps', g)] {
      RedirectRoot(reps, l, w, g);
      assert Known(reps, g);
    }
    forall g, j | Known(reps', g) && HasExpr(groups', g, j)
      ensures Denoted(den, Exprs(groups', g)[j]) && ExprDen(sem, den, Exprs(groups', g)[j]) == den[g]
    {
      var (g0, j0) := SourceOf(groups, w, l, g, j);
      assert Known(reps, g0) && HasExpr(groups, g0, j0) && Exprs(groups', g)[j] == Exprs(groups, g0)[j0];
    }
  }

  lemma MergeKeeps(groups: seq<Group>, reps: seq<GroupId>, w: GroupId, l: GroupId)
    requires Shape(groups, reps) && IsRoot(reps, w) && IsRoot(reps, l) && w < l
    ensures Keeps(groups, reps, MergedGroups(groups, w, l), reps[l := w])
  {
    MergedShape(groups, reps, w, l);
    var groups', reps' := MergedGroups(groups, w, l), reps[l := w];
    forall g | Known(reps, g) ensures Root(reps', Root(reps, g)) == Root(reps', g) {
      RedirectRoot(reps, l, w, g);
      RedirectRoot(reps, l, w, Root(reps, g));
    }
    forall g, j | IsRoot(reps, g) && HasExpr(groups, g, j)
      ensures HasCanon(groups', reps', Root(reps', g), Exprs(groups, g)[j])
    {
      RedirectRoot(reps, l, w, g);
      var j' := if g == l then |Exprs(groups, w)| + j else j;
      assert HasExpr(groups', Root(reps', g), j');
      assert Exprs(groups', Root(reps', g))[j'] == Exprs(groups, g)[j];
      assert ValidExpr(reps, Exprs(groups, g)[j]);
    }
  }

  /** A merge of two equal denotations that do not reach each other keeps the memo's meaning. */
  lemma MergeKeepsLoose<D(!new)>(groups: seq<Group>, reps: seq<GroupId>, rank: seq<nat>,
                                 sem: Semantics<D>, den: map<GroupId, D>, w: GroupId, l: GroupId)
    requires Loose(groups, reps, rank, sem, den) && IsRoot(reps, w) && IsRoot(reps, l) && w < l && den[w] == den[l]
    requires !Reaches(groups, reps, rank, w, l) && !Reaches(groups, reps, rank, l, w)
    ensures Loose(MergedGroups(groups, w, l), reps[l := w], MergedRank(groups, reps, rank, w, l), sem, den)
    ensures Keeps(groups, reps, MergedGroups(groups, w, l), reps[l := w])
    ensures RootCount(reps[l := w]) < RootCount(reps)
  {
    MergeKeepsAcyclic(groups, reps, rank, w, l);
    MergeKeepsSound(groups, reps, sem, den, w, l);
    MergeKeeps(groups, reps, w, l);
    RedirectLowersRootCount(reps, l, w);
  }

  // ---------------------------------------------------------------- tidying

  function CanonAll(reps: seq<GroupId>, exprs: seq<MemoExpr>): (r: seq<MemoExpr>)
    requires RepsOk(reps) && forall i | 0 <= i < |exprs| :: KidsKnown(reps, exprs[i])
    ensures |r| == |exprs| && forall i | 0 <= i < |exprs| :: r[i] == Canon(reps, exprs[i])
  {
    seq(|exprs|, i requires 0 <= i < |exprs| => Canon(reps, exprs[i]))
  }

  lemma GroupKidsKnown(groups: seq<Group>, reps: seq<GroupId>, g: GroupId)
    requires Shape(groups, reps) && Known(reps, g)
    ensures forall j | 0 <= j < |Exprs(groups, g)| :: KidsKnown(reps, Exprs(groups, g)[j])
  {
    forall j | 0 <= j < |Exprs(groups, g)| ensures KidsKnown(reps, Exprs(groups, g)[j]) {
      assert HasExpr(groups, g, j) && ValidExpr(reps, Exprs(groups, g)[j]);
    }
  }

  /** The expressions of group `g` once losers are aliased to their representative. */
  function MarkedExprs(groups: seq<Group>, reps: seq<GroupId>, g: GroupId): (r: seq<MemoExpr>)
    requires Shape(groups, reps) && Known(reps, g)
  {
    if IsRoot(reps, g) then Exprs(groups, g)
    else
      assert HasExpr(groups, Root(reps, g), 0);
      [Alias(Root(reps, g), Exprs(groups, Root(reps, g))[0].perm)]
  }

  lemma MarkedAt(groups: seq<Group>, reps: seq<GroupId>, g: GroupId)
    requires Shape(groups, reps) && Known(reps, g)
    ensures HasExpr(groups, Root(reps, g), 0)
    ensures MarkedExprs(groups, reps, Root(reps, g)) == Exprs(groups, Root(reps, g))
    ensures MarkedExprs(groups, reps, g) ==
            if Root(reps, g) == g then Exprs(groups, g)
            else [Alias(Root(reps, g), Exprs(groups, Root(reps, g))[0].perm)]
    ensures forall j | 0 <= j < |MarkedExprs(groups, reps, g)| :: KidsKnown(reps, MarkedExprs(groups, reps, g)[j])
  {
    assert IsRoot(reps, Root(reps, g));
    GroupKidsKnown(groups, reps, g);
  }

  /** The expressions of group `g` once losers are aliased, children canonical and duplicates gone. */
  function TidyExprs(groups: seq<Group>, reps: seq<GroupId>, g: GroupId): seq<MemoExpr>
    requires Shape(groups, reps) && Known(reps, g)
  {
    GroupKidsKnown(groups, reps, g);
    if IsRoot(reps, g) then Dedup(CanonAll(reps, Exprs(groups, g))) else MarkedExprs(groups, reps, g)
  }

  ghost predicate Tidied(groups: seq<Group>, reps: seq<GroupId>, groups': seq<Group>)
    requires Shape(groups, reps)
  {
    && |groups'| == |groups|
    && (forall i | 0 <= i < |groups| :: groups'[i].id == i + 1)
    && (forall g | Known(reps, g) :: Exprs(groups', g) == TidyExprs(groups, reps, g))
  }

  /** Each tidied expression of a representative is the canonical form of an earlier one. */
  lemma TidiedMember(groups: seq<Group>, reps: seq<GroupId>, groups': seq<Group>, g: GroupId, j: nat) returns (src: nat)
    requires Shape(groups, reps) && Tidied(groups, reps, groups')
    requires IsRoot(reps, g) && HasExpr(groups', g, j)
    ensures HasExpr(groups, g, src) && ValidExpr(reps, Exprs(groups, g)[src])
    ensures Exprs(groups', g)[j] == Canon(reps, Exprs(groups, g)[src])
  {
    GroupKidsKnown(groups, reps, g);
    var all := CanonAll(reps, Exprs(groups, g));
    assert Exprs(groups', g)[j] in Dedup(all);
    src :| 0 <= src < |all| && all[src] == Exprs(groups', g)[j];
    assert HasExpr(groups, g, src);
  }

  lemma CanonIsValid(reps: seq<GroupId>, e: MemoExpr)
    requires RepsOk(reps) && KidsKnown(reps, e)
    ensures KidsKnown(reps, Canon(reps, e)) && CanonicalKids(reps, Canon(reps, e))
    ensures ValidExpr(reps, Canon(reps, e)) <==> ValidExpr(reps, e)
    ensures Canon(reps, Canon(reps, e)) == Canon(reps, e)
  {
    CanonOfCanonical(reps, Canon(reps, e));
  }

  lemma TidiedShape(groups: seq<Group>, reps: seq<GroupId>, groups': seq<Group>)
    requires Shape(groups, reps) && Tidied(groups, reps, groups')
    ensures Shape(groups', reps) && Tidy(groups', reps)
  {
    forall g, j | Known(reps, g) && HasExpr(groups', g, j)
      ensures ValidExpr(reps, Exprs(groups', g)[j]) && CanonicalKids(reps, Exprs(groups', g)[j])
    {
      if IsRoot(reps, g) {
        var src := TidiedMember(groups, reps, groups', g, j);
        CanonIsValid(reps, Exprs(groups, g)[src]);
      }
    }
    forall g | IsRoot(reps, g) ensures HasExpr(groups', g, 0) {
      assert HasExpr(groups, g, 0);
      GroupKidsKnown(groups, reps, g);
      assert CanonAll(reps, Exprs(groups, g)) != [];
    }
  }

  lemma CanonKeepsDen<D>(reps: seq<GroupId>, sem: Semantics<D>, den: map<GroupId, D>, e: MemoExpr)
    requires RepsOk(reps) && ValidExpr(reps, e)
    requires forall g | Known(reps, g) :: g in den
    requires forall g | Known(reps, g) :: den[g] == den[Root(reps, g)]
    ensures Denoted(den, e) && Denoted(den, Canon(reps, e))
    ensures ExprDen(sem, den, Canon(reps, e)) == ExprDen(sem, den, e)
  {
    var c := Canon(reps, e);
    forall i | 0 <= i < |e.kids| ensures c.kids[i] in den && den[c.kids[i]] == den[e.kids[i]] {
      assert Known(reps, e.kids[i]);
    }
    if e.tag.Relational? {
      assert seq(|c.kids|, i requires 0 <= i < |c.kids| => den[c.kids[i]]) ==
             seq(|e.kids|, i requires 0 <= i < |e.kids| => den[e.kids[i]]);
    }
  }

  lemma TidiedKeeps(groups: seq<Group>, reps: seq<GroupId>, groups': seq<Group>)
    requires Shape(groups, reps) && Tidied(groups, reps, groups')
    ensures Keeps(groups, reps, groups', reps)
  {
    TidiedShape(groups, reps, groups');
    forall g, j | IsRoot(reps, g) && HasExpr(groups, g, j)
      ensures HasCanon(groups', reps, Root(reps, g), Exprs(groups, g)[j])
    {
      GroupKidsKnown(groups, reps, g);
      var all := CanonAll(reps, Exprs(groups, g));
      assert all[j] in all && all[j] in Exprs(groups', g);
      var j' :| 0 <= j' < |Exprs(groups', g)| && Exprs(groups', g)[j'] == all[j];
      assert HasExpr(groups', g, j') && ValidExpr(reps, Exprs(groups, g)[j]);
      CanonIsValid(reps, Exprs(groups, g)[j]);
    }
  }

  /** Tidying changes neither meanings, nor ranks, nor which expressions a class holds. */
  lemma TidiedKeepsLoose<D(!new)>(groups: seq<Group>, reps: seq<GroupId>, rank: seq<nat>,
                                  sem: Semantics<D>, den: map<GroupId, D>, groups': seq<Group>)
    requires Loose(groups, reps, rank, sem, den) && Tidied(groups, reps, groups')
    ensures Loose(groups', reps, rank, sem, den) && Tidy(groups', reps)
  {
    TidiedShape(groups, reps, groups');
    forall g: GroupId, j, i | IsEdge(groups', reps, g, j, i) ensures rank[Child(groups', reps, g, j, i)] < rank[g] {
      var src := TidiedMember(groups, reps, groups', g, j);
      assert IsEdge(groups, reps, g, src, i);
      assert Child(groups', reps, g, j, i) == Child(groups, reps, g, src, i);
    }
    forall g, j | Known(reps, g) && HasExpr(groups', g, j)
      ensures Denoted(den, Exprs(groups', g)[j]) && ExprDen(sem, den, Exprs(groups', g)[j]) == den[g]
    {
      if IsRoot(reps, g) {
        var src := TidiedMember(groups, reps, groups', g, j);
        CanonKeepsDen(reps, sem, den, Exprs(groups, g)[src]);
      }
    }
  }

  /** Tidying a tidy memo leaves its representatives as they are. */
  lemma TidiedIsStable(groups: seq<Group>, reps: seq<GroupId>, groups': seq<Group>)
    requires Shape(groups, reps) && Tidy(groups, reps) && Tidied(groups, reps, groups')
    ensures forall g | IsRoot(reps, g) :: Exprs(groups', g) == Exprs(groups, g)
  {
    forall g | IsRoot(reps, g) ensures Exprs(groups', g) == Exprs(groups, g) {
      var exprs := Exprs(groups, g);
      GroupKidsKnown(groups, reps, g);
      forall j | 0 <= j < |exprs| ensures CanonAll(reps, exprs)[j] == exprs[j] {
        assert HasExpr(groups, g, j);
        CanonOfCanonical(reps, exprs[j]);
      }
      assert CanonAll(reps, exprs) == exprs;
      DedupOfUnrepeated(exprs);
    }
  }

  // ---------------------------------------------------------------- adding an expression

  /** Ranks after group `g` gains edges to representatives that do not reach it. */
  ghost function ExtendedRank(groups: seq<Group>, reps: seq<GroupId>, rank: seq<nat>, g: GroupId): (r: seq<nat>)
    requires Shape(groups, reps) && Acyclic(groups, reps, rank)
    ensures |r| == |rank|
  {
    seq(|rank|, x requires 0 <= x < |rank| =>
      if IsRoot(reps, x) && Reaches(groups, reps, rank, x, g) then MaxRank(rank) + 1 + rank[x] else rank[x])
  }

  function ExtendedGroups(groups: seq<Group>, g: GroupId, e: MemoExpr): (r: seq<Group>)
    requires 1 <= g <= |groups|
    ensures |r| == |groups|
    ensures forall h | 1 <= h <= |groups| :: Exprs(r, h) == Exprs(groups, h) + if h == g then [e] else []
  {
    groups[g - 1 := groups[g - 1].(exprs := Exprs(groups, g) + [e])]
  }

  lemma ExtendedShape(groups: seq<Group>, reps: seq<GroupId>, g: GroupId, e: MemoExpr)
    requires Shape(groups, reps) && IsRoot(reps, g) && ValidExpr(reps, e)
    ensures Shape(ExtendedGroups(groups, g, e), reps)
    ensures Keeps(groups, reps, ExtendedGroups(groups, g, e), reps)
  {
    var groups' := ExtendedGroups(groups, g, e);
    forall h, j | Known(reps, h) && HasExpr(groups', h, j) ensures ValidExpr(reps, Exprs(groups', h)[j]) {
      if HasExpr(groups, h, j) {
        assert ValidExpr(reps, Exprs(groups, h)[j]);
      }
    }
    forall h | IsRoot(reps, h) ensures HasExpr(groups', h, 0) {
      assert HasExpr(groups, h, 0);
    }
    forall h, j | IsRoot(reps, h) && HasExpr(groups, h, j)
      ensures HasCanon(groups', reps, Root(reps, h), Exprs(groups, h)[j])
    {
      assert ValidExpr(reps, Exprs(groups, h)[j]);
      assert HasExpr(groups', h, j) && Exprs(groups', h)[j] == Exprs(groups, h)[j];
    }
  }

  /** A new edge to groups that do not reach `g` keeps the graph acyclic. */
  lemma ExtendKeepsAcyclic(groups: seq<Group>, reps: seq<GroupId>, rank: seq<nat>, g: GroupId, e: MemoExpr)
    requires Shape(groups, reps) && Acyclic(groups, reps, rank) && IsRoot(reps, g) && ValidExpr(reps, e)
    requires forall i | 0 <= i < |e.kids| :: !Reaches(groups, reps, rank, Root(reps, e.kids[i]), g)
    ensures Shape(ExtendedGroups(groups, g, e), reps)
    ensures Acyclic(ExtendedGroups(groups, g, e), reps, ExtendedRank(groups, reps, rank, g))
  {
    ExtendedShape(groups, reps, g, e);
    var groups', rank' := ExtendedGroups(groups, g, e), ExtendedRank(groups, reps, rank, g);
    forall h: GroupId, j, i | IsEdge(groups', reps, h, j, i) ensures rank'[Child(groups', reps, h, j, i)] < rank'[h] {
      ExtendedEdgeLowers(groups, reps, rank, g, e, h, j, i);
    }
  }

  lemma ExtendedEdgeLowers(groups: seq<Group>, reps: seq<GroupId>, rank: seq<nat>, g: GroupId, e: MemoExpr,
                           h: GroupId, j: int, i: int)
    requires Shape(groups, reps) && Acyclic(groups, reps, rank) && IsRoot(reps, g) && ValidExpr(reps, e)
    requires forall i | 0 <= i < |e.kids| :: !Reaches(groups, reps, rank, Root(reps, e.kids[i]), g)
    requires Shape(ExtendedGroups(groups, g, e), reps) && IsEdge(ExtendedGroups(groups, g, e), reps, h, j, i)
    ensures var groups', rank' := ExtendedGroups(groups, g, e), ExtendedRank(groups, reps, rank, g);
            rank'[Child(groups', reps, h, j, i)] < rank'[h]
  {
    var groups' := ExtendedGroups(groups, g, e);
    var r := Child(groups', reps, h, j, i);
    assert Reaches(groups, reps, rank, g, g);
    if HasExpr(groups, h, j) {
      assert Exprs(groups', h)[j] == Exprs(groups, h)[j];
      assert IsEdge(groups, reps, h, j, i) && r == Child(groups, reps, h, j, i);
      assert Reaches(groups, reps, rank, r, g) ==> Reaches(groups, reps, rank, h, g);
    } else {
      assert h == g && Exprs(groups', h)[j] == e;
    }
  }

  // ---------------------------------------------------------------- appending a group

  lemma CanonUnderAppend(reps: seq<GroupId>, e: MemoExpr)
    requires RepsOk(reps) && KidsKnown(reps, e)
    ensures RepsOk(reps + [|reps|]) && KidsKnown(reps + [|reps|], e)
    ensures Canon(reps + [|reps|], e) == Canon(reps, e)
  {
    forall i | 0 <= i < |e.kids| ensures Root(reps + [|reps|], e.kids[i]) == Root(reps, e.kids[i]) {
      AppendRoot(reps, e.kids[i]);
    }
    assert Canon(reps + [|reps|], e).kids == Canon(reps, e).kids;
  }

  function AppendedGroups(groups: seq<Group>, e: MemoExpr): (r: seq<Group>)
    ensures |r| == |groups| + 1
    ensures forall g | 1 <= g <= |groups| :: Exprs(r, g) == Exprs(groups, g)
    ensures Exprs(r, |groups| + 1) == [e]
  {
    groups + [Group(|groups| + 1, [e])]
  }

  lemma AppendedShape(groups: seq<Group>, reps: seq<GroupId>, e: MemoExpr)
    requires Shape(groups, reps) && ValidExpr(reps, e) && CanonicalKids(reps, e)
    ensures Shape(AppendedGroups(groups, e), reps + [|reps|])
    ensures Tidy(groups, reps) ==> Tidy(AppendedGroups(groups, e), reps + [|reps|])
    ensures Keeps(groups, reps, AppendedGroups(groups, e), reps + [|reps|])
  {
    AppendedIsShaped(groups, reps, e);
    AppendedKeeps(groups, reps, e);
    if Tidy(groups, reps) {
      AppendedIsTidy(groups, reps, e);
    }
  }

  lemma AppendedIsShaped(groups: seq<Group>, reps: seq<GroupId>, e: MemoExpr)
    requires Shape(groups, reps) && ValidExpr(reps, e)
    ensures Shape(AppendedGroups(groups, e), reps + [|reps|])
  {
    var groups', reps' := AppendedGroups(groups, e), reps + [|reps|];
    forall g, j | Known(reps', g) && HasExpr(groups', g, j) ensures ValidExpr(reps', Exprs(groups', g)[j]) {
      if Known(reps, g) {
        assert HasExpr(groups, g, j) && ValidExpr(reps, Exprs(groups, g)[j]);
      }
    }
    forall g | IsRoot(reps', g) ensures HasExpr(groups', g, 0) {
      assert IsRoot(reps, g) ==> HasExpr(groups, g, 0);
    }
  }

  lemma AppendedIsTidy(groups: seq<Group>, reps: seq<GroupId>, e: MemoExpr)
    requires Shape(groups, reps) && ValidExpr(reps, e) && CanonicalKids(reps, e) && Tidy(groups, reps)
    requires Shape(AppendedGroups(groups, e), reps + [|reps|])
    ensures Tidy(AppendedGroups(groups, e), reps + [|reps|])
  {
    var groups', reps' := AppendedGroups(groups, e), reps + [|reps|];
    forall g | Known(reps, g) ensures Root(reps', g) == Root(reps, g) {
      AppendRoot(reps, g);
    }
    forall g, j | Known(reps', g) && HasExpr(groups', g, j) ensures CanonicalKids(reps', Exprs(groups', g)[j]) {
      if Known(reps, g) {
        assert HasExpr(groups, g, j) && CanonicalKids(reps, Exprs(groups, g)[j]);
      }
    }
  }

  lemma AppendedKeeps(groups: seq<Group>, reps: seq<GroupId>, e: MemoExpr)
    requires Shape(groups, reps) && Shape(AppendedGroups(groups, e), reps + [|reps|])
    ensures Keeps(groups, reps, AppendedGroups(groups, e), reps + [|reps|])
  {
    var groups', reps' := AppendedGroups(groups, e), reps + [|reps|];
    forall g | Known(reps, g) ensures Root(reps', g) == Root(reps, g) {
      AppendRoot(reps, g);
    }
    forall g, j | IsRoot(reps, g) && HasExpr(groups, g, j)
      ensures HasCanon(groups', reps', Root(reps', g), Exprs(groups, g)[j])
    {
      assert ValidExpr(reps, Exprs(groups, g)[j]);
      assert HasExpr(groups', g, j);
    }
  }

  /** The new group sits above everything. */
  lemma AppendKeepsAcyclic(groups: seq<Group>, reps: seq<GroupId>, rank: seq<nat>, e: MemoExpr)
    requires Shape(groups, reps) && Acyclic(groups, reps, rank) && ValidExpr(reps, e) && CanonicalKids(reps, e)
    ensures Shape(AppendedGroups(groups, e), reps + [|reps|])
    ensures Acyclic(AppendedGroups(groups, e), reps + [|reps|], rank + [MaxRank(rank) + 1])
  {
    AppendedShape(groups, reps, e);
    var groups', reps', rank' := AppendedGroups(groups, e), reps + [|reps|], rank + [MaxRank(rank) + 1];
    forall g: GroupId, j, i | IsEdge(groups', reps', g, j, i) ensures rank'[Child(groups', reps', g, j, i)] < rank'[g] {
      AppendRoot(reps, Exprs(groups', g)[j].kids[i]);
      if Known(reps, g) {
        assert IsEdge(groups, reps, g, j, i);
        assert Child(groups', reps', g, j, i) == Child(groups, reps, g, j, i);
      }
    }
  }

  lemma AppendKeepsSound<D(!new)>(groups: seq<Group>, reps: seq<GroupId>, sem: Semantics<D>, den: map<GroupId, D>,
                                  e: MemoExpr, reps': seq<GroupId>, den': map<GroupId, D>)
    requires Shape(groups, reps) && Sound(groups, reps, sem, den) && ValidExpr(reps, e) && Denoted(den, e)
    requires reps' == reps + [|reps|] && den' == den[|reps| := ExprDen(sem, den, e)]
    requires Shape(AppendedGroups(groups, e), reps')
    ensures Sound(AppendedGroups(groups, e), reps', sem, den')
  {
    forall g | Known(reps', g) ensures g in den' && den'[g] == den'[Root(reps', g)] {
      if Known(reps, g) {
        AppendRoot(reps, g);
      }
    }
    forall g, j | Known(reps', g) && HasExpr(AppendedGroups(groups, e), g, j)
      ensures Denoted(den', Exprs(AppendedGroups(groups, e), g)[j])
      ensures ExprDen(sem, den', Exprs(AppendedGroups(groups, e), g)[j]) == den'[g]
    {
      AppendedExprDen(groups, reps, sem, den, e, g, j);
    }
  }

  lemma AppendedExprDen<D(!new)>(groups: seq<Group>, reps: seq<GroupId>, sem: Semantics<D>, den: map<GroupId, D>,
                                 e: MemoExpr, g: GroupId, j: nat)
    requires Shape(groups, reps) && Sound(groups, reps, sem, den) && ValidExpr(reps, e) && Denoted(den, e)
    requires Known(reps + [|reps|], g) && HasExpr(AppendedGroups(groups, e), g, j)
    ensures
      var den' := den[|reps| := ExprDen(sem, den, e)];
      var f := Exprs(AppendedGroups(groups, e), g)[j];
      Denoted(den', f) && ExprDen(sem, den', f) == den'[g]
  {
    var f := Exprs(AppendedGroups(groups, e), g)[j];
    if Known(reps, g) {
      assert HasExpr(groups, g, j);
      assert ValidExpr(reps, Exprs(groups, g)[j]);
    }
    DenUnderAppend(reps, sem, den, ExprDen(sem, den, e), f);
  }

  lemma DenUnderAppend<D>(reps: seq<GroupId>, sem: Semantics<D>, den: map<GroupId, D>, d: D, e: MemoExpr)
    requires RepsOk(reps) && KidsKnown(reps, e) && (e.tag.GroupRef? ==> |e.kids| == 1)
    requires forall g | Known(reps, g) :: g in den
    ensures Denoted(den, e) && Denoted(den[|reps| := d], e)
    ensures ExprDen(sem, den[|reps| := d], e) == ExprDen(sem, den, e)
  {
    forall i | 0 <= i < |e.kids| ensures e.kids[i] in den && e.kids[i] != |reps| {
      assert Known(reps, e.kids[i]);
    }
    assert seq(|e.kids|, i requires 0 <= i < |e.kids| => den[|reps| := d][e.kids[i]]) ==
           seq(|e.kids|, i requires 0 <= i < |e.kids| => den[e.kids[i]]);
  }

  lemma AppendKeepsIndexed(groups: seq<Group>, reps: seq<GroupId>, index: map<MemoExpr, GroupId>, e: MemoExpr)
    requires Shape(groups, reps) && Indexed(groups, reps, index) && e !in index
    ensures Indexed(AppendedGroups(groups, e), reps + [|reps|], index[e := |reps|])
  {
    var groups', reps', index' := AppendedGroups(groups, e), reps + [|reps|], index[e := |reps|];
    forall g, j | IsRoot(reps', g) && HasExpr(groups', g, j)
      ensures Exprs(groups', g)[j] in index' && index'[Exprs(groups', g)[j]] == g
    {
      if Known(reps, g) {
        assert IsRoot(reps, g) && HasExpr(groups, g, j);
      }
    }
  }

  /** A new group for an expression the memo does not hold yet. */
  lemma AppendKeepsWellFormed<D(!new)>(groups: seq<Group>, reps: seq<GroupId>, index: map<MemoExpr, GroupId>,
                                       rank: seq<nat>, sem: Semantics<D>, den: map<GroupId, D>, e: MemoExpr)
    requires WellFormed(groups, reps, index, rank, sem, den)
    requires ValidExpr(reps, e) && CanonicalKids(reps, e) && e !in index
    ensures Denoted(den, e) && |reps| !in den
    ensures WellFormed(AppendedGroups(groups, e), reps + [|reps|], index[e := |reps|], rank + [MaxRank(rank) + 1],
                       sem, den[|reps| := ExprDen(sem, den, e)])
    ensures Keeps(groups, reps, AppendedGroups(groups, e), reps + [|reps|])
  {
    AppendedShape(groups, reps, e);
    AppendKeepsAcyclic(groups, reps, rank, e);
    AppendKeepsSound(groups, reps, sem, den, e, reps + [|reps|], den[|reps| := ExprDen(sem, den, e)]);
    AppendKeepsIndexed(groups, reps, index, e);
  }

  /** The owner of an indexed expression denotes what the expression denotes. */
  lemma IndexedDen<D(!new)>(groups: seq<Group>, reps: seq<GroupId>, index: map<MemoExpr, GroupId>,
                            rank: seq<nat>, sem: Semantics<D>, den: map<GroupId, D>, e: MemoExpr)
    requires WellFormed(groups, reps, index, rank, sem, den)
    requires ValidExpr(reps, e) && Canon(reps, e) in index
    ensures Denoted(den, e) && IsRoot(reps, index[Canon(reps, e)]) && index[Canon(reps, e)] in den
    ensures den[index[Canon(reps, e)]] == ExprDen(sem, den, e)
  {
    var c := Canon(reps, e);
    var g := index[c];
    var j :| 0 <= j < |Exprs(groups, g)| && Exprs(groups, g)[j] == c;
    assert HasExpr(groups, g, j);
    CanonKeepsDen(reps, sem, den, e);
  }

  // ---------------------------------------------------------------- rebuilding the index

  /** The index covers the representatives below `g` and the first `n` expressions of `g`. */
  ghost predicate PartlyIndexed(groups: seq<Group>, reps: seq<GroupId>, index: map<MemoExpr, GroupId>, g: GroupId, n: int)
    requires |reps| == |groups| + 1
  {
    && (forall h, j | IsRoot(reps, h) && HasExpr(groups, h, j) && (h < g || (h == g && j < n)) ::
          Exprs(groups, h)[j] in index && index[Exprs(groups, h)[j]] == h)
    && (forall e | e in index :: IsRoot(reps, index[e]) && e in Exprs(groups, index[e]) && index[e] <= g)
    && (n == 0 ==> forall e | e in index :: index[e] < g)
  }

  /** Indexing expression `n` of `g`, which no other representative owns so far. */
  lemma PartlyIndexedStep(groups: seq<Group>, reps: seq<GroupId>, index: map<MemoExpr, GroupId>, g: GroupId, n: int)
    requires |reps| == |groups| + 1 && IsRoot(reps, g) && HasExpr(groups, g, n)
    requires PartlyIndexed(groups, reps, index, g, n)
    requires Exprs(groups, g)[n] in index ==> index[Exprs(groups, g)[n]] == g
    ensures PartlyIndexed(groups, reps, index[Exprs(groups, g)[n] := g], g, n + 1)
  {
  }

  lemma PartlyIndexedNext(groups: seq<Group>, reps: seq<GroupId>, index: map<MemoExpr, GroupId>, g: GroupId)
    requires |reps| == |groups| + 1 && Known(reps, g)
    requires PartlyIndexed(groups, reps, index, g, if IsRoot(reps, g) then |Exprs(groups, g)| else 0)
    ensures PartlyIndexed(groups, reps, index, g + 1, 0)
    ensures g == |groups| ==> Indexed(groups, reps, index)
  {
  }

  /** An expression that another representative already owns. */
  lemma PartlyIndexedConflict(groups: seq<Group>, reps: seq<GroupId>, index: map<MemoExpr, GroupId>, g: GroupId, n: int)
    requires |reps| == |groups| + 1 && IsRoot(reps, g) && HasExpr(groups, g, n)
    requires PartlyIndexed(groups, reps, index, g, n)
    requires Exprs(groups, g)[n] in index && index[Exprs(groups, g)[n]] != g
    ensures SharedExpr(groups, reps, index[Exprs(groups, g)[n]], g)
  {
    var owner := index[Exprs(groups, g)[n]];
    var i :| 0 <= i < |Exprs(groups, owner)| && Exprs(groups, owner)[i] == Exprs(groups, g)[n];
    assert HasExpr(groups, owner, i);
  }

  /** Two representatives own one expression. */
  ghost predicate SharedExpr(groups: seq<Group>, reps: seq<GroupId>, a: GroupId, b: GroupId)
    requires |reps| == |groups| + 1
  {
    IsRoot(reps, a) && IsRoot(reps, b) && a != b &&
    exists i, j :: HasExpr(groups, a, i) && HasExpr(groups, b, j) && Exprs(groups, a)[i] == Exprs(groups, b)[j]
  }

  lemma SharedDen<D(!new)>(groups: seq<Group>, reps: seq<GroupId>, sem: Semantics<D>, den: map<GroupId, D>,
                           a: GroupId, b: GroupId)
    requires Shape(groups, reps) && Sound(groups, reps, sem, den) && SharedExpr(groups, reps, a, b)
    ensures den[a] == den[b]
  {
  }

  lemma SharedIsNotIndexed(groups: seq<Group>, groups1: seq<Group>, reps: seq<GroupId>, index1: map<MemoExpr, GroupId>,
                           a: GroupId, b: GroupId)
    requires |reps| == |groups| + 1 == |groups1| + 1
    requires forall g | IsRoot(reps, g) :: Exprs(groups, g) == Exprs(groups1, g)
    requires Indexed(groups1, reps, index1)
    ensures !SharedExpr(groups, reps, a, b)
  {
    if SharedExpr(groups, reps, a, b) {
      var i, j :| HasExpr(groups, a, i) && HasExpr(groups, b, j) && Exprs(groups, a)[i] == Exprs(groups, b)[j];
      assert HasExpr(groups1, a, i) && HasExpr(groups1, b, j);
      assert false;
    }
  }

  lemma OwnExprHasNoCycle(groups: seq<Group>, reps: seq<GroupId>, rank: seq<nat>, g: GroupId, j: int)
    requires Shape(groups, reps) && Tidy(groups, reps) && Acyclic(groups, reps, rank)
    requires IsRoot(reps, g) && HasExpr(groups, g, j)
    ensures CanonicalKids(reps, Exprs(groups, g)[j])
    ensures forall i | 0 <= i < |Exprs(groups, g)[j].kids| :: !Reaches(groups, reps, rank, Exprs(groups, g)[j].kids[i], g)
  {
    forall i | 0 <= i < |Exprs(groups, g)[j].kids| ensures !Reaches(groups, reps, rank, Exprs(groups, g)[j].kids[i], g) {
      assert IsEdge(groups, reps, g, j, i);
      assert Child(groups, reps, g, j, i) == Exprs(groups, g)[j].kids[i];
      if Reaches(groups, reps, rank, Exprs(groups, g)[j].kids[i], g) {
        ReachesLowers(groups, reps, rank, Exprs(groups, g)[j].kids[i], g);
      }
    }
  }

  // ---------------------------------------------------------------- adding to a group

  /** The checks that come before an equivalent expression is looked up. */
  ghost predicate CanAdd(groups: seq<Group>, reps: seq<GroupId>, rank: seq<nat>, id: GroupId, e: MemoExpr)
    requires Shape(groups, reps) && Acyclic(groups, reps, rank)
  {
    Known(reps, id) && ValidExpr(reps, e) &&
    forall i | 0 <= i < |e.kids| :: !Reaches(groups, reps, rank, Root(reps, e.kids[i]), Root(reps, id))
  }

  lemma ExtendKeepsSound<D(!new)>(groups: seq<Group>, reps: seq<GroupId>, sem: Semantics<D>, den: map<GroupId, D>,
                                  g: GroupId, e: MemoExpr)
    requires Shape(groups, reps) && Sound(groups, reps, sem, den) && IsRoot(reps, g)
    requires Denoted(den, e) && ExprDen(sem, den, e) == den[g]
    requires Shape(ExtendedGroups(groups, g, e), reps)
    ensures Sound(ExtendedGroups(groups, g, e), reps, sem, den)
  {
    var groups' := ExtendedGroups(groups, g, e);
    forall h, j | Known(reps, h) && HasExpr(groups', h, j)
      ensures Denoted(den, Exprs(groups', h)[j]) && ExprDen(sem, den, Exprs(groups', h)[j]) == den[h]
    {
      if HasExpr(groups, h, j) {
        assert Exprs(groups', h)[j] == Exprs(groups, h)[j];
      } else {
        assert h == g && Exprs(groups', h)[j] == e;
      }
    }
  }

  lemma ExtendKeepsTidy(groups: seq<Group>, reps: seq<GroupId>, index: map<MemoExpr, GroupId>, g: GroupId, e: MemoExpr)
    requires Shape(groups, reps) && Tidy(groups, reps) && Indexed(groups, reps, index)
    requires IsRoot(reps, g) && CanonicalKids(reps, e) && e !in index
    requires Shape(ExtendedGroups(groups, g, e), reps)
    ensures Tidy(ExtendedGroups(groups, g, e), reps)
  {
    var groups' := ExtendedGroups(groups, g, e);
    forall h, j | Known(reps, h) && HasExpr(groups', h, j) ensures CanonicalKids(reps, Exprs(groups', h)[j]) {
      if HasExpr(groups, h, j) {
        assert Exprs(groups', h)[j] == Exprs(groups, h)[j];
      } else {
        assert h == g && Exprs(groups', h)[j] == e;
      }
    }
    forall h | Known(reps, h) ensures Unrepeated(Exprs(groups', h)) {
      if h == g {
        forall j | 0 <= j < |Exprs(groups, g)| ensures Exprs(groups, g)[j] != e {
          assert HasExpr(groups, g, j);
        }
      }
    }
    forall h | Known(reps, h) && !IsRoot(reps, h)
      ensures HasExpr(groups', h, 0) && Exprs(groups', h) == [Alias(Root(reps, h), Exprs(groups', h)[0].perm)]
    {
      assert Exprs(groups', h) == Exprs(groups, h) && HasExpr(groups, h, 0);
    }
  }

  lemma ExtendKeepsIndexed(groups: seq<Group>, reps: seq<GroupId>, index: map<MemoExpr, GroupId>, g: GroupId, e: MemoExpr)
    requires |reps| == |groups| + 1 && Indexed(groups, reps, index) && IsRoot(reps, g) && e !in index
    ensures Indexed(ExtendedGroups(groups, g, e), reps, index[e := g])
  {
    var groups', index' := ExtendedGroups(groups, g, e), index[e := g];
    forall h, j | IsRoot(reps, h) && HasExpr(groups', h, j)
      ensures Exprs(groups', h)[j] in index' && index'[Exprs(groups', h)[j]] == h
    {
      if HasExpr(groups, h, j) {
        assert Exprs(groups', h)[j] == Exprs(groups, h)[j];
      } else {
        assert h == g && Exprs(groups', h)[j] == e;
      }
    }
  }

  lemma ExtendKeepsWellFormed<D(!new)>(groups: seq<Group>, reps: seq<GroupId>, index: map<MemoExpr, GroupId>,
                                       rank: seq<nat>, sem: Semantics<D>, den: map<GroupId, D>, g: GroupId, e: MemoExpr)
    requires WellFormed(groups, reps, index, rank, sem, den)
    requires IsRoot(reps, g) && ValidExpr(reps, e) && CanonicalKids(reps, e) && e !in index
    requires forall i | 0 <= i < |e.kids| :: !Reaches(groups, reps, rank, e.kids[i], g)
    requires Denoted(den, e) && ExprDen(sem, den, e) == den[g]
    ensures WellFormed(ExtendedGroups(groups, g, e), reps, index[e := g], ExtendedRank(groups, reps, rank, g), sem, den)
    ensures Keeps(groups, reps, ExtendedGroups(groups, g, e), reps)
  {
    ExtendedShape(groups, reps, g, e);
    forall i | 0 <= i < |e.kids| ensures Root(reps, e.kids[i]) == e.kids[i] {}
    hide Acyclic, Sound, Tidy, Indexed, Keeps;
    ExtendKeepsAcyclic(groups, reps, rank, g, e);
    ExtendKeepsSound(groups, reps, sem, den, g, e);
    ExtendKeepsTidy(groups, reps, index, g, e);
    ExtendKeepsIndexed(groups, reps, index, g, e);
  }

  // ---------------------------------------------------------------- classes across mutations

  lemma SameRoot(reps0: seq<GroupId>, reps1: seq<GroupId>, a: GroupId, b: GroupId)
    requires Refines(reps0, reps1) && Known(reps0, a) && Known(reps0, b)
    requires Root(reps1, Root(reps0, a)) == Root(reps1, b)
    ensures Root(reps1, a) == Root(reps1, b)
  {
  }

  lemma SameClassStays(reps0: seq<GroupId>, reps1: seq<GroupId>, a: GroupId, b: GroupId)
    requires Refines(reps0, reps1) && Known(reps0, a) && Known(reps0, b)
    requires Root(reps0, a) == Root(reps0, b)
    ensures Known(reps1, a) && Known(reps1, b) && Root(reps1, a) == Root(reps1, b)
  {
    assert Root(reps1, Root(reps0, a)) == Root(reps1, a);
    assert Root(reps1, Root(reps0, b)) == Root(reps1, b);
  }

  /** What a class holds, up to representatives of children, its later class still holds. */
  lemma HasCanonStays(groups0: seq<Group>, reps0: seq<GroupId>, groups1: seq<Group>, reps1: seq<GroupId>,
                      g: GroupId, e: MemoExpr)
    requires Keeps(groups0, reps0, groups1, reps1)
    requires IsRoot(reps0, g) && HasCanon(groups0, reps0, g, e)
    ensures HasCanon(groups1, reps1, Root(reps1, g), e)
  {
    var j :| HasExpr(groups0, g, j) && Canon(reps0, Exprs(groups0, g)[j]) == Canon(reps0, e);
    var f := Exprs(groups0, g)[j];
    assert HasCanon(groups1, reps1, Root(reps1, g), f);
    CanonThrough(reps0, reps1, f, e);
  }

  lemma HasCanonOfCanon(groups: seq<Group>, reps: seq<GroupId>, g: GroupId, e: MemoExpr)
    requires Shape(groups, reps) && Known(reps, g) && KidsKnown(reps, e)
    requires Canon(reps, e) in Exprs(groups, g)
    ensures HasCanon(groups, reps, g, e)
  {
    var j :| 0 <= j < |Exprs(groups, g)| && Exprs(groups, g)[j] == Canon(reps, e);
    assert HasExpr(groups, g, j);
    CanonIsValid(reps, e);
  }

  /** In a tidy memo the owner of an expression is the one class that holds it. */
  lemma IndexedHasCanon(groups: seq<Group>, reps: seq<GroupId>, index: map<MemoExpr, GroupId>, e: MemoExpr)
    requires Shape(groups, reps) && Tidy(groups, reps) && Indexed(groups, reps, index) && KidsKnown(reps, e)
    ensures forall g | IsRoot(reps, g) ::
              HasCanon(groups, reps, g, e) <==> Canon(reps, e) in index && index[Canon(reps, e)] == g
  {
    forall g | IsRoot(reps, g)
      ensures HasCanon(groups, reps, g, e) <==> Canon(reps, e) in index && index[Canon(reps, e)] == g
    {
      if HasCanon(groups, reps, g, e) {
        var j :| HasExpr(groups, g, j) && Canon(reps, Exprs(groups, g)[j]) == Canon(reps, e);
        CanonOfCanonical(reps, Exprs(groups, g)[j]);
      } else if Canon(reps, e) in index && index[Canon(reps, e)] == g {
        HasCanonOfCanon(groups, reps, g, e);
      }
    }
  }

  lemma CanonDen<D(!new)>(groups: seq<Group>, reps: seq<GroupId>, sem: Semantics<D>, den: map<GroupId, D>,
                          e: MemoExpr, g: GroupId)
    requires Shape(groups, reps) && Sound(groups, reps, sem, den) && ValidExpr(reps, e) && Known(reps, g)
    ensures Denoted(den, e) && Denoted(den, Canon(reps, e)) && g in den && Root(reps, g) in den
    ensures ExprDen(sem, den, Canon(reps, e)) == ExprDen(sem, den, e)
    ensures den[Root(reps, g)] == den[g]
  {
    CanonKeepsDen(reps, sem, den, e);
  }

  lemma EmptyIndexed(groups: seq<Group>, reps: seq<GroupId>)
    requires |reps| == |groups| + 1
    ensures |groups| == 0 ==> Indexed(groups, reps, map[])
  {
  }

  lemma SameDen<D(!new)>(groups: seq<Group>, reps: seq<GroupId>, sem: Semantics<D>, den: map<GroupId, D>, g: GroupId)
    requires Shape(groups, reps) && Sound(groups, reps, sem, den) && Known(reps, g)
    ensures g in den && Root(reps, g) in den && den[Root(reps, g)] == den[g]
  {
  }
}
