/** When a merge goes through. A table of parents that merges two groups and is closed under congruence either has an
  acyclic group graph or has not; the cascade of a merge succeeds exactly when some such table has one.
 */
module MemoCongruence {
  import opened Plans
  import opened Sequences
  import opened MemoGraph

  /** Table `q` merges at least what `reps` merges, and any two groups that own one expression up to `q`. */
  ghost predicate Congruent(groups: seq<Group>, reps: seq<GroupId>, q: seq<GroupId>)
    requires Shape(groups, reps)
  {
    && |q| == |reps| && Refines(reps, q)
    && forall g, j, h, k | IsRoot(reps, g) && HasExpr(groups, g, j) && IsRoot(reps, h) && HasExpr(groups, h, k) ::
         SameUpTo(q, Exprs(groups, g)[j], Exprs(groups, h)[k]) ==> Root(q, g) == Root(q, h)
  }

  ghost predicate SameUpTo(q: seq<GroupId>, e: MemoExpr, f: MemoExpr)
    requires RepsOk(q)
  {
    KidsKnown(q, e) && KidsKnown(q, f) && Canon(q, e) == Canon(q, f)
  }

  /** Every edge between classes of `q` goes down in `level`. */
  ghost predicate Levelled(groups: seq<Group>, reps: seq<GroupId>, q: seq<GroupId>, level: seq<nat>)
    requires Shape(groups, reps) && |q| == |reps| && RepsOk(q)
  {
    |level| == |q| &&
    forall g: GroupId, j, i | IsEdge(groups, reps, g, j, i) :: level[Root(q, Child(groups, reps, g, j, i))] < level[Root(q, g)]
  }

  /** A congruence over the groups whose classes form no cycle. */
  ghost predicate AcyclicCongruence(groups: seq<Group>, reps: seq<GroupId>, q: seq<GroupId>)
    requires Shape(groups, reps)
  {
    Congruent(groups, reps, q) && exists level :: Levelled(groups, reps, q, level)
  }

  ghost predicate Closable(groups: seq<Group>, reps: seq<GroupId>)
    requires Shape(groups, reps)
  {
    exists q :: AcyclicCongruence(groups, reps, q)
  }

  /** Some acyclic congruence puts both groups in one class. */
  ghost predicate Mergeable(groups: seq<Group>, reps: seq<GroupId>, a: GroupId, b: GroupId)
    requires Shape(groups, reps) && Known(reps, a) && Known(reps, b)
  {
    exists q :: AcyclicCongruence(groups, reps, q) && Root(q, a) == Root(q, b)
  }

  // ---------------------------------------------------------------- states with the same congruences

  /** Every expression of a representative comes from an earlier representative of its class. */
  ghost predicate Sourced(groups0: seq<Group>, reps0: seq<GroupId>, groups1: seq<Group>, reps1: seq<GroupId>)
    requires Shape(groups0, reps0) && Shape(groups1, reps1)
  {
    && |reps0| == |reps1|
    && forall g, j | IsRoot(reps1, g) && HasExpr(groups1, g, j) :: HasSource(groups0, reps0, reps1, g, Exprs(groups1, g)[j])
  }

  ghost predicate HasSource(groups0: seq<Group>, reps0: seq<GroupId>, reps1: seq<GroupId>, g: GroupId, e: MemoExpr)
    requires Shape(groups0, reps0) && |reps0| == |reps1| && RepsOk(reps1)
  {
    exists g0, j0 :: IsRoot(reps0, g0) && HasExpr(groups0, g0, j0) && Root(reps1, g0) == g && SameUpTo(reps1, Exprs(groups0, g0)[j0], e)
  }

  lemma SameThrough(reps0: seq<GroupId>, reps1: seq<GroupId>, e: MemoExpr, f: MemoExpr)
    requires Refines(reps0, reps1) && SameUpTo(reps0, e, f)
    ensures SameUpTo(reps1, e, f)
  {
    CanonThrough(reps0, reps1, e, f);
  }

  lemma RefinesTransitive(reps0: seq<GroupId>, reps1: seq<GroupId>, reps2: seq<GroupId>)
    requires Refines(reps0, reps1) && Refines(reps1, reps2)
    ensures Refines(reps0, reps2)
  {
    forall g | Known(reps0, g) ensures Root(reps2, Root(reps0, g)) == Root(reps2, g) {
      assert Root(reps2, Root(reps1, Root(reps0, g))) == Root(reps2, Root(reps0, g));
      assert Root(reps2, Root(reps1, g)) == Root(reps2, g);
    }
  }

  lemma SameBack(q: seq<GroupId>, e: MemoExpr, f: MemoExpr)
    requires RepsOk(q) && SameUpTo(q, e, f)
    ensures SameUpTo(q, f, e) && |e.kids| == |f.kids|
  {
  }

  /** Expressions that agree up to `q` have children in the same classes. */
  lemma SameKid(q: seq<GroupId>, e: MemoExpr, f: MemoExpr, i: int)
    requires RepsOk(q) && SameUpTo(q, e, f) && 0 <= i < |e.kids|
    ensures |e.kids| == |f.kids| && Known(q, e.kids[i]) && Known(q, f.kids[i]) && Root(q, e.kids[i]) == Root(q, f.kids[i])
  {
    assert Canon(q, e).kids[i] == Canon(q, f).kids[i];
  }

  /** The class of a child, through an earlier table. */
  lemma ChildClass(groups: seq<Group>, reps: seq<GroupId>, q: seq<GroupId>, g: GroupId, j: int, i: int)
    requires Shape(groups, reps) && |q| == |reps| && Refines(reps, q) && IsEdge(groups, reps, g, j, i)
    ensures Known(q, Exprs(groups, g)[j].kids[i]) && Root(q, Child(groups, reps, g, j, i)) == Root(q, Exprs(groups, g)[j].kids[i])
  {
    assert ValidExpr(reps, Exprs(groups, g)[j]);
  }

  /** The later expression that an earlier one has become. */
  lemma LaterExpr(groups0: seq<Group>, reps0: seq<GroupId>, groups1: seq<Group>, reps1: seq<GroupId>, q: seq<GroupId>,
                  g: GroupId, j: int) returns (g1: GroupId, j1: int)
    requires Keeps(groups0, reps0, groups1, reps1) && Refines(reps1, q) && IsRoot(reps0, g) && HasExpr(groups0, g, j)
    ensures g1 == Root(reps1, g) && IsRoot(reps1, g1) && HasExpr(groups1, g1, j1) && Root(q, g1) == Root(q, g)
    ensures SameUpTo(reps1, Exprs(groups1, g1)[j1], Exprs(groups0, g)[j]) && SameUpTo(q, Exprs(groups1, g1)[j1], Exprs(groups0, g)[j])
  {
    g1 := Root(reps1, g);
    var e := Exprs(groups0, g)[j];
    assert HasCanon(groups1, reps1, g1, e);
    j1 :| HasExpr(groups1, g1, j1) && Canon(reps1, Exprs(groups1, g1)[j1]) == Canon(reps1, e);
    assert ValidExpr(reps1, Exprs(groups1, g1)[j1]);
    SameThrough(reps1, q, Exprs(groups1, g1)[j1], e);
  }

  lemma LevelledEarlier(groups0: seq<Group>, reps0: seq<GroupId>, groups1: seq<Group>, reps1: seq<GroupId>, q: seq<GroupId>, level: seq<nat>)
    requires Keeps(groups0, reps0, groups1, reps1) && |reps0| == |reps1| == |q| && Refines(reps1, q) && Refines(reps0, q)
    requires Levelled(groups1, reps1, q, level)
    ensures Levelled(groups0, reps0, q, level)
  {
    hide HasCanon, Canon, Root;
    forall g: GroupId, j, i | IsEdge(groups0, reps0, g, j, i) ensures level[Root(q, Child(groups0, reps0, g, j, i))] < level[Root(q, g)] {
      var g1, j1 := LaterExpr(groups0, reps0, groups1, reps1, q, g, j);
      SameBack(q, Exprs(groups1, g1)[j1], Exprs(groups0, g)[j]);
      SameKid(q, Exprs(groups0, g)[j], Exprs(groups1, g1)[j1], i);
      ChildClass(groups0, reps0, q, g, j, i);
      assert IsEdge(groups1, reps1, g1, j1, i);
      ChildClass(groups1, reps1, q, g1, j1, i);
    }
  }

  /** An acyclic congruence over a later state is one over the earlier state. */
  lemma ClosesEarlier(groups0: seq<Group>, reps0: seq<GroupId>, groups1: seq<Group>, reps1: seq<GroupId>, q: seq<GroupId>)
    requires Keeps(groups0, reps0, groups1, reps1) && |reps0| == |reps1| && AcyclicCongruence(groups1, reps1, q)
    ensures AcyclicCongruence(groups0, reps0, q)
  {
    RefinesTransitive(reps0, reps1, q);
    var level :| Levelled(groups1, reps1, q, level);
    hide Refines, HasCanon, Shape, Levelled, Canon, Root, IsEdge, Child;
    forall g, j, h, k | IsRoot(reps0, g) && HasExpr(groups0, g, j) && IsRoot(reps0, h) && HasExpr(groups0, h, k) &&
                        SameUpTo(q, Exprs(groups0, g)[j], Exprs(groups0, h)[k])
      ensures Root(q, g) == Root(q, h)
    {
      var g1, j1 := LaterExpr(groups0, reps0, groups1, reps1, q, g, j);
      var h1, k1 := LaterExpr(groups0, reps0, groups1, reps1, q, h, k);
      assert SameUpTo(q, Exprs(groups1, g1)[j1], Exprs(groups1, h1)[k1]);
    }
    LevelledEarlier(groups0, reps0, groups1, reps1, q, level);
  }

  /** The earlier expression that a later one comes from. */
  lemma EarlierExpr(groups0: seq<Group>, reps0: seq<GroupId>, groups1: seq<Group>, reps1: seq<GroupId>, q: seq<GroupId>,
                    g: GroupId, j: int) returns (g0: GroupId, j0: int)
    requires Shape(groups0, reps0) && Shape(groups1, reps1) && Sourced(groups0, reps0, groups1, reps1)
    requires Refines(reps1, q) && IsRoot(reps1, g) && HasExpr(groups1, g, j)
    ensures IsRoot(reps0, g0) && HasExpr(groups0, g0, j0) && Root(q, g0) == Root(q, g)
    ensures SameUpTo(q, Exprs(groups0, g0)[j0], Exprs(groups1, g)[j])
  {
    assert HasSource(groups0, reps0, reps1, g, Exprs(groups1, g)[j]);
    g0, j0 :| IsRoot(reps0, g0) && HasExpr(groups0, g0, j0) && Root(reps1, g0) == g && SameUpTo(reps1, Exprs(groups0, g0)[j0], Exprs(groups1, g)[j]);
    assert Known(reps1, g0);
    SameThrough(reps1, q, Exprs(groups0, g0)[j0], Exprs(groups1, g)[j]);
  }

  lemma LevelledLater(groups0: seq<Group>, reps0: seq<GroupId>, groups1: seq<Group>, reps1: seq<GroupId>, q: seq<GroupId>, level: seq<nat>)
    requires Shape(groups0, reps0) && Shape(groups1, reps1) && Sourced(groups0, reps0, groups1, reps1)
    requires |reps0| == |reps1| == |q| && Refines(reps1, q) && Refines(reps0, q)
    requires Levelled(groups0, reps0, q, level)
    ensures Levelled(groups1, reps1, q, level)
  {
    hide Canon, Root, HasSource;
    forall g: GroupId, j, i | IsEdge(groups1, reps1, g, j, i) ensures level[Root(q, Child(groups1, reps1, g, j, i))] < level[Root(q, g)] {
      var g0, j0 := EarlierExpr(groups0, reps0, groups1, reps1, q, g, j);
      SameBack(q, Exprs(groups0, g0)[j0], Exprs(groups1, g)[j]);
      SameKid(q, Exprs(groups1, g)[j], Exprs(groups0, g0)[j0], i);
      ChildClass(groups1, reps1, q, g, j, i);
      assert IsEdge(groups0, reps0, g0, j0, i);
      ChildClass(groups0, reps0, q, g0, j0, i);
    }
  }

  /** An acyclic congruence that merges what the later table merges is one over the later state. */
  lemma ClosesLater(groups0: seq<Group>, reps0: seq<GroupId>, groups1: seq<Group>, reps1: seq<GroupId>, q: seq<GroupId>)
    requires Shape(groups0, reps0) && Shape(groups1, reps1) && Sourced(groups0, reps0, groups1, reps1)
    requires AcyclicCongruence(groups0, reps0, q) && Refines(reps1, q)
    ensures AcyclicCongruence(groups1, reps1, q)
  {
    var level :| Levelled(groups0, reps0, q, level);
    hide Refines, Shape, Levelled, Canon, Root, IsEdge, Child, HasSource;
    forall g, j, h, k | IsRoot(reps1, g) && HasExpr(groups1, g, j) && IsRoot(reps1, h) && HasExpr(groups1, h, k) &&
                        SameUpTo(q, Exprs(groups1, g)[j], Exprs(groups1, h)[k])
      ensures Root(q, g) == Root(q, h)
    {
      var g0, j0 := EarlierExpr(groups0, reps0, groups1, reps1, q, g, j);
      var h0, k0 := EarlierExpr(groups0, reps0, groups1, reps1, q, h, k);
      assert SameUpTo(q, Exprs(groups0, g0)[j0], Exprs(groups0, h0)[k0]);
    }
    LevelledLater(groups0, reps0, groups1, reps1, q, level);
  }

  // ---------------------------------------------------------------- the steps of a cascade

  lemma TidiedSourced(groups: seq<Group>, reps: seq<GroupId>, groups': seq<Group>)
    requires Shape(groups, reps) && Tidied(groups, reps, groups')
    ensures Shape(groups', reps) && Sourced(groups, reps, groups', reps)
  {
    TidiedShape(groups, reps, groups');
    forall g, j | IsRoot(reps, g) && HasExpr(groups', g, j) ensures HasSource(groups, reps, reps, g, Exprs(groups', g)[j]) {
      var src := TidiedMember(groups, reps, groups', g, j);
      CanonIsValid(reps, Exprs(groups, g)[src]);
      assert SameUpTo(reps, Exprs(groups, g)[src], Exprs(groups', g)[j]);
    }
  }

  lemma MergedSourced(groups: seq<Group>, reps: seq<GroupId>, w: GroupId, l: GroupId)
    requires Shape(groups, reps) && IsRoot(reps, w) && IsRoot(reps, l) && w < l
    ensures Shape(MergedGroups(groups, w, l), reps[l := w]) && Sourced(groups, reps, MergedGroups(groups, w, l), reps[l := w])
  {
    MergedShape(groups, reps, w, l);
    var groups', reps' := MergedGroups(groups, w, l), reps[l := w];
    forall g, j | IsRoot(reps', g) && HasExpr(groups', g, j) ensures HasSource(groups, reps, reps', g, Exprs(groups', g)[j]) {
      var (g0, j0) := SourceOf(groups, w, l, g, j);
      assert Exprs(groups', g)[j] == Exprs(groups, g0)[j0] && HasExpr(groups, g0, j0) && IsRoot(reps, g0);
      RedirectRoot(reps, l, w, g0);
      assert ValidExpr(reps', Exprs(groups', g)[j]);
      assert SameUpTo(reps', Exprs(groups, g0)[j0], Exprs(groups', g)[j]);
    }
  }

  /** A coarser table that joins the two merged roots is coarser than the merged table. */
  lemma RefinesMerged(reps: seq<GroupId>, q: seq<GroupId>, w: GroupId, l: GroupId)
    requires Refines(reps, q) && IsRoot(reps, w) && IsRoot(reps, l) && w < l && Root(q, w) == Root(q, l)
    ensures Refines(reps[l := w], q)
  {
    var reps' := reps[l := w];
    RedirectRoot(reps, l, w, l);
    forall g | Known(reps', g) ensures Root(q, Root(reps', g)) == Root(q, g) {
      RedirectRoot(reps, l, w, g);
      assert Root(q, Root(reps, g)) == Root(q, g);
    }
  }

  /** Owners of one expression are in one class of every congruence. */
  lemma SharedJoins(groups: seq<Group>, reps: seq<GroupId>, q: seq<GroupId>, a: GroupId, b: GroupId)
    requires Shape(groups, reps) && Congruent(groups, reps, q) && SharedExpr(groups, reps, a, b)
    ensures Root(q, a) == Root(q, b)
  {
    var i, j :| HasExpr(groups, a, i) && HasExpr(groups, b, j) && Exprs(groups, a)[i] == Exprs(groups, b)[j];
    assert ValidExpr(reps, Exprs(groups, a)[i]);
    assert SameUpTo(q, Exprs(groups, a)[i], Exprs(groups, b)[j]);
  }

  /** A path goes down in level, from class to class. */
  lemma {:induction false} ReachesGoesDown(groups: seq<Group>, reps: seq<GroupId>, rank: seq<nat>, q: seq<GroupId>, level: seq<nat>,
                                           from: GroupId, target: GroupId)
    requires Shape(groups, reps) && Acyclic(groups, reps, rank) && |q| == |reps| && Refines(reps, q) && Levelled(groups, reps, q, level)
    requires IsRoot(reps, from) && Reaches(groups, reps, rank, from, target)
    ensures Known(reps, target) && (from == target || level[Root(q, target)] < level[Root(q, from)])
    decreases rank[from]
  {
    if from != target {
      var j, i :| IsEdge(groups, reps, from, j, i) && Reaches(groups, reps, rank, Child(groups, reps, from, j, i), target);
      ReachesGoesDown(groups, reps, rank, q, level, Child(groups, reps, from, j, i), target);
    }
  }

  /** No acyclic congruence joins a group with one that it reaches. */
  lemma ReachedIsApart(groups: seq<Group>, reps: seq<GroupId>, rank: seq<nat>, q: seq<GroupId>, a: GroupId, b: GroupId)
    requires Shape(groups, reps) && Acyclic(groups, reps, rank) && AcyclicCongruence(groups, reps, q)
    requires IsRoot(reps, a) && IsRoot(reps, b) && a != b
    requires Reaches(groups, reps, rank, a, b) || Reaches(groups, reps, rank, b, a)
    ensures Root(q, a) != Root(q, b)
  {
    var level :| Levelled(groups, reps, q, level);
    if Reaches(groups, reps, rank, a, b) {
      ReachesGoesDown(groups, reps, rank, q, level, a, b);
    } else {
      ReachesGoesDown(groups, reps, rank, q, level, b, a);
    }
  }

  /** The parent table of a settled memo is an acyclic congruence. */
  lemma SettledCloses(groups: seq<Group>, reps: seq<GroupId>, rank: seq<nat>, index: map<MemoExpr, GroupId>)
    requires Shape(groups, reps) && Acyclic(groups, reps, rank) && Tidy(groups, reps) && Indexed(groups, reps, index)
    ensures AcyclicCongruence(groups, reps, reps)
  {
    forall g | Known(reps, g) ensures Root(reps, Root(reps, g)) == Root(reps, g) {
    }
    forall g, j, h, k | IsRoot(reps, g) && HasExpr(groups, g, j) && IsRoot(reps, h) && HasExpr(groups, h, k) &&
                        SameUpTo(reps, Exprs(groups, g)[j], Exprs(groups, h)[k])
      ensures Root(reps, g) == Root(reps, h)
    {
      CanonOfCanonical(reps, Exprs(groups, g)[j]);
      CanonOfCanonical(reps, Exprs(groups, h)[k]);
    }
    assert Levelled(groups, reps, reps, rank);
  }

  /** Tidying changes nothing about the congruences. */
  lemma TidiedClosable(groups: seq<Group>, reps: seq<GroupId>, groups': seq<Group>)
    requires Shape(groups, reps) && Tidied(groups, reps, groups')
    ensures Shape(groups', reps) && (Closable(groups', reps) <==> Closable(groups, reps))
  {
    TidiedSourced(groups, reps, groups');
    TidiedKeeps(groups, reps, groups');
    hide Shape, Tidied, Sourced, Keeps;
    if Closable(groups', reps) {
      var q :| AcyclicCongruence(groups', reps, q);
      ClosesEarlier(groups, reps, groups', reps, q);
    }
    if Closable(groups, reps) {
      var q :| AcyclicCongruence(groups, reps, q);
      ClosesLater(groups, reps, groups', reps, q);
    }
  }

  /** After two roots merge, exactly the congruences that join them are left. */
  lemma MergedClosable(groups: seq<Group>, reps: seq<GroupId>, w: GroupId, l: GroupId)
    requires Shape(groups, reps) && IsRoot(reps, w) && IsRoot(reps, l) && w < l
    ensures Shape(MergedGroups(groups, w, l), reps[l := w])
    ensures Closable(MergedGroups(groups, w, l), reps[l := w]) <==> Mergeable(groups, reps, w, l)
  {
    var groups', reps' := MergedGroups(groups, w, l), reps[l := w];
    MergedSourced(groups, reps, w, l);
    MergeKeeps(groups, reps, w, l);
    RedirectRoot(reps, l, w, w);
    RedirectRoot(reps, l, w, l);
    hide Shape, Sourced, Keeps;
    if Closable(groups', reps') {
      var q :| AcyclicCongruence(groups', reps', q);
      ClosesEarlier(groups, reps, groups', reps', q);
      assert Root(q, Root(reps', w)) == Root(q, w) && Root(q, Root(reps', l)) == Root(q, l);
    }
    if Mergeable(groups, reps, w, l) {
      var q :| AcyclicCongruence(groups, reps, q) && Root(q, w) == Root(q, l);
      RefinesMerged(reps, q, w, l);
      ClosesLater(groups, reps, groups', reps', q);
    }
  }

  /** The state after two representatives become one: the smaller id wins. */
  ghost predicate Contracted(groups0: seq<Group>, reps0: seq<GroupId>, a: GroupId, b: GroupId, groups1: seq<Group>, reps1: seq<GroupId>)
    requires Shape(groups0, reps0) && IsRoot(reps0, a) && IsRoot(reps0, b) && a != b
  {
    var w, l := if a < b then a else b, if a < b then b else a;
    groups1 == MergedGroups(groups0, w, l) && reps1 == reps0[l := w]
  }

  lemma ContractedClosable(groups0: seq<Group>, reps0: seq<GroupId>, a: GroupId, b: GroupId, groups1: seq<Group>, reps1: seq<GroupId>)
    requires Shape(groups0, reps0) && IsRoot(reps0, a) && IsRoot(reps0, b) && a != b && Contracted(groups0, reps0, a, b, groups1, reps1)
    ensures Shape(groups1, reps1) && (Closable(groups1, reps1) <==> Mergeable(groups0, reps0, a, b))
  {
    hide Shape, Mergeable, Closable;
    if a < b {
      MergedClosable(groups0, reps0, a, b);
    } else {
      MergedClosable(groups0, reps0, b, a);
      MergeableRoots(groups0, reps0, a, b);
    }
  }

  /** Where two representatives own one expression, every congruence joins them. */
  lemma SharedMergeable(groups: seq<Group>, reps: seq<GroupId>, a: GroupId, b: GroupId)
    requires Shape(groups, reps) && SharedExpr(groups, reps, a, b)
    ensures Mergeable(groups, reps, a, b) <==> Closable(groups, reps)
  {
    hide Shape, Levelled;
    forall q | AcyclicCongruence(groups, reps, q) ensures Root(q, a) == Root(q, b) {
      SharedJoins(groups, reps, q, a, b);
    }
  }

  /** Merging two groups is merging their representatives. */
  lemma MergeableRoots(groups: seq<Group>, reps: seq<GroupId>, a: GroupId, b: GroupId)
    requires Shape(groups, reps) && Known(reps, a) && Known(reps, b)
    ensures Mergeable(groups, reps, a, b) <==> Mergeable(groups, reps, Root(reps, a), Root(reps, b))
    ensures Mergeable(groups, reps, a, b) <==> Mergeable(groups, reps, b, a)
  {
    hide Shape, Levelled;
    forall q | AcyclicCongruence(groups, reps, q)
      ensures Root(q, Root(reps, a)) == Root(q, a) && Root(q, Root(reps, b)) == Root(q, b)
    {
    }
  }

  /** A settled memo can merge any two groups of one class. */
  lemma SameClassMergeable(groups: seq<Group>, reps: seq<GroupId>, rank: seq<nat>, index: map<MemoExpr, GroupId>, a: GroupId, b: GroupId)
    requires Shape(groups, reps) && Acyclic(groups, reps, rank) && Tidy(groups, reps) && Indexed(groups, reps, index)
    requires Known(reps, a) && Known(reps, b) && Root(reps, a) == Root(reps, b)
    ensures Mergeable(groups, reps, a, b)
  {
    SettledCloses(groups, reps, rank, index);
  }

  lemma SettledIsClosable(groups: seq<Group>, reps: seq<GroupId>, rank: seq<nat>, index: map<MemoExpr, GroupId>)
    requires Shape(groups, reps) && Acyclic(groups, reps, rank) && Tidy(groups, reps) && Indexed(groups, reps, index)
    ensures Closable(groups, reps)
  {
    SettledCloses(groups, reps, rank, index);
  }

  lemma SharedOwners(groups: seq<Group>, reps: seq<GroupId>, a: GroupId, b: GroupId)
    requires |reps| == |groups| + 1 && SharedExpr(groups, reps, a, b)
    ensures IsRoot(reps, a) && IsRoot(reps, b) && a != b
  {
  }

  lemma ReachedIsNotMergeable(groups: seq<Group>, reps: seq<GroupId>, rank: seq<nat>, a: GroupId, b: GroupId)
    requires Shape(groups, reps) && Acyclic(groups, reps, rank) && IsRoot(reps, a) && IsRoot(reps, b) && a != b
    requires Reaches(groups, reps, rank, a, b) || Reaches(groups, reps, rank, b, a)
    ensures !Mergeable(groups, reps, a, b)
  {
    hide Acyclic, Reaches, Levelled;
    forall q | AcyclicCongruence(groups, reps, q) ensures Root(q, a) != Root(q, b) {
      ReachedIsApart(groups, reps, rank, q, a, b);
    }
  }

  // ---------------------------------------------------------------- adding an expression

  /** When an expression can be recorded as an equivalent of group `id`: the checks pass, and if another group owns
    it, the two groups can merge. */
  ghost predicate Accepts(groups: seq<Group>, reps: seq<GroupId>, rank: seq<nat>, index: map<MemoExpr, GroupId>, id: GroupId, e: MemoExpr)
    requires Shape(groups, reps) && Acyclic(groups, reps, rank) && Indexed(groups, reps, index)
  {
    CanAdd(groups, reps, rank, id, e) && (Canon(reps, e) in index ==> Mergeable(groups, reps, id, index[Canon(reps, e)]))
  }
}
