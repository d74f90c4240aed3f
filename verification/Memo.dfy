/** The optimizer's memo: a hash-consed graph of groups that is updated in place.

  `sem` and `den` are ghost: they give every group a denotation under an arbitrary
  meaning of the operators. `rank` is a ghost witness that the group graph has no cycle.
  A call that the program would abandon with an exception returns `Fails`.
 */
module Memo {
  import opened Plans
  import opened Sequences
  import opened MemoGraph
  import opened MemoCongruence
  import opened MemoPlans
  import opened Alternatives
  import opened BoundedPlans

  class Memo<D(!new)> {
    var groups: seq<Group>
    var reps: seq<GroupId>
    var index: map<MemoExpr, GroupId>

    ghost const sem: Semantics<D>
    ghost var den: map<GroupId, D>
    ghost var rank: seq<nat>

    ghost predicate Valid()
      reads this
    {
      WellFormed(groups, reps, index, rank, sem, den)
    }

    constructor (ghost sem: Semantics<D>)
      ensures Valid() && this.sem == sem && groups == [] && reps == [0] && index == map[]
    {
      this.sem := sem;
      groups, reps, index := [], [0], map[];
      den, rank := map[], [0];
    }

    // -------------------------------------------------------------- lookups

    method Representative(id: GroupId) returns (r: Outcome<GroupId>)
      requires RepsOk(reps)
      ensures r == if Known(reps, id) then Ok(Root(reps, id)) else Fails
    {
      if !Known(reps, id) {
        return Fails;
      }
      var current := id;
      while reps[current] != current
        invariant Known(reps, current) && Root(reps, current) == Root(reps, id)
        decreases current
      {
        current := reps[current];
      }
      return Ok(current);
    }

    method Canonicalize(e: MemoExpr) returns (r: Outcome<MemoExpr>)
      requires RepsOk(reps)
      ensures r == if KidsKnown(reps, e) then Ok(Canon(reps, e)) else Fails
    {
      var kids: seq<GroupId> := [];
      for i := 0 to |e.kids|
        invariant |kids| == i
        invariant forall j | 0 <= j < i :: Known(reps, e.kids[j]) && kids[j] == Root(reps, e.kids[j])
      {
        var root := Representative(e.kids[i]);
        if root.Fails? {
          return Fails;
        }
        kids := kids + [root.value];
      }
      assert kids == Canon(reps, e).kids;
      return Ok(e.(kids := kids));
    }

    /** The representative that owns `e` up to representatives of children, if any. */
    method FindExisting(e: MemoExpr) returns (r: Option<GroupId>)
      requires Valid() && KidsKnown(reps, e)
      ensures r.Some? <==> Canon(reps, e) in index
      ensures r.Some? ==> r.value == index[Canon(reps, e)] && IsRoot(reps, r.value)
    {
      var c := Canonicalize(e);
      if c.value !in index {
        return None;
      }
      var root := Representative(index[c.value]);
      return Some(root.value);
    }

    /** Depth-first search; `stack` holds the groups being visited. */
    method ReachesFrom(from: GroupId, target: GroupId, stack: seq<GroupId>) returns (r: bool)
      requires Shape(groups, reps) && Tidy(groups, reps) && Acyclic(groups, reps, rank)
      requires IsRoot(reps, from)
      requires forall s | s in stack :: IsRoot(reps, s) && rank[from] < rank[s]
      ensures r <==> Reaches(groups, reps, rank, from, target)
      decreases rank[from]
    {
      if from == target {
        return true;
      }
      if from in stack {
        return false;
      }
      var exprs := Exprs(groups, from);
      for j := 0 to |exprs|
        invariant forall j0, i | 0 <= j0 < j && IsEdge(groups, reps, from, j0, i) ::
          !Reaches(groups, reps, rank, Child(groups, reps, from, j0, i), target)
      {
        var kids := exprs[j].kids;
        for i := 0 to |kids|
          invariant forall i0 | 0 <= i0 < i && IsEdge(groups, reps, from, j, i0) ::
            !Reaches(groups, reps, rank, Child(groups, reps, from, j, i0), target)
        {
          assert HasExpr(groups, from, j) && IsEdge(groups, reps, from, j, i);
          assert Child(groups, reps, from, j, i) == kids[i];
          var found := ReachesFrom(kids[i], target, stack + [from]);
          if found {
            return true;
          }
        }
      }
      return false;
    }

    /** True when no child of `e` is or reaches `g`. */
    method NoCycleFrom(g: GroupId, e: MemoExpr) returns (r: bool)
      requires Shape(groups, reps) && Tidy(groups, reps) && Acyclic(groups, reps, rank)
      requires CanonicalKids(reps, e)
      ensures r <==> forall i | 0 <= i < |e.kids| :: !Reaches(groups, reps, rank, e.kids[i], g)
    {
      for i := 0 to |e.kids|
        invariant forall j | 0 <= j < i :: !Reaches(groups, reps, rank, e.kids[j], g)
      {
        if e.kids[i] == g {
          return false;
        }
        var found := ReachesFrom(e.kids[i], g, []);
        if found {
          return false;
        }
      }
      return true;
    }

    // -------------------------------------------------------------- inserting

    /** Appends a group for a canonical expression that no group owns. */
    method AppendGroup(e: MemoExpr) returns (id: GroupId)
      requires Valid() && ValidExpr(reps, e) && CanonicalKids(reps, e) && e !in index
      modifies this
      ensures Valid() && id == |old(reps)|
      ensures groups == AppendedGroups(old(groups), e) && reps == old(reps) + [id] && index == old(index)[e := id]
      ensures id !in old(den) && Denoted(old(den), e) && den == old(den)[id := ExprDen(sem, old(den), e)]
      ensures Keeps(old(groups), old(reps), groups, reps)
    {
      hide Acyclic, Sound, Tidy, Indexed, HasCanon, Keeps;
      AppendKeepsWellFormed(groups, reps, index, rank, sem, den, e);
      id := |groups| + 1;
      reps := reps + [id];
      groups := AppendedGroups(groups, e);
      index := index[e := id];
      rank := rank + [MaxRank(rank) + 1];
      den := den[id := ExprDen(sem, den, e)];
    }

    /** Interns an expression. An expression that is already present, up to representatives of
      children, returns its owner and changes nothing; otherwise a new group is appended. */
    method InsertExpression(e: MemoExpr) returns (r: Outcome<GroupId>)
      requires Valid()
      modifies this
      ensures Valid()
      ensures r.Ok? <==> ValidExpr(old(reps), e)
      ensures r.Fails? ==> unchanged(this)
      ensures r.Ok? ==> KidsKnown(reps, e) && Canon(reps, e) in index && r.value == index[Canon(reps, e)]
      ensures r.Ok? ==> Denoted(den, e) && r.value in den && den[r.value] == ExprDen(sem, den, e)
      ensures r.Ok? && old(KidsKnown(reps, e) && Canon(reps, e) in index) ==> unchanged(this)
      ensures r.Ok? && !old(KidsKnown(reps, e) && Canon(reps, e) in index) ==>
                r.value == |groups| && groups == AppendedGroups(old(groups), old(Canon(reps, e))) &&
                reps == old(reps) + [r.value]
      ensures Keeps(old(groups), old(reps), groups, reps) && IndexGrows(old(index), index)
      ensures DenGrows(old(den), den)
      ensures old(Pristine(groups, reps)) && e.tag.Relational? ==> Pristine(groups, reps)
    {
      hide Acyclic, Sound, Tidy, Indexed, HasCanon, Keeps, Pristine;
      KeepsReflexive(groups, reps);
      var c := Canonicalize(e);
      if c.Fails? {
        return Fails;
      }
      CanonIsValid(reps, e);
      if !ValidExpr(reps, c.value) {
        return Fails;
      }
      var existing := FindExisting(c.value);
      if existing.Some? {
        IndexedDen(groups, reps, index, rank, sem, den, e);
        return Ok(existing.value);
      }
      CanonUnderAppend(reps, e);
      AppendedIsPristine(groups, reps, c.value);
      var id := AppendGroup(c.value);
      IndexedDen(groups, reps, index, rank, sem, den, e);
      return Ok(id);
    }

    /** Interns a plan bottom-up: children first, then the node over their groups.
      A plan that already has a group changes nothing and returns that group. */
    method Insert(p: Plan) returns (r: Outcome<GroupId>)
      requires Valid()
      modifies this
      ensures Valid()
      ensures r.Ok? <==> WellShaped(p)
      ensures r.Ok? ==> Lookup(index, p) == Some(r.value) && IsRoot(reps, r.value)
      ensures r.Ok? ==> r.value in den && den[r.value] == PlanDen(sem, p)
      ensures old(Lookup(index, p)).Some? ==> unchanged(this)
      ensures Keeps(old(groups), old(reps), groups, reps) && IndexGrows(old(index), index)
      ensures DenGrows(old(den), den)
      ensures old(Pristine(groups, reps)) ==> Pristine(groups, reps)
      decreases p
    {
      hide Shape, Acyclic, Sound, Tidy, Indexed, HasCanon, Keeps, Pristine, ValidOp;
      KeepsReflexive(groups, reps);
      if |p.kids| != Arity(p.op) {
        return Fails;
      }
      assert LookupAll(index, p.kids).Some? ==> forall i | 0 <= i < |p.kids| :: Lookup(index, p.kids[i]).Some?;
      var kids := InsertAll(p.kids);
      if kids.Fails? {
        return Fails;
      }
      ghost var groups0, reps0 := groups, reps;
      r := InsertNode(p, kids.value);
      KeepsTransitive(old(groups), old(reps), groups0, reps0, groups, reps);
    }

    method InsertAll(ps: seq<Plan>) returns (r: Outcome<seq<GroupId>>)
      requires Valid()
      modifies this
      ensures Valid()
      ensures r.Ok? <==> forall i | 0 <= i < |ps| :: WellShaped(ps[i])
      ensures r.Ok? ==> |r.value| == |ps| && forall i | 0 <= i < |ps| :: Lookup(index, ps[i]) == Some(r.value[i])
      ensures r.Ok? ==> forall i | 0 <= i < |ps| :: r.value[i] in den && den[r.value[i]] == PlanDen(sem, ps[i])
      ensures old(forall i | 0 <= i < |ps| :: Lookup(index, ps[i]).Some?) ==> unchanged(this)
      ensures Keeps(old(groups), old(reps), groups, reps) && IndexGrows(old(index), index)
      ensures DenGrows(old(den), den)
      ensures old(Pristine(groups, reps)) ==> Pristine(groups, reps)
      decreases ps
    {
      hide Shape, Acyclic, Sound, Tidy, Indexed, HasCanon, Keeps, Pristine, WellShaped, PlanDen, Lookup;
      KeepsReflexive(groups, reps);
      if ps == [] {
        return Ok([]);
      }
      var n := |ps| - 1;
      var init := InsertAll(ps[..n]);
      if init.Fails? {
        return Fails;
      }
      ghost var groups0, reps0, index0, den0 := groups, reps, index, den;
      var last := Insert(ps[n]);
      KeepsTransitive(old(groups), old(reps), groups0, reps0, groups, reps);
      if last.Fails? {
        return Fails;
      }
      forall i | 0 <= i < n ensures Lookup(index, ps[i]) == Some(init.value[i]) {
        LookupGrows(index0, index, ps[i]);
      }
      forall i | 0 <= i < n ensures init.value[i] in den && den[init.value[i]] == PlanDen(sem, ps[i]) {
        assert ps[..n][i] == ps[i];
        var id: GroupId := init.value[i];
        assert id in den0 && id in den;
      }
      return Ok(init.value + [last.value]);
    }

    /** The last step of `Insert`: the node over the groups of its children. */
    method InsertNode(p: Plan, kids: seq<GroupId>) returns (r: Outcome<GroupId>)
      requires Valid() && |p.kids| == |kids| == Arity(p.op)
      requires forall j | 0 <= j < |kids| :: WellShaped(p.kids[j]) && Lookup(index, p.kids[j]) == Some(kids[j])
      requires forall j | 0 <= j < |kids| :: kids[j] in den && den[kids[j]] == PlanDen(sem, p.kids[j])
      modifies this
      ensures Valid()
      ensures r.Ok? <==> WellShaped(p)
      ensures r.Ok? ==> Lookup(index, p) == Some(r.value) && IsRoot(reps, r.value)
      ensures r.Ok? ==> r.value in den && den[r.value] == PlanDen(sem, p)
      ensures old(Lookup(index, p)).Some? ==> unchanged(this)
      ensures Keeps(old(groups), old(reps), groups, reps) && IndexGrows(old(index), index)
      ensures DenGrows(old(den), den)
      ensures old(Pristine(groups, reps)) ==> Pristine(groups, reps)
    {
      hide Acyclic, Sound, Tidy, Indexed, HasCanon, Keeps, Pristine;
      var e := Embed(p, kids);
      EmbedIsCanonical(groups, reps, index, p, kids);
      ghost var index0 := index;
      r := InsertExpression(e);
      if r.Ok? {
        forall j | 0 <= j < |kids| ensures Lookup(index, p.kids[j]) == Some(kids[j]) {
          LookupGrows(index0, index, p.kids[j]);
        }
        EmbedIsCanonical(groups, reps, index, p, kids);
        LookupIsRoot(groups, reps, index, p);
        EmbedDen(sem, den, p, kids);
      }
    }

    // -------------------------------------------------------------- merging

    /** Moves the loser's expressions behind the winner's and redirects the loser. */
    method Contract(winner: GroupId, loser: GroupId)
      requires Loose(groups, reps, rank, sem, den)
      requires IsRoot(reps, winner) && IsRoot(reps, loser) && winner < loser && den[winner] == den[loser]
      requires !Reaches(groups, reps, rank, winner, loser) && !Reaches(groups, reps, rank, loser, winner)
      modifies this`groups, this`reps, this`rank
      ensures Loose(groups, reps, rank, sem, den)
      ensures Keeps(old(groups), old(reps), groups, reps)
      ensures groups == MergedGroups(old(groups), winner, loser) && reps == old(reps)[loser := winner]
      ensures RootCount(reps) < RootCount(old(reps))
    {
      MergeKeepsLoose(groups, reps, rank, sem, den, winner, loser);
      rank := MergedRank(groups, reps, rank, winner, loser);
      groups := MergedGroups(groups, winner, loser);
      reps := reps[loser := winner];
    }

    /** Merges the classes of two groups: the smaller id wins. Throws when one reaches the other. */
    method MergeRepresentativesOnce(first: GroupId, second: GroupId) returns (r: Outcome<bool>)
      requires Loose(groups, reps, rank, sem, den) && Tidy(groups, reps)
      requires Known(reps, first) && Known(reps, second) && den[first] == den[second]
      modifies this`groups, this`reps, this`rank
      ensures Loose(groups, reps, rank, sem, den)
      ensures |groups| == old(|groups|) && Keeps(old(groups), old(reps), groups, reps)
      ensures
        var a, b := Root(old(reps), first), Root(old(reps), second);
        && (r.Fails? <==> a != b && old(Reaches(groups, reps, rank, a, b) || Reaches(groups, reps, rank, b, a)))
        && (r.Ok? ==> r.value == (a != b))
      ensures r != Ok(true) ==> groups == old(groups) && reps == old(reps)
      ensures r == Ok(true) ==> Contracted(old(groups), old(reps), Root(old(reps), first), Root(old(reps), second), groups, reps)
      ensures r == Ok(true) ==> Root(reps, first) == Root(reps, second) && RootCount(reps) < RootCount(old(reps))
    {
      hide Acyclic, Sound, Tidy, Keeps, Reaches;
      KeepsReflexive(groups, reps);
      SameDen(groups, reps, sem, den, first);
      SameDen(groups, reps, sem, den, second);
      var a := Representative(first);
      var b := Representative(second);
      if a.value == b.value {
        return Ok(false);
      }
      var winner := if a.value < b.value then a.value else b.value;
      var loser := if a.value < b.value then b.value else a.value;
      var down := ReachesFrom(winner, loser, []);
      var up := ReachesFrom(loser, winner, []);
      if down || up {
        return Fails;
      }
      RedirectRoot(reps, loser, winner, first);
      RedirectRoot(reps, loser, winner, second);
      Contract(winner, loser);
      return Ok(true);
    }

    /** Replaces every loser's expressions by one alias to its representative. */
    method MarkNonRepresentatives()
      requires Shape(groups, reps)
      modifies this`groups
      ensures |groups| == old(|groups|) && Numbered(groups)
      ensures forall g | Known(reps, g) :: Exprs(groups, g) == MarkedExprs(old(groups), reps, g)
    {
      ghost var groups0 := groups;
      assert Numbered(groups);
      hide Shape, MarkedExprs, Root, Canon, WithExprs, Numbered;
      for i := 0 to |groups|
        invariant |groups| == |groups0| && Numbered(groups)
        invariant forall g | Known(reps, g) :: Exprs(groups, g) ==
                    if g <= i then MarkedExprs(groups0, reps, g) else Exprs(groups0, g)
      {
        var root := Representative(i + 1);
        MarkedAt(groups0, reps, i + 1);
        if root.value != i + 1 {
          assert Exprs(groups, root.value) == Exprs(groups0, root.value);
          groups := WithExprs(groups, i + 1, [Alias(root.value, Exprs(groups, root.value)[0].perm)]);
        }
      }
    }

    method CanonicalizeAll(exprs: seq<MemoExpr>) returns (r: seq<MemoExpr>)
      requires RepsOk(reps) && forall j | 0 <= j < |exprs| :: KidsKnown(reps, exprs[j])
      ensures r == CanonAll(reps, exprs)
    {
      r := [];
      for j := 0 to |exprs|
        invariant |r| == j && forall h | 0 <= h < j :: r[h] == Canon(reps, exprs[h])
      {
        var c := Canonicalize(exprs[j]);
        r := r + [c.value];
      }
    }

    static method Deduplicate(exprs: seq<MemoExpr>) returns (unique: seq<MemoExpr>)
      ensures unique == Dedup(exprs)
    {
      unique := [];
      for j := 0 to |exprs|
        invariant unique == Dedup(exprs[..j])
      {
        assert exprs[..j + 1][..j] == exprs[..j];
        if exprs[j] !in unique {
          unique := unique + [exprs[j]];
        }
      }
      assert exprs[..|exprs|] == exprs;
    }

    method CanonicalizeChildReferences()
      requires RepsOk(reps) && |reps| == |groups| + 1
      requires forall g, j | Known(reps, g) && HasExpr(groups, g, j) :: KidsKnown(reps, Exprs(groups, g)[j])
      requires Numbered(groups)
      modifies this`groups
      ensures |groups| == old(|groups|) && Numbered(groups)
      ensures forall g | Known(reps, g) ::
                (forall j | 0 <= j < |Exprs(old(groups), g)| :: KidsKnown(reps, Exprs(old(groups), g)[j])) &&
                Exprs(groups, g) == CanonAll(reps, Exprs(old(groups), g))
    {
      ghost var groups0 := groups;
      for i := 0 to |groups|
        invariant |groups| == |groups0| && Numbered(groups)
        invariant forall g | Known(reps, g) && g > i :: Exprs(groups, g) == Exprs(groups0, g)
        invariant forall g | Known(reps, g) && g <= i ::
                    (forall j | 0 <= j < |Exprs(groups0, g)| :: KidsKnown(reps, Exprs(groups0, g)[j])) &&
                    Exprs(groups, g) == CanonAll(reps, Exprs(groups0, g))
      {
        assert Exprs(groups, i + 1) == Exprs(groups0, i + 1);
        ghost var next := Exprs(groups, i + 1);
        forall j | 0 <= j < |next| ensures KidsKnown(reps, next[j]) {
          assert HasExpr(groups0, i + 1, j);
        }
        var exprs := CanonicalizeAll(Exprs(groups, i + 1));
        groups := WithExprs(groups, i + 1, exprs);
      }
    }

    method DeduplicateRepresentatives()
      requires RepsOk(reps) && |reps| == |groups| + 1
      requires Numbered(groups)
      modifies this`groups
      ensures |groups| == old(|groups|) && Numbered(groups)
      ensures forall g | Known(reps, g) :: Exprs(groups, g) ==
                if IsRoot(reps, g) then Dedup(Exprs(old(groups), g)) else Exprs(old(groups), g)
    {
      hide Dedup, Root, WithExprs, Numbered;
      ghost var groups0 := groups;
      for i := 0 to |groups|
        invariant |groups| == |groups0| && Numbered(groups)
        invariant forall g | Known(reps, g) :: Exprs(groups, g) ==
                    if g <= i && IsRoot(reps, g) then Dedup(Exprs(groups0, g)) else Exprs(groups0, g)
      {
        if reps[i + 1] == i + 1 {
          assert Exprs(groups, i + 1) == Exprs(groups0, i + 1);
          var exprs := Deduplicate(Exprs(groups, i + 1));
          groups := WithExprs(groups, i + 1, exprs);
        }
      }
    }

    /** Aliases losers, canonicalizes children and removes duplicates. */
    method TidyPass()
      requires Shape(groups, reps)
      modifies this`groups
      ensures Tidied(old(groups), reps, groups)
    {
      ghost var groups0 := groups;
      MarkNonRepresentatives();
      ghost var marked := groups;
      forall g, j | Known(reps, g) && HasExpr(marked, g, j) ensures KidsKnown(reps, Exprs(marked, g)[j]) {
        MarkedAt(groups0, reps, g);
      }
      CanonicalizeChildReferences();
      DeduplicateRepresentatives();
      forall g | Known(reps, g) ensures Exprs(groups, g) == TidyExprs(groups0, reps, g) {
        MarkedAt(groups0, reps, g);
        if !IsRoot(reps, g) {
          var alias := MarkedExprs(groups0, reps, g)[0];
          CanonOfCanonical(reps, alias);
          assert CanonAll(reps, [alias]) == [alias];
        }
      }
    }

    /** Rebuilds the index group by group. Stops at the first expression that a different
      representative already owns, and returns both owners. The checks for malformed
      expressions and for cycles never fire here. */
    method ScanIndex() returns (conflict: Option<(GroupId, GroupId)>)
      requires Loose(groups, reps, rank, sem, den) && Tidy(groups, reps)
      modifies this`index
      ensures conflict.None? ==> Indexed(groups, reps, index)
      ensures conflict.Some? ==> SharedExpr(groups, reps, conflict.value.0, conflict.value.1)
    {
      hide Acyclic, Sound, Tidy, SharedExpr;
      index := map[];
      assert PartlyIndexed(groups, reps, index, 1, 0);
      hide PartlyIndexed, Indexed;
      assert |groups| == 0 ==> Indexed(groups, reps, index) by { EmptyIndexed(groups, reps); }
      for i := 0 to |groups|
        invariant PartlyIndexed(groups, reps, index, i + 1, 0)
        invariant i == |groups| ==> Indexed(groups, reps, index)
      {
        if reps[i + 1] == i + 1 {
          conflict := IndexGroup(i + 1);
          if conflict.Some? {
            return;
          }
        }
        PartlyIndexedNext(groups, reps, index, i + 1);
      }
      return None;
    }

    method IndexGroup(g: GroupId) returns (conflict: Option<(GroupId, GroupId)>)
      requires Loose(groups, reps, rank, sem, den) && Tidy(groups, reps)
      requires IsRoot(reps, g) && PartlyIndexed(groups, reps, index, g, 0)
      modifies this`index
      ensures conflict.None? ==> PartlyIndexed(groups, reps, index, g, |Exprs(groups, g)|)
      ensures conflict.Some? ==> SharedExpr(groups, reps, conflict.value.0, conflict.value.1)
    {
      hide Acyclic, Sound, Tidy, PartlyIndexed, SharedExpr;
      var exprs := Exprs(groups, g);
      for j := 0 to |exprs|
        invariant PartlyIndexed(groups, reps, index, g, j)
      {
        OwnExprHasNoCycle(groups, reps, rank, g, j);
        var acyclic := NoCycleFrom(g, exprs[j]);
        assert acyclic;
        if exprs[j] in index && index[exprs[j]] != g {
          PartlyIndexedConflict(groups, reps, index, g, j);
          return Some((index[exprs[j]], g));
        }
        PartlyIndexedStep(groups, reps, index, g, j);
        index := index[exprs[j] := g];
      }
      return None;
    }

    /** One tidying pass, with what it preserves. */
    method Tighten(ghost groups0: seq<Group>, ghost reps0: seq<GroupId>)
      requires Loose(groups, reps, rank, sem, den) && Keeps(groups0, reps0, groups, reps)
      modifies this`groups
      ensures Tidied(old(groups), reps, groups) && |groups| == old(|groups|)
      ensures Loose(groups, reps, rank, sem, den) && Tidy(groups, reps) && Keeps(groups0, reps0, groups, reps)
    {
      ghost var groups1 := groups;
      TidyPass();
      TidiedKeepsLoose(groups1, reps, rank, sem, den, groups);
      TidiedKeeps(groups1, reps, groups);
      KeepsTransitive(groups0, reps0, groups1, reps, groups, reps);
    }

    /** One round: tidy, rebuild the index, and merge the first two owners of one expression. */
    method CongruenceRound(ghost groups0: seq<Group>, ghost reps0: seq<GroupId>) returns (r: Outcome<bool>)
      requires Loose(groups, reps, rank, sem, den) && Keeps(groups0, reps0, groups, reps)
      modifies this`groups, this`reps, this`rank, this`index
      ensures |groups| == old(|groups|)
      ensures r.Ok? ==> Loose(groups, reps, rank, sem, den) && Keeps(groups0, reps0, groups, reps)
      ensures r == Ok(false) ==> reps == old(reps) && Tidy(groups, reps) && Indexed(groups, reps, index)
      ensures r == Ok(true) ==> RootCount(reps) < RootCount(old(reps))
      ensures r.Ok? ==> (Closable(groups, reps) <==> Closable(old(groups), old(reps)))
      ensures r.Fails? ==> !Closable(old(groups), old(reps))
    {
      hide Shape, Acyclic, Sound, Tidy, Indexed, Keeps, Closable, Mergeable, SharedExpr, Reaches, Contracted, Tidied;
      ghost var given := groups;
      Tighten(groups0, reps0);
      TidiedClosable(given, reps, groups);
      var conflict := ScanIndex();
      if conflict.None? {
        return Ok(false);
      }
      ghost var (a, b) := conflict.value;
      SharedDen(groups, reps, sem, den, a, b);
      SharedOwners(groups, reps, a, b);
      SharedMergeable(groups, reps, a, b);
      ghost var groups1, reps1, rank1 := groups, reps, rank;
      r := MergeRepresentativesOnce(conflict.value.0, conflict.value.1);
      if r.Fails? {
        ReachedIsNotMergeable(groups1, reps1, rank1, a, b);
        return;
      }
      ContractedClosable(groups1, reps1, a, b, groups, reps);
      KeepsTransitive(groups0, reps0, groups1, reps1, groups, reps);
    }

    /** The last pass finds a memo that is already tidy, so the rebuilt index has no conflict. */
    method Settle(ghost groups0: seq<Group>, ghost reps0: seq<GroupId>)
      requires Loose(groups, reps, rank, sem, den) && Keeps(groups0, reps0, groups, reps)
      requires Tidy(groups, reps) && Indexed(groups, reps, index)
      modifies this`groups, this`index
      ensures |groups| == old(|groups|) && Valid() && Keeps(groups0, reps0, groups, reps)
    {
      ghost var groups1, index1 := groups, index;
      Tighten(groups0, reps0);
      TidiedIsStable(groups1, reps, groups);
      var conflict := ScanIndex();
      if conflict.Some? {
        SharedIsNotIndexed(groups, groups1, reps, index1, conflict.value.0, conflict.value.1);
      }
    }

    /** Restores congruence: while two representatives own one expression, merge them.
      Each round lowers the number of representatives. */
    method NormalizeAfterMerge() returns (r: Outcome<()>)
      requires Loose(groups, reps, rank, sem, den)
      modifies this`groups, this`reps, this`rank, this`index
      ensures |groups| == old(|groups|)
      ensures r.Ok? ==> Valid() && Keeps(old(groups), old(reps), groups, reps)
      ensures r.Ok? <==> Closable(old(groups), old(reps))
    {
      hide Shape, Acyclic, Sound, Tidy, Indexed, Keeps, Closable;
      ghost var groups0, reps0 := groups, reps;
      KeepsReflexive(groups, reps);
      var changed := true;
      while changed
        invariant Loose(groups, reps, rank, sem, den) && |groups| == |groups0|
        invariant Keeps(groups0, reps0, groups, reps)
        invariant !changed ==> Tidy(groups, reps) && Indexed(groups, reps, index)
        invariant Closable(groups, reps) <==> Closable(groups0, reps0)
        decreases RootCount(reps), changed
      {
        var round := CongruenceRound(groups0, reps0);
        if round.Fails? {
          return Fails;
        }
        changed := round.value;
      }
      SettledIsClosable(groups, reps, rank, index);
      Settle(groups0, reps0);
      return Ok(());
    }

    method MergeGroups(first: GroupId, second: GroupId) returns (r: Outcome<()>)
      requires Valid() && Known(reps, first) && Known(reps, second) && den[first] == den[second]
      modifies this`groups, this`reps, this`rank, this`index
      ensures |groups| == old(|groups|)
      ensures r.Ok? ==> Valid() && Keeps(old(groups), old(reps), groups, reps)
      ensures r.Ok? ==> Known(reps, first) && Known(reps, second) && Root(reps, first) == Root(reps, second)
      ensures r.Ok? <==> Mergeable(old(groups), old(reps), first, second)
    {
      hide Acyclic, Sound, Tidy, Indexed, HasCanon, Closable, Mergeable, Contracted, Reaches;
      ghost var groups0, reps0, rank0 := groups, reps, rank;
      ghost var a, b := Root(reps, first), Root(reps, second);
      MergeableRoots(groups, reps, first, second);
      var merged := MergeRepresentativesOnce(first, second);
      if merged.Fails? {
        ReachedIsNotMergeable(groups0, reps0, rank0, a, b);
        return Fails;
      }
      if !merged.value {
        SameClassMergeable(groups, reps, rank, index, first, second);
        return Ok(());
      }
      ContractedClosable(groups0, reps0, a, b, groups, reps);
      ghost var groups1, reps1 := groups, reps;
      r := NormalizeAfterMerge();
      if r.Ok? {
        KeepsTransitive(groups0, reps0, groups1, reps1, groups, reps);
        SameClassStays(reps1, reps, first, second);
      }
    }

    /** Merges group `id` with the group that owns `e`. */
    method MergeWithOwner(id: GroupId, owner: GroupId, ghost e: MemoExpr) returns (r: Outcome<()>)
      requires Valid() && Known(reps, id) && IsRoot(reps, owner) && HasCanon(groups, reps, owner, e)
      requires den[id] == den[owner]
      modifies this`groups, this`reps, this`rank, this`index
      ensures |groups| == old(|groups|)
      ensures r.Ok? ==> Valid() && Keeps(old(groups), old(reps), groups, reps)
      ensures r.Ok? ==> Known(reps, id) && HasCanon(groups, reps, Root(reps, id), e)
      ensures r.Ok? <==> Mergeable(old(groups), old(reps), id, owner)
    {
      hide Acyclic, Sound, Tidy, Indexed, HasCanon, Mergeable;
      ghost var groups0, reps0 := groups, reps;
      r := MergeGroups(id, owner);
      if r.Ok? {
        HasCanonStays(groups0, reps0, groups, reps, owner, e);
      }
    }

    /** The checks before an insertion: known group and children, well-formed fields, no cycle. */
    method Admit(id: GroupId, e: MemoExpr) returns (r: Outcome<(GroupId, MemoExpr)>)
      requires Valid()
      ensures r.Ok? <==> CanAdd(groups, reps, rank, id, e)
      ensures r.Ok? ==> r.value == (Root(reps, id), Canon(reps, e)) && CanonicalKids(reps, Canon(reps, e))
      ensures r.Ok? ==> ValidExpr(reps, Canon(reps, e)) && Canon(reps, Canon(reps, e)) == Canon(reps, e)
    {
      hide Acyclic, Sound, Tidy, Indexed;
      if !Known(reps, id) {
        return Fails;
      }
      var root := Representative(id);
      var c := Canonicalize(e);
      if c.Fails? {
        return Fails;
      }
      CanonIsValid(reps, e);
      if !ValidExpr(reps, c.value) {
        return Fails;
      }
      var acyclic := NoCycleFrom(root.value, c.value);
      if !acyclic {
        return Fails;
      }
      return Ok((root.value, c.value));
    }

    /** Adds an expression that denotes what group `id` denotes. When another group already owns
      the expression, the two groups merge; the call is abandoned exactly when its checks fail or no acyclic
      congruence joins the two. Returns whether anything changed. */
    method InsertEquivalent(id: GroupId, e: MemoExpr) returns (r: Outcome<bool>)
      requires Valid()
      requires Known(reps, id) && ValidExpr(reps, e) ==> Denoted(den, e) && ExprDen(sem, den, e) == den[id]
      modifies this`groups, this`reps, this`rank, this`index
      ensures |groups| == old(|groups|)
      ensures !old(CanAdd(groups, reps, rank, id, e)) ==> r.Fails? && unchanged(this)
      ensures r.Ok? ==> Valid() && Keeps(old(groups), old(reps), groups, reps)
      ensures r.Ok? ==> Known(reps, id) && HasCanon(groups, reps, Root(reps, id), e)
      ensures r.Ok? <==> old(Accepts(groups, reps, rank, index, id, e))
      ensures r.Ok? ==> (r.value <==> !old(HasCanon(groups, reps, Root(reps, id), e)))
      ensures r == Ok(false) ==> unchanged(this)
      ensures old(CanAdd(groups, reps, rank, id, e) && Canon(reps, e) !in index) ==>
                r == Ok(true) && reps == old(reps) && groups == ExtendedGroups(old(groups), old(Root(reps, id)), old(Canon(reps, e))) &&
                index == old(index)[old(Canon(reps, e)) := old(Root(reps, id))]
    {
      hide Acyclic, Sound, Tidy, Indexed, HasCanon, Keeps, Mergeable;
      var admitted := Admit(id, e);
      if admitted.Fails? {
        return Fails;
      }
      var (root, c) := admitted.value;
      KeepsReflexive(groups, reps);
      IndexedHasCanon(groups, reps, index, e);
      CanonDen(groups, reps, sem, den, e, id);
      var existing := FindExisting(c);
      if existing.Some? {
        if existing.value == root {
          SameClassMergeable(groups, reps, rank, index, id, root);
          return Ok(false);
        }
        IndexedDen(groups, reps, index, rank, sem, den, e);
        var merged := MergeWithOwner(id, existing.value, e);
        return if merged.Ok? then Ok(true) else Fails;
      }
      AddToGroup(root, c);
      HasCanonOfCanon(groups, reps, root, e);
      return Ok(true);
    }

    /** Pushes a canonical expression that no group owns onto a representative. */
    method AddToGroup(g: GroupId, e: MemoExpr)
      requires Valid() && IsRoot(reps, g) && ValidExpr(reps, e) && CanonicalKids(reps, e) && e !in index
      requires forall i | 0 <= i < |e.kids| :: !Reaches(groups, reps, rank, e.kids[i], g)
      requires Denoted(den, e) && ExprDen(sem, den, e) == den[g]
      modifies this`groups, this`index, this`rank
      ensures Valid() && groups == ExtendedGroups(old(groups), g, e) && index == old(index)[e := g]
      ensures Keeps(old(groups), reps, groups, reps)
    {
      hide Acyclic, Sound, Tidy, Indexed, Keeps;
      ExtendKeepsWellFormed(groups, reps, index, rank, sem, den, g, e);
      rank := ExtendedRank(groups, reps, rank, g);
      groups := ExtendedGroups(groups, g, e);
      index := index[e := g];
    }

    /** Records that group `id` denotes what group `other` denotes, by a reference expression. */
    method InsertGroupRefEquivalent(id: GroupId, other: GroupId) returns (r: Outcome<bool>)
      requires Valid()
      requires Known(reps, id) && Known(reps, other) ==> den[id] == den[other]
      modifies this`groups, this`reps, this`rank, this`index
      ensures |groups| == old(|groups|)
      ensures !Known(old(reps), id) || !Known(old(reps), other) ==> r.Fails? && unchanged(this)
      ensures r.Ok? ==> Valid() && Keeps(old(groups), old(reps), groups, reps)
      ensures r.Ok? && id != other ==> Known(reps, id) && Known(old(reps), other) && Known(old(reps), id)
      ensures r.Ok? && id != other ==>
                HasCanon(groups, reps, Root(reps, id),
                         old(Alias(Root(reps, other), Exprs(groups, Root(reps, id))[0].perm)))
      ensures old(Known(reps, id)) && id == other ==> r == Ok(false)
      ensures r.Ok? && id != other ==>
                (r.value <==> !old(HasCanon(groups, reps, Root(reps, id),
                                            Alias(Root(reps, other), Exprs(groups, Root(reps, id))[0].perm))))
      ensures r == Ok(false) ==> unchanged(this)
      ensures old(Known(reps, id) && Known(reps, other) && id != other) ==>
                (r.Ok? <==> old(Accepts(groups, reps, rank, index, id, Alias(Root(reps, other), Exprs(groups, Root(reps, id))[0].perm))))
    {
      if !Known(reps, id) || !Known(reps, other) {
        return Fails;
      }
      if id == other {
        KeepsReflexive(groups, reps);
        return Ok(false);
      }
      var root := Representative(id);
      var target := Representative(other);
      assert HasExpr(groups, root.value, 0);
      r := InsertEquivalent(id, Alias(target.value, Exprs(groups, root.value)[0].perm));
    }

    // -------------------------------------------------------------- extraction

    method Extract(id: GroupId) returns (r: Outcome<Plan>)
      requires Valid()
      ensures r.Ok? <==> Known(reps, id)
      ensures r.Ok? ==> r.value == FirstPlan(groups, reps, rank, Root(reps, id))
      ensures r.Ok? ==> Derives(groups, reps, rank, Root(reps, id), r.value) && PlanDen(sem, r.value) == den[id]
    {
      var root := Representative(id);
      if root.Fails? {
        return Fails;
      }
      var p := ExtractFrom(root.value);
      FirstPlanDerives(groups, reps, rank, root.value);
      DerivedDen(groups, reps, rank, sem, den, root.value, p);
      return Ok(p);
    }

    method ExtractFrom(g: GroupId) returns (p: Plan)
      requires Valid() && IsRoot(reps, g)
      ensures p == FirstPlan(groups, reps, rank, g)
      decreases rank[g]
    {
      hide Shape, Acyclic, Sound, Tidy, Indexed, FirstPlan;
      FirstPlanByKids(groups, reps, rank, g);
      var e := Exprs(groups, g)[0];
      if e.tag.GroupRef? {
        p := ExtractFrom(e.kids[0]);
        return;
      }
      var kids: seq<Plan> := [];
      for i := 0 to |e.kids|
        invariant |kids| == i
        invariant forall h | 0 <= h < i :: kids[h] == FirstPlan(groups, reps, rank, e.kids[h])
      {
        var kid := ExtractFrom(e.kids[i]);
        kids := kids + [kid];
      }
      p := Node(e.perm, e.tag.op, kids);
      assert kids == FirstPlan(groups, reps, rank, g).kids;
    }

    /** Enumerates alternatives under two bounds. The list is the longest prefix within `maxPlans` of the alternatives of
      the memo cut to the first `maxExprs` expressions of each group, and the flags report exactly what was cut. */
    method ExtractAlternatives(id: GroupId, maxExprs: nat, maxPlans: nat)
      returns (r: Outcome<seq<Plan>>, hitExprs: bool, hitPlans: bool)
      requires Valid()
      ensures r.Ok? <==> Known(reps, id) && maxExprs != 0 && maxPlans != 0
      ensures r.Ok? ==> Graph(Truncated(groups, maxExprs), reps, rank) &&
                        r.value == Take(AllPlans(Truncated(groups, maxExprs), reps, rank, Root(reps, id)), maxPlans)
      ensures r.Ok? ==> (hitPlans <==> PlansCut(Truncated(groups, maxExprs), reps, rank, Root(reps, id), maxPlans))
      ensures r.Ok? && hitExprs ==> ExprsCut(groups, reps, rank, Root(reps, id), maxExprs)
      ensures r.Ok? && !hitPlans && ExprsCut(groups, reps, rank, Root(reps, id), maxExprs) ==> hitExprs
      ensures r.Ok? ==> forall i | 0 <= i < |r.value| ::
                Derives(groups, reps, rank, Root(reps, id), r.value[i]) && PlanDen(sem, r.value[i]) == den[id]
      ensures r.Ok? && !hitExprs && !hitPlans ==> r.value == AllPlans(groups, reps, rank, Root(reps, id))
      ensures r.Ok? && Ample(groups, reps, rank, Root(reps, id), maxExprs, maxPlans) ==> !hitExprs && !hitPlans
    {
      hitExprs, hitPlans := false, false;
      var root := Representative(id);
      if maxExprs == 0 || maxPlans == 0 || root.Fails? {
        return Fails, false, false;
      }
      var plans;
      TruncatedGraph(groups, reps, rank, maxExprs);
      plans, hitExprs, hitPlans := AlternativesForGroup(root.value, maxExprs, maxPlans);
      hide Shape, Acyclic, Sound, Tidy, Indexed, Derives, AllPlans, PlansCut, ExprsCut, Ample;
      ghost var all := AllPlans(Truncated(groups, maxExprs), reps, rank, root.value);
      forall i | 0 <= i < |plans| ensures Derives(groups, reps, rank, root.value, plans[i]) && PlanDen(sem, plans[i]) == den[id] {
        assert plans[i] == all[i] && plans[i] in all;
        InAllPlans(Truncated(groups, maxExprs), reps, rank, root.value, plans[i]);
        TruncatedDerives(groups, reps, rank, maxExprs, root.value, plans[i]);
        DerivedDen(groups, reps, rank, sem, den, root.value, plans[i]);
        SameDen(groups, reps, sem, den, id);
      }
      if !hitExprs && !hitPlans {
        UncutPlans(groups, reps, rank, root.value, maxExprs);
        PlansCutStep(Truncated(groups, maxExprs), reps, rank, root.value, maxPlans);
      }
      if Ample(groups, reps, rank, root.value, maxExprs, maxPlans) {
        AmpleBounds(groups, reps, rank, root.value, maxExprs, maxPlans);
      }
      return Ok(plans), hitExprs, hitPlans;
    }

    method AlternativesForGroup(g: GroupId, maxExprs: nat, maxPlans: nat)
      returns (plans: seq<Plan>, hitExprs: bool, hitPlans: bool)
      requires Valid() && IsRoot(reps, g) && maxPlans > 0 && maxExprs > 0 && Graph(Truncated(groups, maxExprs), reps, rank)
      ensures plans == Take(AllPlans(Truncated(groups, maxExprs), reps, rank, g), maxPlans)
      ensures hitPlans <==> PlansCut(Truncated(groups, maxExprs), reps, rank, g, maxPlans)
      ensures hitExprs ==> ExprsCut(groups, reps, rank, g, maxExprs)
      ensures !hitPlans && ExprsCut(groups, reps, rank, g, maxExprs) ==> hitExprs
      decreases rank[g], 1
    {
      ghost var cut := Truncated(groups, maxExprs);
      hide Shape, Acyclic, Sound, Tidy, Indexed, PlansCut, ExprsCut, KidsCut, KidsExprsCut, ExprPlans, Take;
      var exprs := Exprs(groups, g);
      var count := if maxExprs < |exprs| then maxExprs else |exprs|;
      assert |Exprs(cut, g)| == count;
      PlansCutStep(cut, reps, rank, g, maxPlans);
      ExprsCutStep(groups, reps, rank, g, maxExprs);
      plans, hitExprs, hitPlans := [], count < |exprs|, false;
      for j := 0 to count
        invariant plans == PlansUpTo(cut, reps, rank, g, j) && |plans| < maxPlans
        invariant hitPlans <==> exists h :: 0 <= h < j && KidsCut(cut, reps, rank, g, h, maxPlans)
        invariant hitExprs ==> ExprsCut(groups, reps, rank, g, maxExprs)
        invariant !hitPlans && !hitExprs ==> |exprs| <= maxExprs && forall h | 0 <= h < j :: !KidsExprsCut(groups, reps, rank, g, h, maxExprs)
      {
        assert HasExpr(groups, g, j) && HasExpr(cut, g, j);
        var more, overExprs, overPlans := AlternativesForExpression(g, j, maxExprs, maxPlans);
        hitExprs, hitPlans := hitExprs || overExprs, hitPlans || overPlans;
        ghost var before := plans;
        ghost var upTo := PlansUpTo(cut, reps, rank, g, j + 1);
        assert upTo == before + ExprPlans(cut, reps, rank, g, j);
        UpToIsPrefix(cut, reps, rank, g, j + 1, count);
        TakeFits(before, maxPlans);
        TakeAppend(before, ExprPlans(cut, reps, rank, g, j), maxPlans);
        for i := 0 to |more|
          invariant |plans| <= maxPlans && plans == before + more[..i]
        {
          if |plans| >= maxPlans {
            hitPlans := true;
            break;
          }
          plans := plans + [more[i]];
        }
        assert more[..|more|] == more;
        TakeOfPart(before, more, plans, maxPlans);
        if |plans| >= maxPlans {
          TakeIsLong(upTo, AllPlans(cut, reps, rank, g), plans, maxPlans);
          hitPlans := true;
          break;
        }
        TakeIsAll(upTo, plans, maxPlans);
        ExprPlansAreShort(before, ExprPlans(cut, reps, rank, g, j), upTo);
      }
      if |plans| < maxPlans {
        assert plans == AllPlans(cut, reps, rank, g);
        TakeFits(plans, maxPlans);
      }
    }

    method AlternativesForExpression(g: GroupId, j: nat, maxExprs: nat, maxPlans: nat)
      returns (plans: seq<Plan>, hitExprs: bool, hitPlans: bool)
      requires Valid() && IsRoot(reps, g) && maxPlans > 0 && maxExprs > 0 && Graph(Truncated(groups, maxExprs), reps, rank)
      requires HasExpr(groups, g, j) && HasExpr(Truncated(groups, maxExprs), g, j)
      ensures plans == Take(ExprPlans(Truncated(groups, maxExprs), reps, rank, g, j), maxPlans)
      ensures hitPlans <==> KidsCut(Truncated(groups, maxExprs), reps, rank, g, j, maxPlans) ||
                            |ExprPlans(Truncated(groups, maxExprs), reps, rank, g, j)| > maxPlans
      ensures hitExprs ==> KidsExprsCut(groups, reps, rank, g, j, maxExprs)
      ensures !hitPlans && KidsExprsCut(groups, reps, rank, g, j, maxExprs) ==> hitExprs
      decreases rank[g], 0, 1
    {
      hide Shape, Acyclic, Sound, Indexed, AllPlans, ExprPlans, PlansCut, ExprsCut, KidsCut, KidsExprsCut, Truncated, OperatorPlans;
      var e := Exprs(groups, g)[j];
      assert CanonicalKids(reps, e);
      ExprPlansOfOperator(groups, reps, rank, g, j, maxExprs);
      KidsCutByArity(groups, reps, rank, g, j, maxExprs, maxPlans);
      assert g < |rank| && forall i | 0 <= i < |e.kids| :: e.kids[i] < |rank|;
      hide *;
      if e.tag.GroupRef? {
        plans, hitExprs, hitPlans := AlternativesForGroup(e.kids[0], maxExprs, maxPlans);
        PlansCutStep(Truncated(groups, maxExprs), reps, rank, e.kids[0], maxPlans);
      } else {
        plans, hitExprs, hitPlans := AlternativesForOperator(e, maxExprs, maxPlans, rank[g]);
      }
    }

    /** The alternatives of an operator over those of its children: none, one or two. */
    method AlternativesForOperator(e: MemoExpr, maxExprs: nat, maxPlans: nat, ghost bound: nat)
      returns (plans: seq<Plan>, hitExprs: bool, hitPlans: bool)
      requires Valid() && maxPlans > 0 && maxExprs > 0 && Graph(Truncated(groups, maxExprs), reps, rank)
      requires e.tag.Relational? && |e.kids| <= 2
      requires forall i | 0 <= i < |e.kids| :: IsRoot(reps, e.kids[i]) && rank[e.kids[i]] < bound
      ensures plans == Take(OperatorPlans(Truncated(groups, maxExprs), reps, rank, e), maxPlans)
      ensures hitPlans <==>
              (exists i :: 0 <= i < |e.kids| && PlansCut(Truncated(groups, maxExprs), reps, rank, e.kids[i], maxPlans)) ||
              |OperatorPlans(Truncated(groups, maxExprs), reps, rank, e)| > maxPlans
      ensures hitExprs ==> exists i :: 0 <= i < |e.kids| && ExprsCut(groups, reps, rank, e.kids[i], maxExprs)
      ensures !hitPlans && (exists i :: 0 <= i < |e.kids| && ExprsCut(groups, reps, rank, e.kids[i], maxExprs)) ==> hitExprs
      decreases bound, 0, 0
    {
      hide Shape, Acyclic, Sound, Tidy, Indexed, AllPlans, Pairs, PlansCut, ExprsCut, Truncated, Take, LeftMajorPrefix;
      ghost var cut := Truncated(groups, maxExprs);
      if |e.kids| == 0 {
        plans, hitExprs, hitPlans := [Node(e.perm, e.tag.op, [])], false, false;
        TakeFits(plans, maxPlans);
        return;
      }
      var lefts, over;
      lefts, hitExprs, hitPlans := AlternativesForGroup(e.kids[0], maxExprs, maxPlans);
      PlansCutStep(cut, reps, rank, e.kids[0], maxPlans);
      ghost var all0 := AllPlans(cut, reps, rank, e.kids[0]);
      if |e.kids| == 1 {
        plans, over := UnaryPlans(e.perm, e.tag.op, lefts, maxPlans);
        UnaryCut(e.perm, e.tag.op, all0, lefts, plans, maxPlans);
      } else {
        var rights, overExprs, overPlans := AlternativesForGroup(e.kids[1], maxExprs, maxPlans);
        PlansCutStep(cut, reps, rank, e.kids[1], maxPlans);
        hitExprs, hitPlans := hitExprs || overExprs, hitPlans || overPlans;
        plans, over := BinaryPlans(e.perm, e.tag.op, lefts, rights, maxPlans);
        SomePlan(cut, reps, rank, e.kids[0]);
        SomePlan(cut, reps, rank, e.kids[1]);
        BinaryCut(e.perm, e.tag.op, all0, AllPlans(cut, reps, rank, e.kids[1]), lefts, rights, plans, maxPlans);
      }
      hitPlans := hitPlans || over;
    }
  }
}
