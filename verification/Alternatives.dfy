/** Every plan a group stands for, in extraction order: expressions in group order, and for
  the children of one expression the left child varies slowest.
 */
module Alternatives {
  import opened Plans
  import opened MemoGraph
  import opened MemoPlans

  ghost function AllPlans(groups: seq<Group>, reps: seq<GroupId>, rank: seq<nat>, g: GroupId): seq<Plan>
    requires Graph(groups, reps, rank) && IsRoot(reps, g)
    decreases rank[g], 3, 0
  {
    PlansUpTo(groups, reps, rank, g, |Exprs(groups, g)|)
  }

  /** The plans of the first `n` expressions. */
  ghost function PlansUpTo(groups: seq<Group>, reps: seq<GroupId>, rank: seq<nat>, g: GroupId, n: nat): seq<Plan>
    requires Graph(groups, reps, rank) && IsRoot(reps, g) && n <= |Exprs(groups, g)|
    decreases rank[g], 2, n
  {
    if n == 0 then []
    else
      assert HasExpr(groups, g, n - 1);
      PlansUpTo(groups, reps, rank, g, n - 1) + ExprPlans(groups, reps, rank, g, n - 1)
  }

  ghost function ExprPlans(groups: seq<Group>, reps: seq<GroupId>, rank: seq<nat>, g: GroupId, j: nat): seq<Plan>
    requires Graph(groups, reps, rank) && IsRoot(reps, g) && HasExpr(groups, g, j)
    decreases rank[g], 1, 0
  {
    var e := Exprs(groups, g)[j];
    assert ValidExpr(reps, e);
    match e.tag
    case GroupRef =>
      assert IsEdge(groups, reps, g, j, 0);
      AllPlans(groups, reps, rank, Child(groups, reps, g, j, 0))
    case Relational(op) =>
      Roots(e.perm, op, ChildLists(groups, reps, rank, g, j, |e.kids|))
  }

  /** All choices of the first `n` children, the first child varying slowest. */
  ghost function ChildLists(groups: seq<Group>, reps: seq<GroupId>, rank: seq<nat>, g: GroupId, j: nat, n: nat): seq<seq<Plan>>
    requires Graph(groups, reps, rank) && IsRoot(reps, g) && HasExpr(groups, g, j) && n <= |Exprs(groups, g)[j].kids|
    decreases rank[g], 0, n
  {
    if n == 0 then [[]]
    else
      assert IsEdge(groups, reps, g, j, n - 1);
      Pairs(ChildLists(groups, reps, rank, g, j, n - 1), AllPlans(groups, reps, rank, Child(groups, reps, g, j, n - 1)))
  }

  function Roots(perm: OrderPermission, op: Op, lists: seq<seq<Plan>>): (r: seq<Plan>)
    ensures |r| == |lists| && forall i | 0 <= i < |r| :: r[i] == Node(perm, op, lists[i])
  {
    seq(|lists|, i requires 0 <= i < |lists| => Node(perm, op, lists[i]))
  }

  /** Left-major product: every list of `lefts` extended by every plan of `rights`. */
  function Pairs(lefts: seq<seq<Plan>>, rights: seq<Plan>): (r: seq<seq<Plan>>)
    ensures |r| == |lefts| * |rights|
  {
    if lefts == [] then [] else Extended(lefts[0], rights) + Pairs(lefts[1..], rights)
  }

  function Extended(left: seq<Plan>, rights: seq<Plan>): (r: seq<seq<Plan>>)
    ensures |r| == |rights| && forall i | 0 <= i < |r| :: r[i] == left + [rights[i]]
  {
    seq(|rights|, i requires 0 <= i < |rights| => left + [rights[i]])
  }

  lemma {:induction false} InPairs(lefts: seq<seq<Plan>>, rights: seq<Plan>, kids: seq<Plan>)
    ensures kids in Pairs(lefts, rights) <==>
            kids != [] && kids[..|kids| - 1] in lefts && kids[|kids| - 1] in rights
  {
    if lefts != [] {
      InPairs(lefts[1..], rights, kids);
      var row := Extended(lefts[0], rights);
      assert lefts == [lefts[0]] + lefts[1..];
      if kids != [] && kids[..|kids| - 1] == lefts[0] && kids[|kids| - 1] in rights {
        var i :| 0 <= i < |rights| && rights[i] == kids[|kids| - 1];
        assert row[i] == kids;
      }
    }
  }

  /** The list is complete and sound: it holds exactly the plans that can be read off the group. */
  lemma {:induction false} InAllPlans(groups: seq<Group>, reps: seq<GroupId>, rank: seq<nat>, g: GroupId, p: Plan)
    requires Graph(groups, reps, rank) && IsRoot(reps, g)
    ensures p in AllPlans(groups, reps, rank, g) <==> Derives(groups, reps, rank, g, p)
    decreases rank[g], 3, 0
  {
    InPlansUpTo(groups, reps, rank, g, |Exprs(groups, g)|, p);
  }

  lemma {:induction false} InPlansUpTo(groups: seq<Group>, reps: seq<GroupId>, rank: seq<nat>, g: GroupId, n: nat, p: Plan)
    requires Graph(groups, reps, rank) && IsRoot(reps, g) && n <= |Exprs(groups, g)|
    ensures p in PlansUpTo(groups, reps, rank, g, n) <==>
            exists j :: HasExpr(groups, g, j) && j < n && DerivesBy(groups, reps, rank, g, j, p)
    decreases rank[g], 2, n
  {
    if n > 0 {
      InPlansUpTo(groups, reps, rank, g, n - 1, p);
      assert HasExpr(groups, g, n - 1);
      InExprPlans(groups, reps, rank, g, n - 1, p);
    }
  }

  lemma {:induction false} InExprPlans(groups: seq<Group>, reps: seq<GroupId>, rank: seq<nat>, g: GroupId, j: nat, p: Plan)
    requires Graph(groups, reps, rank) && IsRoot(reps, g) && HasExpr(groups, g, j)
    ensures p in ExprPlans(groups, reps, rank, g, j) <==> DerivesBy(groups, reps, rank, g, j, p)
    decreases rank[g], 1, 0
  {
    var e := Exprs(groups, g)[j];
    assert ValidExpr(reps, e);
    match e.tag
    case GroupRef =>
      assert IsEdge(groups, reps, g, j, 0);
      InAllPlans(groups, reps, rank, Child(groups, reps, g, j, 0), p);
    case Relational(op) =>
      var lists := ChildLists(groups, reps, rank, g, j, |e.kids|);
      InChildLists(groups, reps, rank, g, j, |e.kids|, p.kids);
      InRoots(e.perm, op, lists, p);
  }

  lemma InRoots(perm: OrderPermission, op: Op, lists: seq<seq<Plan>>, p: Plan)
    ensures p in Roots(perm, op, lists) <==> p.perm == perm && p.op == op && p.kids in lists
  {
    var r := Roots(perm, op, lists);
    if p.perm == perm && p.op == op && p.kids in lists {
      var i :| 0 <= i < |lists| && lists[i] == p.kids;
      assert r[i] == p;
    }
  }

  lemma {:induction false} InChildLists(groups: seq<Group>, reps: seq<GroupId>, rank: seq<nat>, g: GroupId, j: nat, n: nat,
                                        kids: seq<Plan>)
    requires Graph(groups, reps, rank) && IsRoot(reps, g) && HasExpr(groups, g, j) && n <= |Exprs(groups, g)[j].kids|
    ensures kids in ChildLists(groups, reps, rank, g, j, n) <==>
            |kids| == n && forall i | 0 <= i < n ::
              IsEdge(groups, reps, g, j, i) && Derives(groups, reps, rank, Child(groups, reps, g, j, i), kids[i])
    decreases rank[g], 0, n
  {
    if n > 0 {
      hide Shape, Acyclic, Pairs, Derives, AllPlans;
      assert IsEdge(groups, reps, g, j, n - 1);
      var child := Child(groups, reps, g, j, n - 1);
      assert ChildLists(groups, reps, rank, g, j, n) == Pairs(ChildLists(groups, reps, rank, g, j, n - 1), AllPlans(groups, reps, rank, child));
      hide ChildLists, Exprs, Child;
      InPairs(ChildLists(groups, reps, rank, g, j, n - 1), AllPlans(groups, reps, rank, child), kids);
      if kids != [] {
        InChildLists(groups, reps, rank, g, j, n - 1, kids[..|kids| - 1]);
        InAllPlans(groups, reps, rank, child, kids[|kids| - 1]);
      }
    }
  }

  // ---------------------------------------------------------------- building alternatives under a bound

  function Singles(ps: seq<Plan>): (r: seq<seq<Plan>>)
    ensures |r| == |ps| && forall i | 0 <= i < |r| :: r[i] == [ps[i]]
  {
    seq(|ps|, i requires 0 <= i < |ps| => [ps[i]])
  }

  lemma PairsOfUnit(rights: seq<Plan>)
    ensures Pairs([[]], rights) == Singles(rights)
  {
    var lefts: seq<seq<Plan>> := [[]];
    assert lefts[1..] == [];
    assert Pairs(lefts, rights) == Extended([], rights);
    forall i | 0 <= i < |rights| ensures Extended([], rights)[i] == Singles(rights)[i] {
      assert [] + [rights[i]] == [rights[i]];
    }
    assert Extended([], rights) == Singles(rights);
  }

  lemma PairsOfNothing(rights: seq<Plan>)
    ensures Pairs([], rights) == []
  {
  }

  lemma {:induction false} PairsSnoc(lefts: seq<seq<Plan>>, left: seq<Plan>, rights: seq<Plan>)
    ensures Pairs(lefts + [left], rights) == Pairs(lefts, rights) + Extended(left, rights)
  {
    if lefts == [] {
      assert lefts + [left] == [left];
      assert Pairs([left], rights) == Extended(left, rights) + Pairs([], rights);
    } else {
      assert (lefts + [left])[1..] == lefts[1..] + [left];
      PairsSnoc(lefts[1..], left, rights);
    }
  }

  /** The list of one expression, by its arity. */
  lemma ExprPlansByArity(groups: seq<Group>, reps: seq<GroupId>, rank: seq<nat>, g: GroupId, j: nat)
    requires Graph(groups, reps, rank) && IsRoot(reps, g) && HasExpr(groups, g, j)
    requires CanonicalKids(reps, Exprs(groups, g)[j])
    ensures
      var e := Exprs(groups, g)[j];
      var all := ExprPlans(groups, reps, rank, g, j);
      && (forall i | 0 <= i < |e.kids| :: IsRoot(reps, e.kids[i]) && rank[e.kids[i]] < rank[g])
      && (e.tag.GroupRef? ==> |e.kids| == 1 && all == AllPlans(groups, reps, rank, e.kids[0]))
      && (e.tag.Relational? ==> |e.kids| <= 2)
      && (e.tag.Relational? && |e.kids| == 0 ==> all == [Node(e.perm, e.tag.op, [])])
      && (e.tag.Relational? && |e.kids| == 1 ==>
            all == Roots(e.perm, e.tag.op, Singles(AllPlans(groups, reps, rank, e.kids[0]))))
      && (e.tag.Relational? && |e.kids| == 2 ==>
            all == Roots(e.perm, e.tag.op, Pairs(Singles(AllPlans(groups, reps, rank, e.kids[0])),
                                                 AllPlans(groups, reps, rank, e.kids[1]))))
  {
    var e := Exprs(groups, g)[j];
    assert ValidExpr(reps, e);
    forall i | 0 <= i < |e.kids|
      ensures IsEdge(groups, reps, g, j, i) && Child(groups, reps, g, j, i) == e.kids[i]
    {
      assert IsEdge(groups, reps, g, j, i);
    }
    if e.tag.Relational? {
      assert ChildLists(groups, reps, rank, g, j, 0) == [[]];
      if |e.kids| >= 1 {
        PairsOfUnit(AllPlans(groups, reps, rank, e.kids[0]));
        assert ChildLists(groups, reps, rank, g, j, 1) == Singles(AllPlans(groups, reps, rank, e.kids[0]));
      }
      if |e.kids| == 2 {
        assert ChildLists(groups, reps, rank, g, j, 2) ==
               Pairs(Singles(AllPlans(groups, reps, rank, e.kids[0])), AllPlans(groups, reps, rank, e.kids[1]));
      }
    }
  }

  lemma DerivesByArity(groups: seq<Group>, reps: seq<GroupId>, rank: seq<nat>, g: GroupId, j: nat, p: Plan)
    requires Graph(groups, reps, rank) && IsRoot(reps, g) && HasExpr(groups, g, j)
    requires CanonicalKids(reps, Exprs(groups, g)[j])
    requires
      var e := Exprs(groups, g)[j];
      if e.tag.GroupRef? then |e.kids| == 1 && Derives(groups, reps, rank, e.kids[0], p)
      else p.perm == e.perm && p.op == e.tag.op && |p.kids| == |e.kids| &&
           forall i | 0 <= i < |e.kids| :: Derives(groups, reps, rank, e.kids[i], p.kids[i])
    ensures DerivesBy(groups, reps, rank, g, j, p)
  {
    var e := Exprs(groups, g)[j];
    forall i | 0 <= i < |e.kids|
      ensures IsEdge(groups, reps, g, j, i) && Child(groups, reps, g, j, i) == e.kids[i]
    {
      assert IsEdge(groups, reps, g, j, i);
    }
  }

  /** Unary operators: one alternative per child plan, in order, cut at the bound. */
  method UnaryPlans(perm: OrderPermission, op: Op, children: seq<Plan>, maxPlans: nat) returns (r: seq<Plan>, hit: bool)
    ensures hit <==> maxPlans < |children|
    ensures |r| == if hit then maxPlans else |children|
    ensures r == Roots(perm, op, Singles(children))[..|r|]
    ensures forall i | 0 <= i < |r| :: r[i] == Node(perm, op, [children[i]])
  {
    r, hit := [], false;
    for k := 0 to |children|
      invariant |r| == k <= maxPlans && !hit
      invariant forall i | 0 <= i < k :: r[i] == Node(perm, op, [children[i]])
    {
      if |r| >= maxPlans {
        hit := true;
        break;
      }
      r := r + [Node(perm, op, [children[k]])];
    }
    assert r == Roots(perm, op, Singles(children))[..|r|];
  }

  predicate IsBinary(perm: OrderPermission, op: Op, lefts: seq<Plan>, rights: seq<Plan>, p: Plan) {
    p.perm == perm && p.op == op && |p.kids| == 2 && p.kids[0] in lefts && p.kids[1] in rights
  }

  /** `r` stands for a prefix of the left-major list of pairs. */
  ghost predicate LeftMajorPrefix(perm: OrderPermission, op: Op, lefts: seq<Plan>, rights: seq<Plan>, r: seq<Plan>) {
    |r| <= |lefts| * |rights| && r == Roots(perm, op, Pairs(Singles(lefts), rights))[..|r|]
  }

  lemma PairsInTwo(lefts: seq<seq<Plan>>, more: seq<seq<Plan>>, rights: seq<Plan>)
    ensures Pairs(lefts + more, rights) == Pairs(lefts, rights) + Pairs(more, rights)
  {
    if lefts == [] {
      assert lefts + more == more;
    } else {
      assert (lefts + more)[1..] == lefts[1..] + more;
      PairsInTwo(lefts[1..], more, rights);
    }
  }

  /** Part of row `a` after all earlier rows is a prefix of the list; it is a proper one when row `a` has more. */
  lemma PartIsPrefix(perm: OrderPermission, op: Op, lefts: seq<Plan>, rights: seq<Plan>, a: int, b: int, r: seq<Plan>)
    requires 0 <= a < |lefts| && 0 <= b <= |rights|
    requires r == Roots(perm, op, Pairs(Singles(lefts)[..a], rights) + Extended([lefts[a]], rights)[..b])
    ensures LeftMajorPrefix(perm, op, lefts, rights, r)
    ensures b < |rights| ==> |r| < |lefts| * |rights|
  {
    hide *;
    var done, row, rest := Pairs(Singles(lefts)[..a], rights), Extended([lefts[a]], rights), Pairs(Singles(lefts)[a + 1..], rights);
    PairsAround(lefts, rights, a);
    CutOf(perm, op, Pairs(Singles(lefts), rights), done, row, rest, b, r);
    IsPrefix(perm, op, lefts, rights, r);
  }

  lemma CutOf(perm: OrderPermission, op: Op, all: seq<seq<Plan>>, done: seq<seq<Plan>>, row: seq<seq<Plan>>, rest: seq<seq<Plan>>,
              b: int, r: seq<Plan>)
    requires all == done + (row + rest) && 0 <= b <= |row| && r == Roots(perm, op, done + row[..b])
    ensures |r| <= |all| && r == Roots(perm, op, all)[..|r|]
    ensures b < |row| ==> |r| < |all|
  {
    RowPrefix(done, row, rest, b);
    RootsPrefix(perm, op, all, done + row[..b]);
  }

  lemma IsPrefix(perm: OrderPermission, op: Op, lefts: seq<Plan>, rights: seq<Plan>, r: seq<Plan>)
    requires |r| <= |lefts| * |rights| && r == Roots(perm, op, Pairs(Singles(lefts), rights))[..|r|]
    ensures LeftMajorPrefix(perm, op, lefts, rights, r)
  {
  }

  lemma RootsPrefix(perm: OrderPermission, op: Op, all: seq<seq<Plan>>, part: seq<seq<Plan>>)
    requires |part| <= |all| && part == all[..|part|]
    ensures Roots(perm, op, part) == Roots(perm, op, all)[..|part|]
  {
  }

  lemma RowPrefix<T>(done: seq<T>, row: seq<T>, rest: seq<T>, b: int)
    requires 0 <= b <= |row|
    ensures done + row[..b] == (done + (row + rest))[..|done| + b]
  {
  }

  lemma PairsAround(lefts: seq<Plan>, rights: seq<Plan>, a: int)
    requires 0 <= a < |lefts|
    ensures Pairs(Singles(lefts), rights) ==
            Pairs(Singles(lefts)[..a], rights) + (Extended([lefts[a]], rights) + Pairs(Singles(lefts)[a + 1..], rights))
  {
    var s := Singles(lefts);
    var tail := [s[a]] + s[a + 1..];
    assert s == s[..a] + tail;
    PairsInTwo(s[..a], tail, rights);
    assert tail[1..] == s[a + 1..];
  }

  /** Joins: every left plan with every right plan, left-major, cut at the bound. */
  method BinaryPlans(perm: OrderPermission, op: Op, lefts: seq<Plan>, rights: seq<Plan>, maxPlans: nat)
    returns (r: seq<Plan>, hit: bool)
    ensures hit <==> maxPlans < |lefts| * |rights|
    ensures |r| == if hit then maxPlans else |lefts| * |rights|
    ensures LeftMajorPrefix(perm, op, lefts, rights, r)
    ensures forall i | 0 <= i < |r| :: IsBinary(perm, op, lefts, rights, r[i])
  {
    hide Pairs;
    assert Pairs([], rights) == [] by { PairsOfNothing(rights); }
    r := [];
    ghost var lists: seq<seq<Plan>> := [];
    assert Singles(lefts)[..0] == [];
    for a := 0 to |lefts|
      invariant |r| <= maxPlans
      invariant lists == Pairs(Singles(lefts)[..a], rights) && r == Roots(perm, op, lists)
      invariant forall i | 0 <= i < |r| :: IsBinary(perm, op, lefts, rights, r[i])
    {
      ghost var base := lists;
      ghost var row := Extended([lefts[a]], rights);
      assert base + row[..0] == base;
      for b := 0 to |rights|
        invariant |r| <= maxPlans
        invariant lists == base + row[..b] && r == Roots(perm, op, lists)
        invariant forall i | 0 <= i < |r| :: IsBinary(perm, op, lefts, rights, r[i])
      {
        if |r| >= maxPlans {
          PartIsPrefix(perm, op, lefts, rights, a, b, r);
          return r, true;
        }
        r := r + [Node(perm, op, [lefts[a], rights[b]])];
        assert [lefts[a]] + [rights[b]] == [lefts[a], rights[b]];
        assert row[..b + 1] == row[..b] + [[lefts[a], rights[b]]];
        lists := lists + [[lefts[a], rights[b]]];
        assert r == Roots(perm, op, lists);
      }
      PairsSnoc(Singles(lefts)[..a], [lefts[a]], rights);
      assert row[..|rights|] == row;
      assert Singles(lefts)[..a + 1] == Singles(lefts)[..a] + [[lefts[a]]];
    }
    assert Singles(lefts)[..|lefts|] == Singles(lefts);
    assert r[..|r|] == r;
    return r, false;
  }
}
