/** What bounded enumeration returns: a prefix of the alternatives of the memo cut to the first expressions of each group,
  and which cuts the two flags report.
 */
module BoundedPlans {
  import opened Plans
  import opened MemoGraph
  import opened MemoPlans
  import opened Alternatives

  // ---------------------------------------------------------------- prefixes

  /** The first `n` elements, or all. */
  function Take<T>(s: seq<T>, n: nat): (r: seq<T>)
    ensures |r| == if n < |s| then n else |s|
  {
    if n < |s| then s[..n] else s
  }

  lemma TakeAppend<T>(s: seq<T>, t: seq<T>, n: nat)
    ensures Take(Take(s, n) + Take(t, n), n) == Take(s + t, n)
    ensures n <= |s| ==> Take(s + t, n) == Take(s, n)
  {
  }

  lemma TakeRoots(perm: OrderPermission, op: Op, lists: seq<seq<Plan>>, n: nat)
    ensures Take(Roots(perm, op, lists), n) == Roots(perm, op, Take(lists, n))
  {
  }

  lemma TakeSingles(ps: seq<Plan>, n: nat)
    ensures Singles(Take(ps, n)) == Take(Singles(ps), n)
  {
  }

  lemma TakeExtended(left: seq<Plan>, rights: seq<Plan>, n: nat)
    ensures Extended(left, Take(rights, n)) == Take(Extended(left, rights), n)
  {
  }

  lemma TakeLonger<T>(s: seq<T>, t: seq<T>, n: nat)
    requires |s| <= |t| && s == t[..|s|] && n <= |s|
    ensures Take(s, n) == Take(t, n)
  {
  }

  /** Cutting both factors of a product before cutting the product changes nothing. */
  lemma TakePairs(lefts: seq<seq<Plan>>, rights: seq<Plan>, n: nat)
    requires lefts != [] && rights != [] && n > 0
    ensures Take(Pairs(Take(lefts, n), Take(rights, n)), n) == Take(Pairs(lefts, rights), n)
  {
    var cut := Take(lefts, n);
    if n <= |rights| {
      assert cut[0] == lefts[0];
      TakeExtended(lefts[0], rights, n);
      FirstRow(cut, Take(rights, n), n);
      FirstRow(lefts, rights, n);
    } else if n < |lefts| {
      assert lefts == cut + lefts[n..];
      PairsInTwo(cut, lefts[n..], rights);
      ManyPairs(cut, rights);
      TakeLonger(Pairs(cut, rights), Pairs(lefts, rights), n);
    }
  }

  lemma FirstRow(lefts: seq<seq<Plan>>, rights: seq<Plan>, n: nat)
    requires lefts != [] && n <= |rights|
    ensures Take(Pairs(lefts, rights), n) == Take(Extended(lefts[0], rights), n)
  {
    TakeAppend(Extended(lefts[0], rights), Pairs(lefts[1..], rights), n);
  }

  lemma ManyPairs(lefts: seq<seq<Plan>>, rights: seq<Plan>)
    requires rights != []
    ensures |Pairs(lefts, rights)| >= |lefts|
  {
    assert |lefts| * |rights| >= |lefts|;
  }

  // ---------------------------------------------------------------- the cut memo

  /** Every group cut to its first `k` expressions. */
  function Truncated(groups: seq<Group>, k: nat): (r: seq<Group>)
    ensures |r| == |groups| && forall g | 1 <= g <= |groups| :: Exprs(r, g) == Take(Exprs(groups, g), k)
  {
    seq(|groups|, i requires 0 <= i < |groups| => groups[i].(exprs := Take(groups[i].exprs, k)))
  }

  lemma TruncatedExpr(groups: seq<Group>, k: nat, g: GroupId, j: int)
    requires 1 <= g <= |groups| && HasExpr(Truncated(groups, k), g, j)
    ensures HasExpr(groups, g, j) && Exprs(Truncated(groups, k), g)[j] == Exprs(groups, g)[j]
  {
  }

  lemma TruncatedGraph(groups: seq<Group>, reps: seq<GroupId>, rank: seq<nat>, k: nat)
    requires Graph(groups, reps, rank) && k > 0
    ensures Graph(Truncated(groups, k), reps, rank)
  {
    var cut := Truncated(groups, k);
    forall g, j | Known(reps, g) && HasExpr(cut, g, j) ensures ValidExpr(reps, Exprs(cut, g)[j]) {
      TruncatedExpr(groups, k, g, j);
    }
    forall g | IsRoot(reps, g) ensures HasExpr(cut, g, 0) {
      assert HasExpr(groups, g, 0);
    }
    forall g: GroupId, j, i | IsEdge(cut, reps, g, j, i) ensures rank[Child(cut, reps, g, j, i)] < rank[g] {
      TruncatedEdge(groups, reps, k, g, j, i);
    }
  }

  lemma TruncatedEdge(groups: seq<Group>, reps: seq<GroupId>, k: nat, g: GroupId, j: int, i: int)
    requires Shape(groups, reps) && Shape(Truncated(groups, k), reps) && IsEdge(Truncated(groups, k), reps, g, j, i)
    ensures IsEdge(groups, reps, g, j, i) && Child(Truncated(groups, k), reps, g, j, i) == Child(groups, reps, g, j, i)
  {
    TruncatedExpr(groups, k, g, j);
  }

  /** A plan of the cut memo is a plan of the memo. */
  lemma {:induction false} TruncatedDerives(groups: seq<Group>, reps: seq<GroupId>, rank: seq<nat>, k: nat, g: GroupId, p: Plan)
    requires Graph(groups, reps, rank) && Graph(Truncated(groups, k), reps, rank) && IsRoot(reps, g)
    requires Derives(Truncated(groups, k), reps, rank, g, p)
    ensures Derives(groups, reps, rank, g, p)
    decreases rank[g]
  {
    var cut := Truncated(groups, k);
    var j :| HasExpr(cut, g, j) && DerivesBy(cut, reps, rank, g, j, p);
    TruncatedExpr(groups, k, g, j);
    var e := Exprs(groups, g)[j];
    assert ValidExpr(reps, e);
    forall i | 0 <= i < |e.kids|
      ensures IsEdge(groups, reps, g, j, i) && IsEdge(cut, reps, g, j, i) && Child(cut, reps, g, j, i) == Child(groups, reps, g, j, i)
    {
      assert IsEdge(cut, reps, g, j, i);
    }
    match e.tag
    case GroupRef => TruncatedDerives(groups, reps, rank, k, Child(groups, reps, g, j, 0), p);
    case Relational(_) =>
      forall i | 0 <= i < |e.kids| ensures Derives(groups, reps, rank, Child(groups, reps, g, j, i), p.kids[i]) {
        TruncatedDerives(groups, reps, rank, k, Child(groups, reps, g, j, i), p.kids[i]);
      }
    assert DerivesBy(groups, reps, rank, g, j, p);
  }

  // ---------------------------------------------------------------- which cuts are reported

  /** Some group that enumeration visits has more than `k` expressions. */
  ghost predicate ExprsCut(groups: seq<Group>, reps: seq<GroupId>, rank: seq<nat>, g: GroupId, k: nat)
    requires Graph(groups, reps, rank) && Graph(Truncated(groups, k), reps, rank) && IsRoot(reps, g)
  {
    exists h: GroupId :: IsRoot(reps, h) && Reaches(Truncated(groups, k), reps, rank, g, h) && |Exprs(groups, h)| > k
  }

  /** Some group that enumeration visits has `m` alternatives or more. */
  ghost predicate PlansCut(groups: seq<Group>, reps: seq<GroupId>, rank: seq<nat>, g: GroupId, m: nat)
    requires Graph(groups, reps, rank) && IsRoot(reps, g)
  {
    exists h: GroupId :: IsRoot(reps, h) && Reaches(groups, reps, rank, g, h) && |AllPlans(groups, reps, rank, h)| >= m
  }

  /** Some child of expression `j` is cut. */
  ghost predicate KidsCut(groups: seq<Group>, reps: seq<GroupId>, rank: seq<nat>, g: GroupId, j: int, m: nat)
    requires Graph(groups, reps, rank) && IsRoot(reps, g)
  {
    exists i :: IsEdge(groups, reps, g, j, i) && PlansCut(groups, reps, rank, Child(groups, reps, g, j, i), m)
  }

  ghost predicate KidsExprsCut(groups: seq<Group>, reps: seq<GroupId>, rank: seq<nat>, g: GroupId, j: int, k: nat)
    requires Graph(groups, reps, rank) && Graph(Truncated(groups, k), reps, rank) && IsRoot(reps, g)
  {
    exists i :: IsEdge(Truncated(groups, k), reps, g, j, i) && ExprsCut(groups, reps, rank, Child(Truncated(groups, k), reps, g, j, i), k)
  }

  lemma PlansCutStep(groups: seq<Group>, reps: seq<GroupId>, rank: seq<nat>, g: GroupId, m: nat)
    requires Graph(groups, reps, rank) && IsRoot(reps, g)
    ensures PlansCut(groups, reps, rank, g, m) <==>
            |AllPlans(groups, reps, rank, g)| >= m || exists j :: HasExpr(groups, g, j) && KidsCut(groups, reps, rank, g, j, m)
  {
    hide AllPlans, Shape, Acyclic;
    assert Reaches(groups, reps, rank, g, g);
    if PlansCut(groups, reps, rank, g, m) {
      var h: GroupId :| IsRoot(reps, h) && Reaches(groups, reps, rank, g, h) && |AllPlans(groups, reps, rank, h)| >= m;
      if h != g {
        var j, i :| IsEdge(groups, reps, g, j, i) && Reaches(groups, reps, rank, Child(groups, reps, g, j, i), h);
        assert PlansCut(groups, reps, rank, Child(groups, reps, g, j, i), m);
        assert HasExpr(groups, g, j) && KidsCut(groups, reps, rank, g, j, m);
      }
    }
    if exists j :: HasExpr(groups, g, j) && KidsCut(groups, reps, rank, g, j, m) {
      var j :| HasExpr(groups, g, j) && KidsCut(groups, reps, rank, g, j, m);
      var i :| IsEdge(groups, reps, g, j, i) && PlansCut(groups, reps, rank, Child(groups, reps, g, j, i), m);
      var h: GroupId :| IsRoot(reps, h) && Reaches(groups, reps, rank, Child(groups, reps, g, j, i), h) && |AllPlans(groups, reps, rank, h)| >= m;
      assert Reaches(groups, reps, rank, g, h);
    }
  }

  lemma ExprsCutStep(groups: seq<Group>, reps: seq<GroupId>, rank: seq<nat>, g: GroupId, k: nat)
    requires Graph(groups, reps, rank) && Graph(Truncated(groups, k), reps, rank) && IsRoot(reps, g)
    ensures ExprsCut(groups, reps, rank, g, k) <==>
            |Exprs(groups, g)| > k || exists j :: HasExpr(Truncated(groups, k), g, j) && KidsExprsCut(groups, reps, rank, g, j, k)
  {
    var cut := Truncated(groups, k);
    hide Shape, Acyclic, Truncated;
    assert Reaches(cut, reps, rank, g, g);
    if ExprsCut(groups, reps, rank, g, k) {
      var h: GroupId :| IsRoot(reps, h) && Reaches(cut, reps, rank, g, h) && |Exprs(groups, h)| > k;
      if h != g {
        var j, i :| IsEdge(cut, reps, g, j, i) && Reaches(cut, reps, rank, Child(cut, reps, g, j, i), h);
        assert ExprsCut(groups, reps, rank, Child(cut, reps, g, j, i), k);
        assert HasExpr(cut, g, j) && KidsExprsCut(groups, reps, rank, g, j, k);
      }
    }
    if exists j :: HasExpr(cut, g, j) && KidsExprsCut(groups, reps, rank, g, j, k) {
      var j :| HasExpr(cut, g, j) && KidsExprsCut(groups, reps, rank, g, j, k);
      var i :| IsEdge(cut, reps, g, j, i) && ExprsCut(groups, reps, rank, Child(cut, reps, g, j, i), k);
      var h: GroupId :| IsRoot(reps, h) && Reaches(cut, reps, rank, Child(cut, reps, g, j, i), h) && |Exprs(groups, h)| > k;
      assert Reaches(cut, reps, rank, g, h);
    }
  }

  /** Where no visited group has more expressions than the bound, cutting changes nothing. */
  lemma {:induction false} UncutPlans(groups: seq<Group>, reps: seq<GroupId>, rank: seq<nat>, g: GroupId, k: nat)
    requires Graph(groups, reps, rank) && Graph(Truncated(groups, k), reps, rank) && IsRoot(reps, g)
    requires !ExprsCut(groups, reps, rank, g, k)
    ensures AllPlans(Truncated(groups, k), reps, rank, g) == AllPlans(groups, reps, rank, g)
    decreases rank[g], 2, 0
  {
    ExprsCutStep(groups, reps, rank, g, k);
    UncutUpTo(groups, reps, rank, g, k, |Exprs(groups, g)|);
  }

  lemma {:induction false} UncutUpTo(groups: seq<Group>, reps: seq<GroupId>, rank: seq<nat>, g: GroupId, k: nat, n: nat)
    requires Graph(groups, reps, rank) && Graph(Truncated(groups, k), reps, rank) && IsRoot(reps, g)
    requires n <= |Exprs(groups, g)| <= k && forall j | HasExpr(Truncated(groups, k), g, j) :: !KidsExprsCut(groups, reps, rank, g, j, k)
    ensures PlansUpTo(Truncated(groups, k), reps, rank, g, n) == PlansUpTo(groups, reps, rank, g, n)
    decreases rank[g], 1, n
  {
    if n > 0 {
      hide Shape, Acyclic, KidsExprsCut, ExprPlans;
      UncutUpTo(groups, reps, rank, g, k, n - 1);
      assert HasExpr(groups, g, n - 1) && HasExpr(Truncated(groups, k), g, n - 1);
      UncutExpr(groups, reps, rank, g, k, n - 1);
    }
  }

  lemma {:induction false} UncutExpr(groups: seq<Group>, reps: seq<GroupId>, rank: seq<nat>, g: GroupId, k: nat, j: nat)
    requires Graph(groups, reps, rank) && Graph(Truncated(groups, k), reps, rank) && IsRoot(reps, g)
    requires HasExpr(Truncated(groups, k), g, j) && HasExpr(groups, g, j) && !KidsExprsCut(groups, reps, rank, g, j, k)
    ensures ExprPlans(Truncated(groups, k), reps, rank, g, j) == ExprPlans(groups, reps, rank, g, j)
    decreases rank[g], 0, 0
  {
    var cut, e := Truncated(groups, k), Exprs(groups, g)[j];
    TruncatedExpr(groups, k, g, j);
    assert ValidExpr(reps, e);
    forall i | 0 <= i < |e.kids|
      ensures IsEdge(groups, reps, g, j, i) && IsEdge(cut, reps, g, j, i) && Child(cut, reps, g, j, i) == Child(groups, reps, g, j, i)
      ensures AllPlans(cut, reps, rank, Child(groups, reps, g, j, i)) == AllPlans(groups, reps, rank, Child(groups, reps, g, j, i))
    {
      assert IsEdge(cut, reps, g, j, i) && !ExprsCut(groups, reps, rank, Child(cut, reps, g, j, i), k);
      UncutPlans(groups, reps, rank, Child(groups, reps, g, j, i), k);
    }
    if e.tag.Relational? {
      hide Shape, Acyclic, AllPlans, Truncated, ExprsCut;
      UncutLists(groups, cut, reps, rank, g, j, |e.kids|);
    }
  }

  lemma {:induction false} UncutLists(groups: seq<Group>, cut: seq<Group>, reps: seq<GroupId>, rank: seq<nat>, g: GroupId, j: nat, n: nat)
    requires Graph(groups, reps, rank) && Graph(cut, reps, rank) && IsRoot(reps, g)
    requires HasExpr(cut, g, j) && HasExpr(groups, g, j) && Exprs(cut, g)[j] == Exprs(groups, g)[j] && n <= |Exprs(groups, g)[j].kids|
    requires forall i | 0 <= i < n ::
               IsEdge(groups, reps, g, j, i) && IsEdge(cut, reps, g, j, i) && Child(cut, reps, g, j, i) == Child(groups, reps, g, j, i) &&
               AllPlans(cut, reps, rank, Child(groups, reps, g, j, i)) == AllPlans(groups, reps, rank, Child(groups, reps, g, j, i))
    ensures ChildLists(cut, reps, rank, g, j, n) == ChildLists(groups, reps, rank, g, j, n)
    decreases n
  {
    if n > 0 {
      hide Shape, Acyclic, AllPlans, Pairs;
      UncutLists(groups, cut, reps, rank, g, j, n - 1);
      assert IsEdge(groups, reps, g, j, n - 1) && IsEdge(cut, reps, g, j, n - 1);
    }
  }

  // ---------------------------------------------------------------- lists and their parts

  lemma {:induction false} UpToIsPrefix(groups: seq<Group>, reps: seq<GroupId>, rank: seq<nat>, g: GroupId, n: nat, m: nat)
    requires Graph(groups, reps, rank) && IsRoot(reps, g) && n <= m <= |Exprs(groups, g)|
    ensures var part, whole := PlansUpTo(groups, reps, rank, g, n), PlansUpTo(groups, reps, rank, g, m);
            |part| <= |whole| && part == whole[..|part|]
    decreases m
  {
    if n < m {
      hide Shape, Acyclic, ExprPlans;
      UpToIsPrefix(groups, reps, rank, g, n, m - 1);
      assert HasExpr(groups, g, m - 1);
    }
  }

  /** Every group stands for some plan. */
  lemma {:induction false} SomePlan(groups: seq<Group>, reps: seq<GroupId>, rank: seq<nat>, g: GroupId)
    requires Graph(groups, reps, rank) && IsRoot(reps, g)
    ensures AllPlans(groups, reps, rank, g) != []
  {
    FirstPlanDerives(groups, reps, rank, g);
    InAllPlans(groups, reps, rank, g, FirstPlan(groups, reps, rank, g));
  }

  /** The product of two cut lists reaches the bound exactly when the product of the lists exceeds it or a list was cut. */
  lemma ProductCut(l: nat, r: nat, m: nat)
    requires l > 0 && r > 0 && m > 0
    ensures var (cl, cr) := (if m < l then m else l, if m < r then m else r);
            l >= m || r >= m || cl * cr > m <==> l >= m || r >= m || l * r > m
  {
  }

  lemma TakeFits<T>(s: seq<T>, n: nat)
    ensures |s| <= n ==> Take(s, n) == s
  {
  }

  /** Appending one by one until the bound is cutting the concatenation. */
  lemma TakeOfPart<T>(before: seq<T>, more: seq<T>, part: seq<T>, n: nat)
    requires |part| <= n && exists i :: 0 <= i <= |more| && part == before + more[..i] && (i < |more| ==> |part| >= n)
    ensures part == Take(before + more, n)
  {
    var i :| 0 <= i <= |more| && part == before + more[..i] && (i < |more| ==> |part| >= n);
    assert part == (before + more)[..|part|];
  }

  lemma TakeIsLong<T>(part: seq<T>, whole: seq<T>, taken: seq<T>, n: nat)
    requires |part| <= |whole| && part == whole[..|part|] && taken == Take(part, n) && |taken| >= n
    ensures |whole| >= n && taken == Take(whole, n)
  {
  }

  lemma TakeIsAll<T>(s: seq<T>, taken: seq<T>, n: nat)
    requires taken == Take(s, n) && |taken| < n
    ensures taken == s
  {
  }

  lemma ExprPlansAreShort<T>(before: seq<T>, more: seq<T>, all: seq<T>)
    requires all == before + more
    ensures |more| <= |all|
  {
  }

  // ---------------------------------------------------------------- operators

  /** The alternatives of an operator over those of its children. */
  ghost function OperatorPlans(groups: seq<Group>, reps: seq<GroupId>, rank: seq<nat>, e: MemoExpr): seq<Plan>
    requires Graph(groups, reps, rank) && e.tag.Relational? && |e.kids| <= 2 && forall i | 0 <= i < |e.kids| :: IsRoot(reps, e.kids[i])
  {
    if |e.kids| == 0 then [Node(e.perm, e.tag.op, [])]
    else if |e.kids| == 1 then Roots(e.perm, e.tag.op, Singles(AllPlans(groups, reps, rank, e.kids[0])))
    else Roots(e.perm, e.tag.op, Pairs(Singles(AllPlans(groups, reps, rank, e.kids[0])), AllPlans(groups, reps, rank, e.kids[1])))
  }

  /** The list of one expression of the cut memo: that of the group it refers to, or that of its operator. */
  lemma ExprPlansOfOperator(groups: seq<Group>, reps: seq<GroupId>, rank: seq<nat>, g: GroupId, j: nat, k: nat)
    requires Graph(groups, reps, rank) && Graph(Truncated(groups, k), reps, rank) && IsRoot(reps, g)
    requires HasExpr(groups, g, j) && HasExpr(Truncated(groups, k), g, j) && CanonicalKids(reps, Exprs(groups, g)[j])
    ensures var e := Exprs(groups, g)[j];
            var all := ExprPlans(Truncated(groups, k), reps, rank, g, j);
            && (forall i | 0 <= i < |e.kids| :: IsRoot(reps, e.kids[i]) && rank[e.kids[i]] < rank[g])
            && (e.tag.GroupRef? ==> |e.kids| == 1 && all == AllPlans(Truncated(groups, k), reps, rank, e.kids[0]))
            && (e.tag.Relational? ==> |e.kids| <= 2 && all == OperatorPlans(Truncated(groups, k), reps, rank, e))
  {
    TruncatedExpr(groups, k, g, j);
    ExprPlansByArity(Truncated(groups, k), reps, rank, g, j);
  }

  lemma UnaryCut(perm: OrderPermission, op: Op, all: seq<Plan>, children: seq<Plan>, r: seq<Plan>, n: nat)
    requires children == Take(all, n) && |r| == |children| && r == Roots(perm, op, Singles(children))[..|r|]
    ensures r == Take(Roots(perm, op, Singles(all)), n)
  {
    TakeSingles(all, n);
    TakeRoots(perm, op, Singles(all), n);
  }

  lemma BinaryCut(perm: OrderPermission, op: Op, allLefts: seq<Plan>, allRights: seq<Plan>, lefts: seq<Plan>, rights: seq<Plan>, r: seq<Plan>, n: nat)
    requires n > 0 && allLefts != [] && allRights != [] && lefts == Take(allLefts, n) && rights == Take(allRights, n)
    requires LeftMajorPrefix(perm, op, lefts, rights, r) && |r| == if n < |lefts| * |rights| then n else |lefts| * |rights|
    ensures r == Take(Roots(perm, op, Pairs(Singles(allLefts), allRights)), n)
    ensures |allLefts| >= n || |allRights| >= n || |lefts| * |rights| > n <==>
            |allLefts| >= n || |allRights| >= n || |Roots(perm, op, Pairs(Singles(allLefts), allRights))| > n
  {
    hide Pairs;
    TakeSingles(allLefts, n);
    TakePairs(Singles(allLefts), allRights, n);
    TakeRoots(perm, op, Pairs(Singles(lefts), rights), n);
    TakeRoots(perm, op, Pairs(Singles(allLefts), allRights), n);
    ProductCut(|allLefts|, |allRights|, n);
  }

  /** The children of an expression in canonical form, one by one. */
  lemma KidsCutByArity(groups: seq<Group>, reps: seq<GroupId>, rank: seq<nat>, g: GroupId, j: nat, k: nat, m: nat)
    requires Graph(groups, reps, rank) && Graph(Truncated(groups, k), reps, rank) && IsRoot(reps, g)
    requires HasExpr(groups, g, j) && HasExpr(Truncated(groups, k), g, j) && CanonicalKids(reps, Exprs(groups, g)[j])
    ensures var e := Exprs(groups, g)[j];
            && (KidsCut(Truncated(groups, k), reps, rank, g, j, m) <==>
                  exists i :: 0 <= i < |e.kids| && PlansCut(Truncated(groups, k), reps, rank, e.kids[i], m))
            && (KidsExprsCut(groups, reps, rank, g, j, k) <==>
                  exists i :: 0 <= i < |e.kids| && ExprsCut(groups, reps, rank, e.kids[i], k))
  {
    var cut, e := Truncated(groups, k), Exprs(groups, g)[j];
    TruncatedExpr(groups, k, g, j);
    assert forall i :: IsEdge(cut, reps, g, j, i) <==> 0 <= i < |e.kids|;
    forall i | IsEdge(cut, reps, g, j, i) ensures Child(cut, reps, g, j, i) == e.kids[i] {
    }
    hide Shape, Acyclic, PlansCut, ExprsCut, Child, Truncated;
    if exists i :: 0 <= i < |e.kids| && PlansCut(cut, reps, rank, e.kids[i], m) {
      var i :| 0 <= i < |e.kids| && PlansCut(cut, reps, rank, e.kids[i], m);
      assert IsEdge(cut, reps, g, j, i);
    }
    if exists i :: 0 <= i < |e.kids| && ExprsCut(groups, reps, rank, e.kids[i], k) {
      var i :| 0 <= i < |e.kids| && ExprsCut(groups, reps, rank, e.kids[i], k);
      assert IsEdge(cut, reps, g, j, i);
    }
  }

  // ---------------------------------------------------------------- ample bounds

  lemma {:induction false} ReachesUncut(groups: seq<Group>, reps: seq<GroupId>, rank: seq<nat>, k: nat, from: GroupId, target: GroupId)
    requires Graph(groups, reps, rank) && Graph(Truncated(groups, k), reps, rank) && IsRoot(reps, from)
    requires Reaches(Truncated(groups, k), reps, rank, from, target)
    ensures Reaches(groups, reps, rank, from, target)
    decreases rank[from]
  {
    if from != target {
      var cut := Truncated(groups, k);
      var j, i :| IsEdge(cut, reps, from, j, i) && Reaches(cut, reps, rank, Child(cut, reps, from, j, i), target);
      TruncatedEdge(groups, reps, k, from, j, i);
      ReachesUncut(groups, reps, rank, k, Child(cut, reps, from, j, i), target);
    }
  }

  /** Every group below `g` has at most `k` expressions and stands for fewer than `m` plans. */
  ghost predicate Ample(groups: seq<Group>, reps: seq<GroupId>, rank: seq<nat>, g: GroupId, k: nat, m: nat)
    requires Graph(groups, reps, rank) && IsRoot(reps, g)
  {
    forall h: GroupId | IsRoot(reps, h) && Reaches(groups, reps, rank, g, h) ::
      |Exprs(groups, h)| <= k && |AllPlans(groups, reps, rank, h)| < m
  }

  /** Where every group below is within the expression bound and has fewer alternatives than the plan bound, nothing is
    cut: neither flag is raised and every alternative is enumerated. */
  lemma AmpleBounds(groups: seq<Group>, reps: seq<GroupId>, rank: seq<nat>, g: GroupId, k: nat, m: nat)
    requires Graph(groups, reps, rank) && IsRoot(reps, g) && k > 0 && Ample(groups, reps, rank, g, k, m)
    ensures Graph(Truncated(groups, k), reps, rank)
    ensures !ExprsCut(groups, reps, rank, g, k) && !PlansCut(Truncated(groups, k), reps, rank, g, m)
    ensures Take(AllPlans(Truncated(groups, k), reps, rank, g), m) == AllPlans(groups, reps, rank, g)
  {
    TruncatedGraph(groups, reps, rank, k);
    var cut := Truncated(groups, k);
    hide Shape, Acyclic, AllPlans, Truncated;
    forall h: GroupId | IsRoot(reps, h) && Reaches(cut, reps, rank, g, h)
      ensures Reaches(groups, reps, rank, g, h) && AllPlans(cut, reps, rank, h) == AllPlans(groups, reps, rank, h)
    {
      ReachesUncut(groups, reps, rank, k, g, h);
      forall x: GroupId | IsRoot(reps, x) && Reaches(cut, reps, rank, h, x) ensures |Exprs(groups, x)| <= k {
        ReachesUncut(groups, reps, rank, k, h, x);
        ReachesThrough(groups, reps, rank, g, h, x);
      }
      UncutPlans(groups, reps, rank, h, k);
    }
    assert Reaches(cut, reps, rank, g, g);
  }

  lemma {:induction false} ReachesThrough(groups: seq<Group>, reps: seq<GroupId>, rank: seq<nat>, from: GroupId, mid: GroupId, target: GroupId)
    requires Graph(groups, reps, rank) && IsRoot(reps, from) && IsRoot(reps, mid)
    requires Reaches(groups, reps, rank, from, mid) && Reaches(groups, reps, rank, mid, target)
    ensures Reaches(groups, reps, rank, from, target)
    decreases rank[from]
  {
    if from != mid {
      var j, i :| IsEdge(groups, reps, from, j, i) && Reaches(groups, reps, rank, Child(groups, reps, from, j, i), mid);
      ReachesThrough(groups, reps, rank, Child(groups, reps, from, j, i), mid, target);
    }
  }
}
