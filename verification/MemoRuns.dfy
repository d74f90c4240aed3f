/** Whole runs of the memo: any sequence of insertions and equivalences, with every merge they cause. */
module MemoRuns {
  import opened Plans
  import opened Sequences
  import opened MemoGraph
  import opened MemoCongruence
  import opened MemoPlans
  import opened Memo

  /** One request: intern a plan; record that `alternative` means what `p` means, by an expression or by a
    reference between their groups; or intern a raw expression over group ids. */
  datatype Step = Intern(p: Plan) | Relate(p: Plan, alternative: Plan) | Refer(p: Plan, alternative: Plan) | Raw(e: MemoExpr)

  /** The plans a step interns. */
  function Subjects(step: Step): seq<Plan> {
    match step
    case Intern(p) => [p]
    case Relate(p, q) => [p, q]
    case Refer(p, q) => [p, q]
    case Raw(_) => []
  }

  /** Group `g` is group `h` or holds a reference to it. */
  ghost predicate Refers(groups: seq<Group>, reps: seq<GroupId>, g: GroupId, h: GroupId)
    requires Shape(groups, reps)
  {
    Known(reps, g) && Known(reps, h) && (g == h || exists perm :: HasCanon(groups, reps, g, Alias(h, perm)))
  }

  /** The memo has a group for the step's plans: one group for related ones, a reference between referring ones. */
  ghost predicate Recorded(step: Step, groups: seq<Group>, reps: seq<GroupId>, index: map<MemoExpr, GroupId>)
    requires Shape(groups, reps)
  {
    match step
    case Intern(p) => Lookup(index, p).Some?
    case Relate(p, q) => Lookup(index, p).Some? && Lookup(index, q) == Lookup(index, p)
    case Refer(p, q) => Lookup(index, p).Some? && Lookup(index, q).Some? && Refers(groups, reps, Lookup(index, p).value, Lookup(index, q).value)
    case Raw(e) => KidsKnown(reps, e) && Canon(reps, e) in index
  }

  ghost predicate Sensible<D(!new)>(step: Step, sem: Semantics<D>) {
    step.Relate? || step.Refer? ==> PlanDen(sem, step.alternative) == PlanDen(sem, step.p)
  }

  lemma AliasMoves(groups: seq<Group>, reps: seq<GroupId>, g: GroupId, h: GroupId, perm: OrderPermission)
    requires Shape(groups, reps) && Known(reps, g) && Known(reps, h) && HasCanon(groups, reps, g, Alias(h, perm))
    ensures HasCanon(groups, reps, g, Alias(Root(reps, h), perm))
  {
    assert Canon(reps, Alias(Root(reps, h), perm)).kids == Canon(reps, Alias(h, perm)).kids;
  }

  lemma RefersStays(groups0: seq<Group>, reps0: seq<GroupId>, groups1: seq<Group>, reps1: seq<GroupId>, g: GroupId, h: GroupId)
    requires Keeps(groups0, reps0, groups1, reps1) && IsRoot(reps0, g) && IsRoot(reps0, h) && Refers(groups0, reps0, g, h)
    ensures Known(reps1, g) && Known(reps1, h) && Refers(groups1, reps1, Root(reps1, g), Root(reps1, h))
  {
    if g != h {
      var perm :| HasCanon(groups0, reps0, g, Alias(h, perm));
      hide HasCanon;
      HasCanonStays(groups0, reps0, groups1, reps1, g, Alias(h, perm));
      AliasMoves(groups1, reps1, Root(reps1, g), h, perm);
    }
  }

  /** A raw expression stays indexed under later representatives. */
  lemma RawStays(groups0: seq<Group>, reps0: seq<GroupId>, index0: map<MemoExpr, GroupId>,
                 groups1: seq<Group>, reps1: seq<GroupId>, index1: map<MemoExpr, GroupId>, e: MemoExpr)
    requires Shape(groups0, reps0) && Indexed(groups0, reps0, index0)
    requires Shape(groups1, reps1) && Tidy(groups1, reps1) && Indexed(groups1, reps1, index1)
    requires Keeps(groups0, reps0, groups1, reps1) && KidsKnown(reps0, e) && Canon(reps0, e) in index0
    ensures KidsKnown(reps1, e) && Canon(reps1, e) in index1
  {
    var c := Canon(reps0, e);
    IndexedStays(groups0, reps0, index0, groups1, reps1, index1, c);
    assert Canon(reps0, c).kids == c.kids;
    CanonThrough(reps0, reps1, e, c);
  }

  /** Later requests and merges do not lose a request. */
  lemma RecordedStays(step: Step, groups0: seq<Group>, reps0: seq<GroupId>, index0: map<MemoExpr, GroupId>,
                      groups1: seq<Group>, reps1: seq<GroupId>, index1: map<MemoExpr, GroupId>)
    requires Shape(groups0, reps0) && Indexed(groups0, reps0, index0)
    requires Shape(groups1, reps1) && Tidy(groups1, reps1) && Indexed(groups1, reps1, index1)
    requires Keeps(groups0, reps0, groups1, reps1) && Recorded(step, groups0, reps0, index0)
    ensures Recorded(step, groups1, reps1, index1)
  {
    assert RepsOk(reps0) && RepsOk(reps1);
    hide Shape, Tidy, Indexed, Keeps, Lookup, Refers;
    match step
    case Intern(p) => LookupKeeps(groups0, reps0, index0, groups1, reps1, index1, p);
    case Relate(p, q) =>
      LookupKeeps(groups0, reps0, index0, groups1, reps1, index1, p);
      LookupKeeps(groups0, reps0, index0, groups1, reps1, index1, q);
    case Refer(p, q) =>
      LookupKeeps(groups0, reps0, index0, groups1, reps1, index1, p);
      LookupKeeps(groups0, reps0, index0, groups1, reps1, index1, q);
      RefersStays(groups0, reps0, groups1, reps1, Lookup(index0, p).value, Lookup(index0, q).value);
    case Raw(e) => RawStays(groups0, reps0, index0, groups1, reps1, index1, e);
  }

  ghost predicate AllRecorded(steps: seq<Step>, n: int, groups: seq<Group>, reps: seq<GroupId>, index: map<MemoExpr, GroupId>)
    requires Shape(groups, reps) && n <= |steps|
  {
    forall i | 0 <= i < n :: Recorded(steps[i], groups, reps, index)
  }

  /** One more request leaves all earlier ones recorded. */
  lemma OneMoreRecorded(steps: seq<Step>, n: int, groups0: seq<Group>, reps0: seq<GroupId>, index0: map<MemoExpr, GroupId>,
                        groups1: seq<Group>, reps1: seq<GroupId>, index1: map<MemoExpr, GroupId>)
    requires 0 <= n < |steps| && Shape(groups0, reps0) && Indexed(groups0, reps0, index0)
    requires Shape(groups1, reps1) && Tidy(groups1, reps1) && Indexed(groups1, reps1, index1)
    requires Keeps(groups0, reps0, groups1, reps1) && AllRecorded(steps, n, groups0, reps0, index0)
    requires Recorded(steps[n], groups1, reps1, index1)
    ensures AllRecorded(steps, n + 1, groups1, reps1, index1)
  {
    hide Shape, Tidy, Indexed, Keeps, Recorded;
    forall i | 0 <= i < n ensures Recorded(steps[i], groups1, reps1, index1) {
      RecordedStays(steps[i], groups0, reps0, index0, groups1, reps1, index1);
    }
  }

  /** What a referenced group offers, the referring group offers too. */
  lemma ReferredDerives(groups: seq<Group>, reps: seq<GroupId>, rank: seq<nat>, g: GroupId, h: GroupId, q: Plan)
    requires Graph(groups, reps, rank) && IsRoot(reps, g) && IsRoot(reps, h) && Refers(groups, reps, g, h)
    requires Derives(groups, reps, rank, h, q)
    ensures Derives(groups, reps, rank, g, q)
  {
    if g != h {
      var perm :| HasCanon(groups, reps, g, Alias(h, perm));
      var j :| HasExpr(groups, g, j) && Canon(reps, Exprs(groups, g)[j]) == Canon(reps, Alias(h, perm));
      assert Canon(reps, Alias(h, perm)).kids == [h];
      assert ValidExpr(reps, Exprs(groups, g)[j]) && IsEdge(groups, reps, g, j, 0);
      assert Root(reps, Exprs(groups, g)[j].kids[0]) == h;
      assert DerivesBy(groups, reps, rank, g, j, q);
    }
  }

  /** The group found for a plan denotes the plan. */
  lemma {:induction false} LookupDen<D(!new)>(groups: seq<Group>, reps: seq<GroupId>, index: map<MemoExpr, GroupId>,
                                              sem: Semantics<D>, den: map<GroupId, D>, p: Plan)
    requires Shape(groups, reps) && Sound(groups, reps, sem, den) && Indexed(groups, reps, index) && Lookup(index, p).Some?
    ensures IsRoot(reps, Lookup(index, p).value) && Lookup(index, p).value in den
    ensures den[Lookup(index, p).value] == PlanDen(sem, p)
  {
    var ids := LookupAll(index, p.kids).value;
    forall i | 0 <= i < |p.kids| ensures ids[i] in den && den[ids[i]] == PlanDen(sem, p.kids[i]) {
      LookupDen(groups, reps, index, sem, den, p.kids[i]);
    }
    hide PlanDen;
    EmbedDen(sem, den, p, ids);
    var e, g := Embed(p, ids), index[Embed(p, ids)];
    var j :| 0 <= j < |Exprs(groups, g)| && Exprs(groups, g)[j] == e;
    assert HasExpr(groups, g, j);
  }

  /** The tables of a memo at some point of a run. */
  datatype MemoState = MemoState(groups: seq<Group>, reps: seq<GroupId>, rank: seq<nat>, index: map<MemoExpr, GroupId>)

  ghost predicate Settled(at: MemoState) {
    Graph(at.groups, at.reps, at.rank) && Tidy(at.groups, at.reps) && Indexed(at.groups, at.reps, at.index)
  }

  /** Why a request is abandoned: a malformed plan or expression, or one that the memo, with everything below it
    interned, does not accept as an equivalent. */
  ghost predicate Abandoned(step: Step, at: MemoState)
    requires Settled(at)
  {
    match step
    case Intern(p) => !WellShaped(p)
    case Raw(e) => !ValidExpr(at.reps, e)
    case Relate(p, q) => !WellShaped(p) || (exists i :: 0 <= i < |q.kids| && !WellShaped(q.kids[i])) || Unrelated(p, q, at)
    case Refer(p, q) => !WellShaped(p) || !WellShaped(q) || Unreferable(p, q, at)
  }

  ghost predicate Unrelated(p: Plan, q: Plan, at: MemoState)
    requires Settled(at)
  {
    Lookup(at.index, p).Some? && LookupAll(at.index, q.kids).Some? &&
    !Accepts(at.groups, at.reps, at.rank, at.index, Lookup(at.index, p).value, Embed(q, LookupAll(at.index, q.kids).value))
  }

  ghost predicate Unreferable(p: Plan, q: Plan, at: MemoState)
    requires Settled(at)
  {
    Lookup(at.index, p).Some? && Lookup(at.index, q).Some? &&
    var g, h := Lookup(at.index, p).value, Lookup(at.index, q).value;
    g != h && HasExpr(at.groups, g, 0) && !Accepts(at.groups, at.reps, at.rank, at.index, g, Alias(h, Exprs(at.groups, g)[0].perm))
  }

  lemma UnrelatedAt(p: Plan, q: Plan, at: MemoState, g: GroupId, ids: seq<GroupId>)
    requires Settled(at) && Lookup(at.index, p) == Some(g) && |ids| == |q.kids|
    requires forall i | 0 <= i < |ids| :: Lookup(at.index, q.kids[i]) == Some(ids[i])
    requires !Accepts(at.groups, at.reps, at.rank, at.index, g, Embed(q, ids))
    ensures Unrelated(p, q, at)
  {
    hide Lookup, Accepts, Settled;
    assert LookupAll(at.index, q.kids).value == ids;
  }

  /** Interns the children of `q`, then offers its root as an equivalent of group `home`. */
  method RelatePlan<D(!new)>(m: Memo<D>, p: Plan, home: GroupId, q: Plan) returns (ok: bool, ghost at: MemoState)
    requires m.Valid() && Lookup(m.index, p) == Some(home) && PlanDen(m.sem, q) == PlanDen(m.sem, p)
    modifies m
    ensures ok ==> m.Valid() && Keeps(old(m.groups), old(m.reps), m.groups, m.reps)
    ensures ok ==> Lookup(m.index, p).Some? && Lookup(m.index, q) == Lookup(m.index, p)
    ensures !ok ==> Settled(at) && Abandoned(Relate(p, q), at) && Keeps(old(m.groups), old(m.reps), at.groups, at.reps)
  {
    hide Acyclic, Sound, Tidy, Indexed, Keeps, PlanDen, HasCanon, Lookup, Accepts, Unrelated, WellShaped;
    ghost var groups0, reps0, index0 := m.groups, m.reps, m.index;
    var kids := m.InsertAll(q.kids);
    at := MemoState(m.groups, m.reps, m.rank, m.index);
    if kids.Fails? {
      ok := false;
      return;
    }
    ghost var groups1, reps1, index1 := m.groups, m.reps, m.index;
    var e := Embed(q, kids.value);
    LookupKeeps(groups0, reps0, index0, groups1, reps1, index1, p);
    LookupDen(groups1, reps1, index1, m.sem, m.den, p);
    EmbedDen(m.sem, m.den, q, kids.value);
    var g := m.Representative(home);
    var r := m.InsertEquivalent(g.value, e);
    if r.Fails? {
      UnrelatedAt(p, q, at, g.value, kids.value);
      ok := false;
      return;
    }
    KeepsTransitive(groups0, reps0, groups1, reps1, m.groups, m.reps);
    LookupKeeps(groups1, reps1, index1, m.groups, m.reps, m.index, p);
    FoundWith(groups1, reps1, index1, m.groups, m.reps, m.index, q, kids.value, g.value);
    ok := true;
  }

  /** Once an expression over the groups of a plan's children is in a class, the plan is found there. */
  lemma FoundWith(groups0: seq<Group>, reps0: seq<GroupId>, index0: map<MemoExpr, GroupId>,
                  groups1: seq<Group>, reps1: seq<GroupId>, index1: map<MemoExpr, GroupId>, q: Plan, ids: seq<GroupId>, g: GroupId)
    requires Shape(groups0, reps0) && Indexed(groups0, reps0, index0)
    requires Shape(groups1, reps1) && Tidy(groups1, reps1) && Indexed(groups1, reps1, index1)
    requires Keeps(groups0, reps0, groups1, reps1)
    requires |ids| == |q.kids| && forall i | 0 <= i < |ids| :: Lookup(index0, q.kids[i]) == Some(ids[i])
    requires Known(reps1, g) && HasCanon(groups1, reps1, Root(reps1, g), Embed(q, ids))
    ensures Lookup(index1, q) == Some(Root(reps1, g))
  {
    assert RepsOk(reps1) && |reps1| == |groups1| + 1;
    hide Shape, Tidy, Indexed, Keeps, Lookup;
    var e := Embed(q, ids);
    IndexedHasCanon(groups1, reps1, index1, e);
    assert KidsKnown(reps1, e);
    var roots := Canon(reps1, e).kids;
    forall i | 0 <= i < |ids| ensures Lookup(index1, q.kids[i]) == Some(roots[i]) {
      LookupKeeps(groups0, reps0, index0, groups1, reps1, index1, q.kids[i]);
    }
    EmbedIsCanonical(groups1, reps1, index1, q, roots);
    assert Embed(q, roots) == Canon(reps1, e);
  }

  /** Interns `q` and records that group `home` denotes what the group of `q` denotes. */
  method ReferTo<D(!new)>(m: Memo<D>, p: Plan, home: GroupId, q: Plan) returns (ok: bool, ghost at: MemoState)
    requires m.Valid() && Lookup(m.index, p) == Some(home) && PlanDen(m.sem, q) == PlanDen(m.sem, p)
    modifies m
    ensures ok ==> m.Valid() && Keeps(old(m.groups), old(m.reps), m.groups, m.reps) && Recorded(Refer(p, q), m.groups, m.reps, m.index)
    ensures !ok ==> Settled(at) && Abandoned(Refer(p, q), at) && Keeps(old(m.groups), old(m.reps), at.groups, at.reps)
  {
    hide Acyclic, Sound, Tidy, Indexed, Keeps, PlanDen, HasCanon, Lookup, Refers, Accepts, WellShaped;
    ghost var groups0, reps0, index0 := m.groups, m.reps, m.index;
    var target := m.Insert(q);
    at := MemoState(m.groups, m.reps, m.rank, m.index);
    if target.Fails? {
      ok := false;
      return;
    }
    ghost var groups1, reps1, index1 := m.groups, m.reps, m.index;
    LookupKeeps(groups0, reps0, index0, groups1, reps1, index1, p);
    LookupDen(groups1, reps1, index1, m.sem, m.den, p);
    LookupDen(groups1, reps1, index1, m.sem, m.den, q);
    var g := m.Representative(home);
    ghost var alias := Alias(target.value, Exprs(m.groups, g.value)[0].perm);
    var r := m.InsertGroupRefEquivalent(g.value, target.value);
    if r.Fails? {
      ok := false;
      return;
    }
    KeepsTransitive(groups0, reps0, groups1, reps1, m.groups, m.reps);
    LookupKeeps(groups1, reps1, index1, m.groups, m.reps, m.index, p);
    LookupKeeps(groups1, reps1, index1, m.groups, m.reps, m.index, q);
    ReferenceFound(m.groups, m.reps, g.value, target.value, alias.perm);
    ok := true;
  }

  lemma ReferenceFound(groups: seq<Group>, reps: seq<GroupId>, g: GroupId, h: GroupId, perm: OrderPermission)
    requires Shape(groups, reps) && Known(reps, g) && Known(reps, h)
    requires g != h ==> HasCanon(groups, reps, Root(reps, g), Alias(h, perm))
    ensures Refers(groups, reps, Root(reps, g), Root(reps, h))
  {
    hide HasCanon;
    if g != h {
      AliasMoves(groups, reps, Root(reps, g), h, perm);
    }
  }

  /** One request; one that is abandoned leaves the state `at` in which that was decided. */
  method Perform<D(!new)>(m: Memo<D>, step: Step) returns (ok: bool, ghost at: MemoState)
    requires m.Valid() && Sensible(step, m.sem)
    modifies m
    ensures ok ==> m.Valid() && Keeps(old(m.groups), old(m.reps), m.groups, m.reps) && Recorded(step, m.groups, m.reps, m.index)
    ensures !ok ==> Settled(at) && Abandoned(step, at) && Keeps(old(m.groups), old(m.reps), at.groups, at.reps)
  {
    hide Acyclic, Sound, Tidy, Indexed, Keeps, PlanDen, HasCanon, Lookup, Refers, WellShaped, Unrelated, Unreferable;
    at := MemoState(m.groups, m.reps, m.rank, m.index);
    KeepsReflexive(m.groups, m.reps);
    if step.Raw? {
      var r := m.InsertExpression(step.e);
      ok := r.Ok?;
      return;
    }
    var home := m.Insert(step.p);
    ok := home.Ok?;
    if !ok || step.Intern? {
      return;
    }
    ghost var groups1, reps1 := m.groups, m.reps;
    if step.Relate? {
      ok, at := RelatePlan(m, step.p, home.value, step.alternative);
    } else {
      ok, at := ReferTo(m, step.p, home.value, step.alternative);
    }
    if ok {
      KeepsTransitive(old(m.groups), old(m.reps), groups1, reps1, m.groups, m.reps);
    } else {
      KeepsTransitive(old(m.groups), old(m.reps), groups1, reps1, at.groups, at.reps);
    }
  }

  /** Every plan that can be read off the group of a plan means what the plan means. */
  ghost predicate Faithful<D(!new)>(p: Plan, groups: seq<Group>, reps: seq<GroupId>, index: map<MemoExpr, GroupId>, rank: seq<nat>,
                                    sem: Semantics<D>)
    requires Graph(groups, reps, rank) && Indexed(groups, reps, index)
  {
    && Lookup(index, p).Some? && IsRoot(reps, Lookup(index, p).value)
    && forall q | Derives(groups, reps, rank, Lookup(index, p).value, q) :: PlanDen(sem, q) == PlanDen(sem, p)
  }

  lemma FoundIsFaithful<D(!new)>(p: Plan, groups: seq<Group>, reps: seq<GroupId>, index: map<MemoExpr, GroupId>, rank: seq<nat>,
                                 sem: Semantics<D>, den: map<GroupId, D>)
    requires WellFormed(groups, reps, index, rank, sem, den) && Lookup(index, p).Some?
    ensures Faithful(p, groups, reps, index, rank, sem)
  {
    LookupDen(groups, reps, index, sem, den, p);
    var g := Lookup(index, p).value;
    hide Shape, Acyclic, Sound, Tidy, Indexed, Lookup, Derives, PlanDen;
    forall q | Derives(groups, reps, rank, g, q) ensures PlanDen(sem, q) == PlanDen(sem, p) {
      DerivedDen(groups, reps, rank, sem, den, g, q);
    }
  }

  /** A whole run: if every recorded equivalence is between plans of one meaning and no call is abandoned, then
    every request is still recorded, every plan that was ever interned still has a group, and everything
    derivable from it keeps the plan's meaning. A run stops only at a request that is malformed or that the memo, in
    the state it had reached, does not accept. */
  method Replay<D(!new)>(m: Memo<D>, steps: seq<Step>) returns (ok: bool, done: nat, ghost at: MemoState)
    requires m.Valid() && forall i | 0 <= i < |steps| :: Sensible(steps[i], m.sem)
    modifies m
    ensures ok ==> m.Valid() && AllRecorded(steps, |steps|, m.groups, m.reps, m.index)
    ensures ok ==> forall i, k | 0 <= i < |steps| && 0 <= k < |Subjects(steps[i])| ::
              Faithful(Subjects(steps[i])[k], m.groups, m.reps, m.index, m.rank, m.sem)
    ensures ok ==> forall p :: old(Lookup(m.index, p)).Some? ==> Faithful(p, m.groups, m.reps, m.index, m.rank, m.sem)
    ensures ok ==> done == |steps|
    ensures !ok ==> done < |steps| && Settled(at) && Abandoned(steps[done], at) && Keeps(old(m.groups), old(m.reps), at.groups, at.reps)
  {
    at := MemoState(m.groups, m.reps, m.rank, m.index);
    ghost var groups0, reps0, index0 := m.groups, m.reps, m.index;
    KeepsReflexive(groups0, reps0);
    assert AllRecorded(steps, 0, m.groups, m.reps, m.index);
    hide Acyclic, Sound, Tidy, Indexed, Keeps, PlanDen, Recorded, AllRecorded, Faithful, Subjects, Lookup, Abandoned, Settled;
    done := 0;
    while done < |steps|
      invariant 0 <= done <= |steps| && m.Valid()
      invariant Keeps(groups0, reps0, m.groups, m.reps)
      invariant AllRecorded(steps, done, m.groups, m.reps, m.index)
    {
      ghost var groups1, reps1, index1 := m.groups, m.reps, m.index;
      ok, at := Perform(m, steps[done]);
      if !ok {
        KeepsTransitive(groups0, reps0, groups1, reps1, at.groups, at.reps);
        return;
      }
      KeepsTransitive(groups0, reps0, groups1, reps1, m.groups, m.reps);
      OneMoreRecorded(steps, done, groups1, reps1, index1, m.groups, m.reps, m.index);
      done := done + 1;
    }
    ok := true;
    RunIsFaithful(steps, groups0, reps0, index0, m.groups, m.reps, m.index, m.rank, m.sem, m.den);
  }

  lemma RunIsFaithful<D(!new)>(steps: seq<Step>, groups0: seq<Group>, reps0: seq<GroupId>, index0: map<MemoExpr, GroupId>,
                               groups: seq<Group>, reps: seq<GroupId>, index: map<MemoExpr, GroupId>, rank: seq<nat>,
                               sem: Semantics<D>, den: map<GroupId, D>)
    requires Shape(groups0, reps0) && Indexed(groups0, reps0, index0)
    requires WellFormed(groups, reps, index, rank, sem, den) && Keeps(groups0, reps0, groups, reps)
    requires AllRecorded(steps, |steps|, groups, reps, index)
    ensures forall i, k | 0 <= i < |steps| && 0 <= k < |Subjects(steps[i])| :: Faithful(Subjects(steps[i])[k], groups, reps, index, rank, sem)
    ensures forall p :: Lookup(index0, p).Some? ==> Faithful(p, groups, reps, index, rank, sem)
  {
    hide Lookup, Faithful, Recorded, Subjects, Acyclic, Sound, Tidy, Indexed, Keeps;
    forall i, k | 0 <= i < |steps| && 0 <= k < |Subjects(steps[i])|
      ensures Faithful(Subjects(steps[i])[k], groups, reps, index, rank, sem)
    {
      SubjectsFound(steps[i], k, groups, reps, index);
      FoundIsFaithful(Subjects(steps[i])[k], groups, reps, index, rank, sem, den);
    }
    forall p | Lookup(index0, p).Some? ensures Faithful(p, groups, reps, index, rank, sem) {
      LookupKeeps(groups0, reps0, index0, groups, reps, index, p);
      FoundIsFaithful(p, groups, reps, index, rank, sem, den);
    }
  }

  lemma SubjectsFound(step: Step, k: int, groups: seq<Group>, reps: seq<GroupId>, index: map<MemoExpr, GroupId>)
    requires Shape(groups, reps) && Recorded(step, groups, reps, index) && 0 <= k < |Subjects(step)|
    ensures Lookup(index, Subjects(step)[k]).Some?
  {
    hide Lookup, Refers;
  }
}
