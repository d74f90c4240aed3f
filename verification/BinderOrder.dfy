/** Which subtrees must keep their row order. After binding, a node is pinned exactly when some proper ancestor
  is an aggregate with a checked SUM or an order-sensitive window.
 */
module BinderOrder {
  import opened Plans
  import Windows

  predicate HasCheckedSum(op: Op) {
    op.Aggregate? && exists i | 0 <= i < |op.aggs| :: op.aggs[i].fn == Sum
  }

  predicate NeedsOrderedInput(op: Op) {
    op.Window? && exists i | 0 <= i < |op.wins| :: Windows.OrderSensitive(op.wins[i])
  }

  // ---------------------------------------------------------------- on values

  function MarkAll(perm: OrderPermission, p: Plan): Plan
    decreases p
  {
    Node(perm, p.op, seq(|p.kids|, i requires 0 <= i < |p.kids| => MarkAll(perm, p.kids[i])))
  }

  /** Pins everything below the topmost nodes that satisfy `sensitive`. */
  function Protect(sensitive: Op -> bool, p: Plan): Plan
    decreases p
  {
    if sensitive(p.op) then p.(kids := seq(|p.kids|, i requires 0 <= i < |p.kids| => MarkAll(Deterministic, p.kids[i])))
    else p.(kids := seq(|p.kids|, i requires 0 <= i < |p.kids| => Protect(sensitive, p.kids[i])))
  }

  predicate AllDeterministic(p: Plan)
    decreases p
  {
    p.perm == Deterministic && forall i | 0 <= i < |p.kids| :: AllDeterministic(p.kids[i])
  }

  /** The binder's final check. */
  predicate InputsPinned(p: Plan)
    decreases p
  {
    && (HasCheckedSum(p.op) || NeedsOrderedInput(p.op) ==> p.kids != [] && forall i | 0 <= i < |p.kids| :: AllDeterministic(p.kids[i]))
    && forall i | 0 <= i < |p.kids| :: InputsPinned(p.kids[i])
  }

  /** The plan in which a node is deterministic exactly when `below` holds of it: it has a sensitive proper
    ancestor, or everything above already was. */
  function Pinned(sensitive: Op -> bool, below: bool, p: Plan): Plan
    decreases p
  {
    Node(if below then Deterministic else Arbitrary, p.op,
         seq(|p.kids|, i requires 0 <= i < |p.kids| => Pinned(sensitive, below || sensitive(p.op), p.kids[i])))
  }

  function Either(a: Op -> bool, b: Op -> bool): Op -> bool {
    op => a(op) || b(op)
  }

  function Sensitive(): Op -> bool {
    Either(HasCheckedSum, NeedsOrderedInput)
  }

  lemma {:induction false} PinnedBelow(sensitive: Op -> bool, p: Plan)
    ensures Pinned(sensitive, true, p) == MarkAll(Deterministic, p)
    decreases p
  {
    forall i | 0 <= i < |p.kids| ensures Pinned(sensitive, true, p.kids[i]) == MarkAll(Deterministic, p.kids[i]) {
      PinnedBelow(sensitive, p.kids[i]);
    }
    assert Pinned(sensitive, true, p).kids == MarkAll(Deterministic, p).kids;
  }

  lemma {:induction false} MarkForgets(a: OrderPermission, b: OrderPermission, p: Plan)
    ensures MarkAll(a, MarkAll(b, p)) == MarkAll(a, p)
    decreases p
  {
    forall i | 0 <= i < |p.kids| ensures MarkAll(a, MarkAll(b, p.kids[i])) == MarkAll(a, p.kids[i]) {
      MarkForgets(a, b, p.kids[i]);
    }
    assert MarkAll(a, MarkAll(b, p)).kids == MarkAll(a, p).kids;
  }

  lemma {:induction false} MarkOfPinned(a: OrderPermission, sensitive: Op -> bool, below: bool, p: Plan)
    ensures MarkAll(a, Pinned(sensitive, below, p)) == MarkAll(a, p)
    decreases p
  {
    var deeper := below || sensitive(p.op);
    forall i | 0 <= i < |p.kids| ensures MarkAll(a, Pinned(sensitive, deeper, p.kids[i])) == MarkAll(a, p.kids[i]) {
      MarkOfPinned(a, sensitive, deeper, p.kids[i]);
    }
    assert MarkAll(a, Pinned(sensitive, below, p)).kids == MarkAll(a, p).kids;
  }

  /** The first protection, on a plan marked arbitrary throughout. */
  lemma {:induction false} ProtectFirst(sensitive: Op -> bool, p: Plan)
    ensures Protect(sensitive, MarkAll(Arbitrary, p)) == Pinned(sensitive, false, p)
    decreases p
  {
    forall i | 0 <= i < |p.kids|
      ensures Protect(sensitive, MarkAll(Arbitrary, p.kids[i])) == Pinned(sensitive, false, p.kids[i])
      ensures MarkAll(Deterministic, MarkAll(Arbitrary, p.kids[i])) == Pinned(sensitive, true, p.kids[i])
    {
      ProtectFirst(sensitive, p.kids[i]);
      MarkForgets(Deterministic, Arbitrary, p.kids[i]);
      PinnedBelow(sensitive, p.kids[i]);
    }
    assert Protect(sensitive, MarkAll(Arbitrary, p)).kids == Pinned(sensitive, false, p).kids;
  }

  /** A second protection adds its own sensitive nodes, also inside subtrees the first one pinned. */
  lemma {:induction false} ProtectAgain(first: Op -> bool, second: Op -> bool, below: bool, p: Plan)
    ensures Protect(second, Pinned(first, below, p)) == Pinned(Either(first, second), below, p)
    decreases p
  {
    var deeper := below || first(p.op);
    forall i | 0 <= i < |p.kids|
      ensures Protect(second, Pinned(first, deeper, p.kids[i])) == Pinned(Either(first, second), deeper, p.kids[i])
      ensures MarkAll(Deterministic, Pinned(first, deeper, p.kids[i])) == Pinned(Either(first, second), true, p.kids[i])
    {
      ProtectAgain(first, second, deeper, p.kids[i]);
      MarkOfPinned(Deterministic, first, deeper, p.kids[i]);
      PinnedBelow(Either(first, second), p.kids[i]);
    }
    assert Protect(second, Pinned(first, below, p)).kids == Pinned(Either(first, second), below, p).kids;
  }

  /** The binder's passes pin exactly the proper descendants of sensitive nodes. */
  lemma PassesPinExactly(p: Plan)
    ensures Protect(NeedsOrderedInput, Protect(HasCheckedSum, MarkAll(Arbitrary, p))) == Pinned(Sensitive(), false, p)
  {
    ProtectFirst(HasCheckedSum, p);
    ProtectAgain(HasCheckedSum, NeedsOrderedInput, false, p);
  }

  lemma {:induction false} MarkedIsDeterministic(p: Plan)
    ensures AllDeterministic(MarkAll(Deterministic, p))
    decreases p
  {
    forall i | 0 <= i < |p.kids| ensures AllDeterministic(MarkAll(Deterministic, p.kids[i])) {
      MarkedIsDeterministic(p.kids[i]);
    }
  }

  /** So the final check never fails. */
  lemma {:induction false} PinnedPassesCheck(below: bool, p: Plan)
    requires HasInputs(p)
    ensures InputsPinned(Pinned(Sensitive(), below, p))
    decreases p
  {
    var q := Pinned(Sensitive(), below, p);
    forall i | 0 <= i < |p.kids| ensures InputsPinned(q.kids[i]) {
      PinnedPassesCheck(below || Sensitive()(p.op), p.kids[i]);
    }
    if Sensitive()(p.op) {
      forall i | 0 <= i < |p.kids| ensures AllDeterministic(q.kids[i]) {
        PinnedBelow(Sensitive(), p.kids[i]);
        MarkedIsDeterministic(p.kids[i]);
      }
    }
  }

  /** Aggregates and windows have an input. */
  predicate HasInputs(p: Plan)
    decreases p
  {
    (p.op.Aggregate? || p.op.Window? ==> p.kids != []) && forall i | 0 <= i < |p.kids| :: HasInputs(p.kids[i])
  }

  // ---------------------------------------------------------------- in place

  /** A bound plan node; only its order permission changes after construction. */
  class PlanNode {
    var perm: OrderPermission
    const op: Op
    const kids: seq<PlanNode>
    ghost const repr: set<PlanNode>

    /** The nodes form a tree. */
    ghost predicate Valid()
      decreases repr
    {
      && this in repr
      && (forall i | 0 <= i < |kids| :: kids[i].repr < repr && this !in kids[i].repr && kids[i].Valid())
      && (forall i, j | 0 <= i < j < |kids| :: kids[i].repr !! kids[j].repr)
    }

    /** The plan the tree stands for. */
    ghost function View(): Plan
      requires Valid()
      reads repr
      decreases repr, 1
    {
      Node(perm, op, KidViews(|kids|))
    }

    /** The plans of the first `n` children. */
    ghost function KidViews(n: nat): (views: seq<Plan>)
      requires Valid() && n <= |kids|
      ensures |views| == n && forall k | 0 <= k < n :: views[k] == kids[k].View()
      reads repr
      decreases repr, 0, n
    {
      if n == 0 then [] else
        assert kids[n - 1].repr < repr;
        KidViews(n - 1) + [kids[n - 1].View()]
    }

    constructor (perm: OrderPermission, op: Op, kids: seq<PlanNode>)
      requires forall i | 0 <= i < |kids| :: kids[i].Valid()
      requires forall i, j | 0 <= i < j < |kids| :: kids[i].repr !! kids[j].repr
      ensures Valid() && this.perm == perm && this.op == op && this.kids == kids
      ensures fresh(this) && repr == {this} + set i, n | 0 <= i < |kids| && n in kids[i].repr :: n
    {
      this.perm := perm;
      this.op := op;
      this.kids := kids;
      this.repr := {this} + set i, n | 0 <= i < |kids| && n in kids[i].repr :: n;
    }

    method Mark(value: OrderPermission)
      requires Valid()
      modifies repr
      ensures View() == MarkAll(value, old(View()))
      decreases repr
    {
      ghost var before := View();
      perm := value;
      var i := 0;
      while i < |kids|
        invariant 0 <= i <= |kids| && perm == value
        invariant forall k | 0 <= k < i :: kids[k].View() == MarkAll(value, before.kids[k])
        invariant forall k | i <= k < |kids| :: kids[k].View() == before.kids[k]
      {
        kids[i].Mark(value);
        i := i + 1;
      }
      assert View().kids == MarkAll(value, before).kids;
    }

    /** Pins everything below this node. */
    method MarkInputs()
      requires Valid()
      modifies repr
      ensures perm == old(perm) && View().kids == MarkAll(Deterministic, old(View())).kids
      decreases repr, 0
    {
      ghost var before := View();
      var i := 0;
      while i < |kids|
        invariant 0 <= i <= |kids| && perm == before.perm
        invariant forall k | 0 <= k < i :: kids[k].View() == MarkAll(Deterministic, before.kids[k])
        invariant forall k | i <= k < |kids| :: kids[k].View() == before.kids[k]
      {
        kids[i].Mark(Deterministic);
        i := i + 1;
      }
    }

    /** Pins the whole input of each topmost checked-SUM aggregate. */
    method ProtectCheckedSums()
      requires Valid()
      modifies repr
      ensures View() == Protect(HasCheckedSum, old(View()))
      decreases repr, 1
    {
      if HasCheckedSum(op) {
        MarkInputs();
        return;
      }
      ghost var before := View();
      var i := 0;
      while i < |kids|
        invariant 0 <= i <= |kids| && perm == before.perm
        invariant forall k | 0 <= k < i :: kids[k].View() == Protect(HasCheckedSum, before.kids[k])
        invariant forall k | i <= k < |kids| :: kids[k].View() == before.kids[k]
      {
        kids[i].ProtectCheckedSums();
        i := i + 1;
      }
      assert View().kids == Protect(HasCheckedSum, before).kids;
    }

    /** Pins the whole input of each topmost order-sensitive window. */
    method ProtectWindows()
      requires Valid()
      modifies repr
      ensures View() == Protect(NeedsOrderedInput, old(View()))
      decreases repr, 1
    {
      if NeedsOrderedInput(op) {
        MarkInputs();
        return;
      }
      ghost var before := View();
      var i := 0;
      while i < |kids|
        invariant 0 <= i <= |kids| && perm == before.perm
        invariant forall k | 0 <= k < i :: kids[k].View() == Protect(NeedsOrderedInput, before.kids[k])
        invariant forall k | i <= k < |kids| :: kids[k].View() == before.kids[k]
      {
        kids[i].ProtectWindows();
        i := i + 1;
      }
      assert View().kids == Protect(NeedsOrderedInput, before).kids;
    }

    method IsDeterministic() returns (ok: bool)
      requires Valid()
      ensures ok == AllDeterministic(View())
      decreases repr
    {
      if perm != Deterministic {
        return false;
      }
      var i := 0;
      while i < |kids|
        invariant 0 <= i <= |kids|
        invariant forall k | 0 <= k < i :: AllDeterministic(View().kids[k])
      {
        ok := kids[i].IsDeterministic();
        if !ok {
          assert !AllDeterministic(View().kids[i]);
          return;
        }
        i := i + 1;
      }
      ok := true;
    }

    /** The binder's final check; false where it would throw. */
    method ChecksOut() returns (ok: bool)
      requires Valid()
      ensures ok == InputsPinned(View())
      decreases repr
    {
      var sensitive := HasCheckedSum(op) || NeedsOrderedInput(op);
      if sensitive && kids == [] {
        return false;
      }
      var i := 0;
      while i < |kids|
        invariant 0 <= i <= |kids|
        invariant forall k | 0 <= k < i :: InputsPinned(View().kids[k]) && (sensitive ==> AllDeterministic(View().kids[k]))
      {
        if sensitive {
          ok := kids[i].IsDeterministic();
          if !ok {
            assert !AllDeterministic(View().kids[i]);
            return;
          }
        }
        ok := kids[i].ChecksOut();
        if !ok {
          assert !InputsPinned(View().kids[i]);
          return;
        }
        i := i + 1;
      }
      ok := true;
    }

    /** Everything binding does to order permissions, on the tree below any final Sort and Limit. */
    method PinOrder() returns (ok: bool)
      requires Valid() && HasInputs(View())
      modifies repr
      ensures View() == Pinned(Sensitive(), false, old(View()))
      ensures ok
    {
      ghost var before := View();
      Mark(Arbitrary);
      ProtectCheckedSums();
      ProtectWindows();
      PassesPinExactly(before);
      PinnedPassesCheck(false, before);
      ok := ChecksOut();
    }
  }
}
