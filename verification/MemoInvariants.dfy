/** The memo's own consistency check. It passes on every valid memo, so no completed mutation can trip it. */
module MemoInvariants {
  import opened Plans
  import opened Sequences
  import opened MemoGraph
  import opened Memo

  /** Expressions held by the representatives up to group `n`. */
  function CountUpTo(groups: seq<Group>, reps: seq<GroupId>, n: nat): nat
    requires n <= |groups|
  {
    if n == 0 then 0
    else CountUpTo(groups, reps, n - 1) + if IsRoot(reps, n) then |Exprs(groups, n)| else 0
  }

  function OwnedUpTo(index: map<MemoExpr, GroupId>, n: int): set<MemoExpr> {
    set e | e in index && index[e] <= n
  }

  lemma {:induction false} Members(s: seq<MemoExpr>)
    requires Unrepeated(s)
    ensures |set i | 0 <= i < |s| :: s[i]| == |s|
  {
    if s != [] {
      var n := |s| - 1;
      Members(s[..n]);
      var init := set i | 0 <= i < n :: s[..n][i];
      assert (set i | 0 <= i < |s| :: s[i]) == init + {s[n]} by {
        forall e | e in init + {s[n]} ensures e in (set i | 0 <= i < |s| :: s[i]) {
          if e in init {
            var i :| 0 <= i < n && s[..n][i] == e;
            assert s[i] == e;
          }
        }
        forall i | 0 <= i < |s| ensures s[i] in init + {s[n]} {
          assert i < n ==> s[..n][i] == s[i];
        }
      }
    }
  }

  /** The entries of one representative are exactly its expressions. */
  lemma OwnedByGroup(groups: seq<Group>, reps: seq<GroupId>, index: map<MemoExpr, GroupId>, n: int)
    requires Shape(groups, reps) && Tidy(groups, reps) && Indexed(groups, reps, index) && IsRoot(reps, n)
    ensures |set e | e in index && index[e] == n| == |Exprs(groups, n)|
  {
    var exprs := Exprs(groups, n);
    var own := set j | 0 <= j < |exprs| :: exprs[j];
    assert Unrepeated(exprs);
    Members(exprs);
    forall e ensures e in own <==> e in index && index[e] == n {
      if e in own {
        var j :| 0 <= j < |exprs| && exprs[j] == e;
        assert HasExpr(groups, n, j);
      }
    }
    assert own == set e | e in index && index[e] == n;
  }

  lemma OwnedStep(groups: seq<Group>, reps: seq<GroupId>, index: map<MemoExpr, GroupId>, n: int)
    requires Shape(groups, reps) && Tidy(groups, reps) && Indexed(groups, reps, index) && 1 <= n <= |groups|
    ensures |OwnedUpTo(index, n)| == |OwnedUpTo(index, n - 1)| + if IsRoot(reps, n) then |Exprs(groups, n)| else 0
  {
    if IsRoot(reps, n) {
      OwnedByGroup(groups, reps, index, n);
      hide *;
      SplitOwned(index, n);
    } else {
      assert forall e | e in index :: index[e] != n;
      SplitOwned(index, n);
      assert (set e | e in index && index[e] == n) == {};
    }
  }

  lemma SplitOwned(index: map<MemoExpr, GroupId>, n: int)
    ensures |OwnedUpTo(index, n)| == |OwnedUpTo(index, n - 1)| + |set e | e in index && index[e] == n|
  {
    var own := set e | e in index && index[e] == n;
    assert OwnedUpTo(index, n) == OwnedUpTo(index, n - 1) + own;
    assert OwnedUpTo(index, n - 1) !! own;
  }

  /** The index has one entry for every expression of every representative, and no other. */
  lemma {:induction false} IndexIsFull(groups: seq<Group>, reps: seq<GroupId>, index: map<MemoExpr, GroupId>, n: nat)
    requires Shape(groups, reps) && Tidy(groups, reps) && Indexed(groups, reps, index) && n <= |groups|
    ensures |OwnedUpTo(index, n)| == CountUpTo(groups, reps, n)
  {
    if n == 0 {
      NoneOwned(groups, reps, index);
    } else {
      hide Shape, Tidy, Indexed, OwnedUpTo;
      IndexIsFull(groups, reps, index, n - 1);
      OwnedStep(groups, reps, index, n);
    }
  }

  lemma NoneOwned(groups: seq<Group>, reps: seq<GroupId>, index: map<MemoExpr, GroupId>)
    requires |reps| == |groups| + 1 && Indexed(groups, reps, index)
    ensures OwnedUpTo(index, 0) == {} && OwnedUpTo(index, |groups|) == index.Keys
  {
  }

  /** Parents are known, chains end at a root, and no parent exceeds its child. */
  method CheckParents<D(!new)>(m: Memo<D>) returns (ok: bool)
    requires m.Valid()
    ensures ok
  {
    if |m.reps| != |m.groups| + 1 || m.reps[0] != 0 {
      return false;
    }
    for id := 1 to |m.reps| {
      if !Known(m.reps, m.reps[id]) {
        return false;
      }
      var root := m.Representative(id);
      var again := m.Representative(root.value);
      if again != root || root.value > id {
        return false;
      }
    }
    ok := true;
  }

  lemma NoPathToAlias(groups: seq<Group>, reps: seq<GroupId>, rank: seq<nat>, from: GroupId, g: GroupId)
    requires Shape(groups, reps) && Acyclic(groups, reps, rank) && IsRoot(reps, from) && !IsRoot(reps, g)
    ensures !Reaches(groups, reps, rank, from, g)
  {
    if Reaches(groups, reps, rank, from, g) {
      ReachesLowers(groups, reps, rank, from, g);
    }
  }

  /** A merged group holds one alias to its representative. */
  method CheckAlias<D(!new)>(m: Memo<D>, g: GroupId) returns (ok: bool)
    requires m.Valid() && Known(m.reps, g) && !IsRoot(m.reps, g)
    ensures ok
  {
    var exprs := Exprs(m.groups, g);
    if |exprs| != 1 {
      return false;
    }
    assert HasExpr(m.groups, g, 0);
    var root := m.Representative(g);
    if !exprs[0].tag.GroupRef? || |exprs[0].kids| != 1 || exprs[0].kids[0] != root.value || !ValidExpr(m.reps, exprs[0]) {
      return false;
    }
    NoPathToAlias(m.groups, m.reps, m.rank, root.value, g);
    ok := m.NoCycleFrom(g, exprs[0]);
  }

  /** A representative's expressions are valid, acyclic, canonical, and indexed under it. */
  method CheckGroup<D(!new)>(m: Memo<D>, g: GroupId) returns (ok: bool)
    requires m.Valid() && IsRoot(m.reps, g)
    ensures ok
  {
    var exprs := Exprs(m.groups, g);
    for j := 0 to |exprs| {
      assert HasExpr(m.groups, g, j);
      assert ValidExpr(m.reps, exprs[j]);
      OwnExprHasNoCycle(m.groups, m.reps, m.rank, g, j);
      CanonOfCanonical(m.reps, exprs[j]);
      if !ValidExpr(m.reps, exprs[j]) {
        return false;
      }
      var acyclic := m.NoCycleFrom(g, exprs[j]);
      if !acyclic || exists i | 0 <= i < |exprs[j].kids| :: !IsRoot(m.reps, exprs[j].kids[i]) {
        return false;
      }
      var owner := m.FindExisting(exprs[j]);
      if owner != Some(g) {
        return false;
      }
    }
    ok := true;
  }

  /** Every index entry names a representative that holds the expression; returns how many there are. */
  method CheckIndex<D(!new)>(m: Memo<D>) returns (ok: bool, count: int)
    requires m.Valid()
    ensures ok && count == |m.index|
  {
    var keys := m.index.Keys;
    count := 0;
    while keys != {}
      invariant keys <= m.index.Keys && count + |keys| == |m.index|
      decreases |keys|
    {
      var e :| e in keys;
      if !IsRoot(m.reps, m.index[e]) || e !in Exprs(m.groups, m.index[e]) {
        return false, count;
      }
      keys := keys - {e};
      count := count + 1;
    }
    ok := true;
  }

  /** The checks on one group; returns how many expressions the index should own for it. */
  method CheckOne<D(!new)>(m: Memo<D>, id: GroupId) returns (ok: bool, count: int)
    requires m.Valid() && Known(m.reps, id)
    ensures ok && count == if IsRoot(m.reps, id) then |Exprs(m.groups, id)| else 0
  {
    assert IsRoot(m.reps, id) ==> HasExpr(m.groups, id, 0);
    var exprs := Exprs(m.groups, id);
    if m.groups[id - 1].id != id || exprs == [] {
      return false, 0;
    }
    if IsRoot(m.reps, id) {
      ok := CheckGroup(m, id);
      count := |exprs|;
    } else {
      ok := CheckAlias(m, id);
      count := 0;
    }
  }

  /** Every check of the memo's assertion passes on a valid memo. */
  method AssertInvariants<D(!new)>(m: Memo<D>) returns (ok: bool)
    requires m.Valid()
    ensures ok
  {
    hide Acyclic, Sound, Tidy, Indexed;
    ok := CheckParents(m);
    if !ok {
      return;
    }
    var count := 0;
    for id := 1 to |m.groups| + 1
      invariant count == CountUpTo(m.groups, m.reps, id - 1)
    {
      var own;
      ok, own := CheckOne(m, id);
      if !ok {
        return;
      }
      count := count + own;
    }
    var indexed;
    ok, indexed := CheckIndex(m);
    IndexIsFull(m.groups, m.reps, m.index, |m.groups|);
    NoneOwned(m.groups, m.reps, m.index);
    ok := ok && indexed == count;
  }
}
