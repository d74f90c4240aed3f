/** Joins whose predicates are never abandoned, as plain filters over pairs: the laws behind predicate
  pushdown, LEFT-to-INNER, re-association and commutation.
 */
module JoinAlgebra {
  import opened Plans
  import opened Sequences
  import opened Values
  import opened Algebra

  function Keep<T>(xs: seq<T>, b: T -> bool): seq<T> {
    if xs == [] then [] else Keep(xs[..|xs| - 1], b) + if b(xs[|xs| - 1]) then [xs[|xs| - 1]] else []
  }

  function IsTrue(f: Row -> Truth): Row -> bool {
    row => f(row) == True
  }

  /** The joined rows of one left row, in right order. */
  function Pairs(l: Row, rs: seq<Row>, b: Row -> bool): seq<Row> {
    if rs == [] then [] else Pairs(l, rs[..|rs| - 1], b) + if b(Joined(l, rs[|rs| - 1])) then [Joined(l, rs[|rs| - 1])] else []
  }

  /** All joined rows, left-major. */
  function InnerRows(ls: seq<Row>, rs: seq<Row>, b: Row -> bool): seq<Row> {
    if ls == [] then [] else InnerRows(ls[..|ls| - 1], rs, b) + Pairs(ls[|ls| - 1], rs, b)
  }

  /** LEFT keeps an unmatched row, extended with NULLs. */
  function LeftRows(ls: seq<Row>, rs: seq<Row>, nulls: Row, b: Row -> bool): seq<Row> {
    if ls == [] then []
    else
      var l := ls[|ls| - 1];
      LeftRows(ls[..|ls| - 1], rs, nulls, b) + if Pairs(l, rs, b) == [] then [Joined(l, nulls)] else Pairs(l, rs, b)
  }

  // ---------------------------------------------------------------- from the engine's joins

  ghost predicate TotalAt(f: Row -> Truth, xs: seq<Row>) {
    forall i | 0 <= i < |xs| :: f(xs[i]) != Error
  }

  ghost predicate TotalPairs(f: Row -> Truth, ls: seq<Row>, rs: seq<Row>) {
    forall i, j | 0 <= i < |ls| && 0 <= j < |rs| :: f(Joined(ls[i], rs[j])) != Error
  }

  lemma {:induction false} FilterIsKeep(xs: seq<Row>, f: Row -> Truth)
    requires TotalAt(f, xs)
    ensures FlatMap(xs, KeepTrue(f)) == Ok(Keep(xs, IsTrue(f)))
  {
    if xs != [] {
      var n := |xs| - 1;
      FilterIsKeep(xs[..n], f);
      var last: seq<Row> := if f(xs[n]) == True then [xs[n]] else [];
      assert KeepTrue(f)(xs[n]) == Ok(last);
    }
  }

  lemma {:induction false} MatchesArePairs(l: Row, rs: seq<Row>, f: Row -> Truth)
    requires forall j | 0 <= j < |rs| :: f(Joined(l, rs[j])) != Error
    ensures FlatMap(rs, Match(f, l)) == Ok(Pairs(l, rs, IsTrue(f)))
  {
    if rs != [] {
      var n := |rs| - 1;
      MatchesArePairs(l, rs[..n], f);
      var last: seq<Row> := if f(Joined(l, rs[n])) == True then [Joined(l, rs[n])] else [];
      assert Match(f, l)(rs[n]) == Ok(last);
    }
  }

  /** An INNER join over total predicates. */
  lemma {:induction false} InnerIsPairs(ls: seq<Row>, right: Rel, f: Row -> Truth, m: Row -> Truth)
    requires TotalPairs(f, ls, right.rows)
    ensures FlatMap(ls, JoinOne(Inner, f, m, right)) == Ok(InnerRows(ls, right.rows, IsTrue(f)))
  {
    if ls != [] {
      var n := |ls| - 1;
      InnerIsPairs(ls[..n], right, f, m);
      MatchesArePairs(ls[n], right.rows, f);
    }
  }

  lemma {:induction false} LeftIsPairs(ls: seq<Row>, right: Rel, f: Row -> Truth, m: Row -> Truth)
    requires TotalPairs(f, ls, right.rows)
    ensures FlatMap(ls, JoinOne(JoinKind.Left, f, m, right)) == Ok(LeftRows(ls, right.rows, NullRow(right.header), IsTrue(f)))
  {
    hide NullRow;
    if ls != [] {
      var n := |ls| - 1;
      LeftIsPairs(ls[..n], right, f, m);
      MatchesArePairs(ls[n], right.rows, f);
    }
  }

  // ---------------------------------------------------------------- laws of keeping

  lemma {:induction false} KeepAppend<T>(xs: seq<T>, ys: seq<T>, b: T -> bool)
    ensures Keep(xs + ys, b) == Keep(xs, b) + Keep(ys, b)
  {
    if ys == [] {
      assert xs + ys == xs;
    } else {
      assert (xs + ys)[..|xs + ys| - 1] == xs + ys[..|ys| - 1];
      KeepAppend(xs, ys[..|ys| - 1], b);
    }
  }

  lemma {:induction false} KeepAgree<T>(xs: seq<T>, b: T -> bool, c: T -> bool)
    requires forall i | 0 <= i < |xs| :: b(xs[i]) == c(xs[i])
    ensures Keep(xs, b) == Keep(xs, c)
  {
    if xs != [] { KeepAgree(xs[..|xs| - 1], b, c); }
  }

  /** Every kept element is one of the originals and passes. */
  lemma {:induction false} KeptFrom<T>(xs: seq<T>, b: T -> bool)
    ensures forall k | 0 <= k < |Keep(xs, b)| :: b(Keep(xs, b)[k]) && exists i :: 0 <= i < |xs| && xs[i] == Keep(xs, b)[k]
  {
    if xs != [] {
      var n := |xs| - 1;
      KeptFrom(xs[..n], b);
      var kept := Keep(xs[..n], b);
      forall k | 0 <= k < |Keep(xs, b)| ensures b(Keep(xs, b)[k]) && exists i :: 0 <= i < |xs| && xs[i] == Keep(xs, b)[k] {
        if k < |kept| {
          var i :| 0 <= i < n && xs[..n][i] == kept[k];
          assert xs[i] == Keep(xs, b)[k];
        } else {
          assert xs[n] == Keep(xs, b)[k];
        }
      }
    }
  }

  /** Predicates over pairs that agree on every pair give the same join. */
  lemma {:induction false} PairsAgree(l: Row, rs: seq<Row>, b: Row -> bool, c: Row -> bool)
    requires forall j | 0 <= j < |rs| :: b(Joined(l, rs[j])) == c(Joined(l, rs[j]))
    ensures Pairs(l, rs, b) == Pairs(l, rs, c)
  {
    if rs != [] { PairsAgree(l, rs[..|rs| - 1], b, c); }
  }

  lemma {:induction false} InnerAgree(ls: seq<Row>, rs: seq<Row>, b: Row -> bool, c: Row -> bool)
    requires forall i, j | 0 <= i < |ls| && 0 <= j < |rs| :: b(Joined(ls[i], rs[j])) == c(Joined(ls[i], rs[j]))
    ensures InnerRows(ls, rs, b) == InnerRows(ls, rs, c)
  {
    if ls != [] {
      InnerAgree(ls[..|ls| - 1], rs, b, c);
      PairsAgree(ls[|ls| - 1], rs, b, c);
    }
  }

  // ---------------------------------------------------------------- pushdown

  function Conj(b: Row -> bool, c: Row -> bool): Row -> bool {
    row => b(row) && c(row)
  }

  lemma {:induction false} KeepPairs(l: Row, rs: seq<Row>, b: Row -> bool, g: Row -> bool)
    ensures Keep(Pairs(l, rs, b), g) == Pairs(l, rs, Conj(b, g))
  {
    if rs != [] {
      var n := |rs| - 1;
      KeepPairs(l, rs[..n], b, g);
      var x := Joined(l, rs[n]);
      KeepAppend(Pairs(l, rs[..n], b), if b(x) then [x] else [], g);
      assert [x][..0] == [];
    }
  }

  /** Filtering a join is joining on the conjunction. */
  lemma {:induction false} KeepInner(ls: seq<Row>, rs: seq<Row>, b: Row -> bool, g: Row -> bool)
    ensures Keep(InnerRows(ls, rs, b), g) == InnerRows(ls, rs, Conj(b, g))
  {
    if ls != [] {
      var n := |ls| - 1;
      KeepInner(ls[..n], rs, b, g);
      KeepPairs(ls[n], rs, b, g);
      KeepAppend(InnerRows(ls[..n], rs, b), Pairs(ls[n], rs, b), g);
    }
  }

  lemma {:induction false} NoPairs(l: Row, rs: seq<Row>, b: Row -> bool)
    requires forall j | 0 <= j < |rs| :: !b(Joined(l, rs[j]))
    ensures Pairs(l, rs, b) == []
  {
    if rs != [] { NoPairs(l, rs[..|rs| - 1], b); }
  }

  /** A conjunct that only reads the left row can be checked before the join. */
  lemma {:induction false} PushLeft(ls: seq<Row>, rs: seq<Row>, b: Row -> bool, g: Row -> bool)
    requires forall i, j | 0 <= i < |ls| && 0 <= j < |rs| :: g(Joined(ls[i], rs[j])) == g(ls[i])
    ensures InnerRows(ls, rs, Conj(b, g)) == InnerRows(Keep(ls, g), rs, b)
  {
    if ls != [] {
      var n := |ls| - 1;
      PushLeft(ls[..n], rs, b, g);
      var kept := Keep(ls[..n], g);
      if g(ls[n]) {
        PairsAgree(ls[n], rs, Conj(b, g), b);
        assert (kept + [ls[n]])[..|kept|] == kept;
      } else {
        NoPairs(ls[n], rs, Conj(b, g));
        assert kept + [] == kept;
      }
    }
  }

  lemma {:induction false} PushRightPairs(l: Row, rs: seq<Row>, b: Row -> bool, g: Row -> bool)
    requires forall j | 0 <= j < |rs| :: g(Joined(l, rs[j])) == g(rs[j])
    ensures Pairs(l, rs, Conj(b, g)) == Pairs(l, Keep(rs, g), b)
  {
    if rs != [] {
      var n := |rs| - 1;
      PushRightPairs(l, rs[..n], b, g);
      var kept := Keep(rs[..n], g);
      assert (kept + [rs[n]])[..|kept|] == kept;
      assert kept + [] == kept;
    }
  }

  /** A conjunct that only reads the right row can be checked before the join. */
  lemma {:induction false} PushRight(ls: seq<Row>, rs: seq<Row>, b: Row -> bool, g: Row -> bool)
    requires forall i, j | 0 <= i < |ls| && 0 <= j < |rs| :: g(Joined(ls[i], rs[j])) == g(rs[j])
    ensures InnerRows(ls, rs, Conj(b, g)) == InnerRows(ls, Keep(rs, g), b)
  {
    if ls != [] {
      PushRight(ls[..|ls| - 1], rs, b, g);
      PushRightPairs(ls[|ls| - 1], rs, b, g);
    }
  }

  // ---------------------------------------------------------------- re-association

  lemma {:induction false} PairsAppend(l: Row, xs: seq<Row>, ys: seq<Row>, b: Row -> bool)
    ensures Pairs(l, xs + ys, b) == Pairs(l, xs, b) + Pairs(l, ys, b)
  {
    hide Joined;
    if ys == [] {
      assert xs + ys == xs;
    } else {
      assert (xs + ys)[..|xs + ys| - 1] == xs + ys[..|ys| - 1];
      PairsAppend(l, xs, ys[..|ys| - 1], b);
    }
  }

  lemma JoinedAssociates(a: Row, b: Row, c: Row)
    ensures Joined(Joined(a, b), c) == Joined(a, Joined(b, c))
  {
  }

  /** `a` joined with the joined rows of `b` is `ab` joined with the rows of `c`. */
  lemma {:induction false} AssociateOne(a: Row, b: Row, cs: seq<Row>, q: Row -> bool, outer: Row -> bool, p: Row -> bool, all: Row -> bool)
    requires forall k | 0 <= k < |cs| ::
               (q(Joined(b, cs[k])) && outer(Joined(a, Joined(b, cs[k])))) == (p(Joined(a, b)) && all(Joined(a, Joined(b, cs[k]))))
    ensures Pairs(a, Pairs(b, cs, q), outer) == if p(Joined(a, b)) then Pairs(Joined(a, b), cs, all) else []
  {
    if cs != [] {
      var n := |cs| - 1;
      AssociateOne(a, b, cs[..n], q, outer, p, all);
      var bc := Joined(b, cs[n]);
      JoinedAssociates(a, b, cs[n]);
      PairsAppend(a, Pairs(b, cs[..n], q), if q(bc) then [bc] else [], outer);
      assert [bc][..0] == [];
    }
  }

  lemma {:induction false} InnerAppend(xs: seq<Row>, ys: seq<Row>, rs: seq<Row>, b: Row -> bool)
    ensures InnerRows(xs + ys, rs, b) == InnerRows(xs, rs, b) + InnerRows(ys, rs, b)
  {
    hide Pairs;
    if ys == [] {
      assert xs + ys == xs;
    } else {
      assert (xs + ys)[..|xs + ys| - 1] == xs + ys[..|ys| - 1];
      InnerAppend(xs, ys[..|ys| - 1], rs, b);
    }
  }

  /** The predicates of both shapes decide every triple alike. */
  ghost predicate SameTriples(as_: seq<Row>, bs: seq<Row>, cs: seq<Row>, p: Row -> bool, all: Row -> bool, q: Row -> bool, outer: Row -> bool) {
    forall i, j, k | 0 <= i < |as_| && 0 <= j < |bs| && 0 <= k < |cs| ::
      (q(Joined(bs[j], cs[k])) && outer(Joined(as_[i], Joined(bs[j], cs[k])))) ==
      (p(Joined(as_[i], bs[j])) && all(Joined(as_[i], Joined(bs[j], cs[k]))))
  }

  lemma {:induction false} AssociateLeftRow(a: Row, bs: seq<Row>, cs: seq<Row>, p: Row -> bool, all: Row -> bool, q: Row -> bool, outer: Row -> bool)
    requires SameTriples([a], bs, cs, p, all, q, outer)
    ensures InnerRows(Pairs(a, bs, p), cs, all) == Pairs(a, InnerRows(bs, cs, q), outer)
  {
    if bs != [] {
      var n := |bs| - 1;
      var b := bs[n];
      assert [a][0] == a;
      AssociateLeftRow(a, bs[..n], cs, p, all, q, outer);
      forall k | 0 <= k < |cs|
        ensures (q(Joined(b, cs[k])) && outer(Joined(a, Joined(b, cs[k])))) == (p(Joined(a, b)) && all(Joined(a, Joined(b, cs[k]))))
      {
        assert Joined([a][0], Joined(bs[n], cs[k])) == Joined(a, Joined(b, cs[k]));
      }
      AssociateOne(a, b, cs, q, outer, p, all);
      PairsAppend(a, InnerRows(bs[..n], cs, q), Pairs(b, cs, q), outer);
      var ab := Joined(a, b);
      InnerAppend(Pairs(a, bs[..n], p), if p(ab) then [ab] else [], cs, all);
      assert [ab][..0] == [];
    }
  }

  /** (A join B) join C is A join (B join C), row for row. */
  lemma {:induction false} Associate(as_: seq<Row>, bs: seq<Row>, cs: seq<Row>, p: Row -> bool, all: Row -> bool, q: Row -> bool, outer: Row -> bool)
    requires SameTriples(as_, bs, cs, p, all, q, outer)
    ensures InnerRows(InnerRows(as_, bs, p), cs, all) == InnerRows(as_, InnerRows(bs, cs, q), outer)
  {
    if as_ != [] {
      var n := |as_| - 1;
      Associate(as_[..n], bs, cs, p, all, q, outer);
      forall j, k | 0 <= j < |bs| && 0 <= k < |cs|
        ensures (q(Joined(bs[j], cs[k])) && outer(Joined([as_[n]][0], Joined(bs[j], cs[k])))) ==
                (p(Joined([as_[n]][0], bs[j])) && all(Joined([as_[n]][0], Joined(bs[j], cs[k]))))
      {
        assert Joined(as_[n], Joined(bs[j], cs[k])) == Joined([as_[n]][0], Joined(bs[j], cs[k]));
      }
      AssociateLeftRow(as_[n], bs, cs, p, all, q, outer);
      InnerAppend(InnerRows(as_[..n], bs, p), Pairs(as_[n], bs, p), cs, all);
    }
  }

  // ---------------------------------------------------------------- commutation

  /** Rows with disjoint columns join to the same row either way. */
  ghost predicate DisjointRows(ls: seq<Row>, rs: seq<Row>) {
    forall i, j | 0 <= i < |ls| && 0 <= j < |rs| :: Joined(ls[i], rs[j]) == Joined(rs[j], ls[i])
  }

  lemma {:induction false} AddRightRow(ls: seq<Row>, rs: seq<Row>, r: Row, b: Row -> bool)
    requires forall i | 0 <= i < |ls| :: Joined(ls[i], r) == Joined(r, ls[i])
    ensures multiset(InnerRows(ls, rs + [r], b)) == multiset(InnerRows(ls, rs, b)) + multiset(Pairs(r, ls, b))
  {
    if ls != [] {
      var n := |ls| - 1;
      hide Joined;
      AddRightRow(ls[..n], rs, r, b);
      var x := Joined(ls[n], r);
      var last := if b(x) then [x] else [];
      assert (rs + [r])[..|rs|] == rs;
      assert Pairs(ls[n], rs + [r], b) == Pairs(ls[n], rs, b) + last;
      assert x == Joined(r, ls[n]);
      assert Pairs(r, ls, b) == Pairs(r, ls[..n], b) + last;
    }
  }

  lemma {:induction false} NoRightRows(ls: seq<Row>, b: Row -> bool)
    ensures InnerRows(ls, [], b) == []
  {
    if ls != [] { NoRightRows(ls[..|ls| - 1], b); }
  }

  /** Commuting a join keeps the bag of rows. */
  lemma {:induction false} Commute(ls: seq<Row>, rs: seq<Row>, b: Row -> bool)
    requires DisjointRows(ls, rs)
    ensures multiset(InnerRows(ls, rs, b)) == multiset(InnerRows(rs, ls, b))
    decreases |rs|
  {
    if rs == [] {
      NoRightRows(ls, b);
    } else {
      var n := |rs| - 1;
      Commute(ls, rs[..n], b);
      AddRightRow(ls, rs[..n], rs[n], b);
      assert rs == rs[..n] + [rs[n]];
    }
  }
}
