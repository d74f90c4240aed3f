/** What the stable sort promises: the same elements, in order, ties in their original order. */
module Sorting {
  import opened Algebra
  import opened Sequences

  lemma {:induction false} InsertBag<T>(less: (T, T) -> bool, s: seq<T>, x: T)
    ensures multiset(InsertSorted(less, s, x)) == multiset(s) + multiset{x}
    ensures |InsertSorted(less, s, x)| == |s| + 1
  {
    if s != [] {
      assert s == s[..|s| - 1] + [s[|s| - 1]];
      InsertBag(less, s[..|s| - 1], x);
    }
  }

  lemma {:induction false} SortBag<T>(less: (T, T) -> bool, s: seq<T>)
    ensures multiset(StableSort(less, s)) == multiset(s)
    ensures |StableSort(less, s)| == |s|
  {
    if s != [] {
      SortBag(less, s[..|s| - 1]);
      InsertBag(less, StableSort(less, s[..|s| - 1]), s[|s| - 1]);
      assert s == s[..|s| - 1] + [s[|s| - 1]];
    }
  }

  /** A relation that every pair of the list satisfies in list order. */
  ghost predicate Ordered<T>(s: seq<T>, prec: (T, T) -> bool) {
    forall i, j | 0 <= i < j < |s| :: prec(s[i], s[j])
  }

  /** Inserting `x` into an ordered list keeps it ordered when `x` precedes exactly what it is less than. */
  lemma {:induction false} InsertOrdered<T>(less: (T, T) -> bool, prec: (T, T) -> bool, s: seq<T>, x: T)
    requires Ordered(s, prec)
    requires forall i | 0 <= i < |s| :: if less(x, s[i]) then prec(x, s[i]) else prec(s[i], x)
    requires forall i, j | 0 <= i < j < |s| :: less(x, s[i]) ==> less(x, s[j])
    ensures Ordered(InsertSorted(less, s, x), prec)
  {
    if s != [] {
      var n := |s| - 1;
      assert s == s[..n] + [s[n]];
      if less(x, s[n]) {
        InsertOrdered(less, prec, s[..n], x);
        InsertBag(less, s[..n], x);
        var t := InsertSorted(less, s[..n], x);
        AllBefore(prec, s[..n], x, t, s[n]);
        OrderedSnoc(t, s[n], prec);
      } else {
        OrderedSnoc(s, x, prec);
      }
    }
  }

  lemma OrderedSnoc<T>(t: seq<T>, y: T, prec: (T, T) -> bool)
    requires Ordered(t, prec) && forall i | 0 <= i < |t| :: prec(t[i], y)
    ensures Ordered(t + [y], prec)
  {
  }

  lemma AllBefore<T>(prec: (T, T) -> bool, s: seq<T>, x: T, t: seq<T>, y: T)
    requires multiset(t) == multiset(s) + multiset{x}
    requires prec(x, y) && forall i | 0 <= i < |s| :: prec(s[i], y)
    ensures forall i | 0 <= i < |t| :: prec(t[i], y)
  {
    forall i | 0 <= i < |t| ensures prec(t[i], y) {
      assert t[i] in multiset(t);
      if t[i] != x {
        assert t[i] in s;
        var k :| 0 <= k < |s| && s[k] == t[i];
      }
    }
  }

  /** Sorting a list keeps `prec` between any two elements that `less` and list order agree to put in that
    order: `prec` orders strictly smaller elements first and ties by their position in `s`. */
  lemma {:induction false} SortOrdered<T>(less: (T, T) -> bool, prec: (T, T) -> bool, s: seq<T>)
    requires forall i, j | 0 <= i < j < |s| :: if less(s[j], s[i]) then prec(s[j], s[i]) else prec(s[i], s[j])
    requires forall a, b, c | a in s && b in s && c in s :: less(c, a) && prec(a, b) ==> less(c, b)
    ensures Ordered(StableSort(less, s), prec)
  {
    if s != [] {
      var n := |s| - 1;
      var x := s[n];
      assert s == s[..n] + [x];
      SortOrdered(less, prec, s[..n]);
      SortBag(less, s[..n]);
      var t := StableSort(less, s[..n]);
      forall i | 0 <= i < |t| ensures t[i] in s && if less(x, t[i]) then prec(x, t[i]) else prec(t[i], x) {
        assert t[i] in multiset(t);
        assert t[i] in s[..n];
        var k :| 0 <= k < n && s[..n][k] == t[i];
      }
      InsertOrdered(less, prec, t, x);
    }
  }

  lemma {:induction false} InsertMapped<A, B>(la: (A, A) -> bool, lb: (B, B) -> bool, s: seq<A>, x: A, f: A -> B)
    requires forall i | 0 <= i < |s| :: la(x, s[i]) == lb(f(x), f(s[i]))
    ensures MapTo(InsertSorted(la, s, x), f) == InsertSorted(lb, MapTo(s, f), f(x))
  {
    if s != [] {
      var n := |s| - 1;
      InsertMapped(la, lb, s[..n], x, f);
      assert MapTo(s, f)[..n] == MapTo(s[..n], f);
    }
  }

  /** Sorting commutes with an order-preserving map: sorting positions and then fetching rows is sorting rows. */
  lemma {:induction false} SortMapped<A, B>(la: (A, A) -> bool, lb: (B, B) -> bool, s: seq<A>, f: A -> B)
    requires forall x, y | x in s && y in s :: la(x, y) == lb(f(x), f(y))
    ensures MapTo(StableSort(la, s), f) == StableSort(lb, MapTo(s, f))
  {
    if s != [] {
      var n := |s| - 1;
      var x, t := s[n], StableSort(la, s[..n]);
      SortMapped(la, lb, s[..n], f);
      SortBag(la, s[..n]);
      SortedFromList(la, lb, s, t, f);
      InsertMapped(la, lb, t, x, f);
      assert MapTo(s, f)[..n] == MapTo(s[..n], f);
    }
  }

  lemma SortedFromList<A, B>(la: (A, A) -> bool, lb: (B, B) -> bool, s: seq<A>, t: seq<A>, f: A -> B)
    requires s != [] && multiset(t) == multiset(s[..|s| - 1])
    requires forall x, y | x in s && y in s :: la(x, y) == lb(f(x), f(y))
    ensures forall i | 0 <= i < |t| :: la(s[|s| - 1], t[i]) == lb(f(s[|s| - 1]), f(t[i]))
  {
    var x := s[|s| - 1];
    assert x in s;
    forall i | 0 <= i < |t| ensures la(x, t[i]) == lb(f(x), f(t[i])) {
      assert t[i] in multiset(t);
      assert t[i] in s[..|s| - 1];
      assert t[i] in s;
    }
  }
}
