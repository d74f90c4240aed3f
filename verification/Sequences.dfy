/** Sequence operations used by the algebra: first occurrences, ascending position lists,
  and the lift of a partial row function to sequences.
 */
module Sequences {
  ghost predicate Unrepeated<T>(s: seq<T>) {
    forall i, j | 0 <= i < j < |s| :: s[i] != s[j]
  }

  /** The first occurrences of a sequence, in order. */
  function Dedup<T(==,!new)>(s: seq<T>): (r: seq<T>)
    ensures forall x :: x in r <==> x in s
    ensures Unrepeated(r)
    ensures s != [] ==> r != []
  {
    if s == [] then []
    else
      var d := Dedup(s[..|s| - 1]);
      var x := s[|s| - 1];
      assert s == s[..|s| - 1] + [x];
      if x in d then d else d + [x]
  }

  lemma {:induction false} DedupOfUnrepeated<T(!new)>(s: seq<T>)
    requires Unrepeated(s)
    ensures Dedup(s) == s
  {
    if s != [] {
      DedupOfUnrepeated(s[..|s| - 1]);
      assert s == s[..|s| - 1] + [s[|s| - 1]];
    }
  }

  // ---------------------------------------------------------------- partial maps over sequences

  /** A computation that either finishes or is abandoned by an exception. */
  datatype Outcome<+T> = Ok(value: T) | Fails

  /** Applies `h` to every element and concatenates; one failure fails the whole. */
  function FlatMap<A, B>(xs: seq<A>, h: A -> Outcome<seq<B>>): Outcome<seq<B>> {
    if xs == [] then Ok([])
    else
      match FlatMap(xs[..|xs| - 1], h)
      case Fails => Fails
      case Ok(init) =>
        match h(xs[|xs| - 1])
        case Fails => Fails
        case Ok(last) => Ok(init + last)
  }

  /** Applies `h` to every element in order; one failure fails the whole. */
  function MapAll<A, B>(xs: seq<A>, h: A -> Outcome<B>): (r: Outcome<seq<B>>)
    ensures r.Ok? <==> forall i | 0 <= i < |xs| :: h(xs[i]).Ok?
    ensures r.Ok? ==> |r.value| == |xs| && forall i | 0 <= i < |xs| :: r.value[i] == h(xs[i]).value
  {
    if xs == [] then Ok([])
    else
      match MapAll(xs[..|xs| - 1], h)
      case Fails => Fails
      case Ok(init) =>
        match h(xs[|xs| - 1])
        case Fails => Fails
        case Ok(last) => Ok(init + [last])
  }

  lemma MapAllIs<A, B>(xs: seq<A>, h: A -> Outcome<B>, ys: seq<B>)
    requires |ys| == |xs| && forall i | 0 <= i < |xs| :: h(xs[i]) == Ok(ys[i])
    ensures MapAll(xs, h) == Ok(ys)
  {
    assert MapAll(xs, h).value == ys;
  }

  lemma {:induction false} FlatMapFails<A, B>(xs: seq<A>, h: A -> Outcome<seq<B>>)
    ensures FlatMap(xs, h).Ok? <==> forall i | 0 <= i < |xs| :: h(xs[i]).Ok?
  {
    if xs != [] {
      FlatMapFails(xs[..|xs| - 1], h);
    }
  }

  lemma {:induction false} FlatMapAppend<A, B>(xs: seq<A>, ys: seq<A>, h: A -> Outcome<seq<B>>)
    ensures FlatMap(xs + ys, h) ==
            match FlatMap(xs, h)
            case Fails => Fails
            case Ok(a) => match FlatMap(ys, h) case Fails => Fails case Ok(b) => Ok(a + b)
  {
    if ys == [] {
      assert xs + ys == xs;
      assert FlatMap(xs, h).Ok? ==> FlatMap(xs, h).value + [] == FlatMap(xs, h).value;
    } else {
      assert (xs + ys)[..|xs + ys| - 1] == xs + ys[..|ys| - 1];
      FlatMapAppend(xs, ys[..|ys| - 1], h);
      if FlatMap(xs + ys, h).Ok? {
        var a, b, c := FlatMap(xs, h).value, FlatMap(ys[..|ys| - 1], h).value, h(ys[|ys| - 1]).value;
        assert (a + b) + c == a + (b + c);
      }
    }
  }

  /** Two functions that agree on the elements give one result. */
  lemma {:induction false} FlatMapAgree<A, B>(xs: seq<A>, h: A -> Outcome<seq<B>>, k: A -> Outcome<seq<B>>)
    requires forall i | 0 <= i < |xs| :: h(xs[i]) == k(xs[i])
    ensures FlatMap(xs, h) == FlatMap(xs, k)
  {
    if xs != [] {
      FlatMapAgree(xs[..|xs| - 1], h, k);
    }
  }

  /** First `h`, then `k` on everything `h` produced. */
  function Then<A, B, C>(h: A -> Outcome<seq<B>>, k: B -> Outcome<seq<C>>): A -> Outcome<seq<C>> {
    x => match h(x) case Fails => Fails case Ok(ys) => FlatMap(ys, k)
  }

  /** Two passes over a sequence are one pass over both steps, failures included. */
  lemma {:induction false} FlatMapCompose<A, B, C>(xs: seq<A>, h: A -> Outcome<seq<B>>, k: B -> Outcome<seq<C>>)
    requires FlatMap(xs, h).Ok?
    ensures FlatMap(FlatMap(xs, h).value, k) == FlatMap(xs, Then(h, k))
  {
    if xs != [] {
      FlatMapCompose(xs[..|xs| - 1], h, k);
      FlatMapAppend(FlatMap(xs[..|xs| - 1], h).value, h(xs[|xs| - 1]).value, k);
    }
  }

  /** A property of everything every step yields holds of everything the whole yields. */
  lemma {:induction false} FlatMapAll<A, B>(xs: seq<A>, h: A -> Outcome<seq<B>>, good: B -> bool)
    requires forall i, k | 0 <= i < |xs| && h(xs[i]).Ok? && 0 <= k < |h(xs[i]).value| :: good(h(xs[i]).value[k])
    ensures FlatMap(xs, h).Ok? ==> forall k | 0 <= k < |FlatMap(xs, h).value| :: good(FlatMap(xs, h).value[k])
  {
    if xs != [] {
      FlatMapAll(xs[..|xs| - 1], h, good);
    }
  }

  function MapTo<A, B>(s: seq<A>, f: A -> B): (r: seq<B>)
    ensures |r| == |s| && forall i | 0 <= i < |r| :: r[i] == f(s[i])
  {
    seq(|s|, i requires 0 <= i < |s| => f(s[i]))
  }

  // ---------------------------------------------------------------- bags

  /** One element can be moved to the end. */
  lemma ExtractLast<T>(s: seq<T>, t: seq<T>) returns (k: int)
    requires s != [] && multiset(s) == multiset(t)
    ensures 0 <= k < |t| && t[k] == s[|s| - 1]
    ensures multiset(s[..|s| - 1]) == multiset(t[..k] + t[k + 1..])
  {
    var x := s[|s| - 1];
    assert s == s[..|s| - 1] + [x];
    assert x in multiset(t);
    k :| 0 <= k < |t| && t[k] == x;
    assert t == t[..k] + [x] + t[k + 1..];
    assert multiset(t) == multiset(t[..k]) + multiset{x} + multiset(t[k + 1..]);
    assert multiset(s) - multiset{x} == multiset(s[..|s| - 1]);
    assert multiset(t) - multiset{x} == multiset(t[..k]) + multiset(t[k + 1..]);
  }

  /** The image of a bag. */
  lemma {:induction false} MapBag<A, B>(s: seq<A>, t: seq<A>, f: A -> B)
    requires multiset(s) == multiset(t)
    ensures multiset(MapTo(s, f)) == multiset(MapTo(t, f))
    decreases |s|
  {
    assert |multiset(s)| == |multiset(t)|;
    if s != [] {
      var k := ExtractLast(s, t);
      var n, rest := |s| - 1, t[..k] + t[k + 1..];
      MapBag(s[..n], rest, f);
      assert MapTo(s, f) == MapTo(s[..n], f) + [f(s[n])];
      assert MapTo(rest, f) == MapTo(t[..k], f) + MapTo(t[k + 1..], f);
      assert MapTo(t, f) == MapTo(t[..k], f) + [f(t[k])] + MapTo(t[k + 1..], f);
    }
  }
}
