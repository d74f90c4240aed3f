/** The joins of the vectorized engine. Equalities between one left and one right column become hash keys;
  the rest stay residual. Each form returns the row sequence of the row engine's nested loop over the
  whole predicate list.
 */
module HashJoins {
  import opened Plans
  import opened Sequences
  import opened Values
  import opened Algebra
  import opened Semantics
  import opened Aggregation
  import opened WindowEvaluation
  import opened Correlation
  import opened Schemas
  import opened Interpreter
  import opened Masks

  datatype EquiKey = EquiKey(left: ColumnRef, right: ColumnRef)

  // ---------------------------------------------------------------- splitting predicates

  /** An equality that hashing can check: each column belongs to exactly one side. */
  function TryEquiKey(p: Pred, lh: seq<Field>, rh: seq<Field>): Option<EquiKey> {
    if !p.Cmp? || p.op != Eq || !p.lhs.Column? || !p.rhs.Column? then None
    else
      var a, b := p.lhs.col, p.rhs.col;
      var aLeft, aRight, bLeft, bRight := a.id in Names(lh), a.id in Names(rh), b.id in Names(lh), b.id in Names(rh);
      if aLeft && bRight && !aRight && !bLeft then Some(EquiKey(a, b))
      else if aRight && bLeft && !aLeft && !bRight then Some(EquiKey(b, a))
      else None
  }

  /** The equalities that are hashed: a column that only the left side shows against one that only the right side shows, in
    either order. */
  lemma HashedExactly(p: Pred, lh: seq<Field>, rh: seq<Field>, a: ColumnRef, b: ColumnRef)
    ensures TryEquiKey(p, lh, rh) == Some(EquiKey(a, b)) <==>
            && (p == Cmp(Column(a), Eq, Column(b)) || p == Cmp(Column(b), Eq, Column(a)))
            && a.id in Names(lh) && a.id !in Names(rh) && b.id in Names(rh) && b.id !in Names(lh)
  {
    hide Names;
  }

  function SplitKeys(ps: seq<Pred>, lh: seq<Field>, rh: seq<Field>): seq<EquiKey> {
    if ps == [] then []
    else SplitKeys(ps[..|ps| - 1], lh, rh) + (match TryEquiKey(ps[|ps| - 1], lh, rh) case None => [] case Some(k) => [k])
  }

  function SplitResiduals(ps: seq<Pred>, lh: seq<Field>, rh: seq<Field>): seq<Pred> {
    if ps == [] then []
    else SplitResiduals(ps[..|ps| - 1], lh, rh) + if TryEquiKey(ps[|ps| - 1], lh, rh).None? then [ps[|ps| - 1]] else []
  }

  method SplitJoinPredicates(ps: seq<Pred>, lh: seq<Field>, rh: seq<Field>) returns (keys: seq<EquiKey>, residuals: seq<Pred>)
    ensures keys == SplitKeys(ps, lh, rh) && residuals == SplitResiduals(ps, lh, rh)
  {
    hide TryEquiKey;
    keys, residuals := [], [];
    var i := 0;
    while i < |ps|
      invariant 0 <= i <= |ps|
      invariant keys == SplitKeys(ps[..i], lh, rh) && residuals == SplitResiduals(ps[..i], lh, rh)
    {
      assert ps[..i + 1][..i] == ps[..i];
      match TryEquiKey(ps[i], lh, rh) {
        case None => residuals := residuals + [ps[i]];
        case Some(k) => keys := keys + [k];
      }
      i := i + 1;
    }
    assert ps[..i] == ps;
  }

  function LeftColumns(keys: seq<EquiKey>): (r: seq<ColumnRef>)
    ensures |r| == |keys| && forall i | 0 <= i < |r| :: r[i] == keys[i].left
  {
    seq(|keys|, i requires 0 <= i < |keys| => keys[i].left)
  }

  function RightColumns(keys: seq<EquiKey>): (r: seq<ColumnRef>)
    ensures |r| == |keys| && forall i | 0 <= i < |r| :: r[i] == keys[i].right
  {
    seq(|keys|, i requires 0 <= i < |keys| => keys[i].right)
  }

  /** A row's hash key, if no key column is NULL. */
  function NonNullKey(cols: seq<ColumnRef>, row: Row): Option<seq<Cell>> {
    var key := KeyOf(cols, row, map[]);
    if exists i | 0 <= i < |key| :: key[i].Null? then None else Some(key)
  }

  ghost predicate KeyMatches(k: EquiKey, l: Row, r: Row) {
    var a, b := CellOf(k.left, l, map[]), CellOf(k.right, r, map[]);
    a == b && !a.Null?
  }

  /** A hashable equality is true exactly when both cells are non-NULL and equal. */
  lemma EquiKeyIsTrue(p: Pred, lh: seq<Field>, rh: seq<Field>, l: Row, r: Row, db: Db)
    requires RowFits(lh, l) && RowFits(rh, r) && TypedPred(p, lh, rh) && TryEquiKey(p, lh, rh).Some?
    ensures EvalPred(p, Joined(l, r), [], db) == True <==> KeyMatches(TryEquiKey(p, lh, rh).value, l, r)
  {
    TypedCell(p.lhs.col, lh, rh, l, r);
    TypedCell(p.rhs.col, lh, rh, l, r);
  }

  ghost predicate AllMatch(keys: seq<EquiKey>, l: Row, r: Row) {
    forall i | 0 <= i < |keys| :: KeyMatches(keys[i], l, r)
  }

  lemma AllMatchSnoc(ks: seq<EquiKey>, k: EquiKey, l: Row, r: Row)
    ensures AllMatch(ks + [k], l, r) <==> AllMatch(ks, l, r) && KeyMatches(k, l, r)
  {
    hide KeyMatches;
    var all := ks + [k];
    assert all[|ks|] == k && forall i | 0 <= i < |ks| :: all[i] == ks[i];
    if AllMatch(all, l, r) {
      assert KeyMatches(all[|ks|], l, r);
      forall i | 0 <= i < |ks| ensures KeyMatches(ks[i], l, r) {
        assert KeyMatches(all[i], l, r);
      }
    }
  }

  /** The whole list is true exactly when the keys match and the residuals are true. */
  lemma {:induction false} SplitIsTrue(ps: seq<Pred>, lh: seq<Field>, rh: seq<Field>, l: Row, r: Row, db: Db)
    requires RowFits(lh, l) && RowFits(rh, r) && TypedPreds(ps, lh, rh)
    ensures EvalPreds(ps, Joined(l, r), [], db) == True <==>
            AllMatch(SplitKeys(ps, lh, rh), l, r) && EvalPreds(SplitResiduals(ps, lh, rh), Joined(l, r), [], db) == True
    ensures EvalPreds(SplitResiduals(ps, lh, rh), Joined(l, r), [], db) != Error
  {
    hide RowFits, TypedPred, TryEquiKey, KeyMatches, EvalPred, AllMatch, Joined;
    if ps == [] {
      NothingToMatch(l, r);
    } else {
      var n, row := |ps| - 1, Joined(l, r);
      SplitIsTrue(ps[..n], lh, rh, l, r, db);
      TypedPredTotal(ps[n], lh, rh, l, r, db);
      var ks, rs := SplitKeys(ps[..n], lh, rh), SplitResiduals(ps[..n], lh, rh);
      PredsOfSnoc(ps[..n], ps[n], row, db);
      assert ps == ps[..n] + [ps[n]];
      SplitLastPred(ps, lh, rh);
      hide EvalPreds, SplitKeys, SplitResiduals, TypedPreds;
      match TryEquiKey(ps[n], lh, rh)
      case None => PredsOfSnoc(rs, ps[n], row, db);
      case Some(k) =>
        EquiKeyIsTrue(ps[n], lh, rh, l, r, db);
        AllMatchSnoc(ks, k, l, r);
    }
  }

  lemma SplitLastPred(ps: seq<Pred>, lh: seq<Field>, rh: seq<Field>)
    requires ps != []
    ensures var n := |ps| - 1;
            var key := TryEquiKey(ps[n], lh, rh);
            && SplitKeys(ps, lh, rh) == (if key.None? then SplitKeys(ps[..n], lh, rh) else SplitKeys(ps[..n], lh, rh) + [key.value])
            && SplitResiduals(ps, lh, rh) == (if key.None? then SplitResiduals(ps[..n], lh, rh) + [ps[n]] else SplitResiduals(ps[..n], lh, rh))
  {
    hide TryEquiKey;
  }

  lemma NothingToMatch(l: Row, r: Row)
    ensures AllMatch([], l, r)
  {
  }

  lemma PredsOfSnoc(ps: seq<Pred>, p: Pred, row: Row, db: Db)
    ensures EvalPreds(ps + [p], row, [], db) == AndTruth(EvalPreds(ps, row, [], db), EvalPred(p, row, [], db))
  {
    assert (ps + [p])[..|ps|] == ps;
  }

  lemma {:induction false} NoKeysNoSplit(ps: seq<Pred>, lh: seq<Field>, rh: seq<Field>)
    requires SplitKeys(ps, lh, rh) == []
    ensures SplitResiduals(ps, lh, rh) == ps
  {
    if ps != [] {
      NoKeysNoSplit(ps[..|ps| - 1], lh, rh);
    }
  }

  /** Key columns match exactly when the non-NULL keys are the same. */
  lemma MatchIsSameKey(keys: seq<EquiKey>, l: Row, r: Row)
    ensures AllMatch(keys, l, r) <==>
            NonNullKey(LeftColumns(keys), l).Some? && NonNullKey(RightColumns(keys), r) == NonNullKey(LeftColumns(keys), l)
  {
    hide CellOf;
    var a, b := KeyOf(LeftColumns(keys), l, map[]), KeyOf(RightColumns(keys), r, map[]);
    if AllMatch(keys, l, r) {
      forall i | 0 <= i < |keys| ensures a[i] == b[i] && !a[i].Null? {
        assert KeyMatches(keys[i], l, r);
      }
      assert a == b;
    } else {
      var i :| 0 <= i < |keys| && !KeyMatches(keys[i], l, r);
      assert a[i] != b[i] || a[i].Null?;
    }
  }

  // ---------------------------------------------------------------- buckets

  /** The rows, in input order, whose non-NULL key is `key`. */
  function Bucket(cols: seq<ColumnRef>, batch: seq<Row>, sel: seq<int>, key: seq<Cell>): (r: seq<int>)
    requires InRange(sel, |batch|)
    ensures InRange(r, |batch|)
  {
    if sel == [] then []
    else
      var n := |sel| - 1;
      Bucket(cols, batch, sel[..n], key) + if NonNullKey(cols, batch[sel[n]]) == Some(key) then [sel[n]] else []
  }

  ghost predicate IsTable(table: map<seq<Cell>, seq<int>>, cols: seq<ColumnRef>, batch: seq<Row>, sel: seq<int>)
    requires InRange(sel, |batch|)
  {
    forall key :: Bucket(cols, batch, sel, key) == if key in table then table[key] else []
  }

  lemma BucketSnoc(cols: seq<ColumnRef>, batch: seq<Row>, sel: seq<int>, n: int, key: seq<Cell>)
    requires InRange(sel, |batch|) && 0 <= n < |sel|
    ensures Bucket(cols, batch, sel[..n + 1], key) ==
            Bucket(cols, batch, sel[..n], key) + if NonNullKey(cols, batch[sel[n]]) == Some(key) then [sel[n]] else []
  {
    hide NonNullKey;
    assert sel[..n + 1][..n] == sel[..n];
  }

  /** A row joins the bucket of its key, and no bucket when a key column is NULL. */
  lemma TableGrows(table: map<seq<Cell>, seq<int>>, cols: seq<ColumnRef>, batch: seq<Row>, sel: seq<int>, n: int)
    requires InRange(sel, |batch|) && 0 <= n < |sel| && IsTable(table, cols, batch, sel[..n])
    ensures NonNullKey(cols, batch[sel[n]]).None? ==> IsTable(table, cols, batch, sel[..n + 1])
    ensures NonNullKey(cols, batch[sel[n]]).Some? ==>
              var k := NonNullKey(cols, batch[sel[n]]).value;
              IsTable(table[k := (if k in table then table[k] else []) + [sel[n]]], cols, batch, sel[..n + 1])
  {
    var next := NonNullKey(cols, batch[sel[n]]);
    hide NonNullKey, Bucket;
    var grown := match next case None => table case Some(k) => table[k := (if k in table then table[k] else []) + [sel[n]]];
    forall key ensures Bucket(cols, batch, sel[..n + 1], key) == if key in grown then grown[key] else [] {
      BucketSnoc(cols, batch, sel, n, key);
      assert Bucket(cols, batch, sel[..n], key) == if key in table then table[key] else [];
    }
  }

  method BuildTable(cols: seq<ColumnRef>, batch: seq<Row>, sel: seq<int>) returns (table: map<seq<Cell>, seq<int>>)
    requires InRange(sel, |batch|)
    ensures IsTable(table, cols, batch, sel)
  {
    table := map[];
    assert IsTable(table, cols, batch, sel[..0]);
    hide NonNullKey, IsTable;
    var n := 0;
    while n < |sel|
      invariant 0 <= n <= |sel|
      invariant IsTable(table, cols, batch, sel[..n])
    {
      TableGrows(table, cols, batch, sel, n);
      match NonNullKey(cols, batch[sel[n]]) {
        case None =>
        case Some(k) => table := table[k := (if k in table then table[k] else []) + [sel[n]]];
      }
      n := n + 1;
    }
    assert sel[..n] == sel;
  }

  // ---------------------------------------------------------------- one left row

  /** What each left row's scan needs to know: predicates are total, and matching goes through the key. */
  ghost predicate Hashes(f: Row -> Truth, g: Row -> Truth, cols: seq<ColumnRef>, lkey: Option<seq<Cell>>, l: Row, rows: seq<Row>) {
    forall i | 0 <= i < |rows| ::
      && f(Joined(l, rows[i])) != Error && g(Joined(l, rows[i])) != Error
      && (f(Joined(l, rows[i])) == True <==> lkey.Some? && NonNullKey(cols, rows[i]) == lkey && g(Joined(l, rows[i])) == True)
  }

  lemma JoinHashes(ps: seq<Pred>, lh: seq<Field>, rh: seq<Field>, l: Row, rows: seq<Row>, db: Db)
    requires RowFits(lh, l) && (forall i | 0 <= i < |rows| :: RowFits(rh, rows[i])) && TypedPreds(ps, lh, rh)
    ensures var keys := SplitKeys(ps, lh, rh);
            Hashes(PredsFn(ps, [], db), PredsFn(SplitResiduals(ps, lh, rh), [], db), RightColumns(keys), NonNullKey(LeftColumns(keys), l), l, rows)
  {
    hide RowFits, TypedPreds, EvalPreds, NonNullKey, SplitKeys, SplitResiduals, AllMatch;
    var keys := SplitKeys(ps, lh, rh);
    PredsFnAt(ps, [], db);
    PredsFnAt(SplitResiduals(ps, lh, rh), [], db);
    forall i | 0 <= i < |rows|
      ensures EvalPreds(ps, Joined(l, rows[i]), [], db) != Error
      ensures EvalPreds(SplitResiduals(ps, lh, rh), Joined(l, rows[i]), [], db) != Error
      ensures EvalPreds(ps, Joined(l, rows[i]), [], db) == True <==>
              NonNullKey(LeftColumns(keys), l).Some? && NonNullKey(RightColumns(keys), rows[i]) == NonNullKey(LeftColumns(keys), l) &&
              EvalPreds(SplitResiduals(ps, lh, rh), Joined(l, rows[i]), [], db) == True
    {
      TypedPredsTotal(ps, lh, rh, l, rows[i], db);
      SplitIsTrue(ps, lh, rh, l, rows[i], db);
      MatchIsSameKey(keys, l, rows[i]);
    }
  }

  /** The joined rows whose predicate is true. */
  function Hits(f: Row -> Truth, l: Row, rows: seq<Row>): seq<Row> {
    if rows == [] then []
    else Hits(f, l, rows[..|rows| - 1]) + if f(Joined(l, rows[|rows| - 1])) == True then [Joined(l, rows[|rows| - 1])] else []
  }

  ghost predicate TotalOn(f: Row -> Truth, l: Row, rows: seq<Row>) {
    forall i | 0 <= i < |rows| :: f(Joined(l, rows[i])) != Error
  }

  lemma {:induction false} HitsAreMatches(f: Row -> Truth, l: Row, rows: seq<Row>)
    requires TotalOn(f, l, rows)
    ensures FlatMap(rows, Match(f, l)) == Ok(Hits(f, l, rows))
  {
    if rows != [] {
      HitsAreMatches(f, l, rows[..|rows| - 1]);
    }
  }

  /** Scanning a bucket with the residuals finds the matches of a full scan, in the same order. */
  lemma {:induction false} BucketHits(f: Row -> Truth, g: Row -> Truth, cols: seq<ColumnRef>, key: seq<Cell>, l: Row, batch: seq<Row>, sel: seq<int>)
    requires InRange(sel, |batch|) && Hashes(f, g, cols, Some(key), l, Fetch(batch, sel))
    ensures Hits(f, l, Fetch(batch, sel)) == Hits(g, l, Fetch(batch, Bucket(cols, batch, sel, key)))
  {
    if sel == [] {
      assert Fetch(batch, sel) == [];
    } else {
      hide *;
      FullScanStep(f, l, batch, sel);
      BucketScanStep(g, cols, key, l, batch, sel);
      HashesStep(f, g, cols, key, l, batch, sel);
      BucketHits(f, g, cols, key, l, batch, sel[..|sel| - 1]);
    }
  }

  lemma FullScanStep(f: Row -> Truth, l: Row, batch: seq<Row>, sel: seq<int>)
    requires InRange(sel, |batch|) && sel != []
    ensures var n := |sel| - 1;
            var r := Joined(l, batch[sel[n]]);
            InRange(sel[..n], |batch|) &&
            Hits(f, l, Fetch(batch, sel)) == Hits(f, l, Fetch(batch, sel[..n])) + if f(r) == True then [r] else []
  {
    hide Hits, Joined;
    var n := |sel| - 1;
    FetchSnoc(batch, sel[..n], sel[n]);
    assert sel == sel[..n] + [sel[n]];
    HitsSnoc(f, l, Fetch(batch, sel[..n]), batch[sel[n]]);
  }

  lemma BucketScanStep(g: Row -> Truth, cols: seq<ColumnRef>, key: seq<Cell>, l: Row, batch: seq<Row>, sel: seq<int>)
    requires InRange(sel, |batch|) && sel != []
    ensures var n := |sel| - 1;
            var r := Joined(l, batch[sel[n]]);
            Hits(g, l, Fetch(batch, Bucket(cols, batch, sel, key))) ==
            Hits(g, l, Fetch(batch, Bucket(cols, batch, sel[..n], key))) +
            if NonNullKey(cols, batch[sel[n]]) == Some(key) && g(r) == True then [r] else []
  {
    var n := |sel| - 1;
    var b := Bucket(cols, batch, sel[..n], key);
    assert Bucket(cols, batch, sel, key) == b + if NonNullKey(cols, batch[sel[n]]) == Some(key) then [sel[n]] else [];
    hide Hits, Joined, Bucket, NonNullKey;
    if NonNullKey(cols, batch[sel[n]]) == Some(key) {
      FetchSnoc(batch, b, sel[n]);
      HitsSnoc(g, l, Fetch(batch, b), batch[sel[n]]);
    } else {
      assert b + [] == b;
    }
  }

  lemma HashesStep(f: Row -> Truth, g: Row -> Truth, cols: seq<ColumnRef>, key: seq<Cell>, l: Row, batch: seq<Row>, sel: seq<int>)
    requires InRange(sel, |batch|) && sel != [] && Hashes(f, g, cols, Some(key), l, Fetch(batch, sel))
    ensures var n := |sel| - 1;
            var r := batch[sel[n]];
            && InRange(sel[..n], |batch|) && Hashes(f, g, cols, Some(key), l, Fetch(batch, sel[..n]))
            && (f(Joined(l, r)) == True <==> NonNullKey(cols, r) == Some(key) && g(Joined(l, r)) == True)
  {
    hide Hashes, NonNullKey, Joined;
    var n := |sel| - 1;
    FetchSnoc(batch, sel[..n], sel[n]);
    assert sel == sel[..n] + [sel[n]];
    HashesSnoc(f, g, cols, key, l, Fetch(batch, sel[..n]), batch[sel[n]]);
  }

  lemma FetchSnoc(batch: seq<Row>, sel: seq<int>, i: int)
    requires InRange(sel, |batch|) && 0 <= i < |batch|
    ensures Fetch(batch, sel + [i]) == Fetch(batch, sel) + [batch[i]]
  {
  }

  lemma HashesSnoc(f: Row -> Truth, g: Row -> Truth, cols: seq<ColumnRef>, key: seq<Cell>, l: Row, rows: seq<Row>, r: Row)
    requires Hashes(f, g, cols, Some(key), l, rows + [r])
    ensures Hashes(f, g, cols, Some(key), l, rows)
    ensures f(Joined(l, r)) == True <==> NonNullKey(cols, r) == Some(key) && g(Joined(l, r)) == True
  {
    hide NonNullKey, Joined;
    var all := rows + [r];
    assert all[|rows|] == r;
    assert forall i | 0 <= i < |rows| :: rows[i] == all[i];
  }

  lemma HitsSnoc(f: Row -> Truth, l: Row, rows: seq<Row>, r: Row)
    ensures Hits(f, l, rows + [r]) == Hits(f, l, rows) + if f(Joined(l, r)) == True then [Joined(l, r)] else []
  {
    assert (rows + [r])[..|rows|] == rows;
  }

  lemma {:induction false} NoHits(f: Row -> Truth, g: Row -> Truth, cols: seq<ColumnRef>, l: Row, rows: seq<Row>)
    requires Hashes(f, g, cols, None, l, rows)
    ensures Hits(f, l, rows) == []
  {
    if rows != [] {
      assert f(Joined(l, rows[|rows| - 1])) != True;
      NoHits(f, g, cols, l, rows[..|rows| - 1]);
    }
  }

  /** Joins a left row with candidates, keeping those whose predicates are true. */
  method AppendMatches(ps: seq<Pred>, l: Row, batch: seq<Row>, candidates: seq<int>, ghost f: Row -> Truth, db: Db) returns (out: seq<Row>)
    requires InRange(candidates, |batch|) && f == PredsFn(ps, [], db)
    ensures out == Hits(f, l, Fetch(batch, candidates))
  {
    hide EvalPreds;
    PredsFnAt(ps, [], db);
    out := [];
    var i := 0;
    ghost var rows := Fetch(batch, candidates);
    while i < |candidates|
      invariant 0 <= i <= |candidates|
      invariant out == Hits(f, l, rows[..i])
    {
      assert rows[..i + 1][..i] == rows[..i];
      var row := Joined(l, batch[candidates[i]]);
      if EvalPreds(ps, row, [], db) == True {
        out := out + [row];
      }
      i := i + 1;
    }
    assert rows[..i] == rows;
  }

  /** Whether some candidate's predicates are true; stops at the first. */
  method AnyMatch(ps: seq<Pred>, l: Row, batch: seq<Row>, candidates: seq<int>, ghost f: Row -> Truth, db: Db) returns (found: bool)
    requires InRange(candidates, |batch|) && f == PredsFn(ps, [], db)
    ensures found <==> Hits(f, l, Fetch(batch, candidates)) != []
  {
    hide EvalPreds;
    PredsFnAt(ps, [], db);
    var i := 0;
    ghost var rows := Fetch(batch, candidates);
    while i < |candidates|
      invariant 0 <= i <= |candidates|
      invariant Hits(f, l, rows[..i]) == []
    {
      assert rows[..i + 1][..i] == rows[..i];
      if EvalPreds(ps, Joined(l, batch[candidates[i]]), [], db) == True {
        HitsPrefix(f, l, rows, i + 1);
        return true;
      }
      i := i + 1;
    }
    assert rows[..i] == rows;
    found := false;
  }

  lemma {:induction false} HitsPrefix(f: Row -> Truth, l: Row, rows: seq<Row>, n: int)
    requires 0 <= n <= |rows| && Hits(f, l, rows[..n]) != []
    ensures Hits(f, l, rows) != []
  {
    if n == |rows| {
      assert rows[..n] == rows;
    } else {
      assert rows[..|rows| - 1][..n] == rows[..n];
      HitsPrefix(f, l, rows[..|rows| - 1], n);
    }
  }

  lemma {:induction false} HitsSuffix(f: Row -> Truth, l: Row, rows: seq<Row>)
    requires rows != []
    ensures Hits(f, l, rows) == (if f(Joined(l, rows[0])) == True then [Joined(l, rows[0])] else []) + Hits(f, l, rows[1..])
  {
    if |rows| > 1 {
      var n := |rows| - 1;
      HitsSuffix(f, l, rows[..n]);
      assert rows[1..][..n - 1] == rows[..n][1..];
    } else {
      assert rows[..0] == [] && rows[1..] == [];
    }
  }

  /** Probing stops early, but answers whether there is any match. */
  lemma {:induction false} ProbeIsHits(f: Row -> Truth, l: Row, rows: seq<Row>)
    requires TotalOn(f, l, rows)
    ensures Probe(f, l, rows) == TruthOf(Hits(f, l, rows) != [])
  {
    if rows != [] {
      HitsSuffix(f, l, rows);
      forall i | 0 <= i < |rows[1..]| ensures f(Joined(l, rows[1..][i])) != Error {
        assert rows[1..][i] == rows[i + 1];
      }
      ProbeIsHits(f, l, rows[1..]);
    }
  }

  // ---------------------------------------------------------------- inner and left joins

  /** Rows of a left or inner join for one left row with the given matches. */
  function Emitted(emitUnmatchedLeft: bool, l: Row, rh: seq<Field>, matches: seq<Row>): seq<Row> {
    if emitUnmatchedLeft && matches == [] then [Joined(l, NullRow(rh))] else matches
  }

  ghost predicate JoinReady(lv: View, rv: View, ps: seq<Pred>) {
    ValidView(lv) && ValidView(rv) && TypedPreds(ps, lv.header, rv.header)
  }

  /** The right side as the row engine sees it. */
  function RightRel(rv: View): Rel
    requires InRange(rv.selection, |rv.batch|)
  {
    Rel(rv.header, Rows(rv))
  }

  lemma ReadyHashes(lv: View, rv: View, ps: seq<Pred>, n: int, db: Db)
    requires JoinReady(lv, rv, ps) && 0 <= n < |lv.selection|
    ensures var keys := SplitKeys(ps, lv.header, rv.header);
            var l := lv.batch[lv.selection[n]];
            && Hashes(PredsFn(ps, [], db), PredsFn(SplitResiduals(ps, lv.header, rv.header), [], db), RightColumns(keys),
                      NonNullKey(LeftColumns(keys), l), l, Rows(rv))
            && TotalOn(PredsFn(ps, [], db), l, Rows(rv))
  {
    hide RowFits, SplitKeys, SplitResiduals, NonNullKey;
    JoinHashes(ps, lv.header, rv.header, lv.batch[lv.selection[n]], Rows(rv), db);
  }

  /** The row ids a left row is checked against, and the predicates checked: its bucket with the residuals
    when there are hash keys, every right row with the whole list otherwise. */
  method Candidates(lv: View, rv: View, ghost ps: seq<Pred>, keys: seq<EquiKey>, ghost residuals: seq<Pred>,
                    table: map<seq<Cell>, seq<int>>, n: int, ghost db: Db) returns (ids: seq<int>)
    requires JoinReady(lv, rv, ps) && 0 <= n < |lv.selection|
    requires keys == SplitKeys(ps, lv.header, rv.header) && residuals == SplitResiduals(ps, lv.header, rv.header)
    requires keys != [] ==> IsTable(table, RightColumns(keys), rv.batch, rv.selection)
    ensures InRange(ids, |rv.batch|)
    ensures Hits(PredsFn(ps, [], db), lv.batch[lv.selection[n]], Rows(rv)) ==
            Hits(PredsFn(residuals, [], db), lv.batch[lv.selection[n]], Fetch(rv.batch, ids))
  {
    hide WellFormedRel, Unrepeated, TypedPreds, SplitKeys, SplitResiduals, NonNullKey, Hashes, EvalPreds;
    if keys == [] {
      NoKeysNoSplit(ps, lv.header, rv.header);
      return rv.selection;
    }
    ReadyHashes(lv, rv, ps, n, db);
    var l := lv.batch[lv.selection[n]];
    match NonNullKey(LeftColumns(keys), l)
    case None =>
      NoHits(PredsFn(ps, [], db), PredsFn(residuals, [], db), RightColumns(keys), l, Rows(rv));
      ids := [];
      assert Fetch(rv.batch, ids) == [];
    case Some(key) =>
      BucketHits(PredsFn(ps, [], db), PredsFn(residuals, [], db), RightColumns(keys), key, l, rv.batch, rv.selection);
      ids := if key in table then table[key] else [];
  }

  /** INNER and LEFT joins, hashed or nested-loop. */
  method ProducingJoin(emitUnmatchedLeft: bool, lv: View, rv: View, ps: seq<Pred>, db: Db) returns (out: seq<Row>)
    requires JoinReady(lv, rv, ps)
    ensures var kind := if emitUnmatchedLeft then JoinKind.Left else Inner;
            forall m :: FlatMap(Rows(lv), JoinOne(kind, PredsFn(ps, [], db), m, RightRel(rv))) == Ok(out)
  {
    hide WellFormedRel, Unrepeated, TypedPreds, SplitKeys, SplitResiduals, IsTable, Hits, EvalPreds, JoinOne;
    var keys, residuals := SplitJoinPredicates(ps, lv.header, rv.header);
    var table := map[];
    if keys != [] {
      table := BuildTable(RightColumns(keys), rv.batch, rv.selection);
    }
    ghost var kind := if emitUnmatchedLeft then JoinKind.Left else Inner;
    ghost var f := PredsFn(ps, [], db);
    out := [];
    var n := 0;
    while n < |lv.selection|
      invariant 0 <= n <= |lv.selection|
      invariant forall m :: FlatMap(Rows(lv)[..n], JoinOne(kind, f, m, RightRel(rv))) == Ok(out)
    {
      var l := lv.batch[lv.selection[n]];
      var ids := Candidates(lv, rv, ps, keys, residuals, table, n, db);
      var matches := AppendMatches(residuals, l, rv.batch, ids, PredsFn(residuals, [], db), db);
      var rows := Emitted(emitUnmatchedLeft, l, rv.header, matches);
      ReadyTotal(lv, rv, ps, n, db);
      forall m ensures FlatMap(Rows(lv)[..n + 1], JoinOne(kind, f, m, RightRel(rv))) == Ok(out + rows) {
        ProducedOne(emitUnmatchedLeft, f, m, l, rv);
        FlatMapSnoc(Rows(lv), n, JoinOne(kind, f, m, RightRel(rv)));
      }
      out := out + rows;
      n := n + 1;
    }
    assert Rows(lv)[..n] == Rows(lv);
  }

  lemma ReadyTotal(lv: View, rv: View, ps: seq<Pred>, n: int, db: Db)
    requires JoinReady(lv, rv, ps) && 0 <= n < |lv.selection|
    ensures TotalOn(PredsFn(ps, [], db), lv.batch[lv.selection[n]], Rows(rv))
  {
    hide Hashes, JoinReady;
    ReadyHashes(lv, rv, ps, n, db);
  }

  lemma ProducedOne(emitUnmatchedLeft: bool, f: Row -> Truth, m: Row -> Truth, l: Row, rv: View)
    requires InRange(rv.selection, |rv.batch|) && TotalOn(f, l, Rows(rv))
    ensures JoinOne(if emitUnmatchedLeft then JoinKind.Left else Inner, f, m, RightRel(rv))(l) ==
            Ok(Emitted(emitUnmatchedLeft, l, rv.header, Hits(f, l, Rows(rv))))
  {
    hide Hits;
    HitsAreMatches(f, l, Rows(rv));
  }

  // ---------------------------------------------------------------- semi and anti joins

  /** SEMI and ANTI joins, hashed or nested-loop: left rows with or without a match. */
  method ExistenceJoin(emitMatched: bool, lv: View, rv: View, ps: seq<Pred>, db: Db) returns (out: seq<Row>)
    requires JoinReady(lv, rv, ps)
    ensures var kind := if emitMatched then Semi else Anti;
            forall m :: FlatMap(Rows(lv), JoinOne(kind, PredsFn(ps, [], db), m, RightRel(rv))) == Ok(out)
  {
    hide WellFormedRel, Unrepeated, TypedPreds, SplitKeys, SplitResiduals, IsTable, Hits, EvalPreds, JoinOne;
    var keys, residuals := SplitJoinPredicates(ps, lv.header, rv.header);
    var table := map[];
    if keys != [] {
      table := BuildTable(RightColumns(keys), rv.batch, rv.selection);
    }
    ghost var kind := if emitMatched then Semi else Anti;
    ghost var f := PredsFn(ps, [], db);
    out := [];
    var n := 0;
    while n < |lv.selection|
      invariant 0 <= n <= |lv.selection|
      invariant forall m :: FlatMap(Rows(lv)[..n], JoinOne(kind, f, m, RightRel(rv))) == Ok(out)
    {
      var l := lv.batch[lv.selection[n]];
      var ids := Candidates(lv, rv, ps, keys, residuals, table, n, db);
      var matched := AnyMatch(residuals, l, rv.batch, ids, PredsFn(residuals, [], db), db);
      var rows := if matched == emitMatched then [l] else [];
      ReadyTotal(lv, rv, ps, n, db);
      forall m ensures FlatMap(Rows(lv)[..n + 1], JoinOne(kind, f, m, RightRel(rv))) == Ok(out + rows) {
        ExistsOne(emitMatched, f, m, l, rv);
        FlatMapSnoc(Rows(lv), n, JoinOne(kind, f, m, RightRel(rv)));
      }
      out := out + rows;
      n := n + 1;
    }
    assert Rows(lv)[..n] == Rows(lv);
  }

  lemma ExistsOne(emitMatched: bool, f: Row -> Truth, m: Row -> Truth, l: Row, rv: View)
    requires InRange(rv.selection, |rv.batch|) && TotalOn(f, l, Rows(rv))
    ensures JoinOne(if emitMatched then Semi else Anti, f, m, RightRel(rv))(l) ==
            Ok(if (Hits(f, l, Rows(rv)) != []) == emitMatched then [l] else [])
  {
    hide Hits;
    ProbeIsHits(f, l, Rows(rv));
  }
}
