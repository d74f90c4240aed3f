/** The predicate kernels of the vectorized engine: a predicate over the selected rows becomes two byte
  masks, "is true" and "is known", which AND and OR combine in place.
 */
module Masks {
  import opened Plans
  import opened Sequences
  import opened Values
  import opened Algebra
  import opened Semantics
  import opened Shapes
  import opened Aggregation
  import opened WindowEvaluation
  import opened Schemas
  import opened Interpreter

  /** A batch and the rows of it that are still selected, in order. `rowsMatchPositions` lets kernels skip
    the selection vector. */
  datatype View = View(header: seq<Field>, batch: seq<Row>, selection: seq<int>, rowsMatchPositions: bool)

  ghost predicate ValidView(v: View) {
    && WellFormedRel(Rel(v.header, v.batch))
    && InRange(v.selection, |v.batch|) && Unrepeated(v.selection)
    && (v.rowsMatchPositions ==> forall i | 0 <= i < |v.selection| :: v.selection[i] == i)
  }

  /** The rows a view stands for. */
  function Rows(v: View): (r: seq<Row>)
    requires InRange(v.selection, |v.batch|)
    ensures |r| == |v.selection| && forall i | 0 <= i < |r| :: r[i] == v.batch[v.selection[i]]
  {
    Fetch(v.batch, v.selection)
  }

  /** The batch row a kernel reads at a position. */
  function RowAt(v: View, position: int): (row: int)
    requires ValidView(v) && 0 <= position < |v.selection|
    ensures row == v.selection[position] && 0 <= row < |v.batch|
  {
    if v.rowsMatchPositions then position else v.selection[position]
  }

  // ---------------------------------------------------------------- two-bit truth

  /** True is (1, 1), false is (0, 1), unknown is (0, 0). */
  ghost predicate Bits(t: bv8, k: bv8, v: Truth) {
    match v
    case True => t == 1 && k == 1
    case False => t == 0 && k == 1
    case Unknown => t == 0 && k == 0
    case Error => false
  }

  lemma AndBits(lt: bv8, lk: bv8, rt: bv8, rk: bv8, a: Truth, b: Truth)
    requires Bits(lt, lk, a) && Bits(rt, rk, b)
    ensures var t := lt & rt; var f := (lk & (lt ^ 1)) | (rk & (rt ^ 1)); Bits(t, t | f, AndTruth(a, b))
  {
  }

  lemma OrBits(lt: bv8, lk: bv8, rt: bv8, rk: bv8, a: Truth, b: Truth)
    requires Bits(lt, lk, a) && Bits(rt, rk, b)
    ensures var t := lt | rt; var f := (lk & (lt ^ 1)) & (rk & (rt ^ 1)); Bits(t, t | f, OrTruth(a, b))
  {
  }

  class PredicateMask {
    const isTrue: array<bv8>
    const isKnown: array<bv8>

    constructor (n: nat, t: bv8, k: bv8)
      ensures fresh(isTrue) && fresh(isKnown) && isTrue != isKnown
      ensures isTrue.Length == isKnown.Length == n
      ensures forall i | 0 <= i < n :: isTrue[i] == t && isKnown[i] == k
    {
      isTrue := new bv8[n](_ => t);
      isKnown := new bv8[n](_ => k);
    }

    /** The mask is the given truth value at every position. */
    ghost predicate Shows(truths: seq<Truth>)
      reads isTrue, isKnown
    {
      && isTrue != isKnown
      && isTrue.Length == isKnown.Length == |truths|
      && forall i | 0 <= i < |truths| :: Bits(isTrue[i], isKnown[i], truths[i])
    }

    method CombineAnd(right: PredicateMask, ghost a: seq<Truth>, ghost b: seq<Truth>)
      requires Shows(a) && right.Shows(b) && |a| == |b|
      requires {isTrue, isKnown} !! {right.isTrue, right.isKnown}
      modifies isTrue, isKnown
      ensures Shows(Both(a, b, AndTruth))
    {
      var i := 0;
      while i < isTrue.Length
        invariant 0 <= i <= isTrue.Length
        invariant right.Shows(b)
        invariant forall k | 0 <= k < i :: Bits(isTrue[k], isKnown[k], AndTruth(a[k], b[k]))
        invariant forall k | i <= k < isTrue.Length :: Bits(isTrue[k], isKnown[k], a[k])
      {
        var lt, lk, rt, rk := isTrue[i], isKnown[i], right.isTrue[i], right.isKnown[i];
        AndBits(lt, lk, rt, rk, a[i], b[i]);
        var t := lt & rt;
        var f := (lk & (lt ^ 1)) | (rk & (rt ^ 1));
        isTrue[i] := t;
        isKnown[i] := t | f;
        i := i + 1;
      }
    }

    method CombineOr(right: PredicateMask, ghost a: seq<Truth>, ghost b: seq<Truth>)
      requires Shows(a) && right.Shows(b) && |a| == |b|
      requires {isTrue, isKnown} !! {right.isTrue, right.isKnown}
      modifies isTrue, isKnown
      ensures Shows(Both(a, b, OrTruth))
    {
      var i := 0;
      while i < isTrue.Length
        invariant 0 <= i <= isTrue.Length
        invariant right.Shows(b)
        invariant forall k | 0 <= k < i :: Bits(isTrue[k], isKnown[k], OrTruth(a[k], b[k]))
        invariant forall k | i <= k < isTrue.Length :: Bits(isTrue[k], isKnown[k], a[k])
      {
        var lt, lk, rt, rk := isTrue[i], isKnown[i], right.isTrue[i], right.isKnown[i];
        OrBits(lt, lk, rt, rk, a[i], b[i]);
        var t := lt | rt;
        var f := (lk & (lt ^ 1)) & (rk & (rt ^ 1));
        isTrue[i] := t;
        isKnown[i] := t | f;
        i := i + 1;
      }
    }
  }

  function Both(a: seq<Truth>, b: seq<Truth>, op: (Truth, Truth) -> Truth): (r: seq<Truth>)
    requires |a| == |b|
    ensures |r| == |a| && forall i | 0 <= i < |r| :: r[i] == op(a[i], b[i])
  {
    seq(|a|, i requires 0 <= i < |a| => op(a[i], b[i]))
  }

  // ---------------------------------------------------------------- leaf kernels

  /** The row engine's truth of a predicate at every row. */
  ghost function Truths(p: Pred, rows: seq<Row>, db: Db): (r: seq<Truth>)
    ensures |r| == |rows| && forall i | 0 <= i < |r| :: r[i] == EvalPred(p, rows[i], [], db)
  {
    seq(|rows|, i requires 0 <= i < |rows| => EvalPred(p, rows[i], [], db))
  }

  predicate AlwaysNull(e: Scalar) {
    e.NullLit?
  }

  /** A column has a validity vector exactly when it holds a NULL. */
  predicate CanBeNull(e: Scalar, batch: seq<Row>) {
    match e
    case Column(c) => exists i | 0 <= i < |batch| :: ScalarCell(e, batch[i]).Null?
    case _ => e.NullLit?
  }

  function ScalarCell(e: Scalar, row: Row): Cell {
    match e
    case Column(c) => if c.id in row then row[c.id] else Null(c.ty)
    case IntLit(i) => IntV(i)
    case StrLit(s) => StrV(s)
    case NullLit(ty) => Null(ty)
    case ScalarQuery(_, ty) => Null(ty)
  }

  lemma ScalarCellIs(e: Scalar, header: seq<Field>, row: Row, db: Db)
    requires RowFits(header, row) && TypedScalar(e, header, [])
    ensures EvalScalar(e, row, [], db) == Ok(ScalarCell(e, row))
  {
    if e.Column? {
      HasCell(header, row, e.col);
    }
  }

  function Bit(b: bool): bv8 {
    if b then 1 else 0
  }

  lemma ComparisonTruths(l: Scalar, op: CmpOp, r: Scalar, v: View, db: Db)
    requires ValidView(v) && TypedPred(Cmp(l, op, r), v.header, [])
    ensures forall i | 0 <= i < |v.selection| :: Truths(Cmp(l, op, r), Rows(v), db)[i] ==
              ComparisonResult(Ok(ScalarCell(l, v.batch[v.selection[i]])), op, Ok(ScalarCell(r, v.batch[v.selection[i]])))
    ensures !l.ScalarQuery? && !r.ScalarQuery?
  {
    hide RowFits, EvalScalar, ScalarCell;
    forall i | 0 <= i < |v.selection|
      ensures Truths(Cmp(l, op, r), Rows(v), db)[i] ==
              ComparisonResult(Ok(ScalarCell(l, v.batch[v.selection[i]])), op, Ok(ScalarCell(r, v.batch[v.selection[i]])))
    {
      ScalarCellIs(l, v.header, Rows(v)[i], db);
      ScalarCellIs(r, v.header, Rows(v)[i], db);
    }
  }

  /** A comparison, with fast paths for NULL literals, two literals, and columns without NULLs. */
  method ComparisonMask(l: Scalar, op: CmpOp, r: Scalar, v: View, ghost db: Db) returns (m: PredicateMask)
    requires ValidView(v) && TypedPred(Cmp(l, op, r), v.header, [])
    ensures fresh(m) && fresh(m.isTrue) && fresh(m.isKnown) && m.Shows(Truths(Cmp(l, op, r), Rows(v), db))
  {
    hide WellFormedRel, Unrepeated, TypedPred, Compare, EvalPred;
    ghost var truths := Truths(Cmp(l, op, r), Rows(v), db);
    var n := |v.selection|;
    ComparisonTruths(l, op, r, v, db);
    if AlwaysNull(l) || AlwaysNull(r) {
      m := new PredicateMask(n, 0, 0);
      return;
    }
    if !l.Column? && !r.Column? {
      m := new PredicateMask(n, Bit(Compare(ScalarCell(l, map[]), op, ScalarCell(r, map[]))), 1);
      return;
    }
    var nullsPossible := CanBeNull(l, v.batch) || CanBeNull(r, v.batch);
    m := new PredicateMask(n, 0, 0);
    var i := 0;
    while i < n
      invariant 0 <= i <= n
      invariant m.isTrue != m.isKnown && m.isTrue.Length == m.isKnown.Length == n
      invariant forall k | 0 <= k < i :: Bits(m.isTrue[k], m.isKnown[k], truths[k])
    {
      var row := v.batch[RowAt(v, i)];
      var a, b := ScalarCell(l, row), ScalarCell(r, row);
      var known := if nullsPossible then Bit(!a.Null? && !b.Null?) else 1;
      m.isKnown[i] := known;
      m.isTrue[i] := known & Bit(Compare(a, op, b));
      KnownBits(known, a, op, b);
      i := i + 1;
    }
  }

  lemma KnownBits(known: bv8, a: Cell, op: CmpOp, b: Cell)
    requires known == Bit(!a.Null? && !b.Null?)
    ensures Bits(known & Bit(Compare(a, op, b)), known, ComparisonResult(Ok(a), op, Ok(b)))
  {
    assert (1 as bv8) & 1 == 1 && (1 as bv8) & 0 == 0 && (0 as bv8) & 1 == 0 && (0 as bv8) & 0 == 0;
  }

  method NullCheckMask(e: Scalar, isNotNull: bool, v: View, ghost db: Db) returns (m: PredicateMask)
    requires ValidView(v) && TypedScalar(e, v.header, [])
    ensures fresh(m) && fresh(m.isTrue) && fresh(m.isKnown)
    ensures m.Shows(Truths(if isNotNull then IsNotNull(e) else IsNull(e), Rows(v), db))
  {
    ghost var truths := Truths(if isNotNull then IsNotNull(e) else IsNull(e), Rows(v), db);
    var n := |v.selection|;
    forall i | 0 <= i < n ensures truths[i] == TruthOf(ScalarCell(e, Rows(v)[i]).Null? != isNotNull) {
      ScalarCellIs(e, v.header, Rows(v)[i], db);
    }
    if !CanBeNull(e, v.batch) {
      m := new PredicateMask(n, Bit(isNotNull), 1);
      return;
    }
    if AlwaysNull(e) {
      m := new PredicateMask(n, Bit(!isNotNull), 1);
      return;
    }
    m := new PredicateMask(n, 0, 1);
    var i := 0;
    while i < n
      invariant 0 <= i <= n
      invariant m.isTrue != m.isKnown && m.isTrue.Length == m.isKnown.Length == n
      invariant forall k | 0 <= k < i :: Bits(m.isTrue[k], m.isKnown[k], truths[k])
      invariant forall k | 0 <= k < n :: m.isKnown[k] == 1
    {
      var row := v.batch[RowAt(v, i)];
      assert row == Rows(v)[i];
      m.isTrue[i] := Bit(ScalarCell(e, row).Null? != isNotNull);
      m.isKnown[i] := 1;
      i := i + 1;
    }
  }

  // ---------------------------------------------------------------- predicate trees

  method PredicateTreeMask(p: Pred, v: View, ghost db: Db) returns (m: PredicateMask)
    requires ValidView(v) && TypedPred(p, v.header, [])
    ensures fresh(m) && fresh(m.isTrue) && fresh(m.isKnown) && m.Shows(Truths(p, Rows(v), db))
    decreases p
  {
    hide WellFormedRel, Unrepeated;
    match p
    case Cmp(l, op, r) => m := ComparisonMask(l, op, r, v, db);
    case IsNull(e) => m := NullCheckMask(e, false, v, db);
    case IsNotNull(e) => m := NullCheckMask(e, true, v, db);
    case And(l, r) =>
      m := PredicateTreeMask(l, v, db);
      var other := PredicateTreeMask(r, v, db);
      m.CombineAnd(other, Truths(l, Rows(v), db), Truths(r, Rows(v), db));
      assert Both(Truths(l, Rows(v), db), Truths(r, Rows(v), db), AndTruth) == Truths(p, Rows(v), db);
    case Or(l, r) =>
      m := PredicateTreeMask(l, v, db);
      var other := PredicateTreeMask(r, v, db);
      m.CombineOr(other, Truths(l, Rows(v), db), Truths(r, Rows(v), db));
      assert Both(Truths(l, Rows(v), db), Truths(r, Rows(v), db), OrTruth) == Truths(p, Rows(v), db);
  }

  /** The row engine's truth of a conjunct list at every row. */
  ghost function ListTruths(ps: seq<Pred>, rows: seq<Row>, db: Db): (r: seq<Truth>)
    ensures |r| == |rows| && forall i | 0 <= i < |r| :: r[i] == EvalPreds(ps, rows[i], [], db)
  {
    seq(|rows|, i requires 0 <= i < |rows| => EvalPreds(ps, rows[i], [], db))
  }

  method PredicateListMask(ps: seq<Pred>, v: View, ghost db: Db) returns (m: PredicateMask)
    requires ValidView(v) && TypedPreds(ps, v.header, [])
    ensures fresh(m) && fresh(m.isTrue) && fresh(m.isKnown) && m.Shows(ListTruths(ps, Rows(v), db))
  {
    hide WellFormedRel, Unrepeated, EvalPred, TypedPred;
    if ps == [] {
      m := new PredicateMask(|v.selection|, 1, 1);
      return;
    }
    m := PredicateTreeMask(ps[0], v, db);
    assert ListTruths(ps[..1], Rows(v), db) == Truths(ps[0], Rows(v), db) by {
      FirstTruths(ps, Rows(v), db);
    }
    var i := 1;
    while i < |ps|
      invariant 1 <= i <= |ps|
      invariant fresh(m) && fresh(m.isTrue) && fresh(m.isKnown)
      invariant m.Shows(ListTruths(ps[..i], Rows(v), db))
    {
      var next := PredicateTreeMask(ps[i], v, db);
      m.CombineAnd(next, ListTruths(ps[..i], Rows(v), db), Truths(ps[i], Rows(v), db));
      NextTruths(ps, i, Rows(v), db);
      i := i + 1;
    }
    assert ps[..i] == ps;
  }

  lemma FirstTruths(ps: seq<Pred>, rows: seq<Row>, db: Db)
    requires ps != []
    ensures ListTruths(ps[..1], rows, db) == Truths(ps[0], rows, db)
  {
    hide EvalPred;
    forall i | 0 <= i < |rows| ensures EvalPreds(ps[..1], rows[i], [], db) == EvalPred(ps[0], rows[i], [], db) {
      assert ps[..1][..0] == [];
      assert EvalPreds(ps[..1], rows[i], [], db) == AndTruth(EvalPreds(ps[..1][..0], rows[i], [], db), EvalPred(ps[0], rows[i], [], db));
    }
  }

  lemma NextTruths(ps: seq<Pred>, n: int, rows: seq<Row>, db: Db)
    requires 0 <= n < |ps|
    ensures Both(ListTruths(ps[..n], rows, db), Truths(ps[n], rows, db), AndTruth) == ListTruths(ps[..n + 1], rows, db)
  {
    hide EvalPred;
    assert ps[..n + 1][..n] == ps[..n];
  }

  /** Keeps the rows whose truth is true. */
  method SelectionFromTrueMask(m: PredicateMask, v: View, ghost truths: seq<Truth>) returns (out: seq<int>)
    requires ValidView(v) && m.Shows(truths) && |truths| == |v.selection|
    ensures out == Kept(v.selection, truths)
  {
    out := [];
    var i := 0;
    while i < |v.selection|
      invariant 0 <= i <= |v.selection|
      invariant out == Kept(v.selection[..i], truths[..i])
    {
      assert v.selection[..i + 1][..i] == v.selection[..i] && truths[..i + 1][..i] == truths[..i];
      if m.isTrue[i] != 0 {
        out := out + [RowAt(v, i)];
      }
      i := i + 1;
    }
    assert v.selection[..i] == v.selection && truths[..i] == truths;
  }

  function Kept(sel: seq<int>, truths: seq<Truth>): (r: seq<int>)
    requires |truths| == |sel|
    ensures forall x | x in r :: x in sel
  {
    if sel == [] then []
    else
      var n := |sel| - 1;
      assert sel == sel[..n] + [sel[n]];
      Kept(sel[..n], truths[..n]) + if truths[n] == True then [sel[n]] else []
  }

  lemma {:induction false} KeptDistinct(sel: seq<int>, truths: seq<Truth>)
    requires |truths| == |sel| && Unrepeated(sel)
    ensures Unrepeated(Kept(sel, truths))
  {
    if sel != [] {
      var n := |sel| - 1;
      KeptDistinct(sel[..n], truths[..n]);
      var kept := Kept(sel[..n], truths[..n]);
      forall i | 0 <= i < |kept| ensures kept[i] != sel[n] {
        assert kept[i] in kept;
        assert kept[i] in sel[..n];
        var k :| 0 <= k < n && sel[..n][k] == kept[i];
        assert sel[k] != sel[n];
      }
    }
  }

  /** Selecting is filtering. */
  lemma {:induction false} KeptIsFilter<T>(batch: seq<T>, sel: seq<int>, truths: seq<Truth>, f: T -> Truth)
    requires InRange(sel, |batch|) && |truths| == |sel|
    requires forall i | 0 <= i < |sel| :: truths[i] == f(batch[sel[i]]) != Error
    ensures InRange(Kept(sel, truths), |batch|)
    ensures FlatMap(Fetch(batch, sel), KeepTrue(f)) == Ok(Fetch(batch, Kept(sel, truths)))
  {
    if sel != [] {
      var n := |sel| - 1;
      KeptIsFilter(batch, sel[..n], truths[..n], f);
      var xs, x := Fetch(batch, sel), batch[sel[n]];
      assert xs[..n] == Fetch(batch, sel[..n]);
      FlatMapSnoc(xs, n, KeepTrue(f));
      assert xs[..n + 1] == xs;
      var kept := Kept(sel[..n], truths[..n]);
      var last := if truths[n] == True then [x] else [];
      assert KeepTrue(f)(x) == Ok(last);
      assert Fetch(batch, Kept(sel, truths)) == Fetch(batch, kept) + last;
    }
  }

  /** A filter shrinks the selection to exactly the rows the row engine keeps, in order. */
  method ExecuteFilter(ps: seq<Pred>, v: View, ghost db: Db) returns (out: View)
    requires ValidView(v) && TypedPreds(ps, v.header, [])
    ensures ValidView(out) && out.header == v.header
    ensures FilterRel(Rel(v.header, Rows(v)), PredsFn(ps, [], db)) == Ok(Rel(out.header, Rows(out)))
  {
    hide TypedPred, EvalPreds;
    var m := PredicateListMask(ps, v, db);
    ghost var truths := ListTruths(ps, Rows(v), db);
    var kept := SelectionFromTrueMask(m, v, truths);
    KeptDistinct(v.selection, truths);
    KeptIsFilter(v.batch, v.selection, truths, PredsFn(ps, [], db));
    out := View(v.header, v.batch, kept, false);
  }
}
