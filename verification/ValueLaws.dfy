/** What the value functions mean: the order of strings, comparisons, the three-valued connectives, membership, scalar
  subqueries and columns of enclosing blocks, each stated without the function that computes it.
 */
module ValueLaws {
  import opened Plans
  import opened Sequences
  import opened Values
  import opened Algebra
  import opened Semantics
  import opened Shapes
  import opened Correlation

  // ---------------------------------------------------------------- orders

  /** The lexicographic order: at the first place where the strings differ, the first one ends or has the smaller
    character. */
  ghost predicate Lexicographic(a: string, b: string) {
    exists k :: 0 <= k <= |a| && k < |b| && a[..k] == b[..k] && (k == |a| || a[k] < b[k])
  }

  lemma {:induction false} StrLessIsLexicographic(a: string, b: string)
    ensures StrLess(a, b) <==> Lexicographic(a, b)
  {
    if a == [] {
      assert b != [] ==> a[..0] == b[..0];
    } else if b != [] {
      if a[0] < b[0] {
        assert a[..0] == b[..0];
      }
      StrLessIsLexicographic(a[1..], b[1..]);
      if a[0] == b[0] && Lexicographic(a[1..], b[1..]) {
        var k :| 0 <= k <= |a| - 1 && k < |b| - 1 && a[1..][..k] == b[1..][..k] && (k == |a| - 1 || a[1..][k] < b[1..][k]);
        assert a[..k + 1] == [a[0]] + a[1..][..k] && b[..k + 1] == [b[0]] + b[1..][..k];
        assert a[..k + 1] == b[..k + 1];
      }
      if Lexicographic(a, b) {
        var k :| 0 <= k <= |a| && k < |b| && a[..k] == b[..k] && (k == |a| || a[k] < b[k]);
        if k > 0 {
          assert a[0] == a[..k][0] == b[..k][0] == b[0];
          assert a[1..][..k - 1] == a[..k][1..] && b[1..][..k - 1] == b[..k][1..];
        }
      }
    }
  }

  /** The order of all cells: integers before strings, NULL before the values of its type, then the value order. */
  lemma CellsInOrder(a: Cell, b: Cell)
    ensures CellLess(a, b) <==>
            || (a.Type() == Int64 && b.Type() == String)
            || (a.Type() == b.Type() && a.Null? && !b.Null?)
            || (a.IntV? && b.IntV? && a.i < b.i)
            || (a.StrV? && b.StrV? && Lexicographic(a.s, b.s))
  {
    if a.StrV? && b.StrV? {
      StrLessIsLexicographic(a.s, b.s);
    }
  }

  /** A column of one type holds cells of that type: a NULL stays NULL, and a value of the other type becomes 0 or the empty
    string. Integers are those of 64 bits. */
  lemma StoredCells(ty: ColumnType, v: Cell)
    ensures Cast(ty, v) == if v.Type() == ty then v else if v.Null? then Null(ty) else if ty == Int64 then IntV(0) else StrV("")
    ensures v.IntV? ==> -9223372036854775808 <= v.i <= 9223372036854775807
    ensures INT64_MIN == -9223372036854775808 && INT64_MAX == 9223372036854775807
  {
  }

  /** Whether a comparison of two values of one type holds, from the arithmetic and the lexicographic order. */
  ghost predicate Holds(a: Cell, op: CmpOp, b: Cell)
    requires !a.Null? && !b.Null? && a.Type() == b.Type()
  {
    match op
    case Eq => a == b
    case Ne => a != b
    case Lt => if a.IntV? then a.i < b.i else Lexicographic(a.s, b.s)
    case Le => if a.IntV? then a.i <= b.i else a.s == b.s || Lexicographic(a.s, b.s)
    case Gt => if a.IntV? then a.i > b.i else Lexicographic(b.s, a.s)
    case Ge => if a.IntV? then a.i >= b.i else a.s == b.s || Lexicographic(b.s, a.s)
  }

  lemma CompareIs(a: Cell, op: CmpOp, b: Cell)
    requires !a.Null? && !b.Null? && a.Type() == b.Type()
    ensures Compare(a, op, b) <==> Holds(a, op, b)
  {
    CellsInOrder(a, b);
    CellsInOrder(b, a);
    hide CellLess, Lexicographic;
  }

  /** A comparison fails with an operand, is unknown for a NULL operand, and otherwise says whether it holds. */
  lemma ComparisonMeans(l: Scalar, op: CmpOp, r: Scalar, row: Row, outer: seq<Row>, db: Db)
    ensures var a, b, t := EvalScalar(l, row, outer, db), EvalScalar(r, row, outer, db), EvalPred(Cmp(l, op, r), row, outer, db);
            && (t == Error <==> a.Fails? || b.Fails?)
            && (t == Unknown <==> a.Ok? && b.Ok? && (a.value.Null? || b.value.Null?))
            && (a.Ok? && b.Ok? && !a.value.Null? && !b.value.Null? && a.value.Type() == b.value.Type() ==>
                  (t == True <==> Holds(a.value, op, b.value)))
  {
    var a, b := EvalScalar(l, row, outer, db), EvalScalar(r, row, outer, db);
    assert EvalPred(Cmp(l, op, r), row, outer, db) == ComparisonResult(a, op, b);
    hide EvalScalar, EvalPred, Compare, Holds;
    if a.Ok? && b.Ok? && !a.value.Null? && !b.value.Null? && a.value.Type() == b.value.Type() {
      CompareIs(a.value, op, b.value);
    }
  }

  /** IS NULL and IS NOT NULL are never unknown. */
  lemma NullTestsMean(e: Scalar, row: Row, outer: seq<Row>, db: Db)
    ensures var v := EvalScalar(e, row, outer, db);
            && EvalPred(IsNull(e), row, outer, db) == (if v.Fails? then Error else if v.value.Null? then True else False)
            && EvalPred(IsNotNull(e), row, outer, db) == (if v.Fails? then Error else if v.value.Null? then False else True)
  {
  }

  // ---------------------------------------------------------------- connectives

  /** False, unknown and true in that order. */
  function Degree(t: Truth): int
    requires t != Error
  {
    match t case False => 0 case Unknown => 1 case True => 2
  }

  function Least(a: int, b: int): int { if a < b then a else b }

  function Greatest(a: int, b: int): int { if a < b then b else a }

  /** AND is the least and OR the greatest of the two truth values; an exception on either side wins. */
  lemma ConnectivesMean(l: Pred, r: Pred, row: Row, outer: seq<Row>, db: Db)
    ensures var a, b := EvalPred(l, row, outer, db), EvalPred(r, row, outer, db);
            var both, either := EvalPred(And(l, r), row, outer, db), EvalPred(Or(l, r), row, outer, db);
            && (both == Error <==> a == Error || b == Error) && (either == Error <==> a == Error || b == Error)
            && (a != Error && b != Error ==>
                  Degree(both) == Least(Degree(a), Degree(b)) && Degree(either) == Greatest(Degree(a), Degree(b)))
  {
    var a, b := EvalPred(l, row, outer, db), EvalPred(r, row, outer, db);
    assert EvalPred(And(l, r), row, outer, db) == AndTruth(a, b) && EvalPred(Or(l, r), row, outer, db) == OrTruth(a, b);
    hide EvalPred;
    TruthTables(a, b);
  }

  lemma TruthTables(a: Truth, b: Truth)
    ensures AndTruth(a, b) == Error <==> a == Error || b == Error
    ensures OrTruth(a, b) == Error <==> a == Error || b == Error
    ensures a != Error && b != Error ==> Degree(AndTruth(a, b)) == Least(Degree(a), Degree(b))
    ensures a != Error && b != Error ==> Degree(OrTruth(a, b)) == Greatest(Degree(a), Degree(b))
  {
  }

  /** The disjunction of equalities with every member, in order. */
  function AnyEqual(v: Cell, members: seq<Cell>): Truth {
    if members == [] then False
    else OrTruth(AnyEqual(v, members[..|members| - 1]), ComparisonResult(Ok(v), Eq, Ok(members[|members| - 1])))
  }

  ghost predicate SomeNull(cells: seq<Cell>) {
    exists i | 0 <= i < |cells| :: cells[i].Null?
  }

  lemma SomeNullSnoc(cells: seq<Cell>, m: Cell)
    ensures SomeNull(cells + [m]) <==> SomeNull(cells) || m.Null?
  {
    var all := cells + [m];
    assert all[|cells|] == m;
    if SomeNull(cells) {
      var i :| 0 <= i < |cells| && cells[i].Null?;
      assert all[i].Null?;
    }
  }

  lemma MembershipByParts(v: Cell, members: seq<Cell>)
    ensures MemberTruth(v, members) ==
            if members == [] then False else if v.Null? then Unknown else if v in members then True
            else if SomeNull(members) then Unknown else False
  {
  }

  lemma MemberSnoc(v: Cell, init: seq<Cell>, m: Cell)
    ensures MemberTruth(v, init + [m]) == OrTruth(MemberTruth(v, init), ComparisonResult(Ok(v), Eq, Ok(m)))
  {
    MembershipByParts(v, init + [m]);
    MembershipByParts(v, init);
    SomeNullSnoc(init, m);
    assert v in init + [m] <==> v in init || v == m;
  }

  /** Membership is the disjunction of the equalities. */
  lemma {:induction false} MemberIsAnyEqual(v: Cell, members: seq<Cell>)
    ensures MemberTruth(v, members) == AnyEqual(v, members)
  {
    hide MemberTruth, OrTruth, ComparisonResult;
    MembershipByParts(v, members);
    if members != [] {
      var n := |members| - 1;
      MemberIsAnyEqual(v, members[..n]);
      MemberSnoc(v, members[..n], members[n]);
      assert members == members[..n] + [members[n]];
    }
  }

  /** The cells of a one-column result. */
  function OnlyCells(rel: Rel): (r: seq<Cell>)
    requires |rel.header| == 1
    ensures |r| == |rel.rows|
  {
    seq(|rel.rows|, i requires 0 <= i < |rel.rows| => if rel.header[0].id in rel.rows[i] then rel.rows[i][rel.header[0].id] else Null(rel.header[0].ty))
  }

  /** IN over a one-column subquery is the disjunction of the equalities with its cells, and NOT IN its negation. Over no rows IN
    is false, whatever the columns; otherwise there must be one. */
  lemma InMeans(e: Scalar, sub: Subplan, row: Row, outer: seq<Row>, db: Db)
    requires EvalScalar(e, row, outer, db).Ok? && EvalSub(sub, row, outer, db).Ok? && WellFormedRel(EvalSub(sub, row, outer, db).value)
    ensures var v, s := EvalScalar(e, row, outer, db).value, EvalSub(sub, row, outer, db).value;
            var isIn, notIn := EvalPred(In(e, sub), row, outer, db), EvalPred(NotIn(e, sub), row, outer, db);
            && (isIn == Error <==> s.rows != [] && |s.header| != 1) && (notIn == Error <==> isIn == Error)
            && (s.rows == [] ==> isIn == False)
            && (|s.header| == 1 ==> isIn == AnyEqual(v, OnlyCells(s)))
            && (isIn != Error ==> Degree(notIn) == 2 - Degree(isIn))
  {
    var v, s := EvalScalar(e, row, outer, db).value, EvalSub(sub, row, outer, db).value;
    assert EvalPred(In(e, sub), row, outer, db) == MemberResult(v, s);
    assert EvalPred(NotIn(e, sub), row, outer, db) == NotTruth(MemberResult(v, s));
    hide EvalPred, EvalScalar, EvalSub;
    if |s.header| == 1 {
      MemberCells(s);
      MemberIsAnyEqual(v, OnlyCells(s));
    }
    NeverError(v, s);
  }

  lemma MemberCells(s: Rel)
    requires |s.header| == 1 && WellFormedRel(s)
    ensures forall v :: MemberResult(v, s) == MemberTruth(v, OnlyCells(s))
  {
    var cells := seq(|s.rows|, i requires 0 <= i < |s.rows| => CellsOf(s.header, s.rows[i])[0]);
    forall i | 0 <= i < |s.rows| ensures cells[i] == OnlyCells(s)[i] {
      assert RowFits(s.header, s.rows[i]);
    }
    assert cells == OnlyCells(s);
  }

  lemma NeverError(v: Cell, s: Rel)
    ensures MemberResult(v, s) == Error <==> s.rows != [] && |s.header| != 1
  {
  }

  // ---------------------------------------------------------------- subqueries and columns

  /** A scalar subquery is its only cell; without rows it is NULL, and with two rows it fails. */
  lemma ScalarQueryMeans(sub: Subplan, ty: ColumnType, row: Row, outer: seq<Row>, db: Db)
    requires EvalSub(sub, row, outer, db).Ok? && WellFormedRel(EvalSub(sub, row, outer, db).value)
    requires var h := EvalSub(sub, row, outer, db).value.header; |h| == 1 && h[0].ty == ty
    ensures var rel, v := EvalSub(sub, row, outer, db).value, EvalScalar(ScalarQuery(sub, ty), row, outer, db);
            && (v.Fails? <==> |rel.rows| > 1)
            && (rel.rows == [] ==> v == Ok(Null(ty)))
            && (|rel.rows| == 1 ==> v == Ok(OnlyCells(rel)[0]))
  {
    var rel := EvalSub(sub, row, outer, db).value;
    if rel.rows != [] {
      assert RowFits(rel.header, rel.rows[0]);
    }
  }

  /** Inside a correlated subquery a column of depth 1 reads the owner row, and a deeper one what the owner's block
    reads one level nearer. */
  lemma OuterColumnMeans(c: ColumnRef, row: Row, owner: Row, outer: seq<Row>, db: Db)
    requires c.depth > 0
    ensures var v := EvalScalar(Column(c), row, outer + [owner], db);
            && (c.depth == 1 ==> v == if c.id in owner then Ok(owner[c.id]) else Fails)
            && (c.depth > 1 ==> v == EvalScalar(Column(c.(depth := c.depth - 1)), owner, outer, db))
  {
  }

  /** Keys, arguments and expressions read a column the same way, and it resolves exactly when reading it succeeds. */
  lemma ColumnReads(c: ColumnRef, header: seq<Field>, row: Row, refs: seq<ColumnRef>, outer: seq<Row>, db: Db)
    requires RowFits(header, row) && c in refs
    ensures Resolves(c, Names(header), OuterEnv(refs, outer)) <==> EvalScalar(Column(c), row, outer, db).Ok?
    ensures Resolves(c, Names(header), OuterEnv(refs, outer)) ==>
              EvalScalar(Column(c), row, outer, db) == Ok(CellOf(c, row, OuterEnv(refs, outer)))
  {
  }
}
