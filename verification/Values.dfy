/** Cells, their orders, and the truth values of SQL predicates. */
module Values {
  import opened Plans

  /** A NULL keeps its column type. */
  datatype Cell = Null(nullTy: ColumnType) | IntV(i: int64) | StrV(s: string)
  {
    function Type(): ColumnType {
      match this
      case Null(t) => t
      case IntV(_) => Int64
      case StrV(_) => String
    }
  }

  predicate StrLess(a: string, b: string) {
    b != [] && (a == [] || a[0] < b[0] || (a[0] == b[0] && StrLess(a[1..], b[1..])))
  }

  /** Type first, then NULL before any value, then the value order. */
  predicate CellLess(a: Cell, b: Cell) {
    if a.Type() != b.Type() then a.Type() == Int64
    else if a.Null? || b.Null? then a.Null? && !b.Null?
    else if a.IntV? then a.i < b.i
    else StrLess(a.s, b.s)
  }

  predicate Compare(a: Cell, op: CmpOp, b: Cell) {
    match op
    case Eq => a == b
    case Ne => a != b
    case Lt => CellLess(a, b)
    case Le => CellLess(a, b) || a == b
    case Gt => CellLess(b, a)
    case Ge => CellLess(b, a) || a == b
  }

  lemma {:induction false} StrOrder(a: string, b: string)
    ensures !StrLess(a, a)
    ensures StrLess(a, b) ==> !StrLess(b, a)
    ensures StrLess(a, b) || StrLess(b, a) || a == b
  {
    if a != [] {
      StrOrder(a[1..], a[1..]);
      if b != [] && a[0] == b[0] {
        StrOrder(a[1..], b[1..]);
        assert a == [a[0]] + a[1..] && b == [b[0]] + b[1..];
      }
    }
  }

  lemma {:induction false} StrTransitive(a: string, b: string, c: string)
    requires StrLess(a, b) && StrLess(b, c)
    ensures StrLess(a, c)
  {
    if a != [] && a[0] == b[0] == c[0] {
      StrTransitive(a[1..], b[1..], c[1..]);
    }
  }

  /** `CellLess` is a strict total order. */
  lemma CellOrder(a: Cell, b: Cell)
    ensures !CellLess(a, a)
    ensures CellLess(a, b) ==> !CellLess(b, a)
    ensures CellLess(a, b) || CellLess(b, a) || a == b
  {
    if a.StrV? {
      StrOrder(a.s, a.s);
      if b.StrV? {
        StrOrder(a.s, b.s);
      }
    }
  }

  lemma CellTransitive(a: Cell, b: Cell, c: Cell)
    requires CellLess(a, b) && CellLess(b, c)
    ensures CellLess(a, c)
  {
    if a.StrV? && b.StrV? && c.StrV? {
      StrTransitive(a.s, b.s, c.s);
    }
  }

  // ---------------------------------------------------------------- truth values

  /** The three truth values of section 8.12 of ISO/IEC 9075:1992, and `Error` for a predicate
    whose evaluation is abandoned by an exception. */
  datatype Truth = False | True | Unknown | Error

  function TruthOf(b: bool): Truth {
    if b then True else False
  }

  /** Both operands are always evaluated, so an exception on either side wins. */
  function AndTruth(a: Truth, b: Truth): Truth {
    if a == Error || b == Error then Error
    else if a == False || b == False then False
    else if a == True && b == True then True
    else Unknown
  }

  function OrTruth(a: Truth, b: Truth): Truth {
    if a == Error || b == Error then Error
    else if a == True || b == True then True
    else if a == False && b == False then False
    else Unknown
  }

  function NotTruth(a: Truth): Truth {
    match a
    case True => False
    case False => True
    case Unknown => Unknown
    case Error => Error
  }

  /** Membership of `v` in a bag of cells, as in section 8.4 of ISO/IEC 9075:1992: false in an
    empty bag, unknown for a NULL operand or when only a NULL member could match. */
  function MemberTruth(v: Cell, members: seq<Cell>): Truth {
    if members == [] then False
    else if v.Null? then Unknown
    else if v in members then True
    else if exists i | 0 <= i < |members| :: members[i].Null? then Unknown
    else False
  }
}
