/** Filters and INNER joins as sequences of pairs: checking the parts of a conjunct list where each belongs keeps the rows
  of checking the whole list above the join.
 */
module JoinPushdown {
  import opened Plans
  import opened Sequences
  import opened Values
  import opened Algebra
  import opened Semantics
  import opened Shapes
  import opened Correlation
  import opened FilterRuleSoundness
  import opened JoinAlgebra
  import opened JoinRules

  lemma FitsNames(rel: Rel)
    requires WellFormedRel(rel)
    ensures forall i | 0 <= i < |rel.rows| :: rel.rows[i].Keys == Names(rel.header)
  {
    forall i | 0 <= i < |rel.rows| ensures rel.rows[i].Keys == Names(rel.header) {
      assert RowFits(rel.header, rel.rows[i]);
    }
  }

  // ---------------------------------------------------------------- INNER

  lemma KeptReads(rows: seq<Row>, keep: Row -> bool, ls: seq<Row>, g: Row -> bool)
    requires forall i, j | 0 <= i < |ls| && 0 <= j < |rows| :: g(Joined(ls[i], rows[j])) == g(ls[i])
    ensures forall i, j | 0 <= i < |ls| && 0 <= j < |Keep(rows, keep)| :: g(Joined(ls[i], Keep(rows, keep)[j])) == g(ls[i])
  {
    hide Joined;
    KeptFrom(rows, keep);
    forall i, j | 0 <= i < |ls| && 0 <= j < |Keep(rows, keep)| ensures g(Joined(ls[i], Keep(rows, keep)[j])) == g(ls[i]) {
      var k :| 0 <= k < |rows| && rows[k] == Keep(rows, keep)[j];
      assert g(Joined(ls[i], rows[k])) == g(ls[i]);
    }
  }

  /** The four parts of a conjunct list, checked where each belongs, keep the rows of the whole list. */
  lemma PushedPairs(ls: seq<Row>, rs: seq<Row>, on: Row -> bool, whole: Row -> bool,
                    bl: Row -> bool, br: Row -> bool, onj: Row -> bool, res: Row -> bool)
    requires forall i, j | 0 <= i < |ls| && 0 <= j < |rs| :: bl(Joined(ls[i], rs[j])) == bl(ls[i])
    requires forall i, j | 0 <= i < |ls| && 0 <= j < |rs| :: br(Joined(ls[i], rs[j])) == br(rs[j])
    requires forall row :: (on(row) && whole(row)) == (onj(row) && res(row) && bl(row) && br(row))
    ensures Keep(InnerRows(ls, rs, on), whole) == Keep(InnerRows(Keep(ls, bl), Keep(rs, br), onj), res)
  {
    hide Joined;
    KeepInner(ls, rs, on, whole);
    KeepInner(Keep(ls, bl), Keep(rs, br), onj, res);
    var c := Conj(onj, res);
    KeptReads(rs, br, ls, bl);
    PushLeft(ls, Keep(rs, br), c, bl);
    PushRight(ls, rs, Conj(c, bl), br);
    InnerAgree(ls, rs, Conj(on, whole), Conj(Conj(c, bl), br));
  }

  // ---------------------------------------------------------------- SEMI, ANTI and NULL-aware ANTI

  lemma HasMember(s: seq<Pred>)
    ensures s != [] ==> s[0] in s
  {
  }

  lemma ExistenceKeepsTruths(kind: JoinKind, ps: seq<Pred>, lt: set<string>, rt: set<string>)
    requires !EmitsRight(kind)
    ensures Placed(kind, ps, AtRight, lt, rt) == [] && Placed(kind, ps, AtJoin, lt, rt) == []
  {
    var pr, pj := Placed(kind, ps, AtRight, lt, rt), Placed(kind, ps, AtJoin, lt, rt);
    HasMember(pr);
    HasMember(pj);
  }

  lemma {:induction false} KeepKeep(xs: seq<Row>, b: Row -> bool, c: Row -> bool)
    ensures Keep(Keep(xs, b), c) == Keep(xs, Conj(b, c))
  {
    if xs != [] {
      var n := |xs| - 1;
      KeepKeep(xs[..n], b, c);
      KeepAppend(Keep(xs[..n], b), if b(xs[n]) then [xs[n]] else [], c);
      assert [xs[n]][..0] == [];
    }
  }
}
