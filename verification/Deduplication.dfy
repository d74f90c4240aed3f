/** DISTINCT in both engines: a hash set of the rows seen so far. */
module Deduplication {
  import opened Sequences
  import opened Values
  import opened Algebra
  import opened Aggregation
  import opened WindowEvaluation

  lemma CellsIdentifyRows(header: seq<Field>, a: Row, b: Row)
    requires RowFits(header, a) && RowFits(header, b) && CellsOf(header, a) == CellsOf(header, b)
    ensures a == b
  {
    forall id | id in a ensures a[id] == b[id] {
      var i :| 0 <= i < |header| && header[i].id == id;
      assert CellsOf(header, a)[i] == CellsOf(header, b)[i];
    }
  }

  /** Some row has these cells. */
  ghost predicate KeySeen(header: seq<Field>, rows: seq<Row>, key: seq<Cell>) {
    exists i :: 0 <= i < |rows| && CellsOf(header, rows[i]) == key
  }

  lemma KeySeenSnoc(header: seq<Field>, rows: seq<Row>, n: int, key: seq<Cell>)
    requires 0 <= n < |rows|
    ensures KeySeen(header, rows[..n + 1], key) <==> KeySeen(header, rows[..n], key) || CellsOf(header, rows[n]) == key
  {
    hide CellsOf;
    var more := rows[..n + 1];
    assert more[n] == rows[n] && forall i | 0 <= i < n :: more[i] == rows[..n][i];
    if KeySeen(header, rows[..n], key) {
      var i :| 0 <= i < n && CellsOf(header, rows[..n][i]) == key;
      assert CellsOf(header, more[i]) == key;
    }
    if CellsOf(header, rows[n]) == key {
      assert CellsOf(header, more[n]) == key;
    }
  }

  lemma DedupSnoc<T(!new)>(s: seq<T>, n: int)
    requires 0 <= n < |s|
    ensures Dedup(s[..n + 1]) == if s[n] in Dedup(s[..n]) then Dedup(s[..n]) else Dedup(s[..n]) + [s[n]]
  {
    assert s[..n + 1][..n] == s[..n];
  }

  lemma FetchSnoc<T>(batch: seq<T>, out: seq<int>, id: int)
    requires InRange(out, |batch|) && 0 <= id < |batch|
    ensures Fetch(batch, out + [id]) == Fetch(batch, out) + [batch[id]]
  {
  }

  /** Keeps the first of each set of equal rows; rows are compared cell by cell, NULLs being equal. */
  method DistinctSelection(header: seq<Field>, batch: seq<Row>, sel: seq<int>) returns (out: seq<int>)
    requires WellFormedRel(Rel(header, batch)) && InRange(sel, |batch|) && Unrepeated(sel)
    ensures InRange(out, |batch|) && Unrepeated(out)
    ensures Fetch(batch, out) == Dedup(Fetch(batch, sel))
  {
    hide RowFits, DistinctIds, KeySeen, CellsOf, Unrepeated, Dedup;
    var seen: set<seq<Cell>> := {};
    out := [];
    var n := 0;
    ghost var rows := Fetch(batch, sel);
    NothingSeen(header, batch, rows);
    while n < |sel|
      invariant 0 <= n <= |sel|
      invariant InRange(out, |batch|) && Unrepeated(out)
      invariant forall i | 0 <= i < |out| :: out[i] in sel[..n]
      invariant Fetch(batch, out) == Dedup(rows[..n])
      invariant forall k :: k in seen <==> KeySeen(header, rows[..n], k)
    {
      var key := CellsOf(header, batch[sel[n]]);
      DedupSnoc(rows, n);
      NewRowIsNew(header, rows, n);
      forall k ensures KeySeen(header, rows[..n + 1], k) <==> k in seen || k == key {
        KeySeenSnoc(header, rows, n, k);
      }
      assert sel[..n + 1] == sel[..n] + [sel[n]];
      if key !in seen {
        NewSelection(sel, n, out);
        FetchSnoc(batch, out, sel[n]);
        out := out + [sel[n]];
        seen := seen + {key};
      }
      n := n + 1;
    }
    assert rows[..n] == rows;
  }

  lemma NothingSeen(header: seq<Field>, batch: seq<Row>, rows: seq<Row>)
    ensures forall k :: !KeySeen(header, rows[..0], k)
    ensures Dedup(rows[..0]) == [] && Unrepeated<int>([])
  {
  }

  lemma NewRowIsNew(header: seq<Field>, rows: seq<Row>, n: int)
    requires 0 <= n < |rows| && forall i | 0 <= i < |rows| :: RowFits(header, rows[i])
    ensures KeySeen(header, rows[..n], CellsOf(header, rows[n])) <==> rows[n] in Dedup(rows[..n])
  {
    hide RowFits, DistinctIds, CellsOf;
    var before := rows[..n];
    if rows[n] in before {
      var i :| 0 <= i < n && before[i] == rows[n];
      assert CellsOf(header, rows[n]) == CellsOf(header, before[i]);
    }
    if KeySeen(header, before, CellsOf(header, rows[n])) {
      var i :| 0 <= i < n && CellsOf(header, before[i]) == CellsOf(header, rows[n]);
      CellsIdentifyRows(header, rows[n], rows[i]);
      assert before[i] == rows[n];
    }
  }

  lemma NewSelection(sel: seq<int>, n: int, out: seq<int>)
    requires Unrepeated(sel) && 0 <= n < |sel| && Unrepeated(out) && forall i | 0 <= i < |out| :: out[i] in sel[..n]
    ensures Unrepeated(out + [sel[n]])
  {
    forall i | 0 <= i < |out| ensures out[i] != sel[n] {
      assert out[i] in sel[..n];
      var k :| 0 <= k < n && sel[..n][k] == out[i];
      assert sel[k] != sel[n];
    }
  }
}
