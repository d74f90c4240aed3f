/** The window kernel both engines run: hash partitions, a stable sort of each partition, running ranks,
  and running aggregate states over ROWS and RANGE frames.
 */
module WindowKernels {
  import opened Plans
  import opened Sequences
  import opened Values
  import opened Algebra
  import opened Windows
  import opened Sorting
  import opened Aggregation
  import opened RowOrder
  import opened SortedPartitions

  // ---------------------------------------------------------------- RANGE peers

  ghost predicate AscendingInts(asc: seq<Cell>) {
    forall i, j | 0 <= i < j < |asc| :: IntOf(asc[i]) <= IntOf(asc[j])
  }

  lemma {:induction false} PrefixAboveNegatives(asc: seq<Cell>, n: int)
    requires 0 <= n <= |asc|
    ensures NegTotal(asc) <= Total(asc[..n])
    ensures NegTotal(asc) <= NegTotal(asc[..n]) && NegTotal(asc) <= 0
  {
    if asc != [] {
      var m := |asc| - 1;
      if n == |asc| {
        assert asc[..n] == asc;
        assert asc[..m][..m] == asc[..m];
        PrefixAboveNegatives(asc[..m], m);
      } else {
        assert asc[..m][..n] == asc[..n];
        PrefixAboveNegatives(asc[..m], n);
      }
    }
  }

  /** An ascending run first falls to the sum of its negatives. */
  lemma {:induction false} NegativesFirst(asc: seq<Cell>) returns (n: int)
    requires AscendingInts(asc)
    ensures 0 <= n <= |asc| && Total(asc[..n]) == NegTotal(asc)
  {
    if asc == [] {
      n := 0;
    } else {
      var m := |asc| - 1;
      if IntOf(asc[m]) < 0 {
        n := |asc|;
        assert asc[..n] == asc;
        AllNegative(asc);
      } else {
        n := NegativesFirst(asc[..m]);
        assert asc[..m][..n] == asc[..n];
      }
    }
  }

  lemma {:induction false} AllNegative(asc: seq<Cell>)
    requires AscendingInts(asc) && asc != [] && IntOf(asc[|asc| - 1]) < 0
    ensures Total(asc) == NegTotal(asc)
  {
    var m := |asc| - 1;
    if m > 0 {
      AllNegative(asc[..m]);
    } else {
      assert asc[..0] == [];
    }
  }

  lemma {:induction false} PrefixesShrink(asc: seq<Cell>, n: int)
    requires AscendingInts(asc) && 0 < n <= |asc| && IntOf(asc[n - 1]) <= 0
    ensures Total(asc[..n]) <= 0
  {
    assert asc[..n][..n - 1] == asc[..n - 1];
    if n > 1 {
      PrefixesShrink(asc, n - 1);
    } else {
      assert asc[..0] == [];
    }
  }

  lemma {:induction false} SuffixesGrow(asc: seq<Cell>, n: int)
    requires AscendingInts(asc) && 0 < n <= |asc| && IntOf(asc[n - 1]) > 0
    ensures Total(asc[..n]) <= Total(asc)
  {
    if n == |asc| {
      assert asc[..n] == asc;
    } else {
      var m := |asc| - 1;
      assert asc[..m][..n] == asc[..n];
      SuffixesGrow(asc[..m], n);
    }
  }

  /** The sum after the first `n` additions is in range. */
  ghost predicate StepFits(s: int, asc: seq<Cell>, n: int)
    requires 0 <= n <= |asc|
  {
    Fits(s + Total(asc[..n]))
  }

  lemma StepBounds(asc: seq<Cell>, n: int)
    requires AscendingInts(asc) && 0 <= n <= |asc|
    ensures NegTotal(asc) <= Total(asc[..n])
    ensures Total(asc[..n]) <= 0 || Total(asc[..n]) <= Total(asc)
  {
    PrefixAboveNegatives(asc, n);
    if n == 0 {
      assert asc[..0] == [];
    } else if IntOf(asc[n - 1]) <= 0 {
      PrefixesShrink(asc, n);
    } else {
      SuffixesGrow(asc, n);
    }
  }

  /** Adding a peer set in ascending order stays in range at every step exactly when neither the sum after
    the negatives nor the final sum leaves it. */
  lemma AscendingSumIsExact(s: int, asc: seq<Cell>)
    requires Fits(s) && AscendingInts(asc)
    ensures (forall n | 0 <= n <= |asc| :: StepFits(s, asc, n)) <==>
            s + NegTotal(asc) >= INT64_MIN && s + Total(asc) <= INT64_MAX
  {
    hide Total, NegTotal, AscendingInts;
    var k := NegativesFirst(asc);
    assert asc[..|asc|] == asc;
    StepBounds(asc, |asc|);
    if s + NegTotal(asc) >= INT64_MIN && s + Total(asc) <= INT64_MAX {
      forall n | 0 <= n <= |asc| ensures StepFits(s, asc, n) {
        StepBounds(asc, n);
      }
    } else {
      assert !StepFits(s, asc, k) || !StepFits(s, asc, |asc|);
    }
  }

  /** The running state before a peer set: a SUM only remembers that it is in range. */
  ghost predicate RangeState(fn: AggFn, s: AggState, cells: seq<Cell>) {
    if fn == Sum then
      s.hasValue == (NonNull(cells) != []) && s.sum == Total(NonNull(cells)) && Fits(s.sum)
    else Accumulates(fn, s, cells)
  }

  function SmallerInt(): (Cell, Cell) -> bool {
    (a, b) => IntOf(a) < IntOf(b)
  }

  lemma SortedAscending(args: seq<Cell>)
    ensures AscendingInts(StableSort(SmallerInt(), args))
    ensures multiset(StableSort(SmallerInt(), args)) == multiset(args)
  {
    var prec := (a: Cell, b: Cell) => IntOf(a) <= IntOf(b);
    SortOrdered(SmallerInt(), prec, args);
    SortBag(SmallerInt(), args);
    var asc := StableSort(SmallerInt(), args);
    forall i, j | 0 <= i < j < |asc| ensures IntOf(asc[i]) <= IntOf(asc[j]) {
      assert prec(asc[i], asc[j]);
    }
  }

  /** The sorted arguments of a peer set, and what adding all of them amounts to. */
  lemma SortedArguments(s: AggState, before: seq<Cell>, peers: seq<Cell>, ty: ColumnType)
    requires RangeState(Sum, s, before)
    ensures var asc := StableSort(SmallerInt(), NonNull(peers));
            && (forall i | 0 <= i < |asc| :: !asc[i].Null?)
            && (RangeOutcome(Sum, ty, before, peers).Ok? <==> forall n | 0 <= n <= |asc| :: StepFits(s.sum, asc, n))
            && NonNull(before + peers) == NonNull(before) + NonNull(peers) && |asc| == |NonNull(peers)|
            && Total(NonNull(before + peers)) == s.sum + Total(asc)
  {
    hide StableSort, NonNull, Total, NegTotal, AscendingInts;
    var args := NonNull(peers);
    var asc := StableSort(SmallerInt(), args);
    SortedAscending(args);
    TotalSameBag(asc, args);
    AscendingSumIsExact(s.sum, asc);
    NonNullAppend(before, peers);
    TotalAppend(NonNull(before), args);
    NonNullOfNonNull(peers);
    assert |multiset(asc)| == |asc| && |multiset(args)| == |args|;
    forall i | 0 <= i < |asc| ensures !asc[i].Null? {
      assert asc[i] in multiset(args);
    }
    if asc == [] {
      NoTotal();
    } else {
      StepBounds(asc, |asc|);
      assert asc[..|asc|] == asc;
    }
  }

  lemma NoTotal()
    ensures Total([]) == 0 && NegTotal([]) == 0
  {
  }

  lemma TotalStep(asc: seq<Cell>, i: int)
    requires 0 <= i < |asc|
    ensures Total(asc[..i + 1]) == Total(asc[..i]) + IntOf(asc[i])
  {
    assert asc[..i + 1][..i] == asc[..i];
  }

  /** Adds the peer set's non-NULL arguments in ascending order. The outcome is exactly `RangeOutcome`:
    it does not depend on how ties were ordered. */
  method AddAscending(s: AggState, ghost before: seq<Cell>, peers: seq<Cell>, ghost ty: ColumnType) returns (r: Outcome<AggState>)
    requires RangeState(Sum, s, before)
    ensures r.Ok? ==> RangeState(Sum, r.value, before + peers)
    ensures r.Fails? <==> RangeOutcome(Sum, ty, before, peers).Fails?
  {
    hide StableSort, NonNull, Total, RangeOutcome;
    var asc := StableSort(SmallerInt(), NonNull(peers));
    SortedArguments(s, before, peers, ty);
    NoTotal();
    var state := s;
    var i := 0;
    assert asc[..0] == [];
    while i < |asc|
      invariant 0 <= i <= |asc|
      invariant state.sum == s.sum + Total(asc[..i]) && Fits(state.sum)
      invariant state.hasValue == (s.hasValue || i > 0)
      invariant !s.hasValue ==> s.sum == 0
      invariant forall n | 0 <= n <= i :: StepFits(s.sum, asc, n)
    {
      TotalStep(asc, i);
      match Update(Sum, state, asc[i])
      case Fails =>
        assert !StepFits(s.sum, asc, i + 1);
        return Fails;
      case Ok(t) => state := t;
      i := i + 1;
    }
    assert asc[..i] == asc;
    r := Ok(state);
  }

  lemma {:induction false} NonNullOfNonNull(cells: seq<Cell>)
    ensures forall c | c in multiset(NonNull(cells)) :: !c.Null?
  {
    if cells != [] {
      NonNullOfNonNull(cells[..|cells| - 1]);
    }
  }

  lemma RangeFinal(fn: AggFn, ty: ColumnType, s: AggState, before: seq<Cell>, peers: seq<Cell>)
    requires RangeState(fn, s, before + peers) && RangeOutcome(fn, ty, before, peers).Ok?
    ensures RangeOutcome(fn, ty, before, peers) == Ok(Finalize(fn, ty, s))
  {
    if fn == Sum {
      NonNullAppend(before, peers);
      TotalAppend(NonNull(before), NonNull(peers));
    } else {
      FinalizeIsOutcome(fn, ty, s, before + peers);
    }
  }

  /** Folds a list of arguments into a state, in order. */
  method FoldArgs(fn: AggFn, ghost ty: ColumnType, s: AggState, ghost before: seq<Cell>, args: seq<Cell>) returns (r: Outcome<AggState>)
    requires Accumulates(fn, s, before)
    ensures r.Ok? ==> Accumulates(fn, r.value, before + args)
    ensures r.Fails? ==> AggOutcome(fn, ty, before + args).Fails?
  {
    hide Accumulates, AggOutcome, Update;
    var state := s;
    var i := 0;
    assert before + args[..0] == before;
    while i < |args|
      invariant 0 <= i <= |args|
      invariant Accumulates(fn, state, before + args[..i])
    {
      UpdateAccumulates(fn, ty, state, before + args[..i], args[i]);
      assert before + args[..i] + [args[i]] == before + args[..i + 1];
      match Update(fn, state, args[i])
      case Fails =>
        FailureSticks(fn, ty, before + args[..i + 1], args[i + 1..]);
        assert before + args[..i + 1] + args[i + 1..] == before + args;
        return Fails;
      case Ok(t) => state := t;
      i := i + 1;
    }
    assert args[..i] == args;
    r := Ok(state);
  }

  /** One peer set of a RANGE frame. */
  method UpdateRangePeer(fn: AggFn, ghost ty: ColumnType, s: AggState, ghost before: seq<Cell>, peers: seq<Cell>) returns (r: Outcome<AggState>)
    requires RangeState(fn, s, before)
    ensures r.Ok? ==> RangeState(fn, r.value, before + peers)
    ensures r.Fails? <==> RangeOutcome(fn, ty, before, peers).Fails?
  {
    if fn == Sum {
      r := AddAscending(s, before, peers, ty);
    } else {
      r := FoldArgs(fn, ty, s, before, peers);
      if r.Ok? {
        FinalizeIsOutcome(fn, ty, r.value, before + peers);
      }
    }
  }

  // ---------------------------------------------------------------- one partition

  /** `ids` are the batch rows at the listed positions of the selection. */
  ghost predicate Linked(batch: seq<Row>, rows: seq<Row>, ids: seq<int>, ops: seq<int>) {
    |ids| == |ops| && Positions(ops, |rows|) && forall k | 0 <= k < |ids| :: 0 <= ids[k] < |batch| && batch[ids[k]] == rows[ops[k]]
  }

  /** `cells[k]` is the value of the row at `ops[k]`. */
  ghost predicate Gives(w: WinExpr, rows: seq<Row>, env: Env, ops: seq<int>, cells: seq<Cell>) {
    |cells| <= |ops| && Positions(ops, |rows|) && forall k | 0 <= k < |cells| :: WindowAt(w, rows, ops[k], env) == Ok(cells[k])
  }

  ghost predicate SomeRowFails(w: WinExpr, rows: seq<Row>, env: Env) {
    exists i :: 0 <= i < |rows| && WindowAt(w, rows, i, env).Fails?
  }

  lemma {:induction false} PeerEnd(w: WinExpr, rows: seq<Row>, env: Env, key: seq<Cell>, ops: seq<int>, b: int, k: int) returns (e: int)
    requires KeysTyped(w.order, env, rows) && SortedPartition(w, rows, env, key, ops)
    requires Cut(w.order, env, rows, ops, b) && b <= k < |ops|
    requires forall q | b <= q <= k :: SameRows(w.order, env, rows, ops[b], ops[q])
    ensures PeerRange(w.order, env, rows, ops, b, e) && k < e <= |ops|
    decreases |ops| - k
  {
    hide KeysTyped, LessRows, SameRows, KeyOf, Unrepeated;
    if k + 1 < |ops| && SameRows(w.order, env, rows, ops[k], ops[k + 1]) {
      OrderFacts(w.order, env, rows, ops[b], ops[k], ops[k + 1]);
      e := PeerEnd(w, rows, env, key, ops, b, k + 1);
    } else {
      NextCut(w, rows, env, key, ops, b, k + 1);
      e := k + 1;
    }
  }

  lemma KeySetGrows(w: WinExpr, rows: seq<Row>, env: Env, ops: seq<int>, b: int, e: int, key: seq<Cell>)
    requires Positions(ops, |rows|) && 0 <= b < e <= |ops|
    requires forall q | b <= q < e :: KeyOf(OrderColumns(w.order), rows[ops[q]], env) == key
    requires forall q | 0 <= q < b :: KeyOf(OrderColumns(w.order), rows[ops[q]], env) != key
    ensures key !in KeySet(w, Fetch(rows, ops[..b]), env)
    ensures KeySet(w, Fetch(rows, ops[..e]), env) == KeySet(w, Fetch(rows, ops[..b]), env) + {key}
  {
    hide KeyOf;
    var small, large := Fetch(rows, ops[..b]), Fetch(rows, ops[..e]);
    assert forall q | 0 <= q < b :: small[q] == large[q] == rows[ops[q]];
    assert forall q | b <= q < e :: large[q] == rows[ops[q]];
    assert KeyOf(OrderColumns(w.order), large[b], env) == key;
    forall k | k in KeySet(w, small, env) ensures k in KeySet(w, large, env) {
      var i :| 0 <= i < |small| && k == KeyOf(OrderColumns(w.order), small[i], env);
      assert k == KeyOf(OrderColumns(w.order), large[i], env);
    }
    forall k | k in KeySet(w, large, env) ensures k in KeySet(w, small, env) + {key} {
      var i :| 0 <= i < |large| && k == KeyOf(OrderColumns(w.order), large[i], env);
      assert i < b ==> k == KeyOf(OrderColumns(w.order), small[i], env);
    }
  }

  /** A finished peer set adds one new key to those before it. */
  lemma DenseStep(w: WinExpr, rows: seq<Row>, env: Env, ops: seq<int>, b: int, e: int)
    requires KeysTyped(w.order, env, rows) && Positions(ops, |rows|) && PeerRange(w.order, env, rows, ops, b, e)
    ensures |KeySet(w, Fetch(rows, ops[..e]), env)| == |KeySet(w, Fetch(rows, ops[..b]), env)| + 1
  {
    hide KeysTyped, RowLess, SameKey, KeyOf, KeySet;
    var key := KeyOf(OrderColumns(w.order), rows[ops[b]], env);
    forall q | b <= q < e ensures KeyOf(OrderColumns(w.order), rows[ops[q]], env) == key {
      PeerIsSameKey(w, rows[ops[b]], rows[ops[q]], env);
      assert SameRows(w.order, env, rows, ops[b], ops[q]);
    }
    forall q | 0 <= q < b ensures KeyOf(OrderColumns(w.order), rows[ops[q]], env) != key {
      assert LessRows(w.order, env, rows, ops[q], ops[b]);
      OrderFacts(w.order, env, rows, ops[q], ops[b], ops[b]);
      PeerIsSameKey(w, rows[ops[q]], rows[ops[b]], env);
    }
    KeySetGrows(w, rows, env, ops, b, e, key);
  }

  method RankPartition(w: WinExpr, batch: seq<Row>, ordered: seq<int>, env: Env,
                       ghost rows: seq<Row>, ghost key: seq<Cell>, ghost ps: seq<int>, ghost ops: seq<int>) returns (r: Outcome<seq<Cell>>)
    requires !w.fn.Aggregated?
    requires KeysTyped(w.order, env, rows) && Partition(w, rows, env, key, ps) && SortedPartition(w, rows, env, key, ops)
    requires Linked(batch, rows, ordered, ops)
    ensures r.Ok? ==> |r.value| == |ops| && Gives(w, rows, env, ops, r.value)
    ensures r.Fails? ==> SomeRowFails(w, rows, env)
  {
    hide KeysTyped, RowLess, SameKey, KeyOf, KeySet, Partition, SortedPartition, Ordered, WindowAt, Cut, PeerRange;
    SortedInRange(w, rows, env, key, ops);
    var cells := [];
    var rank, dense := 1, 1;
    var index := 0;
    CutZero(w, rows, env, ops);
    while index < |ordered|
      invariant 0 <= index <= |ordered| && |cells| == index
      invariant Gives(w, rows, env, ops, cells)
      invariant 1 <= rank <= index + 1 && (index > 0 ==> rank <= index)
      invariant Cut(w.order, env, rows, ops, rank - 1)
      invariant forall q | rank - 1 <= q < index :: SameRows(w.order, env, rows, ops[rank - 1], ops[q])
      invariant dense == 1 + |KeySet(w, Fetch(rows, ops[..rank - 1]), env)|
    {
      if index != 0 && !SameKey(w.order, env, batch[ordered[index - 1]], batch[ordered[index]]) {
        NextCut(w, rows, env, key, ops, rank - 1, index);
        DenseStep(w, rows, env, ops, rank - 1, index);
        CutOfRange(w, rows, env, ops, rank - 1, index);
        rank := index + 1;
        dense := dense + 1;
      }
      PeersSoFar(w, rows, env, ops, rank - 1, index);
      ghost var e := PeerEnd(w, rows, env, key, ops, rank - 1, index);
      ValueFromSorted(w, rows, env, key, ps, ops, rank - 1, e, index);
      RangeBounds(w, rows, env, ops, rank - 1, e);
      var ordinal := if w.fn == RowNumber then index + 1 else if w.fn == Rank then rank else dense;
      match CountCell(ordinal)
      case Fails => return Fails;
      case Ok(c) => cells := cells + [c];
      index := index + 1;
    }
    r := Ok(cells);
  }

  lemma SortedInRange(w: WinExpr, rows: seq<Row>, env: Env, key: seq<Cell>, ops: seq<int>)
    requires SortedPartition(w, rows, env, key, ops)
    ensures Positions(ops, |rows|)
  {
  }

  lemma CutZero(w: WinExpr, rows: seq<Row>, env: Env, ops: seq<int>)
    requires Positions(ops, |rows|)
    ensures Cut(w.order, env, rows, ops, 0)
    ensures KeySet(w, Fetch(rows, ops[..0]), env) == {}
  {
  }

  lemma CutOfRange(w: WinExpr, rows: seq<Row>, env: Env, ops: seq<int>, b: int, e: int)
    requires Positions(ops, |rows|) && PeerRange(w.order, env, rows, ops, b, e)
    ensures Cut(w.order, env, rows, ops, e) && Cut(w.order, env, rows, ops, b)
  {
  }

  /** The row at `k` belongs to the peer set that starts at `b`. */
  lemma PeersSoFar(w: WinExpr, rows: seq<Row>, env: Env, ops: seq<int>, b: int, k: int)
    requires KeysTyped(w.order, env, rows) && Positions(ops, |rows|) && 0 <= b <= k < |ops|
    requires forall q | b <= q < k :: SameRows(w.order, env, rows, ops[b], ops[q])
    requires b < k ==> SameRows(w.order, env, rows, ops[k - 1], ops[k])
    ensures forall q | b <= q <= k :: SameRows(w.order, env, rows, ops[b], ops[q])
  {
    hide KeysTyped, SameRows, LessRows;
    OrderFacts(w.order, env, rows, ops[b], ops[if b < k then k - 1 else k], ops[k]);
  }

  lemma ArgsAtSnoc(w: WinExpr, rows: seq<Row>, env: Env, ops: seq<int>, b: int, e: int)
    requires Positions(ops, |rows|) && 0 <= b <= e <= |ops|
    ensures ArgsAt(w, rows, env, ops[..e]) == ArgsAt(w, rows, env, ops[..b]) + ArgsAt(w, rows, env, ops[b..e])
  {
    hide ArgCell;
    assert ops[..e] == ops[..b] + ops[b..e];
  }

  lemma NoArgs(w: WinExpr, rows: seq<Row>, env: Env, fn: AggFn)
    ensures ArgsAt(w, rows, env, []) == [] && Accumulates(fn, FRESH, []) && RangeState(fn, FRESH, [])
  {
    assert forall n | 0 <= n <= 0 :: (NonNull([]))[..n] == [];
  }

  /** The argument cells of a list of batch rows. */
  function IdArgs(w: WinExpr, batch: seq<Row>, ids: seq<int>, env: Env): (r: seq<Cell>)
    requires forall k | 0 <= k < |ids| :: 0 <= ids[k] < |batch|
    ensures |r| == |ids| && forall k | 0 <= k < |r| :: r[k] == ArgCell(w.arg, batch[ids[k]], env)
  {
    seq(|ids|, k requires 0 <= k < |ids| => ArgCell(w.arg, batch[ids[k]], env))
  }

  lemma LinkedArgs(w: WinExpr, batch: seq<Row>, rows: seq<Row>, env: Env, ids: seq<int>, ops: seq<int>)
    requires Linked(batch, rows, ids, ops)
    ensures IdArgs(w, batch, ids, env) == ArgsAt(w, rows, env, ops)
  {
    hide ArgCell;
  }

  lemma LinkedSlice(batch: seq<Row>, rows: seq<Row>, ids: seq<int>, ops: seq<int>, b: int, e: int)
    requires Linked(batch, rows, ids, ops) && 0 <= b <= e <= |ids|
    ensures Linked(batch, rows, ids[b..e], ops[b..e])
    ensures Linked(batch, rows, ids[..e], ops[..e])
  {
  }

  lemma PrefixOutcomeOf(fn: AggFn, ty: ColumnType, s: AggState, cells: seq<Cell>)
    requires Accumulates(fn, s, cells)
    ensures PrefixOutcome(fn, ty, cells) == Ok(Finalize(fn, ty, s))
  {
    FinalizeIsOutcome(fn, ty, s, cells);
    assert NonNull(cells)[..|NonNull(cells)|] == NonNull(cells);
  }

  lemma PrefixOutcomeFails(fn: AggFn, ty: ColumnType, s: AggState, cells: seq<Cell>, arg: Cell)
    requires Accumulates(fn, s, cells) && Update(fn, s, arg).Fails?
    ensures PrefixOutcome(fn, ty, cells + [arg]).Fails?
  {
    UpdateAccumulates(fn, ty, s, cells, arg);
    if fn == Sum {
      NonNullAppend(cells, [arg]);
      assert [arg][..0] == [];
      TotalAppend(NonNull(cells), [arg]);
    }
  }

  /** ROWS frames: every row publishes the running state. */
  method RowsPartition(w: WinExpr, batch: seq<Row>, ordered: seq<int>, env: Env,
                       ghost rows: seq<Row>, ghost key: seq<Cell>, ghost ps: seq<int>, ghost ops: seq<int>) returns (r: Outcome<seq<Cell>>)
    requires w.fn.Aggregated? && w.frame == RowsCumulative
    requires KeysTyped(w.order, env, rows) && Partition(w, rows, env, key, ps) && SortedPartition(w, rows, env, key, ops)
    requires Linked(batch, rows, ordered, ops)
    ensures r.Ok? ==> |r.value| == |ops| && Gives(w, rows, env, ops, r.value)
    ensures r.Fails? ==> SomeRowFails(w, rows, env)
  {
    hide KeysTyped, RowLess, SameKey, KeyOf, Partition, SortedPartition, WindowAt, Accumulates, PrefixOutcome, Update, Finalize, ArgCell, ArgsAt;
    SortedInRange(w, rows, env, key, ops);
    var fn, cells, state, index := w.fn.fn, [], FRESH, 0;
    NoArgs(w, rows, env, fn);
    while index < |ordered|
      invariant 0 <= index <= |ordered| && |cells| == index
      invariant Gives(w, rows, env, ops, cells)
      invariant Accumulates(fn, state, ArgsAt(w, rows, env, ops[..index]))
    {
      var arg := ArgCell(w.arg, batch[ordered[index]], env);
      RowsValue(w, rows, env, key, ps, ops, index);
      UpdateAccumulates(fn, w.ty, state, ArgsAt(w, rows, env, ops[..index]), arg);
      match Update(fn, state, arg)
      case Fails =>
        PrefixOutcomeFails(fn, w.ty, state, ArgsAt(w, rows, env, ops[..index]), arg);
        return Fails;
      case Ok(t) =>
        state := t;
        PrefixOutcomeOf(fn, w.ty, state, ArgsAt(w, rows, env, ops[..index + 1]));
        cells := cells + [Finalize(fn, w.ty, state)];
      index := index + 1;
    }
    r := Ok(cells);
  }

  lemma RowsValue(w: WinExpr, rows: seq<Row>, env: Env, key: seq<Cell>, ps: seq<int>, ops: seq<int>, k: int)
    requires w.fn.Aggregated? && w.frame == RowsCumulative
    requires KeysTyped(w.order, env, rows) && Partition(w, rows, env, key, ps) && SortedPartition(w, rows, env, key, ops)
    requires 0 <= k < |ops|
    ensures WindowAt(w, rows, ops[k], env) == PrefixOutcome(w.fn.fn, w.ty, ArgsAt(w, rows, env, ops[..k + 1]))
    ensures ArgsAt(w, rows, env, ops[..k + 1]) == ArgsAt(w, rows, env, ops[..k]) + [ArgCell(w.arg, rows[ops[k]], env)]
  {
    hide KeysTyped, KeyOf, PrefixOutcome, Lists, Unrepeated, Picked, Ordered, Ascending, ArgCell;
    var x := rows[ops[k]];
    AheadIsPrefix(w, rows, env, key, ops, k, k + 1);
    PickedArgs(w, rows, env, Ahead(w, x, ops[k] + 1, env), ops[..k + 1]);
    PrefixSameBag(w.fn.fn, w.ty, ArgCells(w.arg, Picked(rows, Ahead(w, x, ops[k] + 1, env)), env), ArgsAt(w, rows, env, ops[..k + 1]));
  }

  /** RANGE frames: a whole peer set is added, then published to all its rows. */
  method RangePartition(w: WinExpr, batch: seq<Row>, ordered: seq<int>, env: Env,
                        ghost rows: seq<Row>, ghost key: seq<Cell>, ghost ps: seq<int>, ghost ops: seq<int>) returns (r: Outcome<seq<Cell>>)
    requires w.fn.Aggregated? && w.frame == RangeCumulative
    requires KeysTyped(w.order, env, rows) && Partition(w, rows, env, key, ps) && SortedPartition(w, rows, env, key, ops)
    requires Linked(batch, rows, ordered, ops)
    ensures r.Ok? ==> |r.value| == |ops| && Gives(w, rows, env, ops, r.value)
    ensures r.Fails? ==> SomeRowFails(w, rows, env)
  {
    hide KeysTyped, RowLess, SameKey, KeyOf, Partition, SortedPartition, WindowAt, RangeState, RangeOutcome, Finalize, ArgCell, ArgsAt,
         Cut, PeerRange, LessRows;
    SortedInRange(w, rows, env, key, ops);
    var fn, cells, state, begin := w.fn.fn, [], FRESH, 0;
    NoArgs(w, rows, env, fn);
    CutZero(w, rows, env, ops);
    while begin < |ordered|
      invariant 0 <= begin <= |ordered| && |cells| == begin
      invariant Gives(w, rows, env, ops, cells)
      invariant Cut(w.order, env, rows, ops, begin)
      invariant RangeState(fn, state, ArgsAt(w, rows, env, ops[..begin]))
    {
      var end := PeerSetEnd(w, batch, ordered, env, rows, key, ops, begin);
      var peers := IdArgs(w, batch, ordered[begin..end], env);
      LinkedSlice(batch, rows, ordered, ops, begin, end);
      LinkedArgs(w, batch, rows, env, ordered[begin..end], ops[begin..end]);
      ArgsAtSnoc(w, rows, env, ops, begin, end);
      RangeValues(w, rows, env, key, ps, ops, begin, end);
      var updated := UpdateRangePeer(fn, w.ty, state, ArgsAt(w, rows, env, ops[..begin]), peers);
      if updated.Fails? {
        assert WindowAt(w, rows, ops[begin], env).Fails?;
        return Fails;
      }
      state := updated.value;
      RangeFinal(fn, w.ty, state, ArgsAt(w, rows, env, ops[..begin]), peers);
      cells := Publish(w, rows, env, ops, cells, Finalize(fn, w.ty, state), end);
      CutOfRange(w, rows, env, ops, begin, end);
      begin := end;
    }
    r := Ok(cells);
  }

  method Publish(ghost w: WinExpr, ghost rows: seq<Row>, ghost env: Env, ghost ops: seq<int>, cells: seq<Cell>, v: Cell, end: int) returns (out: seq<Cell>)
    requires Gives(w, rows, env, ops, cells) && |cells| <= end <= |ops|
    requires forall k | |cells| <= k < end :: WindowAt(w, rows, ops[k], env) == Ok(v)
    ensures |out| == end && Gives(w, rows, env, ops, out)
  {
    hide WindowAt;
    out := cells;
    while |out| < end
      invariant |cells| <= |out| <= end
      invariant Gives(w, rows, env, ops, out)
      decreases end - |out|
    {
      out := out + [v];
    }
  }

  /** The end of the peer set that starts at `begin`. */
  method PeerSetEnd(w: WinExpr, batch: seq<Row>, ordered: seq<int>, env: Env,
                    ghost rows: seq<Row>, ghost key: seq<Cell>, ghost ops: seq<int>, begin: int) returns (end: int)
    requires KeysTyped(w.order, env, rows) && SortedPartition(w, rows, env, key, ops)
    requires Linked(batch, rows, ordered, ops) && 0 <= begin < |ordered|
    requires Cut(w.order, env, rows, ops, begin)
    ensures begin < end <= |ordered| && PeerRange(w.order, env, rows, ops, begin, end)
  {
    hide KeysTyped, RowLess, SameKey, KeyOf, SortedPartition, LessRows, Cut, PeerRange;
    end := begin + 1;
    OrderFacts(w.order, env, rows, ops[begin], ops[begin], ops[begin]);
    while end < |ordered| && SameKey(w.order, env, batch[ordered[begin]], batch[ordered[end]])
      invariant begin < end <= |ordered|
      invariant forall q | begin <= q < end :: SameRows(w.order, env, rows, ops[begin], ops[q])
    {
      end := end + 1;
    }
    if end < |ordered| {
      OrderFacts(w.order, env, rows, ops[begin], ops[end - 1], ops[end]);
    }
    NextCut(w, rows, env, key, ops, begin, end);
  }

  lemma RangeValues(w: WinExpr, rows: seq<Row>, env: Env, key: seq<Cell>, ps: seq<int>, ops: seq<int>, b: int, e: int)
    requires w.fn.Aggregated? && w.frame == RangeCumulative
    requires KeysTyped(w.order, env, rows) && Partition(w, rows, env, key, ps) && SortedPartition(w, rows, env, key, ops)
    requires 0 <= b < e <= |ops| && PeerRange(w.order, env, rows, ops, b, e)
    ensures forall k | b <= k < e ::
              WindowAt(w, rows, ops[k], env) == RangeOutcome(w.fn.fn, w.ty, ArgsAt(w, rows, env, ops[..b]), ArgsAt(w, rows, env, ops[b..e]))
  {
    hide KeysTyped, KeyOf, WindowAt, RangeOutcome, PeerRange, ArgsAt;
    forall k | b <= k < e
      ensures WindowAt(w, rows, ops[k], env) == RangeOutcome(w.fn.fn, w.ty, ArgsAt(w, rows, env, ops[..b]), ArgsAt(w, rows, env, ops[b..e]))
    {
      ValueFromSorted(w, rows, env, key, ps, ops, b, e, k);
    }
  }

  /** Whole-partition frames: one value, accumulated in input order. */
  method WholePartitionValue(w: WinExpr, batch: seq<Row>, ids: seq<int>, env: Env,
                             ghost rows: seq<Row>, ghost key: seq<Cell>, ghost ps: seq<int>) returns (r: Outcome<seq<Cell>>)
    requires w.fn.Aggregated? && w.frame == WholePartition && ids != []
    requires Partition(w, rows, env, key, ps) && Linked(batch, rows, ids, ps)
    ensures r.Ok? ==> |r.value| == |ps| && Gives(w, rows, env, ps, r.value)
    ensures r.Fails? ==> SomeRowFails(w, rows, env)
  {
    hide KeyOf, WindowAt, Accumulates, AggOutcome, ArgsAt, Partition;
    NoArgs(w, rows, env, w.fn.fn);
    LinkedArgs(w, batch, rows, env, ids, ps);
    var state := FoldArgs(w.fn.fn, w.ty, FRESH, [], IdArgs(w, batch, ids, env));
    assert [] + ArgsAt(w, rows, env, ps) == ArgsAt(w, rows, env, ps);
    WholeValues(w, rows, env, key, ps);
    if state.Fails? {
      assert WindowAt(w, rows, ps[0], env).Fails?;
      return Fails;
    }
    FinalizeIsOutcome(w.fn.fn, w.ty, state.value, ArgsAt(w, rows, env, ps));
    var cells := Publish(w, rows, env, ps, [], Finalize(w.fn.fn, w.ty, state.value), |ids|);
    r := Ok(cells);
  }

  lemma WholeValues(w: WinExpr, rows: seq<Row>, env: Env, key: seq<Cell>, ps: seq<int>)
    requires w.fn.Aggregated? && w.frame == WholePartition && Partition(w, rows, env, key, ps)
    ensures forall k | 0 <= k < |ps| :: WindowAt(w, rows, ps[k], env) == AggOutcome(w.fn.fn, w.ty, ArgsAt(w, rows, env, ps))
  {
    hide KeyOf, AggOutcome;
    forall k | 0 <= k < |ps| ensures WindowAt(w, rows, ps[k], env) == AggOutcome(w.fn.fn, w.ty, ArgsAt(w, rows, env, ps)) {
      assert ps[k] in ps;
      PickedInOrder(rows, InPart(w, rows[ps[k]], env), ps);
    }
  }
}
