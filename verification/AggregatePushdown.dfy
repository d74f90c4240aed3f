/** Filter conjuncts that read only group keys move below a grouped aggregate: the surviving groups, their order
  and their values stay the same. The laws here are about aggregates that succeed.
 */
module AggregatePushdown {
  import opened Plans
  import opened Sequences
  import opened Values
  import opened Algebra
  import opened Semantics
  import opened Shapes
  import opened Correlation
  import opened Aggregation
  import opened FilterRuleSoundness
  import opened JoinAlgebra
  import opened JoinRules
  import opened JoinPushdown
  import opened Schemas

  function ScalarColumns(e: Scalar): set<Ident> {
    if e.Column? then {e.col.id} else {}
  }

  /** The columns a predicate's own operands name. */
  function RefColumns(p: Pred): set<Ident> {
    match p
    case Cmp(l, _, r) => ScalarColumns(l) + ScalarColumns(r)
    case IsNull(e) => ScalarColumns(e)
    case IsNotNull(e) => ScalarColumns(e)
    case In(e, _) => ScalarColumns(e)
    case NotIn(e, _) => ScalarColumns(e)
    case And(l, r) => RefColumns(l) + RefColumns(r)
    case Or(l, r) => RefColumns(l) + RefColumns(r)
    case _ => {}
  }

  function KeyNames(keys: seq<ColumnRef>): set<Ident> {
    set i | 0 <= i < |keys| :: keys[i].id
  }

  predicate OnlyGroupKeys(p: Pred, keys: seq<ColumnRef>) {
    RefColumns(p) != {} && RefColumns(p) <= KeyNames(keys)
  }

  function Pushable(ps: seq<Pred>, keys: seq<ColumnRef>, push: bool): (r: seq<Pred>)
    ensures forall q :: q in r <==> q in ps && OnlyGroupKeys(q, keys) == push
  {
    if ps == [] then []
    else
      assert ps == ps[..|ps| - 1] + [ps[|ps| - 1]];
      Pushable(ps[..|ps| - 1], keys, push) + if OnlyGroupKeys(ps[|ps| - 1], keys) == push then [ps[|ps| - 1]] else []
  }

  function FilterThroughAggregate(p: Plan): Option<Plan> {
    if !(p.op.Filter? && |p.kids| == 1 && p.kids[0].op.Aggregate? && |p.kids[0].kids| == 1) then None
    else
      var agg, x := p.kids[0], p.kids[0].kids[0];
      var push, rest := Pushable(p.op.preds, agg.op.keys, true), Pushable(p.op.preds, agg.op.keys, false);
      if push == [] then None
      else Some(Filtered(p.perm, rest, Node(p.perm, agg.op, [Filtered(x.perm, push, x)])))
  }

  // ---------------------------------------------------------------- keys decide

  /** The part of a group's output row that holds its key. */
  function KeyRow(keys: seq<ColumnRef>, key: seq<Cell>): Row
    requires |key| == |keys|
  {
    MakeRow(seq(|keys|, i requires 0 <= i < |keys| => keys[i].id), key)
  }

  ghost predicate DistinctKeys(keys: seq<ColumnRef>) {
    forall i, j | 0 <= i < j < |keys| :: keys[i].id != keys[j].id
  }

  /** Group keys are columns of the input, of their declared types. */
  ghost predicate InputKeys(keys: seq<ColumnRef>, header: seq<Field>) {
    DistinctKeys(keys) && forall i | 0 <= i < |keys| :: keys[i].depth == 0 && Has(header, keys[i])
  }

  lemma KeyRowCells(keys: seq<ColumnRef>, key: seq<Cell>)
    requires |key| == |keys| && DistinctKeys(keys)
    ensures forall i | 0 <= i < |keys| :: keys[i].id in KeyRow(keys, key) && KeyRow(keys, key)[keys[i].id] == key[i]
  {
    var ids := seq(|keys|, i requires 0 <= i < |keys| => keys[i].id);
    assert forall i | 0 <= i < |keys| :: ids[i] == keys[i].id;
    forall i | 0 <= i < |keys| ensures keys[i].id in KeyRow(keys, key) && KeyRow(keys, key)[keys[i].id] == key[i] {
      assert ids[i] in ids;
    }
  }

  lemma SourceAgrees(keys: seq<ColumnRef>, header: seq<Field>, row: Row, env: Env)
    requires InputKeys(keys, header) && RowFits(header, row)
    ensures AgreeOn(KeyNames(keys), row, KeyRow(keys, KeyOf(keys, row, env)))
    ensures forall i | 0 <= i < |keys| :: KeyOf(keys, row, env)[i].Type() == keys[i].ty
  {
    KeyRowCells(keys, KeyOf(keys, row, env));
    forall i | 0 <= i < |keys| ensures keys[i].id in row && KeyOf(keys, row, env)[i] == row[keys[i].id] && row[keys[i].id].Type() == keys[i].ty {
      HasCell(header, row, keys[i]);
    }
  }

  lemma GroupRowAgrees(keys: seq<ColumnRef>, aggs: seq<AggExpr>, rows: seq<Row>, key: seq<Cell>, env: Env)
    requires DistinctIds(AggregateHeader(keys, aggs)) && DistinctKeys(keys) && GroupRow(keys, aggs, rows, env)(key).Ok?
    requires |key| == |keys| && forall i | 0 <= i < |keys| :: key[i].Type() == keys[i].ty
    ensures AgreeOn(KeyNames(keys), GroupRow(keys, aggs, rows, env)(key).value, KeyRow(keys, key))
  {
    hide AggCells, Members;
    var header := AggregateHeader(keys, aggs);
    var cells := CastAll(header, key + AggCells(aggs, Members(keys, rows, key, env), env).value);
    MakeRowFits(header, cells);
    KeyRowCells(keys, key);
    forall i | 0 <= i < |keys| ensures MakeRow(Ids(header), cells)[keys[i].id] == key[i] && keys[i].id in MakeRow(Ids(header), cells) {
      assert header[i].id == keys[i].id;
    }
  }

  // ---------------------------------------------------------------- first appearances

  lemma KeepSnoc<T>(s: seq<T>, x: T, b: T -> bool)
    ensures Keep(s + [x], b) == if b(x) then Keep(s, b) + [x] else Keep(s, b)
  {
    assert (s + [x])[..|s|] == s;
    assert Keep(s, b) + [] == Keep(s, b);
  }

  lemma DedupSnoc<T(!new)>(s: seq<T>, x: T)
    ensures Dedup(s + [x]) == if x in Dedup(s) then Dedup(s) else Dedup(s) + [x]
  {
    assert (s + [x])[..|s|] == s;
  }

  lemma {:induction false} DedupKeep<T(!new)>(s: seq<T>, b: T -> bool)
    ensures Dedup(Keep(s, b)) == Keep(Dedup(s), b)
    decreases |s|, 0
  {
    if s != [] {
      DedupKeepSnoc(s[..|s| - 1], s[|s| - 1], b);
      assert s == s[..|s| - 1] + [s[|s| - 1]];
    }
  }

  lemma {:induction false} DedupKeepSnoc<T(!new)>(s: seq<T>, x: T, b: T -> bool)
    ensures Dedup(Keep(s + [x], b)) == Keep(Dedup(s + [x]), b)
    decreases |s|, 1
  {
    hide Keep, Dedup;
    DedupKeep(s, b);
    KeepSnoc(s, x, b);
    DedupSnoc(s, x);
    KeepSnoc(Dedup(s), x, b);
    if b(x) {
      DedupSnoc(Keep(s, b), x);
      KeepMember(Dedup(s), b, x);
    }
  }

  lemma {:induction false} KeepMember<T>(s: seq<T>, b: T -> bool, x: T)
    requires b(x)
    ensures x in Keep(s, b) <==> x in s
  {
    if s != [] {
      assert s == s[..|s| - 1] + [s[|s| - 1]];
      KeepMember(s[..|s| - 1], b, x);
    }
  }

  lemma {:induction false} KeysOfKept(keys: seq<ColumnRef>, rows: seq<Row>, b: Row -> bool, pk: seq<Cell> -> bool, env: Env)
    requires forall i | 0 <= i < |rows| :: b(rows[i]) == pk(KeyOf(keys, rows[i], env))
    ensures AllKeys(keys, Keep(rows, b), env) == Keep(AllKeys(keys, rows, env), pk)
  {
    hide KeyOf;
    if rows != [] {
      var n := |rows| - 1;
      KeysOfKept(keys, rows[..n], b, pk, env);
      assert AllKeys(keys, rows, env)[..n] == AllKeys(keys, rows[..n], env);
      assert AllKeys(keys, rows, env)[n] == KeyOf(keys, rows[n], env);
      var kept := Keep(rows[..n], b);
      assert AllKeys(keys, kept + [rows[n]], env) == AllKeys(keys, kept, env) + [KeyOf(keys, rows[n], env)];
      assert kept + [] == kept;
    }
  }

  lemma {:induction false} MembersOfKept(keys: seq<ColumnRef>, rows: seq<Row>, b: Row -> bool, pk: seq<Cell> -> bool, key: seq<Cell>, env: Env)
    requires forall i | 0 <= i < |rows| :: b(rows[i]) == pk(KeyOf(keys, rows[i], env))
    requires pk(key)
    ensures Members(keys, Keep(rows, b), key, env) == Members(keys, rows, key, env)
  {
    hide KeyOf;
    if rows != [] {
      var n := |rows| - 1;
      MembersOfKept(keys, rows[..n], b, pk, key, env);
      var kept := Keep(rows[..n], b);
      assert (kept + [rows[n]])[..|kept|] == kept;
      assert kept + [] == kept;
      assert Members(keys, rows[..n], key, env) + [] == Members(keys, rows[..n], key, env);
    }
  }

  /** Mapping the kept inputs is keeping the mapped outputs, when outputs reveal what is kept. */
  lemma {:induction false} MapAllKeep<A, B>(xs: seq<A>, h: A -> Outcome<B>, ys: seq<B>, c: A -> bool, b: B -> bool)
    requires MapAll(xs, h) == Ok(ys) && forall i | 0 <= i < |xs| :: b(ys[i]) == c(xs[i])
    ensures MapAll(Keep(xs, c), h) == Ok(Keep(ys, b))
  {
    if xs != [] {
      var n := |xs| - 1;
      assert MapAll(xs[..n], h).value == ys[..n];
      MapAllKeep(xs[..n], h, ys[..n], c, b);
      var kx, ky := Keep(xs[..n], c), Keep(ys[..n], b);
      if c(xs[n]) {
        assert (kx + [xs[n]])[..|kx|] == kx;
        MapAllIs(kx + [xs[n]], h, ky + [ys[n]]);
      } else {
        assert kx + [] == kx && ky + [] == ky;
      }
    }
  }

  lemma GroupRowKept(keys: seq<ColumnRef>, aggs: seq<AggExpr>, rows: seq<Row>, b: Row -> bool, pk: seq<Cell> -> bool, key: seq<Cell>, env: Env)
    requires (forall i | 0 <= i < |rows| :: b(rows[i]) == pk(KeyOf(keys, rows[i], env))) && pk(key)
    ensures GroupRow(keys, aggs, Keep(rows, b), env)(key) == GroupRow(keys, aggs, rows, env)(key)
  {
    hide KeyOf, AggCells, Members, Keep;
    MembersOfKept(keys, rows, b, pk, key, env);
  }

  lemma AggregateRows(keys: seq<ColumnRef>, aggs: seq<AggExpr>, rel: Rel, env: Env)
    ensures AggregateRel(keys, aggs, rel, env) ==
            if !AggregateResolves(keys, aggs, Names(rel.header), env) || !DistinctIds(AggregateHeader(keys, aggs)) then Fails
            else
              match MapAll(GroupKeys(keys, rel.rows, env), GroupRow(keys, aggs, rel.rows, env))
              case Fails => Fails
              case Ok(rows) => Ok(Rel(AggregateHeader(keys, aggs), rows))
  {
  }

  /** Aggregating the kept rows is keeping the aggregated rows. */
  lemma AggregateKept(keys: seq<ColumnRef>, aggs: seq<AggExpr>, rel: Rel, b: Row -> bool, pk: seq<Cell> -> bool, out: Rel, env: Env)
    requires keys != [] && AggregateRel(keys, aggs, rel, env) == Ok(out)
    requires forall i | 0 <= i < |rel.rows| :: b(rel.rows[i]) == pk(KeyOf(keys, rel.rows[i], env))
    requires |out.rows| == |GroupKeys(keys, rel.rows, env)|
    requires forall g | 0 <= g < |out.rows| :: b(out.rows[g]) == pk(GroupKeys(keys, rel.rows, env)[g])
    ensures AggregateRel(keys, aggs, Rel(rel.header, Keep(rel.rows, b)), env) == Ok(Rel(out.header, Keep(out.rows, b)))
  {
    hide KeyOf, GroupRow, DistinctIds, AggregateResolves, AggregateRel, Keep, AllKeys, Dedup;
    var kept := Keep(rel.rows, b);
    var gk := GroupKeys(keys, rel.rows, env);
    AggregateRows(keys, aggs, rel, env);
    AggregateRows(keys, aggs, Rel(rel.header, kept), env);
    KeysOfKept(keys, rel.rows, b, pk, env);
    DedupKeep(AllKeys(keys, rel.rows, env), pk);
    assert GroupKeys(keys, kept, env) == Keep(gk, pk);
    MapAllKeep(gk, GroupRow(keys, aggs, rel.rows, env), out.rows, pk, b);
    KeptFrom(gk, pk);
    forall g | 0 <= g < |Keep(gk, pk)|
      ensures GroupRow(keys, aggs, kept, env)(Keep(gk, pk)[g]) == GroupRow(keys, aggs, rel.rows, env)(Keep(gk, pk)[g])
    {
      GroupRowKept(keys, aggs, rel.rows, b, pk, Keep(gk, pk)[g], env);
    }
    MapAllAgree(Keep(gk, pk), GroupRow(keys, aggs, kept, env), GroupRow(keys, aggs, rel.rows, env));
  }

  lemma PushNeedsKeys(ps: seq<Pred>, keys: seq<ColumnRef>)
    ensures Pushable(ps, keys, true) != [] ==> keys != []
  {
    HasMember(Pushable(ps, keys, true));
  }
}
