/** When each memo rule fires and where it puts the conjuncts, stated through the columns a predicate names. Every rule keeps
  the bag of conjuncts: none is lost, copied or changed.
 */
module RuleFiring {
  import opened Plans
  import opened Sequences
  import opened Algebra
  import opened Windows
  import opened Semantics
  import opened Correlation
  import opened FilterRules
  import opened FixpointForm
  import opened JoinRules
  import opened JoinReorder
  import opened AggregatePushdown
  import opened Decorrelation
  import opened DecorrelationSoundness
  import opened SubqueryRules

  // ---------------------------------------------------------------- the tables a predicate names

  /** A predicate's own operands; those inside a subquery do not count. */
  function Operands(p: Pred): set<Scalar> {
    match p
    case Cmp(l, _, r) => {l, r}
    case IsNull(e) => {e}
    case IsNotNull(e) => {e}
    case In(e, _) => {e}
    case NotIn(e, _) => {e}
    case Exists(_) => {}
    case NotExists(_) => {}
    case And(l, r) => Operands(l) + Operands(r)
    case Or(l, r) => Operands(l) + Operands(r)
  }

  /** The bindings and the columns of its column operands. */
  function Bindings(p: Pred): set<string> {
    BindingsOf(Operands(p))
  }

  function Columns(p: Pred): set<Ident> {
    ColumnsOf(Operands(p))
  }

  function BindingsOf(es: set<Scalar>): set<string> {
    set e | e in es && e.Column? :: e.col.id.binding
  }

  function ColumnsOf(es: set<Scalar>): set<Ident> {
    set e | e in es && e.Column? :: e.col.id
  }

  lemma OperandsSplit(a: set<Scalar>, b: set<Scalar>)
    ensures BindingsOf(a + b) == BindingsOf(a) + BindingsOf(b) && ColumnsOf(a + b) == ColumnsOf(a) + ColumnsOf(b)
  {
    assert forall x :: x in BindingsOf(a + b) <==> x in BindingsOf(a) || x in BindingsOf(b);
    assert forall x :: x in ColumnsOf(a + b) <==> x in ColumnsOf(a) || x in ColumnsOf(b);
  }

  lemma {:induction false} TablesAreBindings(p: Pred)
    ensures RefTables(p) == Bindings(p)
    ensures RefColumns(p) == Columns(p)
  {
    match p
    case And(l, r) =>
      TablesAreBindings(l);
      TablesAreBindings(r);
      OperandsSplit(Operands(l), Operands(r));
    case Or(l, r) =>
      TablesAreBindings(l);
      TablesAreBindings(r);
      OperandsSplit(Operands(l), Operands(r));
    case Cmp(l, _, r) =>
      assert l in Operands(p) && r in Operands(p);
    case IsNull(e) => assert e in Operands(p);
    case IsNotNull(e) => assert e in Operands(p);
    case In(e, _) => assert e in Operands(p);
    case NotIn(e, _) => assert e in Operands(p);
    case _ =>
  }

  // ---------------------------------------------------------------- filters over joins

  /** A conjunct that can leave the filter for the left input, the right input, or the join. */
  predicate MovesLeft(kind: JoinKind, p: Pred, lt: set<string>, rt: set<string>) {
    Bindings(p) != {} && Bindings(p) <= lt && (kind == Inner ==> !(Bindings(p) <= rt))
  }

  predicate MovesRight(kind: JoinKind, p: Pred, lt: set<string>, rt: set<string>) {
    kind == Inner && Bindings(p) != {} && Bindings(p) <= rt && !(Bindings(p) <= lt)
  }

  predicate MovesToJoin(kind: JoinKind, p: Pred, lt: set<string>, rt: set<string>) {
    && kind == Inner && p.Cmp? && Bindings(p) <= lt + rt && Bindings(p) * lt != {} && Bindings(p) * rt != {}
    && !MovesLeft(kind, p, lt, rt) && !MovesRight(kind, p, lt, rt)
  }

  lemma PlaceIs(kind: JoinKind, p: Pred, lt: set<string>, rt: set<string>)
    ensures PlaceOf(kind, p, lt, rt) == AtLeft <==> MovesLeft(kind, p, lt, rt)
    ensures PlaceOf(kind, p, lt, rt) == AtRight <==> MovesRight(kind, p, lt, rt)
    ensures PlaceOf(kind, p, lt, rt) == AtJoin <==> MovesToJoin(kind, p, lt, rt)
  {
    TablesAreBindings(p);
    if Bindings(p) == {} {
      assert Bindings(p) * lt == {};
    }
  }

  /** The parts of a conjunct list hold each conjunct once. */
  lemma {:induction false} PlacedBag(kind: JoinKind, ps: seq<Pred>, lt: set<string>, rt: set<string>)
    ensures multiset(ps) == multiset(Placed(kind, ps, AtLeft, lt, rt)) + multiset(Placed(kind, ps, AtRight, lt, rt)) +
                            multiset(Placed(kind, ps, AtJoin, lt, rt)) + multiset(Placed(kind, ps, AtResidual, lt, rt))
  {
    if ps != [] {
      hide PlaceOf;
      var n := |ps| - 1;
      assert ps == ps[..n] + [ps[n]];
      PlacedBag(kind, ps[..n], lt, rt);
      PlacedSnoc(kind, ps, AtLeft, lt, rt);
      PlacedSnoc(kind, ps, AtRight, lt, rt);
      PlacedSnoc(kind, ps, AtJoin, lt, rt);
      PlacedSnoc(kind, ps, AtResidual, lt, rt);
      hide Placed;
    }
  }

  lemma PlacedSnoc(kind: JoinKind, ps: seq<Pred>, at: Place, lt: set<string>, rt: set<string>)
    requires ps != []
    ensures var n := |ps| - 1;
            multiset(Placed(kind, ps, at, lt, rt)) ==
            multiset(Placed(kind, ps[..n], at, lt, rt)) + if PlaceOf(kind, ps[n], lt, rt) == at then multiset{ps[n]} else multiset{}
  {
    hide PlaceOf;
  }

  /** The conjuncts of a filter that may have been dropped because it had none left. */
  function ConjunctsOf(p: Plan, kid: Plan): seq<Pred> {
    if p == kid || !p.op.Filter? then [] else p.op.preds
  }

  /** The pushdown fires exactly on a filter over a two-input join other than LEFT with a conjunct that can move. */
  lemma PushdownFires(p: Plan)
    ensures FilterIntoJoin(p).Some? <==>
            FilterOverJoin(p) && p.kids[0].op.kind != JoinKind.Left &&
            var join := p.kids[0];
            var lt, rt := OutputTables(join.kids[0]), OutputTables(join.kids[1]);
            exists i :: 0 <= i < |p.op.preds| &&
              (MovesLeft(join.op.kind, p.op.preds[i], lt, rt) || MovesRight(join.op.kind, p.op.preds[i], lt, rt) ||
               MovesToJoin(join.op.kind, p.op.preds[i], lt, rt))
  {
    if FilterOverJoin(p) && p.kids[0].op.kind != JoinKind.Left {
      var join := p.kids[0];
      var kind, lt, rt, ps := join.op.kind, OutputTables(join.kids[0]), OutputTables(join.kids[1]), p.op.preds;
      forall i | 0 <= i < |ps|
        ensures PlaceOf(kind, ps[i], lt, rt) == AtLeft <==> MovesLeft(kind, ps[i], lt, rt)
        ensures PlaceOf(kind, ps[i], lt, rt) == AtRight <==> MovesRight(kind, ps[i], lt, rt)
        ensures PlaceOf(kind, ps[i], lt, rt) == AtJoin <==> MovesToJoin(kind, ps[i], lt, rt)
      {
        PlaceIs(kind, ps[i], lt, rt);
      }
      hide PlaceOf, MovesLeft, MovesRight, MovesToJoin, OutputTables;
      SomePlaced(kind, ps, AtLeft, lt, rt);
      SomePlaced(kind, ps, AtRight, lt, rt);
      SomePlaced(kind, ps, AtJoin, lt, rt);
    }
  }

  lemma SomePlaced(kind: JoinKind, ps: seq<Pred>, at: Place, lt: set<string>, rt: set<string>)
    ensures Placed(kind, ps, at, lt, rt) != [] <==> exists i :: 0 <= i < |ps| && PlaceOf(kind, ps[i], lt, rt) == at
  {
    hide PlaceOf;
    var placed := Placed(kind, ps, at, lt, rt);
    if placed != [] {
      assert placed[0] in placed;
      var i :| 0 <= i < |ps| && ps[i] == placed[0];
    }
    if exists i :: 0 <= i < |ps| && PlaceOf(kind, ps[i], lt, rt) == at {
      var i :| 0 <= i < |ps| && PlaceOf(kind, ps[i], lt, rt) == at;
      assert ps[i] in placed;
    }
  }

  /** What the pushdown builds: a join of the same kind whose inputs are filtered by the conjuncts that moved there, below a
    filter of those that stayed. Together they are the conjuncts there were. */
  lemma PushdownPlaces(p: Plan) returns (atLeft: seq<Pred>, atRight: seq<Pred>, atJoin: seq<Pred>, stays: seq<Pred>)
    requires FilterIntoJoin(p).Some?
    ensures var join := p.kids[0];
            var kind, l, r := join.op.kind, join.kids[0], join.kids[1];
            var lt, rt := OutputTables(l), OutputTables(r);
            && FilterIntoJoin(p).value ==
               Filtered(p.perm, stays, Node(p.perm, Join(kind, join.op.on + atJoin, join.op.membership),
                                            [Filtered(l.perm, atLeft, l), Filtered(r.perm, atRight, r)]))
            && multiset(p.op.preds) == multiset(atLeft) + multiset(atRight) + multiset(atJoin) + multiset(stays)
            && (forall q | q in atLeft :: MovesLeft(kind, q, lt, rt)) && (forall q | q in atRight :: MovesRight(kind, q, lt, rt))
            && (forall q | q in atJoin :: MovesToJoin(kind, q, lt, rt))
            && (forall q | q in stays :: !MovesLeft(kind, q, lt, rt) && !MovesRight(kind, q, lt, rt) && !MovesToJoin(kind, q, lt, rt))
  {
    var join := p.kids[0];
    var kind, lt, rt, ps := join.op.kind, OutputTables(join.kids[0]), OutputTables(join.kids[1]), p.op.preds;
    atLeft, atRight := Placed(kind, ps, AtLeft, lt, rt), Placed(kind, ps, AtRight, lt, rt);
    atJoin, stays := Placed(kind, ps, AtJoin, lt, rt), Placed(kind, ps, AtResidual, lt, rt);
    PlacedBag(kind, ps, lt, rt);
    forall q
      ensures PlaceOf(kind, q, lt, rt) == AtLeft <==> MovesLeft(kind, q, lt, rt)
      ensures PlaceOf(kind, q, lt, rt) == AtRight <==> MovesRight(kind, q, lt, rt)
      ensures PlaceOf(kind, q, lt, rt) == AtJoin <==> MovesToJoin(kind, q, lt, rt)
    {
      PlaceIs(kind, q, lt, rt);
    }
    hide PlaceOf, MovesLeft, MovesRight, MovesToJoin, OutputTables;
  }

  // ---------------------------------------------------------------- LEFT to INNER

  /** The conjunctions whose disjunction the predicate is, each as its set of atoms. */
  ghost function Branches(p: Pred): set<set<Pred>> {
    match p
    case Or(l, r) => Branches(l) + Branches(r)
    case And(l, r) => set x, y | x in Branches(l) && y in Branches(r) :: x + y
    case _ => {{p}}
  }

  /** A comparison, or an IN test, of a column of the tables. */
  predicate RejectingAtom(q: Pred, tables: set<string>) {
    (q.Cmp? || q.In?) && Bindings(q) * tables != {}
  }

  ghost predicate BranchRejects(branch: set<Pred>, tables: set<string>) {
    exists q :: q in branch && RejectingAtom(q, tables)
  }

  ghost predicate EveryBranchRejects(p: Pred, tables: set<string>) {
    forall b | b in Branches(p) :: BranchRejects(b, tables)
  }

  /** The NULL-rejecting test: in every branch of the disjunctive normal form some comparison or IN names a column of the
    tables. */
  lemma {:induction false} RejectingIsByBranch(p: Pred, tables: set<string>)
    ensures NullRejecting(p, tables) <==> EveryBranchRejects(p, tables)
  {
    match p
    case Or(l, r) =>
      RejectingIsByBranch(l, tables);
      RejectingIsByBranch(r, tables);
      hide RejectingAtom;
    case And(l, r) =>
      RejectingIsByBranch(l, tables);
      RejectingIsByBranch(r, tables);
      hide RejectingAtom;
      AndRejects(l, r, tables);
    case _ =>
      TablesAreBindings(p);
      AtomRejects(p, tables);
      assert Branches(p) == {{p}};
      assert {p} in Branches(p);
  }

  lemma AndRejects(l: Pred, r: Pred, tables: set<string>)
    ensures EveryBranchRejects(And(l, r), tables) <==> EveryBranchRejects(l, tables) || EveryBranchRejects(r, tables)
  {
    hide RejectingAtom;
    var p := And(l, r);
    if EveryBranchRejects(l, tables) || EveryBranchRejects(r, tables) {
      forall b | b in Branches(p) ensures BranchRejects(b, tables) {
        var x, y :| x in Branches(l) && y in Branches(r) && b == x + y;
        JoinedRejects(x, y, tables);
      }
    } else {
      var x :| x in Branches(l) && !BranchRejects(x, tables);
      var y :| y in Branches(r) && !BranchRejects(y, tables);
      JoinedRejects(x, y, tables);
      assert x + y in Branches(p);
    }
  }

  lemma JoinedRejects(x: set<Pred>, y: set<Pred>, tables: set<string>)
    ensures BranchRejects(x + y, tables) <==> BranchRejects(x, tables) || BranchRejects(y, tables)
  {
    hide RejectingAtom;
    if BranchRejects(x, tables) {
      var q :| q in x && RejectingAtom(q, tables);
      assert q in x + y;
    }
    if BranchRejects(y, tables) {
      var q :| q in y && RejectingAtom(q, tables);
      assert q in x + y;
    }
  }

  lemma AtomRejects(p: Pred, tables: set<string>)
    ensures BranchRejects({p}, tables) <==> RejectingAtom(p, tables)
  {
    assert p in {p};
  }

  /** A LEFT join under a filter becomes INNER exactly when some conjunct rejects NULLs of the right side in every branch. */
  lemma LeftToInnerFires(p: Plan)
    ensures LeftToInner(p).Some? <==>
            FilterOverJoin(p) && p.kids[0].op.kind == JoinKind.Left &&
            exists i :: 0 <= i < |p.op.preds| && EveryBranchRejects(p.op.preds[i], OutputTables(p.kids[0].kids[1]))
    ensures LeftToInner(p).Some? ==>
              LeftToInner(p).value == Node(p.perm, p.op, [Node(p.kids[0].perm, Join(Inner, p.kids[0].op.on, p.kids[0].op.membership), p.kids[0].kids)])
  {
    if FilterOverJoin(p) {
      forall i | 0 <= i < |p.op.preds|
        ensures NullRejecting(p.op.preds[i], OutputTables(p.kids[0].kids[1])) <==>
                EveryBranchRejects(p.op.preds[i], OutputTables(p.kids[0].kids[1]))
      {
        RejectingIsByBranch(p.op.preds[i], OutputTables(p.kids[0].kids[1]));
      }
    }
  }

  // ---------------------------------------------------------------- re-ordering INNER joins

  /** A two-input INNER join whose row order may change. */
  predicate FreeInnerJoin(p: Plan) {
    p.op.Join? && p.op.kind == Inner && p.op.membership.None? && |p.kids| == 2 && p.perm == Arbitrary
  }

  lemma {:induction false} WithinBag(ps: seq<Pred>, tables: set<string>)
    ensures multiset(ps) == multiset(Within(ps, tables, true)) + multiset(Within(ps, tables, false))
  {
    if ps != [] {
      hide RefTables;
      var n := |ps| - 1;
      assert ps == ps[..n] + [ps[n]];
      WithinBag(ps[..n], tables);
    }
  }

  /** Some conjunct over just the tables of `x` and `y` names a table of each. */
  ghost predicate Joins(ps: seq<Pred>, x: Plan, y: Plan) {
    exists i :: 0 <= i < |ps| && Bindings(ps[i]) <= OutputTables(x) + OutputTables(y) &&
                Bindings(ps[i]) * OutputTables(x) != {} && Bindings(ps[i]) * OutputTables(y) != {}
  }

  ghost predicate NamesOnly(ps: seq<Pred>, tables: set<string>) {
    forall i | 0 <= i < |ps| :: Bindings(ps[i]) <= tables
  }

  lemma ConnectsIs(ps: seq<Pred>, x: Plan, y: Plan)
    ensures Connects(Within(ps, OutputTables(x) + OutputTables(y), true), OutputTables(x), OutputTables(y)) <==> Joins(ps, x, y)
  {
    hide RefTables, OutputTables, Bindings;
    var xt, yt := OutputTables(x), OutputTables(y);
    var inner := Within(ps, xt + yt, true);
    forall q ensures RefTables(q) == Bindings(q) {
      TablesAreBindings(q);
    }
    if Connects(inner, xt, yt) {
      var i :| 0 <= i < |inner| && RefTables(inner[i]) * xt != {} && RefTables(inner[i]) * yt != {};
      assert inner[i] in inner;
      var j :| 0 <= j < |ps| && ps[j] == inner[i];
    }
    if Joins(ps, x, y) {
      var j :| 0 <= j < |ps| && Bindings(ps[j]) <= xt + yt && Bindings(ps[j]) * xt != {} && Bindings(ps[j]) * yt != {};
      assert ps[j] in inner;
      var i :| 0 <= i < |inner| && inner[i] == ps[j];
    }
  }

  lemma NamesOnlyIs(ps: seq<Pred>, tables: set<string>)
    ensures AllWithin(ps, tables) <==> NamesOnly(ps, tables)
  {
    forall q ensures RefTables(q) == Bindings(q) {
      TablesAreBindings(q);
    }
  }

  /** (A join B) join C becomes A join (B join C) exactly when both joins are INNER and free to re-order, the upper conjuncts
    name only the three inputs, and one of them joins B and C. The conjuncts over B and C move into the new join. */
  lemma AssociateRightFires(p: Plan) returns (inner: seq<Pred>, rest: seq<Pred>)
    ensures AssociateRight(p).Some? <==>
            FreeInnerJoin(p) && FreeInnerJoin(p.kids[0]) &&
            var a, b, c := p.kids[0].kids[0], p.kids[0].kids[1], p.kids[1];
            NamesOnly(p.op.on, OutputTables(a) + OutputTables(b) + OutputTables(c)) && Joins(p.op.on, b, c)
    ensures AssociateRight(p).Some? ==>
              var a, b, c := p.kids[0].kids[0], p.kids[0].kids[1], p.kids[1];
              && AssociateRight(p).value ==
                 Node(p.perm, Join(Inner, p.kids[0].op.on + rest, None), [a, Node(p.perm, Join(Inner, inner, None), [b, c])])
              && multiset(p.op.on) == multiset(inner) + multiset(rest)
              && (forall q | q in inner :: Bindings(q) <= OutputTables(b) + OutputTables(c))
              && (forall q | q in rest :: !(Bindings(q) <= OutputTables(b) + OutputTables(c)))
  {
    inner, rest := [], [];
    if FreeInnerJoin(p) && FreeInnerJoin(p.kids[0]) {
      var a, b, c := p.kids[0].kids[0], p.kids[0].kids[1], p.kids[1];
      NamesOnlyIs(p.op.on, OutputTables(a) + OutputTables(b) + OutputTables(c));
      ConnectsIs(p.op.on, b, c);
      WithinBag(p.op.on, OutputTables(b) + OutputTables(c));
      inner, rest := Within(p.op.on, OutputTables(b) + OutputTables(c), true), Within(p.op.on, OutputTables(b) + OutputTables(c), false);
      forall q ensures RefTables(q) == Bindings(q) {
        TablesAreBindings(q);
      }
      hide RefTables, OutputTables, Bindings, Connects, Joins, AllWithin, NamesOnly;
    }
  }

  /** A join (B join C) becomes (A join B) join C under the mirrored conditions. */
  lemma AssociateLeftFires(p: Plan) returns (inner: seq<Pred>, rest: seq<Pred>)
    ensures AssociateLeft(p).Some? <==>
            FreeInnerJoin(p) && FreeInnerJoin(p.kids[1]) &&
            var a, b, c := p.kids[0], p.kids[1].kids[0], p.kids[1].kids[1];
            NamesOnly(p.op.on, OutputTables(a) + OutputTables(b) + OutputTables(c)) && Joins(p.op.on, a, b)
    ensures AssociateLeft(p).Some? ==>
              var a, b, c := p.kids[0], p.kids[1].kids[0], p.kids[1].kids[1];
              && AssociateLeft(p).value ==
                 Node(p.perm, Join(Inner, p.kids[1].op.on + rest, None), [Node(p.perm, Join(Inner, inner, None), [a, b]), c])
              && multiset(p.op.on) == multiset(inner) + multiset(rest)
              && (forall q | q in inner :: Bindings(q) <= OutputTables(a) + OutputTables(b))
              && (forall q | q in rest :: !(Bindings(q) <= OutputTables(a) + OutputTables(b)))
  {
    inner, rest := [], [];
    if FreeInnerJoin(p) && FreeInnerJoin(p.kids[1]) {
      var a, b, c := p.kids[0], p.kids[1].kids[0], p.kids[1].kids[1];
      NamesOnlyIs(p.op.on, OutputTables(a) + OutputTables(b) + OutputTables(c));
      ConnectsIs(p.op.on, a, b);
      WithinBag(p.op.on, OutputTables(a) + OutputTables(b));
      inner, rest := Within(p.op.on, OutputTables(a) + OutputTables(b), true), Within(p.op.on, OutputTables(a) + OutputTables(b), false);
      forall q ensures RefTables(q) == Bindings(q) {
        TablesAreBindings(q);
      }
      hide RefTables, OutputTables, Bindings, Connects, Joins, AllWithin, NamesOnly;
    }
  }

  /** Every INNER join free to re-order commutes, and commuting twice gives it back. */
  lemma CommuteFires(p: Plan)
    ensures JoinCommute(p).Some? <==> FreeInnerJoin(p)
    ensures JoinCommute(p).Some? ==>
              var q := JoinCommute(p).value;
              q.kids[0] == p.kids[1] && q.kids[1] == p.kids[0] && JoinCommute(q) == Some(p)
  {
    if FreeInnerJoin(p) {
      assert [p.kids[0], p.kids[1]] == p.kids;
    }
  }

  // ---------------------------------------------------------------- filters over aggregates

  /** A conjunct over group keys alone. */
  predicate NamesKeys(q: Pred, keys: seq<ColumnRef>) {
    Columns(q) != {} && forall id | id in Columns(q) :: exists k | 0 <= k < |keys| :: keys[k].id == id
  }

  lemma NamesKeysIs(q: Pred, keys: seq<ColumnRef>)
    ensures OnlyGroupKeys(q, keys) <==> NamesKeys(q, keys)
  {
    TablesAreBindings(q);
    hide RefColumns, Columns;
    if OnlyGroupKeys(q, keys) {
      forall id | id in Columns(q) ensures exists k | 0 <= k < |keys| :: keys[k].id == id {
        assert id in KeyNames(keys);
      }
    }
  }

  lemma {:induction false} PushableBag(ps: seq<Pred>, keys: seq<ColumnRef>)
    ensures multiset(ps) == multiset(Pushable(ps, keys, true)) + multiset(Pushable(ps, keys, false))
  {
    if ps != [] {
      hide OnlyGroupKeys;
      var n := |ps| - 1;
      assert ps == ps[..n] + [ps[n]];
      PushableBag(ps[..n], keys);
    }
  }

  /** A filter over an aggregate is split exactly when some conjunct names group keys and nothing else; those conjuncts, and
    no others, move below. */
  lemma ThroughAggregateFires(p: Plan) returns (pushed: seq<Pred>, stays: seq<Pred>)
    ensures FilterThroughAggregate(p).Some? <==>
            p.op.Filter? && |p.kids| == 1 && p.kids[0].op.Aggregate? && |p.kids[0].kids| == 1 &&
            exists i :: 0 <= i < |p.op.preds| && NamesKeys(p.op.preds[i], p.kids[0].op.keys)
    ensures FilterThroughAggregate(p).Some? ==>
              var agg, x := p.kids[0], p.kids[0].kids[0];
              && FilterThroughAggregate(p).value == Filtered(p.perm, stays, Node(p.perm, agg.op, [Filtered(x.perm, pushed, x)]))
              && multiset(p.op.preds) == multiset(pushed) + multiset(stays)
              && (forall q | q in pushed :: NamesKeys(q, agg.op.keys)) && (forall q | q in stays :: !NamesKeys(q, agg.op.keys))
  {
    pushed, stays := [], [];
    if p.op.Filter? && |p.kids| == 1 && p.kids[0].op.Aggregate? && |p.kids[0].kids| == 1 {
      var keys, ps := p.kids[0].op.keys, p.op.preds;
      forall q ensures OnlyGroupKeys(q, keys) <==> NamesKeys(q, keys) {
        NamesKeysIs(q, keys);
      }
      PushableBag(ps, keys);
      pushed, stays := Pushable(ps, keys, true), Pushable(ps, keys, false);
      hide OnlyGroupKeys, NamesKeys;
      if pushed != [] {
        assert pushed[0] in pushed;
        var i :| 0 <= i < |ps| && ps[i] == pushed[0];
      }
      if i :| 0 <= i < |ps| && NamesKeys(ps[i], keys) {
        assert ps[i] in pushed;
      }
    }
  }

  // ---------------------------------------------------------------- the tables a plan exposes

  /** A scan of the binding whose columns reach the top of the plan: through either side of an INNER or LEFT join, the left side
    of the others, and the input of any other operator. */
  ghost predicate Exposes(p: Plan, binding: string)
    decreases p
  {
    match p.op
    case Scan(_, b) => b == binding
    case Join(kind, _, _) =>
      |p.kids| == 2 && (Exposes(p.kids[0], binding) || ((kind == Inner || kind == JoinKind.Left) && Exposes(p.kids[1], binding)))
    case _ => p.kids != [] && Exposes(p.kids[0], binding)
  }

  lemma {:induction false} TablesExposed(p: Plan, binding: string)
    ensures binding in OutputTables(p) <==> Exposes(p, binding)
    decreases p
  {
    match p.op
    case Scan(_, _) =>
    case Join(kind, _, _) =>
      if |p.kids| == 2 {
        TablesExposed(p.kids[0], binding);
        TablesExposed(p.kids[1], binding);
      }
    case _ => if p.kids != [] { TablesExposed(p.kids[0], binding); }
  }

  /** Aggregates group by columns of their own block. */
  predicate GroupsByOwn(p: Plan)
    decreases p
  {
    && (p.op.Aggregate? ==> forall k | 0 <= k < |p.op.keys| :: p.op.keys[k].depth == 0)
    && forall i | 0 <= i < |p.kids| :: GroupsByOwn(p.kids[i])
  }

  ghost predicate FromTables(rel: Rel, tables: set<string>) {
    forall id | id in Names(rel.header) :: id.binding == "" || id.binding in tables
  }

  /** A column of a result is computed or belongs to a table the plan exposes. */
  lemma {:induction false} ColumnsAreExposed(p: Plan, outer: seq<Row>, db: Db)
    requires Eval(p, outer, db).Ok? && GroupsByOwn(p)
    ensures FromTables(Eval(p, outer, db).value, OutputTables(p))
    decreases p
  {
    hide FilterRel, JoinRel, AggregateRel, WindowRel, SortRel, SortProjected, ProjectRel, ScanRel, DistinctRel, LimitRel, OuterEnv, PredsFn, MemberFn, ProjectFn;
    if !p.op.Scan? {
      ColumnsAreExposed(p.kids[0], outer, db);
      if p.op.Join? { ColumnsAreExposed(p.kids[1], outer, db); }
    }
    HeaderOf(p, outer, db);
  }

  lemma HeaderOf(p: Plan, outer: seq<Row>, db: Db)
    requires Eval(p, outer, db).Ok? && GroupsByOwn(p)
    requires !p.op.Scan? ==> Eval(p.kids[0], outer, db).Ok? && FromTables(Eval(p.kids[0], outer, db).value, OutputTables(p.kids[0]))
    requires p.op.Join? ==> Eval(p.kids[1], outer, db).Ok? && FromTables(Eval(p.kids[1], outer, db).value, OutputTables(p.kids[1]))
    ensures FromTables(Eval(p, outer, db).value, OutputTables(p))
  {
    var out := Eval(p, outer, db).value;
    match p.op
    case Scan(_, binding) => assert out.header == Rename(binding, db[p.op.table].header);
    case Join(kind, _, _) =>
      var l, r := Eval(p.kids[0], outer, db).value, Eval(p.kids[1], outer, db).value;
      assert out.header == JoinHeader(kind, l.header, r.header);
      hide Eval;
      JoinFrom(kind, l, r, out, OutputTables(p.kids[0]), OutputTables(p.kids[1]));
    case Aggregate(keys, aggs) =>
      var l := Eval(p.kids[0], outer, db).value;
      assert AggregateRel(keys, aggs, l, OuterEnv(OwnColumns(p.op), outer)) == Ok(out);
      hide Eval;
      AggregateFrom(keys, aggs, l, out, OuterEnv(OwnColumns(p.op), outer), OutputTables(p.kids[0]));
    case Window(wins) =>
      var l := Eval(p.kids[0], outer, db).value;
      assert out.header == l.header + WindowHeader(wins);
      hide Eval;
      WindowFrom(wins, l, out, OutputTables(p.kids[0]));
    case Project(projs) => assert out.header == ProjectHeader(projs);
    case _ => assert out.header == Eval(p.kids[0], outer, db).value.header;
  }

  lemma JoinFrom(kind: JoinKind, l: Rel, r: Rel, out: Rel, lt: set<string>, rt: set<string>)
    requires out.header == JoinHeader(kind, l.header, r.header) && FromTables(l, lt) && FromTables(r, rt)
    ensures FromTables(out, if EmitsRight(kind) then lt + rt else lt)
  {
    forall id | id in Names(out.header) ensures id in Names(l.header) || (EmitsRight(kind) && id in Names(r.header)) {
      var i :| 0 <= i < |out.header| && out.header[i].id == id;
      if i < |l.header| { assert l.header[i].id == id; } else { assert r.header[i - |l.header|].id == id; }
    }
  }

  lemma AggregateFrom(keys: seq<ColumnRef>, aggs: seq<AggExpr>, l: Rel, out: Rel, env: Env, lt: set<string>)
    requires AggregateRel(keys, aggs, l, env) == Ok(out) && FromTables(l, lt)
    requires forall k | 0 <= k < |keys| :: keys[k].depth == 0
    ensures FromTables(out, lt)
  {
    assert out.header == AggregateHeader(keys, aggs) && AggregateResolves(keys, aggs, Names(l.header), env);
    hide AggregateRel;
    forall id | id in Names(out.header) ensures id.binding == "" || id in Names(l.header) {
      var i :| 0 <= i < |out.header| && out.header[i].id == id;
      if i < |keys| {
        assert Resolves(keys[i], Names(l.header), env);
      } else {
        assert out.header[|keys| + (i - |keys|)] == Field(Ident("", aggs[i - |keys|].name), aggs[i - |keys|].ty);
      }
    }
  }

  lemma WindowFrom(wins: seq<WinExpr>, l: Rel, out: Rel, lt: set<string>)
    requires out.header == l.header + WindowHeader(wins) && FromTables(l, lt)
    ensures FromTables(out, lt)
  {
    forall id | id in Names(out.header) ensures id.binding == "" || id in Names(l.header) {
      var i :| 0 <= i < |out.header| && out.header[i].id == id;
      if i < |l.header| { assert l.header[i].id == id; }
    }
  }
}
