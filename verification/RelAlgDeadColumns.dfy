/** Dead-column elimination: computed columns that nothing uses are dropped from the maps. */
module RelAlgDeadColumns {
  import opened RelAlgPlan
  import opened RelAlgFreeColumns

  function Keep(computed: seq<(Column, Expr)>, used: set<Column>): (r: seq<(Column, Expr)>)
    ensures |r| <= |computed|
  {
    if computed == [] then []
    else (if computed[0].0 in used then [computed[0]] else []) + Keep(computed[1..], used)
  }

  /** eliminateDeadColumns, and the replacement of a map that computes nothing any more. */
  function EliminateIn(child: Plan, computed: seq<(Column, Expr)>, used: set<Column>): Plan {
    var kept := Keep(computed, used);
    if |kept| == |computed| then MapOp(child, computed)
    else if kept == [] then child
    else MapOp(child, kept)
  }

  /** The pass over all operators. */
  function Eliminate(p: Plan, used: set<Column>): Plan {
    match p
    case BaseTable(_, _, _, _) => p
    case Selection(child, pred) => Selection(Eliminate(child, used), pred)
    case MapOp(child, computed) => EliminateIn(Eliminate(child, used), computed, used)
    case CrossProduct(l, r) => CrossProduct(Eliminate(l, used), Eliminate(r, used))
    case Join(kind, l, r, pred, lh, rh) => Join(kind, Eliminate(l, used), Eliminate(r, used), pred, lh, rh)
    case Aggregation(child, groupBy, aggregates) => Aggregation(Eliminate(child, used), groupBy, aggregates)
    case Projection(child, distinct, cols) => Projection(Eliminate(child, used), distinct, cols)
    case Renaming(child, renames) => Renaming(Eliminate(child, used), renames)
  }

  /** The columns that some operator of the plan uses. */
  function UsedWithin(p: Plan): set<Column> {
    match p
    case BaseTable(_, _, _, _) => {}
    case CrossProduct(l, r) => UsedWithin(l) + UsedWithin(r)
    case Join(_, l, r, _, _, _) => UsedWithin(l) + UsedWithin(r) + UsedBy(p)
    case _ => UsedWithin(p.child) + UsedBy(p)
  }

  /** The columns that elimination drops. */
  function Dropped(p: Plan, used: set<Column>): set<Column> {
    match p
    case BaseTable(_, _, _, _) => {}
    case MapOp(child, computed) => Dropped(child, used) + (Firsts(computed) - used)
    case CrossProduct(l, r) => Dropped(l, used) + Dropped(r, used)
    case Join(_, l, r, _, _, _) => Dropped(l, used) + Dropped(r, used)
    case _ => Dropped(p.child, used)
  }

  /** No operator sets a dropped column except the maps that are meant to lose it. */
  ghost predicate Droppable(p: Plan, dead: set<Column>, used: set<Column>) {
    match p
    case BaseTable(_, _, _, _) => Created(p) !! dead
    case MapOp(child, computed) => Droppable(child, dead, used) && Firsts(computed) * dead == Firsts(computed) - used
    case CrossProduct(l, r) => Droppable(l, dead, used) && Droppable(r, dead, used)
    case Join(_, l, r, _, _, _) => Droppable(l, dead, used) && Droppable(r, dead, used) && Created(p) !! dead
    case _ => Droppable(p.child, dead, used) && Created(p) !! dead
  }

  lemma {:induction false} DroppedIsCreated(p: Plan, used: set<Column>)
    ensures Dropped(p, used) <= CreatedWithin(p)
  {
    match p
    case BaseTable(_, _, _, _) =>
    case CrossProduct(l, r) =>
      DroppedIsCreated(l, used);
      DroppedIsCreated(r, used);
    case Join(_, l, r, _, _, _) =>
      DroppedIsCreated(l, used);
      DroppedIsCreated(r, used);
    case _ => DroppedIsCreated(p.child, used);
  }

  /** When every column is created once, the dropped columns of a larger plan are no trouble. */
  lemma {:induction false} DroppedIsDroppable(p: Plan, dead: set<Column>, used: set<Column>)
    requires CreatedOnce(p) && dead * CreatedWithin(p) == Dropped(p, used)
    ensures Droppable(p, dead, used)
  {
    DroppedIsCreated(p, used);
    match p
    case BaseTable(_, _, _, _) =>
      forall c | c in Created(p) ensures c !in dead { assert c !in dead * CreatedWithin(p); }
    case CrossProduct(l, r) =>
      DroppedIsCreated(l, used);
      DroppedIsCreated(r, used);
      DroppedIsDroppable(l, dead, used);
      DroppedIsDroppable(r, dead, used);
    case Join(_, l, r, _, _, _) =>
      DroppedIsCreated(l, used);
      DroppedIsCreated(r, used);
      DroppedIsDroppable(l, dead, used);
      DroppedIsDroppable(r, dead, used);
    case MapOp(child, computed) =>
      DroppedIsCreated(child, used);
      DroppedIsDroppable(child, dead, used);
    case _ =>
      DroppedIsCreated(p.child, used);
      assert dead * Created(p) == {};
      DroppedIsDroppable(p.child, dead, used);
  }

  // ---- Rows without the dropped columns -------------------------------------------------------

  function Strip(t: Row, dead: set<Column>): Row {
    map c | c in t && c !in dead :: t[c]
  }

  function StripAll(rows: seq<Row>, dead: set<Column>): (r: seq<Row>)
    ensures |r| == |rows|
    ensures forall i :: 0 <= i < |r| ==> r[i] == Strip(rows[i], dead)
  {
    seq(|rows|, i requires 0 <= i < |rows| => Strip(rows[i], dead))
  }

  lemma StripFirst(rows: seq<Row>, dead: set<Column>)
    requires rows != []
    ensures StripAll(rows, dead) == [Strip(rows[0], dead)] + StripAll(rows[1..], dead)
  {
  }

  lemma StripConcat(a: seq<Row>, b: seq<Row>, dead: set<Column>)
    ensures StripAll(a + b, dead) == StripAll(a, dead) + StripAll(b, dead)
  {
  }

  lemma StripSum(a: Row, b: Row, dead: set<Column>)
    ensures Strip(a + b, dead) == Strip(a, dead) + Strip(b, dead)
  {
  }

  /** The tuple that an expression sees. */
  lemma StripSeen(o: Row, row: Row, vis: set<Column>, dead: set<Column>)
    ensures Strip(o, dead) + Visible(Strip(row, dead), vis - dead) == Strip(o + Visible(row, vis), dead)
  {
    assert Visible(Strip(row, dead), vis - dead) == Strip(Visible(row, vis), dead);
    StripSum(o, Visible(row, vis), dead);
  }

  lemma StripEval(w: World, e: Expr, t: Row, dead: set<Column>)
    requires Used(e) !! dead
    ensures Eval(w, e, Strip(t, dead)) == Eval(w, e, t)
  {
    EvalDependsOnUsed(w, e, Strip(t, dead), t);
  }

  lemma StripKey(t: Row, cols: seq<Column>, dead: set<Column>)
    requires ColumnSet(cols) !! dead
    ensures KeyOf(Strip(t, dead), cols) == KeyOf(t, cols)
  {
    forall i | 0 <= i < |cols| ensures Get(Strip(t, dead), cols[i]) == Get(t, cols[i]) {
      assert cols[i] in ColumnSet(cols);
    }
  }

  lemma {:induction false} BaseStrip(columns: seq<(string, Column)>, recs: seq<map<string, Val>>, dead: set<Column>)
    requires Seconds(columns) !! dead
    ensures StripAll(BaseRows(columns, recs), dead) == BaseRows(columns, recs)
  {
    if recs != [] {
      BaseRowKeys(columns, recs[0]);
      assert Strip(BaseRow(columns, recs[0]), dead) == BaseRow(columns, recs[0]);
      StripFirst(BaseRows(columns, recs), dead);
      BaseStrip(columns, recs[1..], dead);
    }
  }

  lemma {:induction false} FilterStrip(w: World, pred: Expr, rows: seq<Row>, o: Row, vis: set<Column>, dead: set<Column>)
    requires Used(pred) !! dead
    ensures Filter(w, pred, StripAll(rows, dead), Strip(o, dead), vis - dead) == StripAll(Filter(w, pred, rows, o, vis), dead)
  {
    if rows != [] {
      StripFirst(rows, dead);
      StripSeen(o, rows[0], vis, dead);
      StripEval(w, pred, o + Visible(rows[0], vis), dead);
      FilterStrip(w, pred, rows[1..], o, vis, dead);
      StripConcat(if Holds(w, pred, o + Visible(rows[0], vis)) then [rows[0]] else [], Filter(w, pred, rows[1..], o, vis), dead);
      assert StripAll(rows, dead)[1..] == StripAll(rows[1..], dead);
    }
  }

  lemma {:induction false} ComputeStrip(w: World, computed: seq<(Column, Expr)>, used: set<Column>, t: Row, row: Row, dead: set<Column>)
    requires UsedAll(computed) !! dead
    requires forall p :: p in computed ==> (p.0 in dead <==> p.0 !in used)
    ensures Compute(w, Keep(computed, used), Strip(t, dead), Strip(row, dead)) == Strip(Compute(w, computed, t, row), dead)
    decreases |computed|
  {
    if computed != [] {
      var c := computed[0];
      assert c in computed && Used(c.1) <= UsedAll(computed);
      StripEval(w, c.1, t, dead);
      var row1 := row[c.0 := Eval(w, c.1, t)];
      assert UsedAll(computed[1..]) <= UsedAll(computed);
      ComputeStrip(w, computed[1..], used, t, row1, dead);
      if c.0 in used {
        assert Strip(row1, dead) == Strip(row, dead)[c.0 := Eval(w, c.1, t)];
        assert ([c] + Keep(computed[1..], used))[1..] == Keep(computed[1..], used);
      } else {
        assert Strip(row1, dead) == Strip(row, dead);
        assert [] + Keep(computed[1..], used) == Keep(computed[1..], used);
      }
    }
  }

  lemma {:induction false} MapStrip(w: World, computed: seq<(Column, Expr)>, used: set<Column>, rows: seq<Row>, o: Row, vis: set<Column>, dead: set<Column>)
    requires UsedAll(computed) !! dead
    requires forall p :: p in computed ==> (p.0 in dead <==> p.0 !in used)
    ensures MapRows(w, Keep(computed, used), StripAll(rows, dead), Strip(o, dead), vis - dead)
         == StripAll(MapRows(w, computed, rows, o, vis), dead)
  {
    if rows != [] {
      StripFirst(rows, dead);
      StripSeen(o, rows[0], vis, dead);
      ComputeStrip(w, computed, used, o + Visible(rows[0], vis), rows[0], dead);
      MapStrip(w, computed, used, rows[1..], o, vis, dead);
      StripFirst(MapRows(w, computed, rows, o, vis), dead);
      assert StripAll(rows, dead)[1..] == StripAll(rows[1..], dead);
    }
  }

  lemma {:induction false} MapNothing(w: World, rows: seq<Row>, o: Row, vis: set<Column>)
    ensures MapRows(w, [], rows, o, vis) == rows
  {
    if rows != [] { MapNothing(w, rows[1..], o, vis); }
  }

  lemma {:induction false} KeepAll(computed: seq<(Column, Expr)>, used: set<Column>)
    ensures |Keep(computed, used)| == |computed| ==> Keep(computed, used) == computed
  {
    if computed != [] { KeepAll(computed[1..], used); }
  }

  lemma {:induction false} KeepFirsts(computed: seq<(Column, Expr)>, used: set<Column>)
    ensures Firsts(Keep(computed, used)) == Firsts(computed) * used
  {
    if computed != [] {
      KeepFirsts(computed[1..], used);
      var kept := Keep(computed[1..], used);
      forall c ensures c in Firsts(computed) <==> c == computed[0].0 || c in Firsts(computed[1..]) {
        FirstsSplit(computed, c);
      }
      forall c ensures c in Firsts([computed[0]] + kept) <==> c == computed[0].0 || c in Firsts(kept) {
        FirstsSplit([computed[0]] + kept, c);
        assert ([computed[0]] + kept)[1..] == kept;
      }
      assert [] + kept == kept;
    }
  }

  lemma FirstsSplit(computed: seq<(Column, Expr)>, c: Column)
    requires computed != []
    ensures c in Firsts(computed) <==> c == computed[0].0 || c in Firsts(computed[1..])
  {
    if c in Firsts(computed) {
      var i :| 0 <= i < |computed| && computed[i].0 == c;
      if i > 0 { assert computed[i] == computed[1..][i - 1]; }
    }
    if c in Firsts(computed[1..]) {
      var i :| 0 <= i < |computed[1..]| && computed[1..][i].0 == c;
      assert computed[i + 1] in computed;
    }
    assert computed[0] in computed;
  }

  lemma {:induction false} MatchesStrip(w: World, pred: Expr, rights: seq<Row>, t: Row, vis: set<Column>, dead: set<Column>)
    requires Used(pred) !! dead
    ensures Matches(w, pred, StripAll(rights, dead), Strip(t, dead), vis - dead) == StripAll(Matches(w, pred, rights, t, vis), dead)
  {
    if rights != [] {
      StripFirst(rights, dead);
      StripSeen(t, rights[0], vis, dead);
      StripEval(w, pred, t + Visible(rights[0], vis), dead);
      MatchesStrip(w, pred, rights[1..], t, vis, dead);
      StripConcat(if Holds(w, pred, t + Visible(rights[0], vis)) then [rights[0]] else [], Matches(w, pred, rights[1..], t, vis), dead);
      assert StripAll(rights, dead)[1..] == StripAll(rights[1..], dead);
    }
  }

  lemma {:induction false} PairStrip(l: Row, rights: seq<Row>, dead: set<Column>)
    ensures Pair(Strip(l, dead), StripAll(rights, dead)) == StripAll(Pair(l, rights), dead)
  {
    if rights != [] {
      StripFirst(rights, dead);
      StripSum(l, rights[0], dead);
      PairStrip(l, rights[1..], dead);
      StripFirst(Pair(l, rights), dead);
      assert StripAll(rights, dead)[1..] == StripAll(rights[1..], dead);
    }
  }

  lemma {:induction false} MappedStrip(mapping: seq<(Column, Column)>, t: Row, row: Row, dead: set<Column>)
    requires Firsts(mapping) !! dead && Seconds(mapping) !! dead
    ensures Mapped(mapping, Strip(t, dead), Strip(row, dead)) == Strip(Mapped(mapping, t, row), dead)
    decreases |mapping|
  {
    if mapping != [] {
      var c := mapping[0];
      assert c in mapping && c.0 in Firsts(mapping) && c.1 in Seconds(mapping);
      assert Firsts(mapping[1..]) <= Firsts(mapping) && Seconds(mapping[1..]) <= Seconds(mapping);
      var row1 := row[c.0 := Get(t, c.1)];
      assert Strip(row1, dead) == Strip(row, dead)[c.0 := Get(Strip(t, dead), c.1)];
      MappedStrip(mapping[1..], t, row1, dead);
    }
  }

  lemma {:induction false} OuterStrip(mapping: seq<(Column, Column)>, l: Row, matches: seq<Row>, t: Row, vis: set<Column>, dead: set<Column>)
    requires Firsts(mapping) !! dead && Seconds(mapping) !! dead
    ensures OuterRows(mapping, Strip(l, dead), StripAll(matches, dead), Strip(t, dead), vis - dead)
         == StripAll(OuterRows(mapping, l, matches, t, vis), dead)
  {
    if matches != [] {
      StripFirst(matches, dead);
      StripSeen(t, matches[0], vis, dead);
      MappedStrip(mapping, t + Visible(matches[0], vis), l, dead);
      OuterStrip(mapping, l, matches[1..], t, vis, dead);
      StripFirst(OuterRows(mapping, l, matches, t, vis), dead);
      assert StripAll(matches, dead)[1..] == StripAll(matches[1..], dead);
    }
  }

  ghost predicate KindKept(kind: JoinKind, dead: set<Column>) {
    CreatedByJoin(kind) !! dead && (kind.Outer? ==> Seconds(kind.mapping) !! dead)
  }

  lemma JoinOneStrip(kind: JoinKind, l: Row, matches: seq<Row>, t: Row, vis: set<Column>, dead: set<Column>)
    requires KindKept(kind, dead)
    ensures JoinOne(kind, Strip(l, dead), StripAll(matches, dead), Strip(t, dead), vis - dead)
         == StripAll(JoinOne(kind, l, matches, t, vis), dead)
  {
    assert StripAll(matches, dead) == [] <==> matches == [];
    match kind
    case Inner => PairStrip(l, matches, dead);
    case Semi =>
    case AntiSemi =>
    case Mark(m) => assert Strip(l[m := Bool(matches != [])], dead) == Strip(l, dead)[m := Bool(matches != [])];
    case Outer(mapping) =>
      OuterStrip(mapping, l, matches, t, vis, dead);
      MappedStrip(mapping, map[], l, dead);
      assert Strip(map[], dead) == map[];
  }

  function StripEach(rights: seq<seq<Row>>, dead: set<Column>): (r: seq<seq<Row>>)
    ensures |r| == |rights|
    ensures forall i :: 0 <= i < |r| ==> r[i] == StripAll(rights[i], dead)
  {
    seq(|rights|, i requires 0 <= i < |rights| => StripAll(rights[i], dead))
  }

  lemma StripEachFirst(rights: seq<seq<Row>>, dead: set<Column>)
    requires rights != []
    ensures StripEach(rights, dead) == [StripAll(rights[0], dead)] + StripEach(rights[1..], dead)
  {
  }

  lemma {:induction false} JoinStrip(w: World, kind: JoinKind, pred: Expr, lefts: seq<Row>, rights: seq<seq<Row>>, o: Row,
                                     visL: set<Column>, visR: set<Column>, dead: set<Column>)
    requires |lefts| == |rights| && Used(pred) !! dead && KindKept(kind, dead)
    ensures JoinRows(w, kind, pred, StripAll(lefts, dead), StripEach(rights, dead), Strip(o, dead), visL - dead, visR - dead)
         == StripAll(JoinRows(w, kind, pred, lefts, rights, o, visL, visR), dead)
  {
    if lefts != [] {
      var t := o + Visible(lefts[0], visL);
      var matches := Matches(w, pred, rights[0], t, visR);
      StripSeen(o, lefts[0], visL, dead);
      MatchesStrip(w, pred, rights[0], t, visR, dead);
      JoinOneStrip(kind, lefts[0], matches, t, visR, dead);
      JoinStrip(w, kind, pred, lefts[1..], rights[1..], o, visL, visR, dead);
      StripConcat(JoinOne(kind, lefts[0], matches, t, visR), JoinRows(w, kind, pred, lefts[1..], rights[1..], o, visL, visR), dead);
      assert StripAll(lefts, dead)[1..] == StripAll(lefts[1..], dead);
      assert StripEach(rights, dead)[1..] == StripEach(rights[1..], dead);
    }
  }

  lemma {:induction false} InGroupStrip(rows: seq<Row>, cols: seq<Column>, key: seq<Val>, o: Row, vis: set<Column>, dead: set<Column>)
    requires ColumnSet(cols) !! dead
    ensures InGroup(StripAll(rows, dead), cols, key, Strip(o, dead), vis - dead) == StripAll(InGroup(rows, cols, key, o, vis), dead)
  {
    if rows != [] {
      StripSeen(o, rows[0], vis, dead);
      StripKey(o + Visible(rows[0], vis), cols, dead);
      InGroupStrip(rows[1..], cols, key, o, vis, dead);
      var here := KeyOf(o + Visible(rows[0], vis), cols) == key;
      StripConcat(if here then [rows[0]] else [], InGroup(rows[1..], cols, key, o, vis), dead);
      assert StripAll(rows, dead)[1..] == StripAll(rows[1..], dead);
    }
  }

  lemma {:induction false} OutOfGroupStrip(rows: seq<Row>, cols: seq<Column>, key: seq<Val>, o: Row, vis: set<Column>, dead: set<Column>)
    requires ColumnSet(cols) !! dead
    ensures OutOfGroup(StripAll(rows, dead), cols, key, Strip(o, dead), vis - dead) == StripAll(OutOfGroup(rows, cols, key, o, vis), dead)
  {
    if rows != [] {
      StripSeen(o, rows[0], vis, dead);
      StripKey(o + Visible(rows[0], vis), cols, dead);
      OutOfGroupStrip(rows[1..], cols, key, o, vis, dead);
      var here := KeyOf(o + Visible(rows[0], vis), cols) == key;
      StripConcat(if here then [] else [rows[0]], OutOfGroup(rows[1..], cols, key, o, vis), dead);
      assert StripAll(rows, dead)[1..] == StripAll(rows[1..], dead);
    }
  }

  lemma {:induction false} ArgsStrip(rows: seq<Row>, c: Column, o: Row, vis: set<Column>, dead: set<Column>)
    requires c !in dead
    ensures ArgValues(StripAll(rows, dead), c, Strip(o, dead), vis - dead) == ArgValues(rows, c, o, vis)
  {
    if rows != [] {
      StripSeen(o, rows[0], vis, dead);
      ArgsStrip(rows[1..], c, o, vis, dead);
      assert StripAll(rows, dead)[1..] == StripAll(rows[1..], dead);
    }
  }

  lemma {:induction false} SummarizeStrip(w: World, aggregates: seq<Aggregate>, group: seq<Row>, o: Row, vis: set<Column>, row: Row, dead: set<Column>)
    requires AggregateColumns(aggregates) !! dead && Args(aggregates) !! dead
    ensures Summarize(w, aggregates, StripAll(group, dead), Strip(o, dead), vis - dead, Strip(row, dead))
         == Strip(Summarize(w, aggregates, group, o, vis, row), dead)
    decreases |aggregates|
  {
    if aggregates != [] {
      var a := aggregates[0];
      assert a in aggregates && a.col in AggregateColumns(aggregates) && a.arg in Args(aggregates);
      assert AggregateColumns(aggregates[1..]) <= AggregateColumns(aggregates) && Args(aggregates[1..]) <= Args(aggregates);
      ArgsStrip(group, a.arg, o, vis, dead);
      var v := w.aggregate(a.code, ArgValues(group, a.arg, o, vis));
      assert Strip(row[a.col := v], dead) == Strip(row, dead)[a.col := v];
      SummarizeStrip(w, aggregates[1..], group, o, vis, row[a.col := v], dead);
    }
  }

  lemma {:induction false} GroupsStrip(w: World, groupBy: seq<Column>, aggregates: seq<Aggregate>, rows: seq<Row>, o: Row, vis: set<Column>, dead: set<Column>)
    requires ColumnSet(groupBy) !! dead && AggregateColumns(aggregates) !! dead && Args(aggregates) !! dead
    ensures Groups(w, groupBy, aggregates, StripAll(rows, dead), Strip(o, dead), vis - dead)
         == StripAll(Groups(w, groupBy, aggregates, rows, o, vis), dead)
    decreases |rows|
  {
    if rows != [] {
      var key := KeyOf(o + Visible(rows[0], vis), groupBy);
      StripSeen(o, rows[0], vis, dead);
      StripKey(o + Visible(rows[0], vis), groupBy, dead);
      InGroupStrip(rows, groupBy, key, o, vis, dead);
      OutOfGroupStrip(rows[1..], groupBy, key, o, vis, dead);
      SummarizeStrip(w, aggregates, InGroup(rows, groupBy, key, o, vis), o, vis, rows[0], dead);
      GroupsStrip(w, groupBy, aggregates, OutOfGroup(rows[1..], groupBy, key, o, vis), o, vis, dead);
      StripFirst(Groups(w, groupBy, aggregates, rows, o, vis), dead);
      assert StripAll(rows, dead)[1..] == StripAll(rows[1..], dead);
    }
  }

  lemma {:induction false} DistinctStrip(cols: seq<Column>, rows: seq<Row>, o: Row, vis: set<Column>, dead: set<Column>)
    requires ColumnSet(cols) !! dead
    ensures Distinct(cols, StripAll(rows, dead), Strip(o, dead), vis - dead) == StripAll(Distinct(cols, rows, o, vis), dead)
    decreases |rows|
  {
    if rows != [] {
      var key := KeyOf(o + Visible(rows[0], vis), cols);
      StripSeen(o, rows[0], vis, dead);
      StripKey(o + Visible(rows[0], vis), cols, dead);
      OutOfGroupStrip(rows[1..], cols, key, o, vis, dead);
      DistinctStrip(cols, OutOfGroup(rows[1..], cols, key, o, vis), o, vis, dead);
      StripFirst(Distinct(cols, rows, o, vis), dead);
      assert StripAll(rows, dead)[1..] == StripAll(rows[1..], dead);
    }
  }

  lemma {:induction false} RenamedStrip(columns: seq<(Column, Column)>, rows: seq<Row>, o: Row, vis: set<Column>, dead: set<Column>)
    requires Firsts(columns) !! dead && Seconds(columns) !! dead
    ensures Renamed(columns, StripAll(rows, dead), Strip(o, dead), vis - dead) == StripAll(Renamed(columns, rows, o, vis), dead)
  {
    if rows != [] {
      StripSeen(o, rows[0], vis, dead);
      MappedStrip(columns, o + Visible(rows[0], vis), rows[0], dead);
      RenamedStrip(columns, rows[1..], o, vis, dead);
      StripFirst(Renamed(columns, rows, o, vis), dead);
      assert StripAll(rows, dead)[1..] == StripAll(rows[1..], dead);
    }
  }

  // ---- The theorem ----------------------------------------------------------------------------

  lemma OutputOfMap(child: Plan, reduced: Plan, computed: seq<(Column, Expr)>, used: set<Column>, dead: set<Column>)
    requires Output(reduced) == Output(child) - dead && Firsts(computed) * dead == Firsts(computed) - used && dead !! used
    ensures Output(EliminateIn(reduced, computed, used)) == Output(MapOp(child, computed)) - dead
  {
    var kept := Keep(computed, used);
    KeepFirsts(computed, used);
    KeepAll(computed, used);
    forall c ensures c in Firsts(kept) <==> c in Firsts(computed) && c !in dead {
      assert c in Firsts(computed) * dead <==> c in Firsts(computed) - used;
      assert c in Firsts(kept) <==> c in Firsts(computed) * used;
    }
    assert Output(reduced) + Firsts(kept) == Output(child) + Firsts(computed) - dead;
    if kept == [] { assert Firsts(kept) == {}; }
  }

  /** Elimination drops the dead columns and no others from what an operator outputs. */
  lemma {:induction false} OutputStrip(p: Plan, used: set<Column>, dead: set<Column>)
    requires Droppable(p, dead, used) && UsedWithin(p) <= used && dead !! used
    ensures Output(Eliminate(p, used)) == Output(p) - dead
  {
    match p
    case BaseTable(_, _, _, _) =>
    case CrossProduct(l, r) =>
      OutputStrip(l, used, dead);
      OutputStrip(r, used, dead);
    case Join(_, l, r, _, _, _) =>
      OutputStrip(l, used, dead);
      OutputStrip(r, used, dead);
    case MapOp(child, computed) =>
      OutputStrip(child, used, dead);
      OutputOfMap(child, Eliminate(child, used), computed, used, dead);
    case _ => OutputStrip(p.child, used, dead);
  }

  /** The rows of the reduced plan are the rows of the plan without the dead columns, even when the
      enclosing tuple has lost them too. */
  lemma {:induction false} EliminateStrips(w: World, p: Plan, used: set<Column>, dead: set<Column>, o: Row)
    requires Droppable(p, dead, used) && UsedWithin(p) <= used && dead !! used
    ensures Rows(w, Eliminate(p, used), Strip(o, dead)) == StripAll(Rows(w, p, o), dead)
    decreases p, 0
  {
    match p
    case BaseTable(table, columns, _, _) => BaseStrip(columns, if table in w.db then w.db[table] else [], dead);
    case CrossProduct(l, r) =>
      EliminateStrips(w, l, used, dead, o);
      OutputStrip(l, used, dead);
      OutputStrip(r, used, dead);
      RightsStrip(w, Rows(w, l, o), r, used, dead, o, Output(l));
      JoinStrip(w, Inner, Constant(Bool(true)), Rows(w, l, o), RightRows(w, Rows(w, l, o), r, o, Output(l)), o, Output(l), Output(r), dead);
    case Join(kind, l, r, pred, lh, rh) =>
      EliminateStrips(w, l, used, dead, o);
      OutputStrip(l, used, dead);
      OutputStrip(r, used, dead);
      RightsStrip(w, Rows(w, l, o), r, used, dead, o, Output(l));
      JoinStrip(w, kind, pred, Rows(w, l, o), RightRows(w, Rows(w, l, o), r, o, Output(l)), o, Output(l), Output(r), dead);
    case _ =>
      EliminateStrips(w, p.child, used, dead, o);
      OutputStrip(p.child, used, dead);
      UnaryStrip(w, p, used, dead, o);
  }

  lemma UnaryStrip(w: World, p: Plan, used: set<Column>, dead: set<Column>, o: Row)
    requires !p.BaseTable? && !p.CrossProduct? && !p.Join?
    requires Droppable(p, dead, used) && UsedWithin(p) <= used && dead !! used
    requires Rows(w, Eliminate(p.child, used), Strip(o, dead)) == StripAll(Rows(w, p.child, o), dead)
    requires Output(Eliminate(p.child, used)) == Output(p.child) - dead
    ensures Rows(w, Eliminate(p, used), Strip(o, dead)) == StripAll(Rows(w, p, o), dead)
  {
    var rows, vis := Rows(w, p.child, o), Output(p.child);
    match p
    case Selection(_, pred) => FilterStrip(w, pred, rows, o, vis, dead);
    case MapOp(_, computed) => MapOpStrip(w, p, used, dead, o);
    case Aggregation(_, groupBy, aggregates) => AggregationStrip(w, p, rows, dead, o);
    case Projection(_, distinct, cols) => if distinct { DistinctStrip(cols, rows, o, vis, dead); }
    case Renaming(_, renames) => RenamedStrip(renames, rows, o, vis, dead);
  }

  lemma AggregationStrip(w: World, p: Plan, rows: seq<Row>, dead: set<Column>, o: Row)
    requires p.Aggregation? && Created(p) !! dead && UsedBy(p) !! dead
    ensures Aggregated(w, p.groupBy, p.aggregates, StripAll(rows, dead), Strip(o, dead), Output(p.child) - dead)
         == StripAll(Aggregated(w, p.groupBy, p.aggregates, rows, o, Output(p.child)), dead)
  {
    assert AggregateColumns(p.aggregates) == Created(p) && Args(p.aggregates) <= UsedBy(p);
    GroupsStrip(w, p.groupBy, p.aggregates, rows, o, Output(p.child), dead);
    SummarizeStrip(w, p.aggregates, rows, o, Output(p.child), if rows == [] then map[] else rows[0], dead);
    assert Strip(map[], dead) == map[];
  }

  lemma MapOpStrip(w: World, p: Plan, used: set<Column>, dead: set<Column>, o: Row)
    requires p.MapOp? && Droppable(p, dead, used) && UsedWithin(p) <= used && dead !! used
    requires Rows(w, Eliminate(p.child, used), Strip(o, dead)) == StripAll(Rows(w, p.child, o), dead)
    requires Output(Eliminate(p.child, used)) == Output(p.child) - dead
    ensures Rows(w, Eliminate(p, used), Strip(o, dead)) == StripAll(Rows(w, p, o), dead)
  {
    var rows, vis := Rows(w, p.child, o), Output(p.child);
    forall c | c in p.computed ensures c.0 in dead <==> c.0 !in used {
      assert c.0 in Firsts(p.computed);
      assert c.0 in Firsts(p.computed) * dead <==> c.0 in Firsts(p.computed) - used;
    }
    MapStrip(w, p.computed, used, rows, o, vis, dead);
    KeepAll(p.computed, used);
    MapNothing(w, StripAll(rows, dead), Strip(o, dead), vis - dead);
  }

  lemma {:induction false} RightsStrip(w: World, lefts: seq<Row>, r: Plan, used: set<Column>, dead: set<Column>, o: Row, visL: set<Column>)
    requires Droppable(r, dead, used) && UsedWithin(r) <= used && dead !! used
    ensures RightRows(w, StripAll(lefts, dead), Eliminate(r, used), Strip(o, dead), visL - dead)
         == StripEach(RightRows(w, lefts, r, o, visL), dead)
    decreases r, 1 + |lefts|
  {
    if lefts != [] {
      var t := o + Visible(lefts[0], visL);
      StripSeen(o, lefts[0], visL, dead);
      EliminateStrips(w, r, used, dead, t);
      RightsStrip(w, lefts[1..], r, used, dead, o, visL);
      assert StripAll(lefts, dead)[1..] == StripAll(lefts[1..], dead);
      var rights := RightRows(w, lefts, r, o, visL);
      StripEachFirst(rights, dead);
      assert rights[0] == Rows(w, r, t) && rights[1..] == RightRows(w, lefts[1..], r, o, visL);
    }
  }
}
