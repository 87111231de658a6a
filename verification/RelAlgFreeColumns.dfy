/**
 * A plan reads the enclosing tuple only through its free columns, and the inputs
 * of a join that is not dependent can be evaluated apart.
 */
module RelAlgFreeColumns {
  import opened RelAlgPlan

  /** Every column is created once; grouping and projection columns come from the input. */
  ghost predicate CreatedOnce(p: Plan) {
    match p
    case BaseTable(_, _, _, _) => true
    case CrossProduct(l, r) => CreatedOnce(l) && CreatedOnce(r) && CreatedWithin(l) !! CreatedWithin(r)
    case Join(_, l, r, _, _, _) =>
      && CreatedOnce(l) && CreatedOnce(r)
      && CreatedWithin(l) !! CreatedWithin(r) && Created(p) !! CreatedWithin(l) + CreatedWithin(r)
    case Aggregation(child, groupBy, _) =>
      CreatedOnce(child) && Created(p) !! CreatedWithin(child) && ColumnSet(groupBy) <= CreatedWithin(child)
    case Projection(child, _, cols) => CreatedOnce(child) && ColumnSet(cols) <= CreatedWithin(child)
    case _ => CreatedOnce(p.child) && Created(p) !! CreatedWithin(p.child)
  }

  ghost predicate AgreeOn(s: Row, t: Row, cs: set<Column>) {
    forall c :: c in cs ==> Get(s, c) == Get(t, c)
  }

  /** None of the columns is bound. */
  ghost predicate Unbound(t: Row, cs: set<Column>) {
    forall c :: c in cs ==> c !in t
  }

  /** Every row binds columns of cs only. */
  ghost predicate Within(rows: seq<Row>, cs: set<Column>) {
    forall row :: row in rows ==> row.Keys <= cs
  }

  // ---- Expressions ----------------------------------------------------------------------

  /** An expression reads the columns it uses and no others. */
  lemma {:induction false} EvalDependsOnUsed(w: World, e: Expr, s: Row, t: Row)
    requires AgreeOn(s, t, Used(e))
    ensures Eval(w, e, s) == Eval(w, e, t)
  {
    match e
    case GetColumn(c) => assert c in Used(e);
    case Constant(v) =>
    case CmpEq(l, r) =>
      EvalDependsOnUsed(w, l, s, t);
      EvalDependsOnUsed(w, r, s, t);
    case Call(code, args) =>
      forall i | 0 <= i < |args| ensures Eval(w, args[i], s) == Eval(w, args[i], t) {
        assert Used(args[i]) <= Used(e);
        EvalDependsOnUsed(w, args[i], s, t);
      }
      assert seq(|args|, i requires 0 <= i < |args| => Eval(w, args[i], s))
          == seq(|args|, i requires 0 <= i < |args| => Eval(w, args[i], t));
  }

  lemma AgreeUnder(s: Row, t: Row, v: Row, cs: set<Column>)
    requires AgreeOn(s, t, cs)
    ensures AgreeOn(s + v, t + v, cs)
  {
    forall c | c in cs ensures Get(s + v, c) == Get(t + v, c) {
      assert Get(s, c) == Get(t, c);
    }
  }

  /** Agreement on the free columns of an operator and on what its inputs leave unbound. */
  lemma AgreeWithAvailable(s: Row, t: Row, free: set<Column>, all: set<Column>, below: set<Column>)
    requires AgreeOn(s, t, free) && all - below <= free && Unbound(s, below) && Unbound(t, below)
    ensures AgreeOn(s, t, all)
  {
    forall c | c in all ensures Get(s, c) == Get(t, c) {
      if c !in below { assert c in free; }
    }
  }

  // ---- Row functions depend on the enclosing tuple through the columns they use -----------

  lemma {:induction false} FilterSame(w: World, pred: Expr, rows: seq<Row>, s: Row, t: Row, vis: set<Column>)
    requires AgreeOn(s, t, Used(pred))
    ensures Filter(w, pred, rows, s, vis) == Filter(w, pred, rows, t, vis)
  {
    if rows != [] {
      AgreeUnder(s, t, Visible(rows[0], vis), Used(pred));
      EvalDependsOnUsed(w, pred, s + Visible(rows[0], vis), t + Visible(rows[0], vis));
      FilterSame(w, pred, rows[1..], s, t, vis);
    }
  }

  lemma {:induction false} ComputeSame(w: World, computed: seq<(Column, Expr)>, s: Row, t: Row, row: Row)
    requires AgreeOn(s, t, UsedAll(computed))
    ensures Compute(w, computed, s, row) == Compute(w, computed, t, row)
    decreases |computed|
  {
    if computed != [] {
      assert computed[0] in computed;
      assert Used(computed[0].1) <= UsedAll(computed);
      EvalDependsOnUsed(w, computed[0].1, s, t);
      assert UsedAll(computed[1..]) <= UsedAll(computed);
      ComputeSame(w, computed[1..], s, t, row[computed[0].0 := Eval(w, computed[0].1, s)]);
    }
  }

  lemma {:induction false} MapSame(w: World, computed: seq<(Column, Expr)>, rows: seq<Row>, s: Row, t: Row, vis: set<Column>)
    requires AgreeOn(s, t, UsedAll(computed))
    ensures MapRows(w, computed, rows, s, vis) == MapRows(w, computed, rows, t, vis)
  {
    if rows != [] {
      AgreeUnder(s, t, Visible(rows[0], vis), UsedAll(computed));
      ComputeSame(w, computed, s + Visible(rows[0], vis), t + Visible(rows[0], vis), rows[0]);
      MapSame(w, computed, rows[1..], s, t, vis);
    }
  }

  lemma {:induction false} MatchesSame(w: World, pred: Expr, rights: seq<Row>, s: Row, t: Row, vis: set<Column>)
    requires AgreeOn(s, t, Used(pred))
    ensures Matches(w, pred, rights, s, vis) == Matches(w, pred, rights, t, vis)
  {
    if rights != [] {
      AgreeUnder(s, t, Visible(rights[0], vis), Used(pred));
      EvalDependsOnUsed(w, pred, s + Visible(rights[0], vis), t + Visible(rights[0], vis));
      MatchesSame(w, pred, rights[1..], s, t, vis);
    }
  }

  lemma {:induction false} MappedSame(mapping: seq<(Column, Column)>, s: Row, t: Row, row: Row)
    requires AgreeOn(s, t, Seconds(mapping))
    ensures Mapped(mapping, s, row) == Mapped(mapping, t, row)
    decreases |mapping|
  {
    if mapping != [] {
      assert mapping[0] in mapping && mapping[0].1 in Seconds(mapping);
      assert Seconds(mapping[1..]) <= Seconds(mapping);
      MappedSame(mapping[1..], s, t, row[mapping[0].0 := Get(s, mapping[0].1)]);
    }
  }

  lemma {:induction false} OuterSame(mapping: seq<(Column, Column)>, l: Row, matches: seq<Row>, s: Row, t: Row, vis: set<Column>)
    requires AgreeOn(s, t, Seconds(mapping))
    ensures OuterRows(mapping, l, matches, s, vis) == OuterRows(mapping, l, matches, t, vis)
  {
    if matches != [] {
      AgreeUnder(s, t, Visible(matches[0], vis), Seconds(mapping));
      MappedSame(mapping, s + Visible(matches[0], vis), t + Visible(matches[0], vis), l);
      OuterSame(mapping, l, matches[1..], s, t, vis);
    }
  }

  lemma {:induction false} JoinSame(w: World, kind: JoinKind, pred: Expr, lefts: seq<Row>, rights: seq<seq<Row>>,
                                    s: Row, t: Row, visL: set<Column>, visR: set<Column>)
    requires |lefts| == |rights| && AgreeOn(s, t, Used(pred))
    requires kind.Outer? ==> AgreeOn(s, t, Seconds(kind.mapping))
    ensures JoinRows(w, kind, pred, lefts, rights, s, visL, visR) == JoinRows(w, kind, pred, lefts, rights, t, visL, visR)
  {
    if lefts != [] {
      var v := Visible(lefts[0], visL);
      AgreeUnder(s, t, v, Used(pred));
      MatchesSame(w, pred, rights[0], s + v, t + v, visR);
      if kind.Outer? {
        AgreeUnder(s, t, v, Seconds(kind.mapping));
        OuterSame(kind.mapping, lefts[0], Matches(w, pred, rights[0], s + v, visR), s + v, t + v, visR);
      }
      JoinSame(w, kind, pred, lefts[1..], rights[1..], s, t, visL, visR);
    }
  }

  lemma KeySame(cols: seq<Column>, s: Row, t: Row, v: Row)
    requires AgreeOn(s, t, ColumnSet(cols))
    ensures KeyOf(s + v, cols) == KeyOf(t + v, cols)
  {
    AgreeUnder(s, t, v, ColumnSet(cols));
    forall i | 0 <= i < |cols| ensures Get(s + v, cols[i]) == Get(t + v, cols[i]) {
      assert cols[i] in ColumnSet(cols);
    }
  }

  lemma {:induction false} GroupSame(rows: seq<Row>, cols: seq<Column>, key: seq<Val>, s: Row, t: Row, vis: set<Column>)
    requires AgreeOn(s, t, ColumnSet(cols))
    ensures InGroup(rows, cols, key, s, vis) == InGroup(rows, cols, key, t, vis)
    ensures OutOfGroup(rows, cols, key, s, vis) == OutOfGroup(rows, cols, key, t, vis)
  {
    if rows != [] {
      KeySame(cols, s, t, Visible(rows[0], vis));
      GroupSame(rows[1..], cols, key, s, t, vis);
    }
  }

  lemma {:induction false} ArgsSame(rows: seq<Row>, c: Column, s: Row, t: Row, vis: set<Column>)
    requires Get(s, c) == Get(t, c)
    ensures ArgValues(rows, c, s, vis) == ArgValues(rows, c, t, vis)
  {
    if rows != [] {
      AgreeUnder(s, t, Visible(rows[0], vis), {c});
      ArgsSame(rows[1..], c, s, t, vis);
    }
  }

  function Args(aggregates: seq<Aggregate>): set<Column> {
    set a | a in aggregates :: a.arg
  }

  lemma {:induction false} SummarizeSame(w: World, aggregates: seq<Aggregate>, group: seq<Row>, s: Row, t: Row, vis: set<Column>, row: Row)
    requires AgreeOn(s, t, Args(aggregates))
    ensures Summarize(w, aggregates, group, s, vis, row) == Summarize(w, aggregates, group, t, vis, row)
    decreases |aggregates|
  {
    if aggregates != [] {
      var a := aggregates[0];
      assert a in aggregates && a.arg in Args(aggregates);
      ArgsSame(group, a.arg, s, t, vis);
      assert Args(aggregates[1..]) <= Args(aggregates);
      SummarizeSame(w, aggregates[1..], group, s, t, vis, row[a.col := w.aggregate(a.code, ArgValues(group, a.arg, s, vis))]);
    }
  }

  lemma {:induction false} GroupsSame(w: World, groupBy: seq<Column>, aggregates: seq<Aggregate>, rows: seq<Row>, s: Row, t: Row, vis: set<Column>)
    requires AgreeOn(s, t, ColumnSet(groupBy)) && AgreeOn(s, t, Args(aggregates))
    ensures Groups(w, groupBy, aggregates, rows, s, vis) == Groups(w, groupBy, aggregates, rows, t, vis)
    decreases |rows|
  {
    if rows != [] {
      var key := KeyOf(s + Visible(rows[0], vis), groupBy);
      KeySame(groupBy, s, t, Visible(rows[0], vis));
      GroupSame(rows, groupBy, key, s, t, vis);
      GroupSame(rows[1..], groupBy, key, s, t, vis);
      SummarizeSame(w, aggregates, InGroup(rows, groupBy, key, s, vis), s, t, vis, rows[0]);
      GroupsSame(w, groupBy, aggregates, OutOfGroup(rows[1..], groupBy, key, s, vis), s, t, vis);
    }
  }

  lemma {:induction false} DistinctSame(cols: seq<Column>, rows: seq<Row>, s: Row, t: Row, vis: set<Column>)
    requires AgreeOn(s, t, ColumnSet(cols))
    ensures Distinct(cols, rows, s, vis) == Distinct(cols, rows, t, vis)
    decreases |rows|
  {
    if rows != [] {
      var key := KeyOf(s + Visible(rows[0], vis), cols);
      KeySame(cols, s, t, Visible(rows[0], vis));
      GroupSame(rows[1..], cols, key, s, t, vis);
      DistinctSame(cols, OutOfGroup(rows[1..], cols, key, s, vis), s, t, vis);
    }
  }

  lemma {:induction false} RenamedSame(columns: seq<(Column, Column)>, rows: seq<Row>, s: Row, t: Row, vis: set<Column>)
    requires AgreeOn(s, t, Seconds(columns))
    ensures Renamed(columns, rows, s, vis) == Renamed(columns, rows, t, vis)
  {
    if rows != [] {
      AgreeUnder(s, t, Visible(rows[0], vis), Seconds(columns));
      MappedSame(columns, s + Visible(rows[0], vis), t + Visible(rows[0], vis), rows[0]);
      RenamedSame(columns, rows[1..], s, t, vis);
    }
  }

  // ---- Rows bind created columns, available columns are created -----------------------------

  lemma {:induction false} BaseWithin(columns: seq<(string, Column)>, recs: seq<map<string, Val>>)
    ensures Within(BaseRows(columns, recs), Seconds(columns))
  {
    if recs != [] {
      BaseRowKeys(columns, recs[0]);
      BaseWithin(columns, recs[1..]);
    }
  }

  lemma {:induction false} BaseRowKeys(columns: seq<(string, Column)>, rec: map<string, Val>)
    ensures BaseRow(columns, rec).Keys == Seconds(columns)
  {
    if columns != [] {
      BaseRowKeys(columns[1..], rec);
      assert columns == [columns[0]] + columns[1..];
    }
  }

  lemma {:induction false} FilterWithin(w: World, pred: Expr, rows: seq<Row>, o: Row, vis: set<Column>)
    ensures forall row :: row in Filter(w, pred, rows, o, vis) ==> row in rows
  {
    if rows != [] { FilterWithin(w, pred, rows[1..], o, vis); }
  }

  lemma {:induction false} MatchesWithin(w: World, pred: Expr, rights: seq<Row>, t: Row, vis: set<Column>)
    ensures forall row :: row in Matches(w, pred, rights, t, vis) ==> row in rights
  {
    if rights != [] { MatchesWithin(w, pred, rights[1..], t, vis); }
  }

  lemma {:induction false} ComputeKeys(w: World, computed: seq<(Column, Expr)>, t: Row, row: Row)
    ensures Compute(w, computed, t, row).Keys == row.Keys + Firsts(computed)
    decreases |computed|
  {
    if computed != [] {
      ComputeKeys(w, computed[1..], t, row[computed[0].0 := Eval(w, computed[0].1, t)]);
      assert computed == [computed[0]] + computed[1..];
    }
  }

  lemma {:induction false} MapWithin(w: World, computed: seq<(Column, Expr)>, rows: seq<Row>, o: Row, vis: set<Column>, cs: set<Column>)
    requires Within(rows, cs)
    ensures Within(MapRows(w, computed, rows, o, vis), cs + Firsts(computed))
  {
    if rows != [] {
      assert rows[0] in rows;
      ComputeKeys(w, computed, o + Visible(rows[0], vis), rows[0]);
      MapWithin(w, computed, rows[1..], o, vis, cs);
    }
  }

  lemma {:induction false} MappedKeys(mapping: seq<(Column, Column)>, t: Row, row: Row)
    ensures Mapped(mapping, t, row).Keys == row.Keys + Firsts(mapping)
    decreases |mapping|
  {
    if mapping != [] {
      MappedKeys(mapping[1..], t, row[mapping[0].0 := Get(t, mapping[0].1)]);
      assert mapping == [mapping[0]] + mapping[1..];
    }
  }

  lemma {:induction false} PairWithin(l: Row, rights: seq<Row>, csL: set<Column>, csR: set<Column>)
    requires l.Keys <= csL && Within(rights, csR)
    ensures Within(Pair(l, rights), csL + csR)
  {
    if rights != [] {
      assert rights[0] in rights;
      PairWithin(l, rights[1..], csL, csR);
    }
  }

  lemma {:induction false} OuterWithin(mapping: seq<(Column, Column)>, l: Row, matches: seq<Row>, t: Row, vis: set<Column>, cs: set<Column>)
    requires l.Keys <= cs
    ensures Within(OuterRows(mapping, l, matches, t, vis), cs + Firsts(mapping))
  {
    if matches != [] {
      MappedKeys(mapping, t + Visible(matches[0], vis), l);
      OuterWithin(mapping, l, matches[1..], t, vis, cs);
    }
  }

  lemma {:induction false} JoinWithin(w: World, kind: JoinKind, pred: Expr, lefts: seq<Row>, rights: seq<seq<Row>>, o: Row,
                                      visL: set<Column>, visR: set<Column>, csL: set<Column>, csR: set<Column>)
    requires |lefts| == |rights| && Within(lefts, csL)
    requires forall i :: 0 <= i < |rights| ==> Within(rights[i], csR)
    ensures Within(JoinRows(w, kind, pred, lefts, rights, o, visL, visR), csL + csR + CreatedByJoin(kind))
  {
    if lefts != [] {
      assert lefts[0] in lefts;
      var t := o + Visible(lefts[0], visL);
      var matches := Matches(w, pred, rights[0], t, visR);
      MatchesWithin(w, pred, rights[0], t, visR);
      PairWithin(lefts[0], matches, csL, csR);
      if kind.Outer? {
        MappedKeys(kind.mapping, map[], lefts[0]);
        OuterWithin(kind.mapping, lefts[0], matches, t, visR, csL);
      }
      JoinWithin(w, kind, pred, lefts[1..], rights[1..], o, visL, visR, csL, csR);
    }
  }

  function AggregateColumns(aggregates: seq<Aggregate>): set<Column> {
    set a | a in aggregates :: a.col
  }

  lemma {:induction false} SummarizeKeys(w: World, aggregates: seq<Aggregate>, group: seq<Row>, o: Row, vis: set<Column>, row: Row)
    ensures Summarize(w, aggregates, group, o, vis, row).Keys == row.Keys + AggregateColumns(aggregates)
    decreases |aggregates|
  {
    if aggregates != [] {
      var a := aggregates[0];
      SummarizeKeys(w, aggregates[1..], group, o, vis, row[a.col := w.aggregate(a.code, ArgValues(group, a.arg, o, vis))]);
      assert aggregates == [a] + aggregates[1..];
    }
  }

  lemma {:induction false} OutOfGroupWithin(rows: seq<Row>, cols: seq<Column>, key: seq<Val>, o: Row, vis: set<Column>)
    ensures forall row :: row in OutOfGroup(rows, cols, key, o, vis) ==> row in rows
  {
    if rows != [] { OutOfGroupWithin(rows[1..], cols, key, o, vis); }
  }

  lemma {:induction false} GroupsWithin(w: World, groupBy: seq<Column>, aggregates: seq<Aggregate>, rows: seq<Row>, o: Row,
                                        vis: set<Column>, cs: set<Column>)
    requires Within(rows, cs)
    ensures Within(Groups(w, groupBy, aggregates, rows, o, vis), cs + AggregateColumns(aggregates))
    decreases |rows|
  {
    if rows != [] {
      assert rows[0] in rows;
      var key := KeyOf(o + Visible(rows[0], vis), groupBy);
      SummarizeKeys(w, aggregates, InGroup(rows, groupBy, key, o, vis), o, vis, rows[0]);
      OutOfGroupWithin(rows[1..], groupBy, key, o, vis);
      GroupsWithin(w, groupBy, aggregates, OutOfGroup(rows[1..], groupBy, key, o, vis), o, vis, cs);
    }
  }

  lemma {:induction false} DistinctWithin(cols: seq<Column>, rows: seq<Row>, o: Row, vis: set<Column>)
    ensures forall row :: row in Distinct(cols, rows, o, vis) ==> row in rows
    decreases |rows|
  {
    if rows != [] {
      var key := KeyOf(o + Visible(rows[0], vis), cols);
      OutOfGroupWithin(rows[1..], cols, key, o, vis);
      DistinctWithin(cols, OutOfGroup(rows[1..], cols, key, o, vis), o, vis);
    }
  }

  lemma {:induction false} RenamedWithin(columns: seq<(Column, Column)>, rows: seq<Row>, o: Row, vis: set<Column>, cs: set<Column>)
    requires Within(rows, cs)
    ensures Within(Renamed(columns, rows, o, vis), cs + Firsts(columns))
  {
    if rows != [] {
      assert rows[0] in rows;
      MappedKeys(columns, o + Visible(rows[0], vis), rows[0]);
      RenamedWithin(columns, rows[1..], o, vis, cs);
    }
  }

  /** A plan's rows bind nothing but the columns created in it. */
  lemma {:induction false} RowsBindCreated(w: World, p: Plan, o: Row)
    ensures Within(Rows(w, p, o), CreatedWithin(p))
    decreases p, 0
  {
    match p
    case BaseTable(table, columns, _, _) =>
      BaseWithin(columns, if table in w.db then w.db[table] else []);
    case Selection(child, pred) =>
      RowsBindCreated(w, child, o);
      FilterWithin(w, pred, Rows(w, child, o), o, Output(child));
    case MapOp(child, computed) =>
      RowsBindCreated(w, child, o);
      MapWithin(w, computed, Rows(w, child, o), o, Output(child), CreatedWithin(child));
    case CrossProduct(l, r) =>
      RowsBindCreated(w, l, o);
      var lefts := Rows(w, l, o);
      RightsBindCreated(w, lefts, r, o, Output(l));
      JoinWithin(w, Inner, Constant(Bool(true)), lefts, RightRows(w, lefts, r, o, Output(l)), o, Output(l), Output(r),
                 CreatedWithin(l), CreatedWithin(r));
    case Join(kind, l, r, pred, _, _) =>
      RowsBindCreated(w, l, o);
      var lefts := Rows(w, l, o);
      RightsBindCreated(w, lefts, r, o, Output(l));
      JoinWithin(w, kind, pred, lefts, RightRows(w, lefts, r, o, Output(l)), o, Output(l), Output(r),
                 CreatedWithin(l), CreatedWithin(r));
    case Aggregation(child, groupBy, aggregates) =>
      RowsBindCreated(w, child, o);
      var rows := Rows(w, child, o);
      GroupsWithin(w, groupBy, aggregates, rows, o, Output(child), CreatedWithin(child));
      SummarizeKeys(w, aggregates, rows, o, Output(child), if rows == [] then map[] else rows[0]);
      assert rows != [] ==> rows[0] in rows;
    case Projection(child, distinct, cols) =>
      RowsBindCreated(w, child, o);
      DistinctWithin(cols, Rows(w, child, o), o, Output(child));
    case Renaming(child, columns) =>
      RowsBindCreated(w, child, o);
      RenamedWithin(columns, Rows(w, child, o), o, Output(child), CreatedWithin(child));
  }

  lemma {:induction false} RightsBindCreated(w: World, lefts: seq<Row>, r: Plan, o: Row, visL: set<Column>)
    ensures forall i :: 0 <= i < |lefts| ==> Within(RightRows(w, lefts, r, o, visL)[i], CreatedWithin(r))
    decreases r, 1 + |lefts|
  {
    if lefts != [] {
      RowsBindCreated(w, r, o + Visible(lefts[0], visL));
      RightsBindCreated(w, lefts[1..], r, o, visL);
    }
  }

  /** The analysis of available columns, unfolded. */
  lemma AvailableUnfolded(p: Plan)
    ensures AvailableByDefault(p) == AvailableBelow(p) + Created(p)
    ensures p.BaseTable? || p.Selection? || p.MapOp? || p.CrossProduct? || (p.Join? && p.kind.Inner?) ==>
              Available(p) == AvailableByDefault(p)
    ensures p.CrossProduct? || p.Join? ==> AvailableBelow(p) == Available(p.left) + Available(p.right)
    ensures !p.BaseTable? && !p.CrossProduct? && !p.Join? ==> AvailableBelow(p) == Available(p.child)
  {
  }

  /** What the analysis calls available was created in the plan. */
  lemma {:induction false} AvailableIsCreated(p: Plan)
    requires CreatedOnce(p)
    ensures Available(p) <= CreatedWithin(p)
    ensures AvailableByDefault(p) <= CreatedWithin(p)
    ensures AvailableBelow(p) <= CreatedWithin(p)
  {
    AvailableUnfolded(p);
    match p
    case BaseTable(_, _, _, _) =>
    case CrossProduct(l, r) =>
      AvailableIsCreated(l);
      AvailableIsCreated(r);
    case Join(_, l, r, _, _, _) =>
      AvailableIsCreated(l);
      AvailableIsCreated(r);
    case _ =>
      AvailableIsCreated(p.child);
  }

  /** The available columns contain every column that is really output. */
  lemma {:induction false} OutputIsAvailable(p: Plan)
    ensures Output(p) <= Available(p)
    ensures Output(p) <= AvailableByDefault(p)
  {
    AvailableUnfolded(p);
    match p
    case BaseTable(_, _, _, _) =>
    case CrossProduct(l, r) =>
      OutputIsAvailable(l);
      OutputIsAvailable(r);
    case Join(_, l, r, _, _, _) =>
      OutputIsAvailable(l);
      OutputIsAvailable(r);
    case _ =>
      OutputIsAvailable(p.child);
  }

  // ---- The main result -----------------------------------------------------------------------

  /** A plan's rows depend on the enclosing tuple only through its free columns. */
  lemma {:induction false} RowsDependOnFree(w: World, p: Plan, s: Row, t: Row)
    requires CreatedOnce(p)
    requires Unbound(s, CreatedWithin(p)) && Unbound(t, CreatedWithin(p))
    requires AgreeOn(s, t, Free(p))
    ensures Rows(w, p, s) == Rows(w, p, t)
    decreases p, 0
  {
    AvailableIsCreated(p);
    match p
    case BaseTable(_, _, _, _) =>
    case CrossProduct(l, r) =>
      AgreeWithAvailable(s, t, Free(p), Free(l) + Free(r), AvailableBelow(p));
      RowsDependOnFree(w, l, s, t);
      RowsBindCreated(w, l, s);
      RightsDependOnFree(w, l, Rows(w, l, s), r, s, t);
      JoinSame(w, Inner, Constant(Bool(true)), Rows(w, l, s), RightRows(w, Rows(w, l, s), r, s, Output(l)), s, t, Output(l), Output(r));
    case Join(kind, l, r, pred, lh, rh) =>
      AgreeWithAvailable(s, t, Free(p), Free(l) + Free(r) + UsedBy(p), AvailableBelow(p));
      RowsDependOnFree(w, l, s, t);
      RowsBindCreated(w, l, s);
      RightsDependOnFree(w, l, Rows(w, l, s), r, s, t);
      JoinSame(w, kind, pred, Rows(w, l, s), RightRows(w, Rows(w, l, s), r, s, Output(l)), s, t, Output(l), Output(r));
    case _ =>
      AgreeWithAvailable(s, t, Free(p), Free(p.child) + UsedBy(p), AvailableBelow(p));
      RowsDependOnFree(w, p.child, s, t);
      UnaryDependsOnUsed(w, p, Rows(w, p.child, s), s, t);
  }

  lemma UnaryDependsOnUsed(w: World, p: Plan, rows: seq<Row>, s: Row, t: Row)
    requires !p.BaseTable? && !p.CrossProduct? && !p.Join? && AgreeOn(s, t, UsedBy(p))
    requires rows == Rows(w, p.child, s) == Rows(w, p.child, t)
    ensures Rows(w, p, s) == Rows(w, p, t)
  {
    match p
    case Selection(child, pred) => FilterSame(w, pred, rows, s, t, Output(child));
    case MapOp(child, computed) => MapSame(w, computed, rows, s, t, Output(child));
    case Aggregation(child, groupBy, aggregates) =>
      assert AgreeOn(s, t, ColumnSet(groupBy)) && AgreeOn(s, t, Args(aggregates));
      GroupsSame(w, groupBy, aggregates, rows, s, t, Output(child));
      SummarizeSame(w, aggregates, rows, s, t, Output(child), if rows == [] then map[] else rows[0]);
    case Projection(child, distinct, cols) =>
      if distinct { DistinctSame(cols, rows, s, t, Output(child)); }
    case Renaming(child, columns) => RenamedSame(columns, rows, s, t, Output(child));
  }

  lemma {:induction false} RightsDependOnFree(w: World, l: Plan, lefts: seq<Row>, r: Plan, s: Row, t: Row)
    requires Within(lefts, CreatedWithin(l))
    requires CreatedOnce(r) && CreatedWithin(l) !! CreatedWithin(r)
    requires Unbound(s, CreatedWithin(r)) && Unbound(t, CreatedWithin(r))
    requires AgreeOn(s, t, Free(r))
    ensures RightRows(w, lefts, r, s, Output(l)) == RightRows(w, lefts, r, t, Output(l))
    decreases r, 1 + |lefts|
  {
    if lefts != [] {
      assert lefts[0] in lefts;
      var v := Visible(lefts[0], Output(l));
      AgreeUnder(s, t, v, Free(r));
      RowsDependOnFree(w, r, s + v, t + v);
      RightsDependOnFree(w, l, lefts[1..], r, s, t);
    }
  }

  // ---- Joins that are not dependent --------------------------------------------------------------

  /** Binding a tuple of columns other than the free ones changes nothing. */
  lemma BindingOthersIsIrrelevant(w: World, p: Plan, o: Row, v: Row)
    requires CreatedOnce(p) && Unbound(o, CreatedWithin(p)) && Unbound(v, CreatedWithin(p))
    requires v.Keys !! Free(p)
    ensures Rows(w, p, o + v) == Rows(w, p, o)
  {
    forall c | c in Free(p) ensures Get(o + v, c) == Get(o, c) {
      assert c !in v;
    }
    RowsDependOnFree(w, p, o + v, o);
  }

  /** When isDependentJoin is false, either input of the join yields the same rows whether or not a
      tuple of the other input is bound, so the join is a join of two separately computed inputs. */
  lemma IndependentJoinInputs(w: World, p: Plan, o: Row)
    requires p.Join? && CreatedOnce(p) && Unbound(o, CreatedWithin(p))
    requires !IsDependentJoin(p)
    ensures forall l :: l in Rows(w, p.left, o) ==>
              Rows(w, p.right, o + Visible(l, Output(p.left))) == Rows(w, p.right, o)
    ensures forall r :: r in Rows(w, p.right, o) ==>
              Rows(w, p.left, o + Visible(r, Output(p.right))) == Rows(w, p.left, o)
    ensures RightRows(w, Rows(w, p.left, o), p.right, o, Output(p.left))
            == seq(|Rows(w, p.left, o)|, i => Rows(w, p.right, o))
  {
    RowsBindCreated(w, p.left, o);
    RowsBindCreated(w, p.right, o);
    OutputIsAvailable(p.left);
    OutputIsAvailable(p.right);
    forall l | l in Rows(w, p.left, o) ensures Rows(w, p.right, o + Visible(l, Output(p.left))) == Rows(w, p.right, o) {
      BindingOthersIsIrrelevant(w, p.right, o, Visible(l, Output(p.left)));
    }
    forall r | r in Rows(w, p.right, o) ensures Rows(w, p.left, o + Visible(r, Output(p.right))) == Rows(w, p.left, o) {
      BindingOthersIsIrrelevant(w, p.left, o, Visible(r, Output(p.right)));
    }
    RightsAreConstant(w, Rows(w, p.left, o), p.right, o, Output(p.left));
  }

  lemma {:induction false} RightsAreConstant(w: World, lefts: seq<Row>, r: Plan, o: Row, visL: set<Column>)
    requires forall l :: l in lefts ==> Rows(w, r, o + Visible(l, visL)) == Rows(w, r, o)
    ensures RightRows(w, lefts, r, o, visL) == seq(|lefts|, i => Rows(w, r, o))
  {
    if lefts != [] {
      assert lefts[0] in lefts;
      RightsAreConstant(w, lefts[1..], r, o, visL);
    }
  }
}
