/** Every dependency and key that the operators infer holds on the plan's rows. */
module DependencySoundness {
  import opened RelAlgPlan
  import opened RelAlgFreeColumns
  import opened FunctionalDependencies

  // ---- What dependencies and keys mean -----------------------------------------------

  /** Rows that agree on the left columns agree on the right ones. */
  ghost predicate Satisfies(rows: seq<Row>, o: Row, fd: Dependency) {
    forall x, y :: x in rows && y in rows && AgreeOn(o + x, o + y, fd.0) ==> AgreeOn(o + x, o + y, fd.1)
  }

  ghost predicate SatisfiesAll(rows: seq<Row>, o: Row, fds: seq<Dependency>) {
    forall fd :: fd in fds ==> Satisfies(rows, o, fd)
  }

  /** x agrees with none of the rows. */
  ghost predicate AgreesWithNone(x: Row, rows: seq<Row>, o: Row, key: set<Column>) {
    forall y :: y in rows ==> !AgreeOn(o + x, o + y, key)
  }

  /** No two rows, at whatever positions, agree on the key. */
  ghost predicate Unique(rows: seq<Row>, o: Row, key: set<Column>) {
    rows == [] || (AgreesWithNone(rows[0], rows[1..], o, key) && Unique(rows[1..], o, key))
  }

  ghost predicate Sound(rows: seq<Row>, o: Row, d: Deps) {
    SatisfiesAll(rows, o, d.fds) && (d.key.Some? ==> Unique(rows, o, d.key.value))
  }

  /** Positions are what Unique is about. */
  lemma {:induction false} UniqueByPosition(rows: seq<Row>, o: Row, key: set<Column>)
    ensures Unique(rows, o, key) <==>
            forall i, j :: 0 <= i < j < |rows| ==> !AgreeOn(o + rows[i], o + rows[j], key)
  {
    if rows != [] {
      UniqueByPosition(rows[1..], o, key);
      var tail := rows[1..];
      if Unique(rows, o, key) {
        forall i, j | 0 <= i < j < |rows| ensures !AgreeOn(o + rows[i], o + rows[j], key) {
          assert rows[j] == tail[j - 1];
          if i == 0 { assert tail[j - 1] in tail; } else { assert rows[i] == tail[i - 1]; }
        }
      }
      if forall i, j :: 0 <= i < j < |rows| ==> !AgreeOn(o + rows[i], o + rows[j], key) {
        forall y | y in tail ensures !AgreeOn(o + rows[0], o + y, key) {
          var j :| 0 <= j < |tail| && tail[j] == y;
          assert rows[j + 1] == y;
        }
        forall i, j | 0 <= i < j < |tail| ensures !AgreeOn(o + tail[i], o + tail[j], key) {
          assert tail[i] == rows[i + 1] && tail[j] == rows[j + 1];
        }
      }
    }
  }

  // ---- Assumptions about plan and database ----------------------------------------------

  /** Joins that keep left rows as they are. */
  predicate Filters(kind: JoinKind) {
    kind.Semi? || kind.AntiSemi?
  }

  /** Operators read what their inputs output, or columns of the enclosing tuple.  The right input of a semi or
      anti-semi join may also read the left tuple. */
  ghost predicate ReadsVisible(p: Plan, outer: set<Column>) {
    match p
    case BaseTable(_, _, _, _) => true
    case CrossProduct(l, r) => ReadsVisible(l, outer) && ReadsVisible(r, outer)
    case Join(kind, l, r, _, _, _) =>
      && ReadsVisible(l, outer) && ReadsVisible(r, if Filters(kind) then outer + Output(l) else outer)
      && UsedBy(p) <= Output(l) + Output(r) + outer
    case Aggregation(child, groupBy, _) =>
      ReadsVisible(child, outer) && UsedBy(p) <= Output(child) + outer
    case _ => ReadsVisible(p.child, outer) && UsedBy(p) <= Output(p.child) + outer
  }

  /** No two records agree on the primary key. */
  ghost predicate ObeysKey(recs: seq<map<string, Val>>, primaryKey: seq<string>) {
    forall i, j :: 0 <= i < j < |recs| ==>
      exists name :: name in primaryKey && Field(recs[i], name) != Field(recs[j], name)
  }

  ghost predicate AllMapped(columns: seq<(string, Column)>, primaryKey: seq<string>) {
    forall name :: name in primaryKey ==> exists k :: 0 <= k < |columns| && columns[k].0 == name
  }

  /** A base table defines every column once. */
  ghost predicate DistinctColumns(columns: seq<(string, Column)>) {
    forall i, j :: 0 <= i < j < |columns| ==> columns[i].1 != columns[j].1
  }

  function Records(w: World, table: string): seq<map<string, Val>> {
    if table in w.db then w.db[table] else []
  }

  /** The base tables whose rows p keeps are well-formed, have all key columns mapped, and obey their keys; hash
      columns of inner joins are equated by the join predicate. */
  ghost predicate Premises(w: World, p: Plan) {
    match p
    case BaseTable(table, columns, present, primaryKey) =>
      DistinctColumns(columns) &&
      (present ==> AllMapped(columns, primaryKey) && ObeysKey(Records(w, table), primaryKey))
    case CrossProduct(l, r) => Premises(w, l) && Premises(w, r)
    case Join(kind, l, r, pred, lh, rh) =>
      && Premises(w, l) && (Filters(kind) || Premises(w, r))
      && (kind.Inner? && lh.Some? && rh.Some? && |lh.value| == |rh.value| ==> HashesEquated(w, pred, lh.value, rh.value))
    case _ => Premises(w, p.child)
  }

  ghost predicate HashesEquated(w: World, pred: Expr, lh: seq<Column>, rh: seq<Column>)
    requires |lh| == |rh|
  {
    forall t: Row, i {:trigger Holds(w, pred, t), lh[i]} ::
      0 <= i < |lh| && Holds(w, pred, t) ==> Get(t, lh[i]) == Get(t, rh[i])
  }

  // ---- Closure reasoning -------------------------------------------------------------------

  lemma {:induction false} PassAgrees(rows: seq<Row>, o: Row, fds: seq<Dependency>, cols: set<Column>, x: Row, y: Row)
    requires SatisfiesAll(rows, o, fds) && x in rows && y in rows
    requires AgreeOn(o + x, o + y, cols)
    ensures AgreeOn(o + x, o + y, Pass(fds, cols))
  {
    if fds != [] {
      assert fds[0] in fds;
      if fds[0].0 <= cols {
        assert AgreeOn(o + x, o + y, fds[0].0);
        assert Satisfies(rows, o, fds[0]);
      }
      assert SatisfiesAll(rows, o, fds[1..]);
      PassAgrees(rows, o, fds[1..], if fds[0].0 <= cols then cols + fds[0].1 else cols, x, y);
    }
  }

  /** Rows that agree on some columns agree on everything those columns determine. */
  lemma {:induction false} ExpandAgrees(rows: seq<Row>, o: Row, fds: seq<Dependency>, cols: set<Column>, x: Row, y: Row)
    requires SatisfiesAll(rows, o, fds) && x in rows && y in rows
    requires AgreeOn(o + x, o + y, cols)
    ensures AgreeOn(o + x, o + y, Expand(fds, cols))
    decreases |RightSides(fds) - cols|
  {
    var next := Pass(fds, cols);
    if next != cols {
      PassStaysWithin(fds, cols);
      SmallerRemainder(RightSides(fds), cols, next);
      PassAgrees(rows, o, fds, cols, x, y);
      ExpandAgrees(rows, o, fds, next, x, y);
    }
  }

  // ---- Rows seen by expressions and whole rows -------------------------------------------------

  /** A column that is visible, or not bound by the row, has the same value for an expression as in
      the whole row. */
  lemma VisibleValue(o: Row, row: Row, vis: set<Column>, c: Column)
    requires c in vis || c !in row
    ensures Get(o + Visible(row, vis), c) == Get(o + row, c)
  {
  }

  /** The columns that dependencies of p may mention. */
  function Known(p: Plan, outer: set<Column>): set<Column> {
    CreatedWithin(p) + outer
  }

  ghost predicate Mentions(fds: seq<Dependency>, cols: set<Column>) {
    forall fd :: fd in fds ==> fd.0 <= cols && fd.1 <= cols
  }

  lemma {:induction false} OutputIsCreated(p: Plan)
    ensures Output(p) <= CreatedWithin(p)
  {
    match p
    case BaseTable(_, _, _, _) =>
    case CrossProduct(l, r) =>
      OutputIsCreated(l);
      OutputIsCreated(r);
    case Join(_, l, r, _, _, _) =>
      OutputIsCreated(l);
      OutputIsCreated(r);
    case _ => OutputIsCreated(p.child);
  }

  lemma {:induction false} MentionsHashes(lh: seq<Column>, rh: seq<Column>, cols: set<Column>)
    requires |lh| == |rh| && ColumnSet(lh) <= cols && ColumnSet(rh) <= cols
    ensures Mentions(FromHashes(lh, rh), cols)
  {
    if lh != [] {
      assert lh[0] in ColumnSet(lh) && rh[0] in ColumnSet(rh);
      assert ColumnSet(lh[1..]) <= ColumnSet(lh) && ColumnSet(rh[1..]) <= ColumnSet(rh);
      MentionsHashes(lh[1..], rh[1..], cols);
    }
  }

  lemma MentionsPredicate(pred: Expr, cols: set<Column>)
    requires Used(pred) <= cols
    ensures Mentions(FromPredicate(pred), cols)
  {
    match pred
    case CmpEq(GetColumn(a), GetColumn(b)) => assert Used(pred) == {a, b};
    case _ =>
  }

  ghost predicate MentionsKnown(p: Plan, outer: set<Column>) {
    && Mentions(Infer(p).fds, Known(p, outer))
    && (Infer(p).key.Some? ==> Infer(p).key.value <= Known(p, outer))
  }

  lemma MentionsMore(fds: seq<Dependency>, cols: set<Column>, more: set<Column>)
    requires Mentions(fds, cols) && cols <= more
    ensures Mentions(fds, more)
  {
  }

  lemma InnerMentionsKnown(p: Plan, outer: set<Column>)
    requires p.Join? && p.kind.Inner? && UsedBy(p) <= Output(p.left) + Output(p.right) + outer
    ensures Mentions(HashDependencies(p.leftHash, p.rightHash) + FromPredicate(p.pred), Known(p, outer))
  {
    OutputIsCreated(p.left);
    OutputIsCreated(p.right);
    MentionsPredicate(p.pred, Known(p, outer));
    if p.leftHash.Some? && p.rightHash.Some? && |p.leftHash.value| == |p.rightHash.value| {
      MentionsHashes(p.leftHash.value, p.rightHash.value, Known(p, outer));
    }
  }

  lemma JoinMentionsKnown(p: Plan, outer: set<Column>)
    requires p.Join? && ReadsVisible(p, outer) && MentionsKnown(p.left, outer)
    requires Filters(p.kind) || MentionsKnown(p.right, outer)
    ensures MentionsKnown(p, outer)
  {
    MentionsMore(Infer(p.left).fds, Known(p.left, outer), Known(p, outer));
    if !Filters(p.kind) {
      MentionsMore(Infer(p.right).fds, Known(p.right, outer), Known(p, outer));
      if p.kind.Inner? {
        InnerMentionsKnown(p, outer);
      }
    }
  }

  lemma {:induction false} InferMentionsKnown(p: Plan, outer: set<Column>)
    requires ReadsVisible(p, outer)
    ensures MentionsKnown(p, outer)
  {
    match p
    case BaseTable(_, columns, present, primaryKey) => AvailableUnfolded(p);
    case Selection(child, pred) =>
      InferMentionsKnown(child, outer);
      OutputIsCreated(child);
      MentionsPredicate(pred, Known(p, outer));
    case CrossProduct(l, r) =>
      InferMentionsKnown(l, outer);
      InferMentionsKnown(r, outer);
    case Join(kind, l, r, _, _, _) =>
      InferMentionsKnown(l, outer);
      if !Filters(kind) { InferMentionsKnown(r, outer); }
      JoinMentionsKnown(p, outer);
    case Aggregation(child, groupBy, _) =>
      InferMentionsKnown(child, outer);
      OutputIsCreated(child);
    case _ =>
      InferMentionsKnown(p.child, outer);
  }

  /** Plans that read visible columns have only enclosing columns free. */
  lemma {:induction false} FreeIsOuter(p: Plan, outer: set<Column>)
    requires ReadsVisible(p, outer)
    ensures Free(p) <= outer
  {
    match p
    case BaseTable(_, _, _, _) =>
    case CrossProduct(l, r) =>
      FreeIsOuter(l, outer);
      FreeIsOuter(r, outer);
    case Join(kind, l, r, _, _, _) =>
      FreeIsOuter(l, outer);
      FreeIsOuter(r, if Filters(kind) then outer + Output(l) else outer);
      OutputIsAvailable(l);
      OutputIsAvailable(r);
    case _ =>
      FreeIsOuter(p.child, outer);
      OutputIsAvailable(p.child);
  }
}
