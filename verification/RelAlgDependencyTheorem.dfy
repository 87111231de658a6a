/** The soundness of dependency inference, operator by operator. */
module DependencyTheorem {
  import opened Options
  import opened RelAlgPlan
  import opened RelAlgFreeColumns
  import opened FunctionalDependencies
  import opened DependencySoundness

  // ---- Rows that carry over from an input -----------------------------------------------

  /** Every row of more looks, on cs, like one of rows. */
  ghost predicate Carries(more: seq<Row>, rows: seq<Row>, o: Row, cs: set<Column>) {
    forall x :: x in more ==> exists y :: y in rows && AgreeOn(o + x, o + y, cs)
  }

  lemma CarriesKeeps(more: seq<Row>, rows: seq<Row>, o: Row, cs: set<Column>, fds: seq<Dependency>)
    requires Carries(more, rows, o, cs) && SatisfiesAll(rows, o, fds) && Mentions(fds, cs)
    ensures SatisfiesAll(more, o, fds)
  {
    forall fd | fd in fds ensures Satisfies(more, o, fd) {
      forall x, y | x in more && y in more && AgreeOn(o + x, o + y, fd.0) ensures AgreeOn(o + x, o + y, fd.1) {
        var x0 :| x0 in rows && AgreeOn(o + x, o + x0, cs);
        var y0 :| y0 in rows && AgreeOn(o + y, o + y0, cs);
        assert fd.0 <= cs && fd.1 <= cs;
        assert AgreeOn(o + x0, o + y0, fd.0);
        assert Satisfies(rows, o, fd);
      }
    }
  }

  /** Rows that bind none of the columns agree on all of them. */
  lemma AbsentColumns(rows: seq<Row>, o: Row, cs: set<Column>, fds: seq<Dependency>)
    requires (forall x :: x in rows ==> Unbound(x, cs)) && Mentions(fds, cs)
    ensures SatisfiesAll(rows, o, fds)
  {
    forall fd | fd in fds ensures Satisfies(rows, o, fd) {
      forall x, y | x in rows && y in rows ensures AgreeOn(o + x, o + y, fd.1) {
        assert fd.1 <= cs;
        assert Unbound(x, cs) && Unbound(y, cs);
      }
    }
  }

  lemma SatisfiesBoth(rows: seq<Row>, o: Row, fds: seq<Dependency>, more: seq<Dependency>)
    requires SatisfiesAll(rows, o, fds) && SatisfiesAll(rows, o, more)
    ensures SatisfiesAll(rows, o, fds + more)
  {
  }

  // ---- Equated columns ---------------------------------------------------------------------

  ghost predicate Equal(rows: seq<Row>, o: Row, a: Column, b: Column) {
    forall x :: x in rows ==> Get(o + x, a) == Get(o + x, b)
  }

  lemma EqualDetermines(rows: seq<Row>, o: Row, a: Column, b: Column)
    requires Equal(rows, o, a, b)
    ensures SatisfiesAll(rows, o, Equated(a, b))
  {
    forall x, y | x in rows && y in rows ensures Get(o + x, a) == Get(o + x, b) && Get(o + y, a) == Get(o + y, b) {}
    assert Satisfies(rows, o, ({a}, {b})) by {
      forall x, y | x in rows && y in rows && AgreeOn(o + x, o + y, {a}) ensures AgreeOn(o + x, o + y, {b}) {
        assert a in {a};
      }
    }
    assert Satisfies(rows, o, ({b}, {a})) by {
      forall x, y | x in rows && y in rows && AgreeOn(o + x, o + y, {b}) ensures AgreeOn(o + x, o + y, {a}) {
        assert b in {b};
      }
    }
  }

  /** Every row passed the predicate. */
  ghost predicate AllSeen(w: World, pred: Expr, rows: seq<Row>, o: Row) {
    forall x :: x in rows ==> Holds(w, pred, o + x)
  }

  lemma PredicateDependencies(w: World, pred: Expr, rows: seq<Row>, o: Row)
    requires AllSeen(w, pred, rows, o)
    ensures SatisfiesAll(rows, o, FromPredicate(pred))
  {
    match pred
    case CmpEq(GetColumn(a), GetColumn(b)) =>
      forall x | x in rows ensures Get(o + x, a) == Get(o + x, b) {
        assert Holds(w, pred, o + x);
        assert Eval(w, pred.left, o + x) == Get(o + x, a) && Eval(w, pred.right, o + x) == Get(o + x, b);
      }
      EqualDetermines(rows, o, a, b);
    case _ =>
  }

  lemma {:induction false} HashPairs(rows: seq<Row>, o: Row, lh: seq<Column>, rh: seq<Column>)
    requires |lh| == |rh| && forall i :: 0 <= i < |lh| ==> Equal(rows, o, lh[i], rh[i])
    ensures SatisfiesAll(rows, o, FromHashes(lh, rh))
  {
    if lh != [] {
      EqualDetermines(rows, o, lh[0], rh[0]);
      forall i | 0 <= i < |lh[1..]| ensures Equal(rows, o, lh[1..][i], rh[1..][i]) {
        assert Equal(rows, o, lh[i + 1], rh[i + 1]);
      }
      HashPairs(rows, o, lh[1..], rh[1..]);
      SatisfiesBoth(rows, o, Equated(lh[0], rh[0]), FromHashes(lh[1..], rh[1..]));
    }
  }

  lemma HashesDetermine(w: World, pred: Expr, rows: seq<Row>, o: Row, lh: seq<Column>, rh: seq<Column>)
    requires |lh| == |rh| && HashesEquated(w, pred, lh, rh) && AllSeen(w, pred, rows, o)
    ensures SatisfiesAll(rows, o, FromHashes(lh, rh))
  {
    forall i | 0 <= i < |lh| ensures Equal(rows, o, lh[i], rh[i]) {
      forall x | x in rows ensures Get(o + x, lh[i]) == Get(o + x, rh[i]) {
        assert Holds(w, pred, o + x);
      }
    }
    HashPairs(rows, o, lh, rh);
  }

  // ---- Uniqueness ----------------------------------------------------------------------------

  lemma {:induction false} UniqueConcat(a: seq<Row>, b: seq<Row>, o: Row, key: set<Column>)
    requires Unique(a, o, key) && Unique(b, o, key)
    requires forall x :: x in a ==> AgreesWithNone(x, b, o, key)
    ensures Unique(a + b, o, key)
  {
    if a == [] {
      assert a + b == b;
    } else {
      assert (a + b)[0] == a[0] && (a + b)[1..] == a[1..] + b;
      UniqueConcat(a[1..], b, o, key);
      assert AgreesWithNone(a[0], b, o, key);
    }
  }

  /** Columns that determine a key are a key. */
  lemma DeterminingKey(rows: seq<Row>, o: Row, fds: seq<Dependency>, key: set<Column>, candidate: set<Column>)
    requires SatisfiesAll(rows, o, fds) && Unique(rows, o, key) && key <= Expand(fds, candidate)
    ensures Unique(rows, o, candidate)
  {
    UniqueByPosition(rows, o, key);
    UniqueByPosition(rows, o, candidate);
    forall i, j | 0 <= i < j < |rows| ensures !AgreeOn(o + rows[i], o + rows[j], candidate) {
      if AgreeOn(o + rows[i], o + rows[j], candidate) {
        ExpandAgrees(rows, o, fds, candidate, rows[i], rows[j]);
        assert AgreeOn(o + rows[i], o + rows[j], key);
      }
    }
  }

  lemma {:induction false} FilterUnique(w: World, pred: Expr, rows: seq<Row>, o: Row, vis: set<Column>, key: set<Column>)
    requires Unique(rows, o, key)
    ensures Unique(Filter(w, pred, rows, o, vis), o, key)
  {
    if rows != [] {
      FilterUnique(w, pred, rows[1..], o, vis, key);
      FilterWithin(w, pred, rows[1..], o, vis);
      var rest := Filter(w, pred, rows[1..], o, vis);
      assert AgreesWithNone(rows[0], rest, o, key);
      assert ([rows[0]] + rest)[1..] == rest && [] + rest == rest;
    }
  }

  /** A semi or anti-semi join keeps some of the left rows. */
  lemma {:induction false} SemiKeeps(w: World, kind: JoinKind, pred: Expr, lefts: seq<Row>, rights: seq<seq<Row>>, o: Row,
                                     visL: set<Column>, visR: set<Column>, key: set<Column>)
    requires |lefts| == |rights| && (kind.Semi? || kind.AntiSemi?)
    ensures forall x :: x in JoinRows(w, kind, pred, lefts, rights, o, visL, visR) ==> x in lefts
    ensures Unique(lefts, o, key) ==> Unique(JoinRows(w, kind, pred, lefts, rights, o, visL, visR), o, key)
  {
    if lefts != [] {
      SemiKeeps(w, kind, pred, lefts[1..], rights[1..], o, visL, visR, key);
      var rest := JoinRows(w, kind, pred, lefts[1..], rights[1..], o, visL, visR);
      if Unique(lefts, o, key) {
        assert AgreesWithNone(lefts[0], rest, o, key);
      }
      assert ([lefts[0]] + rest)[1..] == rest && [] + rest == rest;
    }
  }

  // ---- Base tables ------------------------------------------------------------------------------

  lemma {:induction false} BaseField(columns: seq<(string, Column)>, rec: map<string, Val>, k: nat)
    requires k < |columns| && DistinctColumns(columns)
    ensures columns[k].1 in BaseRow(columns, rec)
    ensures BaseRow(columns, rec)[columns[k].1] == Field(rec, columns[k].0)
  {
    if k > 0 {
      assert columns[1..][k - 1] == columns[k];
      BaseField(columns[1..], rec, k - 1);
    }
  }

  lemma {:induction false} BaseRowAt(columns: seq<(string, Column)>, recs: seq<map<string, Val>>, i: nat)
    requires i < |recs|
    ensures |BaseRows(columns, recs)| == |recs| && BaseRows(columns, recs)[i] == BaseRow(columns, recs[i])
  {
    if |recs| > 1 {
      BaseRowAt(columns, recs[1..], if i == 0 then 0 else i - 1);
    }
  }

  lemma BaseUnique(columns: seq<(string, Column)>, recs: seq<map<string, Val>>, primaryKey: seq<string>, o: Row)
    requires DistinctColumns(columns) && AllMapped(columns, primaryKey) && ObeysKey(recs, primaryKey)
    ensures Unique(BaseRows(columns, recs), o, KeyColumns(columns, primaryKey))
  {
    var rows, key := BaseRows(columns, recs), KeyColumns(columns, primaryKey);
    if recs != [] { BaseRowAt(columns, recs, 0); }
    forall i, j | 0 <= i < j < |rows| ensures !AgreeOn(o + rows[i], o + rows[j], key) {
      BaseRowAt(columns, recs, i);
      BaseRowAt(columns, recs, j);
      var name :| name in primaryKey && Field(recs[i], name) != Field(recs[j], name);
      var k :| 0 <= k < |columns| && columns[k].0 == name;
      BaseField(columns, recs[i], k);
      BaseField(columns, recs[j], k);
      assert columns[k] in columns && columns[k].1 in key;
    }
    UniqueByPosition(rows, o, key);
  }

  /** A key determines everything. */
  lemma KeyDetermines(rows: seq<Row>, o: Row, key: set<Column>, cols: set<Column>)
    requires Unique(rows, o, key)
    ensures Satisfies(rows, o, (key, cols))
  {
    UniqueByPosition(rows, o, key);
    forall x, y | x in rows && y in rows && AgreeOn(o + x, o + y, key) ensures AgreeOn(o + x, o + y, cols) {
      var i :| 0 <= i < |rows| && rows[i] == x;
      var j :| 0 <= j < |rows| && rows[j] == y;
      if i < j { assert false; } else if j < i {
        assert AgreeOn(o + rows[j], o + rows[i], key);
        assert false;
      }
    }
  }

  // ---- Operators that add columns ------------------------------------------------------------------

  /** y is x with some columns of added set or changed. */
  ghost predicate Extends(y: Row, x: Row, added: set<Column>) {
    forall c :: c !in added ==> (c in y <==> c in x) && Get(y, c) == Get(x, c)
  }

  lemma ExtendsAgrees(y: Row, x: Row, o: Row, added: set<Column>, cs: set<Column>)
    requires Extends(y, x, added) && added !! cs
    ensures AgreeOn(o + y, o + x, cs)
  {
    forall c | c in cs ensures Get(o + y, c) == Get(o + x, c) {
      assert c !in added;
      assert (c in y <==> c in x) && Get(y, c) == Get(x, c);
    }
  }

  /** Every row of more is one of rows with some columns of added set. */
  ghost predicate Widens(more: seq<Row>, rows: seq<Row>, added: set<Column>) {
    forall x :: x in more ==> exists y :: y in rows && Extends(x, y, added)
  }

  lemma WidensCarries(more: seq<Row>, rows: seq<Row>, added: set<Column>, o: Row, cs: set<Column>)
    requires Widens(more, rows, added) && added !! cs
    ensures Carries(more, rows, o, cs)
  {
    forall x | x in more ensures exists y :: y in rows && AgreeOn(o + x, o + y, cs) {
      var y :| y in rows && Extends(x, y, added);
      ExtendsAgrees(x, y, o, added, cs);
    }
  }

  lemma WidensUnbound(more: seq<Row>, rows: seq<Row>, added: set<Column>, cs: set<Column>, others: set<Column>)
    requires Widens(more, rows, added) && Within(rows, cs) && cs !! others && added !! others
    ensures forall x :: x in more ==> Unbound(x, others)
  {
    forall x | x in more ensures Unbound(x, others) {
      var y :| y in rows && Extends(x, y, added);
      forall c | c in others ensures c !in x {
        assert y.Keys <= cs && c !in cs && c !in added;
        assert c !in y.Keys;
      }
    }
  }

  lemma WidensTail(more: seq<Row>, rows: seq<Row>, added: set<Column>)
    requires rows != [] && Widens(more, rows[1..], added)
    ensures Widens(more, rows, added)
  {
    forall x | x in more ensures exists y :: y in rows && Extends(x, y, added) {
      var y :| y in rows[1..] && Extends(x, y, added);
      assert y in rows;
    }
  }

  lemma WidensOne(x: Row, more: seq<Row>, rows: seq<Row>, added: set<Column>)
    requires rows != [] && Extends(x, rows[0], added) && Widens(more, rows[1..], added)
    ensures Widens([x] + more, rows, added)
  {
    WidensTail(more, rows, added);
    assert rows[0] in rows;
  }

  lemma {:induction false} ComputeExtends(w: World, computed: seq<(Column, Expr)>, t: Row, row: Row)
    ensures Extends(Compute(w, computed, t, row), row, Firsts(computed))
    decreases |computed|
  {
    if computed != [] {
      assert computed[0] in computed && Firsts(computed[1..]) <= Firsts(computed);
      ComputeExtends(w, computed[1..], t, row[computed[0].0 := Eval(w, computed[0].1, t)]);
    }
  }

  lemma {:induction false} MapWidens(w: World, computed: seq<(Column, Expr)>, rows: seq<Row>, o: Row, vis: set<Column>)
    ensures Widens(MapRows(w, computed, rows, o, vis), rows, Firsts(computed))
  {
    if rows != [] {
      var t := o + Visible(rows[0], vis);
      ComputeExtends(w, computed, t, rows[0]);
      MapWidens(w, computed, rows[1..], o, vis);
      WidensOne(Compute(w, computed, t, rows[0]), MapRows(w, computed, rows[1..], o, vis), rows, Firsts(computed));
    }
  }

  lemma {:induction false} MappedExtends(mapping: seq<(Column, Column)>, t: Row, row: Row)
    ensures Extends(Mapped(mapping, t, row), row, Firsts(mapping))
    decreases |mapping|
  {
    if mapping != [] {
      assert mapping[0] in mapping && Firsts(mapping[1..]) <= Firsts(mapping);
      MappedExtends(mapping[1..], t, row[mapping[0].0 := Get(t, mapping[0].1)]);
    }
  }

  lemma {:induction false} RenamedWidens(columns: seq<(Column, Column)>, rows: seq<Row>, o: Row, vis: set<Column>)
    ensures Widens(Renamed(columns, rows, o, vis), rows, Firsts(columns))
  {
    if rows != [] {
      var t := o + Visible(rows[0], vis);
      MappedExtends(columns, t, rows[0]);
      RenamedWidens(columns, rows[1..], o, vis);
      WidensOne(Mapped(columns, t, rows[0]), Renamed(columns, rows[1..], o, vis), rows, Firsts(columns));
    }
  }

  lemma {:induction false} OuterExtends(mapping: seq<(Column, Column)>, l: Row, matches: seq<Row>, t: Row, vis: set<Column>)
    ensures forall x :: x in OuterRows(mapping, l, matches, t, vis) ==> Extends(x, l, Firsts(mapping))
  {
    if matches != [] {
      MappedExtends(mapping, t + Visible(matches[0], vis), l);
      OuterExtends(mapping, l, matches[1..], t, vis);
    }
  }

  /** Mark and outer joins add columns to left rows, and bind no column of the right input. */
  lemma {:induction false} LeftWidens(w: World, kind: JoinKind, pred: Expr, lefts: seq<Row>, rights: seq<seq<Row>>, o: Row,
                                      visL: set<Column>, visR: set<Column>)
    requires |lefts| == |rights| && (kind.Mark? || kind.Outer?)
    ensures Widens(JoinRows(w, kind, pred, lefts, rights, o, visL, visR), lefts, CreatedByJoin(kind))
  {
    if lefts != [] {
      var t := o + Visible(lefts[0], visL);
      var matches := Matches(w, pred, rights[0], t, visR);
      var one := JoinOne(kind, lefts[0], matches, t, visR);
      forall x | x in one ensures Extends(x, lefts[0], CreatedByJoin(kind)) {
        if kind.Outer? {
          MappedExtends(kind.mapping, map[], lefts[0]);
          OuterExtends(kind.mapping, lefts[0], matches, t, visR);
        }
      }
      LeftWidens(w, kind, pred, lefts[1..], rights[1..], o, visL, visR);
      WidensTail(JoinRows(w, kind, pred, lefts[1..], rights[1..], o, visL, visR), lefts, CreatedByJoin(kind));
      assert lefts[0] in lefts;
    }
  }

  // ---- Aggregation ------------------------------------------------------------------------------------

  lemma {:induction false} SummarizeExtends(w: World, aggregates: seq<Aggregate>, group: seq<Row>, o: Row, vis: set<Column>, row: Row)
    ensures Extends(Summarize(w, aggregates, group, o, vis, row), row, AggregateColumns(aggregates))
    decreases |aggregates|
  {
    if aggregates != [] {
      var a := aggregates[0];
      assert a in aggregates && AggregateColumns(aggregates[1..]) <= AggregateColumns(aggregates);
      SummarizeExtends(w, aggregates[1..], group, o, vis, row[a.col := w.aggregate(a.code, ArgValues(group, a.arg, o, vis))]);
    }
  }

  lemma {:induction false} GroupsWiden(w: World, groupBy: seq<Column>, aggregates: seq<Aggregate>, rows: seq<Row>, o: Row, vis: set<Column>)
    ensures Widens(Groups(w, groupBy, aggregates, rows, o, vis), rows, AggregateColumns(aggregates))
    decreases |rows|
  {
    if rows != [] {
      var key := KeyOf(o + Visible(rows[0], vis), groupBy);
      var rest := OutOfGroup(rows[1..], groupBy, key, o, vis);
      var group := InGroup(rows, groupBy, key, o, vis);
      SummarizeExtends(w, aggregates, group, o, vis, rows[0]);
      GroupsWiden(w, groupBy, aggregates, rest, o, vis);
      OutOfGroupWithin(rows[1..], groupBy, key, o, vis);
      var more := Groups(w, groupBy, aggregates, rest, o, vis);
      assert Widens(more, rows[1..], AggregateColumns(aggregates)) by {
        forall x | x in more ensures exists y :: y in rows[1..] && Extends(x, y, AggregateColumns(aggregates)) {
          var y :| y in rest && Extends(x, y, AggregateColumns(aggregates));
          assert y in rows[1..];
        }
      }
      WidensOne(Summarize(w, aggregates, group, o, vis, rows[0]), more, rows, AggregateColumns(aggregates));
    }
  }

  lemma {:induction false} OutOfGroupKeys(rows: seq<Row>, cols: seq<Column>, key: seq<Val>, o: Row, vis: set<Column>)
    ensures forall x :: x in OutOfGroup(rows, cols, key, o, vis) ==> KeyOf(o + Visible(x, vis), cols) != key
  {
    if rows != [] { OutOfGroupKeys(rows[1..], cols, key, o, vis); }
  }

  /** Grouping columns that are visible or not bound by the row read the same in the group's row. */
  lemma GroupKey(y: Row, x: Row, o: Row, vis: set<Column>, added: set<Column>, cols: seq<Column>)
    requires Extends(y, x, added) && added !! ColumnSet(cols)
    requires forall c :: c in cols ==> c in vis || c !in x
    ensures KeyOf(o + y, cols) == KeyOf(o + Visible(x, vis), cols)
  {
    ExtendsAgrees(y, x, o, added, ColumnSet(cols));
    forall i | 0 <= i < |cols| ensures Get(o + y, cols[i]) == Get(o + Visible(x, vis), cols[i]) {
      assert cols[i] in cols && cols[i] in ColumnSet(cols);
      VisibleValue(o, x, vis, cols[i]);
    }
  }

  lemma SameKeyOf(s: Row, t: Row, cols: seq<Column>)
    ensures AgreeOn(s, t, ColumnSet(cols)) ==> KeyOf(s, cols) == KeyOf(t, cols)
  {
    if AgreeOn(s, t, ColumnSet(cols)) {
      forall i | 0 <= i < |cols| ensures Get(s, cols[i]) == Get(t, cols[i]) {
        assert cols[i] in ColumnSet(cols);
      }
    }
  }

  ghost predicate KeyVisible(rows: seq<Row>, vis: set<Column>, cols: seq<Column>) {
    forall x, c :: x in rows && c in cols ==> c in vis || c !in x
  }

  /** No two groups agree on the grouping columns. */
  lemma {:induction false} GroupsUnique(w: World, groupBy: seq<Column>, aggregates: seq<Aggregate>, rows: seq<Row>, o: Row, vis: set<Column>)
    requires AggregateColumns(aggregates) !! ColumnSet(groupBy) && KeyVisible(rows, vis, groupBy)
    ensures Unique(Groups(w, groupBy, aggregates, rows, o, vis), o, ColumnSet(groupBy))
    decreases |rows|
  {
    if rows != [] {
      var added := AggregateColumns(aggregates);
      var key := KeyOf(o + Visible(rows[0], vis), groupBy);
      var rest := OutOfGroup(rows[1..], groupBy, key, o, vis);
      OutOfGroupWithin(rows[1..], groupBy, key, o, vis);
      OutOfGroupKeys(rows[1..], groupBy, key, o, vis);
      assert KeyVisible(rest, vis, groupBy);
      GroupsUnique(w, groupBy, aggregates, rest, o, vis);
      var first := Summarize(w, aggregates, InGroup(rows, groupBy, key, o, vis), o, vis, rows[0]);
      SummarizeExtends(w, aggregates, InGroup(rows, groupBy, key, o, vis), o, vis, rows[0]);
      assert rows[0] in rows;
      GroupKey(first, rows[0], o, vis, added, groupBy);
      var more := Groups(w, groupBy, aggregates, rest, o, vis);
      GroupsWiden(w, groupBy, aggregates, rest, o, vis);
      forall y | y in more ensures !AgreeOn(o + first, o + y, ColumnSet(groupBy)) {
        var x :| x in rest && Extends(y, x, added);
        GroupKey(y, x, o, vis, added, groupBy);
        SameKeyOf(o + first, o + y, groupBy);
      }
      assert ([first] + more)[1..] == more;
    }
  }

  // ---- Inner joins ----------------------------------------------------------------------------------------

  /** x joins a left and a right row that together pass the predicate. */
  ghost predicate Combines(x: Row, w: World, pred: Expr, lefts: seq<Row>, rights: seq<Row>, o: Row, visL: set<Column>, visR: set<Column>) {
    exists l, r :: l in lefts && r in rights && x == l + r && Holds(w, pred, o + Visible(l, visL) + Visible(r, visR))
  }

  lemma {:induction false} MatchesHold(w: World, pred: Expr, rights: seq<Row>, t: Row, vis: set<Column>)
    ensures forall r :: r in Matches(w, pred, rights, t, vis) ==> r in rights && Holds(w, pred, t + Visible(r, vis))
  {
    if rights != [] { MatchesHold(w, pred, rights[1..], t, vis); }
  }

  lemma {:induction false} MatchesUnique(w: World, pred: Expr, rights: seq<Row>, t: Row, vis: set<Column>, o: Row, key: set<Column>)
    requires Unique(rights, o, key)
    ensures Unique(Matches(w, pred, rights, t, vis), o, key)
  {
    if rights != [] {
      MatchesUnique(w, pred, rights[1..], t, vis, o, key);
      MatchesHold(w, pred, rights[1..], t, vis);
      var rest := Matches(w, pred, rights[1..], t, vis);
      assert AgreesWithNone(rights[0], rest, o, key);
      assert ([rights[0]] + rest)[1..] == rest && [] + rest == rest;
    }
  }

  lemma {:induction false} PairMembers(l: Row, rights: seq<Row>)
    ensures forall x :: x in Pair(l, rights) ==> exists r :: r in rights && x == l + r
  {
    if rights != [] {
      PairMembers(l, rights[1..]);
      assert rights[0] in rights;
    }
  }

  lemma {:induction false} JoinMembers(w: World, pred: Expr, lefts: seq<Row>, rights: seq<seq<Row>>, all: seq<Row>, o: Row,
                                       visL: set<Column>, visR: set<Column>)
    requires |lefts| == |rights| && forall i :: 0 <= i < |rights| ==> rights[i] == all
    ensures forall x :: x in JoinRows(w, Inner, pred, lefts, rights, o, visL, visR) ==>
              Combines(x, w, pred, lefts, all, o, visL, visR)
  {
    if lefts != [] {
      var t := o + Visible(lefts[0], visL);
      var matches := Matches(w, pred, rights[0], t, visR);
      MatchesHold(w, pred, rights[0], t, visR);
      PairMembers(lefts[0], matches);
      JoinMembers(w, pred, lefts[1..], rights[1..], all, o, visL, visR);
      forall x | x in Pair(lefts[0], matches) ensures Combines(x, w, pred, lefts, all, o, visL, visR) {
        var r :| r in matches && x == lefts[0] + r;
        assert lefts[0] in lefts && r in all;
      }
      forall x | Combines(x, w, pred, lefts[1..], all, o, visL, visR) ensures Combines(x, w, pred, lefts, all, o, visL, visR) {
        var l, r :| l in lefts[1..] && r in all && x == l + r && Holds(w, pred, o + Visible(l, visL) + Visible(r, visR));
        assert l in lefts;
      }
    }
  }

  lemma LeftPart(l: Row, r: Row, o: Row, cs: set<Column>)
    requires r.Keys !! cs
    ensures AgreeOn(o + (l + r), o + l, cs)
  {
    forall c | c in cs ensures Get(o + (l + r), c) == Get(o + l, c) {
      assert c !in r.Keys;
    }
  }

  lemma RightPart(l: Row, r: Row, o: Row, cs: set<Column>)
    requires l.Keys !! cs
    ensures AgreeOn(o + (l + r), o + r, cs)
  {
    forall c | c in cs ensures Get(o + (l + r), c) == Get(o + r, c) {
      assert c !in l.Keys;
    }
  }

  lemma {:induction false} PairUnique(l: Row, rights: seq<Row>, o: Row, key: set<Column>)
    requires Unique(rights, o, key) && l.Keys !! key
    ensures Unique(Pair(l, rights), o, key)
  {
    if rights != [] {
      PairUnique(l, rights[1..], o, key);
      PairMembers(l, rights[1..]);
      var rest := Pair(l, rights[1..]);
      RightPart(l, rights[0], o, key);
      forall y | y in rest ensures !AgreeOn(o + (l + rights[0]), o + y, key) {
        var r :| r in rights[1..] && y == l + r;
        RightPart(l, r, o, key);
        assert !AgreeOn(o + rights[0], o + r, key);
      }
      assert ([l + rights[0]] + rest)[1..] == rest;
    }
  }

  lemma {:induction false} UniqueWider(rows: seq<Row>, o: Row, key: set<Column>, more: set<Column>)
    requires Unique(rows, o, key) && key <= more
    ensures Unique(rows, o, more)
  {
    if rows != [] {
      UniqueWider(rows[1..], o, key, more);
    }
  }

  /** Joins of different left rows disagree on the left key. */
  lemma LeftsDiffer(x: Row, y: Row, l: Row, k: Row, r: Row, s: Row, o: Row, lk: set<Column>, key: set<Column>)
    requires x == l + r && y == k + s && !AgreeOn(o + l, o + k, lk) && lk <= key
    requires r.Keys !! lk && s.Keys !! lk
    ensures !AgreeOn(o + x, o + y, key)
  {
    LeftPart(l, r, o, lk);
    LeftPart(k, s, o, lk);
    var c :| c in lk && Get(o + l, c) != Get(o + k, c);
    assert c in key;
  }

  /** The keys of both inputs together are a key of the join. */
  lemma {:induction false} JoinUnique(w: World, pred: Expr, lefts: seq<Row>, rights: seq<seq<Row>>, all: seq<Row>, o: Row,
                                      visL: set<Column>, visR: set<Column>, lk: set<Column>, rk: set<Column>)
    requires |lefts| == |rights| && forall i :: 0 <= i < |rights| ==> rights[i] == all
    requires Unique(lefts, o, lk) && Unique(all, o, rk)
    requires (forall l :: l in lefts ==> l.Keys !! rk) && (forall r :: r in all ==> r.Keys !! lk)
    ensures Unique(JoinRows(w, Inner, pred, lefts, rights, o, visL, visR), o, lk + rk)
  {
    if lefts != [] {
      var t := o + Visible(lefts[0], visL);
      var matches := Matches(w, pred, all, t, visR);
      assert rights[0] == all && lefts[0] in lefts;
      MatchesUnique(w, pred, all, t, visR, o, rk);
      MatchesHold(w, pred, all, t, visR);
      PairUnique(lefts[0], matches, o, rk);
      PairMembers(lefts[0], matches);
      UniqueWider(Pair(lefts[0], matches), o, rk, lk + rk);
      JoinUnique(w, pred, lefts[1..], rights[1..], all, o, visL, visR, lk, rk);
      JoinMembers(w, pred, lefts[1..], rights[1..], all, o, visL, visR);
      var rest := JoinRows(w, Inner, pred, lefts[1..], rights[1..], o, visL, visR);
      forall x | x in Pair(lefts[0], matches) ensures AgreesWithNone(x, rest, o, lk + rk) {
        var r :| r in matches && x == lefts[0] + r;
        forall y | y in rest ensures !AgreeOn(o + x, o + y, lk + rk) {
          assert Combines(y, w, pred, lefts[1..], all, o, visL, visR);
          var k, s :| k in lefts[1..] && s in all && y == k + s;
          assert !AgreeOn(o + lefts[0], o + k, lk);
          LeftsDiffer(x, y, lefts[0], k, r, s, o, lk, lk + rk);
        }
      }
      UniqueConcat(Pair(lefts[0], matches), rest, o, lk + rk);
    }
  }

  /** What the predicate saw is what the joined row holds. */
  lemma JoinSees(l: Row, r: Row, o: Row, visL: set<Column>, visR: set<Column>, cl: set<Column>, cr: set<Column>, cs: set<Column>, outer: set<Column>)
    requires l.Keys <= cl && r.Keys <= cr && cl !! cr && outer !! cl + cr
    requires visL <= cl && visR <= cr && cs <= visL + visR + outer
    ensures AgreeOn(o + Visible(l, visL) + Visible(r, visR), o + (l + r), cs)
  {
    forall c | c in cs ensures Get(o + Visible(l, visL) + Visible(r, visR), c) == Get(o + (l + r), c) {
      if c in visR {
        assert c in cr && c !in cl && c !in l.Keys;
      } else if c in visL {
        assert c in cl && c !in cr && c !in r.Keys;
      } else {
        assert c in outer && c !in cl + cr && c !in l.Keys && c !in r.Keys;
      }
    }
  }

  ghost predicate AllCombine(rows: seq<Row>, w: World, pred: Expr, lefts: seq<Row>, rights: seq<Row>, o: Row, visL: set<Column>, visR: set<Column>) {
    forall x :: x in rows ==> Combines(x, w, pred, lefts, rights, o, visL, visR)
  }

  lemma JoinCarriesLeft(rows: seq<Row>, w: World, pred: Expr, lefts: seq<Row>, rights: seq<Row>, o: Row,
                        visL: set<Column>, visR: set<Column>, cr: set<Column>, cs: set<Column>)
    requires AllCombine(rows, w, pred, lefts, rights, o, visL, visR) && Within(rights, cr) && cr !! cs
    ensures Carries(rows, lefts, o, cs)
  {
    forall x | x in rows ensures exists y :: y in lefts && AgreeOn(o + x, o + y, cs) {
      assert Combines(x, w, pred, lefts, rights, o, visL, visR);
      var l, r :| l in lefts && r in rights && x == l + r;
      LeftPart(l, r, o, cs);
    }
  }

  lemma JoinCarriesRight(rows: seq<Row>, w: World, pred: Expr, lefts: seq<Row>, rights: seq<Row>, o: Row,
                         visL: set<Column>, visR: set<Column>, cl: set<Column>, cs: set<Column>)
    requires AllCombine(rows, w, pred, lefts, rights, o, visL, visR) && Within(lefts, cl) && cl !! cs
    ensures Carries(rows, rights, o, cs)
  {
    forall x | x in rows ensures exists y :: y in rights && AgreeOn(o + x, o + y, cs) {
      assert Combines(x, w, pred, lefts, rights, o, visL, visR);
      var l, r :| l in lefts && r in rights && x == l + r;
      RightPart(l, r, o, cs);
    }
  }

  lemma JoinAllSeen(rows: seq<Row>, w: World, pred: Expr, lefts: seq<Row>, rights: seq<Row>, o: Row,
                    visL: set<Column>, visR: set<Column>, cl: set<Column>, cr: set<Column>, outer: set<Column>)
    requires AllCombine(rows, w, pred, lefts, rights, o, visL, visR) && Within(lefts, cl) && Within(rights, cr)
    requires cl !! cr && outer !! cl + cr && visL <= cl && visR <= cr && Used(pred) <= visL + visR + outer
    ensures AllSeen(w, pred, rows, o)
  {
    forall x | x in rows ensures Holds(w, pred, o + x) {
      assert Combines(x, w, pred, lefts, rights, o, visL, visR);
      var l, r :| l in lefts && r in rights && x == l + r && Holds(w, pred, o + Visible(l, visL) + Visible(r, visR));
      JoinSees(l, r, o, visL, visR, cl, cr, Used(pred), outer);
      EvalDependsOnUsed(w, pred, o + Visible(l, visL) + Visible(r, visR), o + x);
    }
  }

  lemma FilterAllSeen(w: World, pred: Expr, rows: seq<Row>, o: Row, vis: set<Column>, outer: set<Column>, cs: set<Column>)
    requires Within(rows, cs) && outer !! cs && Used(pred) <= vis + outer
    ensures AllSeen(w, pred, Filter(w, pred, rows, o, vis), o)
  {
    FilterHolds(w, pred, rows, o, vis);
    forall x | x in Filter(w, pred, rows, o, vis) ensures Holds(w, pred, o + x) {
      assert x.Keys <= cs;
      forall c | c in Used(pred) ensures Get(o + Visible(x, vis), c) == Get(o + x, c) {
        assert c in vis || c !in x.Keys;
        VisibleValue(o, x, vis, c);
      }
      EvalDependsOnUsed(w, pred, o + Visible(x, vis), o + x);
    }
  }

  lemma {:induction false} FilterHolds(w: World, pred: Expr, rows: seq<Row>, o: Row, vis: set<Column>)
    ensures forall x :: x in Filter(w, pred, rows, o, vis) ==> x in rows && Holds(w, pred, o + Visible(x, vis))
  {
    if rows != [] { FilterHolds(w, pred, rows[1..], o, vis); }
  }

  lemma CoveredSet(a: set<Column>, b: set<Column>)
    requires |a * b| == |b|
    ensures b <= a
  {
    if a * b != b { ProperSubsetIsSmaller(a * b, b); }
  }

  /** The key the join picks determines both inputs' keys. */
  lemma JoinKeyDetermines(fds: seq<Dependency>, lk: Option<set<Column>>, rk: Option<set<Column>>)
    requires JoinKey(fds, lk, rk).Some?
    ensures lk.Some? && rk.Some? && lk.value + rk.value <= Expand(fds, JoinKey(fds, lk, rk).value)
  {
    if |Expand(fds, lk.value) * rk.value| == |rk.value| {
      CoveredSet(Expand(fds, lk.value), rk.value);
    } else {
      CoveredSet(Expand(fds, rk.value), lk.value);
    }
  }

  // ---- The theorem -----------------------------------------------------------------------------------------

  /** The plan is well-formed, and the enclosing tuple o binds none of its columns. */
  ghost predicate Analysable(w: World, p: Plan, o: Row, outer: set<Column>) {
    CreatedOnce(p) && ReadsVisible(p, outer) && Premises(w, p) && Unbound(o, CreatedWithin(p)) && outer !! CreatedWithin(p)
  }

  /** Every dependency and every key that getFDs returns holds on the plan's rows. */
  lemma {:induction false} InferSound(w: World, p: Plan, o: Row, outer: set<Column>)
    requires Analysable(w, p, o, outer)
    ensures Sound(Rows(w, p, o), o, Infer(p))
    decreases p, 1
  {
    match p
    case BaseTable(table, columns, present, primaryKey) => BaseSound(w, p, o, outer);
    case Selection(child, pred) =>
      InferSound(w, child, o, outer);
      SelectionSound(w, p, o, outer);
    case MapOp(child, computed) =>
      InferSound(w, child, o, outer);
      MapWidens(w, computed, Rows(w, child, o), o, Output(child));
      WidenedSound(w, p, o, outer, Firsts(computed));
    case Renaming(child, columns) =>
      InferSound(w, child, o, outer);
      RenamedWidens(columns, Rows(w, child, o), o, Output(child));
      WidenedSound(w, p, o, outer, Firsts(columns));
    case Projection(child, distinct, cols) =>
      InferSound(w, child, o, outer);
      ProjectionSound(w, p, o);
    case Aggregation(child, groupBy, aggregates) =>
      InferSound(w, child, o, outer);
      AggregationSound(w, p, o, outer);
    case CrossProduct(l, r) =>
      InferSound(w, l, o, outer);
      InferSound(w, r, o, outer);
      InnerSound(w, p, o, outer, Constant(Bool(true)));
    case Join(kind, l, r, pred, lh, rh) =>
      InferSound(w, l, o, outer);
      if kind.Inner? {
        InferSound(w, r, o, outer);
        InnerSound(w, p, o, outer, pred);
      } else {
        LeftJoinSound(w, p, o, outer);
      }
  }

  lemma BaseSound(w: World, p: Plan, o: Row, outer: set<Column>)
    requires p.BaseTable? && Analysable(w, p, o, outer)
    ensures Sound(Rows(w, p, o), o, Infer(p))
  {
    if p.present && p.primaryKey != [] {
      var rows, pk := Rows(w, p, o), KeyColumns(p.columns, p.primaryKey);
      BaseUnique(p.columns, Records(w, p.table), p.primaryKey, o);
      KeyDetermines(rows, o, pk, Available(p) - pk);
    }
  }

  lemma SelectionSound(w: World, p: Plan, o: Row, outer: set<Column>)
    requires p.Selection? && Analysable(w, p, o, outer)
    requires Sound(Rows(w, p.child, o), o, Infer(p.child))
    ensures Sound(Rows(w, p, o), o, Infer(p))
  {
    var before, rows := Rows(w, p.child, o), Rows(w, p, o);
    FilterWithin(w, p.pred, before, o, Output(p.child));
    RowsBindCreated(w, p.child, o);
    SubsetSatisfies(rows, before, o, Infer(p.child).fds);
    FilterAllSeen(w, p.pred, before, o, Output(p.child), outer, CreatedWithin(p.child));
    PredicateDependencies(w, p.pred, rows, o);
    SatisfiesBoth(rows, o, Infer(p.child).fds, FromPredicate(p.pred));
    if Infer(p.child).key.Some? {
      FilterUnique(w, p.pred, before, o, Output(p.child), Infer(p.child).key.value);
    }
  }

  lemma SubsetSatisfies(more: seq<Row>, rows: seq<Row>, o: Row, fds: seq<Dependency>)
    requires SatisfiesAll(rows, o, fds) && forall x :: x in more ==> x in rows
    ensures SatisfiesAll(more, o, fds)
  {
    forall fd | fd in fds ensures Satisfies(more, o, fd) {
      assert Satisfies(rows, o, fd);
    }
  }

  /** Operators that only set columns of their own, without a key. */
  lemma WidenedSound(w: World, p: Plan, o: Row, outer: set<Column>, added: set<Column>)
    requires (p.MapOp? || p.Renaming?) && Analysable(w, p, o, outer) && added == Created(p)
    requires SatisfiesAll(Rows(w, p.child, o), o, Infer(p.child).fds)
    requires Widens(Rows(w, p, o), Rows(w, p.child, o), added)
    ensures Sound(Rows(w, p, o), o, Infer(p))
  {
    InferMentionsKnown(p.child, outer);
    WidensCarries(Rows(w, p, o), Rows(w, p.child, o), added, o, Known(p.child, outer));
    CarriesKeeps(Rows(w, p, o), Rows(w, p.child, o), o, Known(p.child, outer), Infer(p.child).fds);
  }

  lemma ProjectionSound(w: World, p: Plan, o: Row)
    requires p.Projection? && SatisfiesAll(Rows(w, p.child, o), o, Infer(p.child).fds)
    ensures Sound(Rows(w, p, o), o, Infer(p))
  {
    if p.distinct { DistinctWithin(p.cols, Rows(w, p.child, o), o, Output(p.child)); }
    SubsetSatisfies(Rows(w, p, o), Rows(w, p.child, o), o, Infer(p.child).fds);
    assert Infer(p) == Deps(Infer(p.child).fds, None);
  }

  lemma OneRow(rows: seq<Row>, o: Row, d: Deps)
    requires |rows| == 1
    ensures Sound(rows, o, d)
  {
    forall fd | fd in d.fds ensures Satisfies(rows, o, fd) {
      forall x, y | x in rows && y in rows ensures x == rows[0] == y {}
    }
  }

  lemma AggregationSound(w: World, p: Plan, o: Row, outer: set<Column>)
    requires p.Aggregation? && Analysable(w, p, o, outer)
    requires Sound(Rows(w, p.child, o), o, Infer(p.child))
    ensures Sound(Rows(w, p, o), o, Infer(p))
  {
    var before, rows := Rows(w, p.child, o), Rows(w, p, o);
    if p.groupBy == [] {
      OneRow(rows, o, Infer(p));
    } else {
      GroupsWiden(w, p.groupBy, p.aggregates, before, o, Output(p.child));
      InferMentionsKnown(p.child, outer);
      WidensCarries(rows, before, AggregateColumns(p.aggregates), o, Known(p.child, outer));
      CarriesKeeps(rows, before, o, Known(p.child, outer), Infer(p.child).fds);
      RowsBindCreated(w, p.child, o);
      GroupsReadVisible(w, p, o, outer);
      GroupsUnique(w, p.groupBy, p.aggregates, before, o, Output(p.child));
    }
  }

  lemma GroupsReadVisible(w: World, p: Plan, o: Row, outer: set<Column>)
    requires p.Aggregation? && Analysable(w, p, o, outer)
    ensures KeyVisible(Rows(w, p.child, o), Output(p.child), p.groupBy)
  {
    RowsBindCreated(w, p.child, o);
    forall x, c | x in Rows(w, p.child, o) && c in p.groupBy ensures c in Output(p.child) || c !in x {
      assert c in ColumnSet(p.groupBy) && c in UsedBy(p) && x.Keys <= CreatedWithin(p.child);
      assert c !in Output(p.child) ==> c in outer;
    }
  }

  /** The right input of an inner join or cross product does not see the left tuple. */
  lemma RightsAreTheSame(w: World, l: Plan, r: Plan, o: Row, outer: set<Column>)
    requires CreatedOnce(r) && ReadsVisible(r, outer) && Unbound(o, CreatedWithin(r))
    requires CreatedWithin(l) !! CreatedWithin(r) && outer !! CreatedWithin(l)
    ensures forall i :: 0 <= i < |Rows(w, l, o)| ==> RightRows(w, Rows(w, l, o), r, o, Output(l))[i] == Rows(w, r, o)
  {
    RowsBindCreated(w, l, o);
    FreeIsOuter(r, outer);
    forall x | x in Rows(w, l, o) ensures Rows(w, r, o + Visible(x, Output(l))) == Rows(w, r, o) {
      assert x.Keys <= CreatedWithin(l);
      var v := Visible(x, Output(l));
      assert v.Keys <= x.Keys;
      BindingOthersIsIrrelevant(w, r, o, v);
    }
    RightsAreConstant(w, Rows(w, l, o), r, o, Output(l));
  }

  /** The dependencies that a join adds to those of its inputs. */
  function JoinDependencies(p: Plan): seq<Dependency>
    requires p.CrossProduct? || p.Join?
  {
    if p.Join? && p.kind.Inner? then HashDependencies(p.leftHash, p.rightHash) + FromPredicate(p.pred) else []
  }

  lemma JoinDependenciesHold(w: World, p: Plan, o: Row, rows: seq<Row>, pred: Expr)
    requires (p.CrossProduct? && pred == Constant(Bool(true))) || (p.Join? && p.kind.Inner? && pred == p.pred)
    requires Premises(w, p) && AllSeen(w, pred, rows, o)
    ensures SatisfiesAll(rows, o, JoinDependencies(p))
  {
    if p.Join? {
      PredicateDependencies(w, pred, rows, o);
      if p.leftHash.Some? && p.rightHash.Some? && |p.leftHash.value| == |p.rightHash.value| {
        HashesDetermine(w, pred, rows, o, p.leftHash.value, p.rightHash.value);
      }
      SatisfiesBoth(rows, o, HashDependencies(p.leftHash, p.rightHash), FromPredicate(pred));
    }
  }

  lemma InnerDependencies(w: World, p: Plan, o: Row, outer: set<Column>, pred: Expr)
    requires (p.CrossProduct? && pred == Constant(Bool(true))) || (p.Join? && p.kind.Inner? && pred == p.pred)
    requires Analysable(w, p, o, outer)
    requires Sound(Rows(w, p.left, o), o, Infer(p.left)) && Sound(Rows(w, p.right, o), o, Infer(p.right))
    ensures SatisfiesAll(Rows(w, p, o), o, JoinDependencies(p) + Infer(p.left).fds + Infer(p.right).fds)
  {
    var l, r := p.left, p.right;
    var lefts, all, rows := Rows(w, l, o), Rows(w, r, o), Rows(w, p, o);
    var rights := RightRows(w, lefts, r, o, Output(l));
    RightsAreTheSame(w, l, r, o, outer);
    JoinMembers(w, pred, lefts, rights, all, o, Output(l), Output(r));
    RowsBindCreated(w, l, o);
    RowsBindCreated(w, r, o);
    OutputIsCreated(l);
    OutputIsCreated(r);
    JoinAllSeen(rows, w, pred, lefts, all, o, Output(l), Output(r), CreatedWithin(l), CreatedWithin(r), outer);
    JoinDependenciesHold(w, p, o, rows, pred);
    InferMentionsKnown(l, outer);
    InferMentionsKnown(r, outer);
    JoinCarriesLeft(rows, w, pred, lefts, all, o, Output(l), Output(r), CreatedWithin(r), Known(l, outer));
    CarriesKeeps(rows, lefts, o, Known(l, outer), Infer(l).fds);
    JoinCarriesRight(rows, w, pred, lefts, all, o, Output(l), Output(r), CreatedWithin(l), Known(r, outer));
    CarriesKeeps(rows, all, o, Known(r, outer), Infer(r).fds);
    SatisfiesBoth(rows, o, JoinDependencies(p), Infer(l).fds);
    SatisfiesBoth(rows, o, JoinDependencies(p) + Infer(l).fds, Infer(r).fds);
  }

  lemma InnerKeys(w: World, p: Plan, o: Row, outer: set<Column>)
    requires p.Join? && p.kind.Inner? && Analysable(w, p, o, outer)
    requires Infer(p.left).key.Some? && Infer(p.right).key.Some?
    requires Unique(Rows(w, p.left, o), o, Infer(p.left).key.value) && Unique(Rows(w, p.right, o), o, Infer(p.right).key.value)
    ensures Unique(Rows(w, p, o), o, Infer(p.left).key.value + Infer(p.right).key.value)
  {
    var l, r := p.left, p.right;
    RightsAreTheSame(w, l, r, o, outer);
    RowsBindCreated(w, l, o);
    RowsBindCreated(w, r, o);
    InferMentionsKnown(l, outer);
    InferMentionsKnown(r, outer);
    var lk, rk := Infer(l).key.value, Infer(r).key.value;
    forall x | x in Rows(w, l, o) ensures x.Keys !! rk { assert x.Keys <= CreatedWithin(l); }
    forall x | x in Rows(w, r, o) ensures x.Keys !! lk { assert x.Keys <= CreatedWithin(r); }
    JoinUnique(w, p.pred, Rows(w, l, o), RightRows(w, Rows(w, l, o), r, o, Output(l)), Rows(w, r, o), o, Output(l), Output(r), lk, rk);
  }

  lemma InnerSound(w: World, p: Plan, o: Row, outer: set<Column>, pred: Expr)
    requires (p.CrossProduct? && pred == Constant(Bool(true))) || (p.Join? && p.kind.Inner? && pred == p.pred)
    requires Analysable(w, p, o, outer)
    requires Sound(Rows(w, p.left, o), o, Infer(p.left)) && Sound(Rows(w, p.right, o), o, Infer(p.right))
    ensures Sound(Rows(w, p, o), o, Infer(p))
  {
    InnerDependencies(w, p, o, outer, pred);
    var fds := JoinDependencies(p) + Infer(p.left).fds + Infer(p.right).fds;
    assert p.CrossProduct? ==> fds == Infer(p.left).fds + Infer(p.right).fds;
    if Infer(p).key.Some? {
      JoinKeyDetermines(fds, Infer(p.left).key, Infer(p.right).key);
      InnerKeys(w, p, o, outer);
      DeterminingKey(Rows(w, p, o), o, fds, Infer(p.left).key.value + Infer(p.right).key.value, Infer(p).key.value);
    }
  }

  lemma LeftJoinSound(w: World, p: Plan, o: Row, outer: set<Column>)
    requires p.Join? && !p.kind.Inner? && Analysable(w, p, o, outer)
    requires Sound(Rows(w, p.left, o), o, Infer(p.left))
    ensures Sound(Rows(w, p, o), o, Infer(p))
  {
    var l, r := p.left, p.right;
    var lefts, rows := Rows(w, l, o), Rows(w, p, o);
    var rights := RightRows(w, lefts, r, o, Output(l));
    InferMentionsKnown(l, outer);
    if p.kind.Semi? || p.kind.AntiSemi? {
      var key := if Infer(l).key.Some? then Infer(l).key.value else {};
      SemiKeeps(w, p.kind, p.pred, lefts, rights, o, Output(l), Output(r), key);
      SubsetSatisfies(rows, lefts, o, Infer(l).fds);
    } else {
      LeftWidens(w, p.kind, p.pred, lefts, rights, o, Output(l), Output(r));
      WidensCarries(rows, lefts, Created(p), o, Known(l, outer));
      CarriesKeeps(rows, lefts, o, Known(l, outer), Infer(l).fds);
      InferMentionsKnown(r, outer);
      RowsBindCreated(w, l, o);
      WidensUnbound(rows, lefts, Created(p), CreatedWithin(l), Known(r, outer));
      AbsentColumns(rows, o, Known(r, outer), Infer(r).fds);
      SatisfiesBoth(rows, o, Infer(l).fds, Infer(r).fds);
    }
  }

  // ---- Consequences ---------------------------------------------------------------------------------------

  /** Columns that isDuplicateFreeKey accepts never repeat. */
  lemma DuplicateFreeKeyIsKey(w: World, p: Plan, o: Row, outer: set<Column>, candidate: set<Column>)
    requires Analysable(w, p, o, outer) && IsDuplicateFreeKey(Infer(p), candidate)
    ensures forall i, j :: 0 <= i < j < |Rows(w, p, o)| ==>
              !AgreeOn(o + Rows(w, p, o)[i], o + Rows(w, p, o)[j], candidate)
  {
    InferSound(w, p, o, outer);
    DeterminingKey(Rows(w, p, o), o, Infer(p).fds, Infer(p).key.value, candidate);
    UniqueByPosition(Rows(w, p, o), o, candidate);
  }

  /** The columns left out by reduce are functions of the ones kept. */
  lemma ReducedColumnsDetermine(w: World, p: Plan, o: Row, outer: set<Column>, keys: set<Column>, kept: set<Column>, x: Row, y: Row)
    requires Analysable(w, p, o, outer) && keys <= Expand(Infer(p).fds, kept)
    requires x in Rows(w, p, o) && y in Rows(w, p, o) && AgreeOn(o + x, o + y, kept)
    ensures AgreeOn(o + x, o + y, keys)
  {
    InferSound(w, p, o, outer);
    ExpandAgrees(Rows(w, p, o), o, Infer(p).fds, kept, x, y);
  }

  // ---- Why all key columns have to be mapped -----------------------------------------------------------------

  /** The key that a base table reports holds on every database obeying the primary key. */
  ghost predicate KeyAlwaysHolds(p: Plan)
    requires p.BaseTable?
  {
    forall w: World :: ObeysKey(Records(w, p.table), p.primaryKey) ==>
      Unique(Rows(w, p, map[]), map[], KeyColumns(p.columns, p.primaryKey))
  }

  lemma {:induction false} UnmappedFieldIsInvisible(columns: seq<(string, Column)>, name: string, a: Val, b: Val)
    requires forall k :: 0 <= k < |columns| ==> columns[k].0 != name
    ensures BaseRow(columns, map[name := a]) == BaseRow(columns, map[name := b])
  {
    if columns != [] {
      assert columns[0].0 != name;
      UnmappedFieldIsInvisible(columns[1..], name, a, b);
    }
  }

  lemma UnmappedKeyFails(p: Plan, name: string)
    requires p.BaseTable? && name in p.primaryKey
    requires forall k :: 0 <= k < |p.columns| ==> p.columns[k].0 != name
    ensures !KeyAlwaysHolds(p)
  {
    var recs := [map[name := Num(0)], map[name := Num(1)]];
    var w := World(map[p.table := recs], (code, args) => Null, (code, args) => Null);
    assert Records(w, p.table) == recs;
    assert ObeysKey(recs, p.primaryKey) by {
      assert Field(recs[0], name) != Field(recs[1], name);
    }
    UnmappedFieldIsInvisible(p.columns, name, Num(0), Num(1));
    BaseRowAt(p.columns, recs, 0);
    BaseRowAt(p.columns, recs, 1);
    var rows := Rows(w, p, map[]);
    UniqueByPosition(rows, map[], KeyColumns(p.columns, p.primaryKey));
    assert rows[0] == rows[1];
    assert AgreeOn(map[] + rows[0], map[] + rows[1], KeyColumns(p.columns, p.primaryKey));
  }

  /** The reported key is right on every database exactly when every primary-key column is mapped. */
  lemma KeyHoldsIffMapped(p: Plan)
    requires p.BaseTable? && DistinctColumns(p.columns)
    ensures KeyAlwaysHolds(p) <==> AllMapped(p.columns, p.primaryKey)
  {
    if AllMapped(p.columns, p.primaryKey) {
      forall w: World | ObeysKey(Records(w, p.table), p.primaryKey)
        ensures Unique(Rows(w, p, map[]), map[], KeyColumns(p.columns, p.primaryKey))
      {
        BaseUnique(p.columns, Records(w, p.table), p.primaryKey, map[]);
      }
    } else {
      var name :| name in p.primaryKey && !exists k :: 0 <= k < |p.columns| && p.columns[k].0 == name;
      UnmappedKeyFails(p, name);
    }
  }
}
