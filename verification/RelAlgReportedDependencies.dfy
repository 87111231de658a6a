/** What getFDs returns, exactly: which dependencies, when a key, and which; and which candidates isDuplicateFreeKey accepts. */
module ReportedDependencies {
  import opened Options
  import opened RelAlgPlan
  import opened RelAlgFreeColumns
  import opened FunctionalDependencies
  import opened DependencySoundness
  import opened DependencyTheorem

  // ---- Dependencies ----------------------------------------------------------------------------------

  /** The operators whose dependencies hold on p's rows: all but those below the right input of a semi or anti-semi join. */
  function Kept(p: Plan): set<Plan> {
    match p
    case BaseTable(_, _, _, _) => {p}
    case CrossProduct(l, r) => {p} + Kept(l) + Kept(r)
    case Join(kind, l, r, _, _, _) => if Filters(kind) then {p} + Kept(l) else {p} + Kept(l) + Kept(r)
    case _ => {p} + Kept(p.child)
  }

  predicate Between(fd: Dependency, a: Column, b: Column) {
    fd == ({a}, {b}) || fd == ({b}, {a})
  }

  /** The predicate is an equality of two columns, and fd is one of its directions. */
  predicate Equates(pred: Expr, fd: Dependency) {
    pred.CmpEq? && pred.left.GetColumn? && pred.right.GetColumn? && Between(fd, pred.left.c, pred.right.c)
  }

  ghost predicate HashPair(lh: Option<seq<Column>>, rh: Option<seq<Column>>, fd: Dependency) {
    lh.Some? && rh.Some? && |lh.value| == |rh.value| && exists i :: 0 <= i < |lh.value| && Between(fd, lh.value[i], rh.value[i])
  }

  /** c is mapped to a field of the primary key. */
  predicate MapsKeyField(p: Plan, c: Column)
    requires p.BaseTable?
  {
    exists k :: 0 <= k < |p.columns| && p.columns[k].1 == c && p.columns[k].0 in p.primaryKey
  }

  ghost predicate HasPrimaryKey(p: Plan) {
    p.BaseTable? && p.present && p.primaryKey != []
  }

  /** The primary key of a base table determines its other columns. */
  ghost predicate PrimaryDependency(p: Plan, fd: Dependency) {
    && HasPrimaryKey(p)
    && (forall c :: c in fd.0 <==> MapsKeyField(p, c))
    && (forall c :: c in fd.1 <==> c in Created(p) && !MapsKeyField(p, c))
  }

  /** The dependencies that an operator adds to those of its inputs. */
  ghost predicate Adds(q: Plan, fd: Dependency) {
    match q
    case BaseTable(_, _, _, _) => PrimaryDependency(q, fd)
    case Selection(_, pred) => Equates(pred, fd)
    case Join(Inner, _, _, pred, lh, rh) => Equates(pred, fd) || HashPair(lh, rh, fd)
    case _ => false
  }

  lemma PredicateReports(pred: Expr, fd: Dependency)
    ensures fd in FromPredicate(pred) <==> Equates(pred, fd)
  {
    if pred.CmpEq? && pred.left.GetColumn? && pred.right.GetColumn? {
      EquatedMembers(pred.left.c, pred.right.c, fd);
    }
  }

  lemma EquatedMembers(a: Column, b: Column, fd: Dependency)
    ensures fd in Equated(a, b) <==> Between(fd, a, b)
  {
    assert Equated(a, b)[0] == ({a}, {b}) && Equated(a, b)[1] == ({b}, {a});
  }

  lemma {:induction false} HashesReport(lh: seq<Column>, rh: seq<Column>, fd: Dependency)
    requires |lh| == |rh|
    ensures fd in FromHashes(lh, rh) <==> exists i :: 0 <= i < |lh| && Between(fd, lh[i], rh[i])
  {
    if lh != [] {
      EquatedMembers(lh[0], rh[0], fd);
      HashesReport(lh[1..], rh[1..], fd);
      if i :| 0 <= i < |lh| && Between(fd, lh[i], rh[i]) {
        if i > 0 { assert Between(fd, lh[1..][i - 1], rh[1..][i - 1]); }
      }
    }
  }

  lemma JoinReports(lh: Option<seq<Column>>, rh: Option<seq<Column>>, fd: Dependency)
    ensures fd in HashDependencies(lh, rh) <==> HashPair(lh, rh, fd)
  {
    if lh.Some? && rh.Some? && |lh.value| == |rh.value| {
      HashesReport(lh.value, rh.value, fd);
    }
  }

  lemma KeyColumnsAre(p: Plan)
    requires p.BaseTable?
    ensures forall c :: c in KeyColumns(p.columns, p.primaryKey) <==> MapsKeyField(p, c)
  {
    forall c ensures c in KeyColumns(p.columns, p.primaryKey) <==> MapsKeyField(p, c) {
      if c in KeyColumns(p.columns, p.primaryKey) {
        var q :| q in p.columns && q.0 in p.primaryKey && q.1 == c;
        var k :| 0 <= k < |p.columns| && p.columns[k] == q;
      }
      if k :| 0 <= k < |p.columns| && p.columns[k].1 == c && p.columns[k].0 in p.primaryKey {
        assert p.columns[k] in p.columns;
      }
    }
  }

  lemma BaseAvailable(p: Plan)
    requires p.BaseTable?
    ensures Available(p) == Created(p)
  {
    assert AvailableBelow(p) == {};
    assert Available(p) == AvailableByDefault(p) == AvailableBelow(p) + Created(p);
  }

  lemma BaseInfers(p: Plan) returns (pk: set<Column>)
    requires HasPrimaryKey(p)
    ensures Infer(p) == Deps([(pk, Created(p) - pk)], Some(pk))
    ensures forall c :: c in pk <==> MapsKeyField(p, c)
  {
    KeyColumnsAre(p);
    BaseAvailable(p);
    pk := KeyColumns(p.columns, p.primaryKey);
  }

  lemma BaseReports(p: Plan, fd: Dependency)
    requires p.BaseTable?
    ensures fd in Infer(p).fds <==> PrimaryDependency(p, fd)
  {
    if HasPrimaryKey(p) {
      var pk := BaseInfers(p);
      if PrimaryDependency(p, fd) {
        assert fd.0 == pk && fd.1 == Created(p) - pk;
      }
    }
  }

  /** Every operator returns the dependencies of its inputs and its own. */
  lemma ReportsStep(p: Plan, fd: Dependency)
    requires !p.BaseTable?
    ensures fd in Infer(p).fds <==>
              Adds(p, fd) || (if Binary(p) then fd in Infer(p.left).fds || (!(p.Join? && Filters(p.kind)) && fd in Infer(p.right).fds)
                              else fd in Infer(p.child).fds)
  {
    match p
    case Selection(child, pred) => PredicateReports(pred, fd);
    case Join(Inner, l, r, pred, lh, rh) =>
      PredicateReports(pred, fd);
      JoinReports(lh, rh, fd);
    case _ =>
  }

  /** getFDs returns the dependencies that the primary keys, equality predicates and hash columns of the operators below
      give, and no others. */
  lemma {:induction false} ReportedIff(p: Plan, fd: Dependency)
    ensures fd in Infer(p).fds <==> exists q :: q in Kept(p) && Adds(q, fd)
  {
    assert p in Kept(p);
    if p.BaseTable? {
      BaseReports(p, fd);
      assert Kept(p) == {p} && (Adds(p, fd) <==> fd in Infer(p).fds);
    } else {
      ReportsStep(p, fd);
      if Binary(p) {
        ReportedIff(p.left, fd);
        if !(p.Join? && Filters(p.kind)) { ReportedIff(p.right, fd); }
      } else {
        ReportedIff(p.child, fd);
      }
    }
  }

  // ---- Keys ----------------------------------------------------------------------------------------------

  /** Every set of columns that is closed under the dependencies and contains a contains b. */
  ghost predicate Determines(fds: seq<Dependency>, a: set<Column>, b: set<Column>) {
    forall s: set<Column> :: Closed(fds, s) && a <= s ==> b <= s
  }

  lemma DeterminesIff(fds: seq<Dependency>, a: set<Column>, b: set<Column>)
    ensures Determines(fds, a, b) <==> b <= Expand(fds, a)
  {
    ExpandIsClosure(fds, a);
  }

  lemma CoveredIff(a: set<Column>, b: set<Column>)
    ensures |a * b| == |b| <==> b <= a
  {
    if |a * b| == |b| { CoveredSet(a, b); }
    if b <= a { assert a * b == b; }
  }

  /** An inner join has a key exactly if both inputs have one and one of them determines the other; then it is the left
      one if that determines the right one, and the right one otherwise. */
  lemma JoinKeyIff(fds: seq<Dependency>, lk: Option<set<Column>>, rk: Option<set<Column>>)
    ensures JoinKey(fds, lk, rk).Some? <==>
              lk.Some? && rk.Some? && (Determines(fds, lk.value, rk.value) || Determines(fds, rk.value, lk.value))
    ensures JoinKey(fds, lk, rk).Some? ==> JoinKey(fds, lk, rk) == if Determines(fds, lk.value, rk.value) then lk else rk
  {
    if lk.Some? && rk.Some? {
      CoveredIff(Expand(fds, lk.value), rk.value);
      CoveredIff(Expand(fds, rk.value), lk.value);
      DeterminesIff(fds, lk.value, rk.value);
      DeterminesIff(fds, rk.value, lk.value);
    }
  }

  /** When getFDs returns a key, and which. */
  lemma KeyReported(p: Plan)
    ensures var d := Infer(p);
            match p
            case BaseTable(_, _, _, _) =>
              && (d.key.Some? <==> HasPrimaryKey(p))
              && (d.key.Some? ==> forall c :: c in d.key.value <==> MapsKeyField(p, c))
            case Selection(child, _) => d.key == Infer(child).key
            case Aggregation(child, groupBy, _) => d.key == if groupBy == [] then Infer(child).key else Some(ColumnSet(groupBy))
            case Join(Semi, l, _, _, _, _) => d.key == Infer(l).key
            case Join(AntiSemi, l, _, _, _, _) => d.key == Infer(l).key
            case Join(Inner, l, r, _, _, _) =>
              var lk, rk := Infer(l).key, Infer(r).key;
              && (d.key.Some? <==> lk.Some? && rk.Some? && (Determines(d.fds, lk.value, rk.value) || Determines(d.fds, rk.value, lk.value)))
              && (d.key.Some? ==> d.key == if Determines(d.fds, lk.value, rk.value) then lk else rk)
            case _ => d.key == None
  {
    match p
    case BaseTable(_, _, _, _) => KeyColumnsAre(p);
    case Join(Inner, l, r, _, _, _) => JoinKeyIff(Infer(p).fds, Infer(l).key, Infer(r).key);
    case _ =>
  }

  /** A table l whose key is the column a, joined by a == b with a table r that has the column b outside of its key:
      as for a foreign key, the key is that of r. */
  lemma ForeignKeyJoin(l: Plan, r: Plan, a: Column, b: Column, c: Column)
    requires HasPrimaryKey(l) && HasPrimaryKey(r) && Created(l) !! Created(r)
    requires (forall x :: MapsKeyField(l, x) <==> x == a) && b in Created(r) && MapsKeyField(r, c) && c != b
    ensures var d := Infer(Join(Inner, l, r, CmpEq(GetColumn(a), GetColumn(b)), None, None));
            d.key.Some? && d.key == Infer(r).key
  {
    var fds := Infer(Join(Inner, l, r, CmpEq(GetColumn(a), GetColumn(b)), None, None)).fds;
    var lk := BaseInfers(l);
    var rk := BaseInfers(r);
    assert lk == {a};
    NotDetermined(l, r, a, b, c, fds, rk);
    ReferencedDetermines(l, r, a, b, fds, rk);
    JoinKeyIff(fds, Some(lk), Some(rk));
  }

  /** The column a determines those of l and b, but not all of the key of r. */
  lemma NotDetermined(l: Plan, r: Plan, a: Column, b: Column, c: Column, fds: seq<Dependency>, rk: set<Column>)
    requires HasPrimaryKey(l) && HasPrimaryKey(r) && Created(l) !! Created(r) && Infer(r).key == Some(rk)
    requires MapsKeyField(l, a) && b in Created(r) && MapsKeyField(r, c) && c != b && c in rk
    requires fds == Infer(Join(Inner, l, r, CmpEq(GetColumn(a), GetColumn(b)), None, None)).fds
    ensures !Determines(fds, {a}, rk)
  {
    KeyFieldsCreated(l);
    KeyFieldsCreated(r);
    LeftColumnsClosed(l, r, a, b, fds);
    assert {a} <= Created(l) + {b} && c !in Created(l) + {b};
  }

  /** The key of the referencing table determines the column b, and that a. */
  lemma ReferencedDetermines(l: Plan, r: Plan, a: Column, b: Column, fds: seq<Dependency>, rk: set<Column>)
    requires HasPrimaryKey(l) && HasPrimaryKey(r) && b in Created(r) && Infer(r).key == Some(rk)
    requires fds == Infer(Join(Inner, l, r, CmpEq(GetColumn(a), GetColumn(b)), None, None)).fds
    ensures Determines(fds, rk, {a})
  {
    ForeignReported(l, r, a, b, ({b}, {a}));
    ForeignReported(l, r, a, b, (rk, Created(r) - rk));
    forall s: set<Column> | Closed(fds, s) && rk <= s ensures {a} <= s {
      assert ({b}, {a}) in fds && (rk, Created(r) - rk) in fds;
      assert b in s;
    }
  }

  lemma KeyFieldsCreated(p: Plan)
    requires p.BaseTable?
    ensures forall c :: MapsKeyField(p, c) ==> c in Created(p)
  {
    forall c | MapsKeyField(p, c) ensures c in Created(p) {
      var k :| 0 <= k < |p.columns| && p.columns[k].1 == c && p.columns[k].0 in p.primaryKey;
      assert p.columns[k] in p.columns;
    }
  }

  /** All dependencies of a foreign key join. */
  lemma ForeignReported(l: Plan, r: Plan, a: Column, b: Column, fd: Dependency)
    requires HasPrimaryKey(l) && HasPrimaryKey(r)
    ensures var lk, rk := Infer(l).key, Infer(r).key;
            && lk.Some? && rk.Some?
            && (fd in Infer(Join(Inner, l, r, CmpEq(GetColumn(a), GetColumn(b)), None, None)).fds <==>
                Between(fd, a, b) || fd == (lk.value, Created(l) - lk.value) || fd == (rk.value, Created(r) - rk.value))
  {
    var lk := BaseInfers(l);
    var rk := BaseInfers(r);
    ReportsStep(Join(Inner, l, r, CmpEq(GetColumn(a), GetColumn(b)), None, None), fd);
  }

  lemma LeftColumnsClosed(l: Plan, r: Plan, a: Column, b: Column, fds: seq<Dependency>)
    requires HasPrimaryKey(l) && HasPrimaryKey(r) && Created(l) !! Created(r) && a in Created(l) && b in Created(r)
    requires fds == Infer(Join(Inner, l, r, CmpEq(GetColumn(a), GetColumn(b)), None, None)).fds
    requires exists c :: c in Infer(r).key.value && c in Created(r) && c != b
    ensures Closed(fds, Created(l) + {b})
  {
    var s := Created(l) + {b};
    var c :| c in Infer(r).key.value && c in Created(r) && c != b;
    assert c !in s;
    forall fd | fd in fds && fd.0 <= s ensures fd.1 <= s {
      ForeignReported(l, r, a, b, fd);
    }
  }

  // ---- Candidates -------------------------------------------------------------------------------------------

  function LeftSides(fds: seq<Dependency>): set<Column> {
    if fds == [] then {} else fds[0].0 + LeftSides(fds[1..])
  }

  lemma {:induction false} SidesContain(fds: seq<Dependency>, fd: Dependency)
    requires fd in fds
    ensures fd.0 <= LeftSides(fds) && fd.1 <= RightSides(fds)
  {
    if fd != fds[0] { SidesContain(fds[1..], fd); }
  }

  /** Two rows that agree on exactly the columns in same. */
  lemma TwoRows(all: set<Column>, same: set<Column>) returns (x: Row, y: Row)
    ensures forall cs: set<Column> :: cs <= all ==> (AgreeOn(map[] + x, map[] + y, cs) <==> cs <= same)
  {
    x := map c | c in all :: Num(0);
    y := map c | c in all :: Num(if c in same then 0 else 1);
    assert map[] + x == x && map[] + y == y;
    forall cs: set<Column> | cs <= all ensures AgreeOn(x, y, cs) <==> cs <= same {
      if AgreeOn(x, y, cs) {
        forall c | c in cs ensures c in same {
          assert Get(x, c) == Get(y, c);
        }
      }
    }
  }

  lemma AgreeSymmetric(s: Row, t: Row, cs: set<Column>)
    ensures AgreeOn(s, t, cs) <==> AgreeOn(t, s, cs)
  {
  }

  /** When a candidate does not determine the key there are rows that satisfy all dependencies, on which the key is one
      and the candidate is not. */
  lemma RejectedFails(d: Deps, candidate: set<Column>) returns (rows: seq<Row>)
    requires !IsDuplicateFreeKey(d, candidate)
    ensures Sound(rows, map[], d) && !Unique(rows, map[], candidate)
  {
    if d.key.None? {
      rows := [map[], map[]];
      UniqueByPosition(rows, map[], candidate);
      assert AgreeOn(map[] + rows[0], map[] + rows[1], candidate);
    } else {
      var same := Expand(d.fds, candidate);
      var x, y := TwoRows(LeftSides(d.fds) + RightSides(d.fds) + d.key.value + candidate, same);
      rows := [x, y];
      ExpandIsClosure(d.fds, candidate);
      forall fd | fd in d.fds ensures Satisfies(rows, map[], fd) {
        SidesContain(d.fds, fd);
        AgreeSymmetric(map[] + x, map[] + y, fd.0);
        AgreeSymmetric(map[] + x, map[] + y, fd.1);
      }
      UniqueByPosition(rows, map[], d.key.value);
      UniqueByPosition(rows, map[], candidate);
      assert AgreeOn(map[] + rows[0], map[] + rows[1], candidate);
    }
  }

  /** isDuplicateFreeKey accepts exactly the candidates that are keys of all rows on which the dependencies and the key
      hold. */
  lemma DuplicateFreeIff(d: Deps, candidate: set<Column>)
    ensures IsDuplicateFreeKey(d, candidate) <==> forall rows: seq<Row>, o: Row :: Sound(rows, o, d) ==> Unique(rows, o, candidate)
  {
    if IsDuplicateFreeKey(d, candidate) {
      forall rows: seq<Row>, o: Row | Sound(rows, o, d) ensures Unique(rows, o, candidate) {
        DeterminingKey(rows, o, d.fds, d.key.value, candidate);
      }
    } else {
      var rows := RejectedFails(d, candidate);
    }
  }
}
