/** Why inner, mark and outer joins must not be dependent where dependencies are inferred. */
module DependentJoins {
  import opened RelAlgPlan
  import opened RelAlgFreeColumns
  import opened FunctionalDependencies
  import opened DependencySoundness
  import opened DependencyTheorem
  import opened Options

  /** Column 1 of a table, joined with an aggregate over the rows of another table whose column 0 equals it. */
  function DependentJoin(kind: JoinKind): Plan {
    Join(kind, BaseTable("l", [("b", 1)], false, []), Aggregation(SelectedByLeft(), [], [Aggregate(2, 0, 0)]),
         Constant(Bool(true)), None, None)
  }

  function SelectedByLeft(): Plan {
    Selection(BaseTable("t", [("a", 0)], false, []), CmpEq(GetColumn(0), GetColumn(1)))
  }

  /** Two rows in l, none in t. */
  function TwoByNone(): World {
    World(map["l" := [map["b" := Num(1)], map["b" := Num(2)]]], (code, args) => Null, (code, args) => Null)
  }

  lemma SelectedReadsLeft()
    ensures CreatedWithin(SelectedByLeft()) == Available(SelectedByLeft()) == {0} && 1 in Free(SelectedByLeft())
  {
    assert Used(SelectedByLeft().pred) == {0, 1};
  }

  lemma DependentJoinIsDependent(kind: JoinKind)
    requires kind.Inner? || kind == Mark(3) || kind == Outer([])
    ensures var p := DependentJoin(kind);
            CreatedOnce(p) && Premises(TwoByNone(), p) && IsDependentJoin(p) && Unbound(map[], CreatedWithin(p))
  {
    var p, r := DependentJoin(kind), DependentJoin(kind).right;
    SelectedReadsLeft();
    assert Created(r) == {2} && CreatedWithin(p.left) == Available(p.left) == {1};
    assert 1 in Free(r) * Available(p.left);
  }

  lemma DependentJoinInfers(kind: JoinKind)
    requires !Filters(kind)
    ensures ({0}, {1}) in Infer(DependentJoin(kind)).fds
  {
    var r := DependentJoin(kind).right;
    assert Infer(r).fds == [] + Equated(0, 1);
    assert Equated(0, 1)[0] == ({0}, {1});
    assert ({0}, {1}) in Infer(r).fds;
  }

  lemma AggregateOfNone(o: Row)
    ensures Rows(TwoByNone(), DependentJoin(Inner).right, o) == [map[2 := Null]]
  {
    assert Rows(TwoByNone(), SelectedByLeft().child, o) == [];
    assert Rows(TwoByNone(), SelectedByLeft(), o) == [];
  }

  lemma LeftRows()
    ensures Rows(TwoByNone(), DependentJoin(Inner).left, map[]) == [map[1 := Num(1)], map[1 := Num(2)]]
  {
    var recs := [map["b" := Num(1)], map["b" := Num(2)]];
    BaseRowAt([("b", 1)], recs, 0);
    BaseRowAt([("b", 1)], recs, 1);
    assert BaseRow([("b", 1)], recs[0]) == map[1 := Num(1)];
    assert BaseRow([("b", 1)], recs[1]) == map[1 := Num(2)];
  }

  /** What a left row becomes when it meets the one row of the aggregate. */
  function Joined(kind: JoinKind, l: Row): Row {
    match kind
    case Inner => l + map[2 := Null]
    case Mark(m) => l[m := Bool(true)]
    case _ => l
  }

  lemma JoinsOne(w: World, kind: JoinKind, l: Row, rights: seq<Row>, t: Row, vis: set<Column>)
    requires (kind.Inner? || kind == Mark(3) || kind == Outer([])) && rights == [map[2 := Null]]
    ensures JoinOne(kind, l, Matches(w, Constant(Bool(true)), rights, t, vis), t, vis) == [Joined(kind, l)]
  {
    var e := Constant(Bool(true));
    assert Holds(w, e, t + Visible(rights[0], vis));
    assert rights[1..] == [];
    assert Matches(w, e, rights, t, vis) == rights;
    assert Pair(l, rights) == [l + rights[0]];
    assert OuterRows([], l, rights, t, vis) == [l];
  }

  lemma JoinsTwo(w: World, kind: JoinKind, a: Row, b: Row, rights: seq<Row>, o: Row, visL: set<Column>, visR: set<Column>)
    requires (kind.Inner? || kind == Mark(3) || kind == Outer([])) && rights == [map[2 := Null]]
    ensures JoinRows(w, kind, Constant(Bool(true)), [a, b], [rights, rights], o, visL, visR) == [Joined(kind, a), Joined(kind, b)]
  {
    JoinsOne(w, kind, a, rights, o + Visible(a, visL), visR);
    JoinsOne(w, kind, b, rights, o + Visible(b, visL), visR);
    assert [a, b][1..] == [b] && [rights, rights][1..] == [rights] && [b][1..] == [] && [rights][1..] == [];
    assert JoinRows(w, kind, Constant(Bool(true)), [b], [rights], o, visL, visR) == [Joined(kind, b)];
  }

  lemma RightsOfTwo(w: World, r: Plan, a: Row, b: Row, o: Row, visL: set<Column>, rows: seq<Row>)
    requires forall t: Row :: Rows(w, r, t) == rows
    ensures RightRows(w, [a, b], r, o, visL) == [rows, rows]
  {
    assert [a, b][1..] == [b] && [b][1..] == [];
    assert RightRows(w, [b], r, o, visL) == [rows];
  }

  lemma DependentJoinRows(kind: JoinKind)
    requires kind.Inner? || kind == Mark(3) || kind == Outer([])
    ensures Rows(TwoByNone(), DependentJoin(kind), map[]) == [Joined(kind, map[1 := Num(1)]), Joined(kind, map[1 := Num(2)])]
  {
    var w, p := TwoByNone(), DependentJoin(kind);
    LeftRows();
    forall o: Row ensures Rows(w, p.right, o) == [map[2 := Null]] {
      AggregateOfNone(o);
    }
    RightsOfTwo(w, p.right, map[1 := Num(1)], map[1 := Num(2)], map[], Output(p.left), [map[2 := Null]]);
    JoinsTwo(w, kind, map[1 := Num(1)], map[1 := Num(2)], [map[2 := Null]], map[], Output(p.left), Output(p.right));
  }

  lemma JoinedColumns(kind: JoinKind) returns (x: Row, y: Row)
    requires kind.Inner? || kind == Mark(3) || kind == Outer([])
    ensures x == Joined(kind, map[1 := Num(1)]) && y == Joined(kind, map[1 := Num(2)])
    ensures Get(x, 0) == Get(y, 0) && Get(x, 1) != Get(y, 1)
  {
    x, y := Joined(kind, map[1 := Num(1)]), Joined(kind, map[1 := Num(2)]);
  }

  lemma NotSatisfied(rows: seq<Row>, x: Row, y: Row, fds: seq<Dependency>)
    requires rows == [x, y] && Get(x, 0) == Get(y, 0) && Get(x, 1) != Get(y, 1) && ({0}, {1}) in fds
    ensures !SatisfiesAll(rows, map[], fds)
  {
    var o: Row := map[];
    assert o + x == x && o + y == y && x in rows && y in rows;
    assert AgreeOn(o + x, o + y, {0}) && !AgreeOn(o + x, o + y, {1});
    assert !Satisfies(rows, o, ({0}, {1}));
  }

  /** Inner, mark and outer joins pass on the dependencies of the right input, which hold for each left row but not
      for all of them together when the right input reads the left row. */
  lemma DependentJoinFails(kind: JoinKind) returns (rows: seq<Row>, d: Deps)
    requires kind.Inner? || kind == Mark(3) || kind == Outer([])
    ensures CreatedOnce(DependentJoin(kind)) && Premises(TwoByNone(), DependentJoin(kind)) && IsDependentJoin(DependentJoin(kind))
    ensures rows == Rows(TwoByNone(), DependentJoin(kind), map[]) && d == Infer(DependentJoin(kind))
    ensures !SatisfiesAll(rows, map[], d.fds)
  {
    DependentJoinIsDependent(kind);
    DependentJoinInfers(kind);
    DependentJoinRows(kind);
    var x, y := JoinedColumns(kind);
    rows, d := [x, y], Infer(DependentJoin(kind));
    NotSatisfied(rows, x, y, d.fds);
  }
}
