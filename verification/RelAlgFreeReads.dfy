/** What makes a column free and a join dependent, and when the available columns are those that are output. */
module FreeColumnReads {
  import opened Options
  import opened RelAlgPlan
  import opened RelAlgFreeColumns
  import opened RelAlgFolding

  // ---- Free columns --------------------------------------------------------------------------------------

  /** The operator at the end of the path reads c, and c is available from below neither there nor on the way up. */
  ghost predicate Escapes(p: Plan, path: seq<Direction>, c: Column)
    decreases p
  {
    c !in AvailableBelow(p) && if path == [] then c in UsedBy(p) else !p.BaseTable? && Escapes(Child(p, path[0]), path[1..], c)
  }

  /** Some operator reads c, and nothing between there and p provides it. */
  ghost predicate ReadsFromOutside(p: Plan, c: Column) {
    exists path :: Escapes(p, path, c)
  }

  /** The free columns are exactly these. */
  lemma {:induction false} FreeIffRead(p: Plan, c: Column)
    ensures c in Free(p) <==> ReadsFromOutside(p, c)
  {
    if p.BaseTable? {
      assert forall path :: !Escapes(p, path, c);
    } else {
      FreeIffRead(Child(p, Left), c);
      FreeIffRead(Child(p, Right), c);
      EscapesThrough(p, c);
      FreeStep(p, c);
    }
  }

  lemma FreeStep(p: Plan, c: Column)
    requires !p.BaseTable?
    ensures c in Free(p) <==> c !in AvailableBelow(p) && (c in UsedBy(p) || c in Free(Child(p, Left)) || c in Free(Child(p, Right)))
  {
  }

  lemma EscapesThrough(p: Plan, c: Column)
    requires !p.BaseTable?
    ensures ReadsFromOutside(p, c) <==>
              c !in AvailableBelow(p) && (c in UsedBy(p) || ReadsFromOutside(Child(p, Left), c) || ReadsFromOutside(Child(p, Right), c))
  {
    if ReadsFromOutside(p, c) {
      var path :| Escapes(p, path, c);
      if path != [] { assert Escapes(Child(p, path[0]), path[1..], c); }
    }
    if c !in AvailableBelow(p) {
      if c in UsedBy(p) { assert Escapes(p, [], c); }
      if ReadsFromOutside(Child(p, Left), c) { EscapesFrom(p, Left, c); }
      if ReadsFromOutside(Child(p, Right), c) { EscapesFrom(p, Right, c); }
    }
  }

  lemma EscapesFrom(p: Plan, d: Direction, c: Column)
    requires !p.BaseTable? && ReadsFromOutside(Child(p, d), c) && c !in AvailableBelow(p)
    ensures ReadsFromOutside(p, c)
  {
    var path :| Escapes(Child(p, d), path, c);
    var longer := [d] + path;
    assert longer[0] == d && longer[1..] == path;
    assert Escapes(p, longer, c);
  }

  /** A join is dependent exactly if an operator of one input reads a column that the other input makes available. */
  lemma DependentIff(p: Plan)
    requires p.Join?
    ensures IsDependentJoin(p) <==>
              exists c :: (ReadsFromOutside(p.left, c) && c in Available(p.right)) || (ReadsFromOutside(p.right, c) && c in Available(p.left))
  {
    forall c ensures c in Free(p.left) <==> ReadsFromOutside(p.left, c) { FreeIffRead(p.left, c); }
    forall c ensures c in Free(p.right) <==> ReadsFromOutside(p.right, c) { FreeIffRead(p.right, c); }
    if c :| ReadsFromOutside(p.left, c) && c in Available(p.right) {
      assert c in Free(p.left) * Available(p.right);
    }
    if c :| ReadsFromOutside(p.right, c) && c in Available(p.left) {
      assert c in Free(p.right) * Available(p.left);
    }
    if IsDependentJoin(p) {
      if Free(p.left) * Available(p.right) != {} {
        var c :| c in Free(p.left) * Available(p.right);
        assert ReadsFromOutside(p.left, c);
      } else {
        var c :| c in Free(p.right) * Available(p.left);
        assert ReadsFromOutside(p.right, c);
      }
    }
  }

  // ---- Available columns -------------------------------------------------------------------------------------

  function Operators(p: Plan): set<Plan> {
    match p
    case BaseTable(_, _, _, _) => {p}
    case CrossProduct(l, r) => {p} + Operators(l) + Operators(r)
    case Join(_, l, r, _, _, _) => {p} + Operators(l) + Operators(r)
    case _ => {p} + Operators(p.child)
  }

  /** What the inputs output. */
  function InputOutput(p: Plan): set<Column> {
    if p.BaseTable? then {} else if Binary(p) then Output(p.left) + Output(p.right) else Output(p.child)
  }

  /** The operator outputs all that its inputs do. */
  predicate HidesNothing(p: Plan) {
    InputOutput(p) <= Output(p)
  }

  /** Joins that ask for the available columns of their left input by the default analysis. */
  predicate AsksDefault(p: Plan) {
    p.Join? && (p.kind.Semi? || p.kind.AntiSemi? || p.kind.Mark?)
  }

  /** Grouping and projection columns come from the input. */
  predicate TakesFromInput(p: Plan) {
    match p
    case Aggregation(child, groupBy, _) => ColumnSet(groupBy) <= Output(child)
    case Projection(child, _, cols) => ColumnSet(cols) <= Output(child)
    case _ => true
  }

  ghost predicate AllTakeFromInput(p: Plan) {
    forall q :: q in Operators(p) ==> TakesFromInput(q)
  }

  ghost predicate AllExact(p: Plan) {
    forall q :: q in Operators(p) ==> Available(q) == Output(q)
  }

  ghost predicate LeftsHideNothing(p: Plan) {
    forall q :: q in Operators(p) && AsksDefault(q) ==> HidesNothing(q.left)
  }

  lemma CreatedIsOutput(p: Plan)
    ensures Created(p) <= Output(p) <= InputOutput(p) + Created(p)
  {
  }

  /** The default analysis of an operator whose inputs are analysed exactly. */
  lemma DefaultExactIff(p: Plan)
    requires !p.BaseTable? ==> Available(Child(p, Left)) == Output(Child(p, Left)) && Available(Child(p, Right)) == Output(Child(p, Right))
    ensures AvailableByDefault(p) == InputOutput(p) + Created(p)
    ensures AvailableByDefault(p) == Output(p) <==> HidesNothing(p)
  {
    CreatedIsOutput(p);
  }

  lemma InputsOf(p: Plan, d: Direction)
    requires !p.BaseTable?
    ensures Child(p, d) in Operators(p) && Operators(Child(p, d)) <= Operators(p)
    ensures Operators(p) == {p} + Operators(Child(p, Left)) + Operators(Child(p, Right))
  {
    assert p in Operators(p) && Child(p, d) in Operators(Child(p, d));
  }

  lemma ExactBelow(p: Plan)
    requires AllExact(p)
    ensures AvailableByDefault(p) == InputOutput(p) + Created(p)
    ensures AvailableByDefault(p) == Output(p) <==> HidesNothing(p)
  {
    if !p.BaseTable? {
      InputsOf(p, Left);
      InputsOf(p, Right);
    }
    DefaultExactIff(p);
  }

  /** One operator, when those below it are analysed exactly. */
  lemma ExactStep(p: Plan)
    requires CreatedOnce(p) && TakesFromInput(p) && !p.BaseTable?
    requires AllExact(Child(p, Left)) && AllExact(Child(p, Right))
    ensures Available(p) == Output(p) <==> (AsksDefault(p) ==> HidesNothing(p.left))
  {
    assert Child(p, Left) in Operators(Child(p, Left)) && Child(p, Right) in Operators(Child(p, Right));
    DefaultExactIff(p);
    if AsksDefault(p) {
      ExactBelow(p.left);
      MarkIsNew(p);
    }
  }

  /** The mark is no column of the left input. */
  lemma MarkIsNew(p: Plan)
    requires CreatedOnce(p) && AsksDefault(p)
    ensures AvailableByDefault(p.left) !! Created(p) && Output(p.left) !! Created(p)
  {
    AvailableIsCreated(p.left);
    OutputIsAvailable(p.left);
  }

  /** In every operator exactly the output columns are available, if and only if no semi, anti-semi or mark join has a left
      input that hides columns of its own inputs. */
  lemma {:induction false} AvailableExactIff(p: Plan)
    requires CreatedOnce(p) && AllTakeFromInput(p)
    ensures AllExact(p) <==> LeftsHideNothing(p)
  {
    assert p in Operators(p);
    if p.BaseTable? {
      DefaultExactIff(p);
    } else {
      InputsOf(p, Left);
      InputsOf(p, Right);
      AvailableExactIff(Child(p, Left));
      AvailableExactIff(Child(p, Right));
      if AllExact(Child(p, Left)) && AllExact(Child(p, Right)) {
        ExactStep(p);
      }
    }
  }

  /** A semi join of a projection: the projected-away column 1 counts as available. */
  lemma HiddenIsAvailable()
    ensures var t := BaseTable("t", [("a", 0), ("b", 1)], false, []);
            var p := Join(Semi, Projection(t, false, [0]), BaseTable("s", [("c", 2)], false, []), Constant(Bool(true)), None, None);
            CreatedOnce(p) && AllTakeFromInput(p) && 1 in Available(p) && 1 !in Output(p)
  {
    var t := BaseTable("t", [("a", 0), ("b", 1)], false, []);
    var l := Projection(t, false, [0]);
    var p := Join(Semi, l, BaseTable("s", [("c", 2)], false, []), Constant(Bool(true)), None, None);
    assert t.columns[0] in t.columns && t.columns[1] in t.columns;
    assert 0 in Created(t) && 1 in Created(t);
    assert Available(t) == AvailableByDefault(t) == AvailableBelow(t) + Created(t);
    assert Available(p) == AvailableByDefault(l) == AvailableBelow(l) + Created(l);
    assert AvailableBelow(l) == Available(t);
  }
}
