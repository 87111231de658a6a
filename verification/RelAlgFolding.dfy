/**
 * Column folding: along a chain of operators towards the root, reads of a column
 * that a map merely copies are redirected to the original column.
 */
module RelAlgFolding {
  import opened RelAlgPlan
  import opened RelAlgFreeColumns

  type Mapping = map<Column, Column>

  // ---- The rewrite ------------------------------------------------------------------------

  function Resolve(c: Column, m: Mapping): Column {
    if c in m then m[c] else c
  }

  /** replaceColumnUsesInLamda */
  function Replace(e: Expr, m: Mapping): Expr {
    match e
    case GetColumn(c) => GetColumn(Resolve(c, m))
    case Constant(_) => e
    case CmpEq(l, r) => CmpEq(Replace(l, m), Replace(r, m))
    case Call(code, args) => Call(code, seq(|args|, i requires 0 <= i < |args| => Replace(args[i], m)))
  }

  function ReplaceAll(computed: seq<(Column, Expr)>, m: Mapping): (r: seq<(Column, Expr)>)
    ensures |r| == |computed|
    ensures forall i :: 0 <= i < |r| ==> r[i] == (computed[i].0, Replace(computed[i].1, m))
  {
    seq(|computed|, i requires 0 <= i < |computed| => (computed[i].0, Replace(computed[i].1, m)))
  }

  /** Records every computed column that is a plain copy. */
  function AddCopies(computed: seq<(Column, Expr)>, m: Mapping): Mapping
    decreases |computed|
  {
    if computed == [] then m
    else
      AddCopies(computed[1..], match computed[0].1 case GetColumn(c) => m[computed[0].0 := c] case _ => m)
  }

  predicate Foldable(p: Plan) {
    p.Selection? || p.MapOp? || p.CrossProduct? || (p.Join? && (p.kind.Inner? || p.kind.Semi? || p.kind.AntiSemi?))
  }

  /** foldColumns */
  function FoldOperator(p: Plan, m: Mapping): (Plan, Mapping)
    requires Foldable(p)
  {
    match p
    case Selection(child, pred) => (Selection(child, Replace(pred, m)), m)
    case MapOp(child, computed) =>
      var replaced := ReplaceAll(computed, m);
      (MapOp(child, replaced), AddCopies(replaced, m))
    case CrossProduct(_, _) => (p, m)
    case Join(kind, l, r, pred, lh, rh) => (Join(kind, l, r, Replace(pred, m), lh, rh), m)
  }

  datatype Direction = Left | Right

  function Child(p: Plan, d: Direction): Plan
    requires !p.BaseTable?
  {
    if Binary(p) then (if d == Left then p.left else p.right) else p.child
  }

  function WithChild(p: Plan, d: Direction, c: Plan): Plan
    requires !p.BaseTable?
  {
    match p
    case Selection(_, pred) => Selection(c, pred)
    case MapOp(_, computed) => MapOp(c, computed)
    case Aggregation(_, groupBy, aggregates) => Aggregation(c, groupBy, aggregates)
    case Projection(_, distinct, cols) => Projection(c, distinct, cols)
    case Renaming(_, renames) => Renaming(c, renames)
    case CrossProduct(l, r) => if d == Left then CrossProduct(c, r) else CrossProduct(l, c)
    case Join(kind, l, r, pred, lh, rh) =>
      if d == Left then Join(kind, c, r, pred, lh, rh) else Join(kind, l, c, pred, lh, rh)
  }

  /** A rewritten plan, and the mapping that is passed on to the next operator while the chain lives. */
  datatype Folded = Folded(plan: Plan, mapping: Mapping, live: bool)

  /** One chain.  It starts at the operator that path leads to, counted from the root, and climbs at
      most reach operators further; it ends early at an operator that cannot be folded.  Any reach
      stands for a result that has other users. */
  function Chain(p: Plan, path: seq<Direction>, reach: nat): Folded
    decreases p
  {
    if path == [] then
      if Foldable(p) then var f := FoldOperator(p, map[]); Folded(f.0, f.1, true) else Folded(p, map[], false)
    else if p.BaseTable? then Folded(p, map[], false)
    else
      var below := Chain(Child(p, path[0]), path[1..], reach);
      var q := WithChild(p, path[0], below.plan);
      if below.live && Foldable(p) && |path| <= reach then
        var f := FoldOperator(q, below.mapping); Folded(f.0, f.1, true)
      else Folded(q, map[], false)
  }

  /** The whole first phase of the pass: one chain after another. */
  function Chains(p: Plan, chains: seq<(seq<Direction>, nat)>): Plan
    decreases |chains|
  {
    if chains == [] then p else Chains(Chain(p, chains[0].0, chains[0].1).plan, chains[1..])
  }

  // ---- Scoping --------------------------------------------------------------------------------

  ghost predicate DistinctFirsts(computed: seq<(Column, Expr)>) {
    forall i, j :: 0 <= i < j < |computed| ==> computed[i].0 != computed[j].0
  }

  /** Operators read visible columns; the right input of a join may also read the left one's. */
  ghost predicate Scoped(p: Plan, outer: set<Column>) {
    match p
    case BaseTable(_, _, _, _) => true
    case CrossProduct(l, r) => Scoped(l, outer) && Scoped(r, outer + Output(l))
    case Join(_, l, r, pred, _, _) =>
      Scoped(l, outer) && Scoped(r, outer + Output(l)) && Used(pred) <= Output(l) + Output(r) + outer
    case Selection(child, pred) => Scoped(child, outer) && Used(pred) <= Output(child) + outer
    case MapOp(child, computed) =>
      Scoped(child, outer) && UsedAll(computed) <= Output(child) + outer && DistinctFirsts(computed)
    case _ => Scoped(p.child, outer)
  }

  /** Nothing below the root depends on which columns of outer are bound. */
  ghost predicate Plain(p: Plan, outer: set<Column>) {
    CreatedOnce(p) && Scoped(p, outer) && outer !! CreatedWithin(p)
  }

  /** What the mapping of a chain satisfies above p. */
  ghost predicate GoodMapping(m: Mapping, p: Plan, outer: set<Column>) {
    && m.Keys <= CreatedWithin(p)
    && (forall c :: c in m ==> m[c] !in m)
    && (forall c :: c in m ==> m[c] in CreatedWithin(p) + outer)
    && (forall c :: c in m && c in Output(p) ==> m[c] in Output(p) + outer)
  }

  /** The mapped columns that are visible carry the value of the column they are mapped to. */
  ghost predicate Copies(m: Mapping, t: Row, vis: set<Column>) {
    forall c :: c in m && c in vis ==> Get(t, c) == Get(t, m[c])
  }

  // ---- Expressions ----------------------------------------------------------------------------------

  lemma {:induction false} ReplaceEval(w: World, e: Expr, m: Mapping, t: Row)
    requires forall c :: c in Used(e) ==> Get(t, Resolve(c, m)) == Get(t, c)
    ensures Eval(w, Replace(e, m), t) == Eval(w, e, t)
  {
    match e
    case GetColumn(c) => assert c in Used(e);
    case Constant(_) =>
    case CmpEq(l, r) =>
      ReplaceEval(w, l, m, t);
      ReplaceEval(w, r, m, t);
    case Call(code, args) =>
      forall i | 0 <= i < |args| ensures Eval(w, Replace(args[i], m), t) == Eval(w, args[i], t) {
        assert Used(args[i]) <= Used(e);
        ReplaceEval(w, args[i], m, t);
      }
      var after := Replace(e, m).args;
      assert seq(|after|, i requires 0 <= i < |after| => Eval(w, after[i], t))
          == seq(|args|, i requires 0 <= i < |args| => Eval(w, args[i], t));
  }

  /** The columns read after replacement are the resolved ones. */
  lemma {:induction false} ReplaceUsed(e: Expr, m: Mapping, cs: set<Column>)
    requires forall c :: c in Used(e) ==> Resolve(c, m) in cs
    ensures Used(Replace(e, m)) <= cs
  {
    match e
    case GetColumn(c) => assert c in Used(e);
    case Constant(_) =>
    case CmpEq(l, r) =>
      ReplaceUsed(l, m, cs);
      ReplaceUsed(r, m, cs);
    case Call(code, args) =>
      forall i | 0 <= i < |args| ensures Used(Replace(args[i], m)) <= cs {
        assert Used(args[i]) <= Used(e);
        ReplaceUsed(args[i], m, cs);
      }
      forall c | c in Used(Replace(e, m)) ensures c in cs {
        var i :| 0 <= i < |args| && c in Used(Replace(args[i], m));
      }
  }
}
