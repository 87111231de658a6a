/** The column folding pass: the operators' methods on their shared state, and what the pass preserves. */
module ColumnFoldingPass {
  import opened RelAlgPlan
  import opened RelAlgFreeColumns
  import opened RelAlgFolding
  import opened RelAlgDeadColumns
  import opened FoldingPreservesRows
  import opened Sequences

  /** The state that one chain of operators hands on. */
  class ColumnFoldInfo {
    var directMappings: Mapping

    constructor ()
      ensures directMappings == map[]
    {
      directMappings := map[];
    }

    /** MapOp::foldColumns */
    method FoldMap(computed: seq<(Column, Expr)>) returns (folded: seq<(Column, Expr)>)
      modifies this
      ensures folded == ReplaceAll(computed, old(directMappings))
      ensures directMappings == AddCopies(folded, old(directMappings))
    {
      folded := ReplaceAll(computed, directMappings);
      ghost var all := AddCopies(folded, directMappings);
      var i := 0;
      while i < |folded|
        invariant 0 <= i <= |folded|
        invariant AddCopies(folded[i..], directMappings) == all
      {
        assert folded[i..][0] == folded[i] && folded[i..][1..] == folded[i + 1..];
        match folded[i].1 {
          case GetColumn(previous) => directMappings := directMappings[folded[i].0 := previous];
          case _ =>
        }
        i := i + 1;
      }
    }

    /** foldColumns of any operator that has it. */
    method Fold(p: Plan) returns (q: Plan)
      requires Foldable(p)
      modifies this
      ensures (q, directMappings) == FoldOperator(p, old(directMappings))
    {
      match p {
        case Selection(child, pred) => q := Selection(child, Replace(pred, directMappings));
        case MapOp(child, computed) =>
          var folded := FoldMap(computed);
          q := MapOp(child, folded);
        case CrossProduct(_, _) => q := p;
        case Join(kind, l, r, pred, lh, rh) => q := Join(kind, l, r, Replace(pred, directMappings), lh, rh);
      }
    }
  }

  lemma {:induction false} KeepConcat(a: seq<(Column, Expr)>, b: seq<(Column, Expr)>, used: set<Column>)
    ensures Keep(a + b, used) == Keep(a, used) + Keep(b, used)
  {
    if a == [] {
      assert a + b == b;
    } else {
      var rest := a[1..];
      KeepConcat(rest, b, used);
      assert (a + b)[0] == a[0] && (a + b)[1..] == rest + b;
      Associate(if a[0].0 in used then [a[0]] else [], Keep(rest, used), Keep(b, used));
    }
  }

  /** MapOp::eliminateDeadColumns, followed by the pass replacing the operator when nothing is left. */
  method EliminateDeadColumns(child: Plan, computed: seq<(Column, Expr)>, used: set<Column>) returns (q: Plan)
    ensures q == EliminateIn(child, computed, used)
  {
    var results := [];
    var i := 0;
    while i < |computed|
      invariant 0 <= i <= |computed|
      invariant results == Keep(computed[..i], used)
    {
      assert computed[..i + 1] == computed[..i] + [computed[i]];
      KeepConcat(computed[..i], [computed[i]], used);
      if computed[i].0 in used {
        results := results + [computed[i]];
      }
      i := i + 1;
    }
    assert computed[..i] == computed;
    if |results| == |computed| {
      q := MapOp(child, computed);
    } else if |results| == 0 {
      q := child;
    } else {
      q := MapOp(child, results);
    }
  }

  /** The columns that keep a computed column alive: those operators use, and those materialized. */
  function PassUses(folded: Plan, materialized: set<Column>): set<Column> {
    UsedWithin(folded) + materialized
  }

  /** The whole pass. */
  function RunPass(p: Plan, chains: seq<(seq<Direction>, nat)>, materialized: set<Column>): Plan {
    var folded := Chains(p, chains);
    Eliminate(folded, PassUses(folded, materialized))
  }

  /** The pass keeps the number and order of rows, and the value of every column that is still used
      or materialized; it loses no such column from the output. */
  lemma PassKeepsUsedColumns(w: World, p: Plan, chains: seq<(seq<Direction>, nat)>, materialized: set<Column>, o: Row, outer: set<Column>)
    requires Plain(p, outer) && Unbound(o, CreatedWithin(p))
    ensures var before, after := Rows(w, p, o), Rows(w, RunPass(p, chains, materialized), o);
            && |after| == |before|
            && forall i, c :: 0 <= i < |before| && c in PassUses(Chains(p, chains), materialized) ==>
                 Get(after[i], c) == Get(before[i], c)
    ensures forall c :: c in PassUses(Chains(p, chains), materialized) ==>
              (c in Output(RunPass(p, chains, materialized)) <==> c in Output(p))
  {
    var folded := Chains(p, chains);
    var used := PassUses(folded, materialized);
    var dead := Dropped(folded, used);
    ChainsKeepRows(w, p, chains, o, outer);
    DroppedIsCreated(folded, used);
    assert dead * CreatedWithin(folded) == dead;
    DroppedIsDroppable(folded, dead, used);
    DroppedIsUnused(folded, used);
    EliminateStrips(w, folded, used, dead, o);
    assert Strip(o, dead) == o;
    OutputStrip(folded, used, dead);
  }

  lemma {:induction false} DroppedIsUnused(p: Plan, used: set<Column>)
    ensures Dropped(p, used) !! used
  {
    match p
    case BaseTable(_, _, _, _) =>
    case CrossProduct(l, r) =>
      DroppedIsUnused(l, used);
      DroppedIsUnused(r, used);
    case Join(_, l, r, _, _, _) =>
      DroppedIsUnused(l, used);
      DroppedIsUnused(r, used);
    case _ => DroppedIsUnused(p.child, used);
  }
}
