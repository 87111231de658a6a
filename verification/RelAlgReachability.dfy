/**
 * Column reachability over a graph of operators, in which a result may have several
 * users: canColumnReach against paths and against what operators really output.
 */
module ColumnReachability {
  import opened Options
  import opened RelAlgPlan
  import opened RelAlgFreeColumns

  /** An operator whose inputs are earlier operators of the block. */
  datatype Node =
    | Table(table: string, columns: seq<(string, Column)>, present: bool, primaryKey: seq<string>)
    | Select(input: nat, pred: Expr)
    | Derive(input: nat, computed: seq<(Column, Expr)>)
    | Cross(left: nat, right: nat)
    | JoinNode(kind: JoinKind, left: nat, right: nat, pred: Expr, leftHash: Option<seq<Column>>, rightHash: Option<seq<Column>>)
    | Group(input: nat, groupBy: seq<Column>, aggregates: seq<Aggregate>)
    | Project(input: nat, distinct: bool, cols: seq<Column>)
    | Rename(input: nat, renames: seq<(Column, Column)>)

  type Graph = seq<Node>

  function Inputs(n: Node): seq<nat> {
    match n
    case Table(_, _, _, _) => []
    case Cross(l, r) => [l, r]
    case JoinNode(_, l, r, _, _, _) => [l, r]
    case _ => [n.input]
  }

  /** Operators come after their inputs. */
  ghost predicate Ordered(g: Graph) {
    forall i, j :: 0 <= i < |g| && j in Inputs(g[i]) ==> j < i
  }

  /** The plan rooted at an operator, with shared inputs written out. */
  ghost function PlanAt(g: Graph, i: nat): Plan
    requires Ordered(g) && i < |g|
    decreases i
  {
    assert forall j :: j in Inputs(g[i]) ==> j < i;
    match g[i]
    case Table(table, columns, present, primaryKey) => BaseTable(table, columns, present, primaryKey)
    case Select(j, pred) => assert j in Inputs(g[i]); Selection(PlanAt(g, j), pred)
    case Derive(j, computed) => assert j in Inputs(g[i]); MapOp(PlanAt(g, j), computed)
    case Cross(l, r) => assert l in Inputs(g[i]) && r in Inputs(g[i]); CrossProduct(PlanAt(g, l), PlanAt(g, r))
    case JoinNode(kind, l, r, pred, lh, rh) =>
      assert l in Inputs(g[i]) && r in Inputs(g[i]);
      Join(kind, PlanAt(g, l), PlanAt(g, r), pred, lh, rh)
    case Group(j, groupBy, aggregates) => assert j in Inputs(g[i]); Aggregation(PlanAt(g, j), groupBy, aggregates)
    case Project(j, distinct, cols) => assert j in Inputs(g[i]); Projection(PlanAt(g, j), distinct, cols)
    case Rename(j, renames) => assert j in Inputs(g[i]); Renaming(PlanAt(g, j), renames)
  }

  /** The columns an operator creates itself. */
  function Creates(n: Node): set<Column> {
    match n
    case Table(_, columns, _, _) => Seconds(columns)
    case Derive(_, computed) => Firsts(computed)
    case JoinNode(kind, _, _, _, _, _) => CreatedByJoin(kind)
    case Group(_, _, aggregates) => AggregateColumns(aggregates)
    case Rename(_, renames) => Firsts(renames)
    case _ => {}
  }

  /** The check each canColumnReach override makes about the operator it is entered from. */
  predicate Gate(n: Node, source: Option<nat>, col: Column) {
    match n
    case JoinNode(kind, _, right, _, _, _) => kind.Inner? || source != Some(right)
    case Group(_, groupBy, aggregates) => col in AggregateColumns(aggregates) + ColumnSet(groupBy)
    case Project(_, _, cols) => col in cols
    case Rename(_, renames) => forall k :: 0 <= k < |renames| ==> renames[k].1 != col
    case _ => true
  }

  /** detail::canColumnReach */
  predicate Climb(g: Graph, i: nat, target: nat, col: Column)
    requires i < |g|
    decreases |g| - i, 0
  {
    i == target ||
    exists user :: i < user < |g| && i in Inputs(g[user]) && CanReach(g, user, Some(i), target, col)
  }

  /** canColumnReach of operator i */
  predicate CanReach(g: Graph, i: nat, source: Option<nat>, target: nat, col: Column)
    requires i < |g|
    decreases |g| - i, 1
  {
    Gate(g[i], source, col) && Climb(g, i, target, col)
  }

  /** detail::canColumnReach as the loop over the users it is. */
  method ClimbLoop(g: Graph, i: nat, target: nat, col: Column) returns (reached: bool)
    requires i < |g| && Ordered(g)
    ensures reached <==> Climb(g, i, target, col)
    decreases |g| - i, 0
  {
    if i == target {
      return true;
    }
    var user := i + 1;
    while user < |g|
      invariant i < user <= |g|
      invariant forall u :: i < u < user && i in Inputs(g[u]) ==> !CanReach(g, u, Some(i), target, col)
    {
      if i in Inputs(g[user]) {
        var through := CanReachCall(g, user, Some(i), target, col);
        if through {
          return true;
        }
      }
      user := user + 1;
    }
    return false;
  }

  method CanReachCall(g: Graph, i: nat, source: Option<nat>, target: nat, col: Column) returns (reached: bool)
    requires i < |g| && Ordered(g)
    ensures reached <==> CanReach(g, i, source, target, col)
    decreases |g| - i, 1
  {
    if !Gate(g[i], source, col) {
      return false;
    }
    reached := ClimbLoop(g, i, target, col);
  }

  // ---- Paths ----------------------------------------------------------------------------------

  /** A chain of operators, each an input of the next, where every operator entered lets the column in. */
  ghost predicate OpenPath(g: Graph, path: seq<nat>, col: Column) {
    && (forall k :: 0 <= k < |path| ==> path[k] < |g|)
    && (forall k :: 0 <= k < |path| - 1 ==>
          path[k] in Inputs(g[path[k + 1]]) && Gate(g[path[k + 1]], Some(path[k]), col))
  }

  ghost predicate Leads(path: seq<nat>, i: nat, target: nat) {
    path != [] && path[0] == i && path[|path| - 1] == target
  }

  lemma {:induction false} ClimbHasPath(g: Graph, i: nat, target: nat, col: Column) returns (path: seq<nat>)
    requires i < |g| && Climb(g, i, target, col)
    ensures OpenPath(g, path, col) && Leads(path, i, target)
    decreases |g| - i
  {
    if i == target {
      path := [i];
    } else {
      var user :| i < user < |g| && i in Inputs(g[user]) && CanReach(g, user, Some(i), target, col);
      var rest := ClimbHasPath(g, user, target, col);
      path := [i] + rest;
      forall k | 0 <= k < |path| - 1 ensures path[k] in Inputs(g[path[k + 1]]) && Gate(g[path[k + 1]], Some(path[k]), col) {
        if k > 0 { assert path[k] == rest[k - 1] && path[k + 1] == rest[k]; }
      }
    }
  }

  lemma {:induction false} PathClimbs(g: Graph, path: seq<nat>, target: nat, col: Column)
    requires Ordered(g) && OpenPath(g, path, col) && path != [] && path[|path| - 1] == target
    ensures Climb(g, path[0], target, col)
  {
    if |path| > 1 {
      var rest := path[1..];
      forall k | 0 <= k < |rest| - 1 ensures rest[k] in Inputs(g[rest[k + 1]]) && Gate(g[rest[k + 1]], Some(rest[k]), col) {
        assert rest[k] == path[k + 1] && rest[k + 1] == path[k + 2];
      }
      PathClimbs(g, rest, target, col);
      assert path[0] in Inputs(g[path[0 + 1]]) && Gate(g[path[0 + 1]], Some(path[0]), col);
      assert CanReach(g, path[1], Some(path[0]), target, col);
    }
  }

  /** canColumnReach is true exactly when some chain of users from i to the target lets the column
      into every operator on the way, the target included. */
  lemma ReachIffPath(g: Graph, i: nat, source: Option<nat>, target: nat, col: Column)
    requires Ordered(g) && i < |g|
    ensures CanReach(g, i, source, target, col) <==>
            Gate(g[i], source, col) && exists path :: OpenPath(g, path, col) && Leads(path, i, target)
  {
    if CanReach(g, i, source, target, col) {
      var path := ClimbHasPath(g, i, target, col);
    }
    if path :| OpenPath(g, path, col) && Leads(path, i, target) {
      PathClimbs(g, path, target, col);
    }
  }

  // ---- What operators output --------------------------------------------------------------------

  ghost function OutputAt(g: Graph, i: nat): set<Column>
    requires Ordered(g) && i < |g|
  {
    Output(PlanAt(g, i))
  }

  /** A column output by an input and let in by the operator is output by the operator. */
  lemma GateKeepsOutput(g: Graph, j: nat, i: nat, col: Column)
    requires Ordered(g) && i < |g| && j in Inputs(g[i]) && j < i
    requires col in OutputAt(g, j) && Gate(g[i], Some(j), col)
    ensures col in OutputAt(g, i)
  {
    match g[i]
    case Rename(_, renames) =>
      forall p | p in renames ensures p.1 != col {
        var k :| 0 <= k < |renames| && renames[k] == p;
      }
    case Group(_, groupBy, aggregates) => assert AggregateColumns(aggregates) == Created(PlanAt(g, i));
    case JoinNode(kind, _, _, _, _, _) =>
    case _ =>
  }

  /** A column that can reach an operator, and is output where it starts, is output and available there. */
  lemma {:induction false} ReachedIsOutput(g: Graph, i: nat, target: nat, col: Column)
    requires Ordered(g) && i < |g| && Climb(g, i, target, col) && col in OutputAt(g, i)
    ensures target < |g| && col in OutputAt(g, target) && col in Available(PlanAt(g, target))
    decreases |g| - i
  {
    if i == target {
      OutputIsAvailable(PlanAt(g, target));
    } else {
      var user :| i < user < |g| && i in Inputs(g[user]) && CanReach(g, user, Some(i), target, col);
      GateKeepsOutput(g, i, user, col);
      ReachedIsOutput(g, user, target, col);
    }
  }

  /** The operator outputs the column, but does not let it in: a join that keeps only its left input and has one
      operator as both inputs, or a renaming that also consumes the column it creates. */
  ghost predicate Blocks(g: Graph, i: nat, col: Column)
    requires Ordered(g) && i < |g|
  {
    match g[i]
    case JoinNode(kind, l, r, _, _, _) => !kind.Inner? && l == r && (assert l in Inputs(g[i]); col in OutputAt(g, l))
    case Rename(_, renames) => col in Firsts(renames) && col in Seconds(renames)
    case _ => false
  }

  ghost predicate NothingBlocks(g: Graph, col: Column)
    requires Ordered(g)
  {
    forall i :: 0 <= i < |g| ==> !Blocks(g, i, col)
  }

  lemma CreatedGate(g: Graph, i: nat, col: Column)
    requires Ordered(g) && i < |g| && col in Creates(g[i]) && !Blocks(g, i, col)
    ensures Gate(g[i], None, col) && col in OutputAt(g, i)
  {
    match g[i]
    case Rename(_, renames) =>
      forall k | 0 <= k < |renames| ensures renames[k].1 != col {
        assert renames[k] in renames && renames[k].1 in Seconds(renames);
      }
    case Group(_, groupBy, aggregates) => assert AggregateColumns(aggregates) == Created(PlanAt(g, i));
    case JoinNode(kind, _, _, _, _, _) =>
    case Table(_, columns, _, _) => assert Created(PlanAt(g, i)) == Seconds(columns);
    case Derive(_, computed) =>
    case _ =>
  }

  /** What an operator outputs and did not create comes from an input. */
  lemma OutputOfInput(g: Graph, i: nat, col: Column) returns (j: nat)
    requires Ordered(g) && i < |g| && col in OutputAt(g, i) && col !in Creates(g[i])
    ensures j in Inputs(g[i]) && j < i && col in OutputAt(g, j)
    ensures g[i].JoinNode? && !g[i].kind.Inner? ==> j == g[i].left
  {
    assert forall k :: k in Inputs(g[i]) ==> k < i;
    match g[i]
    case Table(_, _, _, _) => assert false;
    case Cross(l, r) =>
      assert l in Inputs(g[i]);
      j := if col in OutputAt(g, l) then l else r;
    case JoinNode(_, l, r, _, _, _) =>
      assert l in Inputs(g[i]);
      j := if col in OutputAt(g, l) then l else r;
    case Group(k, _, aggregates) =>
      assert AggregateColumns(aggregates) == Created(PlanAt(g, i));
      j := k;
    case _ => j := g[i].input;
    assert j in Inputs(g[i]);
  }

  /** Unless it blocks the column, it lets it in from there. */
  lemma OutputComesFrom(g: Graph, i: nat, col: Column) returns (j: nat)
    requires Ordered(g) && i < |g| && col in OutputAt(g, i) && col !in Creates(g[i]) && !Blocks(g, i, col)
    ensures j in Inputs(g[i]) && j < i && col in OutputAt(g, j) && Gate(g[i], Some(j), col)
  {
    j := OutputOfInput(g, i, col);
    match g[i]
    case Group(_, _, aggregates) => assert AggregateColumns(aggregates) == Created(PlanAt(g, i));
    case Rename(_, renames) =>
      forall n | 0 <= n < |renames| ensures renames[n].1 != col {
        assert renames[n] in renames && renames[n].1 in Seconds(renames);
      }
    case _ =>
  }

  lemma {:induction false} Extend(g: Graph, i: nat, j: nat, k: nat, col: Column)
    requires Ordered(g) && i < |g| && Climb(g, i, j, col) && j < k < |g|
    requires j in Inputs(g[k]) && Gate(g[k], Some(j), col)
    ensures Climb(g, i, k, col)
    decreases |g| - i
  {
    if i == j {
      assert CanReach(g, k, Some(i), k, col);
    } else if i != k {
      var user :| i < user < |g| && i in Inputs(g[user]) && CanReach(g, user, Some(i), j, col);
      Extend(g, user, j, k, col);
      assert CanReach(g, user, Some(i), k, col);
    }
  }

  /** An output column can be reached from an operator that creates it. */
  lemma {:induction false} OutputIsReached(g: Graph, target: nat, col: Column) returns (creator: nat)
    requires Ordered(g) && NothingBlocks(g, col) && target < |g| && col in OutputAt(g, target)
    ensures creator < |g| && col in Creates(g[creator]) && CanReach(g, creator, None, target, col)
    decreases target
  {
    if col in Creates(g[target]) {
      creator := target;
      CreatedGate(g, target, col);
    } else {
      var j := OutputComesFrom(g, target, col);
      creator := OutputIsReached(g, j, col);
      Extend(g, creator, j, target, col);
    }
  }

  ghost predicate OnlyCreator(g: Graph, s: nat, col: Column) {
    s < |g| && col in Creates(g[s]) && forall i :: 0 <= i < |g| && col in Creates(g[i]) ==> i == s
  }

  /** Asked of the column's creator, canColumnReach decides whether the target really outputs the column. */
  lemma ReachIffOutput(g: Graph, creator: nat, target: nat, col: Column)
    requires Ordered(g) && NothingBlocks(g, col) && target < |g| && OnlyCreator(g, creator, col)
    ensures CanReach(g, creator, None, target, col) <==> col in OutputAt(g, target)
  {
    CreatedGate(g, creator, col);
    if CanReach(g, creator, None, target, col) {
      ReachedIsOutput(g, creator, target, col);
    }
    if col in OutputAt(g, target) {
      var s := OutputIsReached(g, target, col);
      assert s == creator;
    }
  }

  /** Whatever an operator outputs was created by it or before it. */
  lemma {:induction false} HasCreator(g: Graph, i: nat, col: Column) returns (s: nat)
    requires Ordered(g) && i < |g| && col in OutputAt(g, i)
    ensures s <= i && col in Creates(g[s])
    decreases i
  {
    if col in Creates(g[i]) {
      s := i;
    } else {
      var j := OutputOfInput(g, i, col);
      s := HasCreator(g, j, col);
    }
  }

  /** An operator reached from another one lets the column in from one of its inputs. */
  lemma {:induction false} LastStep(g: Graph, i: nat, target: nat, col: Column) returns (j: nat)
    requires Ordered(g) && i < |g| && i != target && Climb(g, i, target, col)
    ensures target < |g| && j in Inputs(g[target]) && Gate(g[target], Some(j), col)
    decreases |g| - i
  {
    var user :| i < user < |g| && i in Inputs(g[user]) && CanReach(g, user, Some(i), target, col);
    if user == target {
      j := i;
    } else {
      j := LastStep(g, user, target, col);
    }
  }

  lemma BlockedIsNotReached(g: Graph, creator: nat, i: nat, col: Column)
    requires Ordered(g) && OnlyCreator(g, creator, col) && i < |g| && Blocks(g, i, col)
    ensures col in OutputAt(g, i) && !CanReach(g, creator, None, i, col)
  {
    match g[i]
    case JoinNode(kind, l, r, _, _, _) =>
      assert l in Inputs(g[i]);
      var s := HasCreator(g, l, col);
      assert s == creator && creator < i;
      if CanReach(g, creator, None, i, col) {
        var j := LastStep(g, creator, i, col);
      }
    case Rename(_, renames) =>
      assert col in Creates(g[i]) && i == creator;
      var p :| p in renames && p.1 == col;
      var k :| 0 <= k < |renames| && renames[k] == p;
    case _ =>
  }

  /** Asked of the column's only creator, canColumnReach decides for every target whether it really outputs the
      column, exactly if no operator outputs the column without letting it in. */
  lemma ReachDecidesOutputIff(g: Graph, creator: nat, col: Column)
    requires Ordered(g) && OnlyCreator(g, creator, col)
    ensures (forall t :: 0 <= t < |g| ==> (CanReach(g, creator, None, t, col) <==> col in OutputAt(g, t)))
            <==> NothingBlocks(g, col)
  {
    if NothingBlocks(g, col) {
      forall t | 0 <= t < |g| ensures CanReach(g, creator, None, t, col) <==> col in OutputAt(g, t) {
        ReachIffOutput(g, creator, t, col);
      }
    } else {
      var i :| 0 <= i < |g| && Blocks(g, i, col);
      BlockedIsNotReached(g, creator, i, col);
    }
  }

  /** A join of a table with itself. */
  function SelfJoin(kind: JoinKind): Graph {
    [Table("t", [("c", 0)], false, []), JoinNode(kind, 0, 0, Constant(Bool(true)), None, None)]
  }

  /** A semi, anti-semi, mark or outer join of an operator with itself outputs its columns, but they cannot
      reach it. */
  lemma SelfJoinIsNotReached(kind: JoinKind)
    requires !kind.Inner? && 0 !in CreatedByJoin(kind)
    ensures Ordered(SelfJoin(kind)) && OnlyCreator(SelfJoin(kind), 0, 0)
    ensures 0 in OutputAt(SelfJoin(kind), 1) && !CanReach(SelfJoin(kind), 0, None, 1, 0)
  {
    var g := SelfJoin(kind);
    assert Inputs(g[0]) == [] && Inputs(g[1]) == [0, 0];
    assert ("c", 0) in g[0].columns && 0 in Creates(g[0]);
    assert PlanAt(g, 0) == BaseTable("t", [("c", 0)], false, []);
    assert Blocks(g, 1, 0);
    BlockedIsNotReached(g, 0, 1, 0);
  }

  /** A renaming of an enclosing column to itself. */
  function SelfRenaming(): Graph {
    [Table("t", [("c", 1)], false, []), Rename(0, [(0, 0)])]
  }

  lemma SelfRenamingIsNotReached()
    ensures Ordered(SelfRenaming()) && OnlyCreator(SelfRenaming(), 1, 0)
    ensures 0 in OutputAt(SelfRenaming(), 1) && !CanReach(SelfRenaming(), 1, None, 1, 0)
  {
    var g := SelfRenaming();
    assert Inputs(g[0]) == [] && Inputs(g[1]) == [0];
    assert (0, 0) in g[1].renames && 0 in Creates(g[1]) && Blocks(g, 1, 0);
    assert 0 !in Creates(g[0]);
    BlockedIsNotReached(g, 1, 1, 0);
  }
}
