/** What column folding achieves: reads of copies become reads of what they copy, and copies that nothing reads any more
    are dropped. */
module FoldingDropsCopies {
  import opened RelAlgPlan
  import opened RelAlgFreeColumns
  import opened RelAlgFolding
  import opened RelAlgDeadColumns
  import opened FoldingPreservesRows
  import opened ColumnFoldingPass

  // ---- The mapping of one operator ---------------------------------------------------------------------

  /** The operator is a map that copies d into c. */
  ghost predicate CopiesInto(p: Plan, c: Column, d: Column) {
    p.MapOp? && exists i :: 0 <= i < |p.computed| && p.computed[i] == (c, GetColumn(d))
  }

  lemma {:induction false} OthersStay(computed: seq<(Column, Expr)>, m: Mapping, c: Column)
    requires forall i :: 0 <= i < |computed| ==> computed[i].0 != c
    ensures (c in AddCopies(computed, m) <==> c in m) && (c in m ==> AddCopies(computed, m)[c] == m[c])
    decreases |computed|
  {
    if computed != [] {
      OthersStay(computed[1..], match computed[0].1 case GetColumn(d) => m[computed[0].0 := d] case _ => m, c);
    }
  }

  /** A map records exactly its copies, each with its source, and keeps what was recorded before. */
  lemma {:induction false} CopiesRecorded(computed: seq<(Column, Expr)>, m: Mapping, c: Column)
    requires DistinctFirsts(computed)
    ensures (exists i, d :: 0 <= i < |computed| && computed[i] == (c, GetColumn(d))) || c in m <==> c in AddCopies(computed, m)
    ensures forall i, d :: 0 <= i < |computed| && computed[i] == (c, GetColumn(d)) ==> AddCopies(computed, m)[c] == d
    ensures c in m && (forall i, d :: 0 <= i < |computed| ==> computed[i] != (c, GetColumn(d))) ==> AddCopies(computed, m)[c] == m[c]
    decreases |computed|
  {
    if computed != [] {
      var rest := computed[1..];
      var m1 := match computed[0].1 case GetColumn(d) => m[computed[0].0 := d] case _ => m;
      if computed[0].0 == c {
        assert forall i :: 0 <= i < |rest| ==> rest[i] == computed[i + 1];
        OthersStay(rest, m1, c);
        assert forall i, d :: 0 <= i < |computed| && computed[i] == (c, GetColumn(d)) ==> i == 0;
        if computed[0].1.GetColumn? { assert computed[0] == (c, GetColumn(computed[0].1.c)); }
      } else {
        CopiesRecorded(rest, m1, c);
        LaterCopies(computed, c);
      }
    }
  }

  lemma LaterCopies(computed: seq<(Column, Expr)>, c: Column)
    requires computed != [] && computed[0].0 != c
    ensures forall d :: (exists i :: 0 <= i < |computed[1..]| && computed[1..][i] == (c, GetColumn(d)))
                        <==> exists i :: 0 <= i < |computed| && computed[i] == (c, GetColumn(d))
  {
    var rest := computed[1..];
    forall d ensures (exists i :: 0 <= i < |rest| && rest[i] == (c, GetColumn(d))) <==> exists i :: 0 <= i < |computed| && computed[i] == (c, GetColumn(d)) {
      if i :| 0 <= i < |rest| && rest[i] == (c, GetColumn(d)) { assert computed[i + 1] == rest[i]; }
      if i :| 0 <= i < |computed| && computed[i] == (c, GetColumn(d)) { assert rest[i - 1] == computed[i]; }
    }
  }

  // ---- What an operator reads --------------------------------------------------------------------------

  /** The columns that the operator's predicate or computed expressions read. */
  function Reads(p: Plan): set<Column> {
    match p
    case Selection(_, pred) => Used(pred)
    case MapOp(_, computed) => UsedAll(computed)
    case Join(_, _, _, pred, _, _) => Used(pred)
    case _ => {}
  }

  /** after is before with every column resolved. */
  ghost predicate Resolved(before: set<Column>, after: set<Column>, m: Mapping) {
    (forall c :: c in before ==> Resolve(c, m) in after) && forall d :: d in after ==> exists c :: c in before && Resolve(c, m) == d
  }

  lemma {:induction false} ReplaceResolves(e: Expr, m: Mapping)
    ensures Resolved(Used(e), Used(Replace(e, m)), m)
    decreases e, 1
  {
    match e
    case GetColumn(c) => assert c in Used(e);
    case Constant(_) =>
    case CmpEq(l, r) =>
      ReplaceResolves(l, m);
      ReplaceResolves(r, m);
      ResolvedSum(Used(l), Used(Replace(l, m)), Used(r), Used(Replace(r, m)), m);
    case Call(code, args) => ArgumentsResolve(e, m);
  }

  lemma ResolvedSum(a: set<Column>, a1: set<Column>, b: set<Column>, b1: set<Column>, m: Mapping)
    requires Resolved(a, a1, m) && Resolved(b, b1, m)
    ensures Resolved(a + b, a1 + b1, m)
  {
    forall d | d in a1 + b1 ensures exists c :: c in a + b && Resolve(c, m) == d {
      if d in a1 {
        var c :| c in a && Resolve(c, m) == d;
        assert c in a + b;
      } else {
        var c :| c in b && Resolve(c, m) == d;
        assert c in a + b;
      }
    }
  }

  lemma {:induction false} ArgumentsResolve(e: Expr, m: Mapping)
    requires e.Call?
    ensures Resolved(Used(e), Used(Replace(e, m)), m)
    decreases e, 0
  {
    var args, after := e.args, Replace(e, m).args;
    forall c | c in Used(e) ensures Resolve(c, m) in Used(Replace(e, m)) {
      var i :| 0 <= i < |args| && c in Used(args[i]);
      ReplaceResolves(args[i], m);
      assert Resolve(c, m) in Used(after[i]);
    }
    forall d | d in Used(Replace(e, m)) ensures exists c :: c in Used(e) && Resolve(c, m) == d {
      var i :| 0 <= i < |after| && d in Used(after[i]);
      ReplaceResolves(args[i], m);
      var c :| c in Used(args[i]) && Resolve(c, m) == d;
      assert c in Used(e);
    }
  }

  lemma AllResolve(computed: seq<(Column, Expr)>, m: Mapping)
    ensures Resolved(UsedAll(computed), UsedAll(ReplaceAll(computed, m)), m)
  {
    var after := ReplaceAll(computed, m);
    forall c | c in UsedAll(computed) ensures Resolve(c, m) in UsedAll(after) {
      var i :| 0 <= i < |computed| && c in Used(computed[i].1);
      ReplaceResolves(computed[i].1, m);
      assert after[i] in after && Resolve(c, m) in Used(after[i].1);
    }
    forall d | d in UsedAll(after) ensures exists c :: c in UsedAll(computed) && Resolve(c, m) == d {
      var i :| 0 <= i < |after| && d in Used(after[i].1);
      ReplaceResolves(computed[i].1, m);
      var c :| c in Used(computed[i].1) && Resolve(c, m) == d;
      assert computed[i] in computed && c in UsedAll(computed);
    }
  }

  /** After folding, an operator reads exactly what the columns it read are mapped to, and so no mapped column. */
  lemma FoldResolvesReads(p: Plan, m: Mapping)
    requires Foldable(p)
    ensures Resolved(Reads(p), Reads(FoldOperator(p, m).0), m)
    ensures (forall c :: c in m ==> m[c] !in m) ==> Reads(FoldOperator(p, m).0) !! m.Keys
  {
    match p
    case Selection(_, pred) => ReplaceResolves(pred, m);
    case MapOp(_, computed) => AllResolve(computed, m);
    case CrossProduct(_, _) =>
    case Join(_, _, _, pred, _, _) => ReplaceResolves(pred, m);
  }

  // ---- Along a chain -----------------------------------------------------------------------------------

  /** The chain gets as far as p: nothing on the way stops it. */
  predicate Climbs(p: Plan, path: seq<Direction>, reach: nat)
    decreases p
  {
    Foldable(p) && (path == [] || (|path| <= reach && Climbs(Child(p, path[0]), path[1..], reach)))
  }

  lemma {:induction false} LiveIffClimbs(p: Plan, path: seq<Direction>, reach: nat)
    ensures Chain(p, path, reach).live <==> Climbs(p, path, reach)
    decreases p
  {
    if path != [] && !p.BaseTable? {
      LiveIffClimbs(Child(p, path[0]), path[1..], reach);
    }
  }

  /** Some map on the path copies into c. */
  ghost predicate CopiedOn(p: Plan, path: seq<Direction>, c: Column)
    decreases p
  {
    (exists d :: CopiesInto(p, c, d)) || (path != [] && !p.BaseTable? && CopiedOn(Child(p, path[0]), path[1..], c))
  }

  lemma ReplacedCopies(computed: seq<(Column, Expr)>, m: Mapping, c: Column)
    ensures (exists i, d :: 0 <= i < |computed| && ReplaceAll(computed, m)[i] == (c, GetColumn(d)))
            <==> exists i, d :: 0 <= i < |computed| && computed[i] == (c, GetColumn(d))
  {
    var after := ReplaceAll(computed, m);
    if i, d :| 0 <= i < |computed| && computed[i] == (c, GetColumn(d)) {
      assert after[i] == (c, GetColumn(Resolve(d, m)));
    }
    if i, d :| 0 <= i < |computed| && after[i] == (c, GetColumn(d)) {
      assert computed[i] == (c, GetColumn(computed[i].1.c));
    }
  }

  lemma CopyPosition(p: Plan, c: Column)
    requires p.MapOp?
    ensures (exists d :: CopiesInto(p, c, d)) <==> exists i, d :: 0 <= i < |p.computed| && p.computed[i] == (c, GetColumn(d))
  {
    if i, d :| 0 <= i < |p.computed| && p.computed[i] == (c, GetColumn(d)) {
      assert CopiesInto(p, c, d);
    }
  }

  lemma FoldRecords(p: Plan, m: Mapping, c: Column)
    requires Foldable(p) && (p.MapOp? ==> DistinctFirsts(p.computed))
    ensures c in FoldOperator(p, m).1 <==> c in m || exists d :: CopiesInto(p, c, d)
  {
    if p.MapOp? {
      var after := ReplaceAll(p.computed, m);
      assert forall i, j :: 0 <= i < j < |after| ==> after[i].0 != after[j].0;
      CopiesRecorded(after, m, c);
      ReplacedCopies(p.computed, m, c);
      CopyPosition(p, c);
    }
  }

  /** The mapping of a chain has exactly the columns that maps on it copy into. */
  lemma {:induction false} ChainRecords(p: Plan, path: seq<Direction>, reach: nat, outer: set<Column>, c: Column)
    requires Plain(p, outer) && Climbs(p, path, reach)
    ensures Chain(p, path, reach).live && (c in Chain(p, path, reach).mapping <==> CopiedOn(p, path, c))
    decreases p
  {
    LiveIffClimbs(p, path, reach);
    if path == [] {
      FoldRecords(p, map[], c);
    } else {
      var d, below := path[0], Chain(Child(p, path[0]), path[1..], reach);
      ChildIsPlain(p, d, outer);
      ChainRecords(Child(p, d), path[1..], reach, ChildOuter(p, d, outer), c);
      FoldRecords(WithChild(p, d, below.plan), below.mapping, c);
      SameCopies(p, d, below.plan, c);
    }
  }

  lemma SameCopies(p: Plan, d: Direction, q: Plan, c: Column)
    requires Foldable(p)
    ensures var r := WithChild(p, d, q);
            Foldable(r) && Child(r, d) == q && Reads(r) == Reads(p) && (r.MapOp? <==> p.MapOp?) && (p.MapOp? ==> r.computed == p.computed)
    ensures forall e :: CopiesInto(WithChild(p, d, q), c, e) <==> CopiesInto(p, c, e)
  {
  }

  /** All that the operators on the path read. */
  function ReadsOn(p: Plan, path: seq<Direction>): set<Column>
    decreases p
  {
    Reads(p) + if path == [] || p.BaseTable? then {} else ReadsOn(Child(p, path[0]), path[1..])
  }

  /** What the operators on the path use beside that, and all that the other operators use. */
  function UsedBeside(p: Plan, path: seq<Direction>): set<Column>
    decreases p
  {
    UsedElsewhere(p) +
    if p.BaseTable? then {}
    else if path == [] then UsedBelow(p)
    else OtherUsed(p, path[0]) + UsedBeside(Child(p, path[0]), path[1..])
  }

  /** Hash columns, and everything of an operator that cannot be folded. */
  function UsedElsewhere(p: Plan): set<Column> {
    if !Foldable(p) then UsedBy(p)
    else if p.Join? then HashColumns(p.leftHash) + HashColumns(p.rightHash)
    else {}
  }

  function UsedBelow(p: Plan): set<Column>
    requires !p.BaseTable?
  {
    if Binary(p) then UsedWithin(p.left) + UsedWithin(p.right) else UsedWithin(p.child)
  }

  /** What the input uses that the path does not lead to. */
  function OtherUsed(p: Plan, d: Direction): set<Column>
    requires !p.BaseTable?
  {
    if !Binary(p) then {} else if d == Left then UsedWithin(p.right) else UsedWithin(p.left)
  }

  lemma UsedByFoldable(p: Plan)
    requires Foldable(p)
    ensures UsedBy(p) == Reads(p) + UsedElsewhere(p)
    ensures UsedWithin(p) == UsedBelow(p) + UsedBy(p)
  {
  }

  lemma UsedBelowAt(p: Plan, d: Direction)
    requires !p.BaseTable?
    ensures UsedBelow(p) == UsedWithin(Child(p, d)) + OtherUsed(p, d)
  {
  }

  /** The two parts are all that is used. */
  lemma {:induction false} UsedSplit(p: Plan, path: seq<Direction>, reach: nat)
    requires Climbs(p, path, reach)
    ensures UsedWithin(p) == ReadsOn(p, path) + UsedBeside(p, path)
    decreases p
  {
    UsedByFoldable(p);
    if path != [] {
      UsedBelowAt(p, path[0]);
      UsedSplit(Child(p, path[0]), path[1..], reach);
    }
  }

  /** Folding changes only what the operators on the path read. */
  lemma {:induction false} BesideStays(p: Plan, path: seq<Direction>, reach: nat)
    requires Climbs(p, path, reach)
    ensures var q := Chain(p, path, reach).plan;
            Climbs(q, path, reach) && UsedBeside(q, path) == UsedBeside(p, path)
    decreases p
  {
    LiveIffClimbs(p, path, reach);
    if path != [] {
      var d, below := path[0], Chain(Child(p, path[0]), path[1..], reach);
      BesideStays(Child(p, d), path[1..], reach);
      FoldStays(WithChild(p, d, below.plan), below.mapping, d);
      ChildStays(p, d, below.plan);
    } else {
      FoldStays(p, map[], Left);
    }
  }

  lemma FoldStays(p: Plan, m: Mapping, d: Direction)
    requires Foldable(p)
    ensures var q := FoldOperator(p, m).0;
            && Foldable(q) && Child(q, d) == Child(p, d) && UsedElsewhere(q) == UsedElsewhere(p)
            && OtherUsed(q, d) == OtherUsed(p, d) && UsedBelow(q) == UsedBelow(p)
  {
  }

  lemma ChildStays(p: Plan, d: Direction, c: Plan)
    requires Foldable(p)
    ensures var q := WithChild(p, d, c);
            Foldable(q) && Child(q, d) == c && UsedElsewhere(q) == UsedElsewhere(p) && OtherUsed(q, d) == OtherUsed(p, d)
  {
  }

  /** In a plan in scope the operators on the path read what is created below p, or outer. */
  lemma {:induction false} ReadsInScope(p: Plan, path: seq<Direction>, reach: nat, outer: set<Column>)
    requires Plain(p, outer) && Climbs(p, path, reach)
    ensures ReadsOn(p, path) <= CreatedBelow(p) + outer
    decreases p
  {
    BelowIsWithin(p, outer);
    ReadsAreInputs(p, outer);
    if path != [] {
      var d := path[0];
      ChildIsPlain(p, d, outer);
      ReadsInScope(Child(p, d), path[1..], reach, ChildOuter(p, d, outer));
      BelowIsWithin(Child(p, d), ChildOuter(p, d, outer));
    }
  }

  lemma ReadsAreInputs(p: Plan, outer: set<Column>)
    requires Plain(p, outer) && Foldable(p)
    ensures Reads(p) <= InputColumns(p) + outer
  {
  }

  /** No operator on the path of a folded plan reads a copy made on that path. */
  lemma {:induction false} CopiesAreNotRead(p: Plan, path: seq<Direction>, reach: nat, outer: set<Column>, c: Column)
    requires Plain(p, outer) && Climbs(p, path, reach) && CopiedOn(p, path, c)
    ensures c !in ReadsOn(Chain(p, path, reach).plan, path)
    decreases p
  {
    var q := Chain(p, path, reach).plan;
    ChainReplaces(p, path, reach, outer);
    BesideStays(p, path, reach);
    if d :| CopiesInto(p, c, d) {
      var i :| 0 <= i < |p.computed| && p.computed[i] == (c, GetColumn(d));
      assert p.computed[i] in p.computed && c in Created(p);
      ReadsInScope(q, path, reach, outer);
      FoldedCreated(p, path, reach, c);
    } else {
      var e := path[0];
      ChildIsPlain(p, e, outer);
      CopiesAreNotRead(Child(p, e), path[1..], reach, ChildOuter(p, e, outer), c);
      ReadsAbove(p, path, reach, outer, c);
    }
  }

  /** The operator above a copy does not read it. */
  lemma ReadsAbove(p: Plan, path: seq<Direction>, reach: nat, outer: set<Column>, c: Column)
    requires Plain(p, outer) && Climbs(p, path, reach) && path != [] && CopiedOn(Child(p, path[0]), path[1..], c)
    ensures var q := Chain(p, path, reach).plan;
            c !in Reads(q) && !q.BaseTable? && Child(q, path[0]) == Chain(Child(p, path[0]), path[1..], reach).plan
  {
    var d, below := path[0], Chain(Child(p, path[0]), path[1..], reach);
    LiveIffClimbs(p, path, reach);
    ChildIsPlain(p, d, outer);
    ChainRecords(Child(p, d), path[1..], reach, ChildOuter(p, d, outer), c);
    ChainReplaces(Child(p, d), path[1..], reach, ChildOuter(p, d, outer));
    SameCopies(p, d, below.plan, c);
    FoldResolvesReads(WithChild(p, d, below.plan), below.mapping);
    FoldStays(WithChild(p, d, below.plan), below.mapping, d);
  }

  /** A map that copies into c creates c above its input. */
  lemma FoldedCreated(p: Plan, path: seq<Direction>, reach: nat, c: Column)
    requires Climbs(p, path, reach) && p.MapOp? && c in Firsts(p.computed)
    ensures var q := Chain(p, path, reach).plan;
            q.MapOp? && c in Firsts(q.computed)
  {
    LiveIffClimbs(p, path, reach);
    var i :| 0 <= i < |p.computed| && p.computed[i].0 == c;
    var m := if path == [] then map[] else Chain(p.child, path[1..], reach).mapping;
    assert ReplaceAll(p.computed, m)[i] in ReplaceAll(p.computed, m);
  }

  // ---- The whole pass ---------------------------------------------------------------------------------------

  /** The columns that maps compute. */
  function MapColumns(p: Plan): set<Column> {
    match p
    case BaseTable(_, _, _, _) => {}
    case MapOp(child, computed) => MapColumns(child) + Firsts(computed)
    case CrossProduct(l, r) => MapColumns(l) + MapColumns(r)
    case Join(_, l, r, _, _, _) => MapColumns(l) + MapColumns(r)
    case _ => MapColumns(p.child)
  }

  lemma {:induction false} DroppedAre(p: Plan, used: set<Column>)
    ensures Dropped(p, used) == MapColumns(p) - used
  {
    match p
    case BaseTable(_, _, _, _) =>
    case CrossProduct(l, r) =>
      DroppedAre(l, used);
      DroppedAre(r, used);
    case Join(_, l, r, _, _, _) =>
      DroppedAre(l, used);
      DroppedAre(r, used);
    case _ => DroppedAre(p.child, used);
  }

  /** Every map of the plan computes something. */
  predicate NoEmptyMap(p: Plan) {
    match p
    case BaseTable(_, _, _, _) => true
    case MapOp(child, computed) => computed != [] && NoEmptyMap(child)
    case CrossProduct(l, r) => NoEmptyMap(l) && NoEmptyMap(r)
    case Join(_, l, r, _, _, _) => NoEmptyMap(l) && NoEmptyMap(r)
    case _ => NoEmptyMap(p.child)
  }

  /** Wherever they are in the plan, exactly the unused columns are no longer computed, and maps that computed nothing else
      are gone. */
  lemma {:induction false} UnusedAreNotComputed(p: Plan, used: set<Column>)
    ensures MapColumns(Eliminate(p, used)) == MapColumns(p) * used
    ensures NoEmptyMap(p) ==> NoEmptyMap(Eliminate(p, used))
  {
    match p
    case BaseTable(_, _, _, _) =>
    case MapOp(child, computed) =>
      UnusedAreNotComputed(child, used);
      KeepFirsts(computed, used);
      KeepAll(computed, used);
      if Keep(computed, used) == [] { assert Firsts(Keep(computed, used)) == {}; }
    case CrossProduct(l, r) =>
      UnusedAreNotComputed(l, used);
      UnusedAreNotComputed(r, used);
    case Join(_, l, r, _, _, _) =>
      UnusedAreNotComputed(l, used);
      UnusedAreNotComputed(r, used);
    case _ => UnusedAreNotComputed(p.child, used);
  }

  /** The pass drops from the output exactly the computed columns that nothing uses after folding. */
  lemma PassOutput(p: Plan, chains: seq<(seq<Direction>, nat)>, materialized: set<Column>, outer: set<Column>)
    requires Plain(p, outer)
    ensures var folded := Chains(p, chains);
            Output(RunPass(p, chains, materialized)) == Output(p) - (MapColumns(folded) - PassUses(folded, materialized))
  {
    var folded := Chains(p, chains);
    var used := PassUses(folded, materialized);
    var dead := Dropped(folded, used);
    ChainsReplace(p, chains, outer);
    DroppedIsCreated(folded, used);
    assert dead * CreatedWithin(folded) == dead;
    DroppedIsDroppable(folded, dead, used);
    DroppedIsUnused(folded, used);
    OutputStrip(folded, used, dead);
    DroppedAre(folded, used);
  }

  lemma {:induction false} ChainsReplace(p: Plan, chains: seq<(seq<Direction>, nat)>, outer: set<Column>)
    requires Plain(p, outer)
    ensures Replaces(Chains(p, chains), p, outer)
    decreases |chains|
  {
    if chains != [] {
      ChainReplaces(p, chains[0].0, chains[0].1, outer);
      ChainsReplace(Chain(p, chains[0].0, chains[0].1).plan, chains[1..], outer);
    }
  }

  lemma {:induction false} LastChain(p: Plan, before: seq<(seq<Direction>, nat)>, path: seq<Direction>, reach: nat)
    ensures Chains(p, before + [(path, reach)]) == Chain(Chains(p, before), path, reach).plan
    decreases |before|
  {
    var all := before + [(path, reach)];
    if before == [] {
      assert all == [(path, reach)] && all[1..] == [];
    } else {
      assert all[0] == before[0] && all[1..] == before[1..] + [(path, reach)];
      LastChain(Chain(p, before[0].0, before[0].1).plan, before[1..], path, reach);
    }
  }

  lemma {:induction false} CopiesAreComputed(p: Plan, path: seq<Direction>, c: Column)
    requires CopiedOn(p, path, c)
    ensures c in MapColumns(p)
    decreases p
  {
    if d :| CopiesInto(p, c, d) {
      var i :| 0 <= i < |p.computed| && p.computed[i] == (c, GetColumn(d));
      assert p.computed[i] in p.computed;
    } else {
      CopiesAreComputed(Child(p, path[0]), path[1..], c);
    }
  }

  lemma {:induction false} MapColumnsStay(p: Plan, path: seq<Direction>, reach: nat)
    ensures MapColumns(Chain(p, path, reach).plan) == MapColumns(p)
    decreases p
  {
    if path == [] {
      if Foldable(p) { FoldKeepsColumns(p, map[]); }
    } else if !p.BaseTable? {
      var d, below := path[0], Chain(Child(p, path[0]), path[1..], reach);
      MapColumnsStay(Child(p, d), path[1..], reach);
      ChildKeepsColumns(p, d, below.plan);
      var q := WithChild(p, d, below.plan);
      if Foldable(q) { FoldKeepsColumns(q, below.mapping); }
    }
  }

  lemma ChildKeepsColumns(p: Plan, d: Direction, c: Plan)
    requires !p.BaseTable? && MapColumns(c) == MapColumns(Child(p, d))
    ensures MapColumns(WithChild(p, d, c)) == MapColumns(p) && (Foldable(WithChild(p, d, c)) <==> Foldable(p))
  {
  }

  lemma FoldKeepsColumns(p: Plan, m: Mapping)
    requires Foldable(p)
    ensures MapColumns(FoldOperator(p, m).0) == MapColumns(p)
  {
    if p.MapOp? {
      var after := ReplaceAll(p.computed, m);
      forall c ensures c in Firsts(after) <==> c in Firsts(p.computed) {
        if c in Firsts(after) {
          var i :| 0 <= i < |after| && after[i].0 == c;
          assert p.computed[i] in p.computed;
        }
        if c in Firsts(p.computed) {
          var i :| 0 <= i < |after| && p.computed[i].0 == c;
          assert after[i] in after;
        }
      }
      assert Firsts(after) == Firsts(p.computed);
    }
  }

  /** A copy that is made on the last chain, and that nothing but the operators on it uses, is gone. */
  lemma CopyIsDropped(p: Plan, before: seq<(seq<Direction>, nat)>, path: seq<Direction>, reach: nat, materialized: set<Column>,
                      outer: set<Column>, c: Column)
    requires Plain(p, outer) && Climbs(Chains(p, before), path, reach) && CopiedOn(Chains(p, before), path, c)
    requires c !in UsedBeside(Chains(p, before), path) + materialized
    ensures c !in Output(RunPass(p, before + [(path, reach)], materialized))
  {
    var start := Chains(p, before);
    var folded := Chain(start, path, reach).plan;
    LastChain(p, before, path, reach);
    ChainsReplace(p, before, outer);
    BesideStays(start, path, reach);
    UsedSplit(folded, path, reach);
    CopiesAreNotRead(start, path, reach, outer, c);
    CopiesAreComputed(start, path, c);
    MapColumnsStay(start, path, reach);
    PassOutput(p, before + [(path, reach)], materialized, outer);
  }
}
