/**
 * Functional dependencies: attribute closure, and the dependencies and keys the
 * operators infer.
 */
module FunctionalDependencies {
  import opened Options
  import opened RelAlgPlan

  type Dependency = (set<Column>, set<Column>)

  /** Dependencies, and optionally columns on which no two rows agree. */
  datatype Deps = Deps(fds: seq<Dependency>, key: Option<set<Column>>)

  // ---- Attribute closure -------------------------------------------------------------

  /** One pass over the dependencies, each applied to what was gathered so far. */
  function Pass(fds: seq<Dependency>, cols: set<Column>): (r: set<Column>)
    ensures cols <= r
  {
    if fds == [] then cols
    else Pass(fds[1..], if fds[0].0 <= cols then cols + fds[0].1 else cols)
  }

  function RightSides(fds: seq<Dependency>): set<Column> {
    if fds == [] then {} else fds[0].1 + RightSides(fds[1..])
  }

  lemma {:induction false} PassStaysWithin(fds: seq<Dependency>, cols: set<Column>)
    ensures Pass(fds, cols) <= cols + RightSides(fds)
  {
    if fds != [] {
      PassStaysWithin(fds[1..], if fds[0].0 <= cols then cols + fds[0].1 else cols);
    }
  }

  lemma SmallerRemainder(all: set<Column>, cols: set<Column>, more: set<Column>)
    requires cols < more && more <= cols + all
    ensures |all - more| < |all - cols|
  {
    var c :| c in more && c !in cols;
    assert c in all - cols;
    SubsetSize((all - cols) - {c}, all - more);
  }

  lemma {:induction false} SubsetSize(a: set<Column>, b: set<Column>)
    requires b <= a
    ensures |b| <= |a|
    decreases b
  {
    if b != {} {
      var c :| c in b;
      SubsetSize(a - {c}, b - {c});
    }
  }

  /** Passes until nothing is added.  Every pass but the last uses up a right-hand side. */
  function Expand(fds: seq<Dependency>, cols: set<Column>): (r: set<Column>)
    ensures cols <= r
    decreases |RightSides(fds) - cols|
  {
    var next := Pass(fds, cols);
    if next == cols then cols
    else
      PassStaysWithin(fds, cols);
      SmallerRemainder(RightSides(fds), cols, next);
      Expand(fds, next)
  }

  ghost predicate Closed(fds: seq<Dependency>, cols: set<Column>) {
    forall fd :: fd in fds && fd.0 <= cols ==> fd.1 <= cols
  }

  lemma {:induction false} PassFixpointIsClosed(fds: seq<Dependency>, cols: set<Column>)
    requires Pass(fds, cols) == cols
    ensures Closed(fds, cols)
  {
    if fds != [] {
      var cols1 := if fds[0].0 <= cols then cols + fds[0].1 else cols;
      assert cols <= cols1 <= Pass(fds[1..], cols1);
      assert cols1 == cols;
      PassFixpointIsClosed(fds[1..], cols);
      assert fds == [fds[0]] + fds[1..];
    }
  }

  lemma {:induction false} PassWithinClosed(fds: seq<Dependency>, cols: set<Column>, s: set<Column>)
    requires Closed(fds, s) && cols <= s
    ensures Pass(fds, cols) <= s
  {
    if fds != [] {
      assert fds[0] in fds;
      assert Closed(fds[1..], s);
      PassWithinClosed(fds[1..], if fds[0].0 <= cols then cols + fds[0].1 else cols, s);
    }
  }

  /** expand computes the least set of columns that contains cols and is closed under fds. */
  lemma {:induction false} ExpandIsClosure(fds: seq<Dependency>, cols: set<Column>)
    ensures Closed(fds, Expand(fds, cols))
    ensures forall s :: Closed(fds, s) && cols <= s ==> Expand(fds, cols) <= s
    decreases |RightSides(fds) - cols|
  {
    var next := Pass(fds, cols);
    if next == cols {
      PassFixpointIsClosed(fds, cols);
    } else {
      PassStaysWithin(fds, cols);
      SmallerRemainder(RightSides(fds), cols, next);
      ExpandIsClosure(fds, next);
      forall s | Closed(fds, s) && cols <= s ensures Expand(fds, cols) <= s {
        PassWithinClosed(fds, cols, s);
      }
    }
  }

  /** expand as the loop it is. */
  method ExpandLoop(fds: seq<Dependency>, available: set<Column>) returns (result: set<Column>)
    ensures available <= result && Closed(fds, result)
    ensures forall s :: Closed(fds, s) && available <= s ==> result <= s
  {
    result := available;
    var didChange := true;
    while didChange
      invariant Expand(fds, result) == Expand(fds, available)
      invariant !didChange ==> Expand(fds, result) == result
      decreases |RightSides(fds) - result|, didChange
    {
      var local := result;
      var i := 0;
      while i < |fds|
        invariant 0 <= i <= |fds| && result <= local
        invariant Pass(fds[i..], local) == Pass(fds, result)
      {
        assert fds[i..][0] == fds[i] && fds[i..][1..] == fds[i + 1..];
        if fds[i].0 <= local {
          local := local + fds[i].1;
        }
        i := i + 1;
      }
      assert local == Pass(fds, result);
      if local != result {
        PassStaysWithin(fds, result);
        SmallerRemainder(RightSides(fds), result, local);
        ProperSubsetIsSmaller(result, local);
      }
      didChange := |local| > |result|;
      result := local;
    }
    ExpandIsClosure(fds, available);
  }

  lemma ProperSubsetIsSmaller(a: set<Column>, b: set<Column>)
    requires a < b
    ensures |a| < |b|
  {
    var c :| c in b && c !in a;
    SubsetSize(b - {c}, a);
  }

  // ---- Inference -----------------------------------------------------------------------

  function NoDeps(): Deps {
    Deps([], None)
  }

  /** Both directions of an equality between two columns. */
  function Equated(a: Column, b: Column): seq<Dependency> {
    [({a}, {b}), ({b}, {a})]
  }

  /** The dependencies of a predicate that is one equality of two columns. */
  function FromPredicate(pred: Expr): seq<Dependency> {
    match pred
    case CmpEq(GetColumn(a), GetColumn(b)) => Equated(a, b)
    case _ => []
  }

  function FromHashes(lh: seq<Column>, rh: seq<Column>): seq<Dependency>
    requires |lh| == |rh|
  {
    if lh == [] then [] else Equated(lh[0], rh[0]) + FromHashes(lh[1..], rh[1..])
  }

  function HashDependencies(lh: Option<seq<Column>>, rh: Option<seq<Column>>): seq<Dependency> {
    if lh.Some? && rh.Some? && |lh.value| == |rh.value| then FromHashes(lh.value, rh.value) else []
  }

  function KeyColumns(columns: seq<(string, Column)>, primaryKey: seq<string>): set<Column> {
    set p | p in columns && p.0 in primaryKey :: p.1
  }

  /** The key of an inner join: the key of one input when it determines the key of the other. */
  function JoinKey(fds: seq<Dependency>, lk: Option<set<Column>>, rk: Option<set<Column>>): Option<set<Column>> {
    if lk.None? || rk.None? then None
    else if |Expand(fds, lk.value) * rk.value| == |rk.value| then lk
    else if |Expand(fds, rk.value) * lk.value| == |lk.value| then rk
    else None
  }

  /** getFDs */
  function Infer(p: Plan): Deps {
    match p
    case BaseTable(_, columns, present, primaryKey) =>
      if !present || primaryKey == [] then NoDeps()
      else
        var pk := KeyColumns(columns, primaryKey);
        Deps([(pk, Available(p) - pk)], Some(pk))
    case Selection(child, pred) =>
      var d := Infer(child);
      d.(fds := d.fds + FromPredicate(pred))
    case Aggregation(child, groupBy, _) =>
      var d := Infer(child);
      if groupBy == [] then d else d.(key := Some(ColumnSet(groupBy)))
    case Join(Semi, l, _, _, _, _) => Infer(l)
    case Join(AntiSemi, l, _, _, _, _) => Infer(l)
    case Join(Inner, l, r, pred, lh, rh) =>
      var dl, dr := Infer(l), Infer(r);
      var fds := HashDependencies(lh, rh) + FromPredicate(pred) + dl.fds + dr.fds;
      Deps(fds, JoinKey(fds, dl.key, dr.key))
    case Join(_, l, r, _, _, _) => Deps(Infer(l).fds + Infer(r).fds, None)
    case CrossProduct(l, r) => Deps(Infer(l).fds + Infer(r).fds, None)
    case _ => Deps(Infer(p.child).fds, None)
  }

  /** isDuplicateFreeKey */
  predicate IsDuplicateFreeKey(d: Deps, candidate: set<Column>) {
    d.key.Some? && d.key.value <= Expand(d.fds, candidate)
  }

  lemma ExpandMonotone(fds: seq<Dependency>, cols: set<Column>, more: set<Column>)
    requires cols <= more
    ensures Expand(fds, cols) <= Expand(fds, more)
  {
    ExpandIsClosure(fds, cols);
    ExpandIsClosure(fds, more);
  }

  /** Without k, the columns no longer determine all keys. */
  predicate NeededIn(fds: seq<Dependency>, keys: set<Column>, cols: set<Column>, k: Column) {
    !(keys <= Expand(fds, cols - {k}))
  }

  /** reduce: drops columns that the remaining ones determine, in some order, until none can be dropped. */
  method Reduce(d: Deps, keys: set<Column>) returns (res: set<Column>)
    ensures res <= keys && keys <= Expand(d.fds, res)
    ensures forall k :: k in res ==> NeededIn(d.fds, keys, res, k)
  {
    res := keys;
    var todo := keys;
    while todo != {}
      invariant todo <= res <= keys && keys <= Expand(d.fds, res)
      invariant forall k :: k in res - todo ==> NeededIn(d.fds, keys, res, k)
      decreases todo
    {
      var k :| k in todo;
      todo := todo - {k};
      var local := res - {k};
      var kept := Expand(d.fds, local) * keys;
      if |kept| == |keys| {
        if kept != keys { ProperSubsetIsSmaller(kept, keys); }
        forall c | c in local - todo ensures NeededIn(d.fds, keys, local, c) {
          assert NeededIn(d.fds, keys, res, c);
          ExpandMonotone(d.fds, local - {c}, res - {c});
        }
        res := local;
      }
    }
  }
}
