/** Column folding changes no row, whatever chains the pass follows. */
module FoldingPreservesRows {
  import opened Options
  import opened RelAlgPlan
  import opened RelAlgFreeColumns
  import opened DependencySoundness
  import opened DependencyTheorem
  import opened RelAlgFolding

  // ---- Scoping is kept ---------------------------------------------------------------------

  /** The columns of enclosing tuples that an input may read. */
  function ChildOuter(p: Plan, d: Direction, outer: set<Column>): set<Column>
    requires !p.BaseTable?
  {
    if Binary(p) && d == Right then outer + Output(p.left) else outer
  }

  lemma ChildIsPlain(p: Plan, d: Direction, outer: set<Column>)
    requires Plain(p, outer) && !p.BaseTable?
    ensures Plain(Child(p, d), ChildOuter(p, d, outer))
    ensures CreatedWithin(Child(p, d)) <= CreatedWithin(p)
  {
    if Binary(p) { OutputIsCreated(p.left); }
  }

  /** q takes the place of p. */
  ghost predicate Replaces(q: Plan, p: Plan, outer: set<Column>) {
    Output(q) == Output(p) && CreatedWithin(q) == CreatedWithin(p) && Plain(q, outer)
  }

  lemma WithChildReplaces(p: Plan, d: Direction, c: Plan, outer: set<Column>)
    requires Plain(p, outer) && !p.BaseTable?
    requires Replaces(c, Child(p, d), ChildOuter(p, d, outer))
    ensures Replaces(WithChild(p, d, c), p, outer)
  {
    match p
    case CrossProduct(_, _) =>
    case Join(_, _, _, _, _, _) =>
      if d == Left { LeftReplaces(p, c, outer); } else { RightReplaces(p, c, outer); }
    case _ => OnlyChildReplaces(p, d, c, outer);
  }

  lemma OnlyChildReplaces(p: Plan, d: Direction, c: Plan, outer: set<Column>)
    requires Plain(p, outer) && !p.BaseTable? && !p.CrossProduct? && !p.Join?
    requires Replaces(c, Child(p, d), ChildOuter(p, d, outer))
    ensures Replaces(WithChild(p, d, c), p, outer)
  {
    match p
    case Projection(_, _, _) =>
    case Aggregation(_, _, _) =>
    case Selection(_, _) =>
    case MapOp(_, _) =>
    case Renaming(_, _) =>
  }

  lemma LeftReplaces(p: Plan, c: Plan, outer: set<Column>)
    requires p.Join? && Plain(p, outer) && Replaces(c, p.left, outer)
    ensures Replaces(Join(p.kind, c, p.right, p.pred, p.leftHash, p.rightHash), p, outer)
  {
  }

  lemma RightReplaces(p: Plan, c: Plan, outer: set<Column>)
    requires p.Join? && Plain(p, outer) && Replaces(c, p.right, outer + Output(p.left))
    ensures Replaces(Join(p.kind, p.left, c, p.pred, p.leftHash, p.rightHash), p, outer)
  {
  }

  // ---- What a mapping satisfies just below an operator -----------------------------------------

  function InputColumns(p: Plan): set<Column>
    requires Foldable(p)
  {
    if Binary(p) then Output(p.left) + Output(p.right) else Output(p.child)
  }

  function CreatedBelow(p: Plan): set<Column>
    requires Foldable(p)
  {
    if Binary(p) then CreatedWithin(p.left) + CreatedWithin(p.right) else CreatedWithin(p.child)
  }

  ghost predicate GoodBelow(m: Mapping, p: Plan, outer: set<Column>)
    requires Foldable(p)
  {
    && m.Keys <= CreatedBelow(p)
    && (forall c :: c in m ==> m[c] !in m)
    && (forall c :: c in m ==> m[c] in CreatedBelow(p) + outer)
    && (forall c :: c in m && c in InputColumns(p) ==> m[c] in InputColumns(p) + outer)
    && (Binary(p) ==> forall c :: c in m && c in Output(p.left) ==> m[c] in Output(p.left) + outer)
  }

  lemma BelowFromChild(p: Plan, d: Direction, m: Mapping, outer: set<Column>)
    requires Plain(p, outer) && Foldable(p)
    requires GoodMapping(m, Child(p, d), ChildOuter(p, d, outer))
    ensures GoodBelow(m, p, outer)
  {
    if Binary(p) {
      OutputIsCreated(p.left);
      OutputIsCreated(p.right);
      forall c | c in m && c in InputColumns(p) ensures m[c] in InputColumns(p) + outer {
        assert c in CreatedWithin(Child(p, d));
        assert c in Output(Child(p, d));
      }
    }
  }

  lemma EmptyIsGood(p: Plan, outer: set<Column>)
    requires Foldable(p)
    ensures GoodBelow(map[], p, outer)
  {
  }

  lemma ResolvesInScope(m: Mapping, p: Plan, outer: set<Column>, e: Expr)
    requires Plain(p, outer) && Foldable(p) && GoodBelow(m, p, outer)
    requires Used(e) <= InputColumns(p) + outer
    ensures Used(Replace(e, m)) <= InputColumns(p) + outer
  {
    BelowIsWithin(p, outer);
    forall c | c in Used(e) ensures Resolve(c, m) in InputColumns(p) + outer {
      if c in m { assert c in CreatedBelow(p) && c !in outer; }
    }
    ReplaceUsed(e, m, InputColumns(p) + outer);
  }

  lemma BelowIsWithin(p: Plan, outer: set<Column>)
    requires Plain(p, outer) && Foldable(p)
    ensures CreatedBelow(p) <= CreatedWithin(p) && outer !! CreatedBelow(p)
    ensures InputColumns(p) <= CreatedBelow(p)
  {
    if Binary(p) {
      OutputIsCreated(p.left);
      OutputIsCreated(p.right);
    } else {
      OutputIsCreated(p.child);
    }
  }

  lemma {:induction false} CopyEntries(computed: seq<(Column, Expr)>, m: Mapping, c: Column)
    requires c in AddCopies(computed, m)
    ensures (c in m && AddCopies(computed, m)[c] == m[c])
            || exists i :: 0 <= i < |computed| && computed[i] == (c, GetColumn(AddCopies(computed, m)[c]))
    decreases |computed|
  {
    if computed != [] {
      var m1 := match computed[0].1 case GetColumn(d) => m[computed[0].0 := d] case _ => m;
      CopyEntries(computed[1..], m1, c);
      var v := AddCopies(computed, m)[c];
      if i :| 0 <= i < |computed[1..]| && computed[1..][i] == (c, GetColumn(v)) {
        assert computed[i + 1] == (c, GetColumn(v));
      } else if c == computed[0].0 && computed[0].1.GetColumn? {
        assert computed[0] == (c, GetColumn(v));
      }
    }
  }

  lemma MapReads(computed: seq<(Column, Expr)>, m: Mapping, p: Plan, outer: set<Column>, i: nat)
    requires Plain(p, outer) && p.MapOp? && p.computed == computed && GoodBelow(m, p, outer) && i < |computed|
    ensures Used(Replace(computed[i].1, m)) <= InputColumns(p) + outer
  {
    assert computed[i] in computed;
    assert Used(computed[i].1) <= UsedAll(computed);
    ResolvesInScope(m, p, outer, computed[i].1);
  }

  /** Firsts and scoping of a map after replacement. */
  lemma ReplacedMap(p: Plan, m: Mapping, outer: set<Column>)
    requires Plain(p, outer) && p.MapOp? && GoodBelow(m, p, outer)
    ensures Firsts(ReplaceAll(p.computed, m)) == Firsts(p.computed)
    ensures UsedAll(ReplaceAll(p.computed, m)) <= InputColumns(p) + outer
  {
    var after := ReplaceAll(p.computed, m);
    forall c ensures c in Firsts(after) <==> c in Firsts(p.computed) {
      if c in Firsts(after) {
        var i :| 0 <= i < |after| && after[i].0 == c;
        assert p.computed[i] in p.computed;
      }
      if c in Firsts(p.computed) {
        var i :| 0 <= i < |after| && p.computed[i].0 == c;
        assert after[i] in after;
      }
    }
    forall c | c in UsedAll(after) ensures c in InputColumns(p) + outer {
      var i :| 0 <= i < |after| && c in Used(after[i].1);
      MapReads(p.computed, m, p, outer, i);
    }
  }

  lemma MapIsGood(p: Plan, m: Mapping, outer: set<Column>)
    requires Plain(p, outer) && p.MapOp? && GoodBelow(m, p, outer)
    ensures GoodMapping(AddCopies(ReplaceAll(p.computed, m), m), p, outer)
  {
    var after := ReplaceAll(p.computed, m);
    var n := AddCopies(after, m);
    ReplacedMap(p, m, outer);
    BelowIsWithin(p, outer);
    forall c | c in n
      ensures c in CreatedWithin(p) && (c in Output(p) ==> n[c] in Output(p) + outer)
      ensures n[c] in CreatedWithin(p) + outer && n[c] !in m && n[c] !in Firsts(p.computed)
      ensures c in m || c in Firsts(p.computed)
    {
      CopyEntries(after, m, c);
      if i :| 0 <= i < |after| && after[i] == (c, GetColumn(n[c])) {
        assert after[i] in after;
        assert n[c] in Used(after[i].1);
        assert n[c] in UsedAll(after);
        NeverAKey(p, m, outer, i);
      } else {
        assert c in CreatedBelow(p) && m[c] in CreatedBelow(p) + outer;
      }
    }
  }

  /** A read that was redirected is not redirected again. */
  lemma NeverAKey(p: Plan, m: Mapping, outer: set<Column>, i: nat)
    requires Plain(p, outer) && p.MapOp? && GoodBelow(m, p, outer) && i < |p.computed|
    requires Replace(p.computed[i].1, m).GetColumn?
    ensures Replace(p.computed[i].1, m).c !in m
  {
    assert p.computed[i].1.GetColumn?;
  }

  lemma FoldReplaces(p: Plan, m: Mapping, outer: set<Column>)
    requires Plain(p, outer) && Foldable(p) && GoodBelow(m, p, outer)
    ensures Replaces(FoldOperator(p, m).0, p, outer)
    ensures GoodMapping(FoldOperator(p, m).1, p, outer)
  {
    BelowIsWithin(p, outer);
    match p
    case Selection(child, pred) => ResolvesInScope(m, p, outer, pred);
    case CrossProduct(l, r) =>
    case MapOp(child, computed) =>
      ReplacedMap(p, m, outer);
      MapIsGood(p, m, outer);
    case Join(kind, l, r, pred, lh, rh) =>
      ResolvesInScope(m, p, outer, pred);
      forall c | c in m && c in Output(p) ensures m[c] in Output(p) + outer {
        assert c in InputColumns(p);
      }
  }

  /** A chain leaves the shape of the plan alone, and no column it maps to is itself mapped. */
  lemma {:induction false} ChainReplaces(p: Plan, path: seq<Direction>, reach: nat, outer: set<Column>)
    requires Plain(p, outer)
    ensures Replaces(Chain(p, path, reach).plan, p, outer)
    ensures Chain(p, path, reach).live ==> GoodMapping(Chain(p, path, reach).mapping, p, outer)
    decreases p
  {
    if path == [] {
      if Foldable(p) {
        EmptyIsGood(p, outer);
        FoldReplaces(p, map[], outer);
      }
    } else if !p.BaseTable? {
      var d := path[0];
      var below := Chain(Child(p, d), path[1..], reach);
      ChildIsPlain(p, d, outer);
      ChainReplaces(Child(p, d), path[1..], reach, ChildOuter(p, d, outer));
      WithChildReplaces(p, d, below.plan, outer);
      var q := WithChild(p, d, below.plan);
      if below.live && Foldable(p) && |path| <= reach {
        FromChild(p, d, below.plan, below.mapping, outer);
        FoldReplaces(q, below.mapping, outer);
      }
    }
  }

  lemma FromChild(p: Plan, d: Direction, c: Plan, m: Mapping, outer: set<Column>)
    requires Plain(p, outer) && Foldable(p) && Replaces(c, Child(p, d), ChildOuter(p, d, outer))
    requires GoodMapping(m, Child(p, d), ChildOuter(p, d, outer))
    ensures Foldable(WithChild(p, d, c)) && Plain(WithChild(p, d, c), outer) && GoodBelow(m, WithChild(p, d, c), outer)
  {
    WithChildReplaces(p, d, c, outer);
    var q := WithChild(p, d, c);
    assert Child(q, d) == c;
    assert ChildOuter(q, d, outer) == ChildOuter(p, d, outer);
    BelowFromChild(q, d, m, outer);
  }

  // ---- Rows are kept --------------------------------------------------------------------------

  /** Redirected reads of e see the same values in t. */
  ghost predicate SameReads(e: Expr, m: Mapping, t: Row) {
    forall c :: c in Used(e) ==> Get(t, Resolve(c, m)) == Get(t, c)
  }

  lemma CopiesRead(e: Expr, m: Mapping, t: Row, vis: set<Column>, outer: set<Column>)
    requires Copies(m, t, vis) && m.Keys !! outer && Used(e) <= vis + outer
    ensures SameReads(e, m, t)
  {
    forall c | c in Used(e) ensures Get(t, Resolve(c, m)) == Get(t, c) {
      assert c in m ==> c in m.Keys && c !in outer;
    }
  }

  ghost predicate AllCopies(m: Mapping, rows: seq<Row>, o: Row, vis: set<Column>) {
    forall row :: row in rows ==> Copies(m, o + Visible(row, vis), vis)
  }

  lemma {:induction false} FilterReplaced(w: World, pred: Expr, m: Mapping, rows: seq<Row>, o: Row, vis: set<Column>)
    requires forall row :: row in rows ==> SameReads(pred, m, o + Visible(row, vis))
    ensures Filter(w, Replace(pred, m), rows, o, vis) == Filter(w, pred, rows, o, vis)
  {
    if rows != [] {
      assert rows[0] in rows;
      ReplaceEval(w, pred, m, o + Visible(rows[0], vis));
      FilterReplaced(w, pred, m, rows[1..], o, vis);
    }
  }

  lemma {:induction false} ComputeReplaced(w: World, computed: seq<(Column, Expr)>, m: Mapping, t: Row, row: Row)
    requires forall i :: 0 <= i < |computed| ==> SameReads(computed[i].1, m, t)
    ensures Compute(w, ReplaceAll(computed, m), t, row) == Compute(w, computed, t, row)
    decreases |computed|
  {
    if computed != [] {
      assert SameReads(computed[0].1, m, t);
      ReplaceEval(w, computed[0].1, m, t);
      var tail := computed[1..];
      forall i | 0 <= i < |tail| ensures SameReads(tail[i].1, m, t) { assert tail[i] == computed[i + 1]; }
      ComputeReplaced(w, tail, m, t, row[computed[0].0 := Eval(w, computed[0].1, t)]);
      assert ReplaceAll(computed, m)[1..] == ReplaceAll(tail, m);
    }
  }

  lemma {:induction false} MapReplaced(w: World, computed: seq<(Column, Expr)>, m: Mapping, rows: seq<Row>, o: Row, vis: set<Column>)
    requires forall row, i :: row in rows && 0 <= i < |computed| ==> SameReads(computed[i].1, m, o + Visible(row, vis))
    ensures MapRows(w, ReplaceAll(computed, m), rows, o, vis) == MapRows(w, computed, rows, o, vis)
  {
    if rows != [] {
      assert rows[0] in rows;
      ComputeReplaced(w, computed, m, o + Visible(rows[0], vis), rows[0]);
      MapReplaced(w, computed, m, rows[1..], o, vis);
    }
  }

  lemma {:induction false} MatchesReplaced(w: World, pred: Expr, m: Mapping, rights: seq<Row>, t: Row, vis: set<Column>)
    requires forall r :: r in rights ==> SameReads(pred, m, t + Visible(r, vis))
    ensures Matches(w, Replace(pred, m), rights, t, vis) == Matches(w, pred, rights, t, vis)
  {
    if rights != [] {
      assert rights[0] in rights;
      ReplaceEval(w, pred, m, t + Visible(rights[0], vis));
      MatchesReplaced(w, pred, m, rights[1..], t, vis);
    }
  }

  ghost predicate PairsRead(pred: Expr, m: Mapping, lefts: seq<Row>, rights: seq<seq<Row>>, o: Row, visL: set<Column>, visR: set<Column>)
    requires |lefts| == |rights|
  {
    forall i, r :: 0 <= i < |lefts| && r in rights[i] ==> SameReads(pred, m, o + Visible(lefts[i], visL) + Visible(r, visR))
  }

  lemma {:induction false} JoinReplaced(w: World, kind: JoinKind, pred: Expr, m: Mapping, lefts: seq<Row>, rights: seq<seq<Row>>, o: Row,
                                        visL: set<Column>, visR: set<Column>)
    requires |lefts| == |rights| && PairsRead(pred, m, lefts, rights, o, visL, visR)
    ensures JoinRows(w, kind, Replace(pred, m), lefts, rights, o, visL, visR) == JoinRows(w, kind, pred, lefts, rights, o, visL, visR)
  {
    if lefts != [] {
      var t := o + Visible(lefts[0], visL);
      forall r | r in rights[0] ensures SameReads(pred, m, t + Visible(r, visR)) {}
      MatchesReplaced(w, pred, m, rights[0], t, visR);
      forall i, r | 0 <= i < |lefts[1..]| && r in rights[1..][i]
        ensures SameReads(pred, m, o + Visible(lefts[1..][i], visL) + Visible(r, visR))
      {
        assert lefts[1..][i] == lefts[i + 1] && rights[1..][i] == rights[i + 1];
      }
      JoinReplaced(w, kind, pred, m, lefts[1..], rights[1..], o, visL, visR);
    }
  }

  lemma {:induction false} RightsReplaced(w: World, lefts: seq<Row>, r: Plan, s: Plan, o: Row, visL: set<Column>)
    requires forall l :: l in lefts ==> Rows(w, r, o + Visible(l, visL)) == Rows(w, s, o + Visible(l, visL))
    ensures RightRows(w, lefts, r, o, visL) == RightRows(w, lefts, s, o, visL)
  {
    if lefts != [] {
      assert lefts[0] in lefts;
      RightsReplaced(w, lefts[1..], r, s, o, visL);
    }
  }

  lemma {:induction false} RightRowsAt(w: World, lefts: seq<Row>, r: Plan, o: Row, visL: set<Column>, i: nat)
    requires i < |lefts|
    ensures RightRows(w, lefts, r, o, visL)[i] == Rows(w, r, o + Visible(lefts[i], visL))
  {
    if i > 0 { RightRowsAt(w, lefts[1..], r, o, visL, i - 1); }
  }

  /** An operator over an input with the same rows yields the same rows. */
  lemma WithChildRows(w: World, p: Plan, d: Direction, c: Plan, o: Row)
    requires !p.BaseTable? && Output(c) == Output(Child(p, d))
    requires !Binary(p) || d == Left ==> Rows(w, c, o) == Rows(w, Child(p, d), o)
    requires Binary(p) && d == Right ==> forall l :: l in Rows(w, p.left, o) ==>
               Rows(w, c, o + Visible(l, Output(p.left))) == Rows(w, p.right, o + Visible(l, Output(p.left)))
    ensures Rows(w, WithChild(p, d, c), o) == Rows(w, p, o)
  {
    if Binary(p) && d == Right {
      RightsReplaced(w, Rows(w, p.left, o), c, p.right, o, Output(p.left));
    }
  }

  // ---- Copies carry over -------------------------------------------------------------------------

  lemma {:induction false} ComputeAt(w: World, computed: seq<(Column, Expr)>, t: Row, row: Row, i: nat)
    requires DistinctFirsts(computed) && i < |computed|
    ensures computed[i].0 in Compute(w, computed, t, row)
    ensures Compute(w, computed, t, row)[computed[i].0] == Eval(w, computed[i].1, t)
    decreases |computed|
  {
    var c := computed[0].0;
    var row1 := row[c := Eval(w, computed[0].1, t)];
    var tail := computed[1..];
    forall k, l | 0 <= k < l < |tail| ensures tail[k].0 != tail[l].0 {
      assert tail[k] == computed[k + 1] && tail[l] == computed[l + 1];
    }
    if i > 0 {
      ComputeAt(w, tail, t, row1, i - 1);
    } else {
      ComputeExtends(w, tail, t, row1);
      forall k | 0 <= k < |tail| ensures tail[k].0 != c { assert tail[k] == computed[k + 1]; }
    }
  }

  lemma CopyComputed(w: World, computed: seq<(Column, Expr)>, t: Row, row: Row, i: nat, c: Column, from: Column)
    requires i < |computed| && computed[i] == (c, GetColumn(from)) && DistinctFirsts(computed)
    ensures c in Compute(w, computed, t, row) && Compute(w, computed, t, row)[c] == Get(t, from)
    ensures c in Firsts(computed) && from in UsedAll(computed)
  {
    assert computed[i] in computed && from in Used(computed[i].1);
    ComputeAt(w, computed, t, row, i);
  }

  /** The tuple that the operators above a map see. */
  lemma MapCopies(w: World, p: Plan, m: Mapping, o: Row, outer: set<Column>, row: Row)
    requires Plain(p, outer) && p.MapOp? && GoodBelow(m, p, outer)
    requires row.Keys <= CreatedWithin(p.child)
    requires Copies(m, o + Visible(row, Output(p.child)), Output(p.child))
    ensures Copies(AddCopies(ReplaceAll(p.computed, m), m),
                   o + Visible(Compute(w, ReplaceAll(p.computed, m), o + Visible(row, Output(p.child)), row), Output(p)),
                   Output(p))
  {
    var vis, after := Output(p.child), ReplaceAll(p.computed, m);
    var n, t := AddCopies(after, m), o + Visible(row, vis);
    var row2 := Compute(w, after, t, row);
    var t2 := o + Visible(row2, Output(p));
    ReplacedMap(p, m, outer);
    BelowIsWithin(p, outer);
    ComputeExtends(w, after, t, row);
    forall c | c !in Firsts(p.computed) && (c in vis || c in outer) ensures Get(t2, c) == Get(t, c) {
      SeenThroughMap(row2, row, o, vis, Firsts(p.computed), c, CreatedWithin(p.child), outer);
    }
    forall c | c in n && c in Output(p) ensures Get(t2, c) == Get(t2, n[c]) {
      CopyEntries(after, m, c);
      if i :| 0 <= i < |after| && after[i] == (c, GetColumn(n[c])) {
        CopyComputed(w, after, t, row, i, c, n[c]);
      } else {
        assert c in m && c in CreatedBelow(p);
        assert c in vis && m[c] in vis + outer;
      }
    }
  }

  lemma SeenThroughMap(row2: Row, row: Row, o: Row, vis: set<Column>, added: set<Column>, c: Column, cs: set<Column>, outer: set<Column>)
    requires Extends(row2, row, added) && c !in added && row.Keys <= cs && outer !! cs && (c in vis || c in outer)
    ensures Get(o + Visible(row2, vis + added), c) == Get(o + Visible(row, vis), c)
  {
    assert c in row2 <==> c in row;
    assert Get(row2, c) == Get(row, c);
    assert c in row ==> c in cs;
  }

  lemma {:induction false} MapAllCopies(w: World, p: Plan, m: Mapping, rows: seq<Row>, o: Row, outer: set<Column>)
    requires Plain(p, outer) && p.MapOp? && GoodBelow(m, p, outer)
    requires Within(rows, CreatedWithin(p.child)) && AllCopies(m, rows, o, Output(p.child))
    ensures AllCopies(AddCopies(ReplaceAll(p.computed, m), m),
                      MapRows(w, ReplaceAll(p.computed, m), rows, o, Output(p.child)), o, Output(p))
  {
    if rows != [] {
      assert rows[0] in rows;
      MapCopies(w, p, m, o, outer, rows[0]);
      MapAllCopies(w, p, m, rows[1..], o, outer);
    }
  }

  /** A copy below the left input is a copy next to any right row. */
  lemma LeftCopies(m: Mapping, s: Row, v: Row, vis: set<Column>, outer: set<Column>, cl: set<Column>)
    requires Copies(m, s, vis) && v.Keys !! cl + outer && m.Keys <= cl && vis <= cl
    requires forall c :: c in m && c in vis ==> m[c] in vis + outer
    ensures Copies(m, s + v, vis)
  {
    forall c | c in m && c in vis ensures Get(s + v, c) == Get(s + v, m[c]) {
      assert c in cl && c !in v.Keys;
      assert m[c] in cl + outer && m[c] !in v.Keys;
    }
  }

  lemma CopiesWiden(m: Mapping, t: Row, vis: set<Column>, more: set<Column>)
    requires Copies(m, t, vis) && m.Keys * more <= vis
    ensures Copies(m, t, more)
  {
    forall c | c in m && c in more ensures Get(t, c) == Get(t, m[c]) {
      assert c in m.Keys * more;
    }
  }

  lemma PairVisible(o: Row, l: Row, r: Row, visL: set<Column>, visR: set<Column>, cl: set<Column>, cr: set<Column>)
    requires l.Keys <= cl && r.Keys <= cr && cl !! cr && visL <= cl && visR <= cr
    ensures o + Visible(l + r, visL + visR) == o + Visible(l, visL) + Visible(r, visR)
  {
    assert Visible(l + r, visL + visR) == Visible(l, visL) + Visible(r, visR) by {
      forall c ensures c in Visible(l + r, visL + visR) <==> c in Visible(l, visL) + Visible(r, visR) {
        assert c in l.Keys ==> c in cl && c !in cr;
        assert c in r.Keys ==> c in cr && c !in cl;
      }
    }
  }

  /** The columns mapped by a chain through input d are copies for every joined tuple. */
  lemma PairCopies(p: Plan, d: Direction, m: Mapping, o: Row, outer: set<Column>, l: Row, r: Row)
    requires Plain(p, outer) && Binary(p) && GoodMapping(m, Child(p, d), ChildOuter(p, d, outer))
    requires l.Keys <= CreatedWithin(p.left) && r.Keys <= CreatedWithin(p.right)
    requires d == Left ==> Copies(m, o + Visible(l, Output(p.left)), Output(p.left))
    requires d == Right ==> Copies(m, o + Visible(l, Output(p.left)) + Visible(r, Output(p.right)), Output(p.right))
    ensures Copies(m, o + Visible(l, Output(p.left)) + Visible(r, Output(p.right)), Output(p.left) + Output(p.right))
  {
    OutputIsCreated(p.left);
    OutputIsCreated(p.right);
    var s, v := o + Visible(l, Output(p.left)), Visible(r, Output(p.right));
    assert v.Keys <= CreatedWithin(p.right);
    if d == Left {
      LeftCopies(m, s, v, Output(p.left), outer, CreatedWithin(p.left));
      CopiesWiden(m, s + v, Output(p.left), Output(p.left) + Output(p.right));
    } else {
      CopiesWiden(m, s + v, Output(p.right), Output(p.left) + Output(p.right));
    }
  }

  /** The left rows, the right rows beside each, and the copies that hold on them. */
  ghost predicate InputCopies(p: Plan, d: Direction, m: Mapping, lefts: seq<Row>, rights: seq<seq<Row>>, o: Row)
    requires Binary(p) && |lefts| == |rights|
  {
    && Within(lefts, CreatedWithin(p.left))
    && (forall i :: 0 <= i < |rights| ==> Within(rights[i], CreatedWithin(p.right)))
    && (d == Left ==> AllCopies(m, lefts, o, Output(p.left)))
    && (d == Right ==> forall i :: 0 <= i < |rights| ==>
          AllCopies(m, rights[i], o + Visible(lefts[i], Output(p.left)), Output(p.right)))
  }

  lemma PairCopiesAt(p: Plan, d: Direction, m: Mapping, lefts: seq<Row>, rights: seq<seq<Row>>, o: Row, outer: set<Column>, i: nat, r: Row)
    requires Plain(p, outer) && Binary(p) && GoodMapping(m, Child(p, d), ChildOuter(p, d, outer))
    requires |lefts| == |rights| && InputCopies(p, d, m, lefts, rights, o) && i < |lefts| && r in rights[i]
    ensures lefts[i].Keys <= CreatedWithin(p.left) && r.Keys <= CreatedWithin(p.right)
    ensures Copies(m, o + Visible(lefts[i], Output(p.left)) + Visible(r, Output(p.right)), Output(p.left) + Output(p.right))
  {
    assert lefts[i] in lefts;
    assert Within(rights[i], CreatedWithin(p.right));
    if d == Right { assert AllCopies(m, rights[i], o + Visible(lefts[i], Output(p.left)), Output(p.right)); }
    PairCopies(p, d, m, o, outer, lefts[i], r);
  }

  lemma JoinReads(p: Plan, d: Direction, m: Mapping, lefts: seq<Row>, rights: seq<seq<Row>>, o: Row, outer: set<Column>, pred: Expr)
    requires Plain(p, outer) && Binary(p) && Foldable(p) && GoodMapping(m, Child(p, d), ChildOuter(p, d, outer))
    requires |lefts| == |rights| && InputCopies(p, d, m, lefts, rights, o)
    requires Used(pred) <= Output(p.left) + Output(p.right) + outer
    ensures PairsRead(pred, m, lefts, rights, o, Output(p.left), Output(p.right))
  {
    BelowFromChild(p, d, m, outer);
    BelowIsWithin(p, outer);
    forall i, r | 0 <= i < |lefts| && r in rights[i]
      ensures SameReads(pred, m, o + Visible(lefts[i], Output(p.left)) + Visible(r, Output(p.right)))
    {
      PairCopiesAt(p, d, m, lefts, rights, o, outer, i, r);
      CopiesRead(pred, m, o + Visible(lefts[i], Output(p.left)) + Visible(r, Output(p.right)), Output(p.left) + Output(p.right), outer);
    }
  }

  ghost predicate PairOf(x: Row, lefts: seq<Row>, rights: seq<seq<Row>>)
    requires |lefts| == |rights|
  {
    exists i, r :: 0 <= i < |lefts| && r in rights[i] && x == lefts[i] + r
  }

  lemma {:induction false} InnerPairs(w: World, pred: Expr, lefts: seq<Row>, rights: seq<seq<Row>>, o: Row, visL: set<Column>, visR: set<Column>)
    requires |lefts| == |rights|
    ensures forall x :: x in JoinRows(w, Inner, pred, lefts, rights, o, visL, visR) ==> PairOf(x, lefts, rights)
  {
    if lefts != [] {
      var t := o + Visible(lefts[0], visL);
      var matches := Matches(w, pred, rights[0], t, visR);
      MatchesHold(w, pred, rights[0], t, visR);
      PairMembers(lefts[0], matches);
      InnerPairs(w, pred, lefts[1..], rights[1..], o, visL, visR);
      forall x | x in Pair(lefts[0], matches) ensures PairOf(x, lefts, rights) {
        var r :| r in matches && x == lefts[0] + r;
        assert r in rights[0];
      }
      forall x | PairOf(x, lefts[1..], rights[1..]) ensures PairOf(x, lefts, rights) {
        var i, r :| 0 <= i < |lefts[1..]| && r in rights[1..][i] && x == lefts[1..][i] + r;
        assert lefts[i + 1] == lefts[1..][i] && rights[i + 1] == rights[1..][i];
      }
    }
  }

  lemma InnerCopies(w: World, p: Plan, d: Direction, m: Mapping, pred: Expr, lefts: seq<Row>, rights: seq<seq<Row>>, o: Row, outer: set<Column>)
    requires Plain(p, outer) && Binary(p) && GoodMapping(m, Child(p, d), ChildOuter(p, d, outer))
    requires |lefts| == |rights| && InputCopies(p, d, m, lefts, rights, o)
    ensures AllCopies(m, JoinRows(w, Inner, pred, lefts, rights, o, Output(p.left), Output(p.right)), o, Output(p.left) + Output(p.right))
  {
    InnerPairs(w, pred, lefts, rights, o, Output(p.left), Output(p.right));
    OutputIsCreated(p.left);
    OutputIsCreated(p.right);
    var visL, visR := Output(p.left), Output(p.right);
    forall x | x in JoinRows(w, Inner, pred, lefts, rights, o, visL, visR) ensures Copies(m, o + Visible(x, visL + visR), visL + visR) {
      assert PairOf(x, lefts, rights);
      var i, r :| 0 <= i < |lefts| && r in rights[i] && x == lefts[i] + r;
      PairCopiesAt(p, d, m, lefts, rights, o, outer, i, r);
      PairVisible(o, lefts[i], r, visL, visR, CreatedWithin(p.left), CreatedWithin(p.right));
    }
  }

  lemma SemiCopies(w: World, p: Plan, d: Direction, m: Mapping, kind: JoinKind, pred: Expr, lefts: seq<Row>, rights: seq<seq<Row>>, o: Row, outer: set<Column>)
    requires Plain(p, outer) && p.Join? && (kind.Semi? || kind.AntiSemi?) && GoodMapping(m, Child(p, d), ChildOuter(p, d, outer))
    requires |lefts| == |rights| && InputCopies(p, d, m, lefts, rights, o)
    ensures AllCopies(m, JoinRows(w, kind, pred, lefts, rights, o, Output(p.left), Output(p.right)), o, Output(p.left))
  {
    SemiKeeps(w, kind, pred, lefts, rights, o, Output(p.left), Output(p.right), {});
    OutputIsCreated(p.left);
    forall x | x in lefts ensures Copies(m, o + Visible(x, Output(p.left)), Output(p.left)) {
      if d == Right {
        assert m.Keys !! Output(p.left);
      }
    }
  }

  // ---- The theorem ---------------------------------------------------------------------------------

  /** What a chain establishes about the rows. */
  ghost predicate KeepsRows(w: World, p: Plan, c: Folded, o: Row) {
    Rows(w, c.plan, o) == Rows(w, p, o) && (c.live ==> AllCopies(c.mapping, Rows(w, p, o), o, Output(p)))
  }

  /** Folding an operator whose inputs carry the copies of m. */
  lemma UnaryFolded(w: World, q: Plan, m: Mapping, o: Row, outer: set<Column>)
    requires Plain(q, outer) && (q.Selection? || q.MapOp?) && GoodBelow(m, q, outer)
    requires AllCopies(m, Rows(w, q.child, o), o, Output(q.child))
    ensures Rows(w, FoldOperator(q, m).0, o) == Rows(w, q, o)
    ensures AllCopies(FoldOperator(q, m).1, Rows(w, q, o), o, Output(q))
  {
    var rows, vis := Rows(w, q.child, o), Output(q.child);
    RowsBindCreated(w, q.child, o);
    BelowIsWithin(q, outer);
    if q.Selection? {
      forall row | row in rows ensures SameReads(q.pred, m, o + Visible(row, vis)) {
        CopiesRead(q.pred, m, o + Visible(row, vis), vis, outer);
      }
      FilterReplaced(w, q.pred, m, rows, o, vis);
      FilterWithin(w, q.pred, rows, o, vis);
    } else {
      forall row, i | row in rows && 0 <= i < |q.computed| ensures SameReads(q.computed[i].1, m, o + Visible(row, vis)) {
        assert q.computed[i] in q.computed && Used(q.computed[i].1) <= UsedAll(q.computed);
        CopiesRead(q.computed[i].1, m, o + Visible(row, vis), vis, outer);
      }
      MapReplaced(w, q.computed, m, rows, o, vis);
      MapAllCopies(w, q, m, rows, o, outer);
    }
  }

  /** Rows of a join, unfolded. */
  function Joined(w: World, kind: JoinKind, pred: Expr, l: Plan, r: Plan, o: Row): seq<Row> {
    var lefts := Rows(w, l, o);
    JoinRows(w, kind, pred, lefts, RightRows(w, lefts, r, o, Output(l)), o, Output(l), Output(r))
  }

  lemma JoinUnfolded(w: World, kind: JoinKind, l: Plan, r: Plan, pred: Expr, lh: Option<seq<Column>>, rh: Option<seq<Column>>, o: Row)
    ensures Rows(w, Join(kind, l, r, pred, lh, rh), o) == Joined(w, kind, pred, l, r, o)
  {
  }

  lemma BinaryFolded(w: World, q: Plan, d: Direction, m: Mapping, o: Row, outer: set<Column>)
    requires Plain(q, outer) && Binary(q) && Foldable(q) && GoodMapping(m, Child(q, d), ChildOuter(q, d, outer))
    requires InputCopies(q, d, m, Rows(w, q.left, o), RightRows(w, Rows(w, q.left, o), q.right, o, Output(q.left)), o)
    ensures Rows(w, FoldOperator(q, m).0, o) == Rows(w, q, o)
    ensures AllCopies(FoldOperator(q, m).1, Rows(w, q, o), o, Output(q))
  {
    var lefts := Rows(w, q.left, o);
    var rights := RightRows(w, lefts, q.right, o, Output(q.left));
    match q
    case CrossProduct(l, r) => InnerCopies(w, q, d, m, Constant(Bool(true)), lefts, rights, o, outer);
    case Join(kind, l, r, pred, lh, rh) =>
      JoinFolded(w, q, d, m, o, outer);
      JoinUnfolded(w, kind, l, r, pred, lh, rh, o);
      JoinUnfolded(w, kind, l, r, Replace(pred, m), lh, rh, o);
  }

  lemma JoinFolded(w: World, q: Plan, d: Direction, m: Mapping, o: Row, outer: set<Column>)
    requires Plain(q, outer) && q.Join? && Foldable(q) && GoodMapping(m, Child(q, d), ChildOuter(q, d, outer))
    requires InputCopies(q, d, m, Rows(w, q.left, o), RightRows(w, Rows(w, q.left, o), q.right, o, Output(q.left)), o)
    ensures Joined(w, q.kind, Replace(q.pred, m), q.left, q.right, o) == Joined(w, q.kind, q.pred, q.left, q.right, o)
    ensures AllCopies(m, Joined(w, q.kind, q.pred, q.left, q.right, o), o, Output(q))
  {
    var lefts := Rows(w, q.left, o);
    var rights := RightRows(w, lefts, q.right, o, Output(q.left));
    JoinKeepsRows(w, q, d, m, lefts, rights, o, outer);
    JoinKeepsCopies(w, q, d, m, lefts, rights, o, outer);
  }

  lemma JoinKeepsRows(w: World, q: Plan, d: Direction, m: Mapping, lefts: seq<Row>, rights: seq<seq<Row>>, o: Row, outer: set<Column>)
    requires Plain(q, outer) && q.Join? && Foldable(q) && GoodMapping(m, Child(q, d), ChildOuter(q, d, outer))
    requires |lefts| == |rights| && InputCopies(q, d, m, lefts, rights, o)
    ensures JoinRows(w, q.kind, Replace(q.pred, m), lefts, rights, o, Output(q.left), Output(q.right))
         == JoinRows(w, q.kind, q.pred, lefts, rights, o, Output(q.left), Output(q.right))
  {
    JoinReads(q, d, m, lefts, rights, o, outer, q.pred);
    JoinReplaced(w, q.kind, q.pred, m, lefts, rights, o, Output(q.left), Output(q.right));
  }

  lemma JoinKeepsCopies(w: World, q: Plan, d: Direction, m: Mapping, lefts: seq<Row>, rights: seq<seq<Row>>, o: Row, outer: set<Column>)
    requires Plain(q, outer) && q.Join? && Foldable(q) && GoodMapping(m, Child(q, d), ChildOuter(q, d, outer))
    requires |lefts| == |rights| && InputCopies(q, d, m, lefts, rights, o)
    ensures AllCopies(m, JoinRows(w, q.kind, q.pred, lefts, rights, o, Output(q.left), Output(q.right)), o, Output(q))
  {
    if q.kind.Inner? {
      InnerCopies(w, q, d, m, q.pred, lefts, rights, o, outer);
    } else {
      SemiCopies(w, q, d, m, q.kind, q.pred, lefts, rights, o, outer);
      assert Output(q) == Output(q.left);
    }
  }

  lemma FirstFolded(w: World, p: Plan, o: Row, outer: set<Column>)
    requires Plain(p, outer) && Foldable(p)
    ensures Rows(w, FoldOperator(p, map[]).0, o) == Rows(w, p, o)
    ensures AllCopies(FoldOperator(p, map[]).1, Rows(w, p, o), o, Output(p))
  {
    EmptyIsGood(p, outer);
    if Binary(p) {
      var lefts := Rows(w, p.left, o);
      RowsBindCreated(w, p.left, o);
      RightsBindCreated(w, lefts, p.right, o, Output(p.left));
      BinaryFolded(w, p, Left, map[], o, outer);
    } else {
      UnaryFolded(w, p, map[], o, outer);
    }
  }

  /** One chain changes no row, under any enclosing tuple that binds none of the plan's columns. */
  lemma {:induction false} ChainKeepsRows(w: World, p: Plan, path: seq<Direction>, reach: nat, o: Row, outer: set<Column>)
    requires Plain(p, outer) && Unbound(o, CreatedWithin(p))
    ensures KeepsRows(w, p, Chain(p, path, reach), o)
    decreases p
  {
    if path == [] {
      if Foldable(p) { FirstFolded(w, p, o, outer); }
    } else if !p.BaseTable? {
      var d := path[0];
      var below := Chain(Child(p, d), path[1..], reach);
      ChildIsPlain(p, d, outer);
      ChainReplaces(Child(p, d), path[1..], reach, ChildOuter(p, d, outer));
      ChildKeepsRows(w, p, d, path[1..], reach, o, outer);
      WithChildRows(w, p, d, below.plan, o);
      var q := WithChild(p, d, below.plan);
      if below.live && Foldable(p) && |path| <= reach {
        FromChild(p, d, below.plan, below.mapping, outer);
        if Binary(p) {
          BothInputs(w, p, d, below, o);
          BinaryFolded(w, q, d, below.mapping, o, outer);
        } else {
          UnaryFolded(w, q, below.mapping, o, outer);
        }
        FoldReplaces(q, below.mapping, outer);
        WithChildReplaces(p, d, below.plan, outer);
      }
    }
  }

  /** The induction hypothesis, for every tuple under which the input is evaluated. */
  lemma {:induction false} ChildKeepsRows(w: World, p: Plan, d: Direction, path: seq<Direction>, reach: nat, o: Row, outer: set<Column>)
    requires Plain(p, outer) && Unbound(o, CreatedWithin(p)) && !p.BaseTable?
    ensures !Binary(p) || d == Left ==> KeepsRows(w, Child(p, d), Chain(Child(p, d), path, reach), o)
    ensures Binary(p) && d == Right ==> forall l :: l in Rows(w, p.left, o) ==>
              KeepsRows(w, p.right, Chain(p.right, path, reach), o + Visible(l, Output(p.left)))
    decreases p, 0
  {
    ChildIsPlain(p, d, outer);
    if Binary(p) && d == Right {
      RowsBindCreated(w, p.left, o);
      forall l | l in Rows(w, p.left, o)
        ensures KeepsRows(w, p.right, Chain(p.right, path, reach), o + Visible(l, Output(p.left)))
      {
        assert l.Keys <= CreatedWithin(p.left);
        ChainKeepsRows(w, p.right, path, reach, o + Visible(l, Output(p.left)), ChildOuter(p, d, outer));
      }
    } else {
      ChainKeepsRows(w, Child(p, d), path, reach, o, ChildOuter(p, d, outer));
    }
  }

  lemma BothInputs(w: World, p: Plan, d: Direction, c: Folded, o: Row)
    requires Binary(p) && c.live && Output(c.plan) == Output(Child(p, d)) && CreatedWithin(c.plan) == CreatedWithin(Child(p, d))
    requires d == Left ==> KeepsRows(w, p.left, c, o)
    requires d == Right ==> forall l :: l in Rows(w, p.left, o) ==> KeepsRows(w, p.right, c, o + Visible(l, Output(p.left)))
    ensures var q := WithChild(p, d, c.plan);
            InputCopies(q, d, c.mapping, Rows(w, q.left, o), RightRows(w, Rows(w, q.left, o), q.right, o, Output(q.left)), o)
  {
    var q := WithChild(p, d, c.plan);
    var lefts := Rows(w, q.left, o);
    var rights := RightRows(w, lefts, q.right, o, Output(q.left));
    RowsBindCreated(w, q.left, o);
    RightsBindCreated(w, lefts, q.right, o, Output(q.left));
    if d == Right {
      forall i | 0 <= i < |rights| ensures AllCopies(c.mapping, rights[i], o + Visible(lefts[i], Output(q.left)), Output(q.right)) {
        RightRowsAt(w, lefts, q.right, o, Output(q.left), i);
        assert lefts[i] in Rows(w, p.left, o);
        assert KeepsRows(w, p.right, c, o + Visible(lefts[i], Output(p.left)));
      }
    }
  }

  /** The folding phase preserves the rows of the plan. */
  lemma {:induction false} ChainsKeepRows(w: World, p: Plan, chains: seq<(seq<Direction>, nat)>, o: Row, outer: set<Column>)
    requires Plain(p, outer) && Unbound(o, CreatedWithin(p))
    ensures Rows(w, Chains(p, chains), o) == Rows(w, p, o)
    ensures Replaces(Chains(p, chains), p, outer)
    decreases |chains|
  {
    if chains != [] {
      ChainReplaces(p, chains[0].0, chains[0].1, outer);
      ChainKeepsRows(w, p, chains[0].0, chains[0].1, o, outer);
      ChainsKeepRows(w, Chain(p, chains[0].0, chains[0].1).plan, chains[1..], o, outer);
    }
  }
}
