/** Predicates of the db dialect, as values with an identity, and their three-valued meaning. */
module DbPredicates {
  datatype CmpPredicate = Eq | Neq | Lt | Lte | Gt | Gte | Isa

  /** A value together with the operation that defines it.  Operations have an identity of their own;
      an argument has no defining operation, and other operations stay opaque. */
  datatype Expr =
    | Arg(n: nat)
    | Other(id: nat)
    | Const(id: nat, d: int)
    | Cmp(id: nat, pred: CmpPredicate, left: Expr, right: Expr)
    | Between(id: nat, val: Expr, lower: Expr, upper: Expr, lowerInclusive: bool, upperInclusive: bool)
    | And(id: nat, vals: seq<Expr>)
    | Or(id: nat, vals: seq<Expr>)

  datatype Val = Null | Truth(b: bool) | Datum(d: int)

  /** The values of arguments and opaque operations, and the order of the data. */
  datatype State = State(args: nat -> Val, others: nat -> Val, less: (Val, Val) -> bool, leq: (Val, Val) -> bool)

  const TRUE := Truth(true)
  const FALSE := Truth(false)

  function Compare(s: State, p: CmpPredicate, x: Val, y: Val): bool {
    match p
    case Eq => x == y
    case Neq => x != y
    case Lt => s.less(x, y)
    case Lte => s.leq(x, y)
    case Gt => s.less(y, x)
    case Gte => s.leq(y, x)
    case Isa => x == y
  }

  /** A conjunction is false when an operand is, otherwise null when an operand is, otherwise true. */
  function Conjunction(anyFalse: bool, anyNull: bool): Val {
    if anyFalse then FALSE else if anyNull then Null else TRUE
  }

  function Disjunction(anyTrue: bool, anyNull: bool): Val {
    if anyTrue then TRUE else if anyNull then Null else FALSE
  }

  function Eval(s: State, e: Expr): Val {
    match e
    case Arg(n) => s.args(n)
    case Other(id) => s.others(id)
    case Const(_, d) => Datum(d)
    case Cmp(_, p, l, r) =>
      var x, y := Eval(s, l), Eval(s, r);
      if p != Isa && (x == Null || y == Null) then Null else Truth(Compare(s, p, x, y))
    case Between(_, val, lower, upper, li, ui) =>
      var x, lo, hi := Eval(s, val), Eval(s, lower), Eval(s, upper);
      if x == Null || lo == Null || hi == Null then Null
      else Truth((if li then s.leq(lo, x) else s.less(lo, x)) && (if ui then s.leq(x, hi) else s.less(x, hi)))
    case And(_, vals) =>
      Conjunction(exists i :: 0 <= i < |vals| && Eval(s, vals[i]) == FALSE, exists i :: 0 <= i < |vals| && Eval(s, vals[i]) == Null)
    case Or(_, vals) =>
      Disjunction(exists i :: 0 <= i < |vals| && Eval(s, vals[i]) == TRUE, exists i :: 0 <= i < |vals| && Eval(s, vals[i]) == Null)
  }

  function Size(e: Expr): (n: nat)
    ensures n >= 1
    decreases e, 0
  {
    match e
    case Arg(_) => 1
    case Other(_) => 1
    case Const(_, _) => 1
    case Cmp(_, _, l, r) => 1 + Size(l) + Size(r)
    case Between(_, val, lower, upper, _, _) => 1 + Size(val) + Size(lower) + Size(upper)
    case And(_, vals) => 1 + SizeOf(vals)
    case Or(_, vals) => 1 + SizeOf(vals)
  }

  function SizeOf(es: seq<Expr>): nat
    decreases es, 1
  {
    if es == [] then 0 else Size(es[0]) + SizeOf(es[1..])
  }

  lemma {:induction false} SizeOfConcat(a: seq<Expr>, b: seq<Expr>)
    ensures SizeOf(a + b) == SizeOf(a) + SizeOf(b)
  {
    if a == [] {
      assert a + b == b;
    } else {
      assert (a + b)[1..] == a[1..] + b;
      SizeOfConcat(a[1..], b);
    }
  }

  /** The elements of a set, in some order. */
  method Enumerate(es: set<Expr>) returns (r: seq<Expr>)
    ensures |r| == |es| && forall e :: e in r <==> e in es
    ensures forall i, j :: 0 <= i < j < |r| ==> r[i] != r[j]
  {
    r := [];
    var todo := es;
    while todo != {}
      invariant todo <= es && |r| + |todo| == |es|
      invariant forall e :: e in es <==> e in r || e in todo
      invariant forall e :: e in todo ==> e !in r
      invariant forall i, j :: 0 <= i < j < |r| ==> r[i] != r[j]
      decreases |todo|
    {
      var e :| e in todo;
      r := r + [e];
      todo := todo - {e};
    }
  }

  /** Issues identities for the operations a rewrite creates. */
  class PatternRewriter {
    var nextId: nat

    constructor (first: nat)
      ensures nextId == first
    {
      nextId := first;
    }

    method NewId() returns (id: nat)
      modifies this
      ensures id == old(nextId) && nextId == old(nextId) + 1
    {
      id := nextId;
      nextId := nextId + 1;
    }
  }
}

/** Canonicalization of conjunctions: flattening, deduplication and merging of bounds. */
module AndCanonicalization {
  import opened DbPredicates
  import opened Options

  // ---- What a conjunction tree means ---------------------------------------------------------

  /** The operands below all the nested conjunctions. */
  function Leaves(e: Expr): set<Expr>
    decreases e, 0
  {
    if e.And? then LeavesOf(e.vals) else {e}
  }

  function LeavesOf(es: seq<Expr>): set<Expr>
    decreases es, 1
  {
    if es == [] then {} else Leaves(es[0]) + LeavesOf(es[1..])
  }

  /** The conjunction of a set of values. */
  ghost function AllOf(s: State, es: set<Expr>): Val {
    Conjunction(exists e :: e in es && Eval(s, e) == FALSE, exists e :: e in es && Eval(s, e) == Null)
  }

  lemma {:induction false} LeavesMean(s: State, e: Expr)
    ensures Eval(s, e) == FALSE ==> exists x :: x in Leaves(e) && Eval(s, x) == FALSE
    ensures Eval(s, e) == Null ==> exists x :: x in Leaves(e) && Eval(s, x) == Null
    ensures Eval(s, e) != FALSE ==> forall x :: x in Leaves(e) ==> Eval(s, x) != FALSE
    ensures Eval(s, e) != FALSE && Eval(s, e) != Null ==> forall x :: x in Leaves(e) ==> Eval(s, x) != Null
    decreases e, 0
  {
    if e.And? {
      LeavesOfMean(s, e.vals);
    } else {
      assert e in Leaves(e);
    }
  }

  lemma {:induction false} LeavesOfMean(s: State, es: seq<Expr>)
    ensures (exists i :: 0 <= i < |es| && Eval(s, es[i]) == FALSE) <==> exists x :: x in LeavesOf(es) && Eval(s, x) == FALSE
    ensures !(exists i :: 0 <= i < |es| && Eval(s, es[i]) == FALSE) ==>
              ((exists i :: 0 <= i < |es| && Eval(s, es[i]) == Null) <==> exists x :: x in LeavesOf(es) && Eval(s, x) == Null)
    decreases es, 1
  {
    if es != [] {
      LeavesMean(s, es[0]);
      LeavesOfMean(s, es[1..]);
      var rest := es[1..];
      assert forall i :: 0 <= i < |rest| ==> rest[i] == es[i + 1];
      assert forall i :: 0 < i < |es| ==> es[i] == rest[i - 1];
    }
  }

  /** A conjunction tree means the conjunction of its leaves. */
  lemma TreeIsConjunction(s: State, e: Expr)
    requires e.And?
    ensures Eval(s, e) == AllOf(s, Leaves(e))
  {
    LeavesOfMean(s, e.vals);
    var vals, es := e.vals, LeavesOf(e.vals);
    AndMeans(s, e.id, vals);
    assert AllOf(s, es) == Conjunction(exists x :: x in es && Eval(s, x) == FALSE, exists x :: x in es && Eval(s, x) == Null);
  }

  lemma AndMeans(s: State, id: nat, vals: seq<Expr>)
    ensures Eval(s, And(id, vals)) == Conjunction(exists i :: 0 <= i < |vals| && Eval(s, vals[i]) == FALSE,
                                                  exists i :: 0 <= i < |vals| && Eval(s, vals[i]) == Null)
  {
  }

  lemma {:induction false} NoNestedConjunction(e: Expr)
    ensures forall x :: x in Leaves(e) ==> !x.And?
    decreases e, 0
  {
    if e.And? { NoConjunctionIn(e.vals); }
  }

  lemma {:induction false} NoConjunctionIn(es: seq<Expr>)
    ensures forall x :: x in LeavesOf(es) ==> !x.And?
    decreases es, 1
  {
    if es != [] {
      NoNestedConjunction(es[0]);
      NoConjunctionIn(es[1..]);
    }
  }

  lemma {:induction false} LeavesConcat(a: seq<Expr>, b: seq<Expr>)
    ensures LeavesOf(a + b) == LeavesOf(a) + LeavesOf(b)
  {
    if a == [] {
      assert a + b == b;
    } else {
      assert (a + b)[1..] == a[1..] + b;
      LeavesConcat(a[1..], b);
    }
  }

  // ---- Sizes of sets ------------------------------------------------------------------------------

  ghost function SetSize(es: set<Expr>): nat
    decreases |es|
  {
    if es == {} then 0
    else var e :| e in es; Size(e) + SetSize(es - {e})
  }

  lemma {:induction false} SetSizeRemove(es: set<Expr>, x: Expr)
    requires x in es
    ensures SetSize(es) == Size(x) + SetSize(es - {x})
    decreases |es|
  {
    var e :| e in es && SetSize(es) == Size(e) + SetSize(es - {e});
    if e != x {
      SetSizeRemove(es - {e}, x);
      SetSizeRemove(es - {x}, e);
      assert es - {e} - {x} == es - {x} - {e};
    }
  }

  /** Elements listed once each have the size of their set. */
  lemma {:induction false} ListedSize(r: seq<Expr>, es: set<Expr>)
    requires (forall e :: e in r <==> e in es) && forall i, j :: 0 <= i < j < |r| ==> r[i] != r[j]
    ensures SizeOf(r) == SetSize(es)
  {
    if r != [] {
      assert r[0] in es;
      var rest := r[1..];
      forall e ensures e in rest <==> e in es - {r[0]} {
        if e in rest { var i :| 0 <= i < |rest| && rest[i] == e; assert r[i + 1] == e; }
        if e in es - {r[0]} { var i :| 0 <= i < |r| && r[i] == e; assert rest[i - 1] == e; }
      }
      ListedSize(rest, es - {r[0]});
      SetSizeRemove(es, r[0]);
    }
  }

  /** Sizes of a union add up exactly when nothing is shared. */
  lemma {:induction false} SetSizeUnion(a: set<Expr>, b: set<Expr>)
    ensures SetSize(a + b) <= SetSize(a) + SetSize(b)
    ensures SetSize(a + b) == SetSize(a) + SetSize(b) ==> a !! b
    decreases |a|
  {
    if a == {} {
      assert a + b == b;
    } else {
      var x :| x in a;
      SetSizeUnion(a - {x}, b);
      SetSizeRemove(a, x);
      SetSizeRemove(a + b, x);
      if x in b {
        assert a - {x} + b == a + b;
      } else {
        assert a - {x} + b == a + b - {x};
      }
    }
  }

  lemma {:induction false} LeavesSize(e: Expr)
    ensures SetSize(Leaves(e)) <= Size(e)
    ensures e.And? ==> SetSize(Leaves(e)) < Size(e)
    decreases e, 0
  {
    if e.And? {
      LeavesOfSize(e.vals);
    } else {
      SetSizeRemove({e}, e);
      assert {e} - {e} == {};
    }
  }

  /** Flattening and deduplication shrink the operands, or there was nothing to flatten and no duplicate. */
  lemma {:induction false} LeavesOfSize(es: seq<Expr>)
    ensures SetSize(LeavesOf(es)) <= SizeOf(es)
    ensures SetSize(LeavesOf(es)) == SizeOf(es) ==> |LeavesOf(es)| == |es|
    decreases es, 1
  {
    if es != [] {
      LeavesSize(es[0]);
      LeavesOfSize(es[1..]);
      SetSizeUnion(Leaves(es[0]), LeavesOf(es[1..]));
      if SetSize(LeavesOf(es)) == SizeOf(es) {
        assert Leaves(es[0]) == {es[0]};
        assert |{es[0]} + LeavesOf(es[1..])| == 1 + |LeavesOf(es[1..])|;
      }
    }
  }

  // ---- The first loop ----------------------------------------------------------------------------------

  predicate Orders(cmp: Expr) {
    cmp.Cmp? && (cmp.pred.Lt? || cmp.pred.Lte? || cmp.pred.Gt? || cmp.pred.Gte?)
  }

  /** The side on which cmp, one of the comparisons of current, bounds it. */
  predicate IsLower(cmp: Expr, current: Expr) {
    Orders(cmp) && ((cmp.pred.Gt? || cmp.pred.Gte?) == (cmp.left == current))
  }

  predicate IsUpper(cmp: Expr, current: Expr) {
    Orders(cmp) && ((cmp.pred.Lt? || cmp.pred.Lte?) == (cmp.left == current))
  }

  function OtherOperand(cmp: Expr, current: Expr): Expr
    requires cmp.Cmp?
  {
    if cmp.left == current then cmp.right else cmp.left
  }

  predicate Compares(cmp: Expr, current: Expr) {
    Orders(cmp) && (cmp.left == current || cmp.right == current)
  }

  /** c, one of the comparisons of current, bounds it on the given side. */
  predicate Bounds(c: Expr, current: Expr, lower: bool) {
    Compares(c, current) && if lower then IsLower(c, current) else IsUpper(c, current)
  }

  /** Every comparison among the values is found under its operands, and nothing else is. */
  ghost predicate Registered(cmps: map<Expr, seq<Expr>>, values: set<Expr>) {
    && (forall k, c :: k in cmps && c in cmps[k] ==> c.Cmp? && (c.left == k || c.right == k) && c in values)
    && (forall c :: c in values && c.Cmp? ==>
          c.left in cmps && c in cmps[c.left] && c.right in cmps && c in cmps[c.right])
  }

  function Register(cmps: map<Expr, seq<Expr>>, key: Expr, cmp: Expr): (r: map<Expr, seq<Expr>>) {
    cmps[key := (if key in cmps then cmps[key] else []) + [cmp]]
  }

  lemma RegisterKeeps(cmps: map<Expr, seq<Expr>>, values: set<Expr>, cmp: Expr)
    requires Registered(cmps, values) && cmp.Cmp?
    ensures Registered(Register(Register(cmps, cmp.left, cmp), cmp.right, cmp), values + {cmp})
  {
  }

  lemma OthersKeep(cmps: map<Expr, seq<Expr>>, values: set<Expr>, e: Expr)
    requires Registered(cmps, values) && !e.Cmp?
    ensures Registered(cmps, values + {e})
  {
  }

  lemma QueueShrinks(queue: seq<Expr>)
    requires queue != [] && queue[0].And?
    ensures SizeOf(queue[1..] + queue[0].vals) < SizeOf(queue)
  {
    SizeOfConcat(queue[1..], queue[0].vals);
    assert Size(queue[0]) == 1 + SizeOf(queue[0].vals);
  }

  /** The operands that breadth-first search below the queued values comes to, in its order. */
  function Visited(queue: seq<Expr>): seq<Expr>
    decreases SizeOf(queue)
  {
    if queue == [] then []
    else if queue[0].And? then
      QueueShrinks(queue);
      Visited(queue[1..] + queue[0].vals)
    else [queue[0]] + Visited(queue[1..])
  }

  lemma {:induction false} VisitedAreLeaves(queue: seq<Expr>)
    ensures forall e :: e in Visited(queue) <==> e in LeavesOf(queue)
    decreases SizeOf(queue)
  {
    if queue != [] {
      if queue[0].And? {
        QueueShrinks(queue);
        LeavesConcat(queue[1..], queue[0].vals);
        VisitedAreLeaves(queue[1..] + queue[0].vals);
      } else {
        VisitedAreLeaves(queue[1..]);
      }
    }
  }

  /** The last comparison of the list that bounds current on the given side. */
  function Last(order: seq<Expr>, current: Expr, lower: bool): (r: Option<Expr>)
    ensures r.Some? ==> r.value in order && Bounds(r.value, current, lower)
    ensures r.None? ==> forall c :: c in order ==> !Bounds(c, current, lower)
  {
    if order == [] then None
    else if Bounds(order[|order| - 1], current, lower) then Some(order[|order| - 1])
    else Last(order[..|order| - 1], current, lower)
  }

  lemma LastMore(order: seq<Expr>, c: Expr, current: Expr, lower: bool)
    ensures Last(order + [c], current, lower) == if Bounds(c, current, lower) then Some(c) else Last(order, current, lower)
  {
    assert (order + [c])[..|order|] == order;
  }

  /** The comparisons found under an operand have the same last bounds as all that was visited. */
  ghost predicate LastFound(cmps: map<Expr, seq<Expr>>, order: seq<Expr>) {
    forall k, lower :: k in cmps ==> Last(cmps[k], k, lower) == Last(order, k, lower)
  }

  lemma RegisterFinds(cmps: map<Expr, seq<Expr>>, order: seq<Expr>, values: set<Expr>, cmp: Expr)
    requires LastFound(cmps, order) && Registered(cmps, values) && cmp.Cmp? && forall e :: e in order <==> e in values
    ensures LastFound(Register(Register(cmps, cmp.left, cmp), cmp.right, cmp), order + [cmp])
  {
    var after := Register(Register(cmps, cmp.left, cmp), cmp.right, cmp);
    forall k, lower | k in after ensures Last(after[k], k, lower) == Last(order + [cmp], k, lower) {
      LastOfFound(cmps, order, values, k, lower);
      var before := RegisteredAt(cmps, cmp, k);
      LastRegistered(before, order, cmp, k, lower);
    }
  }

  /** What is found under an operand after one more comparison. */
  lemma RegisteredAt(cmps: map<Expr, seq<Expr>>, cmp: Expr, k: Expr) returns (before: seq<Expr>)
    requires cmp.Cmp?
    ensures before == if k in cmps then cmps[k] else []
    ensures var after := Register(Register(cmps, cmp.left, cmp), cmp.right, cmp);
            k in after ==>
              after[k] == if k == cmp.left == cmp.right then before + [cmp] + [cmp] else if k == cmp.left || k == cmp.right then before + [cmp] else before
  {
    before := if k in cmps then cmps[k] else [];
  }

  /** Nothing visited bounds an operand under which nothing is registered. */
  lemma LastOfFound(cmps: map<Expr, seq<Expr>>, order: seq<Expr>, values: set<Expr>, k: Expr, lower: bool)
    requires LastFound(cmps, order) && Registered(cmps, values) && forall e :: e in order <==> e in values
    ensures Last(if k in cmps then cmps[k] else [], k, lower) == Last(order, k, lower)
  {
    assert forall c :: c in order && Bounds(c, k, lower) ==> c in values && k in cmps;
  }

  /** Once or twice, the same comparison is the last one. */
  lemma LastRegistered(before: seq<Expr>, order: seq<Expr>, cmp: Expr, k: Expr, lower: bool)
    requires Last(before, k, lower) == Last(order, k, lower)
    ensures Bounds(cmp, k, lower) ==> Last(before + [cmp], k, lower) == Last(order + [cmp], k, lower)
    ensures !Bounds(cmp, k, lower) ==> Last(before, k, lower) == Last(before + [cmp], k, lower) == Last(order + [cmp], k, lower)
    ensures Last(before + [cmp] + [cmp], k, lower) == Last(order + [cmp], k, lower)
  {
    LastMore(order, cmp, k, lower);
    LastMore(before, cmp, k, lower);
    LastMore(before + [cmp], cmp, k, lower);
  }

  lemma OthersFind(cmps: map<Expr, seq<Expr>>, order: seq<Expr>, e: Expr)
    requires LastFound(cmps, order) && !e.Cmp?
    ensures LastFound(cmps, order + [e])
  {
    forall k, lower | k in cmps ensures Last(cmps[k], k, lower) == Last(order + [e], k, lower) {
      LastMore(order, e, k, lower);
    }
  }

  lemma VisitedNext(order: seq<Expr>, queue: seq<Expr>)
    requires queue != [] && !queue[0].And?
    ensures order + Visited(queue) == order + [queue[0]] + Visited(queue[1..])
  {
  }

  /** Breadth-first search below the conjunction. */
  method Flatten(andOp: Expr) returns (rawValues: set<Expr>, cmps: map<Expr, seq<Expr>>)
    ensures rawValues == Leaves(andOp)
    ensures Registered(cmps, rawValues) && LastFound(cmps, Visited([andOp]))
  {
    rawValues, cmps := {}, map[];
    ghost var order := [];
    var queue := [andOp];
    assert LeavesOf(queue) == Leaves(andOp);
    while queue != []
      invariant rawValues + LeavesOf(queue) == Leaves(andOp)
      invariant Registered(cmps, rawValues) && forall e :: e in order <==> e in rawValues
      invariant LastFound(cmps, order) && order + Visited(queue) == Visited([andOp])
      decreases SizeOf(queue)
    {
      var current := queue[0];
      assert SizeOf(queue) == Size(current) + SizeOf(queue[1..]);
      if !current.And? { VisitedNext(order, queue); }
      queue := queue[1..];
      match current {
        case And(_, vals) =>
          assert Size(current) == 1 + SizeOf(vals);
          SizeOfConcat(queue, vals);
          LeavesConcat(queue, vals);
          queue := queue + vals;
        case Cmp(_, _, left, right) =>
          RegisterKeeps(cmps, rawValues, current);
          RegisterFinds(cmps, order, rawValues, current);
          cmps := Register(Register(cmps, left, current), right, current);
          rawValues, order := rawValues + {current}, order + [current];
        case _ =>
          OthersKeep(cmps, rawValues, current);
          OthersFind(cmps, order, current);
          rawValues, order := rawValues + {current}, order + [current];
      }
    }
    assert order + [] == order;
  }

  // ---- Merging bounds ------------------------------------------------------------------------------------

  /** cmp bounds current from below by the other operand. */
  predicate BoundsBelow(cmp: Expr, current: Expr, bound: Expr) {
    cmp.Cmp? &&
    (((cmp.pred.Lt? || cmp.pred.Lte?) && cmp.left == bound && cmp.right == current)
     || ((cmp.pred.Gt? || cmp.pred.Gte?) && cmp.left == current && cmp.right == bound))
  }

  predicate BoundsAbove(cmp: Expr, current: Expr, bound: Expr) {
    cmp.Cmp? &&
    (((cmp.pred.Lt? || cmp.pred.Lte?) && cmp.left == current && cmp.right == bound)
     || ((cmp.pred.Gt? || cmp.pred.Gte?) && cmp.left == bound && cmp.right == current))
  }

  /** current is bounded on both sides, and by constants only. */
  ghost predicate Mergeable(current: Expr, values: set<Expr>) {
    && !current.Const?
    && (forall c :: c in values && Compares(c, current) ==> OtherOperand(c, current).Const?)
    && (exists c :: c in values && Compares(c, current) && IsLower(c, current))
    && (exists c :: c in values && Compares(c, current) && IsUpper(c, current))
  }

  ghost predicate HasBetween(current: Expr, values: set<Expr>) {
    exists b :: b in values && b.Between? && b.val == current
  }

  predicate Inclusive(cmp: Expr)
    requires cmp.Cmp?
  {
    cmp.pred.Gte? || cmp.pred.Lte?
  }

  /** The last comparisons that bound current below and above do so with constants. */
  predicate Merges(order: seq<Expr>, current: Expr) {
    && !current.Const?
    && Last(order, current, true).Some? && OtherOperand(Last(order, current, true).value, current).Const?
    && Last(order, current, false).Some? && OtherOperand(Last(order, current, false).value, current).Const?
  }

  function Operands(order: seq<Expr>): set<Expr> {
    (set c | c in order && c.Cmp? :: c.left) + (set c | c in order && c.Cmp? :: c.right)
  }

  /** The operands whose bounds are merged. */
  function Merged(order: seq<Expr>): set<Expr> {
    set k | k in Operands(order) && Merges(order, k)
  }

  /** e is one of the two comparisons that the BETWEEN of current stands for. */
  predicate IsSpent(order: seq<Expr>, current: Expr, e: Expr) {
    e.Cmp? && (Last(order, current, true) == Some(e) || Last(order, current, false) == Some(e))
  }

  function BetweenOf(order: seq<Expr>, current: Expr, id: nat): Expr
    requires Merges(order, current)
  {
    var lowerCmp, upperCmp := Last(order, current, true).value, Last(order, current, false).value;
    Between(id, current, OtherOperand(lowerCmp, current), OtherOperand(upperCmp, current), Inclusive(lowerCmp), Inclusive(upperCmp))
  }

  /** after holds the BETWEENs made for some operands, and the leaves that they do not stand for. */
  ghost predicate Replaced(order: seq<Expr>, leaves: set<Expr>, after: set<Expr>, made: map<Expr, Expr>) {
    && (forall k :: k in made ==> Merges(order, k) && made[k].Between? && made[k] == BetweenOf(order, k, made[k].id) && made[k] in after)
    && (forall e :: e in leaves && (forall k :: k in made ==> !IsSpent(order, k, e)) ==> e in after)
    && (forall e :: e in after ==> e in made.Values || (e in leaves && forall k :: k in made ==> !IsSpent(order, k, e)))
  }

  /** A mergeable operand is merged, whatever the order. */
  lemma MergeableIsMerged(order: seq<Expr>, leaves: set<Expr>, current: Expr)
    requires Mergeable(current, leaves) && forall e :: e in order <==> e in leaves
    ensures current in Merged(order)
  {
    var l :| l in leaves && Compares(l, current) && IsLower(l, current);
    var u :| u in leaves && Compares(u, current) && IsUpper(u, current);
    assert Bounds(l, current, true) && Bounds(u, current, false);
    assert l.left in Operands(order) && l.right in Operands(order);
  }

  /** A comparison that bounds an operand by a constant bounds no other operand that can be merged. */
  lemma SpentOnce(order: seq<Expr>, k: Expr, other: Expr, e: Expr)
    requires Merges(order, k) && IsSpent(order, k, e) && !other.Const? && (e.left == other || e.right == other)
    ensures other == k
  {
  }

  /** Two opposite comparisons with constants are together one BETWEEN, in every state. */
  lemma BetweenIsBothBounds(s: State, id: nat, current: Expr, lowerCmp: Expr, upperCmp: Expr, lower: Expr, upper: Expr)
    requires BoundsBelow(lowerCmp, current, lower) && BoundsAbove(upperCmp, current, upper) && lower.Const? && upper.Const?
    ensures Eval(s, Between(id, current, lower, upper, Inclusive(lowerCmp), Inclusive(upperCmp)))
         == Conjunction(Eval(s, lowerCmp) == FALSE || Eval(s, upperCmp) == FALSE, Eval(s, lowerCmp) == Null || Eval(s, upperCmp) == Null)
  {
    assert Eval(s, lower) == Datum(lower.d) && Eval(s, upper) == Datum(upper.d);
  }

  lemma FalseConjunct(s: State, id: nat, vals: seq<Expr>, i: nat)
    requires i < |vals| && Eval(s, vals[i]) == FALSE
    ensures Eval(s, And(id, vals)) == FALSE
  {
  }

  /** With bounds that are not constants this would be wrong: a null bound hides a false comparison. */
  lemma BetweenNeedsConstants() returns (s: State, current: Expr, lower: Expr, upper: Expr)
    ensures Eval(s, Between(0, current, lower, upper, true, true))
            != Eval(s, And(1, [Cmp(2, Gte, current, lower), Cmp(3, Lte, current, upper)]))
  {
    s := State(n => if n == 0 then Null else Datum(n), n => Null, (x, y) => false, (x, y) => false);
    current, lower, upper := Arg(1), Arg(0), Arg(2);
    NullBound(s, current, lower, upper);
  }

  lemma NullBound(s: State, current: Expr, lower: Expr, upper: Expr)
    requires Eval(s, lower) == Null && Eval(s, Cmp(3, Lte, current, upper)) == FALSE
    ensures Eval(s, Between(0, current, lower, upper, true, true)) == Null
    ensures Eval(s, And(1, [Cmp(2, Gte, current, lower), Cmp(3, Lte, current, upper)])) == FALSE
  {
    FalseConjunct(s, 1, [Cmp(2, Gte, current, lower), Cmp(3, Lte, current, upper)], 1);
  }

  /** Replacing two members of a conjunction by one with their joint meaning. */
  lemma ReplacePair(s: State, es: set<Expr>, a: Expr, b: Expr, c: Expr)
    requires a in es && b in es
    requires Eval(s, c) == Conjunction(Eval(s, a) == FALSE || Eval(s, b) == FALSE, Eval(s, a) == Null || Eval(s, b) == Null)
    ensures AllOf(s, es - {a} - {b} + {c}) == AllOf(s, es)
  {
    var fs := es - {a} - {b} + {c};
    if e :| e in es && Eval(s, e) == FALSE {
      if e == a || e == b { assert c in fs && Eval(s, c) == FALSE; } else { assert e in fs; }
    } else {
      assert Eval(s, c) != FALSE;
      if e :| e in es && Eval(s, e) == Null {
        if e == a || e == b { assert c in fs && Eval(s, c) == Null; } else { assert e in fs; }
      }
    }
  }

  lemma MergeShrinks(es: set<Expr>, a: Expr, b: Expr, c: Expr)
    requires a in es && b in es && a != b && Size(c) < Size(a) + Size(b)
    ensures SetSize(es - {a} - {b} + {c}) < SetSize(es)
  {
    SetSizeRemove(es, a);
    SetSizeRemove(es - {a}, b);
    SetSizeUnion(es - {a} - {b}, {c});
    SetSizeRemove({c}, c);
    assert {c} - {c} == {};
  }

  /** The same conjunction in every state, and either nothing merged or strictly smaller. */
  ghost predicate Refined(after: set<Expr>, before: set<Expr>) {
    && (forall s: State :: AllOf(s, after) == AllOf(s, before))
    && (forall e :: e in after ==> e.Between? || e in before)
    && (after == before || SetSize(after) < SetSize(before))
  }

  /** The candidates that are still among the values. */
  function Standing(candidates: seq<Expr>, rawValues: set<Expr>): (r: seq<Expr>)
    ensures forall c :: c in r ==> c in candidates && c in rawValues
    ensures (forall c :: c in candidates ==> c in rawValues) ==> r == candidates
  {
    if candidates == [] then []
    else
      var n := |candidates| - 1;
      Standing(candidates[..n], rawValues) + if candidates[n] in rawValues then [candidates[n]] else []
  }

  lemma StandingMore(candidates: seq<Expr>, i: nat, rawValues: set<Expr>, current: Expr)
    requires i < |candidates|
    ensures var before, after, cmp := Standing(candidates[..i], rawValues), Standing(candidates[..i + 1], rawValues), candidates[i];
            && (cmp in rawValues ==> forall lower :: Last(after, current, lower) == if Bounds(cmp, current, lower) then Some(cmp) else Last(before, current, lower))
            && (cmp !in rawValues ==> after == before)
  {
    assert candidates[..i + 1][..i] == candidates[..i];
    forall lower: bool {
      LastMore(Standing(candidates[..i], rawValues), candidates[i], current, lower);
    }
  }

  /** The side of a comparison of current. */
  lemma SideOf(c: Expr, current: Expr)
    requires c.Cmp? && (c.left == current || c.right == current)
    ensures Bounds(c, current, true) <==> ((c.pred.Lt? || c.pred.Lte?) && c.left != current) || ((c.pred.Gt? || c.pred.Gte?) && c.left == current)
    ensures Bounds(c, current, false) <==> ((c.pred.Lt? || c.pred.Lte?) && c.left == current) || ((c.pred.Gt? || c.pred.Gte?) && c.left != current)
    ensures Bounds(c, current, true) ==> BoundsBelow(c, current, OtherOperand(c, current))
    ensures Bounds(c, current, false) ==> BoundsAbove(c, current, OtherOperand(c, current))
  {
  }

  function Found(has: bool, c: Expr): Option<Expr> {
    if has then Some(c) else None
  }

  /** The inner loop: the last lower and the last upper bound of current that still stand. */
  method FindBounds(current: Expr, candidates: seq<Expr>, rawValues: set<Expr>)
    returns (lower: Expr, lowerCmp: Expr, upper: Expr, upperCmp: Expr, hasLower: bool, hasUpper: bool)
    requires forall c :: c in candidates ==> c.Cmp? && (c.left == current || c.right == current)
    ensures Found(hasLower, lowerCmp) == Last(Standing(candidates, rawValues), current, true)
    ensures Found(hasUpper, upperCmp) == Last(Standing(candidates, rawValues), current, false)
    ensures hasLower ==> lowerCmp.Cmp? && lower == OtherOperand(lowerCmp, current)
    ensures hasUpper ==> upperCmp.Cmp? && upper == OtherOperand(upperCmp, current)
  {
    lower, lowerCmp, upper, upperCmp := current, current, current, current;
    hasLower, hasUpper := false, false;
    var i := 0;
    while i < |candidates|
      invariant 0 <= i <= |candidates|
      invariant Found(hasLower, lowerCmp) == Last(Standing(candidates[..i], rawValues), current, true)
      invariant Found(hasUpper, upperCmp) == Last(Standing(candidates[..i], rawValues), current, false)
      invariant hasLower ==> lowerCmp.Cmp? && lower == OtherOperand(lowerCmp, current)
      invariant hasUpper ==> upperCmp.Cmp? && upper == OtherOperand(upperCmp, current)
    {
      var cmp := candidates[i];
      StandingMore(candidates, i, rawValues, current);
      SideOf(cmp, current);
      i := i + 1;
      if cmp !in rawValues {
        continue;
      }
      match cmp.pred {
        case Lt | Lte =>
          if cmp.left == current {
            upper, upperCmp, hasUpper := cmp.right, cmp, true;
          } else {
            lower, lowerCmp, hasLower := cmp.left, cmp, true;
          }
        case Gt | Gte =>
          if cmp.left == current {
            lower, lowerCmp, hasLower := cmp.right, cmp, true;
          } else {
            upper, upperCmp, hasUpper := cmp.left, cmp, true;
          }
        case _ =>
      }
    }
    assert candidates[..i] == candidates;
  }

  /** No BETWEEN among the values has this identity, or a later one. */
  ghost predicate Unused(id: nat, values: set<Expr>) {
    forall b :: b in values && b.Between? ==> b.id < id
  }

  /** The comparisons of the operands still to do all stand. */
  ghost predicate AllStand(cmps: map<Expr, seq<Expr>>, rawValues: set<Expr>, todo: set<Expr>) {
    forall k, c :: k in todo && k in cmps && !k.Const? && c in cmps[k] ==> c in rawValues
  }

  /** One more operand merged. */
  lemma ReplacedMore(order: seq<Expr>, leaves: set<Expr>, rawValues: set<Expr>, made: map<Expr, Expr>, current: Expr,
                     lowerCmp: Expr, upperCmp: Expr, id: nat)
    requires Replaced(order, leaves, rawValues, made) && Merges(order, current) && current !in made
    requires Last(order, current, true) == Some(lowerCmp) && Last(order, current, false) == Some(upperCmp)
    ensures var between := BetweenOf(order, current, id);
            Replaced(order, leaves, rawValues - {lowerCmp} - {upperCmp} + {between}, made[current := between])
  {
    var between := BetweenOf(order, current, id);
    var after, more := rawValues - {lowerCmp} - {upperCmp} + {between}, made[current := between];
    forall e ensures IsSpent(order, current, e) <==> e == lowerCmp || e == upperCmp {
    }
    forall e | e in leaves && forall k :: k in more ==> !IsSpent(order, k, e) ensures e in after {
      assert current in more && !IsSpent(order, current, e);
      assert forall k :: k in made ==> k in more;
    }
    forall e | e in after ensures e in more.Values || (e in leaves && forall k :: k in more ==> !IsSpent(order, k, e)) {
      if e == between {
        assert more[current] == e;
      } else if e in made.Values {
        var k :| k in made && made[k] == e;
        assert more[k] == e;
      }
    }
  }

  lemma AllStandMore(order: seq<Expr>, leaves: set<Expr>, cmps: map<Expr, seq<Expr>>, rawValues: set<Expr>, todo: set<Expr>, current: Expr,
                     lowerCmp: Expr, upperCmp: Expr, between: Expr)
    requires Registered(cmps, leaves) && AllStand(cmps, rawValues, todo) && Merges(order, current)
    requires Last(order, current, true) == Some(lowerCmp) && Last(order, current, false) == Some(upperCmp)
    ensures AllStand(cmps, rawValues - {lowerCmp} - {upperCmp} + {between}, todo - {current})
  {
    forall k, c | k in todo - {current} && k in cmps && !k.Const? && c in cmps[k]
      ensures c in rawValues - {lowerCmp} - {upperCmp} + {between}
    {
      if c == lowerCmp || c == upperCmp { SpentOnce(order, current, k, c); }
    }
  }

  lemma PairReplaced(es: set<Expr>, a: Expr, b: Expr, c: Expr)
    requires a in es && b in es && a != b
    ensures |es - {a} - {b} + {c}| <= |es| - 1
    ensures c !in es ==> |es - {a} - {b} + {c}| == |es| - 1
  {
    assert |es - {a} - {b}| == |es| - 2;
    if c in es - {a} - {b} { assert es - {a} - {b} + {c} == es - {a} - {b}; }
  }

  /** What the second loop has done when todo is left. */
  ghost predicate Progress(order: seq<Expr>, cmps: map<Expr, seq<Expr>>, leaves: set<Expr>, rawValues: set<Expr>, made: map<Expr, Expr>, todo: set<Expr>) {
    && Replaced(order, leaves, rawValues, made) && AllStand(cmps, rawValues, todo)
    && (forall k :: k in made <==> k in cmps && k !in todo && Merges(order, k))
  }

  /** How many values there are, next being the next identity. */
  ghost predicate Counted(first: nat, next: nat, leaves: set<Expr>, rawValues: set<Expr>, made: map<Expr, Expr>) {
    && next == first + |made| && |rawValues| <= |leaves| - |made|
    && (Unused(first, leaves) ==> Unused(next, rawValues) && |rawValues| == |leaves| - |made|)
  }

  lemma ProgressMore(order: seq<Expr>, cmps: map<Expr, seq<Expr>>, leaves: set<Expr>, rawValues: set<Expr>, made: map<Expr, Expr>, todo: set<Expr>,
                     current: Expr, lowerCmp: Expr, upperCmp: Expr, id: nat)
    requires Registered(cmps, leaves) && Progress(order, cmps, leaves, rawValues, made, todo) && current in todo && current in cmps
    requires Merges(order, current) && Last(order, current, true) == Some(lowerCmp) && Last(order, current, false) == Some(upperCmp)
    ensures var between := BetweenOf(order, current, id);
            Progress(order, cmps, leaves, rawValues - {lowerCmp} - {upperCmp} + {between}, made[current := between], todo - {current})
  {
    var between := BetweenOf(order, current, id);
    ReplacedMore(order, leaves, rawValues, made, current, lowerCmp, upperCmp, id);
    AllStandMore(order, leaves, cmps, rawValues, todo, current, lowerCmp, upperCmp, between);
  }

  lemma CountedMore(first: nat, id: nat, leaves: set<Expr>, rawValues: set<Expr>, made: map<Expr, Expr>, current: Expr,
                    lowerCmp: Expr, upperCmp: Expr, between: Expr)
    requires Counted(first, id, leaves, rawValues, made) && current !in made
    requires lowerCmp in rawValues && upperCmp in rawValues && lowerCmp != upperCmp && between.Between? && between.id == id
    ensures Counted(first, id + 1, leaves, rawValues - {lowerCmp} - {upperCmp} + {between}, made[current := between])
  {
    PairReplaced(rawValues, lowerCmp, upperCmp, between);
    assert |made[current := between]| == |made| + 1;
  }

  lemma ProgressSkips(order: seq<Expr>, cmps: map<Expr, seq<Expr>>, leaves: set<Expr>, rawValues: set<Expr>, made: map<Expr, Expr>, todo: set<Expr>, current: Expr)
    requires Progress(order, cmps, leaves, rawValues, made, todo) && current in todo && !Merges(order, current)
    ensures Progress(order, cmps, leaves, rawValues, made, todo - {current})
  {
  }

  /** The bounds that are found are the last of all that was visited. */
  lemma FoundBounds(order: seq<Expr>, cmps: map<Expr, seq<Expr>>, rawValues: set<Expr>, todo: set<Expr>, current: Expr, lower: bool)
    requires LastFound(cmps, order) && AllStand(cmps, rawValues, todo) && current in todo && current in cmps && !current.Const?
    ensures Last(Standing(cmps[current], rawValues), current, lower) == Last(order, current, lower)
    ensures Last(order, current, lower).Some? ==> Last(order, current, lower).value in rawValues
  {
    assert Standing(cmps[current], rawValues) == cmps[current];
    assert Last(cmps[current], current, lower) == Last(order, current, lower);
  }

  lemma CandidatesCompare(cmps: map<Expr, seq<Expr>>, leaves: set<Expr>, current: Expr)
    requires Registered(cmps, leaves) && current in cmps
    ensures forall c :: c in cmps[current] ==> c.Cmp? && (c.left == current || c.right == current)
  {
  }

  /** The second loop: one BETWEEN for every operand, in any order, whose last bounds on both sides are constants. */
  method MergeBounds(rewriter: PatternRewriter, ghost order: seq<Expr>, leaves: set<Expr>, cmps: map<Expr, seq<Expr>>)
    returns (rawValues: set<Expr>, ghost made: map<Expr, Expr>)
    requires Registered(cmps, leaves) && LastFound(cmps, order) && forall e :: e in order <==> e in leaves
    modifies rewriter
    ensures Refined(rawValues, leaves)
    ensures made.Keys == Merged(order) && Replaced(order, leaves, rawValues, made)
    ensures |rawValues| <= |leaves| - |made| && rewriter.nextId == old(rewriter.nextId) + |made|
    ensures Unused(old(rewriter.nextId), leaves) ==> |rawValues| == |leaves| - |made|
  {
    rawValues, made := leaves, map[];
    var todo := cmps.Keys;
    while todo != {}
      invariant todo <= cmps.Keys && Refined(rawValues, leaves)
      invariant Progress(order, cmps, leaves, rawValues, made, todo)
      invariant Counted(old(rewriter.nextId), rewriter.nextId, leaves, rawValues, made)
      decreases |todo|
    {
      var current :| current in todo;
      if current.Const? {
        ProgressSkips(order, cmps, leaves, rawValues, made, todo, current);
        todo := todo - {current};
        continue;
      }
      rawValues, made := MergeOne(rewriter, order, leaves, cmps, current, rawValues, made, todo, old(rewriter.nextId));
      todo := todo - {current};
    }
    MadeAll(order, cmps, leaves, made);
  }

  /** The body of the second loop for an operand that is not a constant. */
  method MergeOne(rewriter: PatternRewriter, ghost order: seq<Expr>, ghost leaves: set<Expr>, cmps: map<Expr, seq<Expr>>, current: Expr,
                  rawValues: set<Expr>, ghost made: map<Expr, Expr>, ghost todo: set<Expr>, ghost first: nat)
    returns (after: set<Expr>, ghost more: map<Expr, Expr>)
    requires Registered(cmps, leaves) && LastFound(cmps, order) && Refined(rawValues, leaves)
    requires current in todo && current in cmps && !current.Const?
    requires Progress(order, cmps, leaves, rawValues, made, todo) && Counted(first, rewriter.nextId, leaves, rawValues, made)
    modifies rewriter
    ensures Refined(after, leaves) && Progress(order, cmps, leaves, after, more, todo - {current})
    ensures Counted(first, rewriter.nextId, leaves, after, more)
  {
    after, more := rawValues, made;
    CandidatesCompare(cmps, leaves, current);
    var lower, lowerCmp, upper, upperCmp, hasLower, hasUpper := FindBounds(current, cmps[current], rawValues);
    FoundBounds(order, cmps, rawValues, todo, current, true);
    FoundBounds(order, cmps, rawValues, todo, current, false);
    if hasLower && hasUpper && lower.Const? && upper.Const? {
      var id := rewriter.NewId();
      var between := Between(id, current, lower, upper, Inclusive(lowerCmp), Inclusive(upperCmp));
      MergeRefines(rawValues, leaves, current, lowerCmp, upperCmp, between);
      ProgressMore(order, cmps, leaves, rawValues, made, todo, current, lowerCmp, upperCmp, id);
      CountedMore(first, id, leaves, rawValues, made, current, lowerCmp, upperCmp, between);
      after, more := rawValues - {lowerCmp} - {upperCmp} + {between}, made[current := between];
    } else {
      ProgressSkips(order, cmps, leaves, rawValues, made, todo, current);
    }
  }

  lemma MadeAll(order: seq<Expr>, cmps: map<Expr, seq<Expr>>, leaves: set<Expr>, made: map<Expr, Expr>)
    requires Registered(cmps, leaves) && forall e :: e in order <==> e in leaves
    requires forall k :: k in made <==> k in cmps && Merges(order, k)
    ensures made.Keys == Merged(order)
  {
    forall k | k in made ensures k in Merged(order) {
      var c := Last(order, k, true).value;
      assert c.left in Operands(order) && c.right in Operands(order);
    }
    forall k | k in Merged(order) ensures k in made {
      var c :| c in order && c.Cmp? && (c.left == k || c.right == k);
      assert c in leaves;
    }
  }

  lemma MergeRefines(rawValues: set<Expr>, leaves: set<Expr>, current: Expr, lowerCmp: Expr, upperCmp: Expr, between: Expr)
    requires Refined(rawValues, leaves) && lowerCmp in rawValues && upperCmp in rawValues
    requires Bounds(lowerCmp, current, true) && Bounds(upperCmp, current, false)
    requires OtherOperand(lowerCmp, current).Const? && OtherOperand(upperCmp, current).Const?
    requires between.Between?
    requires between == Between(between.id, current, OtherOperand(lowerCmp, current), OtherOperand(upperCmp, current), Inclusive(lowerCmp), Inclusive(upperCmp))
    ensures Refined(rawValues - {lowerCmp} - {upperCmp} + {between}, leaves)
  {
    SideOf(lowerCmp, current);
    SideOf(upperCmp, current);
    forall s: State ensures AllOf(s, rawValues - {lowerCmp} - {upperCmp} + {between}) == AllOf(s, rawValues) {
      BetweenIsBothBounds(s, between.id, current, lowerCmp, upperCmp, OtherOperand(lowerCmp, current), OtherOperand(upperCmp, current));
      ReplacePair(s, rawValues, lowerCmp, upperCmp, between);
    }
    MergeShrinks(rawValues, lowerCmp, upperCmp, between);
  }

  // ---- The rewrite --------------------------------------------------------------------------------------------

  lemma SeqMeansSet(s: State, id: nat, vals: seq<Expr>, es: set<Expr>)
    requires forall e :: e in vals <==> e in es
    ensures Eval(s, And(id, vals)) == AllOf(s, es)
  {
    if e :| e in es && Eval(s, e) == FALSE {
      assert e in vals;
      var i :| 0 <= i < |vals| && vals[i] == e;
      assert Eval(s, vals[i]) == FALSE;
    }
    if e :| e in es && Eval(s, e) == Null {
      assert e in vals;
      var i :| 0 <= i < |vals| && vals[i] == e;
      assert Eval(s, vals[i]) == Null;
    }
  }

  lemma SingletonMeans(s: State, es: set<Expr>, e: Expr)
    requires es == {e} && (Eval(s, e) == Null || Eval(s, e).Truth?)
    ensures AllOf(s, es) == Eval(s, e)
  {
    assert e in es;
  }

  /** An operand that stands alone after canonicalization is a truth value in every well-typed state. */
  ghost predicate Boolean(s: State, e: Expr) {
    forall x :: x in Leaves(e) ==> Eval(s, x) == Null || Eval(s, x).Truth?
  }

  /** How many operands there are after flattening, deduplication and merging. */
  function OperandsLeft(andOp: Expr): int
    requires andOp.And?
  {
    |Leaves(andOp)| - |Merged(Visited([andOp]))|
  }

  /** Whether the conjunction is replaced. */
  predicate Rewrites(andOp: Expr)
    requires andOp.And?
  {
    OperandsLeft(andOp) == 1 || OperandsLeft(andOp) != |andOp.vals|
  }

  lemma VisitedBelow(andOp: Expr)
    ensures forall e :: e in Visited([andOp]) <==> e in Leaves(andOp)
  {
    VisitedAreLeaves([andOp]);
    assert LeavesOf([andOp]) == Leaves(andOp);
  }

  /** AndOp::canonicalize.  It succeeds exactly when one operand is left or their number has changed.  On success the
      replacement means the same in every state in which the operands are truth values, and is strictly smaller, so
      that rewriting ends; its operands are the leaves of the tree, each once, with a BETWEEN in place of the two last
      bounds of every operand that these bound by constants.  On failure those BETWEENs were created all the same. */
  method Canonicalize(rewriter: PatternRewriter, andOp: Expr) returns (success: bool, result: Expr)
    requires andOp.And?
    modifies rewriter
    ensures forall s: State :: Boolean(s, andOp) ==> Eval(s, result) == Eval(s, andOp)
    ensures success ==> Size(result) < Size(andOp)
    ensures success && result.And? ==>
              (forall v :: v in result.vals ==> !v.And?)
              && (forall i, j :: 0 <= i < j < |result.vals| ==> result.vals[i] != result.vals[j])
              && |result.vals| != |andOp.vals|
    ensures success ==> exists made: map<Expr, Expr> ::
              made.Keys == Merged(Visited([andOp])) && Replaced(Visited([andOp]), Leaves(andOp), Leaves(result), made)
    ensures success ==> forall k :: Mergeable(k, Leaves(andOp)) ==> HasBetween(k, Leaves(result))
    ensures Unused(old(rewriter.nextId), Leaves(andOp)) ==> (success <==> Rewrites(andOp))
    ensures OperandsLeft(andOp) < |andOp.vals| ==> success
    ensures !success ==> result == andOp && rewriter.nextId == old(rewriter.nextId) + |Merged(Visited([andOp]))|
  {
    var leaves, cmps := Flatten(andOp);
    VisitedBelow(andOp);
    var rawValues, made := MergeBounds(rewriter, Visited([andOp]), leaves, cmps);
    assert |made| == |made.Keys|;
    if |rawValues| == 1 {
      success := true;
      result :| result in rawValues;
      OneLeft(andOp, rawValues, result);
      assert Leaves(result) == rawValues;
    } else if |rawValues| != |andOp.vals| {
      success := true;
      var vals := Enumerate(rawValues);
      ListedSize(vals, rawValues);
      var id := rewriter.NewId();
      SeveralLeft(andOp, rawValues, id, vals);
      result := And(id, vals);
      FlatLeaves(vals, rawValues);
    } else {
      success := false;
      result := andOp;
    }
    if success {
      MergedHaveBetween(andOp, rawValues, made);
    }
  }

  lemma MergedHaveBetween(andOp: Expr, after: set<Expr>, made: map<Expr, Expr>)
    requires made.Keys == Merged(Visited([andOp])) && Replaced(Visited([andOp]), Leaves(andOp), after, made)
    ensures forall k :: Mergeable(k, Leaves(andOp)) ==> HasBetween(k, after)
  {
    VisitedBelow(andOp);
    forall k | Mergeable(k, Leaves(andOp)) ensures HasBetween(k, after) {
      MergeableIsMerged(Visited([andOp]), Leaves(andOp), k);
      assert k in made && made[k] in after;
    }
  }

  /** Without order comparisons there is only flattening and deduplication. */
  lemma NothingToMerge(andOp: Expr)
    requires andOp.And? && forall c :: c in Leaves(andOp) ==> !Orders(c)
    ensures Rewrites(andOp) <==> |Leaves(andOp)| == 1 || |Leaves(andOp)| != |andOp.vals|
  {
    VisitedBelow(andOp);
    assert Merged(Visited([andOp])) == {};
  }

  /** With an operand to merge, a conjunction that flattening does not make longer is replaced. */
  lemma SomethingToMerge(andOp: Expr, k: Expr)
    requires andOp.And? && Mergeable(k, Leaves(andOp)) && |Leaves(andOp)| <= |andOp.vals|
    ensures Rewrites(andOp) && OperandsLeft(andOp) < |andOp.vals|
  {
    VisitedBelow(andOp);
    MergeableIsMerged(Visited([andOp]), Leaves(andOp), k);
    assert Merged(Visited([andOp])) != {};
  }

  lemma {:induction false} FlatLeaves(vals: seq<Expr>, es: set<Expr>)
    requires (forall e :: e in vals <==> e in es) && forall e :: e in vals ==> !e.And?
    ensures LeavesOf(vals) == es
  {
    if vals != [] {
      var rest := set e | e in vals[1..];
      FlatLeaves(vals[1..], rest);
      assert vals[0] in vals;
      assert es == {vals[0]} + rest;
    }
  }

  /** A merged operand is a comparison; an unmerged one was an operand of the tree. */
  lemma OneLeft(andOp: Expr, fixed: set<Expr>, e: Expr)
    requires andOp.And? && Refined(fixed, Leaves(andOp)) && |fixed| == 1 && e in fixed
    ensures forall s: State :: Boolean(s, andOp) ==> Eval(s, e) == Eval(s, andOp)
    ensures Size(e) < Size(andOp) && !e.And? && fixed == {e}
  {
    assert |fixed - {e}| == 0;
    assert fixed == {e};
    NoNestedConjunction(andOp);
    LeavesOfSize(andOp.vals);
    SetSizeRemove(fixed, e);
    forall s: State | Boolean(s, andOp) ensures Eval(s, e) == Eval(s, andOp) {
      TreeIsConjunction(s, andOp);
      SingletonMeans(s, fixed, e);
    }
  }

  lemma SeveralLeft(andOp: Expr, fixed: set<Expr>, id: nat, vals: seq<Expr>)
    requires andOp.And? && Refined(fixed, Leaves(andOp)) && |fixed| != |andOp.vals|
    requires |vals| == |fixed| && SizeOf(vals) == SetSize(fixed) && forall e :: e in vals <==> e in fixed
    ensures forall s: State :: Eval(s, And(id, vals)) == Eval(s, andOp)
    ensures Size(And(id, vals)) < Size(andOp)
    ensures forall v :: v in vals ==> !v.And?
  {
    NoNestedConjunction(andOp);
    LeavesOfSize(andOp.vals);
    forall s: State ensures Eval(s, And(id, vals)) == Eval(s, andOp) {
      TreeIsConjunction(s, andOp);
      SeqMeansSet(s, id, vals, fixed);
    }
  }

  /** A nested conjunction is left alone when dropping a duplicate makes up for what flattening adds. */
  lemma NestedIsLeft()
    ensures !Rewrites(And(0, [And(1, [Arg(0), Arg(1)]), Arg(0)]))
  {
    var e := And(0, [And(1, [Arg(0), Arg(1)]), Arg(0)]);
    NothingToMerge(e);
    assert LeavesOf([Arg(0)]) == {Arg(0)};
    assert LeavesOf([Arg(0), Arg(1)]) == {Arg(0), Arg(1)};
    assert Leaves(e) == {Arg(0), Arg(1)};
  }

  /** So are two bounds when merging them does. */
  lemma BoundsAreLeft()
    ensures var low, high := Cmp(2, Gte, Arg(0), Const(3, 1)), Cmp(4, Lte, Arg(0), Const(5, 9));
            var e := And(0, [low, high, And(1, [Arg(1), Arg(2)])]);
            Mergeable(Arg(0), Leaves(e)) && !Rewrites(e)
  {
    var low, high := Cmp(2, Gte, Arg(0), Const(3, 1)), Cmp(4, Lte, Arg(0), Const(5, 9));
    var nested := And(1, [Arg(1), Arg(2)]);
    var e := And(0, [low, high, nested]);
    LeavesOfBounds(low, high);
    VisitedBelow(e);
    var order := Visited([e]);
    assert Mergeable(Arg(0), Leaves(e)) by { assert Compares(low, Arg(0)) && Compares(high, Arg(0)); }
    MergeableIsMerged(order, Leaves(e), Arg(0));
    forall k | k in Merged(order) ensures k == Arg(0) {
      assert Last(order, k, true).value in {low, high};
    }
    assert Merged(order) == {Arg(0)};
    assert |{low, high, Arg(1), Arg(2)}| == 4;
  }

  lemma LeavesOfBounds(low: Expr, high: Expr)
    requires low.Cmp? && high.Cmp?
    ensures Leaves(And(0, [low, high, And(1, [Arg(1), Arg(2)])])) == {low, high, Arg(1), Arg(2)}
  {
    assert LeavesOf([Arg(1), Arg(2)]) == {Arg(1)} + LeavesOf([Arg(2)]);
    assert LeavesOf([Arg(2)]) == {Arg(2)};
    var nested := And(1, [Arg(1), Arg(2)]);
    assert [nested][1..] == [] && LeavesOf([nested]) == Leaves(nested);
    assert [high, nested][1..] == [nested] && LeavesOf([high, nested]) == {high} + Leaves(nested);
    assert [low, high, nested][1..] == [high, nested];
    assert LeavesOf([low, high, nested]) == {low} + LeavesOf([high, nested]);
  }
}
