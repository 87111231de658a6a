/**
 * The structured SSA input of the C emitter: straight-line operations and the
 * three region-carrying operations scf.for, scf.while and scf.if.
 */
module StructuredIr {
  type Value = nat
  type Mem = map<int, int>
  type Env = map<Value, int>

  /** The meaning of the operations that both languages share: an operation code
      applied to operand values and memory, the loop counter's addition and
      comparison, and the test of a condition. */
  datatype Machine = Machine(
    eval: (nat, seq<int>, Mem) -> (int, Mem),
    add: (int, int) -> int,
    less: (int, int) -> bool,
    truthy: int -> bool)

  datatype Region = Region(ops: seq<Op>, outs: seq<Value>)

  datatype Op =
    | Def(result: Value, code: nat, args: seq<Value>)
    | Effect(code: nat, args: seq<Value>)
    | For(results: seq<Value>, iv: Value, lb: Value, ub: Value, step: Value,
          iterArgs: seq<Value>, inits: seq<Value>, body: Region)
    | While(results: seq<Value>, beforeArgs: seq<Value>, inits: seq<Value>,
            before: Region, cond: Value, afterArgs: seq<Value>, after: Region)
    | If(results: seq<Value>, cond: Value, thn: Region, els: Region)

  // ---- Semantics ------------------------------------------------------------

  datatype Result = Done(env: Env, mem: Mem) | Timeout

  datatype Outcome = Values(vals: seq<int>, mem: Mem) | NoValues

  function Get(env: Env, v: Value): int {
    if v in env then env[v] else 0
  }

  function GetAll(env: Env, vs: seq<Value>): (r: seq<int>)
    ensures |r| == |vs|
    ensures forall i :: 0 <= i < |vs| ==> r[i] == Get(env, vs[i])
  {
    seq(|vs|, i requires 0 <= i < |vs| => Get(env, vs[i]))
  }

  function Bind(env: Env, vs: seq<Value>, vals: seq<int>): Env
    decreases |vs|
  {
    if vs == [] || vals == [] then env
    else Bind(env[vs[0] := vals[0]], vs[1..], vals[1..])
  }

  /** Runs operations in order.  Every loop iteration costs one unit of fuel. */
  function EvalOps(m: Machine, ops: seq<Op>, env: Env, mem: Mem, fuel: nat): Result
    decreases fuel, ops, 1
  {
    if ops == [] then Done(env, mem)
    else
      match EvalOp(m, ops[0], env, mem, fuel)
      case Timeout => Timeout
      case Done(env', mem') => EvalOps(m, ops[1..], env', mem', fuel)
  }

  function EvalRegion(m: Machine, r: Region, env: Env, mem: Mem, fuel: nat): Outcome
    decreases fuel, r, 2
  {
    match EvalOps(m, r.ops, env, mem, fuel)
    case Timeout => NoValues
    case Done(env', mem') => Values(GetAll(env', r.outs), mem')
  }

  function BindResults(env: Env, results: seq<Value>, o: Outcome): Result {
    match o
    case NoValues => Timeout
    case Values(vals, mem) => Done(Bind(env, results, vals), mem)
  }

  function EvalOp(m: Machine, op: Op, env: Env, mem: Mem, fuel: nat): Result
    decreases fuel, op, 3
  {
    match op
    case Def(result, code, args) =>
      var (x, mem') := m.eval(code, GetAll(env, args), mem);
      Done(env[result := x], mem')
    case Effect(code, args) =>
      Done(env, m.eval(code, GetAll(env, args), mem).1)
    case For(results, iv, lb, ub, step, iterArgs, inits, body) =>
      BindResults(env, results, EvalFor(m, op, env, mem, Get(env, lb), GetAll(env, inits), fuel))
    case While(results, beforeArgs, inits, before, cond, afterArgs, after) =>
      BindResults(env, results, EvalWhile(m, op, env, mem, GetAll(env, inits), fuel))
    case If(results, cond, thn, els) =>
      var r := if m.truthy(Get(env, cond)) then thn else els;
      BindResults(env, results, EvalRegion(m, r, env, mem, fuel))
  }

  /** scf.for from counter value i with loop-carried values vals. */
  function EvalFor(m: Machine, op: Op, env: Env, mem: Mem, i: int, vals: seq<int>, fuel: nat): Outcome
    requires op.For?
    decreases fuel, op, 0
  {
    if !m.less(i, Get(env, op.ub)) then Values(vals, mem)
    else if fuel == 0 then NoValues
    else
      match EvalRegion(m, op.body, Bind(env[op.iv := i], op.iterArgs, vals), mem, fuel - 1)
      case NoValues => NoValues
      case Values(vals', mem') =>
        EvalFor(m, op, env, mem', m.add(i, Get(env, op.step)), vals', fuel - 1)
  }

  /** scf.while with loop-carried values vals. */
  function EvalWhile(m: Machine, op: Op, env: Env, mem: Mem, vals: seq<int>, fuel: nat): Outcome
    requires op.While?
    decreases fuel, op, 0
  {
    if fuel == 0 then NoValues
    else
      match EvalOps(m, op.before.ops, Bind(env, op.beforeArgs, vals), mem, fuel - 1)
      case Timeout => NoValues
      case Done(env', mem') =>
        var passed := GetAll(env', op.before.outs);
        if !m.truthy(Get(env', op.cond)) then Values(passed, mem')
        else
          match EvalRegion(m, op.after, Bind(env, op.afterArgs, passed), mem', fuel - 1)
          case NoValues => NoValues
          case Values(vals', mem'') => EvalWhile(m, op, env, mem'', vals', fuel - 1)
  }

  // ---- Well-formedness: what the MLIR verifier guarantees --------------------

  function All(vs: seq<Value>): set<Value> {
    set v | v in vs
  }

  ghost predicate Distinct<T(!new)>(s: seq<T>) {
    forall i, j :: 0 <= i < j < |s| ==> s[i] != s[j]
  }

  function Results(op: Op): set<Value> {
    match op
    case Def(result, _, _) => {result}
    case Effect(_, _) => {}
    case For(results, _, _, _, _, _, _, _) => All(results)
    case While(results, _, _, _, _, _, _) => All(results)
    case If(results, _, _, _) => All(results)
  }

  function ResultsOf(ops: seq<Op>): set<Value> {
    if ops == [] then {} else Results(ops[0]) + ResultsOf(ops[1..])
  }

  /** Every value an operation defines, region arguments and nested results included. */
  function Defs(op: Op): set<Value>
    decreases op, 1
  {
    match op
    case Def(result, _, _) => {result}
    case Effect(_, _) => {}
    case For(results, iv, _, _, _, iterArgs, _, body) =>
      All(results) + All(iterArgs) + {iv} + DefsOf(body.ops)
    case While(results, beforeArgs, _, before, _, afterArgs, after) =>
      All(results) + All(beforeArgs) + DefsOf(before.ops) + All(afterArgs) + DefsOf(after.ops)
    case If(results, _, thn, els) =>
      All(results) + DefsOf(thn.ops) + DefsOf(els.ops)
  }

  function DefsOf(ops: seq<Op>): set<Value>
    decreases ops, 0
  {
    if ops == [] then {} else Defs(ops[0]) + DefsOf(ops[1..])
  }

  /** New values: pairwise different and not defined anywhere before. */
  ghost predicate New(vs: seq<Value>, taken: set<Value>) {
    Distinct(vs) && All(vs) !! taken
  }

  /** A region yields arity values that are visible at its end. */
  ghost predicate YieldsFrom(r: Region, scope: set<Value>, arity: nat) {
    |r.outs| == arity && All(r.outs) <= scope + ResultsOf(r.ops)
  }

  /** op only reads values of scope and defines values outside taken, each once. */
  ghost predicate WfOp(op: Op, scope: set<Value>, taken: set<Value>)
    decreases op, 2
  {
    match op
    case Def(result, code, args) => result !in taken && All(args) <= scope
    case Effect(_, args) => All(args) <= scope
    case For(_, _, _, _, _, _, _, _) => WfFor(op, scope, taken)
    case While(_, _, _, _, _, _, _) => WfWhile(op, scope, taken)
    case If(_, _, _, _) => WfIf(op, scope, taken)
  }

  ghost predicate WfFor(op: Op, scope: set<Value>, taken: set<Value>)
    requires op.For?
    decreases op, 1
  {
    && |op.results| == |op.iterArgs| == |op.inits|
    && {op.lb, op.ub, op.step} + All(op.inits) <= scope
    && New(op.results + op.iterArgs + [op.iv], taken)
    && WfOps(op.body.ops, scope + All(op.iterArgs) + {op.iv}, taken + All(op.results) + All(op.iterArgs) + {op.iv})
    && YieldsFrom(op.body, scope + All(op.iterArgs) + {op.iv}, |op.results|)
  }

  ghost predicate WfWhile(op: Op, scope: set<Value>, taken: set<Value>)
    requires op.While?
    decreases op, 1
  {
    && |op.beforeArgs| == |op.inits| && |op.results| == |op.afterArgs|
    && All(op.inits) <= scope
    && New(op.results + op.beforeArgs, taken)
    && var taken1 := taken + All(op.results) + All(op.beforeArgs);
    && WfOps(op.before.ops, scope + All(op.beforeArgs), taken1)
    && YieldsFrom(op.before, scope + All(op.beforeArgs), |op.results|)
    && op.cond in scope + All(op.beforeArgs) + ResultsOf(op.before.ops)
    && var taken2 := taken1 + DefsOf(op.before.ops);
    && New(op.afterArgs, taken2)
    && WfOps(op.after.ops, scope + All(op.afterArgs), taken2 + All(op.afterArgs))
    && YieldsFrom(op.after, scope + All(op.afterArgs), |op.beforeArgs|)
  }

  ghost predicate WfIf(op: Op, scope: set<Value>, taken: set<Value>)
    requires op.If?
    decreases op, 1
  {
    && op.cond in scope
    && New(op.results, taken)
    && WfOps(op.thn.ops, scope, taken + All(op.results))
    && YieldsFrom(op.thn, scope, |op.results|)
    && WfOps(op.els.ops, scope, taken + All(op.results) + DefsOf(op.thn.ops))
    && YieldsFrom(op.els, scope, |op.results|)
  }

  ghost predicate WfOps(ops: seq<Op>, scope: set<Value>, taken: set<Value>)
    decreases ops, 0
  {
    ops == [] ||
    (WfOp(ops[0], scope, taken) &&
     WfOps(ops[1..], scope + Results(ops[0]), taken + Defs(ops[0])))
  }

  // ---- The condition on the yields of a for ----------------------------------

  /** A later copy reads a target that an earlier copy has already changed. */
  ghost predicate Overwritten<T(!new)>(targets: seq<T>, sources: seq<T>)
    requires |targets| == |sources|
  {
    exists i, j :: 0 <= i < j < |targets| && sources[j] == targets[i] && sources[i] != targets[i]
  }

  /** No scf.for inside op yields an iteration argument that an earlier copy overwrites. */
  ghost predicate SafeYields(op: Op)
    decreases op, 1
  {
    match op
    case Def(_, _, _) => true
    case Effect(_, _) => true
    case For(_, _, _, _, _, iterArgs, _, body) =>
      |iterArgs| == |body.outs| && !Overwritten(iterArgs, body.outs) && SafeYieldsOf(body.ops)
    case While(_, _, _, before, _, _, after) => SafeYieldsOf(before.ops) && SafeYieldsOf(after.ops)
    case If(_, _, thn, els) => SafeYieldsOf(thn.ops) && SafeYieldsOf(els.ops)
  }

  ghost predicate SafeYieldsOf(ops: seq<Op>)
    decreases ops, 0
  {
    ops == [] || (SafeYields(ops[0]) && SafeYieldsOf(ops[1..]))
  }

  // ---- Facts about binding ---------------------------------------------------

  lemma {:induction false} BindFacts(env: Env, vs: seq<Value>, vals: seq<int>)
    requires |vs| == |vals| && Distinct(vs)
    ensures Bind(env, vs, vals).Keys == env.Keys + All(vs)
    ensures forall i :: 0 <= i < |vs| ==> Bind(env, vs, vals)[vs[i]] == vals[i]
    ensures forall v :: v in env && v !in vs ==> Bind(env, vs, vals)[v] == env[v]
    decreases |vs|
  {
    if vs != [] {
      var env1 := env[vs[0] := vals[0]];
      BindFacts(env1, vs[1..], vals[1..]);
      var r := Bind(env1, vs[1..], vals[1..]);
      assert All(vs) == {vs[0]} + All(vs[1..]);
      assert vs[0] !in vs[1..];
      assert r[vs[0]] == vals[0];
      forall i | 0 < i < |vs| ensures r[vs[i]] == vals[i] {
        assert vs[i] == vs[1..][i - 1];
      }
      forall v | v in env && v !in vs ensures r[v] == env[v] {
        assert v !in vs[1..];
      }
    }
  }
}
