/**
 * The emitter's translation, as a function of the emitter state: the value
 * mapper and the number of names handed out in the current scope.
 */
module EmissionSpec {
  import opened StructuredIr
  import opened CProgram

  datatype Names = Names(mapper: map<Value, Name>, count: nat)

  /** Result of an emission step: the new state and the code, or a failure. */
  datatype Emitted = Emitted(names: Names, code: seq<Stmt>) | Failed

  function Then(a: Emitted, code: seq<Stmt>): Emitted {
    match a
    case Failed => Failed
    case Emitted(n, rest) => Emitted(n, code + rest)
  }

  /** The state after asking for the name of v. */
  function Naming(n: Names, v: Value): Names {
    if v in n.mapper then n else Names(n.mapper[v := n.count + 1], n.count + 1)
  }

  function NamingAll(n: Names, vs: seq<Value>): (r: Names)
    ensures forall v :: v in n.mapper ==> v in r.mapper && r.mapper[v] == n.mapper[v]
    ensures forall v :: v in vs ==> v in r.mapper
    decreases |vs|
  {
    if vs == [] then n
    else
      var n1 := Naming(n, vs[0]);
      var r := NamingAll(n1, vs[1..]);
      assert forall v :: v in vs ==> v == vs[0] || v in vs[1..];
      r
  }

  function NameOf(n: Names, v: Value): Name {
    if v in n.mapper then n.mapper[v] else 0
  }

  function NamesOf(n: Names, vs: seq<Value>): (r: seq<Name>)
    ensures |r| == |vs|
    ensures forall i :: 0 <= i < |vs| ==> r[i] == NameOf(n, vs[i])
  {
    seq(|vs|, i requires 0 <= i < |vs| => NameOf(n, vs[i]))
  }

  /** "T v;" for every value, failing on one that has a name already. */
  function DeclareAll(n: Names, vs: seq<Value>): Emitted
    decreases |vs|
  {
    if vs == [] then Emitted(n, [])
    else if vs[0] in n.mapper then Failed
    else
      var n1 := Naming(n, vs[0]);
      Then(DeclareAll(n1, vs[1..]), [Declare(NameOf(n1, vs[0]))])
  }

  /** "T target = source;" pair by pair. */
  function InitAll(n: Names, targets: seq<Value>, sources: seq<Value>): Emitted
    decreases |targets|
  {
    if targets == [] || sources == [] then Emitted(n, [])
    else
      var n1 := NamingAll(n, [targets[0], sources[0]]);
      Then(InitAll(n1, targets[1..], sources[1..]),
           [DeclareInit(NameOf(n1, targets[0]), Var(NameOf(n1, sources[0])))])
  }

  /** "target = source;" pair by pair. */
  function CopyAll(n: Names, targets: seq<Value>, sources: seq<Value>): Emitted
    decreases |targets|
  {
    if targets == [] || sources == [] then Emitted(n, [])
    else
      var n1 := NamingAll(n, [targets[0], sources[0]]);
      Then(CopyAll(n1, targets[1..], sources[1..]),
           [Assign(NameOf(n1, targets[0]), NameOf(n1, sources[0]))])
  }

  /** The copies of a printed scf.yield, which insists that operands are in scope. */
  function YieldAll(n: Names, targets: seq<Value>, sources: seq<Value>): Emitted
    decreases |targets|
  {
    if |targets| != |sources| then Failed
    else if targets == [] then Emitted(n, [])
    else
      var n1 := Naming(n, targets[0]);
      if sources[0] !in n1.mapper then Failed
      else
        Then(YieldAll(n1, targets[1..], sources[1..]),
             [Assign(NameOf(n1, targets[0]), NameOf(n1, sources[0]))])
  }

  function EmitOps(n: Names, ops: seq<Op>): Emitted
    decreases ops, 0
  {
    if ops == [] then Emitted(n, [])
    else
      match EmitOp(n, ops[0])
      case Failed => Failed
      case Emitted(n1, code) => Then(EmitOps(n1, ops[1..]), code)
  }

  /** The operations of an scf.if branch followed by its yield. */
  function EmitBranch(n: Names, results: seq<Value>, r: Region): Emitted
    decreases r, 0
  {
    match EmitOps(n, r.ops)
    case Failed => Failed
    case Emitted(n1, code) => Then(YieldAll(n1, results, r.outs), code)
  }

  function EmitOp(n: Names, op: Op): Emitted
    decreases op, 1
  {
    match op
    case Def(result, code, args) =>
      if result in n.mapper then Failed
      else
        var n1 := NamingAll(Naming(n, result), args);
        Emitted(n1, [DeclareInit(NameOf(n1, result), Call(code, NamesOf(n1, args)))])
    case Effect(code, args) =>
      var n1 := NamingAll(n, args);
      Emitted(n1, [Perform(code, NamesOf(n1, args))])
    case For(_, _, _, _, _, _, _, _) => EmitFor(n, op)
    case While(_, _, _, _, _, _, _) => EmitWhile(n, op)
    case If(_, _, _, _) => EmitIf(n, op)
  }

  function EmitFor(n: Names, op: Op): Emitted
    requires op.For?
    decreases op, 0
  {
    match DeclareAll(n, op.results)
    case Failed => Failed
    case Emitted(n1, declared) =>
      match InitAll(n1, op.iterArgs, op.inits)
      case Failed => Failed
      case Emitted(n2, inited) =>
        var n3 := NamingAll(n2, [op.iv, op.lb, op.ub, op.step]);
        match EmitOps(n3, op.body.ops)
        case Failed => Failed
        case Emitted(n4, body) =>
          match CopyAll(n4, op.iterArgs, op.body.outs)
          case Failed => Failed
          case Emitted(n5, copies) =>
            Then(CopyAll(n5, op.results, op.iterArgs),
                 declared + inited +
                 [ForLoop(NameOf(n3, op.iv), NameOf(n3, op.lb), NameOf(n3, op.ub), NameOf(n3, op.step), body + copies)])
  }

  function EmitWhile(n: Names, op: Op): Emitted
    requires op.While?
    decreases op, 0
  {
    match DeclareAll(n, op.results)
    case Failed => Failed
    case Emitted(n1, declared) =>
      match InitAll(n1, op.beforeArgs, op.inits)
      case Failed => Failed
      case Emitted(n2, inited) =>
        match EmitOps(n2, op.before.ops)
        case Failed => Failed
        case Emitted(n3, before) =>
          match InitAll(n3, op.afterArgs, op.before.outs)
          case Failed => Failed
          case Emitted(n4, passed) =>
            match CopyAll(n4, op.results, op.before.outs)
            case Failed => Failed
            case Emitted(n5, copied) =>
              var n6 := Naming(n5, op.cond);
              match EmitOps(n6, op.after.ops)
              case Failed => Failed
              case Emitted(n7, after) =>
                match CopyAll(n7, op.beforeArgs, op.after.outs)
                case Failed => Failed
                case Emitted(n8, copies) =>
                  Emitted(n8, declared + inited +
                              [WhileTrue(before + (passed + copied) + ([BreakUnless(NameOf(n6, op.cond))] + (after + copies)))])
  }

  function EmitIf(n: Names, op: Op): Emitted
    requires op.If?
    decreases op, 0
  {
    match DeclareAll(n, op.results)
    case Failed => Failed
    case Emitted(n1, declared) =>
      if op.cond !in n1.mapper then Failed
      else
        match EmitBranch(n1, op.results, op.thn)
        case Failed => Failed
        case Emitted(n2, thn) =>
          match EmitBranch(n2, op.results, op.els)
          case Failed => Failed
          case Emitted(n3, els) => Emitted(n3, declared + [IfElse(NameOf(n1, op.cond), thn, els)])
  }
}
