/**
 * The emitter object: it hands out names through its value mapper and scope
 * counters and appends to its output as it walks the operations.
 */
module CppEmitters {
  import opened StructuredIr
  import opened CProgram
  import opened EmissionSpec
  import opened EmittedNames

  lemma ThenThen(e: Emitted, a: seq<Stmt>, b: seq<Stmt>)
    ensures Then(Then(e, b), a) == Then(e, a + b)
  {
    if e.Emitted? { assert a + (b + e.code) == (a + b) + e.code; }
  }

  lemma ThenNothing(e: Emitted)
    ensures Then(e, []) == e
  {
    if e.Emitted? { assert [] + e.code == e.code; }
  }

  lemma BranchPrinted(n: Names, results: seq<Value>, r: Region, n1: Names, n2: Names, code: seq<Stmt>, copies: seq<Stmt>)
    requires EmitOps(n, r.ops) == Emitted(n1, code)
    requires YieldAll(n1, results, r.outs) == Emitted(n2, copies)
    ensures EmitBranch(n, results, r) == Emitted(n2, code + copies)
  {
  }

  /** Block after block: the output grows by the declarations and then by the statement. */
  lemma OutputGrows(os0: seq<Stmt>, a: seq<Stmt>, b: seq<Stmt>, s: Stmt, c: seq<Stmt>)
    ensures os0 + a + b + [s] + c == os0 + (a + b + [s] + c)
    ensures os0 + a + b + [s] == os0 + (a + b + [s])
    ensures os0 + a + [s] == os0 + (a + [s])
  {
  }

  class CppEmitter {
    /** C names of the values in scope. */
    var valueMapper: map<Value, Name>
    /** Number of names handed out in the current scope, the top of the counter stack. */
    var count: nat
    /** The counters of the scopes around it. */
    var outerCounts: seq<nat>
    /** The statements of the block being printed. */
    var os: seq<Stmt>

    constructor ()
      ensures valueMapper == map[] && count == 0 && outerCounts == [] && os == []
    {
      valueMapper, count, outerCounts, os := map[], 0, [], [];
    }

    ghost function State(): Names
      reads this
    {
      Names(valueMapper, count)
    }

    method GetOrCreateName(v: Value) returns (x: Name)
      modifies `valueMapper, `count
      ensures State() == Naming(old(State()), v) && x == NameOf(State(), v)
    {
      if v !in valueMapper {
        count := count + 1;
        valueMapper := valueMapper[v := count];
      }
      x := valueMapper[v];
    }

    method GetNames(vs: seq<Value>) returns (xs: seq<Name>)
      modifies `valueMapper, `count
      ensures State() == NamingAll(old(State()), vs) && xs == NamesOf(State(), vs)
    {
      xs := [];
      var i := 0;
      while i < |vs|
        invariant 0 <= i <= |vs|
        invariant NamingAll(State(), vs[i..]) == NamingAll(old(State()), vs)
        invariant |xs| == i && forall k :: 0 <= k < i ==> vs[k] in valueMapper && xs[k] == valueMapper[vs[k]]
      {
        assert vs[i..][1..] == vs[i + 1..];
        var x := GetOrCreateName(vs[i]);
        xs := xs + [x];
        i := i + 1;
      }
    }

    method DeclareResults(results: seq<Value>) returns (ok: bool)
      modifies `valueMapper, `count, `os
      ensures ok == DeclareAll(old(State()), results).Emitted?
      ensures ok ==> State() == DeclareAll(old(State()), results).names
                     && os == old(os) + DeclareAll(old(State()), results).code
    {
      ghost var done: seq<Stmt> := [];
      ThenNothing(DeclareAll(State(), results));
      assert results[0..] == results;
      var i := 0;
      while i < |results|
        invariant 0 <= i <= |results|
        invariant os == old(os) + done
        invariant Then(DeclareAll(State(), results[i..]), done) == DeclareAll(old(State()), results)
      {
        assert results[i..][1..] == results[i + 1..];
        if results[i] in valueMapper {
          return false;
        }
        var x := GetOrCreateName(results[i]);
        ThenThen(DeclareAll(State(), results[i + 1..]), done, [Declare(x)]);
        os := os + [Declare(x)];
        done := done + [Declare(x)];
        i := i + 1;
      }
      ok := true;
    }

    method InitArguments(targets: seq<Value>, sources: seq<Value>)
      modifies `valueMapper, `count, `os
      ensures old(os) <= os && InitAll(old(State()), targets, sources) == Emitted(State(), os[|old(os)|..])
    {
      ghost var done: seq<Stmt> := [];
      ThenNothing(InitAll(State(), targets, sources));
      assert targets[0..] == targets && sources[0..] == sources;
      var i := 0;
      while i < |targets| && i < |sources|
        invariant 0 <= i <= |targets| && i <= |sources|
        invariant os == old(os) + done
        invariant Then(InitAll(State(), targets[i..], sources[i..]), done) == InitAll(old(State()), targets, sources)
      {
        ghost var n := State();
        assert targets[i..][1..] == targets[i + 1..] && sources[i..][1..] == sources[i + 1..];
        var xs := GetNames([targets[i], sources[i]]);
        ThenThen(InitAll(State(), targets[i + 1..], sources[i + 1..]), done, [DeclareInit(xs[0], Var(xs[1]))]);
        os := os + [DeclareInit(xs[0], Var(xs[1]))];
        done := done + [DeclareInit(xs[0], Var(xs[1]))];
        i := i + 1;
      }
      assert os[|old(os)|..] == done;
    }

    method CopyValues(targets: seq<Value>, sources: seq<Value>)
      modifies `valueMapper, `count, `os
      ensures old(os) <= os && CopyAll(old(State()), targets, sources) == Emitted(State(), os[|old(os)|..])
    {
      ghost var done: seq<Stmt> := [];
      ThenNothing(CopyAll(State(), targets, sources));
      assert targets[0..] == targets && sources[0..] == sources;
      var i := 0;
      while i < |targets| && i < |sources|
        invariant 0 <= i <= |targets| && i <= |sources|
        invariant os == old(os) + done
        invariant Then(CopyAll(State(), targets[i..], sources[i..]), done) == CopyAll(old(State()), targets, sources)
      {
        assert targets[i..][1..] == targets[i + 1..] && sources[i..][1..] == sources[i + 1..];
        var xs := GetNames([targets[i], sources[i]]);
        ThenThen(CopyAll(State(), targets[i + 1..], sources[i + 1..]), done, [Assign(xs[0], xs[1])]);
        os := os + [Assign(xs[0], xs[1])];
        done := done + [Assign(xs[0], xs[1])];
        i := i + 1;
      }
      assert os[|old(os)|..] == done;
    }

    method PrintYield(results: seq<Value>, operands: seq<Value>) returns (ok: bool)
      modifies `valueMapper, `count, `os
      ensures ok == YieldAll(old(State()), results, operands).Emitted?
      ensures ok ==> State() == YieldAll(old(State()), results, operands).names
                     && os == old(os) + YieldAll(old(State()), results, operands).code
    {
      if |results| != |operands| {
        return false;
      }
      ghost var done: seq<Stmt> := [];
      ThenNothing(YieldAll(State(), results, operands));
      assert results[0..] == results && operands[0..] == operands;
      var i := 0;
      while i < |results|
        invariant 0 <= i <= |results|
        invariant os == old(os) + done
        invariant Then(YieldAll(State(), results[i..], operands[i..]), done) == YieldAll(old(State()), results, operands)
      {
        assert results[i..][1..] == results[i + 1..] && operands[i..][1..] == operands[i + 1..];
        var x := GetOrCreateName(results[i]);
        if operands[i] !in valueMapper {
          return false;
        }
        var y := GetOrCreateName(operands[i]);
        ThenThen(YieldAll(State(), results[i + 1..], operands[i + 1..]), done, [Assign(x, y)]);
        os := os + [Assign(x, y)];
        done := done + [Assign(x, y)];
        i := i + 1;
      }
      ok := true;
    }

    /** Prints operations one after the other. */
    method EmitOperations(ops: seq<Op>) returns (ok: bool)
      modifies `valueMapper, `count, `os
      ensures ok == EmitOps(old(State()), ops).Emitted?
      ensures ok ==> State() == EmitOps(old(State()), ops).names && os == old(os) + EmitOps(old(State()), ops).code
      decreases ops, 0
    {
      if ops == [] {
        ok := true;
      } else {
        ok := EmitOperation(ops[0]);
        if ok {
          ok := EmitOperations(ops[1..]);
        }
      }
    }

    method EmitOperation(op: Op) returns (ok: bool)
      modifies `valueMapper, `count, `os
      ensures ok == EmitOp(old(State()), op).Emitted?
      ensures ok ==> State() == EmitOp(old(State()), op).names && os == old(os) + EmitOp(old(State()), op).code
      decreases op, 1
    {
      match op
      case Def(result, code, args) =>
        if result in valueMapper {
          return false;
        }
        var x := GetOrCreateName(result);
        var ys := GetNames(args);
        os := os + [DeclareInit(x, Call(code, ys))];
        ok := true;
      case Effect(code, args) =>
        var ys := GetNames(args);
        os := os + [Perform(code, ys)];
        ok := true;
      case For(_, _, _, _, _, _, _, _) => ok := PrintFor(op);
      case While(_, _, _, _, _, _, _) => ok := PrintWhile(op);
      case If(_, _, _, _) => ok := PrintIf(op);
    }

    method PrintFor(op: Op) returns (ok: bool)
      requires op.For?
      modifies `valueMapper, `count, `os
      ensures ok == EmitFor(old(State()), op).Emitted?
      ensures ok ==> State() == EmitFor(old(State()), op).names && os == old(os) + EmitFor(old(State()), op).code
      decreases op, 0
    {
      ghost var os0, n := os, State();
      ok := DeclareResults(op.results);
      if !ok { return; }
      ghost var n1 := State();
      var front := os;
      os := [];
      InitArguments(op.iterArgs, op.inits);
      ghost var inited, n2 := os, State();
      front := front + os;
      var header := GetNames([op.iv, op.lb, op.ub, op.step]);
      ghost var n3 := State();
      os := [];
      ok := EmitOperations(op.body.ops);
      if !ok { return; }
      var body := os;
      ghost var n4 := State();
      os := [];
      CopyValues(op.iterArgs, op.body.outs);
      var copies := os;
      ghost var n5 := State();
      var loop := ForLoop(header[0], header[1], header[2], header[3], body + copies);
      os := [];
      CopyValues(op.results, op.iterArgs);
      ForCode(n, op, n1, n2, n3, n4, n5, State(), DeclareAll(n, op.results).code, inited, body, copies, os);
      OutputGrows(os0, DeclareAll(n, op.results).code, inited, loop, os);
      os := front + [loop] + os;
    }

    method PrintWhile(op: Op) returns (ok: bool)
      requires op.While?
      modifies `valueMapper, `count, `os
      ensures ok == EmitWhile(old(State()), op).Emitted?
      ensures ok ==> State() == EmitWhile(old(State()), op).names && os == old(os) + EmitWhile(old(State()), op).code
      decreases op, 0
    {
      ghost var os0, n := os, State();
      ok := DeclareResults(op.results);
      if !ok { return; }
      ghost var n1 := State();
      var front := os;
      os := [];
      InitArguments(op.beforeArgs, op.inits);
      ghost var inited, n2 := os, State();
      front := front + os;
      os := [];
      ok := EmitOperations(op.before.ops);
      if !ok { return; }
      var before := os;
      ghost var n3 := State();
      os := [];
      InitArguments(op.afterArgs, op.before.outs);
      var passed := os;
      ghost var n4 := State();
      os := [];
      CopyValues(op.results, op.before.outs);
      var copied := os;
      ghost var n5 := State();
      var c := GetOrCreateName(op.cond);
      ghost var n6 := State();
      os := [];
      ok := EmitOperations(op.after.ops);
      if !ok { return; }
      var after := os;
      ghost var n7 := State();
      os := [];
      CopyValues(op.beforeArgs, op.after.outs);
      WhileCode(n, op, n1, n2, n3, n4, n5, n6, n7, State(), DeclareAll(n, op.results).code, inited, before, passed, copied, after, os);
      var loop := WhileTrue(before + (passed + copied) + ([BreakUnless(c)] + (after + os)));
      OutputGrows(os0, DeclareAll(n, op.results).code, inited, loop, []);
      os := front + [loop];
    }

    method PrintIf(op: Op) returns (ok: bool)
      requires op.If?
      modifies `valueMapper, `count, `os
      ensures ok == EmitIf(old(State()), op).Emitted?
      ensures ok ==> State() == EmitIf(old(State()), op).names && os == old(os) + EmitIf(old(State()), op).code
      decreases op, 0
    {
      ghost var os0, n := os, State();
      ok := DeclareResults(op.results);
      if !ok { return; }
      if op.cond !in valueMapper {
        return false;
      }
      ghost var n1 := State();
      var c := GetOrCreateName(op.cond);
      var front := os;
      var thn;
      ok, thn := PrintBranch(op.results, op.thn);
      if !ok { return; }
      var els;
      ok, els := PrintBranch(op.results, op.els);
      if !ok { return; }
      OutputGrows(os0, DeclareAll(n, op.results).code, [], IfElse(c, thn, els), []);
      os := front + [IfElse(c, thn, els)];
    }

    /** Prints a branch into a block of its own. */
    method PrintBranch(results: seq<Value>, r: Region) returns (ok: bool, block: seq<Stmt>)
      modifies `valueMapper, `count, `os
      ensures ok == EmitBranch(old(State()), results, r).Emitted?
      ensures ok ==> EmitBranch(old(State()), results, r) == Emitted(State(), block)
      decreases r, 0
    {
      ghost var n := State();
      os := [];
      block := [];
      ok := EmitOperations(r.ops);
      if !ok { return; }
      ghost var n1, code := State(), os;
      ok := PrintYield(results, r.outs);
      if !ok { return; }
      BranchPrinted(n, results, r, n1, State(), code, YieldAll(n1, results, r.outs).code);
      block := os;
    }

    /** Prints a function body in a scope of its own: its names are gone afterwards. */
    method EmitFunction(params: seq<Value>, ops: seq<Op>) returns (ok: bool, xs: seq<Name>)
      modifies this
      ensures count == old(count) && outerCounts == old(outerCounts) && valueMapper == old(valueMapper)
      ensures var n := NamingAll(old(State()), params);
              && xs == NamesOf(n, params)
              && ok == EmitOps(n, ops).Emitted?
              && (ok ==> os == old(os) + EmitOps(n, ops).code)
    {
      var outerMapper := valueMapper;
      outerCounts := outerCounts + [count];
      xs := GetNames(params);
      ok := EmitOperations(ops);
      count, outerCounts := outerCounts[|outerCounts| - 1], outerCounts[..|outerCounts| - 1];
      valueMapper := outerMapper;
    }
  }
}
