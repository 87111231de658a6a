/**
 * The C subset the emitter produces, with block scoping: a variable declared in
 * a block disappears at its closing brace, declaring a visible name again or
 * reading a name that is not visible or not yet assigned is an error.
 */
module CProgram {
  import opened Options
  import opened StructuredIr

  /** The number n stands for the C identifier "v" followed by the decimal digits of n. */
  type Name = nat

  datatype Expr = Var(x: Name) | Call(code: nat, args: seq<Name>)

  datatype Stmt =
    | Declare(x: Name)
    | DeclareInit(x: Name, e: Expr)
    | Assign(x: Name, y: Name)
    | Perform(code: nat, args: seq<Name>)
    | ForLoop(iv: Name, lb: Name, ub: Name, step: Name, body: seq<Stmt>)
    | WhileTrue(body: seq<Stmt>)
    | BreakUnless(c: Name)
    | IfElse(c: Name, thn: seq<Stmt>, els: seq<Stmt>)

  /** Visible variables; None marks a declared variable without a value. */
  type Store = map<Name, Option<int>>

  datatype Run = Next(store: Store, mem: Mem) | Broke(store: Store, mem: Mem) | OutOfFuel | Stuck

  predicate Ready(st: Store, xs: seq<Name>) {
    forall x :: x in xs ==> x in st && st[x].Some?
  }

  function Load(st: Store, xs: seq<Name>): (r: seq<int>)
    requires Ready(st, xs)
    ensures |r| == |xs|
    ensures forall i :: 0 <= i < |xs| ==> r[i] == st[xs[i]].value
  {
    seq(|xs|, i requires 0 <= i < |xs| => st[xs[i]].value)
  }

  /** What is left of an inner store when its block ends. */
  function Leave(inner: Store, outer: Store): Store {
    map x | x in outer && x in inner :: inner[x]
  }

  function LeaveBlock(r: Run, outer: Store): Run {
    match r
    case Next(st, mem) => Next(Leave(st, outer), mem)
    case Broke(st, mem) => Broke(Leave(st, outer), mem)
    case OutOfFuel => OutOfFuel
    case Stuck => Stuck
  }

  function RunStmts(m: Machine, ss: seq<Stmt>, st: Store, mem: Mem, fuel: nat): Run
    decreases fuel, ss, 1
  {
    if ss == [] then Next(st, mem)
    else
      match RunStmt(m, ss[0], st, mem, fuel)
      case Next(st', mem') => RunStmts(m, ss[1..], st', mem', fuel)
      case Broke(st', mem') => Broke(st', mem')
      case OutOfFuel => OutOfFuel
      case Stuck => Stuck
  }

  function RunStmt(m: Machine, s: Stmt, st: Store, mem: Mem, fuel: nat): Run
    decreases fuel, s, 2
  {
    match s
    case Declare(x) =>
      if x in st then Stuck else Next(st[x := None], mem)
    case DeclareInit(x, Var(y)) =>
      if x in st || !Ready(st, [y]) then Stuck else Next(st[x := st[y]], mem)
    case DeclareInit(x, Call(code, args)) =>
      if x in st || !Ready(st, args) then Stuck
      else
        var (v, mem') := m.eval(code, Load(st, args), mem);
        Next(st[x := Some(v)], mem')
    case Assign(x, y) =>
      if x !in st || !Ready(st, [y]) then Stuck else Next(st[x := st[y]], mem)
    case Perform(code, args) =>
      if !Ready(st, args) then Stuck else Next(st, m.eval(code, Load(st, args), mem).1)
    case ForLoop(iv, lb, ub, step, body) =>
      if iv in st || !Ready(st, [lb]) then Stuck
      else LeaveBlock(RunFor(m, s, st[iv := st[lb]], mem, fuel), st)
    case WhileTrue(body) =>
      RunWhile(m, s, st, mem, fuel)
    case BreakUnless(c) =>
      if !Ready(st, [c]) then Stuck
      else if m.truthy(st[c].value) then Next(st, mem)
      else Broke(st, mem)
    case IfElse(c, thn, els) =>
      if !Ready(st, [c]) then Stuck
      else if m.truthy(st[c].value) then LeaveBlock(RunStmts(m, thn, st, mem, fuel), st)
      else LeaveBlock(RunStmts(m, els, st, mem, fuel), st)
  }

  function RunFor(m: Machine, s: Stmt, st: Store, mem: Mem, fuel: nat): Run
    requires s.ForLoop?
    decreases fuel, s, 0
  {
    if !Ready(st, [s.iv, s.ub]) then Stuck
    else if !m.less(st[s.iv].value, st[s.ub].value) then Next(st, mem)
    else if fuel == 0 then OutOfFuel
    else
      match LeaveBlock(RunStmts(m, s.body, st, mem, fuel - 1), st)
      case Next(st', mem') =>
        if !Ready(st', [s.iv, s.step]) then Stuck
        else RunFor(m, s, st'[s.iv := Some(m.add(st'[s.iv].value, st'[s.step].value))], mem', fuel - 1)
      case Broke(st', mem') => Next(st', mem')
      case OutOfFuel => OutOfFuel
      case Stuck => Stuck
  }

  function RunWhile(m: Machine, s: Stmt, st: Store, mem: Mem, fuel: nat): Run
    requires s.WhileTrue?
    decreases fuel, s, 0
  {
    if fuel == 0 then OutOfFuel
    else
      match LeaveBlock(RunStmts(m, s.body, st, mem, fuel - 1), st)
      case Next(st', mem') => RunWhile(m, s, st', mem', fuel - 1)
      case Broke(st', mem') => Next(st', mem')
      case OutOfFuel => OutOfFuel
      case Stuck => Stuck
  }

  lemma RunForExits(m: Machine, s: Stmt, st: Store, mem: Mem, fuel: nat)
    requires s.ForLoop? && Ready(st, [s.iv]) && Ready(st, [s.ub]) && s.iv in st && s.ub in st && st[s.iv].Some? && st[s.ub].Some?
    requires !m.less(st[s.iv].value, st[s.ub].value)
    ensures RunFor(m, s, st, mem, fuel) == Next(st, mem)
  {
    assert s.iv in [s.iv] && s.ub in [s.ub];
  }

  lemma RunForTurns(m: Machine, s: Stmt, st: Store, mem: Mem, fuel: nat)
    requires s.ForLoop? && Ready(st, [s.iv]) && Ready(st, [s.ub]) && s.iv in st && s.ub in st && st[s.iv].Some? && st[s.ub].Some?
    requires m.less(st[s.iv].value, st[s.ub].value)
    ensures fuel == 0 ==> RunFor(m, s, st, mem, fuel) == OutOfFuel
    ensures fuel > 0 ==>
      var r := LeaveBlock(RunStmts(m, s.body, st, mem, fuel - 1), st);
      && (r == OutOfFuel ==> RunFor(m, s, st, mem, fuel) == OutOfFuel)
      && (r.Next? && Ready(r.store, [s.iv, s.step]) && s.iv in r.store && s.step in r.store && r.store[s.iv].Some? && r.store[s.step].Some? ==>
            RunFor(m, s, st, mem, fuel) ==
            RunFor(m, s, r.store[s.iv := Some(m.add(r.store[s.iv].value, r.store[s.step].value))], r.mem, fuel - 1))
  {
    assert s.iv in [s.iv] && s.ub in [s.ub];
    assert s.iv in [s.iv, s.step] && s.step in [s.iv, s.step];
  }

  lemma RunWhileTurns(m: Machine, s: Stmt, st: Store, mem: Mem, fuel: nat, turn: Run)
    requires s.WhileTrue? && fuel > 0
    requires turn == LeaveBlock(RunStmts(m, s.body, st, mem, fuel - 1), st)
    ensures turn == OutOfFuel ==> RunWhile(m, s, st, mem, fuel) == OutOfFuel
    ensures turn.Broke? ==> RunWhile(m, s, st, mem, fuel) == Next(turn.store, turn.mem)
    ensures turn.Next? ==> RunWhile(m, s, st, mem, fuel) == RunWhile(m, s, turn.store, turn.mem, fuel - 1)
  {
  }

  lemma {:induction false} RunConcat(m: Machine, a: seq<Stmt>, b: seq<Stmt>, st: Store, mem: Mem, fuel: nat)
    ensures RunStmts(m, a + b, st, mem, fuel) ==
            (match RunStmts(m, a, st, mem, fuel)
             case Next(st', mem') => RunStmts(m, b, st', mem', fuel)
             case Broke(st', mem') => Broke(st', mem')
             case OutOfFuel => OutOfFuel
             case Stuck => Stuck)
    decreases |a|
  {
    if a == [] {
      assert a + b == b;
    } else {
      assert (a + b)[1..] == a[1..] + b;
      match RunStmt(m, a[0], st, mem, fuel)
      case Next(st', mem') => RunConcat(m, a[1..], b, st', mem', fuel);
      case _ =>
    }
  }

  /** A statement between the code a, which ends normally, and the code b. */
  lemma RunAround(m: Machine, a: seq<Stmt>, s: Stmt, b: seq<Stmt>, st: Store, mem: Mem, st': Store, fuel: nat)
    requires RunStmts(m, a, st, mem, fuel) == Next(st', mem)
    ensures RunStmts(m, a + [s] + b, st, mem, fuel) ==
            (match RunStmt(m, s, st', mem, fuel)
             case Next(st'', mem') => RunStmts(m, b, st'', mem', fuel)
             case Broke(st'', mem') => Broke(st'', mem')
             case OutOfFuel => OutOfFuel
             case Stuck => Stuck)
  {
    assert a + [s] + b == a + ([s] + b);
    RunConcat(m, a, [s] + b, st, mem, fuel);
    assert ([s] + b)[1..] == b;
  }

  /** A conditional break between the code a and the code b. */
  lemma RunAroundBreak(m: Machine, a: seq<Stmt>, c: Name, b: seq<Stmt>, st: Store, mem: Mem, fuel: nat)
    ensures RunStmts(m, a, st, mem, fuel) == OutOfFuel ==>
              RunStmts(m, a + ([BreakUnless(c)] + b), st, mem, fuel) == OutOfFuel
    ensures var r := RunStmts(m, a, st, mem, fuel);
            r.Next? && c in r.store && r.store[c].Some? ==>
              RunStmts(m, a + ([BreakUnless(c)] + b), st, mem, fuel) ==
              if m.truthy(r.store[c].value) then RunStmts(m, b, r.store, r.mem, fuel) else Broke(r.store, r.mem)
  {
    RunConcat(m, a, [BreakUnless(c)] + b, st, mem, fuel);
    assert ([BreakUnless(c)] + b)[1..] == b;
  }
}
