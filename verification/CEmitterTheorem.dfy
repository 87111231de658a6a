/** The main results about the C emitter, for whole functions. */
module EmissionTheorems {
  import opened Options
  import opened StructuredIr
  import opened CProgram
  import opened EmissionSpec
  import opened EmittedCopies
  import opened EmittedNames
  import opened EmissionCorrect

  /** The emitter state after printing the parameter list of a function. */
  function Entry(params: seq<Value>): Names {
    NamingAll(Names(map[], 0), params)
  }

  /** The C variables of the parameters, holding the arguments. */
  function Arguments(params: seq<Value>, args: seq<int>): Store {
    Put(map[], NamesOf(Entry(params), params), args)
  }

  lemma EntryGood(params: seq<Value>)
    requires Distinct(params)
    ensures Good(Entry(params)) && Entry(params).mapper.Keys == All(params)
  {
    NamingAllGrows(Names(map[], 0), params);
  }

  lemma EntryAgrees(params: seq<Value>, args: seq<int>)
    requires Distinct(params) && |params| == |args|
    ensures Agree(Entry(params), Bind(map[], params, args), Arguments(params, args))
    ensures Bounded(Entry(params), Arguments(params, args))
    ensures Bind(map[], params, args).Keys == All(params)
  {
    var n := Entry(params);
    var xs := NamesOf(n, params);
    EntryGood(params);
    CarriedAgrees(n, params, map[], args, map[]);
    AllNamed(n, params);
    NamesOfDistinct(n, params);
    PutFacts(map[], xs, args);
    assert All(params) <= n.mapper.Keys;
    forall x | x in Arguments(params, args) ensures x <= n.count {
      var k :| 0 <= k < |xs| && xs[k] == x;
      assert n.mapper[params[k]] == x;
    }
  }

  /** Printing a well-formed function never fails, and the values that are live together,
      whatever the nesting, have different C names. */
  lemma EmissionSucceeds(params: seq<Value>, ops: seq<Op>)
    requires Distinct(params) && WfOps(ops, All(params), All(params))
    ensures EmitOps(Entry(params), ops).Emitted?
    ensures var n := EmitOps(Entry(params), ops).names;
            && n.mapper.Keys == All(params) + DefsOf(ops)
            && (forall v :: v in params ==> v in Entry(params).mapper && n.mapper[v] == Entry(params).mapper[v])
            && (forall u, v {:trigger n.mapper[u], n.mapper[v]} :: u in n.mapper && v in n.mapper && u != v ==> n.mapper[u] != n.mapper[v])
  {
    EntryGood(params);
    var n, code := EmitOpsGrows(Entry(params), ops, All(params));
    AllNamed(Entry(params), params);
    forall u, v | u in n.mapper && v in n.mapper && u != v ensures n.mapper[u] != n.mapper[v] {
      assert Owner(n, n.mapper[u]) != Owner(n, n.mapper[v]);
    }
  }

  /** Compiler correctness: for every function, all arguments, every memory and every amount of
      fuel, the emitted C code diverges with the structured program or ends with its memory and
      with every visible value in the variable that carries its name. */
  lemma EmissionPreservesMeaning(m: Machine, params: seq<Value>, ops: seq<Op>, args: seq<int>, mem: Mem, fuel: nat)
    requires Distinct(params) && |params| == |args|
    requires WfOps(ops, All(params), All(params)) && SafeYieldsOf(ops)
    ensures EmitOps(Entry(params), ops).Emitted?
    ensures var e := EmitOps(Entry(params), ops);
            var run := RunStmts(m, e.code, Arguments(params, args), mem, fuel);
            match EvalOps(m, ops, Bind(map[], params, args), mem, fuel)
            case Timeout => run == OutOfFuel
            case Done(env, mem') =>
              && run.Next? && run.mem == mem'
              && env.Keys == All(params) + ResultsOf(ops)
              && (forall v {:trigger env[v]} :: v in env ==>
                    v in e.names.mapper && e.names.mapper[v] in run.store && run.store[e.names.mapper[v]] == Some(env[v]))
  {
    EmissionSucceeds(params, ops);
    EntryGood(params);
    EntryAgrees(params, args);
    var e := EmitOps(Entry(params), ops);
    OpsMirror(m, Entry(params), ops, e.names, e.code, Bind(map[], params, args), mem, Arguments(params, args), fuel);
  }

  /** The copies printed at the end of a for body implement its yield exactly when no yielded
      iteration argument has been overwritten by an earlier copy. */
  lemma YieldCopiesExactly(n: Names, iterArgs: seq<Value>, outs: seq<Value>)
    requires Good(n) && |iterArgs| == |outs| && Distinct(iterArgs)
    requires All(iterArgs) <= n.mapper.Keys && All(outs) <= n.mapper.Keys
    ensures var ts, ss := NamesOf(n, iterArgs), NamesOf(n, outs);
            (forall st: Store :: Ready(st, ss) ==> CopiedAtOnce(st, CopiedInOrder(st, ts, ss), ts, ss))
            <==> !Overwritten(iterArgs, outs)
  {
    AllNamed(n, iterArgs);
    AllNamed(n, outs);
    var ts, ss := NamesOf(n, iterArgs), NamesOf(n, outs);
    NamesOfDistinct(n, iterArgs);
    CopiesAreSimultaneousIff(ts, ss);
    if !Overwritten(iterArgs, outs) {
      NamesOfNotOverwritten(n, iterArgs, outs);
    } else {
      var i, j :| 0 <= i < j < |iterArgs| && outs[j] == iterArgs[i] && outs[i] != iterArgs[i];
      assert outs[i] in outs && iterArgs[i] in iterArgs;
      assert Owner(n, n.mapper[outs[i]]) != Owner(n, n.mapper[iterArgs[i]]);
      assert ss[j] == ts[i] && ss[i] != ts[i];
    }
  }

  // ---- A loop that swaps its iteration arguments ----------------------------------------

  /** for i = v0 to v1 step v2 iter_args(v6 = v3, v7 = v4) { yield v7, v6 } */
  function SwapLoop(): Op {
    For([8, 9], 5, 0, 1, 2, [6, 7], [3, 4], Region([], [7, 6]))
  }

  function Integers(): Machine {
    Machine((code, args, mem) => (0, mem), (x, y) => x + y, (x, y) => x < y, x => x != 0)
  }

  /** The values of the parameters in front of the swapping loop. */
  function SwapEnv(): Env {
    map[0 := 0, 1 := 1, 2 := 1, 3 := 30, 4 := 40]
  }

  lemma SwapBinds()
    ensures Bind(map[], [0, 1, 2, 3, 4], [0, 1, 1, 30, 40]) == SwapEnv()
  {
    var vs, xs, e := [0, 1, 2, 3, 4], [0, 1, 1, 30, 40], SwapEnv();
    BindFacts(map[], vs, xs);
    var r := Bind(map[], vs, xs);
    assert r[vs[0]] == 0 && r[vs[1]] == 1 && r[vs[2]] == 1 && r[vs[3]] == 30 && r[vs[4]] == 40;
    assert r.Keys == {0, 1, 2, 3, 4};
  }

  lemma BindPair(env: Env, u: Value, v: Value, x: int, y: int)
    ensures Bind(env, [u, v], [x, y]) == env[u := x][v := y]
  {
    assert [u, v][1..] == [v] && [x, y][1..] == [y];
    assert Bind(env[u := x], [v], [y]) == env[u := x][v := y];
  }

  /** One iteration swaps the values in the structured program. */
  lemma SwapLoopSwaps()
    ensures EvalOps(Integers(), [SwapLoop()], SwapEnv(), map[], 1) == Done(SwapEnv()[8 := 40][9 := 30], map[])
  {
    var m, op, env := Integers(), SwapLoop(), SwapEnv();
    BindPair(env[5 := 0], 6, 7, 30, 40);
    var inner := env[5 := 0][6 := 30][7 := 40];
    assert GetAll(inner, [7, 6]) == [40, 30];
    assert EvalRegion(m, op.body, inner, map[], 0) == Values([40, 30], map[]);
    assert EvalFor(m, op, env, map[], 1, [40, 30], 0) == Values([40, 30], map[]);
    assert EvalFor(m, op, env, map[], 0, [30, 40], 1) == Values([40, 30], map[]);
    assert GetAll(env, op.inits) == [30, 40];
    BindPair(env, 8, 9, 40, 30);
    assert [op][1..] == [];
  }

  function SwapCode(): seq<Stmt> {
    [Declare(6), Declare(7), DeclareInit(8, Var(4)), DeclareInit(9, Var(5)),
     ForLoop(10, 1, 2, 3, [Assign(8, 9), Assign(9, 8)]), Assign(6, 8), Assign(7, 9)]
  }

  lemma NamingCons(n: Names, v: Value, vs: seq<Value>)
    ensures NamingAll(n, [v] + vs) == NamingAll(Naming(n, v), vs)
  {
    assert ([v] + vs)[1..] == vs;
  }

  /** The emitter states of the swapping loop: at its start, with its results declared, with its
      iteration arguments initialised, and in its body. */
  function SwapNames(k: nat): Names
    requires k <= 3
  {
    if k == 0 then Names(map[0 := 1, 1 := 2, 2 := 3, 3 := 4, 4 := 5], 5)
    else if k == 1 then Names(SwapNames(0).mapper[8 := 6][9 := 7], 7)
    else if k == 2 then Names(SwapNames(1).mapper[6 := 8][7 := 9], 9)
    else Names(SwapNames(2).mapper[5 := 10], 10)
  }

  lemma SwapEntry()
    ensures Entry([0, 1, 2, 3, 4]) == SwapNames(0)
  {
    var n := Names(map[], 0);
    assert [0, 1, 2, 3, 4] == [0] + ([1] + ([2] + ([3] + ([4] + []))));
    NamingCons(n, 0, [1] + ([2] + ([3] + ([4] + []))));
    n := Naming(n, 0);
    NamingCons(n, 1, [2] + ([3] + ([4] + [])));
    n := Naming(n, 1);
    NamingCons(n, 2, [3] + ([4] + []));
    n := Naming(n, 2);
    NamingCons(n, 3, [4] + []);
    n := Naming(n, 3);
    NamingCons(n, 4, []);
  }

  lemma SwapDeclared()
    ensures DeclareAll(SwapNames(0), [8, 9]) == Emitted(SwapNames(1), [Declare(6), Declare(7)])
  {
    assert [8, 9][1..] == [9] && [9][1..] == [];
  }

  lemma SwapInitialised()
    ensures InitAll(SwapNames(1), [6, 7], [3, 4]) == Emitted(SwapNames(2), [DeclareInit(8, Var(4)), DeclareInit(9, Var(5))])
  {
    SwapArgumentsNamed();
    InitPair(SwapNames(1), SwapArgument(), SwapNames(2), 6, 7, 3, 4);
  }

  /** With the first iteration argument named. */
  function SwapArgument(): Names {
    Names(SwapNames(1).mapper[6 := 8], 8)
  }

  lemma SwapArgumentsNamed()
    ensures NamingAll(SwapNames(1), [6, 3]) == SwapArgument() && NamingAll(SwapArgument(), [7, 4]) == SwapNames(2)
    ensures NameOf(SwapArgument(), 6) == 8 && NameOf(SwapArgument(), 3) == 4
    ensures NameOf(SwapNames(2), 7) == 9 && NameOf(SwapNames(2), 4) == 5
  {
    NamingAllPair(SwapNames(1), 6, 3);
    NamingAllPair(SwapArgument(), 7, 4);
  }

  lemma InitPair(n: Names, n1: Names, n2: Names, t: Value, u: Value, v: Value, w: Value)
    requires NamingAll(n, [t, v]) == n1 && NamingAll(n1, [u, w]) == n2
    ensures InitAll(n, [t, u], [v, w])
            == Emitted(n2, [DeclareInit(NameOf(n1, t), Var(NameOf(n1, v))), DeclareInit(NameOf(n2, u), Var(NameOf(n2, w)))])
  {
    assert [t, u][1..] == [u] && [v, w][1..] == [w];
    assert [u][1..] == [] && [w][1..] == [];
    assert InitAll(n1, [u], [w]) == Emitted(n2, [DeclareInit(NameOf(n2, u), Var(NameOf(n2, w)))]);
  }

  lemma SwapHead()
    ensures NamingAll(SwapNames(2), [5, 0, 1, 2]) == SwapNames(3)
  {
    assert [5, 0, 1, 2] == [5] + [0, 1, 2];
    NamingCons(SwapNames(2), 5, [0, 1, 2]);
    NamingAllKnown(SwapNames(3), [0, 1, 2]);
  }

  lemma SwapCopied()
    ensures CopyAll(SwapNames(3), [6, 7], [7, 6]) == Emitted(SwapNames(3), [Assign(8, 9), Assign(9, 8)])
    ensures CopyAll(SwapNames(3), [8, 9], [6, 7]) == Emitted(SwapNames(3), [Assign(6, 8), Assign(7, 9)])
  {
    var n3 := SwapNames(3);
    CopyAllShape(n3, [6, 7], [7, 6]);
    CopyAllShape(n3, [8, 9], [6, 7]);
    CopyPair(NamesOf(n3, [6, 7]), NamesOf(n3, [7, 6]));
    CopyPair(NamesOf(n3, [8, 9]), NamesOf(n3, [6, 7]));
  }

  lemma SwapLoopEmitted()
    ensures EmitOps(SwapNames(0), [SwapLoop()]) == Emitted(SwapNames(3), SwapCode())
  {
    var op := SwapLoop();
    SwapDeclared();
    SwapInitialised();
    SwapHead();
    SwapCopied();
    var n0, n3 := SwapNames(0), SwapNames(3);
    var declared, inited := [Declare(6), Declare(7)], [DeclareInit(8, Var(4)), DeclareInit(9, Var(5))];
    var copies, finals := [Assign(8, 9), Assign(9, 8)], [Assign(6, 8), Assign(7, 9)];
    ForCode(n0, op, SwapNames(1), SwapNames(2), n3, n3, n3, n3, declared, inited, [], copies, finals);
    SwapNamed();
    SwapCodeAssembled();
    EmitSingleFor(n0, op, n3, SwapCode());
  }

  lemma SwapCodeAssembled()
    ensures [Declare(6), Declare(7)] + [DeclareInit(8, Var(4)), DeclareInit(9, Var(5))] +
            [ForLoop(10, 1, 2, 3, [] + [Assign(8, 9), Assign(9, 8)])] + [Assign(6, 8), Assign(7, 9)] == SwapCode()
  {
    assert [] + [Assign(8, 9), Assign(9, 8)] == [Assign(8, 9), Assign(9, 8)];
  }

  lemma SwapNamed()
    ensures NameOf(SwapNames(3), 5) == 10 && NameOf(SwapNames(3), 0) == 1 && NameOf(SwapNames(3), 1) == 2 && NameOf(SwapNames(3), 2) == 3
    ensures NameOf(SwapNames(3), 8) == 6 && NameOf(SwapNames(3), 9) == 7
  {
  }

  lemma EmitSingleFor(n: Names, op: Op, n': Names, code: seq<Stmt>)
    requires op.For? && EmitFor(n, op) == Emitted(n', code)
    ensures EmitOps(n, [op]) == Emitted(n', code)
  {
    assert [op][1..] == [];
    assert code + [] == code;
  }

  lemma NamingAllPair(n: Names, u: Value, v: Value)
    requires v in n.mapper
    ensures NamingAll(n, [u, v]) == Naming(n, u)
  {
    assert [u, v][1..] == [v];
    NamingAllKnown(Naming(n, u), [v]);
  }

  lemma CopyPair(ts: seq<Name>, ss: seq<Name>)
    requires |ts| == |ss| == 2
    ensures Copies(ts, ss) == [Assign(ts[0], ss[0]), Assign(ts[1], ss[1])]
  {
    assert ts[1..] == [ts[1]] && ss[1..] == [ss[1]];
    assert Copies([ts[1]], [ss[1]]) == [Assign(ts[1], ss[1])] by { assert [ts[1]][1..] == [] && [ss[1]][1..] == []; }
  }

  /** The store in front of the swapping loop's code. */
  function SwapStore(): Store {
    map[1 := Some(0), 2 := Some(1), 3 := Some(1), 4 := Some(30), 5 := Some(40)]
  }

  /** The store in front of the printed loop. */
  function AfterIntro(): (st: Store)
    ensures 6 in st && 7 in st && BeforeSwap(st)
  {
    SwapStore()[6 := None][7 := None][8 := Some(30)][9 := Some(40)]
  }

  lemma IntroStep(m: Machine, c: seq<Stmt>, st: Store, x: Name, y: Name)
    requires |c| >= 1 && c[0] == DeclareInit(x, Var(y)) && x !in st && y in st && st[y].Some?
    ensures RunStmts(m, c, st, map[], 1) == RunStmts(m, c[1..], st[x := st[y]], map[], 1)
  {
    assert Ready(st, [y]);
  }

  lemma DeclareStep(m: Machine, c: seq<Stmt>, st: Store, x: Name)
    requires |c| >= 1 && c[0] == Declare(x) && x !in st
    ensures RunStmts(m, c, st, map[], 1) == RunStmts(m, c[1..], st[x := None], map[], 1)
  {
  }

  lemma SwapIntro()
    ensures RunStmts(Integers(), [Declare(6), Declare(7), DeclareInit(8, Var(4)), DeclareInit(9, Var(5))], SwapStore(), map[], 1)
            == Next(AfterIntro(), map[])
  {
    var m, st := Integers(), SwapStore();
    var c := [Declare(6), Declare(7), DeclareInit(8, Var(4)), DeclareInit(9, Var(5))];
    DeclareStep(m, c, st, 6);
    DeclareStep(m, c[1..], st[6 := None], 7);
    IntroStep(m, c[2..], st[6 := None][7 := None], 8, 4);
    IntroStep(m, c[3..], st[6 := None][7 := None][8 := Some(30)], 9, 5);
  }

  lemma RunFirst(m: Machine, c: seq<Stmt>, st: Store, mem: Mem, st': Store, fuel: nat)
    requires c != [] && RunStmt(m, c[0], st, mem, fuel) == Next(st', mem)
    ensures RunStmts(m, c, st, mem, fuel) == RunStmts(m, c[1..], st', mem, fuel)
  {
  }

  /** The copies behind the loop. */
  lemma SwapFinals(m: Machine, st: Store, fuel: nat)
    requires 6 in st && 7 in st && 8 in st && 9 in st && st[8].Some? && st[9].Some?
    ensures RunStmts(m, [Assign(6, 8), Assign(7, 9)], st, map[], fuel) == Next(st[6 := st[8]][7 := st[9]], map[])
  {
    var c := [Assign(6, 8), Assign(7, 9)];
    var st1 := st[6 := st[8]];
    RunAssign(m, 6, 8, st, map[], fuel);
    RunFirst(m, c, st, map[], st1, fuel);
    RunAssign(m, 7, 9, st1, map[], fuel);
    RunFirst(m, c[1..], st1, map[], st1[7 := st[9]], fuel);
  }

  lemma SwapRest(m: Machine, st4: Store, loop: Stmt)
    requires m == Integers() && 6 in st4 && 7 in st4 && BeforeSwap(st4)
    requires loop == ForLoop(10, 1, 2, 3, [Assign(8, 9), Assign(9, 8)])
    ensures RunStmts(m, [loop] + [Assign(6, 8), Assign(7, 9)], st4, map[], 1)
            == Next(st4[8 := Some(40)][6 := Some(40)][7 := Some(40)], map[])
  {
    SwapIteration(st4);
    var c := [loop] + [Assign(6, 8), Assign(7, 9)];
    RunFirst(m, c, st4, map[], st4[8 := Some(40)], 1);
    assert c[1..] == [Assign(6, 8), Assign(7, 9)];
    SwapFinals(m, st4[8 := Some(40)], 1);
  }

  /** The emitted loop leaves 40 in both results. */
  lemma SwapLoopMiscompiled()
    ensures var run := RunStmts(Integers(), SwapCode(), SwapStore(), map[], 1);
            run.Next? && 6 in run.store && 7 in run.store && run.store[6] == Some(40) && run.store[7] == Some(40)
  {
    var m, intro := Integers(), [Declare(6), Declare(7), DeclareInit(8, Var(4)), DeclareInit(9, Var(5))];
    var rest := [ForLoop(10, 1, 2, 3, [Assign(8, 9), Assign(9, 8)])] + [Assign(6, 8), Assign(7, 9)];
    SwapIntro();
    SwapRest(m, AfterIntro(), rest[0]);
    RunConcat(m, intro, rest, SwapStore(), map[], 1);
    assert SwapCode() == intro + rest;
  }

  lemma PutStep(st: Store, x: Name, v: int, xs: seq<Name>, vals: seq<int>)
    ensures Put(st, [x] + xs, [v] + vals) == Put(st[x := Some(v)], xs, vals)
  {
    assert ([x] + xs)[1..] == xs && ([v] + vals)[1..] == vals;
  }

  lemma SwapPut()
    ensures Put(map[], [1] + ([2] + ([3] + ([4] + ([5] + [])))), [0] + ([1] + ([1] + ([30] + ([40] + []))))) == SwapStore()
  {
    var a: Store := map[];
    PutStep(a, 1, 0, [2] + ([3] + ([4] + ([5] + []))), [1] + ([1] + ([30] + ([40] + []))));
    var b := a[1 := Some(0)];
    PutStep(b, 2, 1, [3] + ([4] + ([5] + [])), [1] + ([30] + ([40] + [])));
    var c := b[2 := Some(1)];
    PutStep(c, 3, 1, [4] + ([5] + []), [30] + ([40] + []));
    var d := c[3 := Some(1)];
    PutStep(d, 4, 30, [5] + [], [40] + []);
    var e := d[4 := Some(30)];
    PutStep(e, 5, 40, [], []);
    assert e[5 := Some(40)] == SwapStore();
  }

  lemma SwapArgumentNames()
    ensures NamesOf(SwapNames(0), [0, 1, 2, 3, 4]) == [1] + ([2] + ([3] + ([4] + ([5] + []))))
  {
  }

  lemma SwapArguments()
    ensures Arguments([0, 1, 2, 3, 4], [0, 1, 1, 30, 40]) == SwapStore()
  {
    SwapEntry();
    SwapArgumentNames();
    SwapPut();
    assert [0, 1, 1, 30, 40] == [0] + ([1] + ([1] + ([30] + ([40] + []))));
  }

  /** The variables that the emitted loop reads and writes. */
  predicate BeforeSwap(st: Store) {
    && 10 !in st && 1 in st && 2 in st && 3 in st && 8 in st && 9 in st
    && st[1] == Some(0) && st[2] == Some(1) && st[3] == Some(1) && st[8] == Some(30) && st[9] == Some(40)
  }

  lemma RunAssign(m: Machine, x: Name, y: Name, st: Store, mem: Mem, fuel: nat)
    requires x in st && y in st && st[y].Some?
    ensures RunStmt(m, Assign(x, y), st, mem, fuel) == Next(st[x := st[y]], mem)
  {
  }

  /** The second copy reads what the first has written. */
  lemma SwapBody(m: Machine, head: Store, fuel: nat)
    requires 8 in head && 9 in head && head[8].Some? && head[9].Some?
    ensures RunStmts(m, [Assign(8, 9), Assign(9, 8)], head, map[], fuel) == Next(head[8 := head[9]], map[])
  {
    var c := [Assign(8, 9), Assign(9, 8)];
    var copied := head[8 := head[9]];
    RunAssign(m, 8, 9, head, map[], fuel);
    RunFirst(m, c, head, map[], copied, fuel);
    RunAssign(m, 9, 8, copied, map[], fuel);
    assert copied[9 := copied[8]] == copied;
    RunFirst(m, c[1..], copied, map[], copied, fuel);
  }

  lemma SwapTurn(m: Machine, loop: Stmt, head: Store)
    requires m == Integers() && loop == ForLoop(10, 1, 2, 3, [Assign(8, 9), Assign(9, 8)])
    requires 10 in head && head[10] == Some(0) && BeforeSwap(head - {10})
    ensures RunFor(m, loop, head, map[], 1) == Next(head[8 := Some(40)][10 := Some(1)], map[])
  {
    var copied := head[8 := Some(40)];
    SwapBody(m, head, 0);
    assert Leave(copied, head) == copied;
    RunForTurns(m, loop, head, map[], 1);
    RunForExits(m, loop, copied[10 := Some(1)], map[], 0);
  }

  /** The only iteration of the emitted loop. */
  lemma SwapIteration(st4: Store)
    requires BeforeSwap(st4)
    ensures RunStmt(Integers(), ForLoop(10, 1, 2, 3, [Assign(8, 9), Assign(9, 8)]), st4, map[], 1) == Next(st4[8 := Some(40)], map[])
  {
    var loop := ForLoop(10, 1, 2, 3, [Assign(8, 9), Assign(9, 8)]);
    var head := st4[10 := Some(0)];
    assert head - {10} == st4;
    SwapTurn(Integers(), loop, head);
    assert Leave(head[8 := Some(40)][10 := Some(1)], st4) == st4[8 := Some(40)];
  }

  /** The swapping loop is accepted input, but not covered by the side condition. */
  lemma SwapLoopWellFormed()
    ensures WfOps([SwapLoop()], All([0, 1, 2, 3, 4]), All([0, 1, 2, 3, 4]))
    ensures !SafeYields(SwapLoop())
  {
    var op := SwapLoop();
    assert [op][1..] == [];
    assert op.results + op.iterArgs + [op.iv] == [8, 9, 6, 7, 5];
    SwapYieldOverwritten();
  }

  lemma SwapYieldOverwritten()
    ensures !SafeYields(SwapLoop())
  {
    assert Overwritten([6, 7], [7, 6]) by {
      assert [7, 6][1] == [6, 7][0] && [7, 6][0] != [6, 7][0];
    }
  }

  /** Without the side condition meaning is lost: the second result of the swapping loop is 30,
      and the variable that carries its name ends with 40. */
  lemma SwapLoopIsNotPreserved()
    ensures var src := EvalOps(Integers(), [SwapLoop()], Bind(map[], [0, 1, 2, 3, 4], [0, 1, 1, 30, 40]), map[], 1);
            var e := EmitOps(Entry([0, 1, 2, 3, 4]), [SwapLoop()]);
            && src.Done? && Get(src.env, 9) == 30
            && e.Emitted?
            && var run := RunStmts(Integers(), e.code, Arguments([0, 1, 2, 3, 4], [0, 1, 1, 30, 40]), map[], 1);
               run.Next? && NameOf(e.names, 9) in run.store && run.store[NameOf(e.names, 9)] == Some(40)
  {
    SwapLoopSwaps();
    SwapBinds();
    SwapEntry();
    SwapArguments();
    SwapNamed();
    SwapLoopEmitted();
    SwapLoopMiscompiled();
  }
}
