/**
 * The emitted C program computes exactly what the structured program computes,
 * provided no scf.for yields an iteration argument that an earlier copy overwrote.
 */
module EmissionCorrect {
  import opened Options
  import opened StructuredIr
  import opened CProgram
  import opened EmissionSpec
  import opened EmittedCopies
  import opened EmittedNames

  /** Every value of env sits, assigned, in the variable that carries its name. */
  ghost predicate Agree(n: Names, env: Env, st: Store) {
    forall v {:trigger env[v]} :: v in env ==>
      v in n.mapper && n.mapper[v] in st && st[n.mapper[v]] == Some(env[v])
  }

  /** Only names that were handed out are declared. */
  ghost predicate Bounded(n: Names, st: Store) {
    forall x {:trigger x in st} :: x in st ==> x <= n.count
  }

  /** The run kept every variable of st and only added names handed out between n and n'. */
  ghost predicate Framed(n: Names, n': Names, st: Store, st': Store) {
    && (forall x {:trigger st'[x]} {:trigger st[x]} :: x in st ==> x in st' && st'[x] == st[x])
    && (forall x {:trigger x in st'} :: x in st' ==> x in st || n.count < x <= n'.count)
  }

  /** The C run mirrors the structured run: same memory, same values, nothing clobbered. */
  ghost predicate Mirrors(n: Names, n': Names, env: Env, st: Store, src: Result, run: Run) {
    match src
    case Timeout => run == OutOfFuel
    case Done(env', mem') =>
      && run.Next? && run.mem == mem'
      && Agree(n', env', run.store)
      && Framed(n, n', st, run.store)
      && (forall v {:trigger env'[v]} {:trigger env[v]} :: v in env ==> v in env' && env'[v] == env[v])
  }

  lemma FramedThen(n: Names, n1: Names, n2: Names, st: Store, st1: Store, st2: Store)
    requires Framed(n, n1, st, st1) && Framed(n1, n2, st1, st2) && n.count <= n1.count <= n2.count
    ensures Framed(n, n2, st, st2)
  {
  }

  lemma FramedBounded(n: Names, n': Names, st: Store, st': Store)
    requires Bounded(n, st) && Framed(n, n', st, st') && n.count <= n'.count
    ensures Bounded(n', st')
  {
  }

  lemma MirrorsThen(n: Names, n1: Names, n2: Names, env: Env, st: Store, env1: Env, mem1: Mem, st1: Store, src: Result, run: Run)
    requires n.count <= n1.count <= n2.count
    requires Mirrors(n, n1, env, st, Done(env1, mem1), Next(st1, mem1))
    requires Mirrors(n1, n2, env1, st1, src, run)
    ensures Mirrors(n, n2, env, st, src, run)
  {
    if src.Done? {
      FramedThen(n, n1, n2, st, st1, run.store);
    }
  }

  lemma LoadAgreed(n: Names, env: Env, st: Store, vs: seq<Value>)
    requires Agree(n, env, st) && All(vs) <= env.Keys
    ensures Ready(st, NamesOf(n, vs))
    ensures Load(st, NamesOf(n, vs)) == GetAll(env, vs)
    ensures forall v :: v in vs ==> v in n.mapper
  {
    var xs := NamesOf(n, vs);
    forall i | 0 <= i < |vs| ensures xs[i] in st && st[xs[i]] == Some(Get(env, vs[i])) && vs[i] in n.mapper {
      assert vs[i] in All(vs);
      assert env[vs[i]] == Get(env, vs[i]);
    }
    forall x | x in xs ensures x in st && st[x].Some? {
      var i :| 0 <= i < |xs| && xs[i] == x;
    }
  }

  lemma ReadyAgreed(n: Names, env: Env, st: Store, v: Value)
    requires Agree(n, env, st) && v in env
    ensures Ready(st, [NameOf(n, v)]) && st[NameOf(n, v)] == Some(Get(env, v))
  {
    assert env[v] == Get(env, v);
  }

  // ---- Sequences of operations -----------------------------------------------------

  lemma {:induction false} OpsMirror(m: Machine, n: Names, ops: seq<Op>, n': Names, code: seq<Stmt>,
                                     env: Env, mem: Mem, st: Store, fuel: nat)
    requires WfOps(ops, env.Keys, n.mapper.Keys) && SafeYieldsOf(ops) && Good(n)
    requires Agree(n, env, st) && Bounded(n, st)
    requires EmitOps(n, ops) == Emitted(n', code)
    ensures Mirrors(n, n', env, st, EvalOps(m, ops, env, mem, fuel), RunStmts(m, code, st, mem, fuel))
    ensures EvalOps(m, ops, env, mem, fuel).Done? ==>
              EvalOps(m, ops, env, mem, fuel).env.Keys == env.Keys + ResultsOf(ops)
    decreases fuel, ops, 1
  {
    if ops != [] {
      AgreeInScope(n, env, st);
      var n1, code1, code2 := EmitOpsSplit(n, ops, n', code, env.Keys);
      OpMirrors(m, n, ops[0], n1, code1, env, mem, st, fuel);
      RunConcat(m, code1, code2, st, mem, fuel);
      match EvalOp(m, ops[0], env, mem, fuel)
      case Timeout =>
      case Done(env1, mem1) =>
        var st1 := RunStmts(m, code1, st, mem, fuel).store;
        FramedBounded(n, n1, st, st1);
        OpsMirror(m, n1, ops[1..], n', code2, env1, mem1, st1, fuel);
        MirrorsThen(n, n1, n', env, st, env1, mem1, st1, EvalOps(m, ops[1..], env1, mem1, fuel),
                    RunStmts(m, code2, st1, mem1, fuel));
        AddedUp(env.Keys, Results(ops[0]), ResultsOf(ops[1..]));
    }
  }

  lemma AddedUp(a: set<Value>, b: set<Value>, c: set<Value>)
    ensures a + b + c == a + (b + c)
  {
  }

  /** Printing operations is printing the first and then the rest. */
  lemma EmitOpsSplit(n: Names, ops: seq<Op>, n': Names, code: seq<Stmt>, scope: set<Value>)
    returns (n1: Names, code1: seq<Stmt>, code2: seq<Stmt>)
    requires ops != [] && WfOps(ops, scope, n.mapper.Keys) && scope <= n.mapper.Keys && Good(n)
    requires EmitOps(n, ops) == Emitted(n', code)
    ensures EmitOp(n, ops[0]) == Emitted(n1, code1) && EmitOps(n1, ops[1..]) == Emitted(n', code2) && code == code1 + code2
    ensures Good(n1) && n.count <= n1.count <= n'.count
    ensures WfOps(ops[1..], scope + Results(ops[0]), n1.mapper.Keys)
  {
    n1, code1 := EmitOpGrows(n, ops[0], scope);
    code2 := EmitOps(n1, ops[1..]).code;
    assert Results(ops[0]) <= Defs(ops[0]);
    var n2, c2 := EmitOpsGrows(n1, ops[1..], scope + Results(ops[0]));
  }

  lemma AgreeInScope(n: Names, env: Env, st: Store)
    requires Agree(n, env, st)
    ensures env.Keys <= n.mapper.Keys
  {
    forall v | v in env ensures v in n.mapper { assert env[v] == env[v]; }
  }

  lemma {:induction false} OpMirrors(m: Machine, n: Names, op: Op, n': Names, code: seq<Stmt>,
                                     env: Env, mem: Mem, st: Store, fuel: nat)
    requires WfOp(op, env.Keys, n.mapper.Keys) && SafeYields(op) && Good(n)
    requires Agree(n, env, st) && Bounded(n, st)
    requires EmitOp(n, op) == Emitted(n', code)
    ensures Mirrors(n, n', env, st, EvalOp(m, op, env, mem, fuel), RunStmts(m, code, st, mem, fuel))
    ensures EvalOp(m, op, env, mem, fuel).Done? ==>
              EvalOp(m, op, env, mem, fuel).env.Keys == env.Keys + Results(op)
    decreases fuel, op, 3
  {
    AgreeInScope(n, env, st);
    match op
    case Def(result, c, args) => DefMirrors(m, n, op, n', code, env, mem, st, fuel);
    case Effect(c, args) =>
      LoadAgreed(n, env, st, args);
      NamingAllKnown(n, args);
    case For(_, _, _, _, _, _, _, _) => ForMirrors(m, n, op, n', code, env, mem, st, fuel);
    case While(_, _, _, _, _, _, _) => WhileMirrors(m, n, op, n', code, env, mem, st, fuel);
    case If(_, _, _, _) => IfMirrors(m, n, op, n', code, env, mem, st, fuel);
  }

  lemma DefMirrors(m: Machine, n: Names, op: Op, n': Names, code: seq<Stmt>, env: Env, mem: Mem, st: Store, fuel: nat)
    requires op.Def? && WfOp(op, env.Keys, n.mapper.Keys) && Good(n)
    requires Agree(n, env, st) && Bounded(n, st)
    requires EmitOp(n, op) == Emitted(n', code)
    ensures Mirrors(n, n', env, st, EvalOp(m, op, env, mem, fuel), RunStmts(m, code, st, mem, fuel))
    ensures EvalOp(m, op, env, mem, fuel).env.Keys == env.Keys + Results(op)
  {
    AgreeInScope(n, env, st);
    var n1, code1 := EmitDefGrows(n, op, env.Keys);
    LoadAgreed(n, env, st, op.args);
    RunInit(m, n.count + 1, op.code, NamesOf(n, op.args), st, mem, fuel);
  }

  lemma RunInit(m: Machine, x: Name, c: nat, xs: seq<Name>, st: Store, mem: Mem, fuel: nat)
    requires Ready(st, xs)
    ensures RunStmts(m, [DeclareInit(x, Call(c, xs))], st, mem, fuel) == RunStmt(m, DeclareInit(x, Call(c, xs)), st, mem, fuel)
  {
    assert [DeclareInit(x, Call(c, xs))][1..] == [];
  }

  // ---- Structured operations -------------------------------------------------------

  lemma NewNames(n: Names, n1: Names, vs: seq<Value>, st: Store)
    requires Good(n1) && Extends(n, n1) && All(vs) <= n1.mapper.Keys
    requires New(vs, n.mapper.Keys) && Bounded(n, st)
    ensures Distinct(NamesOf(n1, vs))
    ensures forall x :: x in NamesOf(n1, vs) ==> x !in st && n.count < x <= n1.count
  {
    forall v | v in vs ensures v in n1.mapper && v !in n.mapper { assert v in All(vs); }
    NamesOfDistinct(n1, vs);
    var xs := NamesOf(n1, vs);
    forall x | x in xs ensures x !in st && n.count < x <= n1.count {
      var i :| 0 <= i < |xs| && xs[i] == x;
      assert vs[i] in vs;
    }
  }

  lemma AgreeKept(n: Names, n1: Names, env: Env, st: Store, st1: Store)
    requires Agree(n, env, st) && Extends(n, n1)
    requires forall x :: x in st ==> x in st1 && st1[x] == st[x]
    ensures Agree(n1, env, st1)
  {
  }

  lemma DisjointNotOverwritten<T(!new)>(ts: seq<T>, ss: seq<T>)
    requires |ts| == |ss| && forall x :: x in ts ==> x !in ss
    ensures !Overwritten(ts, ss)
  {
    forall i, j | 0 <= i < j < |ts| ensures ss[j] != ts[i] {
      assert ts[i] in ts && ss[j] in ss;
    }
  }

  /** st with the variables xs holding vals. */
  function Put(st: Store, xs: seq<Name>, vals: seq<int>): Store
    decreases |xs|
  {
    if xs == [] || vals == [] then st
    else Put(st[xs[0] := Some(vals[0])], xs[1..], vals[1..])
  }

  /** A normal end with the values of a region in the variables xs, or no end. */
  function Delivered(st: Store, xs: seq<Name>, o: Outcome): Run {
    match o
    case NoValues => OutOfFuel
    case Values(vals, mem) => Next(Put(st, xs, vals), mem)
  }

  lemma {:induction false} PutFacts(st: Store, xs: seq<Name>, vals: seq<int>)
    requires |xs| == |vals| && Distinct(xs)
    ensures Put(st, xs, vals).Keys == st.Keys + (set x | x in xs)
    ensures forall k :: 0 <= k < |xs| ==> Put(st, xs, vals)[xs[k]] == Some(vals[k])
    ensures forall x :: x in st && x !in xs ==> Put(st, xs, vals)[x] == st[x]
    decreases |xs|
  {
    if xs != [] {
      var st1 := st[xs[0] := Some(vals[0])];
      PutFacts(st1, xs[1..], vals[1..]);
      assert xs[0] !in xs[1..];
      assert xs == [xs[0]] + xs[1..];
      forall k | 0 < k < |xs| ensures Put(st, xs, vals)[xs[k]] == Some(vals[k]) {
        assert xs[k] == xs[1..][k - 1];
      }
    }
  }

  /** A store is determined by its keys, the values of xs and the rest. */
  lemma PutUnique(st: Store, st': Store, xs: seq<Name>, vals: seq<int>)
    requires |xs| == |vals| && Distinct(xs)
    requires st'.Keys == st.Keys + (set x | x in xs)
    requires forall k :: 0 <= k < |xs| ==> st'[xs[k]] == Some(vals[k])
    requires forall x :: x in st && x !in xs ==> st'[x] == st[x]
    ensures st' == Put(st, xs, vals)
  {
    PutFacts(st, xs, vals);
    var p := Put(st, xs, vals);
    forall x | x in st' ensures st'[x] == p[x] {
      if x in xs {
        var k :| 0 <= k < |xs| && xs[k] == x;
      }
    }
  }

  /** Putting what is there already. */
  lemma PutSame(st: Store, xs: seq<Name>, vals: seq<int>)
    requires |xs| == |vals| && Distinct(xs) && forall k :: 0 <= k < |xs| ==> xs[k] in st && st[xs[k]] == Some(vals[k])
    ensures st == Put(st, xs, vals)
  {
    assert st.Keys + (set x | x in xs) == st.Keys;
    PutUnique(st, st, xs, vals);
  }

  lemma NamesWithin(n: Names, vs: seq<Value>, st: Store)
    requires forall x :: x in NamesOf(n, vs) ==> x in st
    ensures (set x | x in NamesOf(n, vs)) <= st.Keys
  {
  }

  /** Once the variables of its results hold the values of a structured operation, it is mirrored. */
  lemma ResultsMirror(n: Names, n': Names, results: seq<Value>, env: Env, vals: seq<int>, mem: Mem, st: Store, st': Store)
    requires Good(n') && Extends(n, n') && All(results) <= n'.mapper.Keys && New(results, n.mapper.Keys)
    requires Agree(n, env, st) && |vals| == |results|
    requires Framed(n, n', st, st')
    requires forall k :: 0 <= k < |results| ==> NameOf(n', results[k]) in st' && st'[NameOf(n', results[k])] == Some(vals[k])
    ensures Mirrors(n, n', env, st, Done(Bind(env, results, vals), mem), Next(st', mem))
    ensures Bind(env, results, vals).Keys == env.Keys + All(results)
  {
    BindFacts(env, results, vals);
    AgreeInScope(n, env, st);
    var env' := Bind(env, results, vals);
    forall v | v in env' ensures v in n'.mapper && n'.mapper[v] in st' && st'[n'.mapper[v]] == Some(env'[v]) {
      if v in results {
        var k :| 0 <= k < |results| && results[k] == v;
        assert v in All(results);
      } else {
        assert v !in All(results) && v in env && env'[v] == env[v];
        assert st[n.mapper[v]] == Some(env[v]);
      }
    }
    forall v | v in env ensures env'[v] == env[v] {
      assert v !in All(results);
    }
  }

  /** The copies of a yield whose earlier copies do not overwrite later operands. */
  lemma YieldCopies(m: Machine, n: Names, targets: seq<Value>, sources: seq<Value>, env: Env,
                    mem: Mem, st: Store, fuel: nat)
    requires Good(n) && |targets| == |sources| && Distinct(targets)
    requires All(targets) <= n.mapper.Keys && All(sources) <= env.Keys
    requires !Overwritten(targets, sources)
    requires Agree(n, env, st) && forall x :: x in NamesOf(n, targets) ==> x in st
    ensures RunStmts(m, Copies(NamesOf(n, targets), NamesOf(n, sources)), st, mem, fuel)
            == Next(Put(st, NamesOf(n, targets), GetAll(env, sources)), mem)
  {
    var xs, ys := NamesOf(n, targets), NamesOf(n, sources);
    LoadAgreed(n, env, st, sources);
    forall v | v in targets ensures v in n.mapper { assert v in All(targets); }
    NamesOfDistinct(n, targets);
    NamesOfNotOverwritten(n, targets, sources);
    RunCopies(m, xs, ys, st, mem, fuel);
    OrderedCopiesAreSimultaneous(st, xs, ys);
    forall k | 0 <= k < |xs| ensures st[ys[k]] == Some(GetAll(env, sources)[k]) {
      assert Load(st, ys)[k] == GetAll(env, sources)[k];
      assert ys[k] in ys;
    }
    PutUnique(st, CopiedInOrder(st, xs, ys), xs, GetAll(env, sources));
  }

  // ---- scf.if ----------------------------------------------------------------------

  /** A region followed by the copies of its yield, run as a block: all that is left of it
      are its yields in the target variables. */
  lemma {:induction false} BlockMirrors(m: Machine, n: Names, targets: seq<Value>, r: Region, n': Names, code: seq<Stmt>,
                                        env: Env, mem: Mem, st: Store, fuel: nat)
    requires WfOps(r.ops, env.Keys, n.mapper.Keys) && YieldsFrom(r, env.Keys, |targets|) && SafeYieldsOf(r.ops)
    requires Good(n) && Distinct(targets) && All(targets) <= n.mapper.Keys && !Overwritten(targets, r.outs)
    requires Agree(n, env, st) && Bounded(n, st) && forall x :: x in NamesOf(n, targets) ==> x in st
    requires EmitOps(n, r.ops) == Emitted(n', code)
    ensures LeaveBlock(RunStmts(m, code + Copies(NamesOf(n', targets), NamesOf(n', r.outs)), st, mem, fuel), st)
            == Delivered(st, NamesOf(n, targets), EvalRegion(m, r, env, mem, fuel))
    decreases fuel, r, 2
  {
    AgreeInScope(n, env, st);
    var n1, code1 := EmitOpsGrows(n, r.ops, env.Keys);
    OpsMirror(m, n, r.ops, n', code, env, mem, st, fuel);
    var copies := Copies(NamesOf(n', targets), NamesOf(n', r.outs));
    RunConcat(m, code, copies, st, mem, fuel);
    match EvalOps(m, r.ops, env, mem, fuel)
    case Timeout =>
    case Done(env1, mem1) =>
      var st1 := RunStmts(m, code, st, mem, fuel).store;
      forall v | v in targets ensures v in n.mapper { assert v in All(targets); }
      NamesOfKept(n, n', targets);
      YieldCopies(m, n', targets, r.outs, env1, mem1, st1, fuel);
      NamesOfDistinct(n, targets);
      PutLeaves(st, st1, NamesOf(n, targets), GetAll(env1, r.outs));
  }

  lemma ResultsNotYielded(n: Names, results: seq<Value>, r: Region, scope: set<Value>)
    requires WfOps(r.ops, scope, n.mapper.Keys) && YieldsFrom(r, scope, |results|)
    requires All(results) <= n.mapper.Keys - scope
    ensures !Overwritten(results, r.outs)
  {
    ResultsAreDefs(r.ops);
    DefsAreNew(r.ops, scope, n.mapper.Keys);
    forall v | v in results ensures v !in r.outs {
      assert v in All(results);
      assert v in r.outs ==> v in All(r.outs);
    }
    DisjointNotOverwritten(results, r.outs);
  }

  /** Leaving the block keeps what was put into the variables declared outside it. */
  lemma PutLeaves(st: Store, st1: Store, xs: seq<Name>, vals: seq<int>)
    requires |xs| == |vals| && Distinct(xs)
    requires forall x :: x in st ==> x in st1 && st1[x] == st[x]
    requires forall x :: x in xs ==> x in st
    ensures Leave(Put(st1, xs, vals), st) == Put(st, xs, vals)
  {
    PutFacts(st1, xs, vals);
    var left := Leave(Put(st1, xs, vals), st);
    assert forall x :: x in st ==> x in left;
    forall k | 0 <= k < |xs| ensures left[xs[k]] == Some(vals[k]) { assert xs[k] in xs; }
    PutUnique(st, left, xs, vals);
  }

  /** An if statement runs one of its branches as a block. */
  lemma RunIf(m: Machine, c: Name, thn: seq<Stmt>, els: seq<Stmt>, st: Store, mem: Mem, fuel: nat)
    requires Ready(st, [c])
    ensures RunStmts(m, [IfElse(c, thn, els)], st, mem, fuel)
            == LeaveBlock(RunStmts(m, if m.truthy(st[c].value) then thn else els, st, mem, fuel), st)
  {
    assert c in [c];
    assert [IfElse(c, thn, els)][1..] == [];
  }

  /** The emitter states around the branches of an scf.if. */
  ghost predicate IfNamed(n: Names, n2: Names, n3: Names, op: Op)
    requires op.If?
  {
    var n1 := NamingAll(n, op.results);
    && Good(n1) && Good(n2) && Good(n3)
    && Extends(n, n1) && Extends(n, n2) && Extends(n1, n2) && Extends(n, n3)
    && n1.mapper.Keys == n.mapper.Keys + All(op.results)
    && n2.mapper.Keys == n.mapper.Keys + All(op.results) + DefsOf(op.thn.ops)
    && All(op.results) <= n3.mapper.Keys
    && NamesOf(n2, op.results) == NamesOf(n1, op.results) == NamesOf(n3, op.results)
  }

  /** What printing an scf.if yields. */
  function IfText(n: Names, op: Op, n2: Names, n3: Names, c2: seq<Stmt>, c3: seq<Stmt>): seq<Stmt>
    requires op.If? && |op.thn.outs| == |op.results| == |op.els.outs|
  {
    var n1 := NamingAll(n, op.results);
    var xs := NamesOf(n1, op.results);
    Declares(xs) +
    [IfElse(NameOf(n1, op.cond), c2 + Copies(xs, NamesOf(n2, op.thn.outs)), c3 + Copies(xs, NamesOf(n3, op.els.outs)))]
  }

  /** The two branches of a printed scf.if with the emitter states around them. */
  lemma IfShape(n: Names, op: Op, scope: set<Value>) returns (n2: Names, n3: Names, c2: seq<Stmt>, c3: seq<Stmt>)
    requires op.If? && WfIf(op, scope, n.mapper.Keys) && scope <= n.mapper.Keys && Good(n)
    ensures EmitOps(NamingAll(n, op.results), op.thn.ops) == Emitted(n2, c2)
    ensures EmitOps(n2, op.els.ops) == Emitted(n3, c3)
    ensures EmitIf(n, op) == Emitted(n3, IfText(n, op, n2, n3, c2, c3))
    ensures IfNamed(n, n2, n3, op)
  {
    var n1 := NamingAll(n, op.results);
    NamingAllGrows(n, op.results);
    DeclareAllShape(n, op.results);
    n2, c2 := EmitBranchGrows(n1, op.results, op.thn, scope);
    n3, c3 := EmitBranchGrows(n2, op.results, op.els, scope);
    ExtendsThen(n, n1, n2);
    ExtendsThen(n, n2, n3);
    ExtendsThen(n1, n2, n3);
    forall v | v in op.results ensures v in n1.mapper { assert v in All(op.results); }
    NamesOfKept(n1, n2, op.results);
    NamesOfKept(n1, n3, op.results);
  }

  lemma {:induction false} IfMirrors(m: Machine, n: Names, op: Op, n': Names, code: seq<Stmt>,
                                     env: Env, mem: Mem, st: Store, fuel: nat)
    requires op.If? && WfIf(op, env.Keys, n.mapper.Keys) && SafeYields(op) && Good(n)
    requires Agree(n, env, st) && Bounded(n, st)
    requires EmitIf(n, op) == Emitted(n', code)
    ensures Mirrors(n, n', env, st, EvalOp(m, op, env, mem, fuel), RunStmts(m, code, st, mem, fuel))
    ensures EvalOp(m, op, env, mem, fuel).Done? ==>
              EvalOp(m, op, env, mem, fuel).env.Keys == env.Keys + Results(op)
    decreases fuel, op, 2
  {
    AgreeInScope(n, env, st);
    var n2, n3, c2, c3 := IfShape(n, op, env.Keys);
    var st1 := IfRuns(m, n, n2, n3, op, c2, c3, env, mem, st, fuel);
    IfResult(m, n, n', op, env, mem, st, st1, RunStmts(m, code, st, mem, fuel), fuel);
  }

  lemma IfResult(m: Machine, n: Names, n': Names, op: Op, env: Env, mem: Mem, st: Store, st1: Store, run: Run, fuel: nat)
    requires op.If? && |op.thn.outs| == |op.results| == |op.els.outs| && Good(n') && Extends(n, n')
    requires All(op.results) <= n'.mapper.Keys && New(op.results, n.mapper.Keys) && Agree(n, env, st) && Bounded(n, st)
    requires st1.Keys == st.Keys + (set x | x in NamesOf(n', op.results)) && forall x :: x in st ==> st1[x] == st[x]
    requires run == Delivered(st1, NamesOf(n', op.results),
                              EvalRegion(m, if m.truthy(Get(env, op.cond)) then op.thn else op.els, env, mem, fuel))
    ensures Mirrors(n, n', env, st, EvalOp(m, op, env, mem, fuel), run)
    ensures EvalOp(m, op, env, mem, fuel).Done? ==>
              EvalOp(m, op, env, mem, fuel).env.Keys == env.Keys + Results(op)
  {
    var r := if m.truthy(Get(env, op.cond)) then op.thn else op.els;
    IfFinish(n, n', op.results, env, st, st1, EvalRegion(m, r, env, mem, fuel));
    EvalIfIs(m, op, env, mem, fuel);
  }

  lemma EvalIfIs(m: Machine, op: Op, env: Env, mem: Mem, fuel: nat)
    requires op.If?
    ensures EvalOp(m, op, env, mem, fuel) ==
            BindResults(env, op.results, EvalRegion(m, if m.truthy(Get(env, op.cond)) then op.thn else op.els, env, mem, fuel))
  {
  }

  /** The declarations of new variables for results. */
  lemma ResultsDeclared(m: Machine, n: Names, n1: Names, results: seq<Value>, env: Env, mem: Mem, st: Store, fuel: nat)
    returns (st1: Store)
    requires Good(n1) && Extends(n, n1) && New(results, n.mapper.Keys) && All(results) <= n1.mapper.Keys
    requires Agree(n, env, st) && Bounded(n, st)
    ensures RunStmts(m, Declares(NamesOf(n1, results)), st, mem, fuel) == Next(st1, mem)
    ensures st1.Keys == st.Keys + (set x | x in NamesOf(n1, results))
    ensures forall x {:trigger st1[x]} {:trigger st[x]} :: x in st ==> x in st1 && st1[x] == st[x]
    ensures forall x :: x in NamesOf(n1, results) ==> x in st1
    ensures Agree(n, env, st1) && Bounded(n1, st1)
  {
    NewNames(n, n1, results, st);
    st1 := RunDeclares(m, NamesOf(n1, results), st, mem, fuel);
    AgreeKept(n, n, env, st, st1);
  }

  lemma BoundedLater(n: Names, n1: Names, st: Store)
    requires Bounded(n, st) && n.count <= n1.count
    ensures Bounded(n1, st)
  {
  }

  lemma IfDeclared(m: Machine, n: Names, n2: Names, n3: Names, op: Op, env: Env, mem: Mem, st: Store, fuel: nat)
    returns (st1: Store)
    requires op.If? && New(op.results, n.mapper.Keys)
    requires Agree(n, env, st) && Bounded(n, st) && IfNamed(n, n2, n3, op)
    ensures var n1 := NamingAll(n, op.results); var xs := NamesOf(n1, op.results);
            && RunStmts(m, Declares(xs), st, mem, fuel) == Next(st1, mem)
            && st1.Keys == st.Keys + (set x | x in xs)
            && (forall x :: x in xs ==> x in st1)
            && Agree(n1, env, st1) && Agree(n2, env, st1) && Bounded(n1, st1) && Bounded(n2, st1)
    ensures forall x :: x in st ==> st1[x] == st[x]
  {
    var n1 := NamingAll(n, op.results);
    st1 := ResultsDeclared(m, n, n1, op.results, env, mem, st, fuel);
    AgreeKept(n, n1, env, st1, st1);
    AgreeKept(n, n2, env, st1, st1);
    BoundedLater(n1, n2, st1);
  }

  lemma IfResultsNew(n: Names, n2: Names, n3: Names, op: Op, scope: set<Value>)
    requires op.If? && New(op.results, n.mapper.Keys) && scope <= n.mapper.Keys && IfNamed(n, n2, n3, op)
    ensures All(op.results) <= NamingAll(n, op.results).mapper.Keys - scope && All(op.results) <= n2.mapper.Keys - scope
  {
  }

  lemma {:induction false} IfRuns(m: Machine, n: Names, n2: Names, n3: Names, op: Op, c2: seq<Stmt>, c3: seq<Stmt>,
                                  env: Env, mem: Mem, st: Store, fuel: nat) returns (st1: Store)
    requires op.If? && SafeYields(op) && op.cond in env && env.Keys <= n.mapper.Keys
    requires New(op.results, n.mapper.Keys) && Agree(n, env, st) && Bounded(n, st)
    requires IfNamed(n, n2, n3, op)
    requires WfOps(op.thn.ops, env.Keys, n.mapper.Keys + All(op.results)) && YieldsFrom(op.thn, env.Keys, |op.results|)
    requires WfOps(op.els.ops, env.Keys, n.mapper.Keys + All(op.results) + DefsOf(op.thn.ops)) && YieldsFrom(op.els, env.Keys, |op.results|)
    requires EmitOps(NamingAll(n, op.results), op.thn.ops) == Emitted(n2, c2) && EmitOps(n2, op.els.ops) == Emitted(n3, c3)
    ensures st1.Keys == st.Keys + (set x | x in NamesOf(n3, op.results))
    ensures forall x :: x in st ==> st1[x] == st[x]
    ensures RunStmts(m, IfText(n, op, n2, n3, c2, c3), st, mem, fuel)
            == Delivered(st1, NamesOf(n3, op.results),
                         EvalRegion(m, if m.truthy(Get(env, op.cond)) then op.thn else op.els, env, mem, fuel))
    decreases fuel, op, 1, 1
  {
    var n1 := NamingAll(n, op.results);
    var xs := NamesOf(n1, op.results);
    st1 := IfDeclared(m, n, n2, n3, op, env, mem, st, fuel);
    IfResultsNew(n, n2, n3, op, env.Keys);
    RunConcat(m, Declares(xs), IfText(n, op, n2, n3, c2, c3)[|Declares(xs)|..], st, mem, fuel);
    if m.truthy(Get(env, op.cond)) {
      ThenMirrors(m, n1, op, n2, c2, c3 + Copies(xs, NamesOf(n3, op.els.outs)), env, mem, st1, fuel);
    } else {
      ElseMirrors(m, n1, n2, op, n3, c2 + Copies(xs, NamesOf(n2, op.thn.outs)), c3, env, mem, st1, fuel);
    }
  }

  lemma {:induction false} ThenMirrors(m: Machine, n1: Names, op: Op, n2: Names, c2: seq<Stmt>, els: seq<Stmt>,
                                       env: Env, mem: Mem, st1: Store, fuel: nat)
    requires op.If? && SafeYields(op) && op.cond in env && m.truthy(Get(env, op.cond))
    requires WfOps(op.thn.ops, env.Keys, n1.mapper.Keys) && YieldsFrom(op.thn, env.Keys, |op.results|)
    requires Good(n1) && Distinct(op.results) && All(op.results) <= n1.mapper.Keys - env.Keys
    requires Agree(n1, env, st1) && Bounded(n1, st1) && forall x :: x in NamesOf(n1, op.results) ==> x in st1
    requires EmitOps(n1, op.thn.ops) == Emitted(n2, c2) && NamesOf(n2, op.results) == NamesOf(n1, op.results)
    ensures var xs := NamesOf(n1, op.results);
            RunStmts(m, [IfElse(NameOf(n1, op.cond), c2 + Copies(xs, NamesOf(n2, op.thn.outs)), els)], st1, mem, fuel)
            == Delivered(st1, xs, EvalRegion(m, op.thn, env, mem, fuel))
    decreases fuel, op, 1, 0
  {
    ReadyAgreed(n1, env, st1, op.cond);
    RunIf(m, NameOf(n1, op.cond), c2 + Copies(NamesOf(n1, op.results), NamesOf(n2, op.thn.outs)), els, st1, mem, fuel);
    ResultsNotYielded(n1, op.results, op.thn, env.Keys);
    BlockMirrors(m, n1, op.results, op.thn, n2, c2, env, mem, st1, fuel);
  }

  lemma {:induction false} ElseMirrors(m: Machine, n1: Names, n2: Names, op: Op, n3: Names, thn: seq<Stmt>, c3: seq<Stmt>,
                                       env: Env, mem: Mem, st1: Store, fuel: nat)
    requires op.If? && SafeYields(op) && op.cond in env && !m.truthy(Get(env, op.cond))
    requires WfOps(op.els.ops, env.Keys, n2.mapper.Keys) && YieldsFrom(op.els, env.Keys, |op.results|)
    requires Good(n2) && Distinct(op.results) && All(op.results) <= n2.mapper.Keys - env.Keys
    requires Agree(n1, env, st1) && Agree(n2, env, st1) && Bounded(n2, st1)
    requires NamesOf(n2, op.results) == NamesOf(n1, op.results) == NamesOf(n3, op.results)
    requires forall x :: x in NamesOf(n1, op.results) ==> x in st1
    requires EmitOps(n2, op.els.ops) == Emitted(n3, c3)
    ensures var xs := NamesOf(n1, op.results);
            RunStmts(m, [IfElse(NameOf(n1, op.cond), thn, c3 + Copies(xs, NamesOf(n3, op.els.outs)))], st1, mem, fuel)
            == Delivered(st1, xs, EvalRegion(m, op.els, env, mem, fuel))
    decreases fuel, op, 1, 0
  {
    ReadyAgreed(n1, env, st1, op.cond);
    RunIf(m, NameOf(n1, op.cond), thn, c3 + Copies(NamesOf(n1, op.results), NamesOf(n3, op.els.outs)), st1, mem, fuel);
    ResultsNotYielded(n2, op.results, op.els, env.Keys);
    BlockMirrors(m, n2, op.results, op.els, n3, c3, env, mem, st1, fuel);
  }

  lemma IfFinish(n: Names, n': Names, results: seq<Value>, env: Env, st: Store, st1: Store, o: Outcome)
    requires Good(n') && Extends(n, n') && All(results) <= n'.mapper.Keys && New(results, n.mapper.Keys)
    requires Agree(n, env, st) && Bounded(n, st) && (o.Values? ==> |o.vals| == |results|)
    requires st1.Keys == st.Keys + (set x | x in NamesOf(n', results))
    requires forall x :: x in st ==> st1[x] == st[x]
    ensures Mirrors(n, n', env, st, BindResults(env, results, o), Delivered(st1, NamesOf(n', results), o))
    ensures BindResults(env, results, o).Done? ==> BindResults(env, results, o).env.Keys == env.Keys + All(results)
  {
    match o
    case NoValues =>
    case Values(vals, mem) =>
      var xs := NamesOf(n', results);
      NewNames(n, n', results, st);
      PutFacts(st1, xs, vals);
      assert forall k :: 0 <= k < |xs| ==> xs[k] in xs;
      ResultsMirror(n, n', results, env, vals, mem, st, Put(st1, xs, vals));
  }

  // ---- scf.for ---------------------------------------------------------------------

  lemma PutTwice(st: Store, xs: seq<Name>, vals: seq<int>, vals': seq<int>)
    requires |xs| == |vals| == |vals'| && Distinct(xs)
    ensures Put(Put(st, xs, vals), xs, vals') == Put(st, xs, vals')
  {
    PutFacts(st, xs, vals);
    PutFacts(Put(st, xs, vals), xs, vals');
    PutUnique(st, Put(Put(st, xs, vals), xs, vals'), xs, vals');
  }

  lemma PutElsewhere(st: Store, xs: seq<Name>, vals: seq<int>, x: Name, v: Option<int>)
    requires |xs| == |vals| && Distinct(xs) && x !in xs
    ensures Put(st, xs, vals)[x := v] == Put(st[x := v], xs, vals)
  {
    PutFacts(st, xs, vals);
    PutUnique(st[x := v], Put(st, xs, vals)[x := v], xs, vals);
  }

  /** The variables of a loop: where the carried values and the counter live. */
  ghost predicate LoopVariables(n3: Names, op: Op, env: Env, outer: Store)
    requires op.For?
  {
    var xs := NamesOf(n3, op.iterArgs);
    && Good(n3) && |op.results| == |op.iterArgs|
    && env.Keys <= n3.mapper.Keys && All(op.iterArgs) <= n3.mapper.Keys && op.iv in n3.mapper
    && Distinct(op.iterArgs) && op.iv !in op.iterArgs && op.iv !in env && All(op.iterArgs) !! env.Keys
    && {op.ub, op.step} <= env.Keys
    && Agree(n3, env, outer) && Bounded(n3, outer)
    && NameOf(n3, op.iv) !in outer
    && (forall x :: x in xs ==> x in outer)
  }

  /** The store at the head of an iteration. */
  function Head(n3: Names, op: Op, outer: Store, i: int, vals: seq<int>): Store
    requires op.For?
  {
    Put(outer[NameOf(n3, op.iv) := Some(i)], NamesOf(n3, op.iterArgs), vals)
  }

  /** The carried values and the counter live in different variables. */
  lemma HeadNames(n3: Names, op: Op, env: Env, outer: Store)
    requires op.For? && LoopVariables(n3, op, env, outer)
    ensures Distinct(NamesOf(n3, op.iterArgs)) && NameOf(n3, op.iv) !in NamesOf(n3, op.iterArgs)
  {
    var xs := NamesOf(n3, op.iterArgs);
    var iv := NameOf(n3, op.iv);
    forall v | v in op.iterArgs ensures v in n3.mapper && n3.mapper[v] != iv {
      assert v in All(op.iterArgs);
      assert Owner(n3, n3.mapper[v]) != Owner(n3, n3.mapper[op.iv]);
    }
    NamesOfDistinct(n3, op.iterArgs);
    forall x | x in xs ensures x != iv {
      var k :| 0 <= k < |xs| && xs[k] == x;
      assert op.iterArgs[k] in op.iterArgs;
    }
  }

  lemma HeadFacts(n3: Names, op: Op, env: Env, outer: Store, i: int, vals: seq<int>)
    requires op.For? && LoopVariables(n3, op, env, outer) && |vals| == |op.iterArgs|
    ensures var st := Head(n3, op, outer, i, vals); var env' := Bind(env[op.iv := i], op.iterArgs, vals);
            && Distinct(NamesOf(n3, op.iterArgs)) && NameOf(n3, op.iv) !in NamesOf(n3, op.iterArgs)
            && st.Keys == outer.Keys + {NameOf(n3, op.iv)}
            && st[NameOf(n3, op.iv)] == Some(i)
            && env'.Keys == env.Keys + All(op.iterArgs) + {op.iv}
            && Agree(n3, env', st) && Agree(n3, env, st) && Bounded(n3, st)
  {
    var xs := NamesOf(n3, op.iterArgs);
    var iv := NameOf(n3, op.iv);
    HeadNames(n3, op, env, outer);
    forall v | v in op.iterArgs ensures v in n3.mapper && v !in env {
      assert v in All(op.iterArgs);
    }
    var st0 := outer[iv := Some(i)];
    PutFacts(st0, xs, vals);
    NamesWithin(n3, op.iterArgs, outer);
    var st := Put(st0, xs, vals);
    var env' := Bind(env[op.iv := i], op.iterArgs, vals);
    BindFacts(env[op.iv := i], op.iterArgs, vals);
    EnvNotCarried(n3, op.iterArgs, env);
    forall v | v in env ensures n3.mapper[v] in st && st[n3.mapper[v]] == Some(env[v]) {
      assert outer[n3.mapper[v]] == Some(env[v]);
    }
    forall v | v in env' ensures n3.mapper[v] in st && st[n3.mapper[v]] == Some(env'[v]) {
      if v in op.iterArgs {
        var k :| 0 <= k < |op.iterArgs| && op.iterArgs[k] == v;
        assert xs[k] == n3.mapper[v];
      } else {
        assert env'[v] == env[op.iv := i][v];
      }
    }
  }

  lemma EnvNotCarried(n: Names, vs: seq<Value>, env: Env)
    requires Good(n) && env.Keys <= n.mapper.Keys && All(vs) <= n.mapper.Keys && All(vs) !! env.Keys
    ensures forall v :: v in env ==> n.mapper[v] !in NamesOf(n, vs)
  {
    forall v | v in env ensures n.mapper[v] !in NamesOf(n, vs) {
      var xs := NamesOf(n, vs);
      forall k | 0 <= k < |xs| ensures xs[k] != n.mapper[v] {
        assert vs[k] in All(vs);
        assert Owner(n, n.mapper[vs[k]]) != Owner(n, n.mapper[v]);
      }
    }
  }

  /** The printed loop statement. */
  function LoopStmt(op: Op, n3: Names, n4: Names, body: seq<Stmt>): Stmt
    requires op.For? && |op.iterArgs| == |op.body.outs|
  {
    ForLoop(NameOf(n3, op.iv), NameOf(n3, op.lb), NameOf(n3, op.ub), NameOf(n3, op.step),
            body + Copies(NamesOf(n4, op.iterArgs), NamesOf(n4, op.body.outs)))
  }

  /** From any iteration on, the C loop carries the same values as the structured loop. */
  lemma {:induction false} LoopMirrors(m: Machine, op: Op, n3: Names, n4: Names, body: seq<Stmt>,
                                       env: Env, outer: Store, mem: Mem, i: int, vals: seq<int>, fuel: nat)
    requires op.For? && SafeYields(op) && LoopVariables(n3, op, env, outer) && |vals| == |op.iterArgs|
    requires WfOps(op.body.ops, env.Keys + All(op.iterArgs) + {op.iv}, n3.mapper.Keys)
    requires YieldsFrom(op.body, env.Keys + All(op.iterArgs) + {op.iv}, |op.results|)
    requires EmitOps(n3, op.body.ops) == Emitted(n4, body)
    ensures LeaveBlock(RunFor(m, LoopStmt(op, n3, n4, body), Head(n3, op, outer, i, vals), mem, fuel), outer)
            == Delivered(outer, NamesOf(n3, op.iterArgs), EvalFor(m, op, env, mem, i, vals, fuel))
    decreases fuel, op, 1, 1
  {
    var s := LoopStmt(op, n3, n4, body);
    if !m.less(i, Get(env, op.ub)) {
      LoopExits(m, s, op, n3, env, outer, mem, i, vals, fuel);
    } else if fuel == 0 {
      LoopStarves(m, s, op, n3, env, outer, mem, i, vals);
    } else {
      TurnMirrors(m, op, n3, n4, body, env, outer, mem, i, vals, fuel);
      var o := EvalRegion(m, op.body, Bind(env[op.iv := i], op.iterArgs, vals), mem, fuel - 1);
      if o.Values? {
        LoopMirrors(m, op, n3, n4, body, env, outer, o.mem, m.add(i, Get(env, op.step)), o.vals, fuel - 1);
      }
      LoopGoesOn(m, s, op, n3, env, outer, mem, i, vals, o, fuel);
    }
  }

  /** The loop after an iteration, given what it does from then on. */
  lemma LoopGoesOn(m: Machine, s: Stmt, op: Op, n3: Names, env: Env, outer: Store, mem: Mem, i: int, vals: seq<int>, o: Outcome, fuel: nat)
    requires op.For? && s.ForLoop? && m.less(i, Get(env, op.ub)) && fuel > 0
    requires o == EvalRegion(m, op.body, Bind(env[op.iv := i], op.iterArgs, vals), mem, fuel - 1)
    requires RunFor(m, s, Head(n3, op, outer, i, vals), mem, fuel) ==
             match o
             case NoValues => OutOfFuel
             case Values(vals', mem') => RunFor(m, s, Head(n3, op, outer, m.add(i, Get(env, op.step)), vals'), mem', fuel - 1)
    requires o.Values? ==>
               var i' := m.add(i, Get(env, op.step));
               LeaveBlock(RunFor(m, s, Head(n3, op, outer, i', o.vals), o.mem, fuel - 1), outer)
               == Delivered(outer, NamesOf(n3, op.iterArgs), EvalFor(m, op, env, o.mem, i', o.vals, fuel - 1))
    ensures LeaveBlock(RunFor(m, s, Head(n3, op, outer, i, vals), mem, fuel), outer)
            == Delivered(outer, NamesOf(n3, op.iterArgs), EvalFor(m, op, env, mem, i, vals, fuel))
  {
    EvalForTurns(m, op, env, mem, i, vals, fuel);
  }

  /** The C loop goes on to the next iteration in the store at its head, or runs out of fuel. */
  lemma {:induction false} TurnMirrors(m: Machine, op: Op, n3: Names, n4: Names, body: seq<Stmt>,
                                       env: Env, outer: Store, mem: Mem, i: int, vals: seq<int>, fuel: nat)
    requires op.For? && SafeYields(op) && LoopVariables(n3, op, env, outer) && |vals| == |op.iterArgs|
    requires WfOps(op.body.ops, env.Keys + All(op.iterArgs) + {op.iv}, n3.mapper.Keys)
    requires YieldsFrom(op.body, env.Keys + All(op.iterArgs) + {op.iv}, |op.results|)
    requires EmitOps(n3, op.body.ops) == Emitted(n4, body)
    requires m.less(i, Get(env, op.ub)) && fuel > 0
    ensures var s := LoopStmt(op, n3, n4, body);
            RunFor(m, s, Head(n3, op, outer, i, vals), mem, fuel) ==
            match EvalRegion(m, op.body, Bind(env[op.iv := i], op.iterArgs, vals), mem, fuel - 1)
            case NoValues => OutOfFuel
            case Values(vals', mem') => RunFor(m, s, Head(n3, op, outer, m.add(i, Get(env, op.step)), vals'), mem', fuel - 1)
    decreases fuel, op, 0
  {
    IterationMirrors(m, op, n3, n4, body, env, outer, mem, i, vals, fuel - 1);
    TurnRuns(m, LoopStmt(op, n3, n4, body), op, n3, env, outer, mem, i, vals,
             EvalRegion(m, op.body, Bind(env[op.iv := i], op.iterArgs, vals), mem, fuel - 1), fuel);
  }

  lemma EvalForTurns(m: Machine, op: Op, env: Env, mem: Mem, i: int, vals: seq<int>, fuel: nat)
    requires op.For? && m.less(i, Get(env, op.ub)) && fuel > 0
    ensures EvalFor(m, op, env, mem, i, vals, fuel) ==
            match EvalRegion(m, op.body, Bind(env[op.iv := i], op.iterArgs, vals), mem, fuel - 1)
            case NoValues => NoValues
            case Values(vals', mem') => EvalFor(m, op, env, mem', m.add(i, Get(env, op.step)), vals', fuel - 1)
  {
  }

  lemma LoopExits(m: Machine, s: Stmt, op: Op, n3: Names, env: Env, outer: Store, mem: Mem, i: int, vals: seq<int>, fuel: nat)
    requires op.For? && LoopVariables(n3, op, env, outer) && |vals| == |op.iterArgs| && !m.less(i, Get(env, op.ub))
    requires s.ForLoop? && s.iv == NameOf(n3, op.iv) && s.ub == NameOf(n3, op.ub)
    ensures LeaveBlock(RunFor(m, s, Head(n3, op, outer, i, vals), mem, fuel), outer)
            == Next(Put(outer, NamesOf(n3, op.iterArgs), vals), mem)
  {
    HeadReady(n3, op, env, outer, i, i, vals);
    RunForExits(m, s, Head(n3, op, outer, i, vals), mem, fuel);
    HeadLeaves(n3, op, env, outer, i, vals);
  }

  lemma LoopStarves(m: Machine, s: Stmt, op: Op, n3: Names, env: Env, outer: Store, mem: Mem, i: int, vals: seq<int>)
    requires op.For? && LoopVariables(n3, op, env, outer) && |vals| == |op.iterArgs| && m.less(i, Get(env, op.ub))
    requires s.ForLoop? && s.iv == NameOf(n3, op.iv) && s.ub == NameOf(n3, op.ub)
    ensures RunFor(m, s, Head(n3, op, outer, i, vals), mem, 0) == OutOfFuel
  {
    HeadReady(n3, op, env, outer, i, i, vals);
    RunForTurns(m, s, Head(n3, op, outer, i, vals), mem, 0);
  }

  /** An iteration of the C loop, given what its body does. */
  lemma TurnRuns(m: Machine, s: Stmt, op: Op, n3: Names, env: Env, outer: Store, mem: Mem, i: int, vals: seq<int>, o: Outcome, fuel: nat)
    requires op.For? && LoopVariables(n3, op, env, outer) && |vals| == |op.iterArgs| && (o.Values? ==> |o.vals| == |op.iterArgs|)
    requires s.ForLoop? && s.iv == NameOf(n3, op.iv) && s.ub == NameOf(n3, op.ub) && s.step == NameOf(n3, op.step)
    requires m.less(i, Get(env, op.ub)) && fuel > 0
    requires var st := Head(n3, op, outer, i, vals);
             LeaveBlock(RunStmts(m, s.body, st, mem, fuel - 1), st)
             == Delivered(outer[NameOf(n3, op.iv) := Some(i)], NamesOf(n3, op.iterArgs), o)
    ensures RunFor(m, s, Head(n3, op, outer, i, vals), mem, fuel) ==
            match o
            case NoValues => OutOfFuel
            case Values(vals', mem') => RunFor(m, s, Head(n3, op, outer, m.add(i, Get(env, op.step)), vals'), mem', fuel - 1)
  {
    HeadReady(n3, op, env, outer, i, i, vals);
    RunForTurns(m, s, Head(n3, op, outer, i, vals), mem, fuel);
    match o
    case NoValues =>
    case Values(vals', mem') => HeadReady(n3, op, env, outer, i, m.add(i, Get(env, op.step)), vals');
  }

  lemma {:induction false} EvalForArity(m: Machine, op: Op, env: Env, mem: Mem, i: int, vals: seq<int>, fuel: nat)
    requires op.For? && |vals| == |op.body.outs|
    ensures EvalFor(m, op, env, mem, i, vals, fuel).Values? ==> |EvalFor(m, op, env, mem, i, vals, fuel).vals| == |vals|
    decreases fuel
  {
    if m.less(i, Get(env, op.ub)) && fuel > 0 {
      match EvalRegion(m, op.body, Bind(env[op.iv := i], op.iterArgs, vals), mem, fuel - 1)
      case NoValues =>
      case Values(vals', mem') => EvalForArity(m, op, env, mem', m.add(i, Get(env, op.step)), vals', fuel - 1);
    }
  }

  /** One iteration leaves the yielded values in the iteration arguments. */
  lemma {:induction false} IterationMirrors(m: Machine, op: Op, n3: Names, n4: Names, body: seq<Stmt>,
                                            env: Env, outer: Store, mem: Mem, i: int, vals: seq<int>, fuel: nat)
    requires op.For? && SafeYields(op) && LoopVariables(n3, op, env, outer) && |vals| == |op.iterArgs|
    requires WfOps(op.body.ops, env.Keys + All(op.iterArgs) + {op.iv}, n3.mapper.Keys)
    requires YieldsFrom(op.body, env.Keys + All(op.iterArgs) + {op.iv}, |op.results|)
    requires EmitOps(n3, op.body.ops) == Emitted(n4, body)
    ensures var st := Head(n3, op, outer, i, vals);
            LeaveBlock(RunStmts(m, LoopStmt(op, n3, n4, body).body, st, mem, fuel), st)
            == Delivered(outer[NameOf(n3, op.iv) := Some(i)], NamesOf(n3, op.iterArgs),
                         EvalRegion(m, op.body, Bind(env[op.iv := i], op.iterArgs, vals), mem, fuel))
    decreases fuel, op, 2
  {
    var xs := NamesOf(n3, op.iterArgs);
    var st := Head(n3, op, outer, i, vals);
    HeadFacts(n3, op, env, outer, i, vals);
    var env' := Bind(env[op.iv := i], op.iterArgs, vals);
    BlockMirrors(m, n3, op.iterArgs, op.body, n4, body, env', mem, st, fuel);
    match EvalRegion(m, op.body, env', mem, fuel)
    case NoValues =>
    case Values(vals', mem') => PutTwice(outer[NameOf(n3, op.iv) := Some(i)], xs, vals, vals');
  }

  lemma HeadReady(n3: Names, op: Op, env: Env, outer: Store, i: int, i': int, vals: seq<int>)
    requires op.For? && LoopVariables(n3, op, env, outer) && |vals| == |op.iterArgs|
    ensures var st := Head(n3, op, outer, i, vals);
            var iv, ub, step := NameOf(n3, op.iv), NameOf(n3, op.ub), NameOf(n3, op.step);
            && Ready(st, [iv]) && Ready(st, [ub]) && Ready(st, [iv, step])
            && iv in st && st[iv] == Some(i)
            && ub in st && st[ub] == Some(Get(env, op.ub))
            && step in st && st[step] == Some(Get(env, op.step))
            && st[iv := Some(i')] == Head(n3, op, outer, i', vals)
  {
    var st := Head(n3, op, outer, i, vals);
    var iv := NameOf(n3, op.iv);
    HeadFacts(n3, op, env, outer, i, vals);
    ReadyAgreed(n3, env, st, op.ub);
    ReadyAgreed(n3, env, st, op.step);
    PutElsewhere(outer[iv := Some(i)], NamesOf(n3, op.iterArgs), vals, iv, Some(i'));
    assert outer[iv := Some(i)][iv := Some(i')] == outer[iv := Some(i')];
  }

  lemma HeadLeaves(n3: Names, op: Op, env: Env, outer: Store, i: int, vals: seq<int>)
    requires op.For? && LoopVariables(n3, op, env, outer) && |vals| == |op.iterArgs|
    ensures Leave(Head(n3, op, outer, i, vals), outer) == Put(outer, NamesOf(n3, op.iterArgs), vals)
  {
    HeadFacts(n3, op, env, outer, i, vals);
    PutLeaves(outer, outer[NameOf(n3, op.iv) := Some(i)], NamesOf(n3, op.iterArgs), vals);
  }

  /** Initialising the new variables xs with the values of inits. */
  lemma InitsLoad(m: Machine, n: Names, xs: seq<Name>, inits: seq<Value>, env: Env, mem: Mem, st1: Store, fuel: nat)
    returns (st2: Store)
    requires |xs| == |inits| && Distinct(xs) && All(inits) <= env.Keys && Agree(n, env, st1)
    requires forall x :: x in xs ==> x !in st1
    ensures RunStmts(m, Inits(xs, NamesOf(n, inits)), st1, mem, fuel) == Next(st2, mem)
    ensures forall x {:trigger x in st2} :: x in st2 ==> x in st1 || x in xs
    ensures forall x :: x in st1 ==> x in st2 && st2[x] == st1[x]
    ensures forall k :: 0 <= k < |xs| ==> xs[k] in st2 && st2[xs[k]] == Some(GetAll(env, inits)[k])
    ensures forall x :: x in xs ==> x in st2
  {
    var ys := NamesOf(n, inits);
    LoadAgreed(n, env, st1, inits);
    st2 := RunInits(m, xs, ys, st1, mem, fuel);
    forall k | 0 <= k < |xs| ensures st2[xs[k]] == Some(GetAll(env, inits)[k]) {
      assert Load(st1, ys)[k] == GetAll(env, inits)[k];
      assert ys[k] in ys;
    }
  }

  /** Declaring the results and initialising the carried variables vs. */
  lemma IntroRuns(m: Machine, n: Names, n1: Names, n2: Names, results: seq<Value>, vs: seq<Value>, inits: seq<Value>,
                  env: Env, mem: Mem, st: Store, fuel: nat) returns (st2: Store)
    requires Good(n) && Good(n1) && Good(n2) && Extends(n, n1) && Extends(n1, n2)
    requires New(results, n.mapper.Keys) && All(results) <= n1.mapper.Keys
    requires New(vs, n1.mapper.Keys) && All(vs) <= n2.mapper.Keys
    requires |vs| == |inits| && All(inits) <= env.Keys
    requires Agree(n, env, st) && Bounded(n, st)
    ensures RunStmts(m, Declares(NamesOf(n1, results)) + Inits(NamesOf(n2, vs), NamesOf(n, inits)), st, mem, fuel) == Next(st2, mem)
    ensures Added(st, st2, NamesOf(n1, results), NamesOf(n2, vs))
    ensures forall k :: 0 <= k < |vs| ==> NameOf(n2, vs[k]) in st2 && st2[NameOf(n2, vs[k])] == Some(GetAll(env, inits)[k])
    ensures Agree(n2, env, st2) && Bounded(n2, st2)
    ensures Distinct(NamesOf(n2, vs)) && forall x :: x in NamesOf(n2, vs) ==> x !in NamesOf(n1, results)
  {
    var rs, xs, ys := NamesOf(n1, results), NamesOf(n2, vs), NamesOf(n, inits);
    var st1 := ResultsDeclared(m, n, n1, results, env, mem, st, fuel);
    NewNames(n1, n2, vs, st1);
    st2 := InitsLoad(m, n, xs, inits, env, mem, st1, fuel);
    InitialisedAgrees(n, n1, n2, env, st1, st2, xs);
    RunConcat(m, Declares(rs), Inits(xs, ys), st, mem, fuel);
  }

  lemma InitialisedAgrees(n: Names, n1: Names, n2: Names, env: Env, st1: Store, st2: Store, xs: seq<Name>)
    requires Extends(n, n1) && Extends(n1, n2) && Agree(n, env, st1) && Bounded(n1, st1)
    requires forall x {:trigger x in st2} :: x in st2 ==> x in st1 || x in xs
    requires forall x :: x in st1 ==> x in st2 && st2[x] == st1[x]
    requires forall x :: x in xs ==> x <= n2.count
    ensures Agree(n2, env, st2) && Bounded(n2, st2)
  {
    ExtendsThen(n, n1, n2);
    AgreeKept(n, n2, env, st1, st2);
  }

  /** The situation in front of the printed for statement. */
  ghost predicate LoopEntered(n: Names, op: Op, env: Env, st: Store, st2: Store)
    requires op.For?
  {
    var n3 := ForHead(n, op);
    && LoopVariables(n3, op, env, st2)
    && Added(st, st2, NamesOf(n3, op.results), NamesOf(n3, op.iterArgs))
    && (forall x :: x in NamesOf(n3, op.iterArgs) ==> x !in NamesOf(n3, op.results))
  }

  lemma LoopEnters(m: Machine, n: Names, op: Op, env: Env, mem: Mem, st: Store, fuel: nat) returns (st2: Store)
    requires op.For? && ForHeads(n, op) && env.Keys <= n.mapper.Keys && Good(n)
    requires |op.results| == |op.iterArgs| == |op.inits| && {op.ub, op.step} + All(op.inits) <= env.Keys
    requires Agree(n, env, st) && Bounded(n, st)
    ensures var n1 := NamingAll(n, op.results); var n2 := NamingAll(n1, op.iterArgs);
            RunStmts(m, Declares(NamesOf(n1, op.results)) + Inits(NamesOf(n2, op.iterArgs), NamesOf(n1, op.inits)), st, mem, fuel)
               == Next(st2, mem)
    ensures LoopEntered(n, op, env, st, st2)
    ensures forall i: int {:trigger Head(ForHead(n, op), op, st2, i, GetAll(env, op.inits))} ::
              st2[NameOf(ForHead(n, op), op.iv) := Some(i)] == Head(ForHead(n, op), op, st2, i, GetAll(env, op.inits))
  {
    var n1 := NamingAll(n, op.results);
    var n2 := NamingAll(n1, op.iterArgs);
    st2 := IntroRuns(m, n, n1, n2, op.results, op.iterArgs, op.inits, env, mem, st, fuel);
    LoopVariablesReady(n2, op, env, st2);
    HeadInitially(ForHead(n, op), op, st2, GetAll(env, op.inits));
  }

  lemma LoopVariablesReady(n2: Names, op: Op, env: Env, st2: Store)
    requires op.For? && Good(n2) && op.iv !in n2.mapper
    requires Distinct(op.iterArgs) && |op.results| == |op.iterArgs| && All(op.iterArgs) !! env.Keys
    requires All(op.iterArgs) <= n2.mapper.Keys && env.Keys <= n2.mapper.Keys && {op.ub, op.step} <= env.Keys
    requires Agree(n2, env, st2) && Bounded(n2, st2)
    requires forall x :: x in NamesOf(n2, op.iterArgs) ==> x in st2
    ensures LoopVariables(Naming(n2, op.iv), op, env, st2)
    ensures NameOf(Naming(n2, op.iv), op.iv) !in NamesOf(n2, op.iterArgs)
  {
    var n3 := Naming(n2, op.iv);
    NamingFresh(n2, op.iv);
    AllNamed(n2, op.iterArgs);
    NamesOfKept(n2, n3, op.iterArgs);
    AgreeKept(n2, n3, env, st2, st2);
  }

  lemma HeadInitially(n3: Names, op: Op, st2: Store, vals: seq<int>)
    requires op.For? && |vals| == |op.iterArgs| && Distinct(NamesOf(n3, op.iterArgs))
    requires NameOf(n3, op.iv) !in NamesOf(n3, op.iterArgs)
    requires forall k :: 0 <= k < |vals| ==> NameOf(n3, op.iterArgs[k]) in st2 && st2[NameOf(n3, op.iterArgs[k])] == Some(vals[k])
    ensures forall i: int {:trigger Head(n3, op, st2, i, vals)} :: st2[NameOf(n3, op.iv) := Some(i)] == Head(n3, op, st2, i, vals)
  {
    var xs := NamesOf(n3, op.iterArgs);
    var iv := NameOf(n3, op.iv);
    forall i: int ensures st2[iv := Some(i)] == Head(n3, op, st2, i, vals) {
      assert forall k :: 0 <= k < |xs| ==> xs[k] in xs;
      PutUnique(st2[iv := Some(i)], st2[iv := Some(i)], xs, vals);
    }
  }

  /** st' is st with the variables rs and xs added. */
  ghost predicate Added(st: Store, st': Store, rs: seq<Name>, xs: seq<Name>) {
    && (forall x {:trigger x in st'} :: x in st' ==> x in st || x in rs || x in xs)
    && (forall x {:trigger st'[x]} {:trigger st[x]} :: x in st ==> x in st' && st'[x] == st[x])
    && (forall x {:trigger x in rs} :: x in rs ==> x in st')
    && (forall x {:trigger x in xs} :: x in xs ==> x in st')
  }

  /** Only new names were added to st. */
  lemma FramedByKeys(n: Names, n': Names, st: Store, st': Store, rs: seq<Name>, xs: seq<Name>)
    requires forall x :: x in rs ==> n.count < x <= n'.count
    requires forall x :: x in xs ==> n.count < x <= n'.count
    requires Added(st, st', rs, xs)
    ensures Framed(n, n', st, st')
  {
  }

  /** Putting values into the added variables does not touch the old ones. */
  lemma PutOutside(n: Names, st: Store, st2: Store, rs: seq<Name>, xs: seq<Name>, ys: seq<Name>, vals: seq<int>)
    requires Bounded(n, st) && |ys| == |vals| && Distinct(ys)
    requires forall x :: x in ys ==> n.count < x && x in st2
    requires Added(st, st2, rs, xs)
    ensures Added(st, Put(st2, ys, vals), rs, xs)
    ensures forall k :: 0 <= k < |ys| ==> ys[k] in Put(st2, ys, vals) && Put(st2, ys, vals)[ys[k]] == Some(vals[k])
    ensures Ready(Put(st2, ys, vals), ys)
  {
    PutFacts(st2, ys, vals);
    var st3 := Put(st2, ys, vals);
    assert st3.Keys == st2.Keys;
    forall x | x in ys ensures x in st3 && st3[x].Some? { var k :| 0 <= k < |ys| && ys[k] == x; }
    forall x | x in st ensures x in st3 && st3[x] == st[x] { assert st2[x] == st[x] && x !in ys; }
  }

  lemma TwoPutsOutside(n: Names, st: Store, st2: Store, rs: seq<Name>, xs: seq<Name>, last: seq<int>, passed: seq<int>)
    requires Bounded(n, st) && |rs| == |passed| && |xs| == |last| && Distinct(rs) && Distinct(xs)
    requires forall x :: x in rs ==> n.count < x
    requires forall x :: x in xs ==> n.count < x
    requires Added(st, st2, rs, xs)
    ensures var st3 := Put(Put(st2, xs, last), rs, passed);
            Added(st, st3, rs, xs) && forall k :: 0 <= k < |rs| ==> rs[k] in st3 && st3[rs[k]] == Some(passed[k])
  {
    PutOutside(n, st, st2, rs, xs, xs, last);
    PutOutside(n, st, Put(st2, xs, last), rs, xs, rs, passed);
  }

  /** Copying the final carried values into the results completes the operation. */
  lemma LoopFinish(m: Machine, n: Names, n4: Names, results: seq<Value>, vs: seq<Value>, env: Env, st: Store, st2: Store,
                   o: Outcome, fuel: nat)
    requires Good(n4) && Extends(n, n4) && New(results, n.mapper.Keys) && New(vs, n.mapper.Keys)
    requires All(results) <= n4.mapper.Keys && All(vs) <= n4.mapper.Keys && |results| == |vs|
    requires Agree(n, env, st) && Bounded(n, st)
    requires o.Values? && |o.vals| == |vs|
    requires Added(st, st2, NamesOf(n4, results), NamesOf(n4, vs))
    requires forall x :: x in NamesOf(n4, vs) ==> x !in NamesOf(n4, results)
    ensures var run := RunStmts(m, Copies(NamesOf(n4, results), NamesOf(n4, vs)), Put(st2, NamesOf(n4, vs), o.vals), o.mem, fuel);
            Mirrors(n, n4, env, st, BindResults(env, results, o), run)
    ensures Bind(env, results, o.vals).Keys == env.Keys + All(results)
  {
    var rs, xs := NamesOf(n4, results), NamesOf(n4, vs);
    NewNames(n, n4, results, st);
    NewNames(n, n4, vs, st);
    var st3 := Put(st2, xs, o.vals);
    PutOutside(n, st, st2, rs, xs, xs, o.vals);
    var st4 := CopiedInOrder(st3, rs, xs);
    FinalsRun(m, rs, xs, st3, o, fuel);
    FramedByKeys(n, n4, st, st4, rs, xs);
    ResultsMirror(n, n4, results, env, o.vals, o.mem, st, st4);
  }

  lemma FinalsRun(m: Machine, rs: seq<Name>, xs: seq<Name>, st3: Store, o: Outcome, fuel: nat)
    requires o.Values? && |rs| == |xs| == |o.vals| && Distinct(rs) && Ready(st3, xs)
    requires forall x :: x in rs ==> x in st3
    requires forall x :: x in xs ==> x !in rs
    requires forall k :: 0 <= k < |xs| ==> xs[k] in st3 && st3[xs[k]] == Some(o.vals[k])
    ensures RunStmts(m, Copies(rs, xs), st3, o.mem, fuel) == Next(CopiedInOrder(st3, rs, xs), o.mem)
    ensures var st4 := CopiedInOrder(st3, rs, xs);
            && st4.Keys == st3.Keys
            && (forall k :: 0 <= k < |rs| ==> st4[rs[k]] == Some(o.vals[k]))
            && (forall x :: x in st3 && x !in rs ==> st4[x] == st3[x])
  {
    RunCopies(m, rs, xs, st3, o.mem, fuel);
    DisjointNotOverwritten(rs, xs);
    OrderedCopiesAreSimultaneous(st3, rs, xs);
    var st4 := CopiedInOrder(st3, rs, xs);
    assert st4.Keys == st3.Keys;
    assert forall k :: 0 <= k < |rs| ==> rs[k] in rs && xs[k] in xs;
  }

  lemma {:induction false} ForMirrors(m: Machine, n: Names, op: Op, n': Names, code: seq<Stmt>,
                                      env: Env, mem: Mem, st: Store, fuel: nat)
    requires op.For? && WfFor(op, env.Keys, n.mapper.Keys) && SafeYields(op) && Good(n)
    requires Agree(n, env, st) && Bounded(n, st)
    requires EmitFor(n, op) == Emitted(n', code)
    ensures Mirrors(n, n', env, st, EvalOp(m, op, env, mem, fuel), RunStmts(m, code, st, mem, fuel))
    ensures EvalOp(m, op, env, mem, fuel).Done? ==>
              EvalOp(m, op, env, mem, fuel).env.Keys == env.Keys + Results(op)
    decreases fuel, op, 2
  {
    AgreeInScope(n, env, st);
    var n4, body, text := EmitForGrows(n, op, env.Keys);
    ForHeadsHold(n, op, env.Keys);
    var st2 := LoopEnters(m, n, op, env, mem, st, fuel);
    ForBodyRuns(m, n, op, n4, body, env, mem, st, st2, fuel);
    match EvalFor(m, op, env, mem, Get(env, op.lb), GetAll(env, op.inits), fuel)
    case NoValues =>
    case Values(vals, mem') =>
      EvalForArity(m, op, env, mem, Get(env, op.lb), GetAll(env, op.inits), fuel);
      var n3 := ForHead(n, op);
      ExtendsThen(n, n3, n4);
      AllNamed(n3, op.results);
      AllNamed(n3, op.iterArgs);
      NamesOfKept(n3, n4, op.results);
      NamesOfKept(n3, n4, op.iterArgs);
      LoopFinish(m, n, n4, op.results, op.iterArgs, env, st, st2, Values(vals, mem'), fuel);
  }

  /** The whole text of an scf.for up to the final copies. */
  lemma {:induction false} ForBodyRuns(m: Machine, n: Names, op: Op, n4: Names, body: seq<Stmt>,
                                       env: Env, mem: Mem, st: Store, st2: Store, fuel: nat)
    requires op.For? && WfFor(op, env.Keys, n.mapper.Keys) && SafeYields(op) && env.Keys <= n.mapper.Keys && Good(n)
    requires EmitOps(ForHead(n, op), op.body.ops) == Emitted(n4, body)
    requires Grown(ForHead(n, op), n4, DefsOf(op.body.ops))
    requires var n1 := NamingAll(n, op.results); var n2 := NamingAll(n1, op.iterArgs);
             RunStmts(m, Declares(NamesOf(n1, op.results)) + Inits(NamesOf(n2, op.iterArgs), NamesOf(n1, op.inits)), st, mem, fuel)
               == Next(st2, mem)
    requires LoopEntered(n, op, env, st, st2)
    requires forall i: int {:trigger Head(ForHead(n, op), op, st2, i, GetAll(env, op.inits))} ::
                  st2[NameOf(ForHead(n, op), op.iv) := Some(i)] == Head(ForHead(n, op), op, st2, i, GetAll(env, op.inits))
    ensures var o := EvalFor(m, op, env, mem, Get(env, op.lb), GetAll(env, op.inits), fuel);
            var xs := NamesOf(ForHead(n, op), op.iterArgs);
            RunStmts(m, ForText(n, op, n4, body), st, mem, fuel) ==
            match o
            case NoValues => OutOfFuel
            case Values(vals, mem') =>
              RunStmts(m, Copies(NamesOf(n4, op.results), NamesOf(n4, op.iterArgs)), Put(st2, xs, vals), mem', fuel)
    decreases fuel, op, 2, 0
  {
    var n1 := NamingAll(n, op.results);
    var n2 := NamingAll(n1, op.iterArgs);
    var n3 := ForHead(n, op);
    var intro := Declares(NamesOf(n1, op.results)) + Inits(NamesOf(n2, op.iterArgs), NamesOf(n1, op.inits));
    var finals := Copies(NamesOf(n4, op.results), NamesOf(n4, op.iterArgs));
    RunAround(m, intro, LoopStmt(op, n3, n4, body), finals, st, mem, st2, fuel);
    assert n3.mapper.Keys == n.mapper.Keys + All(op.results) + All(op.iterArgs) + {op.iv} by { ForShape(n, op, env.Keys); }
    LoopStmtRuns(m, op, n3, n4, body, env, mem, st2, fuel);
  }

  lemma {:induction false} LoopStmtRuns(m: Machine, op: Op, n3: Names, n4: Names, body: seq<Stmt>,
                                        env: Env, mem: Mem, st2: Store, fuel: nat)
    requires op.For? && SafeYields(op) && LoopVariables(n3, op, env, st2) && |op.inits| == |op.iterArgs| && op.lb in env
    requires WfOps(op.body.ops, env.Keys + All(op.iterArgs) + {op.iv}, n3.mapper.Keys)
    requires YieldsFrom(op.body, env.Keys + All(op.iterArgs) + {op.iv}, |op.results|)
    requires EmitOps(n3, op.body.ops) == Emitted(n4, body)
    requires forall i: int {:trigger Head(n3, op, st2, i, GetAll(env, op.inits))} ::
                  st2[NameOf(n3, op.iv) := Some(i)] == Head(n3, op, st2, i, GetAll(env, op.inits))
    ensures RunStmt(m, LoopStmt(op, n3, n4, body), st2, mem, fuel)
            == Delivered(st2, NamesOf(n3, op.iterArgs), EvalFor(m, op, env, mem, Get(env, op.lb), GetAll(env, op.inits), fuel))
    decreases fuel, op, 1, 2
  {
    ReadyAgreed(n3, env, st2, op.lb);
    LoopMirrors(m, op, n3, n4, body, env, st2, mem, Get(env, op.lb), GetAll(env, op.inits), fuel);
  }

  // ---- scf.while -------------------------------------------------------------------

  /** The variables of a while loop: results and before arguments are declared, env is in place. */
  ghost predicate WhileVariables(n2: Names, op: Op, env: Env, base: Store)
    requires op.While?
  {
    match op
    case While(_, _, _, _, _, _, _) =>
      && Good(n2) && env.Keys <= n2.mapper.Keys && All(op.results) <= n2.mapper.Keys && All(op.beforeArgs) <= n2.mapper.Keys
      && Distinct(op.results) && Distinct(op.beforeArgs)
      && All(op.results) !! env.Keys && All(op.beforeArgs) !! env.Keys && All(op.results) !! All(op.beforeArgs)
      && Agree(n2, env, base) && Bounded(n2, base)
      && (forall x :: x in NamesOf(n2, op.results) ==> x in base)
      && (forall x :: x in NamesOf(n2, op.beforeArgs) ==> x in base)
    case _ => false
  }

  /** What the verifier of the input guarantees for the regions of a while loop. */
  ghost predicate WhileRegions(n2: Names, n3: Names, op: Op, scope: set<Value>)
    requires op.While?
  {
    match op
    case While(_, _, _, _, _, _, _) =>
      && WfOps(op.before.ops, scope + All(op.beforeArgs), n2.mapper.Keys)
      && YieldsFrom(op.before, scope + All(op.beforeArgs), |op.results|)
      && op.cond in scope + All(op.beforeArgs) + ResultsOf(op.before.ops)
      && |op.results| == |op.afterArgs| && New(op.afterArgs, n3.mapper.Keys)
      && WfOps(op.after.ops, scope + All(op.afterArgs), n3.mapper.Keys + All(op.afterArgs))
      && YieldsFrom(op.after, scope + All(op.afterArgs), |op.beforeArgs|)
      && SafeYields(op)
    case _ => false
  }

  /** Two blocks of variables, disjoint, in any store: writing one leaves the other. */
  lemma PutsCommute(st: Store, xs: seq<Name>, a: seq<int>, rs: seq<Name>, b: seq<int>)
    requires |xs| == |a| && |rs| == |b| && Distinct(xs) && Distinct(rs)
    requires forall x :: x in xs ==> x !in rs
    ensures Put(Put(st, xs, a), rs, b) == Put(Put(st, rs, b), xs, a)
  {
    PutFacts(st, xs, a);
    PutFacts(st, rs, b);
    PutFacts(Put(st, xs, a), rs, b);
    assert forall k :: 0 <= k < |xs| ==> xs[k] in xs;
    assert forall k :: 0 <= k < |rs| ==> rs[k] in rs;
    PutUnique(Put(st, rs, b), Put(Put(st, xs, a), rs, b), xs, a);
  }

  lemma WhileNames(n2: Names, op: Op, env: Env, base: Store)
    requires op.While? && WhileVariables(n2, op, env, base)
    ensures Distinct(NamesOf(n2, op.results)) && Distinct(NamesOf(n2, op.beforeArgs))
    ensures forall x :: x in NamesOf(n2, op.beforeArgs) ==> x !in NamesOf(n2, op.results)
    ensures forall v :: v in env ==> n2.mapper[v] !in NamesOf(n2, op.beforeArgs) && n2.mapper[v] !in NamesOf(n2, op.results)
    ensures forall v :: v in op.results ==> v in n2.mapper
    ensures forall v :: v in op.beforeArgs ==> v in n2.mapper
  {
    forall v | v in op.results ensures v in n2.mapper { assert v in All(op.results); }
    forall v | v in op.beforeArgs ensures v in n2.mapper { assert v in All(op.beforeArgs); }
    NamesOfDistinct(n2, op.results);
    NamesOfDistinct(n2, op.beforeArgs);
    EnvNotCarried(n2, op.results, env);
    EnvNotCarried(n2, op.beforeArgs, env);
    var args := map v | v in op.beforeArgs :: 0;
    assert args.Keys == All(op.beforeArgs);
    EnvNotCarried(n2, op.results, args);
    var xs := NamesOf(n2, op.beforeArgs);
    forall x | x in xs ensures x !in NamesOf(n2, op.results) {
      var k :| 0 <= k < |xs| && xs[k] == x;
      assert op.beforeArgs[k] in args;
    }
  }

  /** The head of an iteration carrying vals agrees with the before region's environment. */
  lemma WhileHeadAgrees(n2: Names, op: Op, env: Env, base: Store, vals: seq<int>)
    requires op.While? && WhileVariables(n2, op, env, base) && |vals| == |op.beforeArgs|
    ensures var st := Put(base, NamesOf(n2, op.beforeArgs), vals); var env' := Bind(env, op.beforeArgs, vals);
            && st.Keys == base.Keys
            && WhileVariables(n2, op, env, st) && Agree(n2, env', st)
            && env'.Keys == env.Keys + All(op.beforeArgs)
  {
    var xs := NamesOf(n2, op.beforeArgs);
    WhileNames(n2, op, env, base);
    PutFacts(base, xs, vals);
    NamesWithin(n2, op.beforeArgs, base);
    CarriedAgrees(n2, op.beforeArgs, env, vals, base);
    var st := Put(base, xs, vals);
    assert forall v :: v in env ==> base[n2.mapper[v]] == Some(env[v]);
    assert Agree(n2, env, st);
  }

  /** Values bound to vs and the variables of vs filled accordingly agree. */
  lemma CarriedAgrees(n: Names, vs: seq<Value>, env: Env, vals: seq<int>, base: Store)
    requires Good(n) && Distinct(vs) && |vs| == |vals| && All(vs) !! env.Keys && env.Keys <= n.mapper.Keys && All(vs) <= n.mapper.Keys
    requires Agree(n, env, base)
    ensures Agree(n, Bind(env, vs, vals), Put(base, NamesOf(n, vs), vals))
    ensures Bind(env, vs, vals).Keys == env.Keys + All(vs)
  {
    var xs := NamesOf(n, vs);
    forall v | v in vs ensures v in n.mapper { assert v in All(vs); }
    NamesOfDistinct(n, vs);
    PutFacts(base, xs, vals);
    BindFacts(env, vs, vals);
    EnvNotCarried(n, vs, env);
    var env', st := Bind(env, vs, vals), Put(base, xs, vals);
    forall v | v in env' ensures n.mapper[v] in st && st[n.mapper[v]] == Some(env'[v]) {
      if v in vs {
        var k :| 0 <= k < |vs| && vs[k] == v;
        assert xs[k] == n.mapper[v];
      } else {
        assert v !in All(vs) && env'[v] == env[v] && base[n.mapper[v]] == Some(env[v]);
      }
    }
  }

  /** The store after the first half: results and after arguments hold what the condition passes. */
  ghost predicate Passed(n2: Names, n4: Names, op: Op, env: Env, env1: Env, st: Store, st1: Store)
    requires op.While? && |op.results| == |op.afterArgs| == |op.before.outs|
  {
    var passed := GetAll(env1, op.before.outs);
    && Agree(n4, Bind(env, op.afterArgs, passed), st1) && Bounded(n4, st1)
    && Ready(st1, [NameOf(n4, op.cond)]) && NameOf(n4, op.cond) in st1
    && st1[NameOf(n4, op.cond)] == Some(Get(env1, op.cond))
    && Leave(st1, st) == Put(st, NamesOf(n2, op.results), passed)
    && st.Keys <= st1.Keys
  }

  lemma {:induction false} FirstHalfRuns(m: Machine, op: Op, n2: Names, n3: Names, before: seq<Stmt>,
                                         env: Env, mem: Mem, st: Store, vals: seq<int>, fuel: nat) returns (st1: Store)
    requires op.While? && WhileVariables(n2, op, env, st) && WhileRegions(n2, n3, op, env.Keys) && |vals| == |op.beforeArgs|
    requires EmitOps(n2, op.before.ops) == Emitted(n3, before) && Grown(n2, n3, DefsOf(op.before.ops))
    requires Agree(n2, Bind(env, op.beforeArgs, vals), st)
    requires Bind(env, op.beforeArgs, vals).Keys == env.Keys + All(op.beforeArgs)
    ensures var n4 := NamingAll(n3, op.afterArgs);
            var run := RunStmts(m, FirstHalf(op, n3, n4, before), st, mem, fuel);
            match EvalOps(m, op.before.ops, Bind(env, op.beforeArgs, vals), mem, fuel)
            case Timeout => run == OutOfFuel
            case Done(env1, mem1) => run == Next(st1, mem1) && Passed(n2, n4, op, env, env1, st, st1)
    decreases fuel, op, 1
  {
    var n4 := NamingAll(n3, op.afterArgs);
    var env0 := Bind(env, op.beforeArgs, vals);
    OpsMirror(m, n2, op.before.ops, n3, before, env0, mem, st, fuel);
    var inits := Inits(NamesOf(n4, op.afterArgs), NamesOf(n3, op.before.outs));
    var copies := Copies(NamesOf(n4, op.results), NamesOf(n4, op.before.outs));
    RunConcat(m, before, inits + copies, st, mem, fuel);
    match EvalOps(m, op.before.ops, env0, mem, fuel)
    case Timeout => st1 := st;
    case Done(env1, mem1) =>
      var sta := RunStmts(m, before, st, mem, fuel).store;
      BindFacts(env, op.beforeArgs, vals) by { assert Distinct(op.beforeArgs); }
      EnvCarriedOver(op, env, env0, env1);
      st1 := PassedRuns(m, op, n2, n3, env, env1, mem1, st, sta, fuel);
  }

  lemma EnvCarriedOver(op: Op, env: Env, env0: Env, env1: Env)
    requires op.While? && All(op.beforeArgs) !! env.Keys
    requires env.Keys <= env0.Keys && forall v :: v in env && v !in op.beforeArgs ==> env0[v] == env[v]
    requires forall v {:trigger env1[v]} {:trigger env0[v]} :: v in env0 ==> v in env1 && env1[v] == env0[v]
    ensures forall v {:trigger env1[v]} {:trigger env[v]} :: v in env ==> v in env1 && env1[v] == env[v]
  {
    forall v | v in env ensures v in env1 && env1[v] == env[v] {
      assert v !in All(op.beforeArgs);
      assert env0[v] == env[v];
    }
  }

  /** The declarations of the after arguments and the copies into the results. */
  lemma PassedRuns(m: Machine, op: Op, n2: Names, n3: Names, env: Env, env1: Env, mem1: Mem, st: Store, sta: Store, fuel: nat)
    returns (st1: Store)
    requires op.While? && WhileVariables(n2, op, env, st) && WhileRegions(n2, n3, op, env.Keys)
    requires Grown(n2, n3, DefsOf(op.before.ops))
    requires Agree(n3, env1, sta) && Framed(n2, n3, st, sta)
    requires env1.Keys == env.Keys + All(op.beforeArgs) + ResultsOf(op.before.ops)
    requires forall v {:trigger env1[v]} {:trigger env[v]} :: v in env ==> v in env1 && env1[v] == env[v]
    ensures var n4 := NamingAll(n3, op.afterArgs);
            && RunStmts(m, Inits(NamesOf(n4, op.afterArgs), NamesOf(n3, op.before.outs)) +
                           Copies(NamesOf(n4, op.results), NamesOf(n4, op.before.outs)), sta, mem1, fuel) == Next(st1, mem1)
            && Passed(n2, n4, op, env, env1, st, st1)
  {
    var n4 := NamingAll(n3, op.afterArgs);
    var passed := GetAll(env1, op.before.outs);
    var env2 := Bind(env, op.afterArgs, passed);
    var stb := InitsRun(m, n2, n3, op, env, env1, mem1, st, sta, fuel);
    ResultsApart(n2, n3, op, env, env1);
    WhileNames(n2, op, env, st);
    NamesOfKept(n2, n4, op.results);
    ResultsCopied(m, n4, op, env1, env2, mem1, stb, fuel);
    st1 := Put(stb, NamesOf(n4, op.results), passed);
    RunConcat(m, Inits(NamesOf(n4, op.afterArgs), NamesOf(n3, op.before.outs)),
              Copies(NamesOf(n4, op.results), NamesOf(n4, op.before.outs)), sta, mem1, fuel);
    PutLeaves(st, stb, NamesOf(n2, op.results), passed);
    PutFacts(stb, NamesOf(n4, op.results), passed);
  }

  lemma ResultsApart(n2: Names, n3: Names, op: Op, env: Env, env1: Env)
    requires op.While? && WhileRegions(n2, n3, op, env.Keys)
    requires env.Keys <= n2.mapper.Keys && All(op.results) <= n2.mapper.Keys && All(op.beforeArgs) <= n2.mapper.Keys
    requires All(op.results) !! env.Keys && All(op.results) !! All(op.beforeArgs)
    requires Grown(n2, n3, DefsOf(op.before.ops))
    requires env1.Keys == env.Keys + All(op.beforeArgs) + ResultsOf(op.before.ops)
    ensures All(op.results) !! env1.Keys && All(op.results) !! All(op.afterArgs)
    ensures env1.Keys <= n3.mapper.Keys && All(op.afterArgs) !! env.Keys
  {
    ResultsAreDefs(op.before.ops);
    DefsAreNew(op.before.ops, env.Keys + All(op.beforeArgs), n2.mapper.Keys);
  }

  /** What a larger environment agrees with, a smaller one does, too. */
  lemma AgreeEarlier(n3: Names, n4: Names, env: Env, env1: Env, sta: Store)
    requires Extends(n3, n4) && Agree(n3, env1, sta)
    requires forall v {:trigger env1[v]} {:trigger env[v]} :: v in env ==> v in env1 && env1[v] == env[v]
    ensures Agree(n4, env, sta)
  {
    forall v | v in env ensures v in n4.mapper && n4.mapper[v] in sta && sta[n4.mapper[v]] == Some(env[v]) {
      assert env1[v] == env[v];
    }
  }

  lemma InitsRun(m: Machine, n2: Names, n3: Names, op: Op, env: Env, env1: Env, mem1: Mem, st: Store, sta: Store, fuel: nat)
    returns (stb: Store)
    requires op.While? && WhileVariables(n2, op, env, st) && WhileRegions(n2, n3, op, env.Keys)
    requires Grown(n2, n3, DefsOf(op.before.ops))
    requires Agree(n3, env1, sta) && Framed(n2, n3, st, sta)
    requires env1.Keys == env.Keys + All(op.beforeArgs) + ResultsOf(op.before.ops)
    requires forall v {:trigger env1[v]} {:trigger env[v]} :: v in env ==> v in env1 && env1[v] == env[v]
    ensures var n4 := NamingAll(n3, op.afterArgs);
            && Good(n4) && Extends(n2, n4) && n4.mapper.Keys == n3.mapper.Keys + All(op.afterArgs)
            && RunStmts(m, Inits(NamesOf(n4, op.afterArgs), NamesOf(n3, op.before.outs)), sta, mem1, fuel) == Next(stb, mem1)
            && Agree(n4, env1, stb) && Bounded(n4, stb)
            && Agree(n4, Bind(env, op.afterArgs, GetAll(env1, op.before.outs)), stb)
            && Bind(env, op.afterArgs, GetAll(env1, op.before.outs)).Keys == env.Keys + All(op.afterArgs)
    ensures forall x :: x in st ==> x in stb && stb[x] == st[x]
  {
    var n4 := NamingAll(n3, op.afterArgs);
    var passed := GetAll(env1, op.before.outs);
    NamingAllGrows(n3, op.afterArgs);
    ExtendsThen(n2, n3, n4);
    ResultsApart(n2, n3, op, env, env1);
    FramedBounded(n2, n3, st, sta);
    stb := InitsNamed(m, n3, n4, op.afterArgs, op.before.outs, env, env1, mem1, sta, fuel);
  }

  /** The new variables vs hold what the sources have in the larger environment. */
  lemma InitsNamed(m: Machine, n3: Names, n4: Names, vs: seq<Value>, sources: seq<Value>, env: Env, env1: Env, mem: Mem, sta: Store, fuel: nat)
    returns (stb: Store)
    requires Good(n4) && Extends(n3, n4) && New(vs, n3.mapper.Keys) && All(vs) <= n4.mapper.Keys && All(vs) !! env.Keys
    requires |vs| == |sources| && All(sources) <= env1.Keys && env.Keys <= n4.mapper.Keys
    requires Agree(n3, env1, sta) && Bounded(n3, sta)
    requires forall v {:trigger env1[v]} {:trigger env[v]} :: v in env ==> v in env1 && env1[v] == env[v]
    ensures RunStmts(m, Inits(NamesOf(n4, vs), NamesOf(n3, sources)), sta, mem, fuel) == Next(stb, mem)
    ensures Agree(n4, env1, stb) && Bounded(n4, stb) && Agree(n4, Bind(env, vs, GetAll(env1, sources)), stb)
    ensures Bind(env, vs, GetAll(env1, sources)).Keys == env.Keys + All(vs)
    ensures forall x :: x in sta ==> x in stb && stb[x] == sta[x]
  {
    NewNames(n3, n4, vs, sta);
    stb := InitsPut(m, n3, NamesOf(n4, vs), sources, env1, mem, sta, fuel);
    AgreeKept(n3, n4, env1, sta, stb);
    AgreeEarlier(n3, n4, env, env1, sta);
    CarriedAgrees(n4, vs, env, GetAll(env1, sources), sta);
  }

  /** Initialising new variables puts the values of the sources into them. */
  lemma InitsPut(m: Machine, n: Names, xs: seq<Name>, sources: seq<Value>, env: Env, mem: Mem, st: Store, fuel: nat)
    returns (st1: Store)
    requires |xs| == |sources| && Distinct(xs) && All(sources) <= env.Keys && Agree(n, env, st)
    requires forall x :: x in xs ==> x !in st
    ensures RunStmts(m, Inits(xs, NamesOf(n, sources)), st, mem, fuel) == Next(st1, mem)
    ensures st1 == Put(st, xs, GetAll(env, sources))
    ensures forall x :: x in st ==> x in st1 && st1[x] == st[x]
    ensures forall x {:trigger x in st1} :: x in st1 ==> x in st || x in xs
  {
    st1 := InitsLoad(m, n, xs, sources, env, mem, st, fuel);
    PutUnique(st, st1, xs, GetAll(env, sources));
  }

  lemma ResultsCopied(m: Machine, n4: Names, op: Op, env1: Env, env2: Env, mem1: Mem, stb: Store, fuel: nat)
    requires op.While? && Good(n4) && Distinct(op.results) && |op.results| == |op.before.outs|
    requires All(op.results) <= n4.mapper.Keys && env1.Keys <= n4.mapper.Keys && env2.Keys <= n4.mapper.Keys
    requires All(op.results) !! env1.Keys && All(op.results) !! env2.Keys
    requires Agree(n4, env1, stb) && Agree(n4, env2, stb) && Bounded(n4, stb)
    requires All(op.before.outs) <= env1.Keys && op.cond in env1
    requires forall x :: x in NamesOf(n4, op.results) ==> x in stb
    ensures var st1 := Put(stb, NamesOf(n4, op.results), GetAll(env1, op.before.outs));
            && RunStmts(m, Copies(NamesOf(n4, op.results), NamesOf(n4, op.before.outs)), stb, mem1, fuel) == Next(st1, mem1)
            && Agree(n4, env2, st1) && Bounded(n4, st1)
            && NameOf(n4, op.cond) in st1 && st1[NameOf(n4, op.cond)] == Some(Get(env1, op.cond))
            && Ready(st1, [NameOf(n4, op.cond)])
  {
    var rs := NamesOf(n4, op.results);
    var passed := GetAll(env1, op.before.outs);
    var outs := op.before.outs;
    forall v | v in op.results ensures v in n4.mapper && v !in outs {
      assert v in All(op.results);
      assert v !in All(outs);
    }
    DisjointNotOverwritten(op.results, op.before.outs);
    YieldCopies(m, n4, op.results, op.before.outs, env1, mem1, stb, fuel);
    NamesOfDistinct(n4, op.results);
    PutFacts(stb, rs, passed);
    NamesWithin(n4, op.results, stb);
    EnvNotCarried(n4, op.results, env1);
    EnvNotCarried(n4, op.results, env2);
    var st1 := Put(stb, rs, passed);
    forall v | v in env2 ensures v in n4.mapper && n4.mapper[v] in st1 && st1[n4.mapper[v]] == Some(env2[v]) {
      assert stb[n4.mapper[v]] == Some(env2[v]);
    }
    assert Agree(n4, env1, st1) by {
      forall v | v in env1 ensures v in n4.mapper && n4.mapper[v] in st1 && st1[n4.mapper[v]] == Some(env1[v]) {
        assert stb[n4.mapper[v]] == Some(env1[v]);
      }
    }
    ReadyAgreed(n4, env1, st1, op.cond);
  }

  /** Leaving an inner block and then an outer one is leaving the outer one. */
  lemma LeaveTwice(r: Run, inner: Store, outer: Store)
    requires outer.Keys <= inner.Keys
    ensures LeaveBlock(LeaveBlock(r, inner), outer) == LeaveBlock(r, outer)
  {
    if r.Next? || r.Broke? {
      assert Leave(Leave(r.store, inner), outer) == Leave(r.store, outer);
    }
  }

  /** One iteration of the printed while loop. */
  ghost predicate WhileTurn(m: Machine, op: Op, n2: Names, env: Env, base: Store, mem: Mem, vals: seq<int>, fuel: nat, run: Run)
    requires op.While?
  {
    var xs, rs := NamesOf(n2, op.beforeArgs), NamesOf(n2, op.results);
    match EvalOps(m, op.before.ops, Bind(env, op.beforeArgs, vals), mem, fuel)
    case Timeout => run == OutOfFuel
    case Done(env1, mem1) =>
      var passed := GetAll(env1, op.before.outs);
      if !m.truthy(Get(env1, op.cond)) then run == Broke(Put(Put(base, xs, vals), rs, passed), mem1)
      else
        match EvalRegion(m, op.after, Bind(env, op.afterArgs, passed), mem1, fuel)
        case NoValues => run == OutOfFuel
        case Values(vals', mem2) => run == Next(Put(Put(base, rs, passed), xs, vals'), mem2)
  }

  /** A conditional break behind code that ends normally, seen from outside the block. */
  lemma BreakTurn(m: Machine, a: seq<Stmt>, c: Name, b: seq<Stmt>, st: Store, mem: Mem, st1: Store, mem1: Mem, v: int, fuel: nat)
    requires RunStmts(m, a, st, mem, fuel) == Next(st1, mem1) && c in st1 && st1[c] == Some(v)
    ensures LeaveBlock(RunStmts(m, a + ([BreakUnless(c)] + b), st, mem, fuel), st)
            == if m.truthy(v) then LeaveBlock(RunStmts(m, b, st1, mem1, fuel), st) else Broke(Leave(st1, st), mem1)
  {
    RunAroundBreak(m, a, c, b, st, mem, fuel);
  }

  lemma {:induction false} WhileTurns(m: Machine, op: Op, n2: Names, n3: Names, n5: Names, before: seq<Stmt>, after: seq<Stmt>,
                                      env: Env, base: Store, mem: Mem, vals: seq<int>, fuel: nat) returns (turn: Run)
    requires op.While? && WhileVariables(n2, op, env, base) && WhileRegions(n2, n3, op, env.Keys) && |vals| == |op.beforeArgs|
    requires EmitOps(n2, op.before.ops) == Emitted(n3, before) && Grown(n2, n3, DefsOf(op.before.ops))
    requires EmitOps(NamingAll(n3, op.afterArgs), op.after.ops) == Emitted(n5, after)
    requires Grown(NamingAll(n3, op.afterArgs), n5, DefsOf(op.after.ops))
    ensures var st := Put(base, NamesOf(n2, op.beforeArgs), vals);
            turn == LeaveBlock(RunStmts(m, WhileBody(op, n3, NamingAll(n3, op.afterArgs), n5, before, after), st, mem, fuel), st)
    ensures WhileTurn(m, op, n2, env, base, mem, vals, fuel, turn)
    decreases fuel, op, 2, 1
  {
    var n4 := NamingAll(n3, op.afterArgs);
    var xs, rs := NamesOf(n2, op.beforeArgs), NamesOf(n2, op.results);
    var st := Put(base, xs, vals);
    WhileHeadAgrees(n2, op, env, base, vals);
    var st1 := FirstHalfRuns(m, op, n2, n3, before, env, mem, st, vals, fuel);
    var rest := after + Copies(NamesOf(n5, op.beforeArgs), NamesOf(n5, op.after.outs));
    turn := LeaveBlock(RunStmts(m, WhileBody(op, n3, n4, n5, before, after), st, mem, fuel), st);
    match EvalOps(m, op.before.ops, Bind(env, op.beforeArgs, vals), mem, fuel)
    case Timeout => RunAroundBreak(m, FirstHalf(op, n3, n4, before), NameOf(n4, op.cond), rest, st, mem, fuel);
    case Done(env1, mem1) =>
      BreakTurn(m, FirstHalf(op, n3, n4, before), NameOf(n4, op.cond), rest, st, mem, st1, mem1, Get(env1, op.cond), fuel);
      if m.truthy(Get(env1, op.cond)) {
        SecondHalfRuns(m, op, n2, n3, n5, after, env, env1, base, vals, mem1, st1, fuel);
      }
  }

  /** The after region and the copies of its yield. */
  lemma {:induction false} SecondHalfRuns(m: Machine, op: Op, n2: Names, n3: Names, n5: Names, after: seq<Stmt>,
                                          env: Env, env1: Env, base: Store, vals: seq<int>, mem1: Mem, st1: Store, fuel: nat)
    requires op.While? && WhileVariables(n2, op, env, base) && WhileRegions(n2, n3, op, env.Keys) && |vals| == |op.beforeArgs|
    requires Grown(n2, n3, DefsOf(op.before.ops))
    requires EmitOps(NamingAll(n3, op.afterArgs), op.after.ops) == Emitted(n5, after)
    requires Grown(NamingAll(n3, op.afterArgs), n5, DefsOf(op.after.ops))
    requires Passed(n2, NamingAll(n3, op.afterArgs), op, env, env1, Put(base, NamesOf(n2, op.beforeArgs), vals), st1)
    ensures var xs, rs := NamesOf(n2, op.beforeArgs), NamesOf(n2, op.results);
            var st := Put(base, xs, vals); var passed := GetAll(env1, op.before.outs);
            LeaveBlock(RunStmts(m, after + Copies(NamesOf(n5, op.beforeArgs), NamesOf(n5, op.after.outs)), st1, mem1, fuel), st)
            == Delivered(Put(base, rs, passed), xs, EvalRegion(m, op.after, Bind(env, op.afterArgs, passed), mem1, fuel))
    decreases fuel, op, 2, 0
  {
    var st := Put(base, NamesOf(n2, op.beforeArgs), vals);
    var passed := GetAll(env1, op.before.outs);
    HeadKeys(n2, op, env, base, vals);
    AfterRuns(m, op, n2, n3, n5, after, env, env1, base, st, mem1, st1, fuel);
    PassedLeaves(n2, NamingAll(n3, op.afterArgs), op, env, env1, base, st1, vals,
                 RunStmts(m, after + Copies(NamesOf(n5, op.beforeArgs), NamesOf(n5, op.after.outs)), st1, mem1, fuel),
                 EvalRegion(m, op.after, Bind(env, op.afterArgs, passed), mem1, fuel));
  }

  lemma HeadKeys(n2: Names, op: Op, env: Env, base: Store, vals: seq<int>)
    requires op.While? && WhileVariables(n2, op, env, base) && |vals| == |op.beforeArgs|
    ensures Put(base, NamesOf(n2, op.beforeArgs), vals).Keys == base.Keys
  {
    WhileHeadAgrees(n2, op, env, base, vals);
  }

  lemma PassedLeaves(n2: Names, n4: Names, op: Op, env: Env, env1: Env, base: Store, st1: Store, vals: seq<int>, run: Run, o: Outcome)
    requires op.While? && WhileVariables(n2, op, env, base) && |op.results| == |op.afterArgs| == |op.before.outs|
    requires |vals| == |op.beforeArgs| && (o.Values? ==> |o.vals| == |vals|)
    requires Passed(n2, n4, op, env, env1, Put(base, NamesOf(n2, op.beforeArgs), vals), st1)
    requires LeaveBlock(run, st1) == Delivered(st1, NamesOf(n2, op.beforeArgs), o)
    ensures LeaveBlock(run, Put(base, NamesOf(n2, op.beforeArgs), vals))
            == Delivered(Put(base, NamesOf(n2, op.results), GetAll(env1, op.before.outs)), NamesOf(n2, op.beforeArgs), o)
  {
    SecondHalfLeaves(n2, op, env, base, st1, vals, GetAll(env1, op.before.outs), run, o);
  }

  /** Leaving the iteration after its second half. */
  lemma SecondHalfLeaves(n2: Names, op: Op, env: Env, base: Store, st1: Store, vals: seq<int>, passed: seq<int>, run: Run, o: Outcome)
    requires op.While? && WhileVariables(n2, op, env, base)
    requires |vals| == |op.beforeArgs| && |passed| == |op.results| && (o.Values? ==> |o.vals| == |vals|)
    requires var st := Put(base, NamesOf(n2, op.beforeArgs), vals);
             st.Keys <= st1.Keys && Leave(st1, st) == Put(st, NamesOf(n2, op.results), passed)
    requires LeaveBlock(run, st1) == Delivered(st1, NamesOf(n2, op.beforeArgs), o)
    ensures LeaveBlock(run, Put(base, NamesOf(n2, op.beforeArgs), vals))
            == Delivered(Put(base, NamesOf(n2, op.results), passed), NamesOf(n2, op.beforeArgs), o)
  {
    LeaveTwice(run, st1, Put(base, NamesOf(n2, op.beforeArgs), vals));
    match o
    case NoValues =>
    case Values(vals', mem2) => NextHead(n2, op, env, base, st1, vals, passed, vals');
  }

  lemma {:induction false} AfterRuns(m: Machine, op: Op, n2: Names, n3: Names, n5: Names, after: seq<Stmt>,
                                     env: Env, env1: Env, base: Store, st: Store, mem1: Mem, st1: Store, fuel: nat)
    requires op.While? && WhileVariables(n2, op, env, base) && WhileRegions(n2, n3, op, env.Keys) && st.Keys == base.Keys
    requires Grown(n2, n3, DefsOf(op.before.ops))
    requires EmitOps(NamingAll(n3, op.afterArgs), op.after.ops) == Emitted(n5, after)
    requires Passed(n2, NamingAll(n3, op.afterArgs), op, env, env1, st, st1)
    ensures var xs := NamesOf(n2, op.beforeArgs); var passed := GetAll(env1, op.before.outs);
            LeaveBlock(RunStmts(m, after + Copies(NamesOf(n5, op.beforeArgs), NamesOf(n5, op.after.outs)), st1, mem1, fuel), st1)
            == Delivered(st1, xs, EvalRegion(m, op.after, Bind(env, op.afterArgs, passed), mem1, fuel))
    decreases fuel, op, 1, 9
  {
    var passed := GetAll(env1, op.before.outs);
    AfterReady(n2, n3, op, env, passed);
    assert forall x :: x in NamesOf(n2, op.beforeArgs) ==> x in base && x in st1;
    BlockMirrors(m, NamingAll(n3, op.afterArgs), op.beforeArgs, op.after, n5, after,
                 Bind(env, op.afterArgs, passed), mem1, st1, fuel);
  }

  /** The before arguments are not among the values the after region can yield. */
  lemma AfterReady(n2: Names, n3: Names, op: Op, env: Env, passed: seq<int>)
    requires op.While? && WhileRegions(n2, n3, op, env.Keys) && Grown(n2, n3, DefsOf(op.before.ops))
    requires Good(n2) && env.Keys <= n2.mapper.Keys && All(op.results) <= n2.mapper.Keys && All(op.beforeArgs) <= n2.mapper.Keys
    requires Distinct(op.beforeArgs) && All(op.beforeArgs) !! env.Keys && |passed| == |op.afterArgs|
    ensures var n4 := NamingAll(n3, op.afterArgs);
            && Good(n4) && n4.mapper.Keys == n3.mapper.Keys + All(op.afterArgs) && All(op.beforeArgs) <= n4.mapper.Keys
            && NamesOf(n4, op.beforeArgs) == NamesOf(n2, op.beforeArgs)
            && Bind(env, op.afterArgs, passed).Keys == env.Keys + All(op.afterArgs)
    ensures !Overwritten(op.beforeArgs, op.after.outs)
  {
    var n4 := NamingAll(n3, op.afterArgs);
    NamingAllGrows(n3, op.afterArgs);
    ExtendsThen(n2, n3, n4);
    forall v | v in op.beforeArgs ensures v in n2.mapper { assert v in All(op.beforeArgs); }
    NamesOfKept(n2, n4, op.beforeArgs);
    BindFacts(env, op.afterArgs, passed);
    ResultsAreDefs(op.after.ops);
    DefsAreNew(op.after.ops, env.Keys + All(op.afterArgs), n3.mapper.Keys + All(op.afterArgs));
    var outs := op.after.outs;
    forall v | v in op.beforeArgs ensures v !in outs {
      assert v in All(op.beforeArgs);
      assert v !in All(outs);
    }
    DisjointNotOverwritten(op.beforeArgs, op.after.outs);
  }

  lemma NextHead(n2: Names, op: Op, env: Env, base: Store, st1: Store, vals: seq<int>, passed: seq<int>, vals': seq<int>)
    requires op.While? && WhileVariables(n2, op, env, base)
    requires |vals| == |op.beforeArgs| == |vals'| && |passed| == |op.results|
    requires var st := Put(base, NamesOf(n2, op.beforeArgs), vals);
             st.Keys <= st1.Keys && Leave(st1, st) == Put(st, NamesOf(n2, op.results), passed)
    ensures Leave(Put(st1, NamesOf(n2, op.beforeArgs), vals'), Put(base, NamesOf(n2, op.beforeArgs), vals))
            == Put(Put(base, NamesOf(n2, op.results), passed), NamesOf(n2, op.beforeArgs), vals')
  {
    var xs, rs := NamesOf(n2, op.beforeArgs), NamesOf(n2, op.results);
    var st := Put(base, xs, vals);
    WhileNames(n2, op, env, base);
    PutFacts(base, xs, vals);
    PutsCommute(base, xs, vals, rs, passed);
    PutTwice(Put(base, rs, passed), xs, vals, vals');
    LeaveKeepsPut(st1, st, xs, vals');
  }

  lemma LeaveKeepsPut(st1: Store, st: Store, xs: seq<Name>, vals: seq<int>)
    requires |xs| == |vals| && Distinct(xs) && st.Keys <= st1.Keys && forall x :: x in xs ==> x in st
    ensures Leave(Put(st1, xs, vals), st) == Put(Leave(st1, st), xs, vals)
  {
    PutFacts(st1, xs, vals);
    assert forall k :: 0 <= k < |xs| ==> xs[k] in xs;
    PutUnique(Leave(st1, st), Leave(Put(st1, xs, vals), st), xs, vals);
  }

  /** From any iteration on, the C loop passes on the same values as the structured loop. */
  lemma {:induction false} WhileLoopMirrors(m: Machine, op: Op, n2: Names, n3: Names, n5: Names, before: seq<Stmt>, after: seq<Stmt>,
                                            env: Env, base: Store, mem: Mem, vals: seq<int>, fuel: nat) returns (last: seq<int>)
    requires op.While? && WhileVariables(n2, op, env, base) && WhileRegions(n2, n3, op, env.Keys) && |vals| == |op.beforeArgs|
    requires EmitOps(n2, op.before.ops) == Emitted(n3, before) && Grown(n2, n3, DefsOf(op.before.ops))
    requires EmitOps(NamingAll(n3, op.afterArgs), op.after.ops) == Emitted(n5, after)
    requires Grown(NamingAll(n3, op.afterArgs), n5, DefsOf(op.after.ops))
    ensures |last| == |vals|
    ensures var xs, rs := NamesOf(n2, op.beforeArgs), NamesOf(n2, op.results);
            RunWhile(m, WhileTrue(WhileBody(op, n3, NamingAll(n3, op.afterArgs), n5, before, after)), Put(base, xs, vals), mem, fuel)
            == Delivered(Put(base, xs, last), rs, EvalWhile(m, op, env, mem, vals, fuel))
    decreases fuel, op, 2, 2
  {
    last := vals;
    if fuel > 0 {
      var turn := WhileTurns(m, op, n2, n3, n5, before, after, env, base, mem, vals, fuel - 1);
      RunWhileTurns(m, WhileTrue(WhileBody(op, n3, NamingAll(n3, op.afterArgs), n5, before, after)),
                    Put(base, NamesOf(n2, op.beforeArgs), vals), mem, fuel, turn);
      if !turn.Next? {
        WhileStops(m, op, n2, env, base, mem, vals, fuel - 1, turn);
      } else {
        last := WhileContinues(m, op, n2, n3, n5, before, after, env, base, mem, vals, fuel - 1, turn);
      }
    }
  }

  /** The loop after an iteration that goes on. */
  lemma {:induction false} WhileContinues(m: Machine, op: Op, n2: Names, n3: Names, n5: Names, before: seq<Stmt>, after: seq<Stmt>,
                                          env: Env, base: Store, mem: Mem, vals: seq<int>, fuel: nat, turn: Run) returns (last: seq<int>)
    requires op.While? && WhileVariables(n2, op, env, base) && WhileRegions(n2, n3, op, env.Keys) && |vals| == |op.beforeArgs|
    requires EmitOps(n2, op.before.ops) == Emitted(n3, before) && Grown(n2, n3, DefsOf(op.before.ops))
    requires EmitOps(NamingAll(n3, op.afterArgs), op.after.ops) == Emitted(n5, after)
    requires Grown(NamingAll(n3, op.afterArgs), n5, DefsOf(op.after.ops))
    requires WhileTurn(m, op, n2, env, base, mem, vals, fuel, turn) && turn.Next?
    ensures |last| == |vals|
    ensures var xs, rs := NamesOf(n2, op.beforeArgs), NamesOf(n2, op.results);
            RunWhile(m, WhileTrue(WhileBody(op, n3, NamingAll(n3, op.afterArgs), n5, before, after)), turn.store, turn.mem, fuel)
            == Delivered(Put(base, xs, last), rs, EvalWhile(m, op, env, mem, vals, fuel + 1))
    decreases fuel, op, 2, 3
  {
    WhileGoesOn(m, op, n2, env, base, mem, vals, fuel, turn);
    var passed := PassedVals(m, op, env, mem, vals, fuel);
    var vals' := NextVals(m, op, env, mem, vals, fuel);
    BaseKept(n2, op, env, base, passed);
    last := WhileLoopMirrors(m, op, n2, n3, n5, before, after, env, Put(base, NamesOf(n2, op.results), passed), turn.mem, vals', fuel);
    FinalStore(m, n2, op, env, base, passed, last, turn.mem, vals', fuel);
  }

  /** An iteration that is the last one. */
  lemma WhileStops(m: Machine, op: Op, n2: Names, env: Env, base: Store, mem: Mem, vals: seq<int>, fuel: nat, turn: Run)
    requires op.While? && WhileTurn(m, op, n2, env, base, mem, vals, fuel, turn) && !turn.Next?
    ensures turn == OutOfFuel || turn.Broke?
    ensures (if turn.Broke? then Next(turn.store, turn.mem) else OutOfFuel)
            == Delivered(Put(base, NamesOf(n2, op.beforeArgs), vals), NamesOf(n2, op.results), EvalWhile(m, op, env, mem, vals, fuel + 1))
  {
  }

  lemma WhileGoesOn(m: Machine, op: Op, n2: Names, env: Env, base: Store, mem: Mem, vals: seq<int>, fuel: nat, turn: Run)
    requires op.While? && |op.after.outs| == |op.beforeArgs| && WhileTurn(m, op, n2, env, base, mem, vals, fuel, turn) && turn.Next?
    ensures turn.store == Put(Put(base, NamesOf(n2, op.results), PassedVals(m, op, env, mem, vals, fuel)),
                              NamesOf(n2, op.beforeArgs), NextVals(m, op, env, mem, vals, fuel))
    ensures EvalWhile(m, op, env, mem, vals, fuel + 1)
            == EvalWhile(m, op, env, turn.mem, NextVals(m, op, env, mem, vals, fuel), fuel)
  {
  }

  /** The values that the condition passes on, when it is reached. */
  function PassedVals(m: Machine, op: Op, env: Env, mem: Mem, vals: seq<int>, fuel: nat): (r: seq<int>)
    requires op.While?
    ensures |r| == |op.before.outs|
  {
    match EvalOps(m, op.before.ops, Bind(env, op.beforeArgs, vals), mem, fuel)
    case Timeout => GetAll(env, op.before.outs)
    case Done(env1, mem1) => GetAll(env1, op.before.outs)
  }

  /** The values carried into the next iteration, when there is one. */
  function NextVals(m: Machine, op: Op, env: Env, mem: Mem, vals: seq<int>, fuel: nat): (r: seq<int>)
    requires op.While? && |op.after.outs| == |op.beforeArgs|
    ensures |r| == |op.beforeArgs|
  {
    match EvalOps(m, op.before.ops, Bind(env, op.beforeArgs, vals), mem, fuel)
    case Timeout => GetAll(env, op.beforeArgs)
    case Done(env1, mem1) =>
      match EvalRegion(m, op.after, Bind(env, op.afterArgs, GetAll(env1, op.before.outs)), mem1, fuel)
      case NoValues => GetAll(env, op.beforeArgs)
      case Values(vals', _) => vals'
  }

  lemma BaseKept(n2: Names, op: Op, env: Env, base: Store, passed: seq<int>)
    requires op.While? && WhileVariables(n2, op, env, base) && |passed| == |op.results|
    ensures WhileVariables(n2, op, env, Put(base, NamesOf(n2, op.results), passed))
  {
    var rs := NamesOf(n2, op.results);
    WhileNames(n2, op, env, base);
    PutFacts(base, rs, passed);
    NamesWithin(n2, op.results, base);
    var st := Put(base, rs, passed);
    forall v | v in env ensures n2.mapper[v] in st && st[n2.mapper[v]] == Some(env[v]) {
      assert base[n2.mapper[v]] == Some(env[v]);
    }
  }

  lemma {:induction false} EvalWhileArity(m: Machine, op: Op, env: Env, mem: Mem, vals: seq<int>, fuel: nat)
    requires op.While?
    ensures EvalWhile(m, op, env, mem, vals, fuel).Values? ==> |EvalWhile(m, op, env, mem, vals, fuel).vals| == |op.before.outs|
    decreases fuel
  {
    if fuel > 0 {
      match EvalOps(m, op.before.ops, Bind(env, op.beforeArgs, vals), mem, fuel - 1)
      case Timeout =>
      case Done(env1, mem1) =>
        match EvalRegion(m, op.after, Bind(env, op.afterArgs, GetAll(env1, op.before.outs)), mem1, fuel - 1)
        case NoValues =>
        case Values(vals', mem2) => EvalWhileArity(m, op, env, mem2, vals', fuel - 1);
    }
  }

  lemma FinalStore(m: Machine, n2: Names, op: Op, env: Env, base: Store, passed: seq<int>, last: seq<int>, mem: Mem, vals: seq<int>, fuel: nat)
    requires op.While? && WhileVariables(n2, op, env, base)
    requires |passed| == |op.results| == |op.before.outs| && |last| == |op.beforeArgs|
    ensures var xs, rs := NamesOf(n2, op.beforeArgs), NamesOf(n2, op.results);
            var o := EvalWhile(m, op, env, mem, vals, fuel);
            Delivered(Put(Put(base, rs, passed), xs, last), rs, o) == Delivered(Put(base, xs, last), rs, o)
  {
    var xs, rs := NamesOf(n2, op.beforeArgs), NamesOf(n2, op.results);
    WhileNames(n2, op, env, base);
    EvalWhileArity(m, op, env, mem, vals, fuel);
    match EvalWhile(m, op, env, mem, vals, fuel)
    case NoValues =>
    case Values(passed', mem') =>
      PutsCommute(base, xs, last, rs, passed);
      PutTwice(Put(base, xs, last), rs, passed, passed');
  }

  lemma {:induction false} WhileMirrors(m: Machine, n: Names, op: Op, n': Names, code: seq<Stmt>,
                                        env: Env, mem: Mem, st: Store, fuel: nat)
    requires op.While? && WfWhile(op, env.Keys, n.mapper.Keys) && SafeYields(op) && Good(n)
    requires Agree(n, env, st) && Bounded(n, st)
    requires EmitWhile(n, op) == Emitted(n', code)
    ensures Mirrors(n, n', env, st, EvalOp(m, op, env, mem, fuel), RunStmts(m, code, st, mem, fuel))
    ensures EvalOp(m, op, env, mem, fuel).Done? ==>
              EvalOp(m, op, env, mem, fuel).env.Keys == env.Keys + Results(op)
    decreases fuel, op, 2, 4
  {
    AgreeInScope(n, env, st);
    var n5, n3, before, after, text := EmitWhileGrows(n, op, env.Keys);
    assert WhileHeads(n, op) by { WhileHeadsHold(n, op, env.Keys); }
    assert WhileRegions(WhileHead(n, op), n3, op, env.Keys) by { WhileRegionsHold(n, n3, op, env.Keys); }
    var st2, last := WhileTextRuns(m, n, op, n3, n5, before, after, env, mem, st, fuel);
    var o := EvalWhile(m, op, env, mem, GetAll(env, op.inits), fuel);
    EvalWhileArity(m, op, env, mem, GetAll(env, op.inits), fuel);
    if o.Values? {
      ExtendsThen(WhileHead(n, op), n3, NamingAll(n3, op.afterArgs));
      ExtendsThen(WhileHead(n, op), NamingAll(n3, op.afterArgs), n5);
      WhileFinish(n, n5, op, env, st, st2, last, o.vals, o.mem);
    }
  }

  /** The store before and after a printed scf.while, st2 being the one in front of the loop. */
  ghost predicate WhileEntered(n: Names, op: Op, env: Env, st: Store, st2: Store)
    requires op.While?
  {
    var n2 := WhileHead(n, op);
    && WhileVariables(n2, op, env, st2)
    && Added(st, st2, NamesOf(n2, op.results), NamesOf(n2, op.beforeArgs))
  }

  lemma {:induction false} WhileTextRuns(m: Machine, n: Names, op: Op, n3: Names, n5: Names, before: seq<Stmt>, after: seq<Stmt>,
                                         env: Env, mem: Mem, st: Store, fuel: nat) returns (st2: Store, last: seq<int>)
    requires op.While? && WhileHeads(n, op) && WhileRegions(WhileHead(n, op), n3, op, env.Keys) && Good(n) && env.Keys <= n.mapper.Keys
    requires |op.beforeArgs| == |op.inits| && All(op.inits) <= env.Keys
    requires Agree(n, env, st) && Bounded(n, st)
    requires EmitOps(WhileHead(n, op), op.before.ops) == Emitted(n3, before) && Grown(WhileHead(n, op), n3, DefsOf(op.before.ops))
    requires EmitOps(NamingAll(n3, op.afterArgs), op.after.ops) == Emitted(n5, after)
    requires Grown(NamingAll(n3, op.afterArgs), n5, DefsOf(op.after.ops))
    ensures |last| == |op.beforeArgs| && WhileEntered(n, op, env, st, st2)
    ensures var n2 := WhileHead(n, op);
            RunStmts(m, WhileIntro(n, op) + [WhileTrue(WhileBody(op, n3, NamingAll(n3, op.afterArgs), n5, before, after))], st, mem, fuel)
            == Delivered(Put(st2, NamesOf(n2, op.beforeArgs), last), NamesOf(n2, op.results),
                         EvalWhile(m, op, env, mem, GetAll(env, op.inits), fuel))
    decreases fuel, op, 2, 3
  {
    st2 := WhileEnters(m, n, op, env, mem, st, fuel);
    last := WhileLoopMirrors(m, op, WhileHead(n, op), n3, n5, before, after, env, st2, mem, GetAll(env, op.inits), fuel);
    IntroThenLoop(m, WhileIntro(n, op), WhileTrue(WhileBody(op, n3, NamingAll(n3, op.afterArgs), n5, before, after)), st, mem, st2,
                  Put(st2, NamesOf(WhileHead(n, op), op.beforeArgs), last), NamesOf(WhileHead(n, op), op.results),
                  EvalWhile(m, op, env, mem, GetAll(env, op.inits), fuel), fuel);
  }

  lemma NothingAppended(a: seq<Stmt>)
    ensures a + [] == a
  {
  }

  lemma DeliveredThenNothing(m: Machine, st: Store, xs: seq<Name>, o: Outcome, fuel: nat)
    ensures !Delivered(st, xs, o).Broke? && !Delivered(st, xs, o).Stuck?
    ensures Delivered(st, xs, o).Next? ==>
              RunStmts(m, [], Delivered(st, xs, o).store, Delivered(st, xs, o).mem, fuel) == Delivered(st, xs, o)
  {
  }

  lemma IntroThenLoop(m: Machine, intro: seq<Stmt>, loop: Stmt, st: Store, mem: Mem, st2: Store,
                      end: Store, xs: seq<Name>, o: Outcome, fuel: nat)
    requires loop.WhileTrue? && RunStmts(m, intro, st, mem, fuel) == Next(st2, mem)
    requires RunWhile(m, loop, st2, mem, fuel) == Delivered(end, xs, o)
    ensures RunStmts(m, intro + [loop], st, mem, fuel) == Delivered(end, xs, o)
  {
    RunAround(m, intro, loop, [], st, mem, st2, fuel);
    NothingAppended(intro + [loop]);
    DeliveredThenNothing(m, end, xs, o, fuel);
  }

  lemma WhileRegionsHold(n: Names, n3: Names, op: Op, scope: set<Value>)
    requires op.While? && WfWhile(op, scope, n.mapper.Keys) && SafeYields(op) && scope <= n.mapper.Keys && Good(n)
    requires Grown(WhileHead(n, op), n3, DefsOf(op.before.ops))
    ensures WhileRegions(WhileHead(n, op), n3, op, scope)
  {
    WhileShape(n, op, scope);
  }

  lemma WhileEnters(m: Machine, n: Names, op: Op, env: Env, mem: Mem, st: Store, fuel: nat) returns (st2: Store)
    requires op.While? && WhileHeads(n, op) && env.Keys <= n.mapper.Keys && Good(n)
    requires |op.beforeArgs| == |op.inits| && All(op.inits) <= env.Keys
    requires Agree(n, env, st) && Bounded(n, st)
    ensures var n2 := WhileHead(n, op); var xs := NamesOf(n2, op.beforeArgs);
            && RunStmts(m, WhileIntro(n, op), st, mem, fuel) == Next(st2, mem)
            && WhileEntered(n, op, env, st, st2)
            && st2 == Put(st2, xs, GetAll(env, op.inits))
  {
    var n1 := NamingAll(n, op.results);
    var n2 := WhileHead(n, op);
    st2 := IntroRuns(m, n, n1, n2, op.results, op.beforeArgs, op.inits, env, mem, st, fuel);
    WhileVariablesReady(n, op, env, st2);
    PutSame(st2, NamesOf(n2, op.beforeArgs), GetAll(env, op.inits));
  }

  lemma WhileVariablesReady(n: Names, op: Op, env: Env, st2: Store)
    requires op.While? && WhileHeads(n, op) && env.Keys <= n.mapper.Keys
    requires Agree(WhileHead(n, op), env, st2) && Bounded(WhileHead(n, op), st2)
    requires forall x :: x in NamesOf(WhileHead(n, op), op.results) ==> x in st2
    requires forall x :: x in NamesOf(WhileHead(n, op), op.beforeArgs) ==> x in st2
    ensures WhileVariables(WhileHead(n, op), op, env, st2)
  {
  }

  lemma WhileFinish(n: Names, n5: Names, op: Op, env: Env, st: Store, st2: Store, last: seq<int>, passed: seq<int>, mem: Mem)
    requires op.While? && WhileHeads(n, op)
    requires Agree(n, env, st) && Bounded(n, st) && Good(n5) && Extends(WhileHead(n, op), n5)
    requires WhileEntered(n, op, env, st, st2)
    requires |last| == |op.beforeArgs| && |passed| == |op.results|
    ensures var n2 := WhileHead(n, op);
            var st3 := Put(Put(st2, NamesOf(n2, op.beforeArgs), last), NamesOf(n2, op.results), passed);
            Mirrors(n, n5, env, st, Done(Bind(env, op.results, passed), mem), Next(st3, mem))
    ensures Bind(env, op.results, passed).Keys == env.Keys + All(op.results)
  {
    var n2 := WhileHead(n, op);
    var xs, rs := NamesOf(n2, op.beforeArgs), NamesOf(n2, op.results);
    ExtendsThen(n, n2, n5);
    AllNamed(n2, op.results);
    AllNamed(n2, op.beforeArgs);
    NamesOfKept(n2, n5, op.results);
    NamesOfKept(n2, n5, op.beforeArgs);
    ResultsPut(n, n5, op.results, op.beforeArgs, env, st, st2, last, passed, mem);
  }

  /** Results and carried variables filled after the loop complete the operation. */
  lemma ResultsPut(n: Names, n5: Names, results: seq<Value>, vs: seq<Value>, env: Env, st: Store, st2: Store,
                   last: seq<int>, passed: seq<int>, mem: Mem)
    requires Good(n5) && Extends(n, n5) && New(results, n.mapper.Keys) && New(vs, n.mapper.Keys)
    requires All(results) <= n5.mapper.Keys && All(vs) <= n5.mapper.Keys
    requires Agree(n, env, st) && Bounded(n, st) && |last| == |vs| && |passed| == |results|
    requires Added(st, st2, NamesOf(n5, results), NamesOf(n5, vs))
    ensures Mirrors(n, n5, env, st, Done(Bind(env, results, passed), mem),
                    Next(Put(Put(st2, NamesOf(n5, vs), last), NamesOf(n5, results), passed), mem))
    ensures Bind(env, results, passed).Keys == env.Keys + All(results)
  {
    var rs, xs := NamesOf(n5, results), NamesOf(n5, vs);
    NewNames(n, n5, results, st);
    NewNames(n, n5, vs, st);
    TwoPutsOutside(n, st, st2, rs, xs, last, passed);
    FramedByKeys(n, n5, st, Put(Put(st2, xs, last), rs, passed), rs, xs);
    assert forall k :: 0 <= k < |rs| ==> rs[k] == NameOf(n5, results[k]);
    ResultsMirror(n, n5, results, env, passed, mem, st, Put(Put(st2, xs, last), rs, passed));
  }
}
