/**
 * Names: on well-formed input emission never fails, never renames a value, and
 * every value in scope, whatever the nesting, owns its C name.
 */
module EmittedNames {
  import opened StructuredIr
  import opened CProgram
  import opened EmissionSpec
  import opened EmittedCopies

  /** The value that a name stands for. */
  ghost function Owner(n: Names, x: Name): Value {
    if exists v :: v in n.mapper && n.mapper[v] == x then
      var v :| v in n.mapper && n.mapper[v] == x; v
    else 0
  }

  /** Names were handed out already and determine their values: different values
      have different names. */
  ghost predicate Good(n: Names) {
    forall v {:trigger n.mapper[v]} :: v in n.mapper ==> 1 <= n.mapper[v] <= n.count && Owner(n, n.mapper[v]) == v
  }

  /** n' keeps the names of n and hands out only new ones. */
  ghost predicate Extends(n: Names, n': Names) {
    && n.count <= n'.count
    && (forall v {:trigger n'.mapper[v]} {:trigger n.mapper[v]} :: v in n.mapper ==> v in n'.mapper && n'.mapper[v] == n.mapper[v])
    && (forall v {:trigger n'.mapper[v]} :: v in n'.mapper && v !in n.mapper ==> n.count < n'.mapper[v])
  }

  /** Good names, extending n, with exactly the values more in addition. */
  ghost predicate Grown(n: Names, n': Names, more: set<Value>) {
    Good(n') && Extends(n, n') && n'.mapper.Keys == n.mapper.Keys + more
  }

  lemma GrownThen(a: Names, b: Names, c: Names, more: set<Value>, more': set<Value>)
    requires Grown(a, b, more) && Grown(b, c, more')
    ensures Good(c) && Extends(a, c) && c.mapper.Keys == a.mapper.Keys + more + more'
  {
  }

  lemma ExtendsThen(a: Names, b: Names, c: Names)
    requires Extends(a, b) && Extends(b, c)
    ensures Extends(a, c)
  {
  }

  lemma UnionsRegrouped(a: set<Value>, b: set<Value>, c: set<Value>, d: set<Value>, e: set<Value>, f: set<Value>)
    ensures a + b + c + d == a + (b + c + d)
    ensures a + b + c + d + e == a + (b + c + d + e)
    ensures a + b + c + d + e + f == a + (b + c + d + e + f)
  {
  }

  lemma NamingFresh(n: Names, v: Value)
    requires Good(n) && v !in n.mapper
    ensures Grown(n, Naming(n, v), {v})
  {
    var n' := Naming(n, v);
    forall u | u in n'.mapper ensures Owner(n', n'.mapper[u]) == u {
      var w := Owner(n', n'.mapper[u]);
      assert w in n'.mapper && n'.mapper[w] == n'.mapper[u];
      assert u != v ==> n'.mapper[u] == n.mapper[u];
      assert w != v ==> n'.mapper[w] == n.mapper[w];
    }
  }

  lemma {:induction false} NamingAllKnown(n: Names, vs: seq<Value>)
    requires forall v :: v in vs ==> v in n.mapper
    ensures NamingAll(n, vs) == n
    decreases |vs|
  {
    if vs != [] {
      assert vs[0] in vs;
      NamingAllKnown(n, vs[1..]);
    }
  }

  lemma NamesOfKept(n: Names, n': Names, vs: seq<Value>)
    requires Extends(n, n') && forall v :: v in vs ==> v in n.mapper
    ensures NamesOf(n', vs) == NamesOf(n, vs)
  {
    forall i | 0 <= i < |vs| ensures NamesOf(n', vs)[i] == NamesOf(n, vs)[i] {
      assert vs[i] in vs;
    }
  }

  lemma NamesOfDistinct(n: Names, vs: seq<Value>)
    requires Good(n) && Distinct(vs) && forall v :: v in vs ==> v in n.mapper
    ensures Distinct(NamesOf(n, vs))
  {
    forall i, j | 0 <= i < j < |vs| ensures NamesOf(n, vs)[i] != NamesOf(n, vs)[j] {
      assert vs[i] in vs && vs[j] in vs;
      assert Owner(n, n.mapper[vs[i]]) != Owner(n, n.mapper[vs[j]]);
    }
  }

  /** Copies over names clash exactly where the copies over values do. */
  lemma NamesOfNotOverwritten(n: Names, ts: seq<Value>, ss: seq<Value>)
    requires Good(n) && |ts| == |ss| && !Overwritten(ts, ss)
    requires (forall v :: v in ts ==> v in n.mapper) && (forall v :: v in ss ==> v in n.mapper)
    ensures !Overwritten(NamesOf(n, ts), NamesOf(n, ss))
  {
    var xs, ys := NamesOf(n, ts), NamesOf(n, ss);
    forall i, j | 0 <= i < j < |xs| && ys[j] == xs[i] ensures ys[i] == xs[i] {
      assert ts[i] in ts && ss[j] in ss && ss[i] in ss;
      assert Owner(n, n.mapper[ss[j]]) == Owner(n, n.mapper[ts[i]]);
    }
  }

  lemma NewTail(vs: seq<Value>, n: Names)
    requires Good(n) && vs != [] && New(vs, n.mapper.Keys)
    ensures Grown(n, Naming(n, vs[0]), {vs[0]})
    ensures New(vs[1..], Naming(n, vs[0]).mapper.Keys)
    ensures All(vs) == {vs[0]} + All(vs[1..])
  {
    assert vs[0] in All(vs) && vs[0] !in vs[1..];
    NamingFresh(n, vs[0]);
    forall v | v in vs[1..] ensures v !in n.mapper { assert v in All(vs); }
  }

  lemma {:induction false} NamingAllGrows(n: Names, vs: seq<Value>)
    requires Good(n) && New(vs, n.mapper.Keys)
    ensures Grown(n, NamingAll(n, vs), All(vs))
    decreases |vs|
  {
    if vs != [] {
      NewTail(vs, n);
      var n1 := Naming(n, vs[0]);
      NamingAllGrows(n1, vs[1..]);
      GrownThen(n, n1, NamingAll(n1, vs[1..]), {vs[0]}, All(vs[1..]));
    }
  }

  lemma {:induction false} DeclareAllShape(n: Names, vs: seq<Value>)
    requires Good(n) && New(vs, n.mapper.Keys)
    ensures DeclareAll(n, vs) == Emitted(NamingAll(n, vs), Declares(NamesOf(NamingAll(n, vs), vs)))
    decreases |vs|
  {
    if vs != [] {
      assert vs[0] in All(vs);
      NewTail(vs, n);
      DeclareAllShape(Naming(n, vs[0]), vs[1..]);
      var n' := NamingAll(n, vs);
      assert NamesOf(n', vs)[1..] == NamesOf(n', vs[1..]);
    }
  }

  lemma {:induction false} InitAllShape(n: Names, ts: seq<Value>, ss: seq<Value>)
    requires Good(n) && |ts| == |ss| && New(ts, n.mapper.Keys) && All(ss) <= n.mapper.Keys
    ensures InitAll(n, ts, ss) == Emitted(NamingAll(n, ts), Inits(NamesOf(NamingAll(n, ts), ts), NamesOf(n, ss)))
    decreases |ts|
  {
    if ts != [] {
      NewTail(ts, n);
      var n1 := InitHead(n, ts, ss);
      InitAllShape(n1, ts[1..], ss[1..]);
      var n' := NamingAll(n, ts);
      assert NamesOf(n', ts)[1..] == NamesOf(n', ts[1..]);
      assert NamesOf(n, ss)[1..] == NamesOf(n, ss[1..]);
    }
  }

  lemma InitHead(n: Names, ts: seq<Value>, ss: seq<Value>) returns (n1: Names)
    requires Good(n) && |ts| == |ss| > 0 && New(ts, n.mapper.Keys) && All(ss) <= n.mapper.Keys
    ensures n1 == Naming(n, ts[0]) == NamingAll(n, [ts[0], ss[0]])
    ensures NameOf(n1, ss[0]) == NameOf(n, ss[0])
    ensures All(ss[1..]) <= n1.mapper.Keys
    ensures NamesOf(n1, ss[1..]) == NamesOf(n, ss[1..])
  {
    assert ts[0] in All(ts) && ss[0] in All(ss);
    n1 := Naming(n, ts[0]);
    assert [ts[0], ss[0]][1..] == [ss[0]];
    NamingAllKnown(n1, [ss[0]]);
    forall v | v in ss[1..] ensures v in n.mapper { assert v in All(ss); }
    NamesOfKept(n, n1, ss[1..]);
  }

  lemma {:induction false} CopyAllShape(n: Names, ts: seq<Value>, ss: seq<Value>)
    requires |ts| == |ss| && All(ts) + All(ss) <= n.mapper.Keys
    ensures CopyAll(n, ts, ss) == Emitted(n, Copies(NamesOf(n, ts), NamesOf(n, ss)))
    ensures YieldAll(n, ts, ss) == Emitted(n, Copies(NamesOf(n, ts), NamesOf(n, ss)))
    decreases |ts|
  {
    if ts != [] {
      assert ts[0] in All(ts) && ss[0] in All(ss);
      NamingAllKnown(n, [ts[0], ss[0]]);
      assert All(ts[1..]) <= All(ts) && All(ss[1..]) <= All(ss);
      CopyAllShape(n, ts[1..], ss[1..]);
      assert NamesOf(n, ts)[1..] == NamesOf(n, ts[1..]);
      assert NamesOf(n, ss)[1..] == NamesOf(n, ss[1..]);
    }
  }

  // ---- The pieces of a structured operation -----------------------------------

  /** The emitter state when the body of an scf.for is about to be printed. */
  function ForHead(n: Names, op: Op): Names
    requires op.For?
  {
    Naming(NamingAll(NamingAll(n, op.results), op.iterArgs), op.iv)
  }

  lemma ForShape(n: Names, op: Op, scope: set<Value>)
    requires op.For? && WfFor(op, scope, n.mapper.Keys) && scope <= n.mapper.Keys && Good(n)
    ensures var n1 := NamingAll(n, op.results); var n2 := NamingAll(n1, op.iterArgs);
            && Grown(n, n1, All(op.results)) && Grown(n1, n2, All(op.iterArgs)) && Grown(n2, ForHead(n, op), {op.iv})
            && DeclareAll(n, op.results) == Emitted(n1, Declares(NamesOf(n1, op.results)))
            && InitAll(n1, op.iterArgs, op.inits) == Emitted(n2, Inits(NamesOf(n2, op.iterArgs), NamesOf(n1, op.inits)))
            && NamingAll(n2, [op.iv, op.lb, op.ub, op.step]) == ForHead(n, op)
    ensures Good(ForHead(n, op)) && Extends(n, ForHead(n, op))
    ensures ForHead(n, op).mapper.Keys == n.mapper.Keys + All(op.results) + All(op.iterArgs) + {op.iv}
  {
    ForNew(op, n.mapper.Keys);
    var n1 := NamingAll(n, op.results);
    NamingAllGrows(n, op.results);
    DeclareAllShape(n, op.results);
    var n2 := NamingAll(n1, op.iterArgs);
    NamingAllGrows(n1, op.iterArgs);
    InitAllShape(n1, op.iterArgs, op.inits);
    NamingFresh(n2, op.iv);
    var n3 := Naming(n2, op.iv);
    ExtendsThen(n, n1, n2);
    ExtendsThen(n, n2, n3);
    assert [op.iv, op.lb, op.ub, op.step][1..] == [op.lb, op.ub, op.step];
    NamingAllKnown(n3, [op.lb, op.ub, op.step]);
  }

  /** The emitter states at the head of an scf.for and the names of its variables. */
  ghost predicate ForHeads(n: Names, op: Op)
    requires op.For?
  {
    var n1 := NamingAll(n, op.results);
    var n2 := NamingAll(n1, op.iterArgs);
    var n3 := ForHead(n, op);
    && Good(n1) && Good(n2) && Good(n3)
    && Extends(n, n1) && Extends(n1, n2) && Extends(n, n3)
    && All(op.results) <= n1.mapper.Keys && All(op.results) <= n3.mapper.Keys
    && All(op.iterArgs) <= n2.mapper.Keys && All(op.iterArgs) <= n3.mapper.Keys && op.iv in n3.mapper
    && New(op.results, n.mapper.Keys) && New(op.iterArgs, n1.mapper.Keys) && New(op.iterArgs, n.mapper.Keys) && op.iv !in n2.mapper
    && NamesOf(n3, op.results) == NamesOf(n1, op.results)
    && NamesOf(n3, op.iterArgs) == NamesOf(n2, op.iterArgs)
    && NamesOf(n1, op.inits) == NamesOf(n, op.inits)
  }

  lemma ForHeadsHold(n: Names, op: Op, scope: set<Value>)
    requires op.For? && WfFor(op, scope, n.mapper.Keys) && scope <= n.mapper.Keys && Good(n)
    ensures ForHeads(n, op)
  {
    var n1 := NamingAll(n, op.results);
    var n2 := NamingAll(n1, op.iterArgs);
    var n3 := ForHead(n, op);
    ForNew(op, n.mapper.Keys);
    NamingAllGrows(n, op.results);
    NamingAllGrows(n1, op.iterArgs);
    NamingFresh(n2, op.iv);
    ExtendsThen(n, n1, n2);
    ExtendsThen(n, n2, n3);
    ExtendsThen(n1, n2, n3);
    AllNamed(n1, op.results);
    AllNamed(n2, op.iterArgs);
    AllNamed(n, op.inits);
    NamesOfKept(n, n1, op.inits);
    NamesOfKept(n1, n3, op.results);
    NamesOfKept(n2, n3, op.iterArgs);
  }

  lemma AllNamed(n: Names, vs: seq<Value>)
    requires All(vs) <= n.mapper.Keys
    ensures forall v :: v in vs ==> v in n.mapper
  {
    forall v | v in vs ensures v in n.mapper { assert v in All(vs); }
  }

  lemma ForNew(op: Op, taken: set<Value>)
    requires op.For? && New(op.results + op.iterArgs + [op.iv], taken)
    ensures New(op.results, taken)
    ensures New(op.iterArgs, taken + All(op.results))
    ensures op.iv !in taken + All(op.results) + All(op.iterArgs)
  {
    var vs := op.results + op.iterArgs + [op.iv];
    var a, b := |op.results|, |op.results| + |op.iterArgs|;
    assert forall i :: 0 <= i < a ==> vs[i] == op.results[i];
    assert forall i :: 0 <= i < |op.iterArgs| ==> vs[a + i] == op.iterArgs[i];
    assert vs[b] == op.iv;
    forall v | v in op.results ensures v in All(vs) && v !in op.iterArgs && v != op.iv {
      var i :| 0 <= i < a && op.results[i] == v;
      assert vs[i] == v;
    }
    forall v | v in op.iterArgs ensures v in All(vs) && v != op.iv {
      var i :| 0 <= i < |op.iterArgs| && op.iterArgs[i] == v;
      assert vs[a + i] == v;
    }
    assert op.iv in All(vs);
  }

  lemma WhileNew(op: Op, taken: set<Value>)
    requires op.While? && New(op.results + op.beforeArgs, taken)
    ensures New(op.results, taken)
    ensures New(op.beforeArgs, taken + All(op.results))
  {
    var vs := op.results + op.beforeArgs;
    var a := |op.results|;
    assert forall i :: 0 <= i < a ==> vs[i] == op.results[i];
    assert forall i :: 0 <= i < |op.beforeArgs| ==> vs[a + i] == op.beforeArgs[i];
    forall v | v in op.results ensures v in All(vs) && v !in op.beforeArgs {
      var i :| 0 <= i < a && op.results[i] == v;
      assert vs[i] == v;
    }
    forall v | v in op.beforeArgs ensures v in All(vs) {
      var i :| 0 <= i < |op.beforeArgs| && op.beforeArgs[i] == v;
      assert vs[a + i] == v;
    }
  }

  // ---- Whole operations ---------------------------------------------------------

  lemma {:induction false} ResultsAreDefs(ops: seq<Op>)
    ensures ResultsOf(ops) <= DefsOf(ops)
    decreases |ops|
  {
    if ops != [] { ResultsAreDefs(ops[1..]); }
  }

  /** Well-formed operations define nothing that was defined before. */
  lemma {:induction false} DefsAreNew(ops: seq<Op>, scope: set<Value>, taken: set<Value>)
    requires WfOps(ops, scope, taken)
    ensures DefsOf(ops) !! taken
    decreases ops, 0
  {
    if ops != [] {
      OpDefsAreNew(ops[0], scope, taken);
      DefsAreNew(ops[1..], scope + Results(ops[0]), taken + Defs(ops[0]));
    }
  }

  lemma {:induction false} OpDefsAreNew(op: Op, scope: set<Value>, taken: set<Value>)
    requires WfOp(op, scope, taken)
    ensures Defs(op) !! taken
    decreases op, 1
  {
    match op
    case Def(_, _, _) =>
    case Effect(_, _) =>
    case For(results, iv, _, _, _, iterArgs, _, body) =>
      ForNew(op, taken);
      DefsAreNew(body.ops, scope + All(iterArgs) + {iv}, taken + All(results) + All(iterArgs) + {iv});
    case While(results, beforeArgs, _, before, _, afterArgs, after) =>
      WhileNew(op, taken);
      var taken1 := taken + All(results) + All(beforeArgs);
      DefsAreNew(before.ops, scope + All(beforeArgs), taken1);
      DefsAreNew(after.ops, scope + All(afterArgs), taken1 + DefsOf(before.ops) + All(afterArgs));
    case If(results, _, thn, els) =>
      DefsAreNew(thn.ops, scope, taken + All(results));
      DefsAreNew(els.ops, scope, taken + All(results) + DefsOf(thn.ops));
  }

  /** Emission succeeds on well-formed operations and names exactly what they define. */
  lemma {:induction false} EmitOpsGrows(n: Names, ops: seq<Op>, scope: set<Value>) returns (n': Names, code: seq<Stmt>)
    requires WfOps(ops, scope, n.mapper.Keys) && scope <= n.mapper.Keys && Good(n)
    ensures EmitOps(n, ops) == Emitted(n', code)
    ensures Grown(n, n', DefsOf(ops))
    decreases ops, 0
  {
    if ops == [] {
      n', code := n, [];
    } else {
      var n1, code1 := EmitOpGrows(n, ops[0], scope);
      var code2;
      ResultsAreDefs([ops[0]]);
      assert Results(ops[0]) <= Defs(ops[0]);
      n', code2 := EmitOpsGrows(n1, ops[1..], scope + Results(ops[0]));
      code := code1 + code2;
    }
  }

  lemma {:induction false} EmitBranchGrows(n: Names, results: seq<Value>, r: Region, scope: set<Value>)
    returns (n': Names, code: seq<Stmt>)
    requires WfOps(r.ops, scope, n.mapper.Keys) && YieldsFrom(r, scope, |results|)
    requires scope + All(results) <= n.mapper.Keys && Good(n)
    ensures EmitOps(n, r.ops) == Emitted(n', code)
    ensures EmitBranch(n, results, r) == Emitted(n', code + Copies(NamesOf(n', results), NamesOf(n', r.outs)))
    ensures Grown(n, n', DefsOf(r.ops))
    decreases r, 0
  {
    n', code := EmitOpsGrows(n, r.ops, scope);
    ResultsAreDefs(r.ops);
    CopyAllShape(n', results, r.outs);
  }

  lemma {:induction false} EmitOpGrows(n: Names, op: Op, scope: set<Value>) returns (n': Names, code: seq<Stmt>)
    requires WfOp(op, scope, n.mapper.Keys) && scope <= n.mapper.Keys && Good(n)
    ensures EmitOp(n, op) == Emitted(n', code)
    ensures Grown(n, n', Defs(op))
    decreases op, 1
  {
    match op
    case Def(_, _, _) => n', code := EmitDefGrows(n, op, scope);
    case Effect(_, args) =>
      NamingAllKnown(n, args) by {
        forall v | v in args ensures v in n.mapper { assert v in All(args); }
      }
      n', code := EmitOp(n, op).names, EmitOp(n, op).code;
    case For(_, _, _, _, _, _, _, _) => var body; n', body, code := EmitForGrows(n, op, scope);
    case While(_, _, _, _, _, _, _) => var n3, before, after; n', n3, before, after, code := EmitWhileGrows(n, op, scope);
    case If(_, _, _, _) => n', code := EmitIfGrows(n, op, scope);
  }

  lemma EmitDefGrows(n: Names, op: Op, scope: set<Value>) returns (n': Names, code: seq<Stmt>)
    requires op.Def? && WfOp(op, scope, n.mapper.Keys) && scope <= n.mapper.Keys && Good(n)
    ensures n' == Naming(n, op.result) && n'.mapper[op.result] == n.count + 1
    ensures EmitOp(n, op) == Emitted(n', code)
    ensures code == [DeclareInit(n.count + 1, Call(op.code, NamesOf(n, op.args)))]
    ensures Grown(n, n', Defs(op))
  {
    NamingFresh(n, op.result);
    n' := Naming(n, op.result);
    forall v | v in op.args ensures v in n.mapper { assert v in All(op.args); }
    NamingAllKnown(n', op.args);
    NamesOfKept(n, n', op.args);
    code := EmitOp(n, op).code;
  }

  lemma {:induction false} EmitIfGrows(n: Names, op: Op, scope: set<Value>) returns (n': Names, code: seq<Stmt>)
    requires op.If? && WfIf(op, scope, n.mapper.Keys) && scope <= n.mapper.Keys && Good(n)
    ensures EmitIf(n, op) == Emitted(n', code)
    ensures Grown(n, n', Defs(op))
    decreases op, 0
  {
    var n1 := NamingAll(n, op.results);
    NamingAllGrows(n, op.results);
    DeclareAllShape(n, op.results);
    var n2, c2 := EmitBranchGrows(n1, op.results, op.thn, scope);
    var n3, c3 := EmitBranchGrows(n2, op.results, op.els, scope);
    ExtendsThen(n, n1, n2);
    ExtendsThen(n, n2, n3);
    assert n3.mapper.Keys == n.mapper.Keys + All(op.results) + DefsOf(op.thn.ops) + DefsOf(op.els.ops);
    DefsRegrouped(n.mapper.Keys, op);
    n', code := n3, EmitIf(n, op).code;
  }

  /** The statement of an scf.for, put together from what was printed on the way. */
  lemma ForCode(n: Names, op: Op, n1: Names, n2: Names, n3: Names, n4: Names, n5: Names, n6: Names,
                declared: seq<Stmt>, inited: seq<Stmt>, body: seq<Stmt>, copies: seq<Stmt>, finals: seq<Stmt>)
    requires op.For?
    requires DeclareAll(n, op.results) == Emitted(n1, declared)
    requires InitAll(n1, op.iterArgs, op.inits) == Emitted(n2, inited)
    requires NamingAll(n2, [op.iv, op.lb, op.ub, op.step]) == n3
    requires EmitOps(n3, op.body.ops) == Emitted(n4, body)
    requires CopyAll(n4, op.iterArgs, op.body.outs) == Emitted(n5, copies)
    requires CopyAll(n5, op.results, op.iterArgs) == Emitted(n6, finals)
    ensures EmitFor(n, op) == Emitted(n6, declared + inited +
              [ForLoop(NameOf(n3, op.iv), NameOf(n3, op.lb), NameOf(n3, op.ub), NameOf(n3, op.step), body + copies)] + finals)
  {
  }

  /** What printing an scf.for yields. */
  function ForText(n: Names, op: Op, n4: Names, body: seq<Stmt>): seq<Stmt>
    requires op.For? && |op.results| == |op.iterArgs| == |op.inits| == |op.body.outs|
  {
    var n1 := NamingAll(n, op.results);
    var n2 := NamingAll(n1, op.iterArgs);
    var n3 := ForHead(n, op);
    Declares(NamesOf(n1, op.results)) + Inits(NamesOf(n2, op.iterArgs), NamesOf(n1, op.inits)) +
    [ForLoop(NameOf(n3, op.iv), NameOf(n3, op.lb), NameOf(n3, op.ub), NameOf(n3, op.step),
             body + Copies(NamesOf(n4, op.iterArgs), NamesOf(n4, op.body.outs)))] +
    Copies(NamesOf(n4, op.results), NamesOf(n4, op.iterArgs))
  }

  lemma {:induction false} EmitForGrows(n: Names, op: Op, scope: set<Value>)
    returns (n': Names, body: seq<Stmt>, code: seq<Stmt>)
    requires op.For? && WfFor(op, scope, n.mapper.Keys) && scope <= n.mapper.Keys && Good(n)
    ensures EmitOps(ForHead(n, op), op.body.ops) == Emitted(n', body)
    ensures Grown(ForHead(n, op), n', DefsOf(op.body.ops))
    ensures code == ForText(n, op, n', body)
    ensures EmitFor(n, op) == Emitted(n', code)
    ensures Grown(n, n', Defs(op))
    decreases op, 0
  {
    var n3 := ForHead(n, op);
    assert Good(n3) && Extends(n, n3) && n3.mapper.Keys == n.mapper.Keys + All(op.results) + All(op.iterArgs) + {op.iv} by {
      ForShape(n, op, scope);
    }
    n', body := EmitOpsGrows(n3, op.body.ops, scope + All(op.iterArgs) + {op.iv});
    ExtendsThen(n, n3, n');
    assert n'.mapper.Keys == n.mapper.Keys + All(op.results) + All(op.iterArgs) + {op.iv} + DefsOf(op.body.ops);
    DefsRegrouped(n.mapper.Keys, op);
    ForAssembled(n, op, scope, n', body);
    code := ForText(n, op, n', body);
  }

  /** Adding the defined values of an operation in the order in which they are named. */
  lemma DefsRegrouped(keys: set<Value>, op: Op)
    ensures op.For? ==>
      keys + All(op.results) + All(op.iterArgs) + {op.iv} + DefsOf(op.body.ops) == keys + Defs(op)
    ensures op.While? ==>
      keys + All(op.results) + All(op.beforeArgs) + DefsOf(op.before.ops) + All(op.afterArgs) + DefsOf(op.after.ops) == keys + Defs(op)
    ensures op.If? ==>
      keys + All(op.results) + DefsOf(op.thn.ops) + DefsOf(op.els.ops) == keys + Defs(op)
  {
    match op
    case Def(_, _, _) =>
    case Effect(_, _) =>
    case For(results, iv, _, _, _, iterArgs, _, body) =>
      UnionsRegrouped(keys, All(results), All(iterArgs), {iv}, DefsOf(body.ops), {});
    case While(results, beforeArgs, _, before, _, afterArgs, after) =>
      UnionsRegrouped(keys, All(results), All(beforeArgs), DefsOf(before.ops), All(afterArgs), DefsOf(after.ops));
    case If(results, _, thn, els) =>
      UnionsRegrouped(keys, All(results), DefsOf(thn.ops), DefsOf(els.ops), {}, {});
  }

  lemma ForAssembled(n: Names, op: Op, scope: set<Value>, n4: Names, body: seq<Stmt>)
    requires op.For? && WfFor(op, scope, n.mapper.Keys) && scope <= n.mapper.Keys && Good(n)
    requires EmitOps(ForHead(n, op), op.body.ops) == Emitted(n4, body)
    requires Grown(ForHead(n, op), n4, DefsOf(op.body.ops))
    ensures EmitFor(n, op) == Emitted(n4, ForText(n, op, n4, body))
  {
    var n1 := NamingAll(n, op.results);
    var n2 := NamingAll(n1, op.iterArgs);
    ForShape(n, op, scope);
    ForTail(n4, op, scope, ForHead(n, op));
    ForCode(n, op, n1, n2, ForHead(n, op), n4, n4, n4, Declares(NamesOf(n1, op.results)), Inits(NamesOf(n2, op.iterArgs), NamesOf(n1, op.inits)),
            body, Copies(NamesOf(n4, op.iterArgs), NamesOf(n4, op.body.outs)),
            Copies(NamesOf(n4, op.results), NamesOf(n4, op.iterArgs)));
  }

  lemma ForTail(n4: Names, op: Op, scope: set<Value>, n3: Names)
    requires op.For? && |op.results| == |op.iterArgs| == |op.body.outs|
    requires All(op.body.outs) <= scope + All(op.iterArgs) + {op.iv} + ResultsOf(op.body.ops)
    requires scope + All(op.results) + All(op.iterArgs) + {op.iv} <= n3.mapper.Keys
    requires Grown(n3, n4, DefsOf(op.body.ops))
    ensures CopyAll(n4, op.iterArgs, op.body.outs) == Emitted(n4, Copies(NamesOf(n4, op.iterArgs), NamesOf(n4, op.body.outs)))
    ensures CopyAll(n4, op.results, op.iterArgs) == Emitted(n4, Copies(NamesOf(n4, op.results), NamesOf(n4, op.iterArgs)))
  {
    ResultsAreDefs(op.body.ops);
    CopyAllShape(n4, op.iterArgs, op.body.outs);
    CopyAllShape(n4, op.results, op.iterArgs);
  }

  /** The emitter state when the before region of an scf.while is about to be printed. */
  function WhileHead(n: Names, op: Op): Names
    requires op.While?
  {
    NamingAll(NamingAll(n, op.results), op.beforeArgs)
  }

  /** The emitter states at the head of an scf.while and the names of its variables. */
  ghost predicate WhileHeads(n: Names, op: Op)
    requires op.While?
  {
    var n1 := NamingAll(n, op.results);
    var n2 := WhileHead(n, op);
    && Good(n1) && Good(n2) && Extends(n, n1) && Extends(n1, n2) && Extends(n, n2)
    && All(op.results) <= n1.mapper.Keys && All(op.results) <= n2.mapper.Keys && All(op.beforeArgs) <= n2.mapper.Keys
    && New(op.results, n.mapper.Keys) && New(op.beforeArgs, n1.mapper.Keys) && New(op.beforeArgs, n.mapper.Keys)
    && NamesOf(n2, op.results) == NamesOf(n1, op.results)
    && NamesOf(n1, op.inits) == NamesOf(n, op.inits)
  }

  lemma WhileHeadsHold(n: Names, op: Op, scope: set<Value>)
    requires op.While? && WfWhile(op, scope, n.mapper.Keys) && scope <= n.mapper.Keys && Good(n)
    ensures WhileHeads(n, op)
  {
    var n1 := NamingAll(n, op.results);
    var n2 := WhileHead(n, op);
    WhileNew(op, n.mapper.Keys);
    NamingAllGrows(n, op.results);
    NamingAllGrows(n1, op.beforeArgs);
    ExtendsThen(n, n1, n2);
    AllNamed(n1, op.results);
    AllNamed(n, op.inits);
    NamesOfKept(n, n1, op.inits);
    NamesOfKept(n1, n2, op.results);
  }

  lemma WhileShape(n: Names, op: Op, scope: set<Value>)
    requires op.While? && WfWhile(op, scope, n.mapper.Keys) && scope <= n.mapper.Keys && Good(n)
    ensures var n1 := NamingAll(n, op.results); var n2 := WhileHead(n, op);
            && Grown(n, n1, All(op.results)) && Grown(n1, n2, All(op.beforeArgs))
            && DeclareAll(n, op.results) == Emitted(n1, Declares(NamesOf(n1, op.results)))
            && InitAll(n1, op.beforeArgs, op.inits) == Emitted(n2, Inits(NamesOf(n2, op.beforeArgs), NamesOf(n1, op.inits)))
    ensures Extends(n, WhileHead(n, op))
    ensures WhileHead(n, op).mapper.Keys == n.mapper.Keys + All(op.results) + All(op.beforeArgs)
  {
    WhileNew(op, n.mapper.Keys);
    var n1 := NamingAll(n, op.results);
    NamingAllGrows(n, op.results);
    DeclareAllShape(n, op.results);
    var n2 := NamingAll(n1, op.beforeArgs);
    NamingAllGrows(n1, op.beforeArgs);
    InitAllShape(n1, op.beforeArgs, op.inits);
    ExtendsThen(n, n1, n2);
  }

  /** The part between the two regions of an scf.while. */
  lemma WhileMiddle(n2: Names, n3: Names, op: Op, scope: set<Value>)
    requires op.While? && |op.results| == |op.afterArgs| == |op.before.outs|
    requires All(op.before.outs) + {op.cond} <= scope + All(op.beforeArgs) + ResultsOf(op.before.ops)
    requires scope + All(op.results) + All(op.beforeArgs) <= n2.mapper.Keys
    requires Grown(n2, n3, DefsOf(op.before.ops)) && New(op.afterArgs, n3.mapper.Keys)
    ensures var n4 := NamingAll(n3, op.afterArgs);
            && Grown(n3, n4, All(op.afterArgs))
            && InitAll(n3, op.afterArgs, op.before.outs) == Emitted(n4, Inits(NamesOf(n4, op.afterArgs), NamesOf(n3, op.before.outs)))
            && CopyAll(n4, op.results, op.before.outs) == Emitted(n4, Copies(NamesOf(n4, op.results), NamesOf(n4, op.before.outs)))
            && Naming(n4, op.cond) == n4
  {
    ResultsAreDefs(op.before.ops);
    NamingAllGrows(n3, op.afterArgs);
    InitAllShape(n3, op.afterArgs, op.before.outs);
    CopyAllShape(NamingAll(n3, op.afterArgs), op.results, op.before.outs);
  }

  /** The statement of an scf.while, put together likewise. */
  lemma WhileCode(n: Names, op: Op, n1: Names, n2: Names, n3: Names, n4: Names, n5: Names, n6: Names, n7: Names, n8: Names,
                  declared: seq<Stmt>, inited: seq<Stmt>, before: seq<Stmt>, passed: seq<Stmt>,
                  copied: seq<Stmt>, after: seq<Stmt>, copies: seq<Stmt>)
    requires op.While?
    requires DeclareAll(n, op.results) == Emitted(n1, declared)
    requires InitAll(n1, op.beforeArgs, op.inits) == Emitted(n2, inited)
    requires EmitOps(n2, op.before.ops) == Emitted(n3, before)
    requires InitAll(n3, op.afterArgs, op.before.outs) == Emitted(n4, passed)
    requires CopyAll(n4, op.results, op.before.outs) == Emitted(n5, copied)
    requires Naming(n5, op.cond) == n6
    requires EmitOps(n6, op.after.ops) == Emitted(n7, after)
    requires CopyAll(n7, op.beforeArgs, op.after.outs) == Emitted(n8, copies)
    ensures EmitWhile(n, op) == Emitted(n8, declared + inited +
              [WhileTrue(before + (passed + copied) + ([BreakUnless(NameOf(n6, op.cond))] + (after + copies)))])
  {
  }

  /** The part of a printed while iteration up to the copies into the results. */
  function FirstHalf(op: Op, n3: Names, n4: Names, before: seq<Stmt>): seq<Stmt>
    requires op.While? && |op.results| == |op.afterArgs| == |op.before.outs|
  {
    before + (Inits(NamesOf(n4, op.afterArgs), NamesOf(n3, op.before.outs)) +
              Copies(NamesOf(n4, op.results), NamesOf(n4, op.before.outs)))
  }

  /** The body of a printed scf.while. */
  function WhileBody(op: Op, n3: Names, n4: Names, n5: Names, before: seq<Stmt>, after: seq<Stmt>): seq<Stmt>
    requires op.While? && |op.results| == |op.afterArgs| == |op.before.outs| && |op.beforeArgs| == |op.after.outs|
  {
    FirstHalf(op, n3, n4, before) +
    ([BreakUnless(NameOf(n4, op.cond))] + (after + Copies(NamesOf(n5, op.beforeArgs), NamesOf(n5, op.after.outs))))
  }

  /** The code in front of a printed scf.while. */
  function WhileIntro(n: Names, op: Op): seq<Stmt>
    requires op.While? && |op.beforeArgs| == |op.inits|
  {
    var n1 := NamingAll(n, op.results);
    Declares(NamesOf(n1, op.results)) + Inits(NamesOf(WhileHead(n, op), op.beforeArgs), NamesOf(n1, op.inits))
  }

  lemma {:induction false} EmitWhileGrows(n: Names, op: Op, scope: set<Value>)
    returns (n': Names, n3: Names, before: seq<Stmt>, after: seq<Stmt>, code: seq<Stmt>)
    requires op.While? && WfWhile(op, scope, n.mapper.Keys) && scope <= n.mapper.Keys && Good(n)
    ensures EmitOps(WhileHead(n, op), op.before.ops) == Emitted(n3, before)
    ensures Grown(WhileHead(n, op), n3, DefsOf(op.before.ops))
    ensures Grown(n3, NamingAll(n3, op.afterArgs), All(op.afterArgs))
    ensures EmitOps(NamingAll(n3, op.afterArgs), op.after.ops) == Emitted(n', after)
    ensures Grown(NamingAll(n3, op.afterArgs), n', DefsOf(op.after.ops))
    ensures code == WhileIntro(n, op) + [WhileTrue(WhileBody(op, n3, NamingAll(n3, op.afterArgs), n', before, after))]
    ensures EmitWhile(n, op) == Emitted(n', code)
    ensures Grown(n, n', Defs(op))
    decreases op, 0
  {
    var n2 := WhileHead(n, op);
    assert Good(n2) && Extends(n, n2) && n2.mapper.Keys == n.mapper.Keys + All(op.results) + All(op.beforeArgs) by {
      WhileShape(n, op, scope);
    }
    n3, before := EmitOpsGrows(n2, op.before.ops, scope + All(op.beforeArgs));
    var n4 := NamingAll(n3, op.afterArgs);
    assert Grown(n3, n4, All(op.afterArgs)) by { NamingAllGrows(n3, op.afterArgs); }
    n', after := EmitOpsGrows(n4, op.after.ops, scope + All(op.afterArgs));
    ExtendsThen(n, n2, n3);
    ExtendsThen(n, n3, n4);
    ExtendsThen(n, n4, n');
    assert n'.mapper.Keys == n.mapper.Keys + All(op.results) + All(op.beforeArgs) + DefsOf(op.before.ops) + All(op.afterArgs) + DefsOf(op.after.ops);
    DefsRegrouped(n.mapper.Keys, op);
    WhileAssembled(n, n3, n', op, scope, before, after);
    code := WhileIntro(n, op) + [WhileTrue(WhileBody(op, n3, n4, n', before, after))];
  }

  lemma WhileAssembled(n: Names, n3: Names, n5: Names, op: Op, scope: set<Value>, before: seq<Stmt>, after: seq<Stmt>)
    requires op.While? && WfWhile(op, scope, n.mapper.Keys) && scope <= n.mapper.Keys && Good(n)
    requires EmitOps(WhileHead(n, op), op.before.ops) == Emitted(n3, before)
    requires Grown(WhileHead(n, op), n3, DefsOf(op.before.ops))
    requires EmitOps(NamingAll(n3, op.afterArgs), op.after.ops) == Emitted(n5, after)
    requires Grown(NamingAll(n3, op.afterArgs), n5, DefsOf(op.after.ops))
    ensures EmitWhile(n, op) ==
            Emitted(n5, WhileIntro(n, op) + [WhileTrue(WhileBody(op, n3, NamingAll(n3, op.afterArgs), n5, before, after))])
  {
    var n1 := NamingAll(n, op.results);
    var n2 := WhileHead(n, op);
    var n4 := NamingAll(n3, op.afterArgs);
    WhileShape(n, op, scope);
    assert n3.mapper.Keys == n.mapper.Keys + All(op.results) + All(op.beforeArgs) + DefsOf(op.before.ops);
    WhileMiddle(n2, n3, op, scope);
    WhileTail(n4, n5, op, scope);
    WhileCode(n, op, n1, n2, n3, n4, n4, n4, n5, n5, Declares(NamesOf(n1, op.results)), Inits(NamesOf(n2, op.beforeArgs), NamesOf(n1, op.inits)),
              before, Inits(NamesOf(n4, op.afterArgs), NamesOf(n3, op.before.outs)),
              Copies(NamesOf(n4, op.results), NamesOf(n4, op.before.outs)), after,
              Copies(NamesOf(n5, op.beforeArgs), NamesOf(n5, op.after.outs)));
  }

  lemma WhileTail(n4: Names, n5: Names, op: Op, scope: set<Value>)
    requires op.While? && |op.beforeArgs| == |op.after.outs|
    requires All(op.after.outs) <= scope + All(op.afterArgs) + ResultsOf(op.after.ops)
    requires scope + All(op.beforeArgs) + All(op.afterArgs) <= n4.mapper.Keys
    requires Grown(n4, n5, DefsOf(op.after.ops))
    ensures CopyAll(n5, op.beforeArgs, op.after.outs) == Emitted(n5, Copies(NamesOf(n5, op.beforeArgs), NamesOf(n5, op.after.outs)))
  {
    ResultsAreDefs(op.after.ops);
    CopyAllShape(n5, op.beforeArgs, op.after.outs);
  }
}
