/** Factoring the conjuncts common to all operands out of a disjunction of conjunctions. */
module OrFactoring {
  import opened DbPredicates
  import opened Sequences

  // ---- Disjunctions of conjunctions over arbitrary values of the conjuncts ----------------------

  type Valuation = Expr -> Val

  function Both(x: Val, y: Val): Val {
    Conjunction(x == FALSE || y == FALSE, x == Null || y == Null)
  }

  function Either(x: Val, y: Val): Val {
    Disjunction(x == TRUE || y == TRUE, x == Null || y == Null)
  }

  function AllTrue(v: Valuation, es: seq<Expr>): Val {
    if es == [] then TRUE else Both(v(es[0]), AllTrue(v, es[1..]))
  }

  function AnyOf(v: Valuation, ds: seq<seq<Expr>>): Val {
    if ds == [] then FALSE else Either(AllTrue(v, ds[0]), AnyOf(v, ds[1..]))
  }

  lemma {:induction false} AllTrueMembers(v: Valuation, es: seq<Expr>)
    ensures AllTrue(v, es) == Conjunction(exists e :: e in es && v(e) == FALSE, exists e :: e in es && v(e) == Null)
  {
    if es != [] {
      AllTrueMembers(v, es[1..]);
      assert es[0] in es;
      forall e | e in es && e != es[0] ensures e in es[1..] {}
    }
  }

  function CountOf(ds: seq<seq<Expr>>, e: Expr): (n: nat)
    ensures n <= |ds|
  {
    if ds == [] then 0 else (if e in ds[0] then 1 else 0) + CountOf(ds[1..], e)
  }

  lemma {:induction false} CountAdd(ds: seq<seq<Expr>>, d: seq<Expr>, e: Expr)
    ensures CountOf(ds + [d], e) == CountOf(ds, e) + (if e in d then 1 else 0)
  {
    if ds == [] {
      assert ds + [d] == [d];
    } else {
      assert (ds + [d])[1..] == ds[1..] + [d];
      CountAdd(ds[1..], d, e);
    }
  }

  /** A conjunct is in every disjunct exactly when it is counted as often as there are disjuncts. */
  lemma {:induction false} CountedEverywhere(ds: seq<seq<Expr>>, e: Expr)
    ensures CountOf(ds, e) == |ds| <==> forall d :: d in ds ==> e in d
  {
    if ds != [] { CountedEverywhere(ds[1..], e); }
  }

  predicate IsCommon(ds: seq<seq<Expr>>, e: Expr) {
    CountOf(ds, e) == |ds|
  }

  /** What a disjunct keeps. */
  function Residue(ds: seq<seq<Expr>>, es: seq<Expr>): (r: seq<Expr>)
    ensures |r| <= |es|
    ensures forall e :: e in r <==> e in es && !IsCommon(ds, e)
  {
    if es == [] then []
    else (if IsCommon(ds, es[0]) then [] else [es[0]]) + Residue(ds, es[1..])
  }

  /** The residues that become operands: an emptied disjunct is left out. */
  function Kept(all: seq<seq<Expr>>, ds: seq<seq<Expr>>): (r: seq<seq<Expr>>)
    ensures |r| <= |ds|
  {
    if ds == [] then []
    else
      var r := Residue(all, ds[0]);
      (if r != [] || ds[0] == [] then [r] else []) + Kept(all, ds[1..])
  }

  lemma {:induction false} KeptMembers(all: seq<seq<Expr>>, ds: seq<seq<Expr>>, r: seq<Expr>)
    ensures r in Kept(all, ds) <==> exists d :: d in ds && r == Residue(all, d) && (r != [] || d == [])
  {
    if ds != [] {
      KeptMembers(all, ds[1..], r);
      assert ds[0] in ds;
    }
  }

  lemma {:induction false} KeptConcat(all: seq<seq<Expr>>, ds: seq<seq<Expr>>, d: seq<Expr>)
    ensures Kept(all, ds + [d]) ==
            Kept(all, ds) + (var r := Residue(all, d); if r != [] || d == [] then [r] else [])
  {
    if ds == [] {
      assert ds + [d] == [d];
      assert [d][1..] == [];
    } else {
      var rest := ds[1..];
      KeptConcat(all, rest, d);
      assert (ds + [d])[0] == ds[0] && (ds + [d])[1..] == rest + [d];
      var first, last := Residue(all, ds[0]), Residue(all, d);
      Associate(if first != [] || ds[0] == [] then [first] else [], Kept(all, rest), if last != [] || d == [] then [last] else []);
    }
  }

  /** The factored form: the common conjuncts, and the disjunction of the residues if there are any. */
  function Factored(v: Valuation, common: seq<Expr>, kept: seq<seq<Expr>>): Val {
    if kept == [] then AllTrue(v, common) else Both(AllTrue(v, common), AnyOf(v, kept))
  }

  ghost predicate ListsCommon(common: seq<Expr>, ds: seq<seq<Expr>>) {
    forall e :: e in common <==> (exists d :: d in ds && e in d) && IsCommon(ds, e)
  }

  /** Every disjunct keeps something, or none does. */
  predicate Uniform(ds: seq<seq<Expr>>) {
    (forall i :: 0 <= i < |ds| ==> Residue(ds, ds[i]) != []) || (forall i :: 0 <= i < |ds| ==> Residue(ds, ds[i]) == [])
  }

  // ---- When factoring is right -----------------------------------------------------------------------

  /** A disjunct means its common conjuncts together with its residue. */
  lemma DisjunctSplits(v: Valuation, ds: seq<seq<Expr>>, common: seq<Expr>, d: seq<Expr>)
    requires d in ds && ListsCommon(common, ds)
    ensures AllTrue(v, d) == Both(AllTrue(v, common), AllTrue(v, Residue(ds, d)))
  {
    CommonIsIn(ds, common, d);
    SplitMeans(v, d, common, Residue(ds, d));
  }

  lemma SplitMeans(v: Valuation, d: seq<Expr>, a: seq<Expr>, b: seq<Expr>)
    requires forall e :: e in d <==> e in a || e in b
    ensures AllTrue(v, d) == Both(AllTrue(v, a), AllTrue(v, b))
  {
    AllTrueMembers(v, d);
    AllTrueMembers(v, a);
    AllTrueMembers(v, b);
  }

  lemma CommonIsIn(ds: seq<seq<Expr>>, common: seq<Expr>, d: seq<Expr>)
    requires d in ds && ListsCommon(common, ds)
    ensures forall e :: e in common ==> e in d
  {
    forall e | e in common ensures e in d {
      CountedEverywhere(ds, e);
    }
  }

  /** Conjunction distributes over disjunction in three-valued logic. */
  lemma Distributes(x: Val, a: Val, b: Val)
    requires x == TRUE || x == FALSE || x == Null
    ensures Either(Both(x, a), Both(x, b)) == Both(x, Either(a, b)) || a.Datum? || b.Datum?
  {
  }

  lemma {:induction false} AllKeepSomething(v: Valuation, all: seq<seq<Expr>>, common: seq<Expr>, ds: seq<seq<Expr>>)
    requires ListsCommon(common, all) && forall d :: d in ds ==> d in all && Residue(all, d) != []
    ensures AnyOf(v, ds) == Both(AllTrue(v, common), AnyOf(v, Kept(all, ds)))
  {
    if ds != [] {
      var r := Residue(all, ds[0]);
      assert ds[0] in ds;
      DisjunctSplits(v, all, common, ds[0]);
      AllKeepSomething(v, all, common, ds[1..]);
      KeptFirst(all, ds);
      assert ([r] + Kept(all, ds[1..]))[1..] == Kept(all, ds[1..]);
      TruthValues(v, common, r, Kept(all, ds[1..]));
      Distributes(AllTrue(v, common), AllTrue(v, r), AnyOf(v, Kept(all, ds[1..])));
    }
  }

  lemma TruthValues(v: Valuation, a: seq<Expr>, b: seq<Expr>, ds: seq<seq<Expr>>)
    ensures !AllTrue(v, a).Datum? && !AllTrue(v, b).Datum? && !AnyOf(v, ds).Datum?
  {
  }

  lemma KeptFirst(all: seq<seq<Expr>>, ds: seq<seq<Expr>>)
    requires ds != [] && Residue(all, ds[0]) != []
    ensures Kept(all, ds) == [Residue(all, ds[0])] + Kept(all, ds[1..])
  {
  }

  lemma {:induction false} NoneKeepsAnything(v: Valuation, all: seq<seq<Expr>>, common: seq<Expr>, ds: seq<seq<Expr>>)
    requires ListsCommon(common, all) && ds != []
    requires forall d :: d in ds ==> d in all && d != [] && Residue(all, d) == []
    ensures Kept(all, ds) == [] && AnyOf(v, ds) == AllTrue(v, common)
  {
    assert ds[0] in ds;
    DisjunctSplits(v, all, common, ds[0]);
    TruthValues(v, common, [], ds[1..]);
    if |ds| > 1 {
      NoneKeepsAnything(v, all, common, ds[1..]);
    } else {
      assert ds[1..] == [];
    }
  }

  lemma UniformFactoring(v: Valuation, ds: seq<seq<Expr>>, common: seq<Expr>)
    requires Uniform(ds) && ListsCommon(common, ds) && common != []
    ensures Factored(v, common, Kept(ds, ds)) == AnyOf(v, ds)
  {
    NotEmpty(ds, common);
    assert ds != [] by { assert common[0] in common; }
    if Residue(ds, ds[0]) != [] {
      AllKeepSomething(v, ds, common, ds);
      KeptFirst(ds, ds);
    } else {
      NoneKeepsAnything(v, ds, common, ds);
    }
  }

  /** With a common conjunct, no disjunct is empty. */
  lemma NotEmpty(ds: seq<seq<Expr>>, common: seq<Expr>)
    requires ListsCommon(common, ds) && common != []
    ensures forall d :: d in ds ==> d != []
  {
    forall d | d in ds ensures d != [] {
      CommonIsIn(ds, common, d);
      assert common[0] in common;
    }
  }

  /** The valuation that makes exactly the common conjuncts true. */
  function OnlyCommon(ds: seq<seq<Expr>>): Valuation {
    (e: Expr) => if IsCommon(ds, e) then TRUE else FALSE
  }

  lemma MixedFactoringFails(ds: seq<seq<Expr>>, common: seq<Expr>)
    requires !Uniform(ds) && ListsCommon(common, ds) && common != []
    ensures AnyOf(OnlyCommon(ds), ds) == TRUE && Factored(OnlyCommon(ds), common, Kept(ds, ds)) == FALSE
  {
    NotEmpty(ds, common);
    var i :| 0 <= i < |ds| && Residue(ds, ds[i]) == [];
    var j :| 0 <= j < |ds| && Residue(ds, ds[j]) != [];
    OriginalIsTrue(ds, i);
    FactoredIsFalse(ds, common, j);
  }

  lemma OriginalIsTrue(ds: seq<seq<Expr>>, i: nat)
    requires i < |ds| && Residue(ds, ds[i]) == []
    ensures AnyOf(OnlyCommon(ds), ds) == TRUE
  {
    EmptiedIsTrue(ds, ds[i]);
    OneTrue(OnlyCommon(ds), ds, ds[i]);
  }

  lemma FactoredIsFalse(ds: seq<seq<Expr>>, common: seq<Expr>, j: nat)
    requires j < |ds| && Residue(ds, ds[j]) != [] && forall d :: d in ds ==> d != []
    ensures Factored(OnlyCommon(ds), common, Kept(ds, ds)) == FALSE
  {
    KeptMembers(ds, ds, Residue(ds, ds[j]));
    KeptIsFalse(ds);
    NoneTrue(OnlyCommon(ds), Kept(ds, ds));
  }

  lemma EmptiedIsTrue(ds: seq<seq<Expr>>, d: seq<Expr>)
    requires Residue(ds, d) == []
    ensures AllTrue(OnlyCommon(ds), d) == TRUE
  {
    var v := OnlyCommon(ds);
    forall e | e in d ensures v(e) == TRUE { assert e !in Residue(ds, d); }
    AllTrueMembers(v, d);
  }

  lemma KeptIsFalse(ds: seq<seq<Expr>>)
    requires forall d :: d in ds ==> d != []
    ensures forall r :: r in Kept(ds, ds) ==> AllTrue(OnlyCommon(ds), r) == FALSE
  {
    forall r | r in Kept(ds, ds) ensures AllTrue(OnlyCommon(ds), r) == FALSE {
      KeptMembers(ds, ds, r);
      assert r[0] in r && !IsCommon(ds, r[0]);
      FirstFalse(OnlyCommon(ds), r);
    }
  }

  lemma FirstFalse(v: Valuation, es: seq<Expr>)
    requires es != [] && v(es[0]) == FALSE
    ensures AllTrue(v, es) == FALSE
  {
  }

  lemma {:induction false} OneTrue(v: Valuation, ds: seq<seq<Expr>>, d: seq<Expr>)
    requires d in ds && AllTrue(v, d) == TRUE
    ensures AnyOf(v, ds) == TRUE
  {
    if d != ds[0] { OneTrue(v, ds[1..], d); }
  }

  lemma {:induction false} NoneTrue(v: Valuation, ds: seq<seq<Expr>>)
    requires forall d :: d in ds ==> AllTrue(v, d) == FALSE
    ensures AnyOf(v, ds) == FALSE
  {
    if ds != [] { NoneTrue(v, ds[1..]); }
  }

  /** The factored form is right for all values of the conjuncts exactly when every disjunct keeps a
      conjunct of its own or none does. */
  lemma FactoringIffUniform(ds: seq<seq<Expr>>, common: seq<Expr>)
    requires ListsCommon(common, ds) && common != []
    ensures (forall v: Valuation :: Factored(v, common, Kept(ds, ds)) == AnyOf(v, ds)) <==> Uniform(ds)
  {
    if Uniform(ds) {
      forall v: Valuation ensures Factored(v, common, Kept(ds, ds)) == AnyOf(v, ds) {
        UniformFactoring(v, ds, common);
      }
    } else {
      MixedFactoringFails(ds, common);
    }
  }

  // ---- The rewrite ---------------------------------------------------------------------------------------

  function Operands(vals: seq<Expr>): (ds: seq<seq<Expr>>)
    requires forall e :: e in vals ==> e.And?
    ensures |ds| == |vals| && forall i :: 0 <= i < |vals| ==> ds[i] == vals[i].vals
  {
    seq(|vals|, i requires 0 <= i < |vals| => assert vals[i] in vals; vals[i].vals)
  }

  function UsageOf(usage: map<Expr, nat>, e: Expr): nat {
    if e in usage then usage[e] else 0
  }

  /** Counts, for every conjunct, the operands it occurs in; gives up on an operand that is no conjunction. */
  method CountUsage(vals: seq<Expr>) returns (ok: bool, usage: map<Expr, nat>)
    ensures ok <==> forall e :: e in vals ==> e.And?
    ensures ok ==> forall e :: UsageOf(usage, e) == CountOf(Operands(vals), e)
  {
    usage := map[];
    var i := 0;
    while i < |vals|
      invariant 0 <= i <= |vals|
      invariant forall e :: e in vals[..i] ==> e.And?
      invariant forall e :: UsageOf(usage, e) == CountOf(Operands(vals[..i]), e)
    {
      if !vals[i].And? {
        assert vals[i] in vals;
        return false, usage;
      }
      var operands := vals[i].vals;
      var alreadyUsed := {};
      var j := 0;
      while j < |operands|
        invariant 0 <= j <= |operands|
        invariant forall e :: e in alreadyUsed <==> e in operands[..j]
        invariant forall e :: UsageOf(usage, e) == CountOf(Operands(vals[..i]), e) + (if e in operands[..j] then 1 else 0)
      {
        var operand := operands[j];
        assert operands[..j + 1] == operands[..j] + [operand];
        if operand !in alreadyUsed {
          usage := usage[operand := UsageOf(usage, operand) + 1];
          alreadyUsed := alreadyUsed + {operand};
        }
        j := j + 1;
      }
      assert operands[..j] == operands;
      assert vals[..i + 1] == vals[..i] + [vals[i]];
      assert Operands(vals[..i + 1]) == Operands(vals[..i]) + [operands];
      forall e ensures UsageOf(usage, e) == CountOf(Operands(vals[..i + 1]), e) {
        CountAdd(Operands(vals[..i]), operands, e);
      }
      i := i + 1;
    }
    assert vals[..i] == vals;
    ok := true;
  }

  lemma {:induction false} ResidueConcat(all: seq<seq<Expr>>, es: seq<Expr>, e: Expr)
    ensures Residue(all, es + [e]) == Residue(all, es) + (if IsCommon(all, e) then [] else [e])
  {
    if es == [] {
      assert es + [e] == [e];
    } else {
      var rest := es[1..];
      ResidueConcat(all, rest, e);
      assert (es + [e])[0] == es[0] && (es + [e])[1..] == rest + [e];
      Associate(if IsCommon(all, es[0]) then [] else [es[0]], Residue(all, rest), if IsCommon(all, e) then [] else [e]);
    }
  }

  /** Splits one operand into what is extracted and what it keeps. */
  method SplitOperand(operands: seq<Expr>, usage: map<Expr, nat>, total: nat, extracted0: set<Expr>, ghost ds: seq<seq<Expr>>)
    returns (keep: seq<Expr>, extracted: set<Expr>)
    requires total == |ds| && forall e :: UsageOf(usage, e) == CountOf(ds, e)
    ensures keep == Residue(ds, operands)
    ensures ExtractedFrom(extracted, extracted0, ds, operands)
  {
    keep, extracted := [], extracted0;
    var j := 0;
    while j < |operands|
      invariant 0 <= j <= |operands|
      invariant keep == Residue(ds, operands[..j])
      invariant forall e :: e in extracted <==> e in extracted0 || (e in operands[..j] && IsCommon(ds, e))
    {
      var operand := operands[j];
      assert operands[..j + 1] == operands[..j] + [operand];
      ResidueConcat(ds, operands[..j], operand);
      if UsageOf(usage, operand) == total {
        extracted := extracted + {operand};
      } else {
        keep := keep + [operand];
      }
      j := j + 1;
    }
    assert operands[..j] == operands;
  }

  lemma {:induction false} ResidueOfAll(ds: seq<seq<Expr>>, es: seq<Expr>)
    ensures |Residue(ds, es)| == |es| ==> Residue(ds, es) == es
  {
    if es != [] { ResidueOfAll(ds, es[1..]); }
  }

  /** New conjunctions of what the operands keep, and the set of extracted conjuncts. */
  method SplitOperands(rewriter: PatternRewriter, vals: seq<Expr>, usage: map<Expr, nat>) returns (newOperands: seq<Expr>, extracted: set<Expr>)
    requires forall e :: e in vals ==> e.And?
    requires forall e :: UsageOf(usage, e) == CountOf(Operands(vals), e)
    modifies rewriter
    ensures forall e :: e in newOperands ==> e.And?
    ensures Operands(newOperands) == Kept(Operands(vals), Operands(vals))
    ensures Extracts(extracted, Operands(vals), Operands(vals))
    ensures extracted == {} ==> newOperands == vals
  {
    newOperands, extracted := [], {};
    ghost var ds := Operands(vals);
    var i := 0;
    while i < |vals|
      invariant 0 <= i <= |vals| && ds == Operands(vals)
      invariant Gathered(ds, ds[..i], vals[..i], newOperands, extracted)
    {
      assert vals[i] in vals;
      OneMore(ds, i);
      OneMore(vals, i);
      newOperands, extracted := AddOperand(rewriter, vals[i], usage, |vals|, newOperands, extracted, ds, ds[..i], vals[..i]);
      i := i + 1;
    }
    assert ds[..i] == ds && vals[..i] == vals;
  }

  /** One operand: a conjunction of what it keeps, or nothing; unchanged if nothing was extracted. */
  method AddOperand(rewriter: PatternRewriter, v: Expr, usage: map<Expr, nat>, total: nat, news: seq<Expr>, extracted0: set<Expr>,
                    ghost all: seq<seq<Expr>>, ghost ds: seq<seq<Expr>>, ghost vals: seq<Expr>)
    returns (newOperands: seq<Expr>, extracted: set<Expr>)
    requires v.And? && total == |all| && (forall e :: UsageOf(usage, e) == CountOf(all, e))
    requires Gathered(all, ds, vals, news, extracted0)
    modifies rewriter
    ensures Gathered(all, ds + [v.vals], vals + [v], newOperands, extracted)
  {
    var keep;
    keep, extracted := SplitOperand(v.vals, usage, total, extracted0, all);
    ResidueOfAll(all, v.vals);
    newOperands := news;
    if |keep| != |v.vals| {
      if |keep| > 0 {
        var id := rewriter.NewId();
        SplitKeeps(all, ds, vals, news, extracted0, extracted, v.vals, v, And(id, keep));
        newOperands := newOperands + [And(id, keep)];
      } else {
        SplitDrops(all, ds, vals, news, extracted0, extracted, v.vals, v);
      }
    } else {
      SplitKeeps(all, ds, vals, news, extracted0, extracted, v.vals, v, v);
      newOperands := newOperands + [v];
    }
  }

  /** What is gathered from the operands vals with the conjuncts ds. */
  ghost predicate Gathered(all: seq<seq<Expr>>, ds: seq<seq<Expr>>, vals: seq<Expr>, newOperands: seq<Expr>, extracted: set<Expr>) {
    && (forall e :: e in newOperands ==> e.And?)
    && Operands(newOperands) == Kept(all, ds)
    && Extracts(extracted, all, ds)
    && (extracted == {} ==> newOperands == vals)
  }

  ghost predicate ExtractedFrom(more: set<Expr>, extracted: set<Expr>, ds: seq<seq<Expr>>, d: seq<Expr>) {
    forall e :: e in more <==> e in extracted || (e in d && IsCommon(ds, e))
  }

  /** An operand v with the conjuncts d that becomes e. */
  lemma SplitKeeps(all: seq<seq<Expr>>, ds: seq<seq<Expr>>, vals: seq<Expr>, newOperands: seq<Expr>, extracted: set<Expr>,
                   more: set<Expr>, d: seq<Expr>, v: Expr, e: Expr)
    requires Gathered(all, ds, vals, newOperands, extracted) && ExtractedFrom(more, extracted, all, d)
    requires e.And? && e.vals == Residue(all, d) && (e.vals != [] || d == []) && (|e.vals| == |d| ==> e == v)
    ensures Gathered(all, ds + [d], vals + [v], newOperands + [e], more)
  {
    KeptConcat(all, ds, d);
    ExtractsMore(extracted, more, all, ds, d);
    OperandsMore(newOperands, e);
    if more == {} {
      NothingExtracted(all, extracted, more, d);
    }
  }

  lemma NothingExtracted(all: seq<seq<Expr>>, extracted: set<Expr>, more: set<Expr>, d: seq<Expr>)
    requires ExtractedFrom(more, extracted, all, d) && more == {}
    ensures extracted == {} && |Residue(all, d)| == |d|
  {
    forall x ensures x !in extracted { assert x !in more; }
    if |Residue(all, d)| != |d| {
      SomethingExtracted(all, d);
    }
  }

  /** An operand that is emptied. */
  lemma SplitDrops(all: seq<seq<Expr>>, ds: seq<seq<Expr>>, vals: seq<Expr>, newOperands: seq<Expr>, extracted: set<Expr>,
                   more: set<Expr>, d: seq<Expr>, v: Expr)
    requires Gathered(all, ds, vals, newOperands, extracted) && ExtractedFrom(more, extracted, all, d)
    requires Residue(all, d) == [] && d != []
    ensures Gathered(all, ds + [d], vals + [v], newOperands, more)
  {
    KeptConcat(all, ds, d);
    ExtractsMore(extracted, more, all, ds, d);
    SomethingExtracted(all, d);
  }

  lemma OneMore<T>(s: seq<T>, i: nat)
    requires i < |s|
    ensures s[..i + 1] == s[..i] + [s[i]]
  {
  }

  ghost predicate Extracts(extracted: set<Expr>, all: seq<seq<Expr>>, ds: seq<seq<Expr>>) {
    forall e :: e in extracted <==> IsCommon(all, e) && exists d :: d in ds && e in d
  }

  lemma ExtractsMore(extracted: set<Expr>, more: set<Expr>, all: seq<seq<Expr>>, ds: seq<seq<Expr>>, d: seq<Expr>)
    requires Extracts(extracted, all, ds)
    requires ExtractedFrom(more, extracted, all, d)
    ensures Extracts(more, all, ds + [d])
  {
    forall e ensures e in more <==> IsCommon(all, e) && exists x :: x in ds + [d] && e in x {
      if e in more && e in d { assert d in ds + [d]; }
      if e in more && e !in d {
        var x :| x in ds && e in x;
        assert x in ds + [d];
      }
    }
  }

  lemma OperandsMore(vals: seq<Expr>, e: Expr)
    requires (forall x :: x in vals ==> x.And?) && e.And?
    ensures Operands(vals + [e]) == Operands(vals) + [e.vals]
  {
  }

  lemma {:induction false} SomethingExtracted(ds: seq<seq<Expr>>, es: seq<Expr>)
    requires |Residue(ds, es)| != |es|
    ensures exists e :: e in es && IsCommon(ds, e)
  {
    if IsCommon(ds, es[0]) {
      assert es[0] in es;
    } else {
      SomethingExtracted(ds, es[1..]);
      var e :| e in es[1..] && IsCommon(ds, e);
      assert e in es;
    }
  }

  lemma AndMeansAll(s: State, e: Expr)
    requires e.And?
    ensures Eval(s, e) == AllTrue((x: Expr) => Eval(s, x), e.vals)
  {
    var v := (x: Expr) => Eval(s, x);
    AllTrueMembers(v, e.vals);
    assert forall x :: x in e.vals ==> v(x) == Eval(s, x);
    assert forall i :: 0 <= i < |e.vals| ==> e.vals[i] in e.vals;
  }

  lemma {:induction false} AnyOfMembers(v: Valuation, ds: seq<seq<Expr>>)
    ensures AnyOf(v, ds) == Disjunction(exists d :: d in ds && AllTrue(v, d) == TRUE, exists d :: d in ds && AllTrue(v, d) == Null)
  {
    if ds != [] {
      AnyOfMembers(v, ds[1..]);
      assert ds[0] in ds;
      forall d | d in ds && d != ds[0] ensures d in ds[1..] {}
    }
  }

  lemma OrMeansAny(s: State, id: nat, vals: seq<Expr>)
    requires forall e :: e in vals ==> e.And?
    ensures Eval(s, Or(id, vals)) == AnyOf((e: Expr) => Eval(s, e), Operands(vals))
  {
    var v := (e: Expr) => Eval(s, e);
    forall i | 0 <= i < |vals| ensures Eval(s, vals[i]) == AllTrue(v, Operands(vals)[i]) && Operands(vals)[i] in Operands(vals) {
      assert vals[i] in vals;
      AndMeansAll(s, vals[i]);
    }
    AnyOfMembers(v, Operands(vals));
  }

  lemma AndMore(s: State, id: nat, common: seq<Expr>, e: Expr)
    ensures Eval(s, And(id, common + [e])) == Both(AllTrue((x: Expr) => Eval(s, x), common), Eval(s, e))
            || Eval(s, e).Datum?
  {
    var v := (x: Expr) => Eval(s, x);
    AndMeansAll(s, And(id, common + [e]));
    SplitMeans(v, common + [e], common, [e]);
    assert [e][0] == e && [e][1..] == [];
    assert AllTrue(v, [e]) == Both(v(e), TRUE);
  }

  /** The replacement that OrOp::canonicalize builds. */
  ghost predicate Rewritten(result: Expr, common: seq<Expr>, newOperands: seq<Expr>) {
    && result.And?
    && (|newOperands| == 0 ==> result.vals == common)
    && (|newOperands| == 1 ==> result.vals == common + newOperands)
    && (|newOperands| > 1 ==> exists id :: result.vals == common + [Or(id, newOperands)])
  }

  lemma RewrittenMeans(s: State, result: Expr, common: seq<Expr>, newOperands: seq<Expr>)
    requires Rewritten(result, common, newOperands) && forall e :: e in newOperands ==> e.And?
    ensures Eval(s, result) == Factored((e: Expr) => Eval(s, e), common, Operands(newOperands))
  {
    var v := (e: Expr) => Eval(s, e);
    if |newOperands| == 0 {
      AndMeansAll(s, result);
    } else if |newOperands| == 1 {
      AndMore(s, result.id, common, newOperands[0]);
      AndMeansAll(s, newOperands[0]);
      assert result == And(result.id, common + [newOperands[0]]);
      assert Operands(newOperands) == [newOperands[0].vals];
      AnyOfOne(v, newOperands[0].vals);
    } else {
      var id :| result.vals == common + [Or(id, newOperands)];
      AndMore(s, result.id, common, Or(id, newOperands));
      OrMeansAny(s, id, newOperands);
    }
  }

  lemma AnyOfOne(v: Valuation, d: seq<Expr>)
    ensures AnyOf(v, [d]) == AllTrue(v, d)
  {
    assert [d][0] == d && [d][1..] == [];
    TruthValues(v, d, [], []);
  }

  ghost predicate HasCommon(ds: seq<seq<Expr>>) {
    exists d, e :: d in ds && e in d && IsCommon(ds, e)
  }

  /** OrOp::canonicalize.  It succeeds exactly when all operands are conjunctions with a common
      conjunct, and then factors out all of these; the meaning is kept when every operand has a conjunct
      of its own left or none has.  On failure the disjunction stays, except that a disjunction of a single
      empty conjunction is replaced by it all the same. */
  method Canonicalize(rewriter: PatternRewriter, orOp: Expr) returns (success: bool, result: Expr, ghost common: seq<Expr>, ghost news: seq<Expr>)
    requires orOp.Or?
    modifies rewriter
    ensures success <==> (forall e :: e in orOp.vals ==> e.And?) && HasCommon(Operands(orOp.vals))
    ensures success ==> ListsCommon(common, Operands(orOp.vals)) && common != [] && Rewritten(result, common, news)
    ensures success ==> (forall e :: e in news ==> e.And?) && Operands(news) == Kept(Operands(orOp.vals), Operands(orOp.vals))
    ensures success && Uniform(Operands(orOp.vals)) ==> forall s: State :: Eval(s, result) == Eval(s, orOp)
    ensures !success ==> result == orOp || orOp.vals == [result]
    ensures !success ==> forall s: State :: Eval(s, result) == Eval(s, orOp)
  {
    common, news := [], [];
    var ok, usage := CountUsage(orOp.vals);
    if !ok {
      return false, orOp, [], [];
    }
    ghost var ds := Operands(orOp.vals);
    var newOperands, extracted := SplitOperands(rewriter, orOp.vals, usage);
    if extracted != {} {
      var extractedAsVec := Enumerate(extracted);
      common, news := extractedAsVec, newOperands;
      success := true;
      if |newOperands| == 1 {
        extractedAsVec := extractedAsVec + [newOperands[0]];
      } else if |newOperands| > 1 {
        var id := rewriter.NewId();
        extractedAsVec := extractedAsVec + [Or(id, newOperands)];
      }
      var id := rewriter.NewId();
      result := And(id, extractedAsVec);
      SuccessMeans(orOp, result, common, newOperands);
    } else {
      success := false;
      result := if |newOperands| == 1 then newOperands[0] else orOp;
      if |newOperands| == 1 {
        forall s: State ensures Eval(s, result) == Eval(s, orOp) {
          OrOfOne(s, orOp.id, newOperands[0]);
        }
      }
    }
  }

  lemma OrOfOne(s: State, id: nat, e: Expr)
    requires e.And?
    ensures Eval(s, Or(id, [e])) == Eval(s, e)
  {
    assert [e][0] == e;
  }

  lemma SuccessMeans(orOp: Expr, result: Expr, common: seq<Expr>, newOperands: seq<Expr>)
    requires orOp.Or? && (forall e :: e in orOp.vals ==> e.And?) && forall e :: e in newOperands ==> e.And?
    requires ListsCommon(common, Operands(orOp.vals)) && common != [] && Rewritten(result, common, newOperands)
    requires Operands(newOperands) == Kept(Operands(orOp.vals), Operands(orOp.vals))
    ensures Uniform(Operands(orOp.vals)) ==> forall s: State :: Eval(s, result) == Eval(s, orOp)
  {
    if Uniform(Operands(orOp.vals)) {
      forall s: State ensures Eval(s, result) == Eval(s, orOp) {
        RewrittenMeans(s, result, common, newOperands);
        UniformFactoring((e: Expr) => Eval(s, e), Operands(orOp.vals), common);
        OrMeansAny(s, orOp.id, orOp.vals);
      }
    }
  }
}
