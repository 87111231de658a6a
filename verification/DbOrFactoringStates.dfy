/** When the rewritten disjunction means the same in every state of the program. */
module OrFactoringStates {
  import opened DbPredicates
  import opened OrFactoring

  /** What OrOp::canonicalize leaves when it succeeds. */
  ghost predicate Factors(orOp: Expr, result: Expr, common: seq<Expr>, news: seq<Expr>) {
    && orOp.Or? && (forall e :: e in orOp.vals ==> e.And?) && (forall e :: e in news ==> e.And?)
    && ListsCommon(common, Operands(orOp.vals)) && common != []
    && Rewritten(result, common, news) && Operands(news) == Kept(Operands(orOp.vals), Operands(orOp.vals))
  }

  /** Arguments and opaque operations take any value, whatever the others take. */
  predicate Independent(ds: seq<seq<Expr>>) {
    forall d, e :: d in ds && e in d ==> e.Arg? || e.Other?
  }

  /** The state in which exactly the common conjuncts are true. */
  function CommonState(ds: seq<seq<Expr>>): State {
    State((n: nat) => if IsCommon(ds, Arg(n)) then TRUE else FALSE, (id: nat) => if IsCommon(ds, Other(id)) then TRUE else FALSE,
          (x, y) => false, (x, y) => false)
  }

  lemma {:induction false} SameAll(v: Valuation, w: Valuation, es: seq<Expr>)
    requires forall e :: e in es ==> v(e) == w(e)
    ensures AllTrue(v, es) == AllTrue(w, es)
  {
    if es != [] {
      assert es[0] in es;
      SameAll(v, w, es[1..]);
    }
  }

  lemma {:induction false} SameAny(v: Valuation, w: Valuation, ds: seq<seq<Expr>>)
    requires forall d, e :: d in ds && e in d ==> v(e) == w(e)
    ensures AnyOf(v, ds) == AnyOf(w, ds)
  {
    if ds != [] {
      assert ds[0] in ds;
      SameAll(v, w, ds[0]);
      SameAny(v, w, ds[1..]);
    }
  }

  lemma KeptAreOperands(ds: seq<seq<Expr>>, r: seq<Expr>, e: Expr)
    requires r in Kept(ds, ds) && e in r
    ensures exists d :: d in ds && e in d
  {
    KeptMembers(ds, ds, r);
    var d :| d in ds && r == Residue(ds, d);
    assert e in d;
  }

  lemma SameFactored(v: Valuation, w: Valuation, ds: seq<seq<Expr>>, common: seq<Expr>)
    requires ListsCommon(common, ds) && forall d, e :: d in ds && e in d ==> v(e) == w(e)
    ensures Factored(v, common, Kept(ds, ds)) == Factored(w, common, Kept(ds, ds))
  {
    SameAll(v, w, common);
    forall r, e | r in Kept(ds, ds) && e in r ensures v(e) == w(e) { KeptAreOperands(ds, r, e); }
    SameAny(v, w, Kept(ds, ds));
  }

  /** Where only some operands have a conjunct of their own left, the state that makes exactly the common ones
      true makes the disjunction true and its replacement false. */
  lemma MixedChangesMeaning(orOp: Expr, result: Expr, common: seq<Expr>, news: seq<Expr>)
    requires Factors(orOp, result, common, news) && Independent(Operands(orOp.vals)) && !Uniform(Operands(orOp.vals))
    ensures var s := CommonState(Operands(orOp.vals)); Eval(s, orOp) == TRUE && Eval(s, result) == FALSE
  {
    var ds := Operands(orOp.vals);
    var s := CommonState(ds);
    var v := (e: Expr) => Eval(s, e);
    OrMeansAny(s, orOp.id, orOp.vals);
    RewrittenMeans(s, result, common, news);
    forall d, e | d in ds && e in d ensures v(e) == OnlyCommon(ds)(e) { assert e.Arg? || e.Other?; }
    SameAny(v, OnlyCommon(ds), ds);
    SameFactored(v, OnlyCommon(ds), ds, common);
    MixedFactoringFails(ds, common);
  }

  /** Over independent conjuncts the rewrite keeps the meaning in every state exactly when every operand has a
      conjunct of its own left or none has. */
  lemma KeepsMeaningIffUniform(orOp: Expr, result: Expr, common: seq<Expr>, news: seq<Expr>)
    requires Factors(orOp, result, common, news) && Independent(Operands(orOp.vals))
    ensures (forall s: State :: Eval(s, result) == Eval(s, orOp)) <==> Uniform(Operands(orOp.vals))
  {
    if Uniform(Operands(orOp.vals)) {
      SuccessMeans(orOp, result, common, news);
    } else {
      MixedChangesMeaning(orOp, result, common, news);
    }
  }

  // ---- (a and a) or (a and b) --------------------------------------------------------------------------

  const A := Arg(0)
  const B := Arg(1)
  const BEFORE := Or(0, [And(1, [A, A]), And(2, [A, B])])
  const AFTER := And(4, [A, And(3, [B])])

  lemma BeforeOperands()
    ensures Operands(BEFORE.vals) == [[A, A], [A, B]]
  {
    assert forall e :: e in BEFORE.vals ==> e == And(1, [A, A]) || e == And(2, [A, B]);
  }

  lemma BeforeCommon(e: Expr)
    ensures IsCommon([[A, A], [A, B]], e) <==> e == A
  {
    CountedEverywhere([[A, A], [A, B]], e);
    assert [A, A] in [[A, A], [A, B]] && [A, B] in [[A, A], [A, B]];
    assert e in [A, A] <==> e == A;
  }

  lemma BeforeKept()
    ensures Residue([[A, A], [A, B]], [A, A]) == [] && Residue([[A, A], [A, B]], [A, B]) == [B]
    ensures Kept([[A, A], [A, B]], [[A, A], [A, B]]) == [[B]]
  {
    var ds := [[A, A], [A, B]];
    BeforeCommon(A);
    BeforeCommon(B);
    assert [A, A][1..] == [A] && [A, B][1..] == [B] && [A][1..] == [] && [B][1..] == [];
    assert ds[1..] == [[A, B]] && [[A, B]][1..] == [];
  }

  lemma BeforeFactors()
    ensures Factors(BEFORE, AFTER, [A], [And(3, [B])])
  {
    BeforeOperands();
    BeforeKept();
    assert Operands([And(3, [B])]) == [[B]];
    forall e ensures e in [A] <==> (exists d :: d in [[A, A], [A, B]] && e in d) && IsCommon([[A, A], [A, B]], e) {
      BeforeCommon(e);
      assert [A, A] in [[A, A], [A, B]] && A in [A, A];
    }
    assert AFTER.vals == [A] + [And(3, [B])];
  }

  /** The pass turns the disjunction a, or a and b, into a and b: with a true and b false it was true and becomes
      false. */
  lemma OneConjunctIsAdded()
    ensures Factors(BEFORE, AFTER, [A], [And(3, [B])])
    ensures var s := State(n => if n == 0 then TRUE else FALSE, n => FALSE, (x, y) => false, (x, y) => false);
            Eval(s, BEFORE) == TRUE && Eval(s, AFTER) == FALSE
  {
    BeforeFactors();
    var s := State(n => if n == 0 then TRUE else FALSE, n => FALSE, (x, y) => false, (x, y) => false);
    BeforeIsTrue(s);
    AfterIsFalse(s);
  }

  lemma BeforeIsTrue(s: State)
    requires Eval(s, A) == TRUE
    ensures Eval(s, BEFORE) == TRUE
  {
    assert Eval(s, And(1, [A, A])) == TRUE;
    assert BEFORE.vals[0] == And(1, [A, A]);
  }

  lemma AfterIsFalse(s: State)
    requires Eval(s, B) == FALSE
    ensures Eval(s, AFTER) == FALSE
  {
    assert [B][0] == B && Eval(s, And(3, [B])) == FALSE;
    assert AFTER.vals[1] == And(3, [B]);
  }
}
