/**
 * Straight-line pieces of emitted code: declarations, initialisations and the
 * one-after-another copies that stand for a simultaneous assignment.
 */
module EmittedCopies {
  import opened Options
  import opened StructuredIr
  import opened CProgram

  function Declares(xs: seq<Name>): seq<Stmt> {
    if xs == [] then [] else [Declare(xs[0])] + Declares(xs[1..])
  }

  function Inits(ts: seq<Name>, ss: seq<Name>): seq<Stmt>
    requires |ts| == |ss|
  {
    if ts == [] then [] else [DeclareInit(ts[0], Var(ss[0]))] + Inits(ts[1..], ss[1..])
  }

  function Copies(ts: seq<Name>, ss: seq<Name>): seq<Stmt>
    requires |ts| == |ss|
  {
    if ts == [] then [] else [Assign(ts[0], ss[0])] + Copies(ts[1..], ss[1..])
  }

  /** The store after the copies have run in order. */
  function CopiedInOrder(st: Store, ts: seq<Name>, ss: seq<Name>): (r: Store)
    requires |ts| == |ss| && Ready(st, ss)
    ensures r.Keys == st.Keys + (set x | x in ts)
    decreases |ts|
  {
    if ts == [] then st
    else
      var st1 := st[ts[0] := st[ss[0]]];
      assert Ready(st1, ss[1..]);
      assert ts == [ts[0]] + ts[1..];
      CopiedInOrder(st1, ts[1..], ss[1..])
  }

  lemma {:induction false} CopiedKeepsReady(st: Store, ts: seq<Name>, ss: seq<Name>, x: Name)
    requires |ts| == |ss| && Ready(st, ss) && Ready(st, [x])
    ensures Ready(CopiedInOrder(st, ts, ss), [x])
    decreases |ts|
  {
    assert x in [x];
    if ts != [] {
      var st1 := st[ts[0] := st[ss[0]]];
      assert Ready(st1, ss[1..]);
      CopiedKeepsReady(st1, ts[1..], ss[1..], x);
    }
  }

  /** st' is st with every target holding the old value of its source. */
  ghost predicate CopiedAtOnce(st: Store, st': Store, ts: seq<Name>, ss: seq<Name>)
    requires |ts| == |ss| && Ready(st, ss)
  {
    && st'.Keys == st.Keys + (set x | x in ts)
    && (forall i :: 0 <= i < |ts| ==> st'[ts[i]] == st[ss[i]])
    && (forall x :: x in st && x !in ts ==> st'[x] == st[x])
  }

  lemma {:induction false} RunDeclares(m: Machine, xs: seq<Name>, st: Store, mem: Mem, fuel: nat) returns (st': Store)
    requires Distinct(xs) && forall x :: x in xs ==> x !in st
    ensures RunStmts(m, Declares(xs), st, mem, fuel) == Next(st', mem)
    ensures st'.Keys == st.Keys + (set x | x in xs)
    ensures forall x :: x in st ==> st'[x] == st[x]
    decreases |xs|
  {
    if xs == [] {
      st' := st;
    } else {
      var st1 := st[xs[0] := None];
      assert Declares(xs)[1..] == Declares(xs[1..]);
      st' := RunDeclares(m, xs[1..], st1, mem, fuel);
    }
  }

  lemma {:induction false} RunInits(m: Machine, ts: seq<Name>, ss: seq<Name>, st: Store, mem: Mem, fuel: nat) returns (st': Store)
    requires |ts| == |ss| && Distinct(ts) && Ready(st, ss)
    requires forall x :: x in ts ==> x !in st
    ensures RunStmts(m, Inits(ts, ss), st, mem, fuel) == Next(st', mem)
    ensures CopiedAtOnce(st, st', ts, ss)
    decreases |ts|
  {
    if ts == [] {
      st' := st;
    } else {
      var st1 := st[ts[0] := st[ss[0]]];
      assert Inits(ts, ss)[1..] == Inits(ts[1..], ss[1..]);
      assert ts[0] in ts;
      assert ss[0] in ss && Ready(st, [ss[0]]);
      assert ts[0] !in ts[1..];
      st' := RunInits(m, ts[1..], ss[1..], st1, mem, fuel);
    }
  }

  lemma {:induction false} RunCopies(m: Machine, ts: seq<Name>, ss: seq<Name>, st: Store, mem: Mem, fuel: nat)
    requires |ts| == |ss| && Ready(st, ss)
    requires forall x :: x in ts ==> x in st
    ensures RunStmts(m, Copies(ts, ss), st, mem, fuel) == Next(CopiedInOrder(st, ts, ss), mem)
    decreases |ts|
  {
    if ts != [] {
      var st1 := st[ts[0] := st[ss[0]]];
      assert Copies(ts, ss)[1..] == Copies(ts[1..], ss[1..]);
      assert ts[0] in ts;
      assert ss[0] in ss && Ready(st, [ss[0]]);
      RunCopies(m, ts[1..], ss[1..], st1, mem, fuel);
    }
  }

  /** Without an overwritten source, copying in order is copying at once. */
  lemma {:induction false} OrderedCopiesAreSimultaneous(st: Store, ts: seq<Name>, ss: seq<Name>)
    requires |ts| == |ss| && Distinct(ts) && Ready(st, ss)
    requires !Overwritten(ts, ss)
    ensures CopiedAtOnce(st, CopiedInOrder(st, ts, ss), ts, ss)
    decreases |ts|
  {
    if ts != [] {
      var st1 := st[ts[0] := st[ss[0]]];
      var ts', ss' := ts[1..], ss[1..];
      assert !Overwritten(ts', ss') by {
        forall i, j | 0 <= i < j < |ts'| && ss'[j] == ts'[i] ensures ss'[i] == ts'[i] {
          assert ss[j + 1] == ts[i + 1];
        }
      }
      OrderedCopiesAreSimultaneous(st1, ts', ss');
      var r := CopiedInOrder(st, ts, ss);
      assert r == CopiedInOrder(st1, ts', ss');
      assert ts[0] !in ts';
      forall i | 0 <= i < |ts| ensures r[ts[i]] == st[ss[i]] {
        if i > 0 {
          assert r[ts'[i - 1]] == st1[ss'[i - 1]];
          if ss[i] == ts[0] {
            assert ss[0] == ts[0];
          }
        }
      }
    }
  }

  lemma {:induction false} CopiedSplit(st: Store, ts: seq<Name>, ss: seq<Name>, k: nat)
    requires |ts| == |ss| && k <= |ts| && Ready(st, ss)
    ensures Ready(st, ss[..k]) && Ready(CopiedInOrder(st, ts[..k], ss[..k]), ss[k..])
    ensures CopiedInOrder(st, ts, ss) == CopiedInOrder(CopiedInOrder(st, ts[..k], ss[..k]), ts[k..], ss[k..])
    decreases k
  {
    if k == 0 {
      assert ss[0..] == ss && ts[0..] == ts;
    } else {
      var st1 := st[ts[0] := st[ss[0]]];
      CopiedSplit(st1, ts[1..], ss[1..], k - 1);
      assert ts[1..][..k - 1] == ts[..k][1..] && ss[1..][..k - 1] == ss[..k][1..];
      assert ts[1..][k - 1..] == ts[k..] && ss[1..][k - 1..] == ss[k..];
      assert Ready(st, ss[..k]);
    }
  }

  lemma {:induction false} CopiedKeepsOthers(st: Store, ts: seq<Name>, ss: seq<Name>, x: Name)
    requires |ts| == |ss| && Ready(st, ss) && x in st && x !in ts
    ensures x in CopiedInOrder(st, ts, ss) && CopiedInOrder(st, ts, ss)[x] == st[x]
    decreases |ts|
  {
    if ts != [] {
      CopiedKeepsOthers(st[ts[0] := st[ss[0]]], ts[1..], ss[1..], x);
    }
  }

  /** The first copy whose source has been overwritten. */
  lemma {:induction false} FirstOverwritten(ts: seq<Name>, ss: seq<Name>) returns (i: nat, j: nat)
    requires |ts| == |ss| && Overwritten(ts, ss)
    ensures i < j < |ts| && ss[j] == ts[i] && ss[i] != ts[i]
    ensures !Overwritten(ts[..j], ss[..j])
    decreases |ts|
  {
    i, j :| 0 <= i < j < |ts| && ss[j] == ts[i] && ss[i] != ts[i];
    if Overwritten(ts[..j], ss[..j]) {
      var k := j;
      i, j := FirstOverwritten(ts[..k], ss[..k]);
      assert ts[..k][..j] == ts[..j] && ss[..k][..j] == ss[..j];
    }
  }

  /** The store that tells the overwritten value apart. */
  function Marked(ts: seq<Name>, ss: seq<Name>, one: Name): Store {
    map x | x in ts + ss :: Some(if x == one then 1 else 0)
  }

  lemma {:induction false} ValueAfterCopies(st: Store, ts: seq<Name>, ss: seq<Name>, i: nat, j: nat)
    requires |ts| == |ss| && Distinct(ts) && Ready(st, ss)
    requires i < j < |ts| && ss[j] == ts[i] && !Overwritten(ts[..j], ss[..j])
    ensures ts[j] in CopiedInOrder(st, ts, ss)
    ensures CopiedInOrder(st, ts, ss)[ts[j]] == st[ss[i]]
  {
    CopiedSplit(st, ts, ss, j);
    var before := CopiedInOrder(st, ts[..j], ss[..j]);
    OrderedCopiesAreSimultaneous(st, ts[..j], ss[..j]);
    assert before[ts[..j][i]] == st[ss[..j][i]];
    var ts', ss' := ts[j..], ss[j..];
    var after := before[ts'[0] := before[ss'[0]]];
    assert Ready(after, ss'[1..]);
    assert ts'[0] !in ts'[1..];
    CopiedKeepsOthers(after, ts'[1..], ss'[1..], ts'[0]);
  }

  /** Some store on which copying in order differs from copying at once. */
  lemma OverwrittenCopyDiffers(ts: seq<Name>, ss: seq<Name>) returns (st: Store)
    requires |ts| == |ss| && Distinct(ts) && Overwritten(ts, ss)
    ensures Ready(st, ss) && !CopiedAtOnce(st, CopiedInOrder(st, ts, ss), ts, ss)
  {
    var i, j := FirstOverwritten(ts, ss);
    st := Marked(ts, ss, ss[i]);
    ValueAfterCopies(st, ts, ss, i, j);
    assert st[ss[i]] == Some(1) && st[ss[j]] == Some(0);
  }

  /** Exactly when the emitted copies implement the simultaneous assignment of a yield. */
  lemma CopiesAreSimultaneousIff(ts: seq<Name>, ss: seq<Name>)
    requires |ts| == |ss| && Distinct(ts)
    ensures (forall st: Store :: Ready(st, ss) ==> CopiedAtOnce(st, CopiedInOrder(st, ts, ss), ts, ss))
            <==> !Overwritten(ts, ss)
  {
    if Overwritten(ts, ss) {
      var st := OverwrittenCopyDiffers(ts, ss);
    } else {
      forall st: Store | Ready(st, ss) ensures CopiedAtOnce(st, CopiedInOrder(st, ts, ss), ts, ss) {
        OrderedCopiesAreSimultaneous(st, ts, ss);
      }
    }
  }
}
