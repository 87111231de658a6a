/** The worker pool: workers, callers and the condition variable as interleaved atomic steps. */
module WorkerPool {
  /** Jobs are numbered in the order in which they are accepted. */
  type Job = nat

  /** Ready: about to lock and test the wait condition. Asleep: blocked in the wait, lock released. */
  datatype Phase = Ready | Asleep | Running(job: Job) | Exited

  /** The queue and the flag, the threads, the notifications that are still to be sent after an unlock, and what
      has happened: how many jobs were accepted, which were taken in which order, which have run. */
  datatype Pool = Pool(limit: nat, jobs: seq<Job>, shutdown: bool, workers: seq<Phase>,
                       notifies: nat, broadcasts: nat, accepted: nat, taken: seq<Job>, ran: seq<Job>)

  function Start(n: nat, limit: nat): Pool {
    Pool(limit, [], false, seq(n, i => Ready), 0, 0, 0, [], [])
  }

  /** What a worker that holds the lock finds: a job, the end, or nothing yet. */
  datatype Turn = Job(fn: Job) | Leave | Wait

  function TurnOf(jobs: seq<Job>, shutdown: bool): Turn {
    if jobs != [] then Turn.Job(jobs[0]) else if shutdown then Leave else Wait
  }

  predicate Full(limit: nat, jobs: seq<Job>) {
    limit > 0 && |jobs| >= limit
  }

  // ---- The locked sections ------------------------------------------------------------------------

  class ThreadPool {
    const maxQueued: nat
    var jobs: seq<Job>
    var shutdown: bool

    constructor (mqr: nat)
      ensures maxQueued == mqr && jobs == [] && !shutdown
    {
      maxQueued, jobs, shutdown := mqr, [], false;
    }

    /** The locked part of enqueue; a caller that gets true goes on to notify one worker. */
    method Enqueue(fn: Job) returns (ok: bool)
      modifies `jobs
      ensures ok <==> !Full(maxQueued, old(jobs))
      ensures jobs == if ok then old(jobs) + [fn] else old(jobs)
    {
      if maxQueued > 0 && |jobs| >= maxQueued {
        return false;
      }
      jobs := jobs + [fn];
      return true;
    }

    /** The locked part of shutdown. */
    method Shutdown()
      modifies `shutdown
      ensures shutdown
    {
      shutdown := true;
    }

    /** One locked pass of a worker: the wait condition, then the exit test, then the front of the queue. */
    method Pass() returns (t: Turn)
      modifies `jobs
      ensures t == TurnOf(old(jobs), shutdown)
      ensures jobs == if t.Job? then old(jobs)[1..] else old(jobs)
    {
      if !(jobs != [] || shutdown) {
        return Wait;
      }
      if shutdown && jobs == [] {
        return Leave;
      }
      t := Turn.Job(jobs[0]);
      jobs := jobs[1..];
    }
  }

  // ---- Steps --------------------------------------------------------------------------------------

  /** Enqueue and Shutdown are the locked sections of the callers; Notify and Broadcast follow them later; Check
      is a worker's locked pass, Finish the end of its job, Wake a wakeup without a notification. */
  datatype Event = Enqueue | Shutdown | Notify(woken: nat) | Broadcast | Check(w: nat) | Finish(w: nat) | Wake(w: nat)

  predicate IsAsleep(s: Pool, w: nat) {
    w < |s.workers| && s.workers[w].Asleep?
  }

  ghost predicate AnyAsleep(s: Pool) {
    exists w: nat :: IsAsleep(s, w)
  }

  ghost predicate AllExited(s: Pool) {
    forall w: nat :: w < |s.workers| ==> s.workers[w].Exited?
  }

  /** A notification wakes one sleeper if there is any. */
  ghost predicate Enabled(s: Pool, e: Event) {
    match e
    case Enqueue => true
    case Shutdown => true
    case Notify(w) => s.notifies > 0 && (AnyAsleep(s) ==> IsAsleep(s, w))
    case Broadcast => s.broadcasts > 0
    case Check(w) => w < |s.workers| && s.workers[w].Ready?
    case Finish(w) => w < |s.workers| && s.workers[w].Running?
    case Wake(w) => IsAsleep(s, w)
  }

  function Moved(s: Pool, w: nat, p: Phase): Pool
    requires w < |s.workers|
  {
    s.(workers := s.workers[w := p])
  }

  /** All sleepers made ready. */
  function Woken(ws: seq<Phase>): (r: seq<Phase>)
    ensures |r| == |ws| && forall i :: 0 <= i < |ws| ==> r[i] == if ws[i].Asleep? then Ready else ws[i]
  {
    if ws == [] then [] else [if ws[0].Asleep? then Ready else ws[0]] + Woken(ws[1..])
  }

  ghost function Next(s: Pool, e: Event): Pool
    requires Enabled(s, e)
  {
    match e
    case Enqueue =>
      if Full(s.limit, s.jobs) then s
      else s.(jobs := s.jobs + [s.accepted], accepted := s.accepted + 1, notifies := s.notifies + 1)
    case Shutdown => s.(shutdown := true, broadcasts := s.broadcasts + 1)
    case Notify(w) => (if IsAsleep(s, w) then Moved(s, w, Ready) else s).(notifies := s.notifies - 1)
    case Broadcast => s.(workers := Woken(s.workers), broadcasts := s.broadcasts - 1)
    case Check(w) =>
      (match TurnOf(s.jobs, s.shutdown)
       case Job(fn) => Moved(s, w, Running(fn)).(jobs := s.jobs[1..], taken := s.taken + [fn])
       case Leave => Moved(s, w, Exited)
       case Wait => Moved(s, w, Asleep))
    case Finish(w) => Moved(s, w, Ready).(ran := s.ran + [s.workers[w].job])
    case Wake(w) => Moved(s, w, Ready)
  }

  ghost predicate Path(s: Pool, es: seq<Event>, t: Pool)
    decreases es
  {
    if es == [] then s == t else Enabled(s, es[0]) && Path(Next(s, es[0]), es[1..], t)
  }

  // ---- Sums over the workers -----------------------------------------------------------------------

  function Total(ws: seq<Phase>, f: Phase -> nat): nat {
    if ws == [] then 0 else f(ws[0]) + Total(ws[1..], f)
  }

  lemma {:induction false} TotalMoved(ws: seq<Phase>, f: Phase -> nat, w: nat, p: Phase)
    requires w < |ws|
    ensures Total(ws[w := p], f) + f(ws[w]) == Total(ws, f) + f(p)
  {
    if w == 0 {
      assert ws[0 := p][1..] == ws[1..];
    } else {
      assert ws[w := p][1..] == ws[1..][w - 1 := p];
      TotalMoved(ws[1..], f, w - 1, p);
    }
  }

  lemma {:induction false} TotalAtLeast(ws: seq<Phase>, f: Phase -> nat, w: nat)
    requires w < |ws|
    ensures f(ws[w]) <= Total(ws, f)
  {
    if w > 0 { TotalAtLeast(ws[1..], f, w - 1); }
  }

  lemma {:induction false} TotalZero(ws: seq<Phase>, f: Phase -> nat)
    requires forall i :: 0 <= i < |ws| ==> f(ws[i]) == 0
    ensures Total(ws, f) == 0
  {
    if ws != [] {
      assert f(ws[0]) == 0;
      forall i | 0 <= i < |ws[1..]| ensures f(ws[1..][i]) == 0 { assert ws[1..][i] == ws[i + 1]; }
      TotalZero(ws[1..], f);
    }
  }

  lemma {:induction false} TotalWoken(ws: seq<Phase>, f: Phase -> nat, more: nat)
    requires f(Asleep) <= f(Ready) <= f(Asleep) + more
    ensures Total(ws, f) <= Total(Woken(ws), f) <= Total(ws, f) + more * |ws|
  {
    if ws != [] {
      TotalWoken(ws[1..], f, more);
      assert more * |ws| == more + more * |ws[1..]|;
      assert Woken(ws)[1..] == Woken(ws[1..]);
    }
  }

  const IsReady: Phase -> nat := (p: Phase) => if p.Ready? then 1 else 0

  function Runs(j: Job): Phase -> nat {
    (p: Phase) => if p == Running(j) then 1 else 0
  }

  // ---- What every step keeps ------------------------------------------------------------------------

  function Tickets(n: nat): (r: seq<Job>)
    ensures |r| == n && forall i :: 0 <= i < n ==> r[i] == i
  {
    if n == 0 then [] else Tickets(n - 1) + [n - 1]
  }

  /** Jobs are taken in the order in which they were accepted. */
  predicate Fifo(s: Pool) {
    s.taken + s.jobs == Tickets(s.accepted)
  }

  /** A job that was taken is running or has run. */
  ghost predicate Placed(s: Pool) {
    forall j: Job :: Total(s.workers, Runs(j)) + multiset(s.ran)[j] == multiset(s.taken)[j]
  }

  predicate Bounded(s: Pool) {
    s.limit > 0 ==> |s.jobs| <= s.limit
  }

  /** While a worker sleeps, every queued job has a ready worker or a notification on its way; after shutdown a
      sleeper still has a broadcast coming. */
  ghost predicate NoLostWakeup(s: Pool) {
    AnyAsleep(s) ==>
      && |s.jobs| <= s.notifies + Total(s.workers, IsReady)
      && (s.shutdown ==> s.broadcasts > 0)
  }

  predicate ExitsAfterShutdown(s: Pool) {
    forall w :: 0 <= w < |s.workers| && s.workers[w].Exited? ==> s.shutdown
  }

  ghost predicate Inv(s: Pool) {
    Fifo(s) && Placed(s) && Bounded(s) && NoLostWakeup(s) && ExitsAfterShutdown(s)
  }

  lemma StartKeeps(n: nat, limit: nat)
    ensures Inv(Start(n, limit))
  {
    var s := Start(n, limit);
    forall j: Job ensures Total(s.workers, Runs(j)) == 0 {
      TotalZero(s.workers, Runs(j));
    }
  }

  lemma KeepsFifo(s: Pool, e: Event)
    requires Fifo(s) && Enabled(s, e)
    ensures Fifo(Next(s, e))
  {
    if e.Check? && s.jobs != [] {
      assert s.taken + [s.jobs[0]] + s.jobs[1..] == s.taken + s.jobs;
    }
    if e.Enqueue? && !Full(s.limit, s.jobs) {
      assert s.taken + (s.jobs + [s.accepted]) == s.taken + s.jobs + [s.accepted];
    }
  }

  /** The worker that a step moves, if it moves one. */
  function Mover(e: Event): nat {
    match e
    case Notify(w) => w
    case Check(w) => w
    case Finish(w) => w
    case Wake(w) => w
    case _ => 0
  }

  lemma PlacedCheck(s: Pool, w: nat, j: Job)
    requires Enabled(s, Check(w)) && Total(s.workers, Runs(j)) + multiset(s.ran)[j] == multiset(s.taken)[j]
    ensures var t := Next(s, Check(w)); Total(t.workers, Runs(j)) + multiset(t.ran)[j] == multiset(t.taken)[j]
  {
    var t := Next(s, Check(w));
    TotalMoved(s.workers, Runs(j), w, t.workers[w]);
  }

  lemma PlacedFinish(s: Pool, w: nat, j: Job)
    requires Enabled(s, Finish(w)) && Total(s.workers, Runs(j)) + multiset(s.ran)[j] == multiset(s.taken)[j]
    ensures var t := Next(s, Finish(w)); Total(t.workers, Runs(j)) + multiset(t.ran)[j] == multiset(t.taken)[j]
  {
    TotalMoved(s.workers, Runs(j), w, Ready);
  }

  lemma PlacedOther(s: Pool, e: Event, j: Job)
    requires Enabled(s, e) && !e.Check? && !e.Finish?
    ensures var t := Next(s, e); Total(t.workers, Runs(j)) == Total(s.workers, Runs(j)) && t.ran == s.ran && t.taken == s.taken
  {
    if e.Broadcast? {
      TotalWoken(s.workers, Runs(j), 0);
    } else if IsAsleep(s, Mover(e)) {
      TotalMoved(s.workers, Runs(j), Mover(e), Ready);
    }
  }

  lemma KeepsPlaced(s: Pool, e: Event)
    requires Placed(s) && Enabled(s, e)
    ensures Placed(Next(s, e))
  {
    var t := Next(s, e);
    forall j: Job ensures Total(t.workers, Runs(j)) + multiset(t.ran)[j] == multiset(t.taken)[j] {
      assert Total(s.workers, Runs(j)) + multiset(s.ran)[j] == multiset(s.taken)[j];
      match e
      case Check(w) => PlacedCheck(s, w, j);
      case Finish(w) => PlacedFinish(s, w, j);
      case _ => PlacedOther(s, e, j);
    }
  }

  lemma KeepsNoLostWakeup(s: Pool, e: Event)
    requires NoLostWakeup(s) && Enabled(s, e)
    ensures NoLostWakeup(Next(s, e))
  {
    var t := Next(s, e);
    if AnyAsleep(t) && !FallsAsleep(s, e) {
      StillAsleep(s, e);
      if t.workers != s.workers {
        TotalMoved(s.workers, IsReady, Mover(e), t.workers[Mover(e)]);
      }
    }
  }

  predicate FallsAsleep(s: Pool, e: Event) {
    e.Check? && TurnOf(s.jobs, s.shutdown).Wait?
  }

  lemma StillAsleep(s: Pool, e: Event)
    requires Enabled(s, e) && AnyAsleep(Next(s, e)) && !FallsAsleep(s, e)
    ensures AnyAsleep(s) && !e.Broadcast?
  {
    var w: nat :| IsAsleep(Next(s, e), w);
    assert IsAsleep(s, w);
  }

  /** Everything above is kept by every step. */
  lemma StepKeeps(s: Pool, e: Event)
    requires Inv(s) && Enabled(s, e)
    ensures Inv(Next(s, e))
  {
    KeepsFifo(s, e);
    KeepsPlaced(s, e);
    KeepsBounded(s, e);
    KeepsNoLostWakeup(s, e);
    KeepsExits(s, e);
  }

  lemma KeepsBounded(s: Pool, e: Event)
    requires Bounded(s) && Enabled(s, e)
    ensures Bounded(Next(s, e))
  {
  }

  lemma KeepsExits(s: Pool, e: Event)
    requires ExitsAfterShutdown(s) && Enabled(s, e)
    ensures ExitsAfterShutdown(Next(s, e))
  {
  }

  lemma KeepsSize(s: Pool, e: Event)
    requires Enabled(s, e)
    ensures Next(s, e).limit == s.limit && |Next(s, e).workers| == |s.workers|
  {
  }

  lemma {:induction false} PathKeeps(s: Pool, es: seq<Event>, t: Pool)
    requires Inv(s) && Path(s, es, t)
    ensures Inv(t) && t.limit == s.limit && |t.workers| == |s.workers|
    decreases es
  {
    if es != [] {
      StepKeeps(s, es[0]);
      KeepsSize(s, es[0]);
      PathKeeps(Next(s, es[0]), es[1..], t);
    }
  }

  ghost predicate Reachable(n: nat, limit: nat, es: seq<Event>, t: Pool) {
    Path(Start(n, limit), es, t)
  }

  // ---- Where a job is -------------------------------------------------------------------------------

  lemma OneMore(s: seq<Job>, x: Job, j: Job)
    ensures multiset(s + [x])[j] == multiset(s)[j] + if j == x then 1 else 0
  {
  }

  lemma {:induction false} TicketOnce(n: nat, j: Job)
    ensures multiset(Tickets(n))[j] == if j < n then 1 else 0
  {
    if n > 0 {
      TicketOnce(n - 1, j);
      OneMore(Tickets(n - 1), n - 1, j);
    }
  }

  /** In every reachable state an accepted job is queued, running or done, in one place only, and nothing else is;
      jobs were taken in order; and the queue respects a positive limit. */
  lemma JobIsInOnePlace(n: nat, limit: nat, es: seq<Event>, t: Pool, j: Job)
    requires Reachable(n, limit, es, t)
    ensures multiset(t.jobs)[j] + Total(t.workers, Runs(j)) + multiset(t.ran)[j] == if j < t.accepted then 1 else 0
    ensures t.taken + t.jobs == Tickets(t.accepted)
    ensures limit > 0 ==> |t.jobs| <= limit
  {
    StartKeeps(n, limit);
    PathKeeps(Start(n, limit), es, t);
    assert Total(t.workers, Runs(j)) + multiset(t.ran)[j] == multiset(t.taken)[j];
    assert multiset(t.taken + t.jobs)[j] == multiset(t.taken)[j] + multiset(t.jobs)[j];
    TicketOnce(t.accepted, j);
  }

  /** How many jobs are offered along the run. */
  function Offers(es: seq<Event>): nat {
    if es == [] then 0 else (if es[0].Enqueue? then 1 else 0) + Offers(es[1..])
  }

  /** How many of them find as many jobs waiting as a positive limit allows. */
  ghost function Crowded(s: Pool, es: seq<Event>, t: Pool): nat
    requires Path(s, es, t)
    decreases es
  {
    if es == [] then 0
    else (if es[0].Enqueue? && 0 < s.limit <= |s.jobs| then 1 else 0) + Crowded(Next(s, es[0]), es[1..], t)
  }

  /** On every run exactly those are turned away; without a limit every job is accepted, also after shutdown. */
  lemma {:induction false} AcceptedUnlessFull(s: Pool, es: seq<Event>, t: Pool)
    requires Path(s, es, t)
    ensures t.accepted + Crowded(s, es, t) == s.accepted + Offers(es)
    ensures s.limit == 0 ==> t.accepted == s.accepted + Offers(es)
    decreases es
  {
    if es != [] {
      AcceptedUnlessFull(Next(s, es[0]), es[1..], t);
    }
  }

  // ---- After the workers have left --------------------------------------------------------------------

  /** How many jobs are accepted along the run once no worker is left. */
  ghost function Late(s: Pool, es: seq<Event>, t: Pool): nat
    requires Path(s, es, t)
    decreases es
  {
    if es == [] then 0
    else (if es[0].Enqueue? && AllExited(s) && !Full(s.limit, s.jobs) then 1 else 0) + Late(Next(s, es[0]), es[1..], t)
  }

  lemma LeavingIsDone(s: Pool, e: Event)
    requires Enabled(s, e) && !AllExited(s) && AllExited(Next(s, e))
    ensures Next(s, e).jobs == []
  {
    if !e.Check? || s.jobs != [] {
      SomeoneStays(s, e);
    }
  }

  lemma SomeoneStays(s: Pool, e: Event)
    requires Enabled(s, e) && !AllExited(s) && (e.Check? ==> s.jobs != [])
    ensures !AllExited(Next(s, e))
  {
    var w: nat :| w < |s.workers| && !s.workers[w].Exited?;
    assert !Next(s, e).workers[w].Exited?;
  }

  lemma ExitedStays(s: Pool, e: Event)
    requires Enabled(s, e) && AllExited(s)
    ensures AllExited(Next(s, e)) && Next(s, e).ran == s.ran && Next(s, e).taken == s.taken
    ensures Next(s, e).jobs == if e.Enqueue? && !Full(s.limit, s.jobs) then s.jobs + [s.accepted] else s.jobs
  {
  }

  lemma {:induction false} LeftOver(s: Pool, es: seq<Event>, t: Pool)
    requires Path(s, es, t) && AllExited(t)
    ensures |t.jobs| == Late(s, es, t) + if AllExited(s) then |s.jobs| else 0
    decreases es
  {
    if es != [] {
      LeftOver(Next(s, es[0]), es[1..], t);
      if AllExited(s) {
        ExitedStays(s, es[0]);
      } else if AllExited(Next(s, es[0])) {
        LeavingIsDone(s, es[0]);
      }
    }
  }

  /** Every accepted job has run, once, and nothing else has. */
  ghost predicate AllRan(t: Pool) {
    forall j: Job :: multiset(t.ran)[j] == if j < t.accepted then 1 else 0
  }

  lemma NothingRuns(t: Pool, j: Job)
    requires forall w :: 0 <= w < |t.workers| ==> !t.workers[w].Running?
    ensures Total(t.workers, Runs(j)) == 0
  {
    TotalZero(t.workers, Runs(j));
  }

  /** With no worker running, everything has run exactly if the queue is empty. */
  lemma AllRanIffEmpty(t: Pool)
    requires Inv(t) && forall w :: 0 <= w < |t.workers| ==> !t.workers[w].Running?
    ensures AllRan(t) <==> t.jobs == []
  {
    forall j: Job ensures multiset(t.ran)[j] + multiset(t.jobs)[j] == if j < t.accepted then 1 else 0 {
      NothingRuns(t, j);
      TicketOnce(t.accepted, j);
      assert multiset(t.taken + t.jobs)[j] == multiset(t.taken)[j] + multiset(t.jobs)[j];
    }
    if t.jobs != [] {
      assert multiset(t.jobs)[t.jobs[0]] > 0;
    }
  }

  /** Once every worker has exited, every accepted job has run exactly once if and only if none was accepted after
      the last worker had left. */
  lemma AllRanIffNoneLate(n: nat, limit: nat, es: seq<Event>, t: Pool)
    requires Reachable(n, limit, es, t) && AllExited(t)
    ensures AllRan(t) <==> (if n == 0 then t.accepted == 0 else Late(Start(n, limit), es, t) == 0)
  {
    var s := Start(n, limit);
    StartKeeps(n, limit);
    PathKeeps(s, es, t);
    AllRanIffEmpty(t);
    LeftOver(s, es, t);
    if n == 0 {
      NoWorkerNoRun(s, es, t);
    } else {
      assert !s.workers[0].Exited?;
    }
  }

  lemma {:induction false} NoWorkerNoRun(s: Pool, es: seq<Event>, t: Pool)
    requires Path(s, es, t) && AllExited(s)
    ensures t.ran == s.ran && t.taken == s.taken && s.jobs <= t.jobs && AllExited(t)
    decreases es
  {
    if es != [] {
      ExitedStays(s, es[0]);
      NoWorkerNoRun(Next(s, es[0]), es[1..], t);
    }
  }

  ghost predicate NoEnqueueAfterShutdown(s: Pool, es: seq<Event>, t: Pool)
    requires Path(s, es, t)
    decreases es
  {
    es != [] ==> (s.shutdown ==> !es[0].Enqueue?) && NoEnqueueAfterShutdown(Next(s, es[0]), es[1..], t)
  }

  lemma {:induction false} NoneLate(s: Pool, es: seq<Event>, t: Pool)
    requires Inv(s) && |s.workers| > 0 && Path(s, es, t) && NoEnqueueAfterShutdown(s, es, t)
    ensures Late(s, es, t) == 0
    decreases es
  {
    if es != [] {
      StepKeeps(s, es[0]);
      NoneLate(Next(s, es[0]), es[1..], t);
      assert AllExited(s) ==> s.workers[0].Exited?;
    }
  }

  /** With at least one worker and no enqueue after shutdown, whatever the interleaving: when shutdown has joined
      every worker, every accepted job has run exactly once. */
  lemma ShutdownDrains(n: nat, limit: nat, es: seq<Event>, t: Pool)
    requires n > 0 && Reachable(n, limit, es, t) && AllExited(t)
    requires NoEnqueueAfterShutdown(Start(n, limit), es, t)
    ensures AllRan(t)
  {
    StartKeeps(n, limit);
    NoneLate(Start(n, limit), es, t);
    AllRanIffNoneLate(n, limit, es, t);
  }

  /** A job that is accepted after the last worker has left is never run. */
  lemma LateJobNeverRuns(es: seq<Event>, t: Pool)
    requires Reachable(1, 0, [Shutdown, Check(0), Enqueue] + es, t)
    ensures t.accepted >= 1 && !AllRan(t) && t.ran == []
  {
    var s := Start(1, 0);
    var all := [Shutdown, Check(0), Enqueue] + es;
    var s1 := PathStep(s, all, t);
    var s2 := PathStep(s1, all[1..], t);
    assert all[1..][1..] == [Enqueue] + es;
    var s3 := PathStep(s2, all[1..][1..], t);
    assert all[1..][1..][1..] == es;
    NoWorkerNoRun(s3, es, t);
    AcceptedGrows(s3, es, t);
    assert multiset(t.ran)[0] == 0;
  }

  lemma PathStep(s: Pool, es: seq<Event>, t: Pool) returns (u: Pool)
    requires Path(s, es, t) && es != []
    ensures Enabled(s, es[0]) && u == Next(s, es[0]) && Path(u, es[1..], t)
  {
    u := Next(s, es[0]);
  }

  lemma {:induction false} AcceptedGrows(s: Pool, es: seq<Event>, t: Pool)
    requires Path(s, es, t)
    ensures s.accepted <= t.accepted
    decreases es
  {
    if es != [] { AcceptedGrows(Next(s, es[0]), es[1..], t); }
  }

  // ---- Progress ---------------------------------------------------------------------------------------

  /** The steps that the pool takes by itself. */
  predicate Internal(e: Event) {
    e.Notify? || e.Broadcast? || e.Check? || e.Finish?
  }

  const Effort: Phase -> nat :=
    (p: Phase) => match p case Exited => 0 case Asleep => 1 case Ready => 2 case Running(_) => 3

  function Rank(s: Pool): nat {
    2 * |s.jobs| + 2 * s.notifies + s.broadcasts * (|s.workers| + 1) + Total(s.workers, Effort)
  }

  lemma OneLess(b: nat, k: nat)
    requires b > 0
    ensures b * k == (b - 1) * k + k
  {
  }

  lemma InternalDecreases(s: Pool, e: Event)
    requires Enabled(s, e) && Internal(e)
    ensures Rank(Next(s, e)) < Rank(s)
  {
    var t := Next(s, e);
    if e.Broadcast? {
      OneLess(s.broadcasts, |s.workers| + 1);
      TotalWoken(s.workers, Effort, 1);
    } else if t.workers != s.workers {
      var w := Mover(e);
      TotalMoved(s.workers, Effort, w, t.workers[w]);
    }
  }

  /** Left to itself the pool comes to rest: it cannot take more steps than its rank. */
  lemma {:induction false} ComesToRest(s: Pool, es: seq<Event>, t: Pool)
    requires Path(s, es, t) && forall i :: 0 <= i < |es| ==> Internal(es[i])
    ensures |es| <= Rank(s)
    decreases es
  {
    if es != [] {
      InternalDecreases(s, es[0]);
      ComesToRest(Next(s, es[0]), es[1..], t);
    }
  }

  ghost predicate AtRest(s: Pool) {
    forall e: Event :: Internal(e) ==> !Enabled(s, e)
  }

  lemma RestingWorker(s: Pool, w: nat)
    requires AtRest(s) && w < |s.workers|
    ensures s.workers[w].Asleep? || s.workers[w].Exited?
  {
    assert !Enabled(s, Check(w)) && !Enabled(s, Finish(w));
  }

  lemma NothingPending(s: Pool)
    requires AtRest(s)
    ensures s.notifies == 0 && s.broadcasts == 0
  {
    assert !Enabled(s, Broadcast);
    var w: nat := if AnyAsleep(s) then var w: nat :| IsAsleep(s, w); w else 0;
    assert !Enabled(s, Notify(w));
  }

  /** No job and no shutdown is ever missed: when a pool with a worker is at rest, all its workers sleep and
      everything accepted has run, or shutdown was called and all its workers have exited. */
  lemma NoDeadlock(n: nat, limit: nat, es: seq<Event>, t: Pool)
    requires n > 0 && Reachable(n, limit, es, t) && AtRest(t)
    ensures if t.shutdown then AllExited(t)
            else AllRan(t) && t.jobs == [] && |t.workers| == n && forall w :: 0 <= w < n ==> t.workers[w].Asleep?
  {
    StartKeeps(n, limit);
    PathKeeps(Start(n, limit), es, t);
    NothingPending(t);
    forall w | 0 <= w < |t.workers| ensures t.workers[w].Asleep? || t.workers[w].Exited? { RestingWorker(t, w); }
    if t.shutdown {
      forall w: nat | w < |t.workers| ensures t.workers[w].Exited? {
        if IsAsleep(t, w) { assert AnyAsleep(t); }
      }
    } else {
      assert IsAsleep(t, 0);
      TotalZero(t.workers, IsReady);
      AllRanIffEmpty(t);
    }
  }
}
