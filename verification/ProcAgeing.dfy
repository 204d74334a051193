/** What makes the scheduler raise a priority: not waiting, but being dispatched. */
module ProcAgeing {
  import opened ProcSpec
  import opened ProcMachine
  import opened ProcRuns
  import ProcTimes

  // ---------------------------------------------------------------- what queueTime counts

  /** The pass that follows event e raises the priority of process i. */
  predicate Promotes(s: Sys, e: Event, i: int)
    requires Enabled(s, e)
  {
    Leaves(e) && 0 <= i < |s.t| && |Do(s, e).t| == |s.t| && Do(s, e).t[i].priority > s.t[i].priority
  }

  /** The dispatches of slot i since it was allocated or last promoted, when there were k before e. */
  function Count(s: Sys, e: Event, i: int, k: nat): nat
    requires Enabled(s, e)
  {
    if e.ForkAlloc? && FirstUnused(s.t, 0) == i then 0
    else if e.Dispatch? && Pick(s.t, s.cursor) == i then k + 1
    else if Promotes(s, e, i) then 0
    else k
  }

  /** The same over a run that begins with k of them. */
  ghost function Served(s: Sys, es: seq<Event>, i: int, k: nat): nat
    requires Possible(s, es)
    decreases |es|
  {
    if es == [] then k else Served(Do(s, es[0]), es[1..], i, Count(s, es[0], i, k))
  }

  ghost predicate Counted(s: Sys, i: int, k: nat) { 0 <= i < |s.t| && (s.t[i].state != UNUSED ==> s.t[i].queueTime == k) }

  lemma AgeCounts(p: Proc, ran: int)
    requires 1 <= p.priority <= 3
    ensures var q := AgeOne(p, ran);
      && (q.priority > p.priority <==> !BelowThreshold(p)) && q.priority <= p.priority + 1
      && q.queueTime == (if q.priority > p.priority then 0 else p.queueTime)
  {
  }

  /** Leaving the CPU changes neither priorities nor queue times. */
  lemma LeaveKeeps(s: Sys, e: Event, i: int)
    requires Inv(s) && Enabled(s, e) && Leaves(e) && 0 <= i < |s.t|
    ensures Runs(s, e.c) && |Core(s, e).t| == |s.t| && SameAge(s.t[i], Core(s, e).t[i])
  {
    hide HasKids, FirstZombie, Running, Pids, Tree, Makers, Waiters, Times, Priorities, Settled, Reaping;
    OnCpu(s, e);
  }

  ghost predicate SameAge(p: Proc, q: Proc) {
    q.priority == p.priority && q.queueTime == p.queueTime && (q.state == UNUSED <==> p.state == UNUSED)
  }

  lemma LeaveCounts(s: Sys, e: Event, i: int, k: nat)
    requires Inv(s) && Enabled(s, e) && Leaves(e) && Counted(s, i, k)
    ensures Counted(Do(s, e), i, Count(s, e, i, k))
  {
    LeaveKeeps(s, e, i);
    hide Core, Enabled, Shape, Tree, Pids, Running, Makers, Waiters, Times, Settled, Reaping;
    if s.t[i].state != UNUSED { AgeCounts(Core(s, e).t[i], s.t[s.cpus[e.c]].pid); }
  }

  lemma CountStep(s: Sys, e: Event, i: int, k: nat)
    requires Inv(s) && Enabled(s, e) && Counted(s, i, k)
    ensures Counted(Do(s, e), i, Count(s, e, i, k))
  {
    hide Tree, Pids, Running, Waiters, Times, Priorities, Settled, Reaping, FirstZombie, FirstUnused, FirstPid, FirstRunnable, Better, HasKids;
    if Leaves(e) { LeaveCounts(s, e, i, k); }
  }

  lemma {:induction false} CountRun(s: Sys, es: seq<Event>, i: int, k: nat)
    requires Inv(s) && Possible(s, es) && Counted(s, i, k)
    ensures Counted(After(s, es), i, Served(s, es, i, k))
    decreases |es|
  {
    hide Inv, Enabled, Do, Counted, Count;
    if es != [] {
      Step(s, es[0]);
      CountStep(s, es[0], i, k);
      CountRun(Do(s, es[0]), es[1..], i, Count(s, es[0], i, k));
    }
  }

  /** In every run from boot the queue time of a process is the number of its dispatches since it was
      allocated or last promoted. */
  lemma CountsDispatches(nproc: nat, ncpu: nat, es: seq<Event>, i: int)
    requires nproc > 0 && Possible(Boot(nproc, ncpu), es) && 0 <= i < nproc
    ensures var s := After(Boot(nproc, ncpu), es);
      i < |s.t| && (s.t[i].state != UNUSED ==> s.t[i].queueTime == Served(Boot(nproc, ncpu), es, i, 0))
  {
    hide Inv, Possible, After, Served;
    BootInv(nproc, ncpu);
    CountRun(Boot(nproc, ncpu), es, i, 0);
  }

  /** And a pass raises the priority of a process, by one, exactly if that number has reached the
      threshold of its priority. */
  lemma PromotedIff(nproc: nat, ncpu: nat, es: seq<Event>, e: Event, i: int)
    requires nproc > 0 && Possible(Boot(nproc, ncpu), es) && Enabled(After(Boot(nproc, ncpu), es), e) && Leaves(e)
    requires 0 <= i < |After(Boot(nproc, ncpu), es).t| && After(Boot(nproc, ncpu), es).t[i].state != UNUSED
    ensures var s := After(Boot(nproc, ncpu), es); var n := Served(Boot(nproc, ncpu), es, i, 0); var p := s.t[i].priority;
      && (Promotes(s, e, i) <==> (p == 2 && n >= P2TO3) || (p == 1 && n >= P1TO2))
      && |Do(s, e).t| == |s.t| && Do(s, e).t[i].priority == (if Promotes(s, e, i) then p + 1 else p)
  {
    hide Tree, Pids, Running, Makers, Waiters, Times, Settled, Reaping, Possible, After, Served, Core, Enabled, BelowThreshold;
    var b := Boot(nproc, ncpu);
    var s := After(b, es);
    BootInv(nproc, ncpu);
    RunInv(b, es);
    ProcTimes.SameSize(b, es);
    CountsDispatches(nproc, ncpu, es, i);
    LeaveKeeps(s, e, i);
    AgeCounts(Core(s, e).t[i], s.t[s.cpus[e.c]].pid);
    Thresholds(s.t[i], Core(s, e).t[i]);
  }

  lemma Thresholds(p: Proc, q: Proc)
    requires q.priority == p.priority && q.queueTime == p.queueTime
    ensures BelowThreshold(q) <==> !((p.priority == 2 && p.queueTime >= P2TO3) || (p.priority == 1 && p.queueTime >= P1TO2))
  {
  }

  // ---------------------------------------------------------------- waiting without end

  /** init at priority 3 after n more turns on the CPU, with its child waiting. */
  function Turns(n: nat): Sys {
    Sys([Proc(RUNNING, 1, -1, NoChan, false, 3, n, 0, 0, n + 1, INTERV, n + 1), Proc(RUNNABLE, 2, 0, NoChan, false, 2, n, 0, n, 0, 0, 0)],
        [0], -1, if n == 0 then 0 else 1, 3, 0, map[], [0, 0], n, [], [])
  }

  /** init yields and is dispatched again. */
  lemma OneTurn(n: nat)
    ensures Enabled(Turns(n), Yield(0)) && Enabled(Do(Turns(n), Yield(0)), Dispatch(0))
    ensures Do(Do(Turns(n), Yield(0)), Dispatch(0)) == Turns(n + 1)
  {
    var s := Do(Turns(n), Yield(0));
    assert s.t == [Turns(n).t[0].(state := RUNNABLE, ctime := n + 1), Turns(n + 1).t[1]] && s.cpus == [-1];
    assert FirstRunnable(s.t, 1) == 1 && Better(s.t, 1, 0) == Better(s.t, 0, 1) == 0;
    var t := Do(s, Dispatch(0));
    assert t.t == Turns(n + 1).t && t.cpus == [0];
  }

  /** For every n a run from boot in which a process of priority 2 is ready and passed over n times,
      and has neither a higher priority nor any queue time: init forks, takes priority 3, and then
      yields n times. */
  lemma {:induction false} WaitsForever(n: nat) returns (es: seq<Event>)
    ensures Possible(Boot(2, 1), es) && After(Boot(2, 1), es) == Turns(n)
    ensures var p := Turns(n).t[1]; p.state == RUNNABLE && p.priority == 2 && p.queueTime == 0 && p.retime == n
  {
    hide Boot, Enabled, Do;
    if n == 0 {
      es := Raised();
    } else {
      var a := WaitsForever(n - 1);
      OneTurn(n - 1);
      OneMore(Boot(2, 1), a, Yield(0));
      OneMore(Boot(2, 1), a + [Yield(0)], Dispatch(0));
      es := a + [Yield(0)] + [Dispatch(0)];
    }
  }

  lemma InitRaises()
    ensures Enabled(Pair(), ChangePrio(0, 3)) && Do(Pair(), ChangePrio(0, 3)) == Turns(0)
  {
    var t := Do(Pair(), ChangePrio(0, 3)).t;
    assert t == Turns(0).t;
  }

  lemma Raised() returns (es: seq<Event>)
    ensures Possible(Boot(2, 1), es) && After(Boot(2, 1), es) == Turns(0)
  {
    hide Boot, Enabled, Do, Pair, Turns;
    var a := ForkRun();
    InitRaises();
    OneMore(Boot(2, 1), a, ChangePrio(0, 3));
    es := a + [ChangePrio(0, 3)];
  }
}
