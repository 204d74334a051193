/** What the times of a process count: rutime its dispatches, stime and retime the dispatches of others
    that ended while it was asleep and while it was not. */
module ProcTimes {
  import opened ProcSpec
  import opened ProcMachine
  import opened ProcRuns

  datatype Tally = Tally(ran: nat, slept: nat, waited: nat)

  /** The tally of slot i after event e; allocation begins a new one.  Which process leaves a CPU is told
      by the CPU, and whether slot i sleeps by its state when the pass is made. */
  function Tell(s: Sys, e: Event, i: int, k: Tally): Tally
    requires Enabled(s, e) && 0 <= i < |s.t| == |Do(s, e).t|
  {
    if e.ForkAlloc? && s.t[i].state == UNUSED && Do(s, e).t[i].state == EMBRYO then Tally(0, 0, 0)
    else if e.Dispatch? && s.t[i].state == RUNNABLE && Do(s, e).t[i].state == RUNNING then k.(ran := k.ran + 1)
    else if Leaves(e) && s.cpus[e.c] != i then
      if Do(s, e).t[i].state == SLEEPING then k.(slept := k.slept + 1) else k.(waited := k.waited + 1)
    else k
  }

  /** The tally of slot i over a run that begins with k. */
  ghost function Told(s: Sys, es: seq<Event>, i: int, k: Tally): Tally
    requires Possible(s, es) && 0 <= i < |s.t|
    decreases |es|
  {
    if es == [] then k else
      SizeStep(s, es[0]);
      Told(Do(s, es[0]), es[1..], i, Tell(s, es[0], i, k))
  }

  lemma SizeStep(s: Sys, e: Event)
    requires Enabled(s, e)
    ensures |Do(s, e).t| == |s.t|
  {
    hide FirstZombie, FirstUnused, FirstPid, Pick, HasKids;
  }

  /** The times of slot i, if it is in use, are those of the tally. */
  ghost predicate Tallied(s: Sys, i: int, k: Tally) {
    0 <= i < |s.t| && (s.t[i].state != UNUSED ==> s.t[i].rutime == k.ran && s.t[i].stime == k.slept && s.t[i].retime == k.waited)
  }

  ghost predicate SameTimes(p: Proc, q: Proc) { q.rutime == p.rutime && q.stime == p.stime && q.retime == p.retime }

  /** Leaving a CPU changes no times and no slot in use or not, and only its own slot has the pid. */
  lemma LeaveTimesSame(s: Sys, e: Event, i: int)
    requires Inv(s) && Enabled(s, e) && Leaves(e) && 0 <= i < |s.t|
    ensures Runs(s, e.c) && |Core(s, e).t| == |s.t| && SameTimes(s.t[i], Core(s, e).t[i])
    ensures Core(s, e).t[i].state == UNUSED <==> s.t[i].state == UNUSED
    ensures Core(s, e).t[i].pid == s.t[i].pid && (s.t[i].state != UNUSED ==> (s.t[i].pid == s.t[s.cpus[e.c]].pid <==> i == s.cpus[e.c]))
  {
    hide HasKids, FirstZombie, Running, Tree, Makers, Waiters, Times, Priorities, Settled, Reaping;
    OnCpu(s, e);
  }

  /** The pass charges a process one unit: none if it ran, else to its sleep or its wait. */
  lemma AgeCharges(p: Proc, ran: int)
    ensures var q := AgeOne(p, ran);
      && q.state == p.state && q.rutime == p.rutime
      && q.stime == p.stime + (if p.pid != ran && p.state == SLEEPING then 1 else 0)
      && q.retime == p.retime + (if p.pid != ran && p.state != SLEEPING then 1 else 0)
  {
  }

  lemma LeaveTold(s: Sys, e: Event, i: int, k: Tally)
    requires Inv(s) && Enabled(s, e) && Leaves(e) && Tallied(s, i, k)
    ensures |Do(s, e).t| == |s.t| && Tallied(Do(s, e), i, Tell(s, e, i, k))
  {
    LeaveTimesSame(s, e, i);
    SizeStep(s, e);
    hide Core, Enabled, Shape, Tree, Pids, Running, Makers, Waiters, Times, Priorities, Settled, Reaping, AgeOne;
    AgeCharges(Core(s, e).t[i], s.t[s.cpus[e.c]].pid);
  }

  lemma DispatchTold(s: Sys, e: Event, i: int, k: Tally)
    requires Inv(s) && Enabled(s, e) && e.Dispatch? && Tallied(s, i, k)
    ensures |Do(s, e).t| == |s.t| && Tallied(Do(s, e), i, Tell(s, e, i, k))
  {
    hide Tree, Pids, Running, Makers, Waiters, Times, Priorities, Settled, Reaping, Pick;
    PickIsMaximal(s.t, s.cursor);
  }

  lemma TellStep(s: Sys, e: Event, i: int, k: Tally)
    requires Inv(s) && Enabled(s, e) && Tallied(s, i, k)
    ensures |Do(s, e).t| == |s.t| && Tallied(Do(s, e), i, Tell(s, e, i, k))
  {
    hide Tree, Pids, Running, Waiters, Times, Priorities, Settled, Reaping, FirstZombie, FirstUnused, FirstPid, Pick, HasKids;
    if Leaves(e) { LeaveTold(s, e, i, k); } else if e.Dispatch? { DispatchTold(s, e, i, k); }
  }

  lemma {:induction false} TellRun(s: Sys, es: seq<Event>, i: int, k: Tally)
    requires Inv(s) && Possible(s, es) && Tallied(s, i, k)
    ensures Tallied(After(s, es), i, Told(s, es, i, k))
    decreases |es|
  {
    hide Inv, Enabled, Do, Tell;
    if es != [] {
      Step(s, es[0]);
      TellStep(s, es[0], i, k);
      TellRun(Do(s, es[0]), es[1..], i, Tell(s, es[0], i, k));
    }
  }

  /** In every run from boot the three times of a process are its dispatches, and those of others that
      ended while it was asleep and while it was not, all since it was allocated. */
  lemma TimesCount(nproc: nat, ncpu: nat, es: seq<Event>, i: int)
    requires nproc > 0 && Possible(Boot(nproc, ncpu), es) && 0 <= i < nproc
    ensures var s := After(Boot(nproc, ncpu), es); var k := Told(Boot(nproc, ncpu), es, i, Tally(0, 0, 0));
      i < |s.t| && (s.t[i].state != UNUSED ==> s.t[i].rutime == k.ran && s.t[i].stime == k.slept && s.t[i].retime == k.waited)
  {
    hide Inv, Possible, After, Told;
    BootInv(nproc, ncpu);
    TellRun(Boot(nproc, ncpu), es, i, Tally(0, 0, 0));
  }

  /** So a caller of wait2 gets the counts of its zombie child, which add up to the dispatches completed
      since the child was allocated. */
  lemma WaitTimesCount(nproc: nat, ncpu: nat, es: seq<Event>, c: int, i: int)
    requires nproc > 0 && Possible(Boot(nproc, ncpu), es) && Enabled(After(Boot(nproc, ncpu), es), WaitReap(c, Wait2))
    requires var s := After(Boot(nproc, ncpu), es); i == FirstZombie(s.t, s.cpus[c], 0)
    ensures var s := After(Boot(nproc, ncpu), es);
      && 0 <= i < |s.t| && i < |s.born| && i < nproc && s.t[i].state == ZOMBIE && s.t[i].parent == s.cpus[c]
      && var k := Told(Boot(nproc, ncpu), es, i, Tally(0, 0, 0));
      && s.t[i].rutime == k.ran && s.t[i].stime == k.slept && s.t[i].retime == k.waited
      && k.ran + k.slept + k.waited == s.completed - s.born[i]
  {
    hide Possible, After, Told, Inv, FirstZombie;
    var b := Boot(nproc, ncpu);
    var s := After(b, es);
    SameSize(b, es);
    TimesCount(nproc, ncpu, es, i);
    assert Reachable(s);
    hide Reachable;
    WaitTimesAddUp(s, c);
  }

  lemma {:induction false} SameSize(s: Sys, es: seq<Event>)
    requires Possible(s, es)
    ensures |After(s, es).t| == |s.t|
    decreases |es|
  {
    hide Enabled, Do;
    if es != [] {
      SizeStep(s, es[0]);
      SameSize(Do(s, es[0]), es[1..]);
    }
  }
}
