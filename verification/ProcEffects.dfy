/** What the events of the process machine do to the processes: wakeups, kills and how long their mark
    lasts, leaving a CPU, and fork. */
module ProcEffects {
  import opened ProcSpec
  import opened ProcMachine
  import opened ProcRuns
  import ProcTimes

  predicate SleepsOn(p: Proc, c: Chan) { p.state == SLEEPING && p.chan == c }

  /** A wakeup makes exactly the sleepers on its channel runnable, so that none is left, and changes
      nothing else. */
  lemma WakeupWakes(s: Sys, id: int, i: int)
    requires Enabled(s, Wakeup(id)) && 0 <= i < |s.t|
    ensures var t := Do(s, Wakeup(id));
      && t == s.(t := t.t) && |t.t| == |s.t| && !SleepsOn(t.t[i], OnOther(id))
      && t.t[i] == (if SleepsOn(s.t[i], OnOther(id)) then s.t[i].(state := RUNNABLE) else s.t[i])
  {
  }

  /** A kill of a started process marks it and leaves it awake, and changes nothing else. */
  lemma KillMarks(s: Sys, i: int)
    requires Inv(s) && 0 <= i < |s.t| && Started(s.t[i]) && Enabled(s, Kill(s.t[i].pid))
    ensures var t := Do(s, Kill(s.t[i].pid)); var p := s.t[i];
      && t == s.(t := s.t[i := t.t[i]]) && t.t[i].killed && t.t[i].state != SLEEPING
      && t.t[i] == p.(killed := true, state := if p.state == SLEEPING then RUNNABLE else p.state)
  {
    hide Running, Tree, Makers, Waiters, Times, Priorities, Settled, Reaping;
    assert s.t[i].pid > 0;
    assert forall j :: 0 <= j < i ==> s.t[j].pid != s.t[i].pid;
    assert FirstPid(s.t, s.t[i].pid, 0) == i;
  }

  // ---------------------------------------------------------------- who is marked

  /** Event e is a kill that finds slot i: the first with that pid, whatever its state. */
  predicate Hits(s: Sys, e: Event, i: int) {
    e.Kill? && 0 <= i < |s.t| && s.t[i].pid == e.pid && forall j :: 0 <= j < i ==> s.t[j].pid != e.pid
  }

  /** Event e reaps slot i. */
  predicate Reaps(s: Sys, e: Event, i: int)
    requires Enabled(s, e)
  {
    e.WaitReap? && 0 <= i < |s.t| == |Do(s, e).t| && s.t[i].state == ZOMBIE && Do(s, e).t[i].state == UNUSED
  }

  /** Whether slot i was hit since it was last reaped, over a run that begins with k. */
  ghost function HitSince(s: Sys, es: seq<Event>, i: int, k: bool): bool
    requires Possible(s, es)
    decreases |es|
  {
    if es == [] then k
    else HitSince(Do(s, es[0]), es[1..], i, if Hits(s, es[0], i) then true else if Reaps(s, es[0], i) then false else k)
  }

  ghost predicate KilledIs(s: Sys, i: int, k: bool) { 0 <= i < |s.t| && (s.t[i].killed <==> k) }

  lemma HitStep(s: Sys, e: Event, i: int, k: bool)
    requires Inv(s) && Enabled(s, e) && KilledIs(s, i, k)
    ensures KilledIs(Do(s, e), i, if Hits(s, e, i) then true else if Reaps(s, e, i) then false else k)
  {
    hide Running, Pids, Tree, Makers, Waiters, Times, Priorities, Settled, Reaping, Pick, HasKids, FirstUnused;
    ProcTimes.SizeStep(s, e);
    if e.Kill? {
      var f := FirstPid(s.t, e.pid, 0);
      assert Hits(s, e, i) <==> i == f;
    }
  }

  lemma {:induction false} HitRun(s: Sys, es: seq<Event>, i: int, k: bool)
    requires Inv(s) && Possible(s, es) && KilledIs(s, i, k)
    ensures KilledIs(After(s, es), i, HitSince(s, es, i, k))
    decreases |es|
  {
    hide Inv, Enabled, Do, KilledIs, Hits, Reaps;
    if es != [] {
      Step(s, es[0]);
      HitStep(s, es[0], i, k);
      HitRun(Do(s, es[0]), es[1..], i, if Hits(s, es[0], i) then true else if Reaps(s, es[0], i) then false else k);
    }
  }

  /** In every run from boot a slot is marked exactly if a kill found it since it was last reaped.  So a
      new process is born marked exactly if a kill found its slot while that was unused or an embryo. */
  lemma KilledIff(nproc: nat, ncpu: nat, es: seq<Event>, i: int)
    requires nproc > 0 && Possible(Boot(nproc, ncpu), es) && 0 <= i < nproc
    ensures var s := After(Boot(nproc, ncpu), es);
      i < |s.t| && (s.t[i].killed <==> HitSince(Boot(nproc, ncpu), es, i, false))
  {
    hide Inv, Possible, After, HitSince;
    BootInv(nproc, ncpu);
    HitRun(Boot(nproc, ncpu), es, i, false);
  }

  lemma KillThenFork() returns (s: Sys)
    ensures Enabled(Alone(), Kill(0)) && s == Do(Alone(), Kill(0)) && Enabled(s, ForkAlloc(0))
    ensures var t := Do(s, ForkAlloc(0)).t; |t| == 2 && t[1].state == EMBRYO && t[1].pid == 2 && t[1].killed
  {
    assert FirstPid(Alone().t, 0, 0) == FirstPid(Alone().t, 0, 1) == 1;
    s := Do(Alone(), Kill(0));
    assert FirstUnused(s.t, 0) == FirstUnused(s.t, 1) == 1;
  }

  /** A run where that happens: kill(0) finds an unused slot, and the next fork takes it. */
  lemma BornKilled() returns (es: seq<Event>)
    ensures Possible(Boot(2, 1), es)
    ensures var s := After(Boot(2, 1), es); |s.t| == 2 && s.t[1].state == EMBRYO && s.t[1].pid == 2 && s.t[1].killed
  {
    hide Boot, Enabled, Do, Alone;
    var s, e1, e2, e3, e4 := Boot(2, 1), Acquire(0), Dispatch(0), Kill(0), ForkAlloc(0);
    InitRuns();
    var s3 := KillThenFork();
    assert Possible(s, []) && After(s, []) == s;
    OneMore(s, [], e1);
    OneMore(s, [] + [e1], e2);
    OneMore(s, [] + [e1] + [e2], e3);
    OneMore(s, [] + [e1] + [e2] + [e3], e4);
    es := [] + [e1] + [e2] + [e3] + [e4];
  }

  // ---------------------------------------------------------------- leaving a CPU, and fork

  /** A process that leaves its CPU is runnable, asleep on what it waits for, or a zombie; the scheduler of
      that CPU has the lock and stands behind it. */
  lemma LeaveStates(s: Sys, e: Event)
    requires Inv(s) && Enabled(s, e) && Leaves(e)
    ensures var i := s.cpus[e.c]; var t := Do(s, e);
      && 0 <= i < |s.t| == |t.t| && t.cpus == s.cpus[e.c := -1] && t.holder == e.c && t.cursor == i + 1
      && (e.Yield? ==> t.t[i].state == RUNNABLE) && (e.Exit? ==> t.t[i].state == ZOMBIE)
      && (e.Sleep? ==> t.t[i].state == SLEEPING && t.t[i].chan == OnOther(e.id))
      && (e.WaitSleep? ==> t.t[i].state == SLEEPING && t.t[i].chan == OnProc(i))
      && (!e.Exit? ==> forall j :: 0 <= j < |s.t| && j != i ==> t.t[j].state == s.t[j].state && t.t[j].chan == s.t[j].chan)
  {
    hide Running, Pids, Tree, Makers, Waiters, Times, Priorities, Settled, Reaping, HasKids, FirstZombie;
  }

  /** The three steps of fork by the process on CPU c: the first unused slot becomes its runnable child,
      with the next pid, no time on record, and the priority given. */
  lemma ForkMakes(s: Sys, c: int, prio: int) returns (np: int, s1: Sys, s2: Sys, s3: Sys)
    requires Inv(s) && Enabled(s, ForkAlloc(c)) && 1 <= prio <= 3 && (prio == 2 || prio == s.nextpid % 3 + 1)
    ensures 0 <= np < |s.t| && s.t[np].state == UNUSED && forall j :: 0 <= j < np ==> s.t[j].state != UNUSED
    ensures s1 == Do(s, ForkAlloc(c)) && Enabled(s1, ForkParent(c, np)) && s2 == Do(s1, ForkParent(c, np))
    ensures Enabled(s2, ForkStart(c, np, prio)) && s3 == Do(s2, ForkStart(c, np, prio))
    ensures var q := s.t[np];
      s3.t == s.t[np := Proc(RUNNABLE, s.nextpid, s.cpus[c], q.chan, q.killed, prio, 0, 0, 0, 0, q.timeSlice, 0)]
    ensures s3.nextpid == s.nextpid + 1 && s3.cpus == s.cpus
  {
    hide Running, Pids, Tree, Waiters, Times, Priorities, Settled, Reaping, FirstUnused;
    np := FirstUnused(s.t, 0);
    s1 := Do(s, ForkAlloc(c));
    s2 := Do(s1, ForkParent(c, np));
    s3 := Do(s2, ForkStart(c, np, prio));
  }
}
