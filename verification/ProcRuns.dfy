/** What holds in every run of the process machine from boot. */
module ProcRuns {
  import opened ProcSpec
  import opened ProcMachine

  /** After userinit: process 0 is init, every other slot is unused and no CPU has picked anything. */
  function Boot(nproc: nat, ncpu: nat): Sys
    requires nproc > 0
  {
    var unused := Proc(UNUSED, 0, -1, NoChan, false, 0, 0, 0, 0, 0, 0, 0);
    Sys(seq(nproc, i => if i == 0 then unused.(state := RUNNABLE, pid := 1, priority := 2) else unused),
        seq(ncpu, _ => -1), -1, 0, 2, 0, map[], seq(nproc, _ => 0), 0, [], [])
  }

  ghost predicate Possible(s: Sys, es: seq<Event>)
    decreases |es|
  {
    es == [] || (Enabled(s, es[0]) && Possible(Do(s, es[0]), es[1..]))
  }

  ghost function After(s: Sys, es: seq<Event>): Sys
    requires Possible(s, es)
    decreases |es|
  {
    if es == [] then s else After(Do(s, es[0]), es[1..])
  }

  lemma BootInv(nproc: nat, ncpu: nat)
    requires nproc > 0
    ensures Inv(Boot(nproc, ncpu))
  {
    var s := Boot(nproc, ncpu);
    forall i | 0 <= i < |s.t| ensures ParentOk(s, i) {}
    forall x ensures !IsZombie(s.t, x) {}
  }

  lemma {:induction false} RunInv(s: Sys, es: seq<Event>)
    requires Inv(s) && Possible(s, es)
    ensures Inv(After(s, es))
    decreases |es|
  {
    hide Inv, Enabled, Do;
    if es != [] {
      Step(s, es[0]);
      RunInv(Do(s, es[0]), es[1..]);
    }
  }

  /** State s can be reached from boot on a machine of some size. */
  ghost predicate Reachable(s: Sys) {
    exists nproc: nat, ncpu: nat, es: seq<Event> ::
      nproc > 0 && Possible(Boot(nproc, ncpu), es) && s == After(Boot(nproc, ncpu), es)
  }

  lemma ReachableInv(s: Sys)
    requires Reachable(s)
    ensures Inv(s)
  {
    hide Inv, Boot, Possible, After;
    var nproc: nat, ncpu: nat, es: seq<Event> :|
      nproc > 0 && Possible(Boot(nproc, ncpu), es) && s == After(Boot(nproc, ncpu), es);
    BootInv(nproc, ncpu);
    RunInv(Boot(nproc, ncpu), es);
  }

  // ---------------------------------------------------------------- the process tree

  /** Two slots in use never share a pid. */
  lemma LivePidsDistinct(s: Sys, i: nat, j: nat)
    requires Reachable(s) && i < |s.t| && j < |s.t| && i != j
    requires s.t[i].state != UNUSED && s.t[j].state != UNUSED
    ensures s.t[i].pid != s.t[j].pid
  {
    hide Reachable, Tree, Running, Makers, Waiters, Times, Priorities, Settled, Reaping;
    ReachableInv(s);
    assert if i < j then s.t[i].pid != s.t[j].pid else s.t[j].pid != s.t[i].pid;
  }

  /** A process is RUNNING iff some CPU names it, and then only one does.  This holds while a
      scheduler has the lock too, the step from swtch to swtch being one event. */
  lemma RunningOnOneCpu(s: Sys, i: nat)
    requires Reachable(s) && i < |s.t|
    ensures s.t[i].state == RUNNING <==> exists c :: On(s.cpus, i, c)
    ensures forall c, d :: On(s.cpus, i, c) && On(s.cpus, i, d) ==> c == d
  {
    hide Reachable, Tree, Pids, Makers, Waiters, Times, Priorities, Settled, Reaping;
    ReachableInv(s);
  }

  /** The ancestors of a process, itself first. */
  ghost predicate Lineage(s: Sys, path: seq<int>) {
    && |path| > 0 && (forall k :: 0 <= k < |path| ==> 0 <= path[k] < |s.t| && Started(s.t[path[k]]))
    && (forall k :: 0 < k < |path| ==> path[k] == s.t[path[k - 1]].parent)
    && path[|path| - 1] == s.init
  }

  /** Every started process descends from init through processes that are neither unused nor
      zombies: parents are live and older than their children, so the chain of parents ends. */
  lemma {:induction false} DescendsFromInit(s: Sys, i: nat) returns (path: seq<int>)
    requires Reachable(s) && i < |s.t| && Started(s.t[i])
    ensures Lineage(s, path) && path[0] == i
    ensures forall k :: 0 < k < |path| ==> Alive(s.t[path[k]])
    decreases s.t[i].pid
  {
    assert Shape(s) && Pids(s) && Tree(s) by { ReachableInv(s); }
    hide Reachable;
    assert ParentOk(s, i);
    if i == s.init {
      path := [i];
    } else {
      var rest := DescendsFromInit(s, s.t[i].parent);
      path := [i] + rest;
      assert forall k :: 0 < k < |path| ==> path[k] == rest[k - 1];
    }
  }

  /** No process sleeps in a wait call while it has a zombie child. */
  lemma NoLostExit(s: Sys, i: nat)
    requires Reachable(s) && i < |s.t| && s.t[i].state == SLEEPING && s.t[i].chan == OnProc(i)
    ensures !HasZombie(s.t, i)
  {
    hide Reachable, Tree, Pids, Running, Makers, Times, Priorities, Settled, Reaping, HasZombie;
    ReachableInv(s);
  }

  /** Each exited process is either still a zombie or has been reaped, and has been reaped once. */
  lemma ReapedOnce(s: Sys, k: nat)
    requires Reachable(s) && k < |s.exited|
    ensures IsZombie(s.t, s.exited[k]) <==> s.exited[k] !in s.reaped
    ensures multiset(s.exited)[s.exited[k]] == 1 && multiset(s.reaped)[s.exited[k]] <= 1
  {
    assert Reaping(s) by {
      hide Shape, Reachable, Tree, Pids, Running, Makers, Waiters, Times, Priorities, Settled, Reaping;
      ReachableInv(s);
    }
    hide Reachable;
    CountOnce(s.exited, s.exited[k]);
    CountOnce(s.reaped, s.exited[k]);
  }

  lemma {:induction false} CountOnce(a: seq<int>, x: int)
    requires NoRepeats(a)
    ensures multiset(a)[x] == if x in a then 1 else 0
  {
    if a != [] {
      var b := a[..|a| - 1];
      assert a == b + [a[|a| - 1]];
      CountOnce(b, x);
    }
  }

  // ---------------------------------------------------------------- times

  /** The three times that wait2 hands over add up to the dispatches completed, on all CPUs, since
      the child was allocated. */
  lemma WaitTimesAddUp(s: Sys, c: int)
    requires Reachable(s) && Enabled(s, WaitReap(c, Wait2))
    ensures var i := FirstZombie(s.t, s.cpus[c], 0);
      && 0 <= i < |s.t| && i < |s.born|
      && s.t[i].retime + s.t[i].rutime + s.t[i].stime == s.completed - s.born[i]
  {
    hide Reachable, Tree, Pids, Running, Makers, Waiters, Priorities, Settled, Reaping, FirstZombie;
    ReachableInv(s);
    assert TimeOk(s, FirstZombie(s.t, s.cpus[c], 0));
  }

  // ---------------------------------------------------------------- selection and ageing

  /** In every run a scheduler that has the lock dispatches a process exactly if one at or after its
      cursor is runnable, and then one that has the highest priority of the runnable ones, which is 1, 2
      or 3; else it gives the lock up and changes nothing. */
  lemma DispatchIsMaximal(s: Sys, c: int)
    requires Reachable(s) && Enabled(s, Dispatch(c))
    ensures s.holder == c && Do(s, Dispatch(c)).holder == -1
    ensures RunnableFrom(s.t, s.cursor) ==> exists q ::
      Maximal(s.t, q) && 1 <= s.t[q].priority <= 3 && On(Do(s, Dispatch(c)).cpus, q, c) && Do(s, Dispatch(c)).t[q].state == RUNNING
    ensures !RunnableFrom(s.t, s.cursor) ==> Do(s, Dispatch(c)).t == s.t && Do(s, Dispatch(c)).cpus == s.cpus
  {
    hide Reachable, Tree, Pids, Running, Makers, Waiters, Times, Settled, Reaping, Pick, RunnableFrom;
    ReachableInv(s);
    PickIsMaximal(s.t, s.cursor);
    if RunnableFrom(s.t, s.cursor) {
      var q := Pick(s.t, s.cursor);
      assert Maximal(s.t, q) && On(Do(s, Dispatch(c)).cpus, q, c);
    }
  }

  /** In every run the lock, if a scheduler has it, can be given up; and if it is free, an idle CPU can take
      work if there is any: in two steps it runs a process that has the highest priority of the runnable
      ones. */
  lemma IdleCpuTakesWork(s: Sys, c: int)
    requires Reachable(s)
    ensures s.holder != -1 ==> Enabled(s, Dispatch(s.holder)) && Do(s, Dispatch(s.holder)).holder == -1
    ensures s.holder == -1 && On(s.cpus, -1, c) && RunnableFrom(s.t, 0) ==>
      Possible(s, [Acquire(c), Dispatch(c)]) && exists q ::
        var r := After(s, [Acquire(c), Dispatch(c)]); Maximal(s.t, q) && On(r.cpus, q, c) && q < |r.t| && r.t[q].state == RUNNING
  {
    hide Reachable, Tree, Pids, Running, Makers, Waiters, Times, Settled, Reaping, Pick, RunnableFrom, Maximal, Possible, After;
    ReachableInv(s);
    if s.holder == -1 && On(s.cpus, -1, c) && RunnableFrom(s.t, 0) {
      PickIsMaximal(s.t, 0);
      TwoSteps(s, Acquire(c), Dispatch(c));
      var q := Pick(s.t, 0);
      assert Maximal(s.t, q) && On(Do(Do(s, Acquire(c)), Dispatch(c)).cpus, q, c);
    }
  }

  lemma TwoSteps(s: Sys, e: Event, f: Event)
    requires Enabled(s, e) && Enabled(Do(s, e), f)
    ensures Possible(s, [e, f]) && After(s, [e, f]) == Do(Do(s, e), f)
  {
    hide Enabled, Do;
    var t := Do(s, e);
    var u := Do(t, f);
    assert [e, f][1..] == [f] && [f][1..] == [];
    assert Possible(u, []) && After(u, []) == u;
    assert Possible(t, [f]) && After(t, [f]) == u;
  }

  /** No dispatch in the run picks process i. */
  ghost predicate PassedOver(s: Sys, es: seq<Event>, i: int)
    requires Possible(s, es)
    decreases |es|
  {
    es != [] ==>
      && (es[0].Dispatch? ==> Pick(s.t, s.cursor) != i)
      && PassedOver(Do(s, es[0]), es[1..], i)
  }

  ghost predicate StillWaits(p: Proc, q: Proc) {
    q.state == RUNNABLE && q.priority == p.priority && q.queueTime == p.queueTime && q.pid == p.pid
  }

  lemma PassedOverCore(s: Sys, e: Event, i: nat)
    requires Skeleton(s) && Enabled(s, e) && i < |s.t| && s.t[i].state == RUNNABLE
    requires e.Dispatch? ==> Pick(s.t, s.cursor) != i
    ensures i < |Core(s, e).t| && StillWaits(s.t[i], Core(s, e).t[i])
  {
    hide Skeleton, FirstZombie, FirstUnused, FirstPid, Wake, ExitTable, Better, HasKids;
    OnCpu(s, e);
    assert Makers(s) by { hide Shape, Makers, Pids; SkeletonParts(s); }
  }

  lemma PassedOverStep(s: Sys, e: Event, i: nat)
    requires Inv(s) && Enabled(s, e) && i < |s.t| && s.t[i].state == RUNNABLE
    requires e.Dispatch? ==> Pick(s.t, s.cursor) != i
    ensures i < |Do(s, e).t| && StillWaits(s.t[i], Do(s, e).t[i])
  {
    assert Skeleton(s) && Settled(s);
    hide Inv, Skeleton, Enabled, Core, Pick;
    PassedOverCore(s, e, i);
    if Leaves(e) { AgeThreshold(Core(s, e).t[i], s.t[s.cpus[e.c]].pid); }
  }

  /** Waiting does not age a process: one that every dispatch passes over keeps its priority and its
      queue time however long the run, although the pass at the end of each dispatch visits it. */
  lemma {:induction false} PassedOverForever(s: Sys, es: seq<Event>, i: nat)
    requires Inv(s) && i < |s.t| && s.t[i].state == RUNNABLE
    requires Possible(s, es) && PassedOver(s, es, i)
    ensures i < |After(s, es).t| && StillWaits(s.t[i], After(s, es).t[i])
    decreases |es|
  {
    hide Inv, Enabled, Do;
    if es != [] {
      Step(s, es[0]);
      PassedOverStep(s, es[0], i);
      PassedOverForever(Do(s, es[0]), es[1..], i);
    }
  }

  // ---------------------------------------------------------------- a dispatch that is not the lowest

  lemma {:induction false} OneMore(s: Sys, es: seq<Event>, e: Event)
    requires Possible(s, es) && Enabled(After(s, es), e)
    ensures Possible(s, es + [e]) && After(s, es + [e]) == Do(After(s, es), e)
    decreases |es|
  {
    hide Enabled, Do;
    if es == [] {
      assert [e][1..] == [] && es + [e] == [e];
    } else {
      OneMore(Do(s, es[0]), es[1..], e);
      assert (es + [e])[1..] == es[1..] + [e];
    }
  }

  const NOBODY: Proc := Proc(UNUSED, 0, -1, NoChan, false, 0, 0, 0, 0, 0, 0, 0)
  const INIT: Proc := Proc(RUNNING, 1, -1, NoChan, false, 2, 0, 0, 0, 1, INTERV, 1)
  const CHILD: Proc := Proc(RUNNABLE, 2, 0, NoChan, false, 2, 0, 0, 0, 0, 0, 0)

  /** One CPU that runs init. */
  function Alone(): Sys { Sys([INIT, NOBODY], [0], -1, 0, 2, 0, map[], [0, 0], 0, [], []) }

  /** The same after init has forked. */
  function Pair(): Sys { Sys([INIT, CHILD], [0], -1, 0, 3, 0, map[], [0, 0], 0, [], []) }

  lemma InitRuns()
    ensures Enabled(Boot(2, 1), Acquire(0)) && Enabled(Do(Boot(2, 1), Acquire(0)), Dispatch(0))
    ensures Do(Do(Boot(2, 1), Acquire(0)), Dispatch(0)) == Alone()
  {
    var s := Do(Boot(2, 1), Acquire(0));
    assert s.t == [INIT.(state := RUNNABLE, rutime := 0, timeSlice := 0, queueTime := 0), NOBODY] && s.cpus == [-1] && s.born == [0, 0];
    assert Pick(s.t, 0) == Better(s.t, 0, 0) == 0;
    var t := Do(s, Dispatch(0));
    assert t.t == Alone().t && t.cpus == Alone().cpus && t.born == Alone().born;
  }

  lemma InitForks() returns (s1: Sys, s2: Sys)
    ensures Enabled(Alone(), ForkAlloc(0)) && s1 == Do(Alone(), ForkAlloc(0))
    ensures Enabled(s1, ForkParent(0, 1)) && s2 == Do(s1, ForkParent(0, 1))
    ensures Enabled(s2, ForkStart(0, 1, 2)) && Do(s2, ForkStart(0, 1, 2)) == Pair()
  {
    var s := Alone();
    assert FirstUnused(s.t, 0) == FirstUnused(s.t, 1) == 1;
    s1 := Do(s, ForkAlloc(0));
    assert s1.maker == map[1 := 0];
    s2 := Do(s1, ForkParent(0, 1));
    var s3 := Do(s2, ForkStart(0, 1, 2));
    assert s3.t == Pair().t && s3.maker == map[] && s3.born == [0, 0];
  }

  /** Once init has yielded, the scheduler stands past it and takes its child of equal priority. */
  lemma InitYields()
    ensures Enabled(Pair(), Yield(0))
    ensures var s := Do(Pair(), Yield(0));
      Enabled(s, Dispatch(0)) && Pick(s.t, s.cursor) == 1 && LowestMaximal(s.t, 0) && On(Do(s, Dispatch(0)).cpus, 1, 0)
  {
    var s := Do(Pair(), Yield(0));
    assert s.t[0].state == RUNNABLE && s.t[1].state == RUNNABLE && s.t[0].priority == s.t[1].priority == 2;
    assert FirstRunnable(s.t, 1) == 1;
  }

  /** On one CPU init runs and forks. */
  lemma ForkRun() returns (es: seq<Event>)
    ensures Possible(Boot(2, 1), es) && After(Boot(2, 1), es) == Pair()
  {
    hide Boot, Enabled, Do, Alone, Pair;
    var s := Boot(2, 1);
    var e1, e2, e3, e4, e5 := Acquire(0), Dispatch(0), ForkAlloc(0), ForkParent(0, 1), ForkStart(0, 1, 2);
    InitRuns();
    var s1, s2 := InitForks();
    assert Possible(s, []) && After(s, []) == s;
    OneMore(s, [], e1);
    OneMore(s, [] + [e1], e2);
    OneMore(s, [] + [e1] + [e2], e3);
    OneMore(s, [] + [e1] + [e2] + [e3], e4);
    OneMore(s, [] + [e1] + [e2] + [e3] + [e4], e5);
    es := [] + [e1] + [e2] + [e3] + [e4] + [e5];
  }

  /** When init then yields, the scheduler goes on from its cursor to the child, though init has the
      same priority and the lower index. */
  lemma NotLowestRun() returns (es: seq<Event>)
    ensures Possible(Boot(2, 1), es)
    ensures var s := After(Boot(2, 1), es);
      Enabled(s, Dispatch(0)) && Pick(s.t, s.cursor) == 1 && LowestMaximal(s.t, 0) && On(Do(s, Dispatch(0)).cpus, 1, 0)
  {
    hide Boot, Enabled, Do, Pick, LowestMaximal, Pair, On;
    var a := ForkRun();
    InitYields();
    OneMore(Boot(2, 1), a, Yield(0));
    es := a + [Yield(0)];
  }
}
