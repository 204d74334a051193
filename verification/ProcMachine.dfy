/** Processes on any number of CPUs, as a machine whose steps are the critical sections of
    ptable.lock in proc.c, plus the few writes that fork makes to its embryo without the lock.

    A scheduler that has got the CPU back from a process keeps the lock, with its outer loop at
    some cursor, until it dispatches again or finds nothing to run. */
module ProcMachine {
  import opened ProcSpec

  /** cpus[c] is the process on CPU c, -1 for none.  holder is the CPU whose scheduler holds the
      lock, -1 for none.  maker maps each embryo to the process that is in fork building it.
      born, completed, exited and reaped are history. */
  datatype Sys = Sys(
    t: Table, cpus: seq<int>, holder: int, cursor: int, nextpid: int, init: int, maker: map<int, int>,
    born: seq<int>, completed: int, exited: seq<int>, reaped: seq<int>)

  datatype Event =
    | Acquire(c: int)                          // scheduler takes the lock
    | Dispatch(c: int)                         // outer loop finds a runnable process, or lets go
    | Yield(c: int)
    | Sleep(c: int, id: int)
    | WaitSleep(c: int)
    | Exit(c: int)
    | WaitReap(c: int, kind: WaitKind)
    | ForkAlloc(c: int)
    | ForkFail(c: int, np: int)
    | ForkParent(c: int, np: int)
    | ForkStart(c: int, np: int, prio: int)
    | Wakeup(id: int)
    | Kill(pid: int)
    | ChangePrio(c: int, prio: int)

  /** CPU c runs a process, which may enter a critical section. */
  predicate Runs(s: Sys, c: int) {
    0 <= c < |s.cpus| && 0 <= s.cpus[c] < |s.t|
  }

  predicate InFork(s: Sys, p: int) { exists np :: np in s.maker && s.maker[np] == p }

  predicate Free(s: Sys) { s.holder == -1 }

  predicate Enabled(s: Sys, e: Event) {
    match e
    case Acquire(c) => Free(s) && 0 <= c < |s.cpus| && s.cpus[c] == -1
    case Dispatch(c) => 0 <= c < |s.cpus| && s.holder == c && 0 <= s.cursor <= |s.t|
    case Yield(c) => Free(s) && Runs(s, c)
    case Sleep(c, _) => Free(s) && Runs(s, c) && !InFork(s, s.cpus[c])
    case WaitSleep(c) =>
      && Free(s) && Runs(s, c) && !InFork(s, s.cpus[c])
      && FirstZombie(s.t, s.cpus[c], 0) == |s.t| && HasKids(s.t, s.cpus[c]) && !s.t[s.cpus[c]].killed
    case Exit(c) => Free(s) && Runs(s, c) && !InFork(s, s.cpus[c]) && s.cpus[c] != s.init
    case WaitReap(c, _) => Free(s) && Runs(s, c) && !InFork(s, s.cpus[c]) && FirstZombie(s.t, s.cpus[c], 0) < |s.t|
    case ForkAlloc(c) => Free(s) && Runs(s, c) && !InFork(s, s.cpus[c]) && FirstUnused(s.t, 0) < |s.t| && |s.born| == |s.t|
    case ForkFail(c, np) => Runs(s, c) && np in s.maker && s.maker[np] == s.cpus[c] && 0 <= np < |s.t| && s.t[np].parent == -1
    case ForkParent(c, np) => Runs(s, c) && np in s.maker && s.maker[np] == s.cpus[c] && 0 <= np < |s.t|
    case ForkStart(c, np, prio) =>
      && Free(s) && Runs(s, c) && np in s.maker && s.maker[np] == s.cpus[c] && 0 <= np < |s.t|
      && s.t[np].parent == s.cpus[c] && (prio == 2 || prio == s.t[np].pid % 3 + 1)
    case Wakeup(_) => Free(s)
    case Kill(_) => Free(s)
    case ChangePrio(c, prio) => Free(s) && Runs(s, c) && 1 <= prio <= 3
  }

  function KillOne(p: Proc): Proc {
    p.(killed := true, state := if p.state == SLEEPING then RUNNABLE else p.state)
  }

  function FirstPid(t: Table, pid: int, k: nat): (r: nat)
    requires k <= |t|
    ensures k <= r <= |t| && (r < |t| ==> t[r].pid == pid) && forall j :: k <= j < r ==> t[j].pid != pid
    decreases |t| - k
  {
    if k == |t| || t[k].pid == pid then k else FirstPid(t, pid, k + 1)
  }

  /** The events in which the running process of a CPU gives it up. */
  predicate Leaves(e: Event) { e.Yield? || e.Sleep? || e.WaitSleep? || e.Exit? }

  /** CPU c is back in its scheduler, which clears proc and stands past the process that ran. */
  function Off(s: Sys, c: int, t: Table): Sys
    requires Runs(s, c)
  {
    s.(t := t, cpus := s.cpus[c := -1], holder := c, cursor := s.cpus[c] + 1)
  }

  /** What an event does, short of the ageing pass. */
  function Core(s: Sys, e: Event): Sys
    requires Enabled(s, e)
  {
    match e
    case Acquire(c) => s.(holder := c, cursor := 0)
    case Dispatch(c) =>
      var q := Pick(s.t, s.cursor);
      if q == |s.t| then s.(holder := -1)
      else s.(holder := -1, cpus := s.cpus[c := q], t := s.t[q := Dispatched(s.t[q])])
    case Yield(c) =>
      Off(s, c, s.t[s.cpus[c] := s.t[s.cpus[c]].(state := RUNNABLE)])
    case Sleep(c, id) =>
      Off(s, c, s.t[s.cpus[c] := s.t[s.cpus[c]].(state := SLEEPING, chan := OnOther(id))])
    case WaitSleep(c) =>
      Off(s, c, s.t[s.cpus[c] := s.t[s.cpus[c]].(state := SLEEPING, chan := OnProc(s.cpus[c]))])
    case Exit(c) =>
      Off(s, c, ExitTable(s.t, s.cpus[c], s.init)).(exited := s.exited + [s.t[s.cpus[c]].pid])
    case WaitReap(c, kind) =>
      var i := FirstZombie(s.t, s.cpus[c], 0);
      s.(t := s.t[i := Reap(s.t[i], kind)], reaped := s.reaped + [s.t[i].pid])
    case ForkAlloc(c) =>
      var i := FirstUnused(s.t, 0);
      s.(t := s.t[i := Embryo(s.t[i], s.nextpid)], nextpid := s.nextpid + 1, maker := s.maker[i := s.cpus[c]],
         born := s.born[i := s.completed])
    case ForkFail(c, np) => s.(t := s.t[np := s.t[np].(state := UNUSED)], maker := s.maker - {np})
    case ForkParent(c, np) => s.(t := s.t[np := s.t[np].(parent := s.cpus[c])])
    case ForkStart(c, np, prio) =>
      s.(t := s.t[np := s.t[np].(state := RUNNABLE, priority := prio)], maker := s.maker - {np})
    case Wakeup(id) => s.(t := Wake(s.t, OnOther(id)))
    case Kill(pid) =>
      var i := FirstPid(s.t, pid, 0);
      if i == |s.t| then s else s.(t := s.t[i := KillOne(s.t[i])])
    case ChangePrio(c, prio) =>
      s.(t := s.t[s.cpus[c] := s.t[s.cpus[c]].(priority := prio)])
  }

  /** A process that gives up its CPU is followed by the ageing pass, under the same lock. */
  function Do(s: Sys, e: Event): Sys
    requires Enabled(s, e)
  {
    if Leaves(e)
    then Core(s, e).(t := Age(Core(s, e).t, s.t[s.cpus[e.c]].pid), completed := s.completed + 1)
    else Core(s, e)
  }

  // ---------------------------------------------------------------- invariants

  ghost predicate Shape(s: Sys) {
    && |s.born| == |s.t| && 0 <= s.init < |s.t|
    && (forall c :: 0 <= c < |s.cpus| ==> -1 <= s.cpus[c] < |s.t|)
    && -1 <= s.holder < |s.cpus| && (s.holder >= 0 ==> s.cpus[s.holder] == -1 && 0 <= s.cursor <= |s.t|)
  }

  ghost predicate On(cpus: seq<int>, i: int, c: int) { 0 <= c < |cpus| && cpus[c] == i }

  /** A process is RUNNING iff exactly one CPU's proc names it. */
  ghost predicate Running(s: Sys) {
    && (forall i, c :: 0 <= i < |s.t| && On(s.cpus, i, c) ==> s.t[i].state == RUNNING)
    && (forall i :: 0 <= i < |s.t| && s.t[i].state == RUNNING ==> exists c :: On(s.cpus, i, c))
    && (forall i, c, d :: 0 <= i < |s.t| && On(s.cpus, i, c) && On(s.cpus, i, d) ==> c == d)
  }

  /** Nonzero pids in the table are distinct, and every slot in use has one. */
  ghost predicate Pids(s: Sys) {
    && (forall i :: 0 <= i < |s.t| ==> 0 <= s.t[i].pid < s.nextpid && (s.t[i].state != UNUSED ==> s.t[i].pid > 0))
    && (forall i, j :: 0 <= i < j < |s.t| ==> s.t[i].pid == 0 || s.t[i].pid != s.t[j].pid)
  }

  ghost predicate ParentOk(s: Sys, i: int)
    requires 0 <= i < |s.t| && 0 <= s.init < |s.t|
  {
    var p := s.t[i];
    match p.state
    case UNUSED => p.parent == -1
    case EMBRYO => i in s.maker && (p.parent == -1 || p.parent == s.maker[i])
    case _ =>
      if i == s.init then p.parent == -1 && Alive(p)
      else 0 <= p.parent < |s.t| && Alive(s.t[p.parent]) && s.t[p.parent].pid < p.pid
  }

  /** Every started process but init has a live parent, older than itself. */
  ghost predicate Tree(s: Sys)
    requires 0 <= s.init < |s.t|
  {
    && s.t[s.init].pid == 1 && Alive(s.t[s.init])
    && (forall i :: 0 <= i < |s.t| ==> ParentOk(s, i))
  }

  ghost predicate Makers(s: Sys) {
    && (forall np :: np in s.maker ==>
          && 0 <= np < |s.t| && s.t[np].state == EMBRYO && 0 <= s.maker[np] < |s.t|
          && (s.t[s.maker[np]].state == RUNNING || s.t[s.maker[np]].state == RUNNABLE)
          && s.t[s.maker[np]].pid < s.t[np].pid)
    && (forall a, b :: a in s.maker && b in s.maker && s.maker[a] == s.maker[b] ==> a == b)
  }

  /** A process asleep in wait has no zombie child, and only wait sleeps on a process. */
  ghost predicate Waiters(s: Sys) {
    forall i :: 0 <= i < |s.t| && s.t[i].state == SLEEPING && s.t[i].chan.OnProc? ==>
      s.t[i].chan.i == i && !HasZombie(s.t, i)
  }

  ghost predicate TimeOk(s: Sys, i: int)
    requires 0 <= i < |s.t| && |s.born| == |s.t|
  {
    var p := s.t[i];
    p.state != UNUSED ==>
      && p.ctime == s.completed - s.born[i]
      && p.ctime + (if p.state == RUNNING then 1 else 0) == p.rutime + p.stime + p.retime
  }

  /** Time is conserved: run, sleep and ready time add up to the dispatches completed since the
      process was allocated, plus the one in progress. */
  ghost predicate Times(s: Sys)
    requires |s.born| == |s.t|
  {
    forall i :: 0 <= i < |s.t| ==> TimeOk(s, i)
  }

  ghost predicate Priorities(s: Sys) {
    forall i :: 0 <= i < |s.t| && s.t[i].state != UNUSED ==> 1 <= s.t[i].priority <= 3
  }

  /** Only a running process can be at or past its promotion threshold. */
  ghost predicate Settled(s: Sys) {
    forall i :: 0 <= i < |s.t| && s.t[i].state != UNUSED && s.t[i].state != RUNNING ==>
      BelowThreshold(s.t[i]) && (s.t[i].state == EMBRYO ==> s.t[i].queueTime == 0)
  }

  ghost predicate IsZombie(t: Table, pid: int) {
    exists i :: 0 <= i < |t| && t[i].state == ZOMBIE && t[i].pid == pid
  }

  ghost predicate NoRepeats(a: seq<int>) { forall i, j :: 0 <= i < j < |a| ==> a[i] != a[j] }

  /** What has exited is a zombie or has been reaped, never both, and each of these once. */
  ghost predicate Reaping(s: Sys) {
    && NoRepeats(s.exited) && NoRepeats(s.reaped)
    && (forall x :: x in s.exited ==> 0 < x < s.nextpid)
    && (forall x :: x in s.exited <==> x in s.reaped || IsZombie(s.t, x))
    && (forall x :: x in s.reaped ==> forall i :: 0 <= i < |s.t| ==> s.t[i].pid != x)
  }

  ghost predicate Inv(s: Sys) {
    && Shape(s) && Running(s) && Pids(s) && Tree(s) && Makers(s)
    && Waiters(s) && Times(s) && Priorities(s) && Settled(s) && Reaping(s)
  }

  // ---------------------------------------------------------------- every step keeps them

  /** The invariants that do not speak of times and priorities. */
  ghost predicate Skeleton(s: Sys) {
    Shape(s) && Running(s) && Pids(s) && Tree(s) && Makers(s) && Waiters(s) && Reaping(s)
  }

  ghost predicate SameBones(t: Table, u: Table) {
    && |u| == |t|
    && forall i :: 0 <= i < |t| ==>
         u[i].state == t[i].state && u[i].pid == t[i].pid && u[i].parent == t[i].parent && u[i].chan == t[i].chan
  }

  lemma AgeBones(t: Table, ran: int)
    ensures SameBones(t, Age(t, ran))
  {
  }

  lemma BonesTree(s: Sys, u: Table)
    requires Shape(s) && Tree(s) && Makers(s) && Waiters(s) && SameBones(s.t, u)
    ensures var r := s.(t := u); 0 <= r.init < |r.t| && Tree(r) && Makers(r) && Waiters(r)
  {
    var r := s.(t := u);
    forall i | 0 <= i < |u| ensures ParentOk(r, i) { assert ParentOk(s, i); }
  }

  lemma BonesReaping(s: Sys, u: Table)
    requires Reaping(s) && SameBones(s.t, u)
    ensures Reaping(s.(t := u))
  {
    forall x ensures IsZombie(u, x) <==> IsZombie(s.t, x) {}
  }

  lemma BonesSkeleton(s: Sys, u: Table)
    requires Skeleton(s) && SameBones(s.t, u)
    ensures Skeleton(s.(t := u))
  {
    hide Tree, Makers, Waiters, Reaping;
    BonesTree(s, u);
    BonesReaping(s, u);
  }

  lemma ShapeStep(s: Sys, e: Event)
    requires Skeleton(s) && Enabled(s, e)
    ensures Shape(Core(s, e))
  {
    hide Pids, Tree, Makers, Waiters, Reaping, FirstZombie, FirstUnused, FirstPid, Wake, ExitTable, Pick, Running;
  }

  /** A process on a CPU is running, and on that CPU only. */
  lemma OnCpu(s: Sys, e: Event)
    requires Skeleton(s) && Enabled(s, e)
    ensures !e.Acquire? && !e.Dispatch? && !e.Wakeup? && !e.Kill? ==>
      && Runs(s, e.c) && s.t[s.cpus[e.c]].state == RUNNING && s.t[s.cpus[e.c]].pid > 0
      && forall d :: 0 <= d < |s.cpus| && d != e.c ==> s.cpus[d] != s.cpus[e.c]
  {
    hide Tree, Makers, Waiters, Reaping, FirstZombie, FirstUnused, HasKids;
    if !e.Acquire? && !e.Dispatch? && !e.Wakeup? && !e.Kill? {
      assert On(s.cpus, s.cpus[e.c], e.c);
      forall d | 0 <= d < |s.cpus| && d != e.c ensures s.cpus[d] != s.cpus[e.c] {
        assert On(s.cpus, s.cpus[e.c], d) <==> s.cpus[d] == s.cpus[e.c];
      }
    }
  }

  lemma RunningStep(s: Sys, e: Event)
    requires Skeleton(s) && Enabled(s, e)
    ensures Running(Core(s, e))
  {
    hide Pids, Waiters, Reaping, FirstZombie, FirstUnused, FirstPid, Wake, ExitTable, Better, HasKids, Tree;
    OnCpu(s, e);
    var r := Core(s, e);
    forall i, d | 0 <= i < |r.t| && On(r.cpus, i, d) ensures r.t[i].state == RUNNING {
      assert On(s.cpus, i, d) || (e.Dispatch? && d == e.c);
    }
    forall i | 0 <= i < |r.t| && r.t[i].state == RUNNING ensures exists c :: On(r.cpus, i, c) {
      if e.Dispatch? && i == Pick(s.t, s.cursor) {
        assert On(r.cpus, i, e.c);
      } else {
        var c :| On(s.cpus, i, c);
        assert On(r.cpus, i, c);
      }
    }
    forall i, c, d | 0 <= i < |r.t| && On(r.cpus, i, c) && On(r.cpus, i, d) ensures c == d {
      assert On(s.cpus, i, c) || (e.Dispatch? && c == e.c);
      assert On(s.cpus, i, d) || (e.Dispatch? && d == e.c);
    }
  }

  predicate IsFork(e: Event) { e.ForkAlloc? || e.ForkFail? || e.ForkParent? || e.ForkStart? }
  predicate IsSched(e: Event) { e.Acquire? || e.Dispatch? }

  /** init is the only process with pid 1. */
  lemma InitAlone(s: Sys, i: int)
    requires Skeleton(s) && 0 <= i < |s.t| && i != s.init
    ensures s.t[i].pid != 1
  {
    hide Running, Waiters, Reaping, Makers, ParentOk;
    assert if i < s.init then s.t[i].pid == 0 || s.t[i].pid != s.t[s.init].pid else s.t[s.init].pid != s.t[i].pid;
  }

  lemma ForkPids(s: Sys, e: Event)
    requires Skeleton(s) && Enabled(s, e) && IsFork(e)
    ensures Pids(Core(s, e))
  {
    hide Waiters, Reaping, FirstZombie, FirstUnused, FirstPid, Wake, ExitTable, Better, HasKids, Running, Tree;
    OnCpu(s, e);
  }

  lemma LeavePids(s: Sys, e: Event)
    requires Skeleton(s) && Enabled(s, e) && Leaves(e)
    ensures Pids(Core(s, e))
  {
    hide Waiters, Reaping, FirstZombie, FirstUnused, FirstPid, Wake, ExitTable, Better, HasKids, Running, Tree;
    OnCpu(s, e);
  }

  lemma SchedPids(s: Sys, e: Event)
    requires Skeleton(s) && Enabled(s, e) && IsSched(e)
    ensures Pids(Core(s, e))
  {
    hide Waiters, Reaping, FirstZombie, FirstUnused, FirstPid, Wake, ExitTable, Better, HasKids, Running, Tree;
    OnCpu(s, e);
  }

  lemma OtherPids(s: Sys, e: Event)
    requires Skeleton(s) && Enabled(s, e) && !IsFork(e) && !Leaves(e) && !IsSched(e)
    ensures Pids(Core(s, e))
  {
    hide Waiters, Reaping, FirstZombie, FirstUnused, FirstPid, Wake, ExitTable, Better, HasKids, Running, Tree;
    OnCpu(s, e);
  }

  lemma PidsStep(s: Sys, e: Event)
    requires Skeleton(s) && Enabled(s, e)
    ensures Pids(Core(s, e))
  {
    hide Skeleton, Enabled, Core, Pids;
    if IsFork(e) { ForkPids(s, e); } else if Leaves(e) { LeavePids(s, e); }
    else if IsSched(e) { SchedPids(s, e); } else { OtherPids(s, e); }
  }

  lemma ForkMakers(s: Sys, e: Event)
    requires Skeleton(s) && Enabled(s, e) && IsFork(e)
    ensures Makers(Core(s, e))
  {
    hide FirstUnused, Skeleton;
    OnCpu(s, e);
    assert Makers(s) && Pids(s) by { hide Shape, Makers, Pids, Waiters; SkeletonParts(s); }
  }

  lemma LeaveMakers(s: Sys, e: Event)
    requires Skeleton(s) && Enabled(s, e) && Leaves(e)
    ensures Makers(Core(s, e))
  {
    hide Waiters, Reaping, FirstZombie, FirstUnused, FirstPid, Wake, ExitTable, Better, HasKids, Running, Tree;
    OnCpu(s, e);
  }

  lemma SchedMakers(s: Sys, e: Event)
    requires Skeleton(s) && Enabled(s, e) && IsSched(e)
    ensures Makers(Core(s, e))
  {
    hide Waiters, Reaping, FirstZombie, FirstUnused, FirstPid, Wake, ExitTable, Better, HasKids, Running, Tree;
    OnCpu(s, e);
  }

  lemma OtherMakers(s: Sys, e: Event)
    requires Skeleton(s) && Enabled(s, e) && !IsFork(e) && !Leaves(e) && !IsSched(e)
    ensures Makers(Core(s, e))
  {
    hide Waiters, Reaping, FirstZombie, FirstUnused, FirstPid, Wake, ExitTable, Better, HasKids, Running, Tree;
    OnCpu(s, e);
  }

  lemma MakersStep(s: Sys, e: Event)
    requires Skeleton(s) && Enabled(s, e)
    ensures Makers(Core(s, e))
  {
    hide Skeleton, Enabled, Core, Makers;
    if IsFork(e) { ForkMakers(s, e); } else if Leaves(e) { LeaveMakers(s, e); }
    else if IsSched(e) { SchedMakers(s, e); } else { OtherMakers(s, e); }
  }

  lemma ForkTree(s: Sys, e: Event)
    requires Skeleton(s) && Enabled(s, e) && IsFork(e)
    ensures 0 <= Core(s, e).init < |Core(s, e).t| && Tree(Core(s, e))
  {
    hide Waiters, Reaping, FirstUnused, Running;
    OnCpu(s, e);
    var r := Core(s, e);
    forall i | 0 <= i < |r.t| ensures ParentOk(r, i) {
      assert ParentOk(s, i);
      if i != s.init { InitAlone(s, i); }
    }
  }

  lemma LeaveTree(s: Sys, e: Event)
    requires Skeleton(s) && Enabled(s, e) && Leaves(e)
    ensures 0 <= Core(s, e).init < |Core(s, e).t| && Tree(Core(s, e))
  {
    hide Waiters, Reaping, FirstZombie, FirstUnused, FirstPid, Wake, ExitTable, Better, HasKids, Running;
    OnCpu(s, e);
    var r := Core(s, e);
    forall i | 0 <= i < |r.t| ensures ParentOk(r, i) {
      assert ParentOk(s, i);
      if i != s.init { InitAlone(s, i); }
    }
  }

  lemma SchedTree(s: Sys, e: Event)
    requires Skeleton(s) && Enabled(s, e) && IsSched(e)
    ensures 0 <= Core(s, e).init < |Core(s, e).t| && Tree(Core(s, e))
  {
    hide Waiters, Reaping, FirstZombie, FirstUnused, FirstPid, Wake, ExitTable, Better, HasKids, Running;
    OnCpu(s, e);
    var r := Core(s, e);
    forall i | 0 <= i < |r.t| ensures ParentOk(r, i) {
      assert ParentOk(s, i);
      if i != s.init { InitAlone(s, i); }
    }
  }

  lemma OtherTree(s: Sys, e: Event)
    requires Skeleton(s) && Enabled(s, e) && !IsFork(e) && !Leaves(e) && !IsSched(e)
    ensures 0 <= Core(s, e).init < |Core(s, e).t| && Tree(Core(s, e))
  {
    hide Waiters, Reaping, FirstZombie, FirstUnused, FirstPid, Wake, ExitTable, Better, HasKids, Running;
    OnCpu(s, e);
    var r := Core(s, e);
    forall i | 0 <= i < |r.t| ensures ParentOk(r, i) {
      assert ParentOk(s, i);
      if i != s.init { InitAlone(s, i); }
    }
  }

  lemma TreeStep(s: Sys, e: Event)
    requires Skeleton(s) && Enabled(s, e)
    ensures 0 <= Core(s, e).init < |Core(s, e).t| && Tree(Core(s, e))
  {
    hide Skeleton, Enabled, Core, Tree;
    if IsFork(e) { ForkTree(s, e); } else if Leaves(e) { LeaveTree(s, e); }
    else if IsSched(e) { SchedTree(s, e); } else { OtherTree(s, e); }
  }

  /** A parent that the exiting process does not wake has no new zombie child. */
  lemma ExitWaiters(s: Sys, c: int)
    requires Skeleton(s) && Enabled(s, Exit(c))
    ensures Waiters(Core(s, Exit(c)))
  {
    hide Reaping, ExitTable, Running, Makers;
    OnCpu(s, Exit(c));
    var cur := s.cpus[c];
    var r := Core(s, Exit(c));
    assert ParentOk(s, cur);
    forall i | 0 <= i < |r.t| && r.t[i].state == SLEEPING && r.t[i].chan.OnProc?
      ensures r.t[i].chan.i == i && !HasZombie(r.t, i)
    {
      assert s.t[i].state == SLEEPING && s.t[i].chan == OnProc(i) && !HasZombie(s.t, i);
      forall j | 0 <= j < |r.t| && r.t[j].parent == i ensures r.t[j].state != ZOMBIE {
        assert s.t[j].parent == cur && s.t[j].state == ZOMBIE ==> HasZombie(s.t, cur);
      }
    }
  }

  lemma ForkWaiters(s: Sys, e: Event)
    requires Skeleton(s) && Enabled(s, e) && IsFork(e)
    ensures Waiters(Core(s, e))
  {
    hide FirstUnused, Skeleton;
    assert Makers(s) && Waiters(s) by { hide Makers, Waiters; SkeletonParts(s); }
  }

  lemma LeaveWaiters(s: Sys, e: Event)
    requires Skeleton(s) && Enabled(s, e) && Leaves(e) && !e.Exit?
    ensures Waiters(Core(s, e))
  {
    hide HasKids, Skeleton;
    OnCpu(s, e);
    assert Waiters(s) by { hide Waiters; SkeletonParts(s); }
  }

  lemma StayWaiters(s: Sys, e: Event)
    requires Skeleton(s) && Enabled(s, e) && !IsFork(e) && !Leaves(e)
    ensures Waiters(Core(s, e))
  {
    hide FirstPid, Wake, Better, Skeleton;
    OnCpu(s, e);
    assert Waiters(s) by { hide Waiters; SkeletonParts(s); }
  }

  lemma WaitersStep(s: Sys, e: Event)
    requires Skeleton(s) && Enabled(s, e)
    ensures Waiters(Core(s, e))
  {
    hide Skeleton, Enabled, Core, Waiters;
    if e.Exit? { ExitWaiters(s, e.c); }
    else if IsFork(e) { ForkWaiters(s, e); }
    else if Leaves(e) { LeaveWaiters(s, e); }
    else { StayWaiters(s, e); }
  }

  ghost predicate SameZombies(t: Table, u: Table) {
    && |u| == |t|
    && forall i :: 0 <= i < |t| ==> (u[i].state == ZOMBIE <==> t[i].state == ZOMBIE) && (t[i].state == ZOMBIE ==> u[i].pid == t[i].pid)
  }

  lemma SameZombiesIs(t: Table, u: Table, x: int)
    requires SameZombies(t, u)
    ensures IsZombie(u, x) <==> IsZombie(t, x)
  {
  }

  /** No zombie comes or goes, and the only new pid is the next one. */
  ghost predicate SameReaping(s: Sys, r: Sys) {
    && SameZombies(s.t, r.t) && r.exited == s.exited && r.reaped == s.reaped && r.nextpid >= s.nextpid
    && forall i :: 0 <= i < |s.t| ==> r.t[i].pid == s.t[i].pid || r.t[i].pid == s.nextpid
  }

  lemma ForkSame(s: Sys, e: Event)
    requires Skeleton(s) && Enabled(s, e) && IsFork(e)
    ensures SameReaping(s, Core(s, e))
  {
    hide FirstUnused, Skeleton;
    assert Makers(s) by { hide Makers; SkeletonParts(s); }
  }

  lemma LeaveSame(s: Sys, e: Event)
    requires Skeleton(s) && Enabled(s, e) && Leaves(e) && !e.Exit?
    ensures SameReaping(s, Core(s, e))
  {
    hide FirstZombie, HasKids, Skeleton;
    OnCpu(s, e);
  }

  lemma StaySame(s: Sys, e: Event)
    requires Skeleton(s) && Enabled(s, e) && !IsFork(e) && !Leaves(e) && !e.WaitReap?
    ensures SameReaping(s, Core(s, e))
  {
    hide FirstPid, Wake, Better, Skeleton;
    OnCpu(s, e);
  }

  lemma ReapingKept(s: Sys, r: Sys)
    requires Reaping(s) && SameReaping(s, r)
    ensures Reaping(r)
  {
    hide IsZombie;
    forall x ensures IsZombie(r.t, x) <==> IsZombie(s.t, x) { SameZombiesIs(s.t, r.t, x); }
  }

  lemma OtherReaping(s: Sys, e: Event)
    requires Skeleton(s) && Enabled(s, e) && !e.Exit? && !e.WaitReap?
    ensures Reaping(Core(s, e))
  {
    hide Enabled, Core, Reaping, SameReaping, Shape, Running, Pids, Tree, Makers, Waiters;
    if IsFork(e) { ForkSame(s, e); } else if Leaves(e) { LeaveSame(s, e); } else { StaySame(s, e); }
    ReapingKept(s, Core(s, e));
  }

  lemma ExitReaping(s: Sys, c: int)
    requires Skeleton(s) && Enabled(s, Exit(c))
    ensures Reaping(Core(s, Exit(c)))
  {
    hide Waiters, ExitTable, Running, Makers, Tree;
    OnCpu(s, Exit(c));
    var cur := s.cpus[c];
    var r := Core(s, Exit(c));
    var pid := s.t[cur].pid;
    forall x ensures IsZombie(r.t, x) <==> IsZombie(s.t, x) || x == pid {
      if x == pid { assert r.t[cur].state == ZOMBIE && r.t[cur].pid == pid; }
      if IsZombie(s.t, x) {
        var i :| 0 <= i < |s.t| && s.t[i].state == ZOMBIE && s.t[i].pid == x;
        assert r.t[i].state == ZOMBIE && r.t[i].pid == x;
      }
    }
    assert !IsZombie(s.t, pid);
    assert pid !in s.reaped;
    assert pid !in s.exited;
  }

  lemma ReapReaping(s: Sys, e: Event)
    requires Skeleton(s) && Enabled(s, e) && e.WaitReap?
    ensures Reaping(Core(s, e))
  {
    hide Waiters, Running, Makers, Tree, FirstZombie;
    var i := FirstZombie(s.t, s.cpus[e.c], 0);
    var r := Core(s, e);
    var pid := s.t[i].pid;
    assert IsZombie(s.t, pid);
    forall x ensures IsZombie(r.t, x) <==> IsZombie(s.t, x) && x != pid {
      if IsZombie(s.t, x) && x != pid {
        var j :| 0 <= j < |s.t| && s.t[j].state == ZOMBIE && s.t[j].pid == x;
        assert r.t[j] == s.t[j];
      }
    }
    assert pid !in s.reaped;
  }

  lemma ReapingStep(s: Sys, e: Event)
    requires Skeleton(s) && Enabled(s, e)
    ensures Reaping(Core(s, e))
  {
    hide Skeleton, Enabled, Core, Reaping;
    if e.Exit? { ExitReaping(s, e.c); }
    else if e.WaitReap? { ReapReaping(s, e); }
    else { OtherReaping(s, e); }
  }

  lemma SkeletonStep(s: Sys, e: Event)
    requires Skeleton(s) && Enabled(s, e)
    ensures Skeleton(Do(s, e))
  {
    assert Skeleton(Core(s, e)) by {
      hide Enabled, Core, Shape, Running, Pids, Tree, Makers, Waiters, Reaping;
      ShapeStep(s, e);
      RunningStep(s, e);
      PidsStep(s, e);
      TreeStep(s, e);
      MakersStep(s, e);
      WaitersStep(s, e);
      ReapingStep(s, e);
    }
    if Leaves(e) { DoSkeleton(s, e); }
  }

  lemma DoSkeleton(s: Sys, e: Event)
    requires Enabled(s, e) && Leaves(e) && Skeleton(Core(s, e))
    ensures Skeleton(Do(s, e))
  {
    hide Skeleton, Core, Age, ExitTable;
    var ran := s.t[s.cpus[e.c]].pid;
    AgeBones(Core(s, e).t, ran);
    BonesSkeleton(Core(s, e), Age(Core(s, e).t, ran));
    BookkeepingSkeleton(Core(s, e).(t := Age(Core(s, e).t, ran)), s.completed + 1);
  }

  lemma BookkeepingSkeleton(s: Sys, n: int)
    requires Skeleton(s)
    ensures Skeleton(s.(completed := n))
  {
    var r := s.(completed := n);
    forall i | 0 <= i < |s.t| ensures ParentOk(r, i) { assert ParentOk(s, i); }
  }

  // ---------------------------------------------------------------- times and priorities

  lemma SkeletonParts(s: Sys)
    requires Skeleton(s)
    ensures Shape(s) && Makers(s) && Pids(s) && Waiters(s)
  {
    hide Shape, Makers, Pids, Tree, Running, Waiters, Reaping;
  }

  /** Between dispatches nothing is charged; a dispatch charges the process that it starts. */
  lemma StayTimes(s: Sys, e: Event)
    requires Skeleton(s) && Times(s) && Enabled(s, e) && !Leaves(e)
    ensures |Do(s, e).born| == |Do(s, e).t| && Times(Do(s, e))
  {
    hide FirstZombie, FirstUnused, FirstPid, Wake, Better, HasKids, Skeleton;
    OnCpu(s, e);
    assert Shape(s) && Makers(s) by { hide Shape, Makers, Pids, Waiters; SkeletonParts(s); }
    var r := Do(s, e);
    forall i | 0 <= i < |r.t| ensures TimeOk(r, i) {
      assert TimeOk(s, i);
    }
  }

  lemma StayPriorities(s: Sys, e: Event)
    requires Skeleton(s) && Priorities(s) && Settled(s) && Enabled(s, e) && !Leaves(e)
    ensures Priorities(Do(s, e)) && Settled(Do(s, e))
  {
    hide FirstZombie, FirstUnused, FirstPid, Wake, Better, HasKids, Skeleton;
    OnCpu(s, e);
    assert Shape(s) && Makers(s) by { hide Shape, Makers, Pids, Waiters; SkeletonParts(s); }
  }

  /** The end of a dispatch charges every process one unit: ready or sleep time for those that did
      not run, and for the one that ran the unit already charged when it started. */
  lemma LeaveTimes(s: Sys, e: Event)
    requires Skeleton(s) && Times(s) && Priorities(s) && Settled(s) && Enabled(s, e) && Leaves(e)
    ensures |Do(s, e).born| == |Do(s, e).t| && Times(Do(s, e)) && Priorities(Do(s, e)) && Settled(Do(s, e))
  {
    hide FirstZombie, ExitTable, HasKids, Skeleton;
    OnCpu(s, e);
    assert Shape(s) && Pids(s) by { SkeletonParts(s); }
    var r := Do(s, e);
    var cur := s.cpus[e.c];
    forall i | 0 <= i < |r.t|
      ensures TimeOk(r, i) && (r.t[i].state != UNUSED ==> 1 <= r.t[i].priority <= 3) && BelowThreshold(r.t[i])
              && (r.t[i].state == EMBRYO ==> r.t[i].queueTime == 0)
    {
      assert TimeOk(s, i);
      var p := Core(s, e).t[i];
      assert r.t[i] == AgeOne(p, s.t[cur].pid);
      assert (p.state == UNUSED <==> s.t[i].state == UNUSED) && (p.state == EMBRYO <==> s.t[i].state == EMBRYO);
      assert p.pid == s.t[i].pid && p.ctime == s.t[i].ctime && p.rutime == s.t[i].rutime && p.stime == s.t[i].stime
          && p.retime == s.t[i].retime && p.priority == s.t[i].priority && p.queueTime == s.t[i].queueTime;
      assert i != cur ==> s.t[i].pid != s.t[cur].pid;
    }
  }

  /** Whatever a CPU, an interrupt or another process does, the invariant stays. */
  lemma Step(s: Sys, e: Event)
    requires Inv(s) && Enabled(s, e)
    ensures Inv(Do(s, e))
  {
    assert Skeleton(s);
    assert Skeleton(Do(s, e)) && |Do(s, e).born| == |Do(s, e).t| && Times(Do(s, e)) && Priorities(Do(s, e)) && Settled(Do(s, e)) by {
      hide Enabled, Do, Times, Priorities, Settled, Skeleton;
      SkeletonStep(s, e);
      if Leaves(e) { LeaveTimes(s, e); } else { StayTimes(s, e); StayPriorities(s, e); }
    }
  }
}
