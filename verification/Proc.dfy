/** The loops of proc.c over the process table, in place. */
module ProcTable {
  import opened ProcSpec
  import opened ProcMachine

  /** Whether some child of cur among the first k slots is a zombie. */
  ghost predicate ZombieBelow(t: Table, cur: int, k: int) {
    exists j :: 0 <= j < k && j < |t| && t[j].parent == cur && t[j].state == ZOMBIE
  }

  /** Entry i when the reparenting loop of exit has done the first k slots. */
  ghost function ExitSoFar(t: Table, cur: nat, init: int, k: nat, i: nat): Proc
    requires cur < |t| && i < |t|
  {
    var p := t[i];
    var wakes := p.state == SLEEPING && (p.chan == OnProc(t[cur].parent) || (ZombieBelow(t, cur, k) && p.chan == OnProc(init)));
    p.(parent := if i < k && p.parent == cur then init else p.parent, state := if wakes then RUNNABLE else p.state)
  }

  /** Entry i after the exit of cur: children of cur are init's, and of the sleepers exactly those are
      runnable that wait for the parent of cur, or for init if it gets a zombie. */
  ghost predicate Exited(t: Table, cur: int, init: int, i: int, p: Proc)
    requires 0 <= cur < |t| && 0 <= i < |t|
  {
    && p == t[i].(parent := p.parent, state := p.state) && p.parent == (if t[i].parent == cur then init else t[i].parent)
    && (i != cur ==> p.state == t[i].state || (t[i].state == SLEEPING && p.state == RUNNABLE))
    && (i != cur && t[i].state == SLEEPING ==> (p.state == RUNNABLE <==>
          t[i].chan == OnProc(t[cur].parent) || (t[i].chan == OnProc(init) && exists j :: 0 <= j < |t| && t[j].parent == cur && t[j].state == ZOMBIE)))
  }

  /** Slot i is the first zombie child of cur. */
  ghost predicate Reaped(t: Table, cur: int, i: int) {
    && 0 <= i < |t| && t[i].parent == cur && t[i].state == ZOMBIE
    && forall j :: 0 <= j < i ==> !(t[j].parent == cur && t[j].state == ZOMBIE)
  }

  /** What the pass after process ran makes of p: one unit more, of sleep or of waiting if p is another
      process, and the next priority with a new queue time if the old one has reached its threshold. */
  ghost predicate Aged(p: Proc, ran: int, q: Proc) {
    && q == p.(ctime := q.ctime, stime := q.stime, retime := q.retime, priority := q.priority, queueTime := q.queueTime)
    && q.ctime == p.ctime + 1
    && q.stime == p.stime + (if p.pid != ran && p.state == SLEEPING then 1 else 0)
    && q.retime == p.retime + (if p.pid != ran && p.state != SLEEPING then 1 else 0)
    && var up := (p.priority == 2 && p.queueTime >= 100) || (p.priority == 1 && p.queueTime >= 200);
    q.priority == (if up then p.priority + 1 else p.priority) && q.queueTime == (if up then 0 else p.queueTime)
  }

  lemma AgeIsAged(p: Proc, ran: int)
    ensures Aged(p, ran, AgeOne(p, ran))
  {
  }

  class PTable {
    const proc: array<Proc>
    var nextpid: int
    const initproc: int

    constructor (n: nat, init: int)
      ensures fresh(proc) && proc.Length == n && initproc == init && nextpid == 1
      ensures forall i :: 0 <= i < n ==> proc[i] == Proc(UNUSED, 0, -1, NoChan, false, 0, 0, 0, 0, 0, 0, 0)
    {
      proc := new Proc[n](_ => Proc(UNUSED, 0, -1, NoChan, false, 0, 0, 0, 0, 0, 0, 0));
      nextpid, initproc := 1, init;
    }

    /** The locked part of allocproc; -1 when the table is full. */
    method AllocProc() returns (r: int)
      modifies proc, this`nextpid
      ensures var i := FirstUnused(old(proc[..]), 0);
        if i == proc.Length then r == -1 && proc[..] == old(proc[..]) && nextpid == old(nextpid)
        else r == i && proc[..] == old(proc[..])[i := Embryo(old(proc[..])[i], old(nextpid))] && nextpid == old(nextpid) + 1
      ensures r == -1 <==> forall i :: 0 <= i < proc.Length ==> old(proc[i]).state != UNUSED
      ensures r != -1 ==> 0 <= r < proc.Length && old(proc[..])[r].state == UNUSED && forall i :: 0 <= i < r ==> old(proc[i]).state != UNUSED
      ensures r != -1 ==> var p := old(proc[..])[r];
        proc[r] == Proc(EMBRYO, old(nextpid), p.parent, p.chan, p.killed, 2, 0, 0, 0, 0, p.timeSlice, 0)
    {
      var p := 0;
      while p < proc.Length && proc[p].state != UNUSED
        invariant 0 <= p <= proc.Length && proc[..] == old(proc[..]) && nextpid == old(nextpid)
        invariant FirstUnused(proc[..], 0) == FirstUnused(proc[..], p)
      {
        p := p + 1;
      }
      if p == proc.Length { return -1; }
      proc[p] := proc[p].(state := EMBRYO, pid := nextpid);
      nextpid := nextpid + 1;
      proc[p] := proc[p].(priority := 2, retime := 0, rutime := 0, stime := 0, ctime := 0, queueTime := 0);
      r := p;
    }

    method Wakeup1(chan: Chan)
      modifies proc
      ensures proc[..] == Wake(old(proc[..]), chan)
      ensures forall i :: 0 <= i < proc.Length ==> var p := old(proc[i]);
        proc[i] == if p.state == SLEEPING && p.chan == chan then p.(state := RUNNABLE) else p
    {
      hide Wake;
      var p := 0;
      while p < proc.Length
        invariant 0 <= p <= proc.Length
        invariant forall i :: 0 <= i < p ==> proc[i] == WakeOne(old(proc[i]), chan)
        invariant forall i :: p <= i < proc.Length ==> proc[i] == old(proc[i])
      {
        if proc[p].state == SLEEPING && proc[p].chan == chan { proc[p] := proc[p].(state := RUNNABLE); }
        p := p + 1;
      }
    }

    /** One slot of the loop that passes abandoned children to init. */
    method Abandon(cur: nat, p: nat, ghost t: Table)
      requires cur < |t| == proc.Length && p < |t|
      requires forall i :: 0 <= i < |t| ==> proc[i] == ExitSoFar(t, cur, initproc, p, i)
      modifies proc
      ensures forall i :: 0 <= i < |t| ==> proc[i] == ExitSoFar(t, cur, initproc, p + 1, i)
    {
      hide Wake;
      assert ZombieBelow(t, cur, p + 1) <==> ZombieBelow(t, cur, p) || (t[p].parent == cur && t[p].state == ZOMBIE);
      if proc[p].parent == cur {
        proc[p] := proc[p].(parent := initproc);
        if proc[p].state == ZOMBIE {
          ghost var before := proc[..];
          Wakeup1(OnProc(initproc));
          assert forall i :: 0 <= i < |t| ==> proc[..][i] == WakeOne(before[i], OnProc(initproc));
        }
      }
    }

    /** exit under the lock, up to its call of sched. */
    method Exit(cur: nat)
      requires cur < proc.Length
      modifies proc
      ensures proc[..] == ExitTable(old(proc[..]), cur, initproc)
      ensures proc[cur].state == ZOMBIE && forall i :: 0 <= i < proc.Length ==> Exited(old(proc[..]), cur, initproc, i, proc[i])
    {
      hide ExitTable, Wake;
      ghost var t := proc[..];
      Wakeup1(OnProc(proc[cur].parent));
      assert forall i :: 0 <= i < |t| ==> proc[..][i] == WakeOne(t[i], OnProc(t[cur].parent));
      var p := 0;
      while p < proc.Length
        invariant 0 <= p <= proc.Length
        invariant forall i :: 0 <= i < |t| ==> proc[i] == ExitSoFar(t, cur, initproc, p, i)
      {
        Abandon(cur, p, t);
        p := p + 1;
      }
      proc[cur] := proc[cur].(state := ZOMBIE);
      assert ZombieBelow(t, cur, p) <==> HasZombie(t, cur);
    }

    /** One scan by wait, wait2 or wait3.  It reaps the first zombie child if there is one, and
        otherwise tells whether there are children to wait for. */
    method WaitScan(cur: int, kind: WaitKind)
      returns (pid: int, havekids: bool, retime: int, rutime: int, stime: int, prio: int)
      modifies proc
      ensures var t := old(proc[..]); var i := FirstZombie(t, cur, 0);
        if i == |t| then pid == -1 && proc[..] == t && (havekids <==> HasKids(t, cur))
        else && pid == t[i].pid && proc[..] == t[i := Reap(t[i], kind)]
             && retime == t[i].retime && rutime == t[i].rutime && stime == t[i].stime && prio == t[i].priority
      ensures pid == -1 || exists i :: 0 <= i < proc.Length && Reaped(old(proc[..]), cur, i) && pid == old(proc[..])[i].pid
      ensures forall i :: Reaped(old(proc[..]), cur, i) ==> var p := old(proc[..])[i];
        && pid == p.pid && proc[..] == old(proc[..])[i := proc[i]]
        && proc[i] == (if kind == Wait then p.(pid := 0, parent := -1, killed := false, state := UNUSED)
                       else p.(pid := 0, parent := -1, killed := false, state := UNUSED, priority := 1, retime := 0, rutime := 0, stime := 0))
    {
      hide Reap;
      ghost var t := proc[..];
      pid, havekids, retime, rutime, stime, prio := -1, false, 0, 0, 0, 0;
      var p := 0;
      while p < proc.Length
        invariant 0 <= p <= proc.Length && proc[..] == t
        invariant FirstZombie(t, cur, 0) == FirstZombie(t, cur, p)
        invariant havekids <==> exists i :: 0 <= i < p && t[i].parent == cur
      {
        if proc[p].parent == cur {
          havekids := true;
          if proc[p].state == ZOMBIE {
            pid, retime, rutime, stime, prio := proc[p].pid, proc[p].retime, proc[p].rutime, proc[p].stime, proc[p].priority;
            ReapSlot(p, kind);
            return;
          }
        }
        p := p + 1;
      }
    }

    method ReapSlot(p: nat, kind: WaitKind)
      requires p < proc.Length
      modifies proc
      ensures proc[..] == old(proc[..])[p := Reap(old(proc[p]), kind)]
      ensures var q := old(proc[p]).(pid := 0, parent := -1, killed := false, state := UNUSED);
        proc[p] == if kind == Wait then q else q.(priority := 1, retime := 0, rutime := 0, stime := 0)
    {
      proc[p] := proc[p].(pid := 0, parent := -1, killed := false, state := UNUSED);
      if kind != Wait { proc[p] := proc[p].(priority := 1, retime := 0, rutime := 0, stime := 0); }
    }

    /** The two nested searches of the scheduler, its outer loop standing at cursor.  They find a process
        exactly if one from there on is runnable: one of the highest priority in the table, the first one
        from the cursor on if that has it, and else the one of lowest index. */
    method Select(cursor: nat) returns (r: nat)
      requires cursor <= proc.Length
      ensures r == Pick(proc[..], cursor)
      ensures r <= proc.Length && (r < proc.Length <==> RunnableFrom(proc[..], cursor))
      ensures r < proc.Length ==> Maximal(proc[..], r)
      ensures forall c :: IsFirst(proc[..], cursor, c) ==> if Maximal(proc[..], c) then r == c else LowestMaximal(proc[..], r)
    {
      hide Maximal, LowestMaximal, RunnableFrom, IsFirst;
      var p := cursor;
      while p < proc.Length && proc[p].state != RUNNABLE
        invariant cursor <= p <= proc.Length
        invariant FirstRunnable(proc[..], cursor) == FirstRunnable(proc[..], p)
      {
        p := p + 1;
      }
      r := p;
      if p < proc.Length {
        ghost var start := p;
        p := 0;
        while p < proc.Length
          invariant 0 <= p <= proc.Length && r < proc.Length && proc[r].state == RUNNABLE
          invariant Better(proc[..], start, 0) == Better(proc[..], r, p)
        {
          if proc[p].state == RUNNABLE && proc[p].priority > proc[r].priority { r := p; }
          p := p + 1;
        }
      }
      PickIsMaximal(proc[..], cursor);
    }

    method Dispatch(q: nat)
      requires q < proc.Length
      modifies proc
      ensures proc[..] == old(proc[..])[q := Dispatched(old(proc[q]))]
      ensures var p := old(proc[q]); proc[q] == p.(state := RUNNING, timeSlice := 5, queueTime := p.queueTime + 1, rutime := p.rutime + 1)
    {
      proc[q] := proc[q].(state := RUNNING);
      proc[q] := proc[q].(timeSlice := INTERV);
      proc[q] := proc[q].(queueTime := proc[q].queueTime + 1);
      proc[q] := proc[q].(rutime := proc[q].rutime + 1);
    }

    method AgeSlot(w: nat, ran: int)
      requires w < proc.Length
      modifies proc
      ensures proc[..] == old(proc[..])[w := AgeOne(old(proc[w]), ran)]
    {
      proc[w] := proc[w].(ctime := proc[w].ctime + 1);
      if proc[w].pid != ran {
        if proc[w].state == SLEEPING {
          proc[w] := proc[w].(stime := proc[w].stime + 1);
        } else {
          proc[w] := proc[w].(retime := proc[w].retime + 1);
        }
      }
      if proc[w].priority == 2 && proc[w].queueTime >= P2TO3 {
        proc[w] := proc[w].(queueTime := 0, priority := 3);
      } else if proc[w].priority == 1 && proc[w].queueTime >= P1TO2 {
        proc[w] := proc[w].(queueTime := 0, priority := 2);
      }
    }

    /** The pass over the table after the process p gave the CPU back. */
    method AgePass(p: nat)
      requires p < proc.Length
      modifies proc
      ensures proc[..] == Age(old(proc[..]), old(proc[p].pid))
      ensures forall i :: 0 <= i < proc.Length ==> BelowThreshold(proc[i])
      ensures forall i :: 0 <= i < proc.Length ==> Aged(old(proc[i]), old(proc[p].pid), proc[i])
    {
      hide Age, AgeOne, BelowThreshold, Aged;
      ghost var t := proc[..];
      var w := 0;
      while w < proc.Length
        invariant 0 <= w <= proc.Length && proc[p].pid == t[p].pid
        invariant forall i :: 0 <= i < w ==> proc[i] == AgeOne(t[i], t[p].pid)
        invariant forall i :: w <= i < proc.Length ==> proc[i] == t[i]
      {
        ghost var before := proc[..];
        AgeSlot(w, proc[p].pid);
        assert forall i :: 0 <= i < proc.Length && i != w ==> proc[..][i] == before[i];
        assert proc[..][w] == AgeOne(t[w], t[p].pid);
        AgeKeepsPid(t[w], t[p].pid);
        w := w + 1;
      }
      forall i | 0 <= i < proc.Length ensures BelowThreshold(proc[i]) && Aged(t[i], t[p].pid, proc[i]) {
        AgeThreshold(t[i], t[p].pid);
        AgeIsAged(t[i], t[p].pid);
      }
    }

    method Kill(pid: int) returns (r: int)
      modifies proc
      ensures var t := old(proc[..]); var i := FirstPid(t, pid, 0);
        if i == |t| then r == -1 && proc[..] == t else r == 0 && proc[..] == t[i := KillOne(t[i])]
      ensures r == 0 || r == -1
      ensures r == -1 <==> forall i :: 0 <= i < proc.Length ==> old(proc[i]).pid != pid
      ensures forall i :: 0 <= i < proc.Length && old(proc[i]).pid == pid && (forall j :: 0 <= j < i ==> old(proc[j]).pid != pid) ==>
        var p := old(proc[i]); proc[i] == p.(killed := true, state := if p.state == SLEEPING then RUNNABLE else p.state)
    {
      var p := 0;
      while p < proc.Length
        invariant 0 <= p <= proc.Length && proc[..] == old(proc[..])
        invariant FirstPid(proc[..], pid, 0) == FirstPid(proc[..], pid, p)
      {
        if proc[p].pid == pid {
          proc[p] := proc[p].(killed := true);
          if proc[p].state == SLEEPING { proc[p] := proc[p].(state := RUNNABLE); }
          return 0;
        }
        p := p + 1;
      }
      return -1;
    }

    /** change_prio called by process cur. */
    method ChangePrio(cur: nat, priority: int) returns (r: int)
      requires cur < proc.Length
      modifies proc
      ensures var t := old(proc[..]); var i := FirstPid(t, t[cur].pid, 0);
        r == 0 && i < |t| && proc[..] == t[i := t[i].(priority := priority)]
    {
      var pid := proc[cur].pid;
      var p := 0;
      while p < proc.Length
        invariant 0 <= p <= cur && proc[..] == old(proc[..])
        invariant FirstPid(proc[..], pid, 0) == FirstPid(proc[..], pid, p)
      {
        if proc[p].pid == pid {
          proc[p] := proc[p].(priority := priority);
          return 0;
        }
        p := p + 1;
      }
    }
  }

  lemma AgeKeepsPid(p: Proc, ran: int)
    ensures AgeOne(p, ran).pid == p.pid
  {
  }

  /** The search by pid in change_prio finds the caller, stale pids in unused slots included. */
  lemma ChangePrioFindsCaller(s: Sys, c: int, prio: int)
    requires Inv(s) && Enabled(s, ChangePrio(c, prio))
    ensures FirstPid(s.t, s.t[s.cpus[c]].pid, 0) == s.cpus[c]
  {
    assert Skeleton(s);
    OnCpu(s, ChangePrio(c, prio));
  }
}
