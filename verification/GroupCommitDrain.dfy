/** No state of the logging system is a dead end: a process is blocked only while it sleeps in begin_op,
    and the operations in progress can always be brought to their end and to disk. */
module GroupCommitDrain {
  import opened Log
  import opened GroupCommit

  /** A process has no step to take exactly if it is asleep in begin_op. */
  lemma BlockedIff(g: Layout, d: Disk, n: nat, evs: seq<Event>, t: State, i: nat)
    requires BootRun(g, d, n, evs, t) && i < |t.procs|
    ensures t.procs[i].Sleeping? <==> forall e: Event :: e.p == i ==> !Enabled(g, t, e)
  {
    hide Run, Do, WellFormed, Sum, Reserved, NoLostWakeup, History, AllOrNothing, Ops, Stored, Plan, HasPlan, CommitPoint;
    BootRunInv(g, d, n, evs, t);
    var e := match t.procs[i] {
      case Outside => Call(i)
      case Entering => if MustWait(t) then Wait(i) else Begin(i)
      case Sleeping => Call(i)
      case Active(_, _) => if t.outstanding == 1 then EndLast(i) else End(i)
      case Passed(_, _, _, _) => LogWrite(i)
      case Committer => if t.done < |Plan(g, t)| then DiskWrite(i) else Done(i)
    };
    assert e.p == i && (!t.procs[i].Sleeping? ==> Enabled(g, t, e));
  }

  ghost function CountsPassed(): GroupCommit.Proc -> int { (p: GroupCommit.Proc) => if p.Passed? then 1 else 0 }

  /** The steps that bring operations to an end. */
  predicate Ends(e: Event) { e.LogWrite? || e.End? || e.EndLast? || e.DiskWrite? || e.Done? }

  ghost function Left(g: Layout, s: State): int { if HasPlan(g, s) then |Plan(g, s)| - s.done else 0 }

  /** What there is to do, most important first: log_writes past their test, operations, a commit, its
      writes. */
  ghost predicate Less(g: Layout, s: State, t: State) {
    var a, b := Sum(s.procs, CountsPassed()), Sum(t.procs, CountsPassed());
    || b < a
    || (b == a && t.outstanding < s.outstanding)
    || (b == a && t.outstanding == s.outstanding && !t.committing && s.committing)
    || (b == a && t.outstanding == s.outstanding && t.committing == s.committing && Left(g, t) < Left(g, s))
  }

  ghost predicate Quiet(s: State) { s.outstanding == 0 && !s.committing }

  lemma LogWriteLess(g: Layout, s: State, i: nat)
    requires i < |s.procs| && s.procs[i].Passed?
    ensures Enabled(g, s, LogWrite(i)) && Less(g, s, Do(g, s, LogWrite(i)))
  {
    SumUpdate(s.procs, i, Do(g, s, LogWrite(i)).procs[i], CountsPassed());
  }

  lemma EndLess(g: Layout, s: State, i: nat)
    requires i < |s.procs| && s.procs[i].Active?
    ensures var e := if s.outstanding == 1 then EndLast(i) else End(i); Enabled(g, s, e) && Less(g, s, Do(g, s, e))
  {
    var e := if s.outstanding == 1 then EndLast(i) else End(i);
    SumStep(s.procs, i, Do(g, s, e).procs[i], CountsPassed());
  }

  lemma CommitLess(g: Layout, init: Disk, s: State, i: nat)
    requires i < |s.procs| && s.procs[i].Committer? && OnDisk(g, init, s) && s.committing
    ensures var e := if s.done < |Plan(g, s)| then DiskWrite(i) else Done(i); Enabled(g, s, e) && Less(g, s, Do(g, s, e))
  {
    hide Sum, Stored, CommitPoint, View, Cut, CommitWrites;
    var e := if s.done < |Plan(g, s)| then DiskWrite(i) else Done(i);
    var t := Do(g, s, e);
    assert Current(t) == Current(s) || e.Done?;
    SumStep(s.procs, i, Outside, CountsPassed());
  }

  /** Unless all is quiet, one of those steps is possible, and leaves less to do. */
  lemma SomeoneEnds(g: Layout, init: Disk, s: State) returns (e: Event)
    requires Inv(g, init, s) && !Quiet(s)
    ensures Ends(e) && Enabled(g, s, e) && Less(g, s, Do(g, s, e))
  {
    hide Sum, Less, Do, Enabled, OnDisk, Ops, History, Reserved, AllOrNothing, NoLostWakeup;
    if i :| 0 <= i < |s.procs| && s.procs[i].Passed? {
      LogWriteLess(g, s, i);
      e := LogWrite(i);
    } else if s.committing {
      SumPositive(s.procs, CountsCommit());
      var i :| 0 <= i < |s.procs| && CountsCommit()(s.procs[i]) > 0;
      CommitLess(g, init, s, i);
      PlanThere(g, init, s);
      e := if s.done < |Plan(g, s)| then DiskWrite(i) else Done(i);
    } else {
      SumNonNegative(s.procs, CountsOp());
      SumPositive(s.procs, CountsOp());
      var i :| 0 <= i < |s.procs| && CountsOp()(s.procs[i]) > 0;
      EndLess(g, s, i);
      e := if s.outstanding == 1 then EndLast(i) else End(i);
    }
  }

  lemma PlanThere(g: Layout, init: Disk, s: State)
    requires OnDisk(g, init, s)
    ensures HasPlan(g, s)
  {
  }

  /** From every state that keeps the invariant, steps of that kind lead to one where all is quiet. */
  lemma {:induction false} Drains(g: Layout, init: Disk, s: State) returns (es: seq<Event>, t: State)
    requires Inv(g, init, s)
    ensures Run(g, s, es, t) && Quiet(t) && s.hist <= t.hist && forall k :: 0 <= k < |es| ==> Ends(es[k])
    decreases Sum(s.procs, CountsPassed()), s.outstanding, s.committing, Left(g, s)
  {
    hide Inv, Do, Enabled, Plan, HasPlan, Sum;
    if Quiet(s) {
      es, t := [], s;
      return;
    }
    Bounded(g, init, s);
    var e := SomeoneEnds(g, init, s);
    Step(g, init, s, e);
    var s1 := Do(g, s, e);
    KeepsHistory(g, s, e);
    es, t := Drains(g, init, s1);
    assert ([e] + es)[1..] == es;
    es := [e] + es;
  }

  lemma KeepsHistory(g: Layout, s: State, e: Event)
    requires Enabled(g, s, e)
    ensures s.hist <= Do(g, s, e).hist
  {
    hide Plan, HasPlan, View, CommitWrites, Cut;
  }

  lemma Bounded(g: Layout, init: Disk, s: State)
    requires Inv(g, init, s)
    ensures Sum(s.procs, CountsPassed()) >= 0 && s.outstanding >= 0 && Left(g, s) >= 0
  {
    hide Sum, Stored, CommitPoint, Plan, HasPlan, Ops, History, Reserved, AllOrNothing, NoLostWakeup;
    SumNonNegative(s.procs, CountsPassed());
    SumNonNegative(s.procs, CountsOp());
  }

  /** Whatever has happened since boot, the operations in progress can end, and then every log_write made
      is on disk and nobody sleeps. */
  lemma CanAlwaysFinish(g: Layout, d: Disk, n: nat, evs: seq<Event>, t: State) returns (es: seq<Event>, u: State)
    requires BootRun(g, d, n, evs, t)
    ensures Run(g, t, es, u) && (forall k :: 0 <= k < |es| ==> Ends(es[k])) && t.hist <= u.hist
    ensures forall i :: 0 <= i < |u.procs| ==> u.procs[i].Outside? || u.procs[i].Entering?
    ensures u.durable == |u.hist| && SameHome(g, u.disk, Apply(d, u.hist))
  {
    hide Inv, Do, Enabled, Run, WellFormed, Apply, SameHome;
    BootRunInv(g, d, n, evs, t);
    es, u := Drains(g, d, t);
    RunsOn(g, Boot(d, n), evs, t, es, u);
    QuietIsDurable(g, d, n, evs + es, u);
    BootRunInv(g, d, n, evs + es, u);
    QuietProcs(g, d, u);
  }

  lemma QuietProcs(g: Layout, init: Disk, s: State)
    requires Inv(g, init, s) && Quiet(s)
    ensures forall i :: 0 <= i < |s.procs| ==> s.procs[i].Outside? || s.procs[i].Entering?
  {
    hide Sum, OnDisk, Ops, History, Reserved, AllOrNothing;
    SumZero(s.procs, CountsOp());
    SumZero(s.procs, CountsCommit());
    forall i | 0 <= i < |s.procs| ensures s.procs[i].Outside? || s.procs[i].Entering? {
      assert CountsOp()(s.procs[i]) == 0 && CountsCommit()(s.procs[i]) == 0;
    }
  }

  lemma {:induction false} RunsOn(g: Layout, s: State, es: seq<Event>, t: State, fs: seq<Event>, u: State)
    requires Run(g, s, es, t) && Run(g, t, fs, u)
    ensures Run(g, s, es + fs, u)
    decreases |es|
  {
    hide Do, Enabled;
    if es == [] {
      assert es + fs == fs;
    } else {
      RunsOn(g, Do(g, s, es[0]), es[1..], t, fs, u);
      assert (es + fs)[0] == es[0] && (es + fs)[1..] == es[1..] + fs;
    }
  }
}
