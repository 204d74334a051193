/** The process table of proc.c and what each of its table-scanning loops computes. */
module ProcSpec {

  const P1TO2: int := 200
  const P2TO3: int := 100
  const INTERV: int := 5

  datatype PState = UNUSED | EMBRYO | SLEEPING | RUNNABLE | RUNNING | ZOMBIE

  /** What a process sleeps on: nothing, a process (only wait does), or anything else. */
  datatype Chan = NoChan | OnProc(i: int) | OnOther(id: int)

  /** parent is an index into the table, -1 for none. */
  datatype Proc = Proc(
    state: PState, pid: int, parent: int, chan: Chan, killed: bool,
    priority: int, ctime: int, stime: int, retime: int, rutime: int, timeSlice: int, queueTime: int)

  type Table = seq<Proc>

  predicate Started(p: Proc) { p.state != UNUSED && p.state != EMBRYO }
  predicate Alive(p: Proc) { p.state == SLEEPING || p.state == RUNNABLE || p.state == RUNNING }

  // ---------------------------------------------------------------- allocproc

  /** Index of the first unused slot from k on, |t| if there is none. */
  function FirstUnused(t: Table, k: nat): (r: nat)
    requires k <= |t|
    ensures k <= r <= |t|
    ensures forall j :: k <= j < r ==> t[j].state != UNUSED
    ensures r < |t| ==> t[r].state == UNUSED
    decreases |t| - k
  {
    if k == |t| || t[k].state == UNUSED then k else FirstUnused(t, k + 1)
  }

  function Embryo(p: Proc, pid: int): Proc {
    p.(state := EMBRYO, pid := pid, priority := 2, retime := 0, rutime := 0, stime := 0, ctime := 0, queueTime := 0)
  }

  // ---------------------------------------------------------------- wakeup1, exit

  function WakeOne(p: Proc, c: Chan): Proc {
    if p.state == SLEEPING && p.chan == c then p.(state := RUNNABLE) else p
  }

  function Wake(t: Table, c: Chan): (r: Table)
    ensures |r| == |t| && forall i :: 0 <= i < |t| ==> r[i] == WakeOne(t[i], c)
  {
    seq(|t|, i requires 0 <= i < |t| => WakeOne(t[i], c))
  }

  /** Some child of cur has exited and was not waited for. */
  predicate HasZombie(t: Table, cur: int) {
    exists i :: 0 <= i < |t| && t[i].parent == cur && t[i].state == ZOMBIE
  }

  function ExitOne(t: Table, cur: nat, init: int, i: nat): Proc
    requires cur < |t| && i < |t|
  {
    var p := t[i];
    var wakes := p.state == SLEEPING && (p.chan == OnProc(t[cur].parent) || (HasZombie(t, cur) && p.chan == OnProc(init)));
    p.(parent := if p.parent == cur then init else p.parent,
       state := if i == cur then ZOMBIE else if wakes then RUNNABLE else p.state)
  }

  /** The table after exit of process cur: the parent is woken, orphans go to init, which is woken
      if one of them is a zombie, and cur is a zombie. */
  function ExitTable(t: Table, cur: nat, init: int): (r: Table)
    requires cur < |t|
    ensures |r| == |t| && forall i :: 0 <= i < |t| ==> r[i] == ExitOne(t, cur, init, i)
  {
    seq(|t|, i requires 0 <= i < |t| => ExitOne(t, cur, init, i))
  }

  // ---------------------------------------------------------------- wait, wait2, wait3

  datatype WaitKind = Wait | Wait2 | Wait3

  /** The first zombie child of cur from k on, |t| if there is none. */
  function FirstZombie(t: Table, cur: int, k: nat): (r: nat)
    requires k <= |t|
    ensures k <= r <= |t|
    ensures forall j :: k <= j < r ==> !(t[j].parent == cur && t[j].state == ZOMBIE)
    ensures r < |t| ==> t[r].parent == cur && t[r].state == ZOMBIE
    decreases |t| - k
  {
    if k == |t| || (t[k].parent == cur && t[k].state == ZOMBIE) then k else FirstZombie(t, cur, k + 1)
  }

  predicate HasKids(t: Table, cur: int) {
    exists i :: 0 <= i < |t| && t[i].parent == cur
  }

  function Reap(p: Proc, kind: WaitKind): Proc {
    var q := p.(pid := 0, parent := -1, killed := false, state := UNUSED);
    if kind == Wait then q else q.(priority := 1, retime := 0, rutime := 0, stime := 0)
  }

  // ---------------------------------------------------------------- scheduler

  function FirstRunnable(t: Table, k: nat): (r: nat)
    requires k <= |t|
    ensures k <= r <= |t|
    ensures forall j :: k <= j < r ==> t[j].state != RUNNABLE
    ensures r < |t| ==> t[r].state == RUNNABLE
    decreases |t| - k
  {
    if k == |t| || t[k].state == RUNNABLE then k else FirstRunnable(t, k + 1)
  }

  /** The inner loop: from best, move on to each runnable process of strictly higher priority. */
  function Better(t: Table, best: nat, k: nat): (r: nat)
    requires best < |t| && k <= |t| && t[best].state == RUNNABLE
    ensures r < |t| && t[r].state == RUNNABLE && t[r].priority >= t[best].priority
    ensures forall j :: k <= j < |t| && t[j].state == RUNNABLE ==> t[j].priority <= t[r].priority
    ensures r == best || (k <= r && t[r].priority > t[best].priority && forall j :: k <= j < r && t[j].state == RUNNABLE ==> t[j].priority < t[r].priority)
    decreases |t| - k
  {
    if k == |t| then best
    else Better(t, if t[k].state == RUNNABLE && t[k].priority > t[best].priority then k else best, k + 1)
  }

  /** The process dispatched when the outer loop stands at cursor; |t| if it finds none. */
  function Pick(t: Table, cursor: nat): (r: nat)
    requires cursor <= |t|
    ensures r <= |t|
  {
    var c := FirstRunnable(t, cursor);
    if c == |t| then |t| else Better(t, c, 0)
  }

  function Dispatched(p: Proc): Proc {
    p.(state := RUNNING, timeSlice := INTERV, queueTime := p.queueTime + 1, rutime := p.rutime + 1)
  }

  /** One entry in the pass that follows every dispatch; ran is the pid of the process that ran. */
  function AgeOne(p: Proc, ran: int): Proc {
    var a := p.(ctime := p.ctime + 1);
    var b := if p.pid == ran then a
             else if p.state == SLEEPING then a.(stime := p.stime + 1)
             else a.(retime := p.retime + 1);
    if b.priority == 2 && b.queueTime >= P2TO3 then b.(queueTime := 0, priority := 3)
    else if b.priority == 1 && b.queueTime >= P1TO2 then b.(queueTime := 0, priority := 2)
    else b
  }

  function Age(t: Table, ran: int): (r: Table)
    ensures |r| == |t| && forall i :: 0 <= i < |t| ==> r[i] == AgeOne(t[i], ran)
  {
    seq(|t|, i requires 0 <= i < |t| => AgeOne(t[i], ran))
  }

  // ---------------------------------------------------------------- selection and ageing

  ghost predicate Maximal(t: Table, i: int) {
    && 0 <= i < |t| && t[i].state == RUNNABLE
    && forall j :: 0 <= j < |t| && t[j].state == RUNNABLE ==> t[j].priority <= t[i].priority
  }

  ghost predicate LowestMaximal(t: Table, i: int) {
    Maximal(t, i) && forall j :: 0 <= j < i ==> !Maximal(t, j)
  }

  /** Some process at or after the cursor is runnable. */
  ghost predicate RunnableFrom(t: Table, cursor: int) { exists j :: 0 <= cursor <= j < |t| && t[j].state == RUNNABLE }

  /** Process c is the first runnable one at or after the cursor. */
  ghost predicate IsFirst(t: Table, cursor: int, c: int) {
    0 <= cursor <= c < |t| && t[c].state == RUNNABLE && forall j :: cursor <= j < c ==> t[j].state != RUNNABLE
  }

  /** A process is dispatched exactly if one at or after the cursor is runnable, and it is a runnable
      process of the highest priority in the whole table.  The first runnable process at or after the
      cursor wins ties; otherwise the lowest index does. */
  lemma PickIsMaximal(t: Table, cursor: nat)
    requires cursor <= |t|
    ensures Pick(t, cursor) < |t| <==> RunnableFrom(t, cursor)
    ensures Pick(t, cursor) < |t| ==> Maximal(t, Pick(t, cursor))
    ensures forall c :: IsFirst(t, cursor, c) && Maximal(t, c) ==> Pick(t, cursor) == c
    ensures forall c :: IsFirst(t, cursor, c) && !Maximal(t, c) ==> LowestMaximal(t, Pick(t, cursor))
  {
    hide Maximal;
    var f := FirstRunnable(t, cursor);
    forall c | IsFirst(t, cursor, c) ensures c == f {}
    if f < |t| { PickAt(t, cursor); }
  }

  lemma PickAt(t: Table, cursor: nat)
    requires cursor <= |t| && FirstRunnable(t, cursor) < |t|
    ensures var f, r := FirstRunnable(t, cursor), Pick(t, cursor);
      Maximal(t, r) && (Maximal(t, f) ==> r == f) && (!Maximal(t, f) ==> LowestMaximal(t, r))
  {
  }

  /** So the dispatched process is the lowest-index one of maximal priority exactly when no
      runnable process below the first one at the cursor has that priority too. */
  lemma PickLowestIff(t: Table, cursor: nat)
    requires cursor <= |t| && Pick(t, cursor) < |t|
    ensures var c := FirstRunnable(t, cursor);
      LowestMaximal(t, Pick(t, cursor)) <==>
      !(Maximal(t, c) && exists j :: 0 <= j < c && t[j].state == RUNNABLE && t[j].priority == t[c].priority)
  {
    PickAt(t, cursor);
    var c := FirstRunnable(t, cursor);
    if Maximal(t, c) {
      assert forall j :: 0 <= j < c ==> (Maximal(t, j) <==> t[j].state == RUNNABLE && t[j].priority == t[c].priority);
    }
  }

  /** A table on which a scheduler that goes on from its cursor passes over an equal at index 0. */
  lemma PickNotLowest() returns (t: Table)
    ensures |t| == 2 && Pick(t, 1) == 1 && LowestMaximal(t, 0)
  {
    var p := Proc(RUNNABLE, 1, -1, NoChan, false, 2, 0, 0, 0, 0, 0, 0);
    t := [p, p.(pid := 2)];
  }

  predicate BelowThreshold(p: Proc) {
    (p.priority == 2 ==> p.queueTime < P2TO3) && (p.priority == 1 ==> p.queueTime < P1TO2)
  }

  /** After the pass no process is at or past its threshold, and one that was below keeps both its
      priority and its queue time: waiting does not age. */
  lemma AgeThreshold(p: Proc, ran: int)
    ensures BelowThreshold(AgeOne(p, ran))
    ensures BelowThreshold(p) ==> AgeOne(p, ran).priority == p.priority && AgeOne(p, ran).queueTime == p.queueTime
    ensures AgeOne(p, ran).priority >= p.priority
  {
  }
}
