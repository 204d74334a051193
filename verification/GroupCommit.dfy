/** begin_op, log_write and end_op run by any number of processes, interleaved at every point
    where log.lock is free, with the writes of commit() reaching the disk one by one and a crash
    possible after any of them.

    Code that holds log.lock is one step.  log_write makes its capacity test before it takes the
    lock, so the test and the body are two steps. */
module GroupCommit {
  import opened Log

  const MAXOPBLOCKS: nat := 10

  datatype Proc =
    | Outside                                               // not in a file system call
    | Entering                                              // in begin_op, about to look at the log
    | Sleeping                                              // in begin_op, asleep on &log
    | Active(op: nat, wrote: set<int>)                      // between begin_op and end_op
    | Passed(op: nat, wrote: set<int>, addr: nat, data: Block)  // in log_write, past its tests
    | Committer                                             // in commit(), after the last end_op

  /** from is the disk as the last commit left it, and done counts the writes of the commit in
      progress that have reached it.  hist and ops record every log_write and the operation that
      made it; the first `durable` of them are the ones a crash keeps. */
  datatype State = State(
    disk: Disk, from: Disk, done: nat, dirty: map<int, Block>, lh: seq<int>,
    outstanding: int, committing: bool, procs: seq<Proc>,
    nextOp: nat, hist: seq<Write>, ops: seq<nat>, durable: nat)

  datatype Event =
    | Call(p: nat) | Begin(p: nat) | Wait(p: nat)
    | Test(p: nat, addr: nat, data: Block) | LogWrite(p: nat)
    | End(p: nat) | EndLast(p: nat) | DiskWrite(p: nat) | Done(p: nat)

  predicate InOp(p: Proc) { p.Active? || p.Passed? }

  /** The capacity test of log_write: when it fires the kernel panics. */
  predicate TestFires(g: Layout, s: State) {
    |s.lh| >= LOGSIZE || |s.lh| >= g.size - 1
  }

  predicate MustWait(s: State) {
    s.committing || |s.lh| + (s.outstanding + 1) * MAXOPBLOCKS > LOGSIZE
  }

  ghost predicate HasPlan(g: Layout, s: State) {
    GoodLayout(g) && GoodHomes(g, s.lh) && |s.from| == g.total && HeaderShape(Current(s)[g.start])
  }

  /** Block contents as every reader sees them. */
  ghost function Current(s: State): Disk { View(s.from, s.dirty) }

  /** The writes that a commit of the current transaction issues. */
  ghost function Plan(g: Layout, s: State): seq<Write>
    requires HasPlan(g, s)
  {
    CommitWrites(g, s.from, Current(s), s.lh)
  }

  ghost predicate Enabled(g: Layout, s: State, e: Event) {
    && e.p < |s.procs|
    && var p := s.procs[e.p];
    match e
    case Call(_) => p.Outside?
    case Begin(_) => p.Entering? && !MustWait(s)
    case Wait(_) => p.Entering? && MustWait(s)
    case Test(_, addr, _) =>
      && p.Active? && !TestFires(g, s) && s.outstanding >= 1
      && 0 <= addr < g.total && !InLog(g, addr)
      && |p.wrote + {addr}| <= MAXOPBLOCKS
    case LogWrite(_) => p.Passed?
    case End(_) => p.Active? && s.outstanding != 1
    case EndLast(_) => p.Active? && s.outstanding == 1
    case DiskWrite(_) => p.Committer? && HasPlan(g, s) && s.done < |Plan(g, s)|
    case Done(_) => p.Committer? && HasPlan(g, s) && s.done == |Plan(g, s)|
  }

  /** wakeup(&log) */
  function WakeAll(ps: seq<Proc>): (r: seq<Proc>)
    ensures |r| == |ps|
    ensures forall i :: 0 <= i < |ps| ==> r[i] == if ps[i].Sleeping? then Entering else ps[i]
  {
    seq(|ps|, i requires 0 <= i < |ps| => if ps[i].Sleeping? then Entering else ps[i])
  }

  ghost function Do(g: Layout, s: State, e: Event): State
    requires Enabled(g, s, e)
  {
    var p := s.procs[e.p];
    match e
    case Call(i) => s.(procs := s.procs[i := Entering])
    case Begin(i) =>
      s.(outstanding := s.outstanding + 1, procs := s.procs[i := Active(s.nextOp, {})], nextOp := s.nextOp + 1)
    case Wait(i) => s.(procs := s.procs[i := Sleeping])
    case Test(i, addr, data) => s.(procs := s.procs[i := Passed(p.op, p.wrote, addr, data)])
    case LogWrite(i) =>
      s.(procs := s.procs[i := Active(p.op, p.wrote + {p.addr})],
         lh := if p.addr in s.lh then s.lh else s.lh + [p.addr],
         dirty := s.dirty[p.addr := p.data],
         hist := s.hist + [Write(p.addr, p.data)], ops := s.ops + [p.op])
    case End(i) =>
      s.(outstanding := s.outstanding - 1, procs := WakeAll(s.procs[i := Outside]))
    case EndLast(i) =>
      s.(outstanding := 0, committing := true, procs := s.procs[i := Committer])
    case DiskWrite(i) =>
      s.(disk := Cut(s.from, Plan(g, s), s.done + 1), done := s.done + 1,
         durable := if s.done == CommitPoint(s.lh) then |s.hist| else s.durable)
    case Done(i) =>
      s.(from := s.disk, done := 0, lh := [], dirty := map[], committing := false,
         procs := WakeAll(s.procs[i := Outside]))
  }

  // ---------------------------------------------------------------- counting

  ghost function Sum(ps: seq<Proc>, f: Proc -> int): int {
    if ps == [] then 0 else Sum(ps[..|ps| - 1], f) + f(ps[|ps| - 1])
  }

  lemma {:induction false} SumUpdate(ps: seq<Proc>, i: nat, p: Proc, f: Proc -> int)
    requires i < |ps|
    ensures Sum(ps[i := p], f) == Sum(ps, f) - f(ps[i]) + f(p)
  {
    var n := |ps| - 1;
    if i < n {
      SumUpdate(ps[..n], i, p, f);
      assert ps[i := p][..n] == ps[..n][i := p];
    } else {
      assert ps[i := p][..n] == ps[..n];
    }
  }

  lemma {:induction false} SumSame(ps: seq<Proc>, qs: seq<Proc>, f: Proc -> int)
    requires |ps| == |qs| && forall i :: 0 <= i < |ps| ==> f(ps[i]) == f(qs[i])
    ensures Sum(ps, f) == Sum(qs, f)
  {
    if ps != [] { SumSame(ps[..|ps| - 1], qs[..|ps| - 1], f); }
  }

  lemma {:induction false} SumAtLeast(ps: seq<Proc>, i: nat, f: Proc -> int)
    requires i < |ps| && forall p :: f(p) >= 0
    ensures Sum(ps, f) >= f(ps[i])
  {
    var n := |ps| - 1;
    if i < n { SumAtLeast(ps[..n], i, f); } else { SumNonNegative(ps[..n], f); }
  }

  lemma {:induction false} SumNonNegative(ps: seq<Proc>, f: Proc -> int)
    requires forall p :: f(p) >= 0
    ensures Sum(ps, f) >= 0
  {
    if ps != [] { SumNonNegative(ps[..|ps| - 1], f); }
  }

  lemma {:induction false} SumZero(ps: seq<Proc>, f: Proc -> int)
    requires (forall p :: f(p) >= 0) && Sum(ps, f) == 0
    ensures forall i :: 0 <= i < |ps| ==> f(ps[i]) == 0
  {
    forall i | 0 <= i < |ps| ensures f(ps[i]) == 0 {
      SumAtLeast(ps, i, f);
    }
  }

  lemma {:induction false} SumScale(ps: seq<Proc>, f: Proc -> int, h: Proc -> int, k: int)
    requires forall i :: 0 <= i < |ps| ==> f(ps[i]) <= k * h(ps[i])
    ensures Sum(ps, f) <= k * Sum(ps, h)
  {
    if ps != [] { SumScale(ps[..|ps| - 1], f, h, k); }
  }

  ghost function CountsOp(): Proc -> int { (p: Proc) => if InOp(p) then 1 else 0 }
  ghost function CountsCommit(): Proc -> int { (p: Proc) => if p.Committer? then 1 else 0 }
  /** Blocks that an operation may still log. */
  ghost function Quota(): Proc -> int {
    (p: Proc) => if InOp(p) && |p.wrote| <= MAXOPBLOCKS then MAXOPBLOCKS - |p.wrote| else 0
  }

  // ---------------------------------------------------------------- invariant

  /** outstanding and committing describe the processes. */
  ghost predicate Counted(s: State) {
    && s.outstanding == Sum(s.procs, CountsOp())
    && Sum(s.procs, CountsCommit()) == (if s.committing then 1 else 0)
    && (s.committing ==> s.outstanding == 0)
  }

  ghost predicate History(s: State) {
    && |s.ops| == |s.hist| && s.durable <= |s.hist|
    && (forall k :: 0 <= k < |s.ops| ==> s.ops[k] < s.nextOp)
  }

  ghost predicate GoodOp(g: Layout, s: State, p: Proc)
    requires InOp(p)
  {
    && (forall a :: a in p.wrote ==> a in s.lh) && |p.wrote| <= MAXOPBLOCKS
    && p.op < s.nextOp
    && (forall k :: 0 <= k < s.durable && k < |s.ops| ==> s.ops[k] != p.op)
    && (p.Passed? ==>
        0 <= p.addr < g.total && !InLog(g, p.addr) && |p.wrote + {p.addr}| <= MAXOPBLOCKS)
  }

  /** Each operation's writes are all kept by a crash, or all lost. */
  ghost predicate AllOrNothing(s: State) {
    forall i, j :: 0 <= i < s.durable <= j < |s.ops| ==> s.ops[i] != s.ops[j]
  }

  ghost predicate NoLostWakeup(s: State) {
    && (!s.committing && s.outstanding == 0 ==> s.lh == [])
    && (forall i :: 0 <= i < |s.procs| && s.procs[i].Sleeping? ==> MustWait(s))
  }

  /** lh.n plus what the operations in progress may still log fits in the log. */
  ghost predicate Reserved(s: State) {
    |s.lh| + Sum(s.procs, Quota()) <= LOGSIZE
  }

  /** The log, the cache and the history describe the same transaction. */
  ghost predicate Stored(g: Layout, init: Disk, s: State) {
    && Committable(g, s.from, Current(s), s.lh)
    && (forall a :: a in s.dirty <==> a in s.lh)
    && SameHome(g, Current(s), Apply(init, s.hist))
  }

  /** How far commit() has come, and what the disk and a crash then keep. */
  ghost predicate OnDisk(g: Layout, init: Disk, s: State) {
    && Stored(g, init, s) && HasPlan(g, s)
    && s.done <= |Plan(g, s)| && (!s.committing ==> s.done == 0)
    && s.disk == Cut(s.from, Plan(g, s), s.done)
    && s.durable <= |s.hist|
    && (s.done > CommitPoint(s.lh) || s.lh == [] ==> s.durable == |s.hist|)
    && (s.done <= CommitPoint(s.lh) ==> SameHome(g, s.from, Committed(init, s)))
  }

  /** The writes that a crash keeps, applied in order to the image the run started from. */
  ghost function Committed(init: Disk, s: State): Disk
    requires s.durable <= |s.hist|
  {
    Apply(init, s.hist[..s.durable])
  }

  ghost predicate Ops(g: Layout, s: State) {
    forall i :: 0 <= i < |s.procs| && InOp(s.procs[i]) ==> GoodOp(g, s, s.procs[i])
  }

  ghost predicate Inv(g: Layout, init: Disk, s: State) {
    && g.size > LOGSIZE
    && History(s) && Counted(s) && Ops(g, s)
    && AllOrNothing(s) && NoLostWakeup(s) && Reserved(s) && OnDisk(g, init, s)
  }

  // ---------------------------------------------------------------- every step keeps it

  lemma SumStep(ps: seq<Proc>, i: nat, p: Proc, f: Proc -> int)
    requires i < |ps| && f(Sleeping) == f(Entering)
    ensures Sum(ps[i := p], f) == Sum(ps, f) - f(ps[i]) + f(p)
    ensures Sum(WakeAll(ps[i := p]), f) == Sum(ps[i := p], f)
  {
    SumUpdate(ps, i, p, f);
    SumSame(WakeAll(ps[i := p]), ps[i := p], f);
  }

  /** A committing process is the only one, and no operation is in progress. */
  lemma CommitterAlone(s: State, i: nat)
    requires Counted(s) && i < |s.procs| && s.procs[i].Committer?
    ensures s.committing && s.outstanding == 0
    ensures forall j :: 0 <= j < |s.procs| ==> !InOp(s.procs[j]) && (j != i ==> !s.procs[j].Committer?)
  {
    SumAtLeast(s.procs, i, CountsCommit());
    SumZero(s.procs, CountsOp());
    forall j | 0 <= j < |s.procs| ensures !InOp(s.procs[j]) && (j != i ==> !s.procs[j].Committer?) {
      assert CountsOp()(s.procs[j]) == 0;
      if j != i && s.procs[j].Committer? {
        SumUpdate(s.procs, i, Outside, CountsCommit());
        SumAtLeast(s.procs[i := Outside], j, CountsCommit());
      }
    }
  }

  lemma CountedStep(g: Layout, s: State, e: Event)
    requires Counted(s) && Enabled(g, s, e)
    ensures Counted(Do(g, s, e))
  {
    hide Plan, HasPlan, View, CommitWrites;
    var q := Do(g, s, e).procs[e.p];
    SumStep(s.procs, e.p, q, CountsOp());
    SumStep(s.procs, e.p, q, CountsCommit());
    SumAtLeast(s.procs, e.p, CountsCommit());
    SumAtLeast(s.procs, e.p, CountsOp());
    SumNonNegative(s.procs, CountsOp());
  }

  lemma OpsStep(g: Layout, s: State, e: Event)
    requires Counted(s) && Ops(g, s) && History(s) && Enabled(g, s, e)
    ensures Ops(g, Do(g, s, e))
  {
    hide Plan, HasPlan, View, CommitWrites, Sum, Cut, Counted;
    if e.DiskWrite? || e.Done? { CommitterAlone(s, e.p); }
    var t := Do(g, s, e);
    forall i | 0 <= i < |t.procs| && InOp(t.procs[i]) ensures GoodOp(g, t, t.procs[i]) {
      assert i != e.p ==> t.procs[i] == s.procs[i] && GoodOp(g, s, s.procs[i]);
    }
  }

  /** When commit() is done the whole history is durable. */
  lemma DoneIsDurable(g: Layout, init: Disk, s: State)
    requires OnDisk(g, init, s) && s.done == |Plan(g, s)|
    ensures s.durable == |s.hist|
  {
    hide Apply, View, GoodHomes, LogWrites, InstallWrites, Committable;
  }

  lemma HistoryStep(g: Layout, s: State, e: Event)
    requires Ops(g, s) && History(s) && Enabled(g, s, e)
    ensures History(Do(g, s, e))
  {
    hide Plan, HasPlan, View, CommitWrites, Cut;
    assert InOp(s.procs[e.p]) ==> GoodOp(g, s, s.procs[e.p]);
  }

  lemma AllOrNothingStep(g: Layout, s: State, e: Event)
    requires Ops(g, s) && History(s) && AllOrNothing(s) && Enabled(g, s, e)
    ensures AllOrNothing(Do(g, s, e))
  {
    hide Plan, HasPlan, View, CommitWrites, Cut;
    assert InOp(s.procs[e.p]) ==> GoodOp(g, s, s.procs[e.p]);
  }

  /** Σ quota never exceeds what begin_op reserved. */
  lemma QuotaBound(g: Layout, s: State)
    requires Counted(s) && Ops(g, s)
    ensures Sum(s.procs, Quota()) <= MAXOPBLOCKS * s.outstanding
  {
    SumScale(s.procs, Quota(), CountsOp(), MAXOPBLOCKS);
  }

  lemma ReservedStep(g: Layout, s: State, e: Event)
    requires Counted(s) && Ops(g, s) && Reserved(s) && Enabled(g, s, e)
    ensures Reserved(Do(g, s, e))
  {
    hide Plan, HasPlan, View, CommitWrites, Cut, History, Sum, GoodHomes;
    var p, q := s.procs[e.p], Do(g, s, e).procs[e.p];
    SumStep(s.procs, e.p, q, Quota());
    QuotaBound(g, s);
    assert InOp(p) ==> GoodOp(g, s, p);
    if e.LogWrite? && p.addr in p.wrote {
      assert p.wrote + {p.addr} == p.wrote;
    }
  }

  lemma NoLostWakeupStep(g: Layout, s: State, e: Event)
    requires Counted(s) && NoLostWakeup(s) && Enabled(g, s, e)
    ensures NoLostWakeup(Do(g, s, e))
  {
    hide Plan, HasPlan, View, CommitWrites, Cut, Sum;
    SumAtLeast(s.procs, e.p, CountsOp());
    if e.DiskWrite? || e.Done? { CommitterAlone(s, e.p); }
    CountedStep(g, s, e);
  }

  /** The part of the state that OnDisk speaks of. */
  ghost predicate SameStorage(s: State, t: State) {
    && t.disk == s.disk && t.from == s.from && t.done == s.done && t.dirty == s.dirty && t.lh == s.lh
    && t.hist == s.hist && t.durable == s.durable && (s.committing ==> t.committing)
  }

  lemma StorageFrame(g: Layout, init: Disk, s: State, t: State)
    requires OnDisk(g, init, s) && SameStorage(s, t)
    ensures OnDisk(g, init, t)
  {
    hide Apply, View, GoodHomes, Committable, CommitWrites, Cut;
  }

  /** log_write: the cache shows the new block, nothing reaches the disk. */
  lemma LogWriteStored(g: Layout, init: Disk, s: State, a: nat, data: Block)
    requires Stored(g, init, s) && a < g.total && !InLog(g, a)
    requires a in s.lh || (|s.lh| < LOGSIZE && |s.lh| < g.size - 1)
    ensures var t := s.(lh := if a in s.lh then s.lh else s.lh + [a], dirty := s.dirty[a := data],
                        hist := s.hist + [Write(a, data)]);
      Stored(g, init, t)
  {
    var t := s.(lh := if a in s.lh then s.lh else s.lh + [a], dirty := s.dirty[a := data],
                hist := s.hist + [Write(a, data)]);
    assert t.hist[..|t.hist| - 1] == s.hist;
    assert Current(t) == Current(s)[a := data];
    assert GoodHomes(g, t.lh);
  }

  lemma StoredHasPlan(g: Layout, init: Disk, s: State)
    requires Stored(g, init, s)
    ensures HasPlan(g, s)
  {
    hide Apply, View, GoodHomes;
  }

  /** Nothing of the transaction is on disk until its commit begins. */
  lemma NotStarted(g: Layout, s: State)
    requires HasPlan(g, s)
    ensures Cut(s.from, Plan(g, s), 0) == s.from
  {
    hide Plan, HasPlan;
    assert Plan(g, s)[..0] == [];
  }

  lemma LogWriteOnDisk(g: Layout, init: Disk, s: State, e: Event)
    requires Inv(g, init, s) && Enabled(g, s, e) && e.LogWrite?
    ensures OnDisk(g, init, Do(g, s, e))
  {
    hide Apply, View, GoodHomes, Committable, CommitWrites, Cut, Sum, SameHome;
    var p, t := s.procs[e.p], Do(g, s, e);
    assert GoodOp(g, s, p);
    OpRoom(g, s, e.p);
    LogWriteStored(g, init, s, p.addr, p.data);
    assert Stored(g, init, t);
    StoredHasPlan(g, init, t);
    NotStarted(g, s);
    NotStarted(g, t);
    assert t.hist[..t.durable] == s.hist[..s.durable];
  }

  lemma DiskWriteOnDisk(g: Layout, init: Disk, s: State, e: Event)
    requires Inv(g, init, s) && Enabled(g, s, e) && e.DiskWrite?
    ensures OnDisk(g, init, Do(g, s, e))
  {
    hide Apply, View, GoodHomes, Committable, CommitWrites, Cut, Sum, SameHome;
    CommitterAlone(s, e.p);
  }

  lemma DoneOnDisk(g: Layout, init: Disk, s: State, e: Event)
    requires Inv(g, init, s) && Enabled(g, s, e) && e.Done?
    ensures OnDisk(g, init, Do(g, s, e))
  {
    hide Apply, CommitWrites, Sum, GoodHeader;
    var t := Do(g, s, e);
    DoneIsDurable(g, init, s);
    CommitWhole(g, s.from, Current(s), s.lh);
    assert Plan(g, s)[..s.done] == Plan(g, s);
    assert Current(t) == t.from;
    assert t.hist[..t.durable] == t.hist;
    assert Stored(g, init, t);
    StoredHasPlan(g, init, t);
    NotStarted(g, t);
  }

  /** A process past the capacity test still has a slot, whoever logged blocks in between. */
  lemma OpRoom(g: Layout, s: State, i: nat)
    requires Counted(s) && Ops(g, s) && Reserved(s) && i < |s.procs| && InOp(s.procs[i])
    ensures s.outstanding >= 1 && !s.committing
    ensures |s.procs[i].wrote| < MAXOPBLOCKS ==> |s.lh| < LOGSIZE
    ensures s.procs[i].Passed? ==> s.procs[i].addr in s.lh || |s.lh| < LOGSIZE
  {
    hide Sum, GoodHomes;
    assert GoodOp(g, s, s.procs[i]);
    SumAtLeast(s.procs, i, CountsOp());
    SumAtLeast(s.procs, i, Quota());
    if s.procs[i].Passed? && s.procs[i].addr !in s.procs[i].wrote {
      assert |s.procs[i].wrote + {s.procs[i].addr}| == |s.procs[i].wrote| + 1;
    }
  }

  lemma OnDiskStep(g: Layout, init: Disk, s: State, e: Event)
    requires Inv(g, init, s) && Enabled(g, s, e)
    ensures OnDisk(g, init, Do(g, s, e))
  {
    hide Apply, View, GoodHomes, Committable, CommitWrites, Cut, Sum, SameHome, HasPlan, OnDisk;
    match e
    case LogWrite(_) => LogWriteOnDisk(g, init, s, e);
    case DiskWrite(_) => DiskWriteOnDisk(g, init, s, e);
    case Done(_) => DoneOnDisk(g, init, s, e);
    case _ => StorageFrame(g, init, s, Do(g, s, e));
  }

  /** Whatever process moves, the invariant stays. */
  lemma Step(g: Layout, init: Disk, s: State, e: Event)
    requires Inv(g, init, s) && Enabled(g, s, e)
    ensures Inv(g, init, Do(g, s, e))
  {
    hide Do, Enabled, Counted, Ops, History, AllOrNothing, Reserved, NoLostWakeup, OnDisk;
    CountedStep(g, s, e);
    OpsStep(g, s, e);
    HistoryStep(g, s, e);
    AllOrNothingStep(g, s, e);
    ReservedStep(g, s, e);
    NoLostWakeupStep(g, s, e);
    OnDiskStep(g, init, s, e);
  }

  // ---------------------------------------------------------------- whole runs

  ghost predicate Run(g: Layout, s: State, evs: seq<Event>, t: State)
    decreases |evs|
  {
    if evs == [] then s == t
    else Enabled(g, s, evs[0]) && Run(g, Do(g, s, evs[0]), evs[1..], t)
  }

  /** The state after boot has recovered the log: n processes, none in a file system call. */
  ghost function Boot(d: Disk, n: nat): State {
    State(d, d, 0, map[], [], 0, false, seq(n, _ => Outside), 0, [], [], 0)
  }

  lemma {:induction false} BootSums(n: nat, f: Proc -> int)
    requires f(Outside) == 0
    ensures Sum(seq(n, _ => Outside), f) == 0
    decreases n
  {
    if n > 0 {
      BootSums(n - 1, f);
      assert seq(n, (_: int) => Outside)[..n - 1] == seq(n - 1, (_: int) => Outside);
    }
  }

  lemma BootInv(g: Layout, d: Disk, n: nat)
    requires WellFormed(g, d) && d[g.start].w[0] == 0 && g.size > LOGSIZE
    ensures Inv(g, d, Boot(d, n))
  {
    var s := Boot(d, n);
    BootSums(n, CountsOp());
    BootSums(n, CountsCommit());
    BootSums(n, Quota());
    assert Current(s) == d;
    assert OnDisk(g, d, s) by {
      hide Sum;
      assert Stored(g, d, s);
      StoredHasPlan(g, d, s);
      NotStarted(g, s);
    }
  }

  lemma {:induction false} RunInv(g: Layout, init: Disk, s: State, evs: seq<Event>, t: State)
    requires Inv(g, init, s) && Run(g, s, evs, t)
    ensures Inv(g, init, t)
    decreases |evs|
  {
    hide Inv, Do, Enabled;
    if evs != [] {
      Step(g, init, s, evs[0]);
      RunInv(g, init, Do(g, s, evs[0]), evs[1..], t);
    }
  }

  /** A run that begins at boot on a recovered disk d. */
  ghost predicate BootRun(g: Layout, d: Disk, n: nat, evs: seq<Event>, t: State) {
    && WellFormed(g, d) && d[g.start].w[0] == 0 && g.size > LOGSIZE
    && Run(g, Boot(d, n), evs, t)
  }

  lemma BootRunInv(g: Layout, d: Disk, n: nat, evs: seq<Event>, t: State)
    requires BootRun(g, d, n, evs, t)
    ensures Inv(g, d, t)
  {
    hide Inv, Run, WellFormed;
    BootInv(g, d, n);
    RunInv(g, d, Boot(d, n), evs, t);
  }

  /** Crash safety of the whole logging system.  Stop any run at any moment, in the middle of a
      commit or not, crash recovery wherever and however often, then let it finish: the blocks
      outside the log hold exactly the first `durable` log_writes of the run, in order; no
      operation is split by that point; and none of them belongs to an operation still running. */
  lemma CrashAnywhere(g: Layout, d: Disk, n: nat, evs: seq<Event>, t: State, cuts: seq<nat>)
    requires BootRun(g, d, n, evs, t)
    ensures WellFormed(g, t.disk) && t.durable <= |t.hist| == |t.ops|
    ensures var e := Recover(g, Boots(g, t.disk, cuts));
      SameHome(g, e, Committed(d, t)) && WellFormed(g, e) && e[g.start].w[0] == 0
    ensures AllOrNothing(t)
    ensures forall i, k :: 0 <= i < |t.procs| && InOp(t.procs[i]) && 0 <= k < t.durable ==>
              t.ops[k] != t.procs[i].op
  {
    hide Run, Boots, Recover, Apply, View, Do, Enabled, WellFormed, GoodHomes, Sum, CommitWrites;
    BootRunInv(g, d, n, evs, t);
    CommitCut(g, t.from, Current(t), t.lh, t.done);
    RecoverFull(g, Boots(g, t.disk, cuts));
    forall i, k | 0 <= i < |t.procs| && InOp(t.procs[i]) && 0 <= k < t.durable
      ensures t.ops[k] != t.procs[i].op
    {
      assert GoodOp(g, t, t.procs[i]);
    }
    assert t.hist[..|t.hist|] == t.hist;
  }

  /** Every finished operation is durable once its commit is done. */
  lemma QuietIsDurable(g: Layout, d: Disk, n: nat, evs: seq<Event>, t: State)
    requires BootRun(g, d, n, evs, t) && t.outstanding == 0 && !t.committing
    ensures t.durable == |t.hist| && SameHome(g, t.disk, Apply(d, t.hist))
  {
    hide Run, Apply, View, Do, Enabled, WellFormed, GoodHomes, Sum, CommitWrites, GoodOp;
    BootRunInv(g, d, n, evs, t);
    NotStarted(g, t);
    assert t.hist[..t.durable] == t.hist;
  }

  /** While commit() runs there is no operation outstanding, so no log_write, and one committer. */
  lemma CommitAlone(g: Layout, d: Disk, n: nat, evs: seq<Event>, t: State, e: Event)
    requires BootRun(g, d, n, evs, t) && t.committing && Enabled(g, t, e)
    ensures t.outstanding == 0 && !e.Begin? && !e.Test? && !e.LogWrite? && !e.End? && !e.EndLast?
    ensures exists i :: 0 <= i < |t.procs| && t.procs[i].Committer? && forall j :: 0 <= j < |t.procs| && j != i ==> !t.procs[j].Committer?
  {
    hide Run, Do, WellFormed, OnDisk, Sum, Reserved, NoLostWakeup, History, AllOrNothing;
    BootRunInv(g, d, n, evs, t);
    SumZero(t.procs, CountsOp());
    assert CountsOp()(t.procs[e.p]) == 0;
    SumPositive(t.procs, CountsCommit());
    var i :| 0 <= i < |t.procs| && CountsCommit()(t.procs[i]) > 0;
    CommitterAlone(t, i);
  }

  /** The two panics of log_write are out of reach of an operation that has logged fewer than
      MAXOPBLOCKS blocks, even though the test is made without the lock. */
  lemma CapacityTestQuiet(g: Layout, d: Disk, n: nat, evs: seq<Event>, t: State, i: nat)
    requires BootRun(g, d, n, evs, t) && i < |t.procs| && InOp(t.procs[i])
    requires |t.procs[i].wrote| < MAXOPBLOCKS
    ensures !TestFires(g, t) && t.outstanding >= 1
  {
    hide Run, Do, Enabled, WellFormed, OnDisk, Sum, GoodOp;
    BootRunInv(g, d, n, evs, t);
    OpRoom(g, t, i);
  }

  /** When the test does fire, the log is full and every operation has used up its quota. */
  lemma TestFiresOnlyWhenFull(g: Layout, d: Disk, n: nat, evs: seq<Event>, t: State)
    requires BootRun(g, d, n, evs, t)
    ensures TestFires(g, t) <==> |t.lh| == LOGSIZE
    ensures TestFires(g, t) ==>
      forall i :: 0 <= i < |t.procs| && InOp(t.procs[i]) ==> |t.procs[i].wrote| == MAXOPBLOCKS
  {
    hide Run, Do, Enabled, WellFormed, OnDisk, Sum;
    BootRunInv(g, d, n, evs, t);
    SumNonNegative(t.procs, Quota());
    forall i | 0 <= i < |t.procs| && InOp(t.procs[i]) && TestFires(g, t)
      ensures |t.procs[i].wrote| == MAXOPBLOCKS
    {
      assert GoodOp(g, t, t.procs[i]);
      OpRoom(g, t, i);
    }
  }

  /** So within its quota an operation meets the panic only with a block that it has logged already,
      and exactly if the log is full then. */
  lemma PanicsOnlyOnAbsorption(g: Layout, d: Disk, n: nat, evs: seq<Event>, t: State, i: nat, addr: int)
    requires BootRun(g, d, n, evs, t) && i < |t.procs| && InOp(t.procs[i]) && |t.procs[i].wrote + {addr}| <= MAXOPBLOCKS
    ensures TestFires(g, t) <==> addr in t.procs[i].wrote && addr in t.lh && |t.lh| == LOGSIZE
  {
    hide Run, Do, Enabled, WellFormed, OnDisk, Sum;
    BootRunInv(g, d, n, evs, t);
    TestFiresOnlyWhenFull(g, d, n, evs, t);
    assert GoodOp(g, t, t.procs[i]);
    var w := t.procs[i].wrote;
    if addr !in w { assert |w + {addr}| == |w| + 1; }
  }

  /** The slot that the body of log_write fills exists, however stale its capacity test is. */
  lemma StaleTestHarmless(g: Layout, d: Disk, n: nat, evs: seq<Event>, t: State, i: nat)
    requires BootRun(g, d, n, evs, t) && i < |t.procs| && t.procs[i].Passed?
    ensures t.procs[i].addr in t.lh || (|t.lh| < LOGSIZE && |t.lh| < g.size - 1)
  {
    hide Run, Do, Enabled, WellFormed, OnDisk, Sum, GoodOp;
    BootRunInv(g, d, n, evs, t);
    OpRoom(g, t, i);
  }

  /** A process asleep in begin_op has someone to wake it: a committer, or an operation whose
      end_op is still to come. */
  lemma SleeperHasWaker(g: Layout, d: Disk, n: nat, evs: seq<Event>, t: State, i: nat)
    requires BootRun(g, d, n, evs, t) && i < |t.procs| && t.procs[i].Sleeping?
    ensures MustWait(t)
    ensures exists j :: 0 <= j < |t.procs| && (t.procs[j].Committer? || InOp(t.procs[j]))
  {
    hide Run, Do, Enabled, WellFormed, OnDisk, GoodOp;
    BootRunInv(g, d, n, evs, t);
    SumNonNegative(t.procs, CountsOp());
    SumPositive(t.procs, if t.committing then CountsCommit() else CountsOp());
  }

  /** The processes between begin_op and end_op. */
  ghost function InOps(ps: seq<Proc>): set<int> { set i | 0 <= i < |ps| && InOp(ps[i]) }

  lemma {:induction false} SumCounts(ps: seq<Proc>)
    ensures Sum(ps, CountsOp()) == |InOps(ps)|
  {
    if ps != [] {
      var n := |ps| - 1;
      SumCounts(ps[..n]);
      assert InOps(ps) == InOps(ps[..n]) + (if InOp(ps[n]) then {n} else {});
    } else {
      assert InOps(ps) == {};
    }
  }

  /** In every run a process that enters may begin exactly if nobody commits and the log has room for
      ten blocks of each operation in progress and of this one, besides those logged; otherwise it
      sleeps. */
  lemma BeginsIff(g: Layout, d: Disk, n: nat, evs: seq<Event>, t: State, i: nat)
    requires BootRun(g, d, n, evs, t) && i < |t.procs| && t.procs[i].Entering?
    ensures Enabled(g, t, Begin(i)) <==>
      (forall j :: 0 <= j < |t.procs| ==> !t.procs[j].Committer?) && |t.lh| + 10 * (|InOps(t.procs)| + 1) <= 30
    ensures Enabled(g, t, Wait(i)) <==> !Enabled(g, t, Begin(i))
  {
    hide Run, Do, WellFormed, OnDisk, Sum, Reserved, NoLostWakeup, History, AllOrNothing, Ops;
    BootRunInv(g, d, n, evs, t);
    SumCounts(t.procs);
    if t.committing {
      SumPositive(t.procs, CountsCommit());
      var j :| 0 <= j < |t.procs| && CountsCommit()(t.procs[j]) > 0;
      assert t.procs[j].Committer?;
    } else {
      SumZero(t.procs, CountsCommit());
      forall j | 0 <= j < |t.procs| ensures !t.procs[j].Committer? { assert CountsCommit()(t.procs[j]) == 0; }
    }
  }

  lemma {:induction false} SumPositive(ps: seq<Proc>, f: Proc -> int)
    requires Sum(ps, f) > 0
    ensures exists j :: 0 <= j < |ps| && f(ps[j]) > 0
  {
    var n := |ps| - 1;
    if f(ps[n]) <= 0 {
      SumPositive(ps[..n], f);
      var j :| 0 <= j < n && f(ps[..n][j]) > 0;
      assert f(ps[j]) > 0;
    }
  }
}
