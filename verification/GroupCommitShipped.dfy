/** Runs that meet the capacity test of log_write.  The log that mkfs lays out has LOGSIZE blocks,
    header included, one fewer than the reservation made by begin_op needs: three operations, each
    within MAXOPBLOCKS, panic the kernel, or write past the end of the log.  On a longer log too
    three operations can fill the log, and then one that logs a block again panics. */
module GroupCommitShipped {
  import opened Log
  import opened GroupCommit

  /** What mkfs writes into the super block: logstart 2, nlog 30, size 1000. */
  const SHIPPED: Layout := Layout(2, 30, 1000)
  const ZERO: Block := Block(seq(128, _ => 0))

  function Blank(g: Layout): Disk { seq(g.total, _ => ZERO) }

  lemma BlankIsEmptyLog(g: Layout)
    requires GoodLayout(g)
    ensures WellFormed(g, Blank(g)) && Blank(g)[g.start].w[0] == 0
  {
  }

  /** A disk with thirty blocks after the log. */
  ghost predicate Roomy(g: Layout) { GoodLayout(g) && g.start + g.size + 30 <= g.total }

  /** A log no larger than LOGSIZE on such a disk. */
  ghost predicate Short(g: Layout) { Roomy(g) && g.size <= LOGSIZE }

  function Home(g: Layout, i: nat): nat { g.start + g.size + i }

  lemma {:induction false} RunAppend(g: Layout, s: State, a: seq<Event>, m: State, b: seq<Event>, t: State)
    requires Run(g, s, a, m) && Run(g, m, b, t)
    ensures Run(g, s, a + b, t)
    decreases |a|
  {
    hide Do, Enabled;
    if a == [] {
      assert a + b == b;
    } else {
      RunAppend(g, Do(g, s, a[0]), a[1..], m, b, t);
      assert (a + b)[0] == a[0] && (a + b)[1..] == a[1..] + b;
    }
  }

  /** The process that makes the k-th log_write: ten by the first, then up to m by the second. */
  function Writer(m: nat, k: nat): nat { if k < 10 then 0 else if k < m then 1 else 2 }

  /** How many of the first k log_writes process p makes. */
  function Wrote(m: nat, p: nat, k: nat): nat {
    var lo, hi := if p == 0 then 0 else if p == 1 then 10 else m, if p == 0 then 10 else if p == 1 then m else 30;
    if k <= lo then 0 else if k <= hi then k - lo else if lo <= hi then hi - lo else 0
  }

  /** Three operations in progress that have logged the first k home blocks. */
  ghost predicate Filled(g: Layout, s: State, m: nat, k: nat) {
    && |s.procs| == 3 && s.outstanding == 3 && !s.committing && |s.lh| == k
    && (forall i :: 0 <= i < k ==> s.lh[i] == Home(g, i))
    && (forall p :: 0 <= p < 3 ==> s.procs[p].Active? && |s.procs[p].wrote| <= Wrote(m, p, k))
    && forall i :: 0 <= i < k ==> Home(g, i) in s.procs[Writer(m, i)].wrote
  }

  lemma Open(g: Layout, m: nat) returns (evs: seq<Event>, t: State)
    ensures Run(g, Boot(Blank(g), 3), evs, t) && Filled(g, t, m, 0)
  {
    hide Plan, HasPlan, GoodLayout;
    var s := Boot(Blank(g), 3);
    var a := Do(g, s, Call(0));
    var b := Do(g, a, Begin(0));
    var c := Do(g, b, Call(1));
    var d := Do(g, c, Begin(1));
    var e := Do(g, d, Call(2));
    t := Do(g, e, Begin(2));
    evs := [Call(0), Begin(0), Call(1), Begin(1), Call(2), Begin(2)];
    assert Run(g, e, [Begin(2)], t);
    assert Run(g, d, [Call(2), Begin(2)], t);
    assert Run(g, c, [Begin(1), Call(2), Begin(2)], t);
    assert Run(g, b, [Call(1), Begin(1), Call(2), Begin(2)], t);
    assert Run(g, a, [Begin(0), Call(1), Begin(1), Call(2), Begin(2)], t);
  }

  /** One log_write of a block not yet in the log, by a process that passes the test. */
  lemma LogOne(g: Layout, s: State, p: nat, i: nat) returns (evs: seq<Event>, t: State)
    requires Roomy(g) && i < 30
    requires p < |s.procs| && s.procs[p].Active? && |s.procs[p].wrote| < MAXOPBLOCKS
    requires s.outstanding >= 1 && !TestFires(g, s) && Home(g, i) !in s.lh
    ensures Run(g, s, evs, t)
    ensures |t.procs| == |s.procs| && t.outstanding == s.outstanding && t.committing == s.committing
    ensures t.lh == s.lh + [Home(g, i)]
    ensures t.procs[p].Active? && t.procs[p].wrote == s.procs[p].wrote + {Home(g, i)} && |t.procs[p].wrote| <= |s.procs[p].wrote| + 1
    ensures forall q :: 0 <= q < |s.procs| && q != p ==> t.procs[q] == s.procs[q]
  {
    hide Plan, HasPlan;
    var u := Do(g, s, Test(p, Home(g, i), ZERO));
    t := Do(g, u, LogWrite(p));
    evs := [Test(p, Home(g, i), ZERO), LogWrite(p)];
    assert Run(g, u, [LogWrite(p)], t);
    assert evs[1..] == [LogWrite(p)];
  }

  lemma {:induction false} Fill(g: Layout, m: nat, k: nat) returns (evs: seq<Event>, t: State)
    requires Roomy(g) && 19 <= m <= 20 && k <= m + 10 && k <= LOGSIZE && k <= g.size - 1
    ensures Run(g, Boot(Blank(g), 3), evs, t) && Filled(g, t, m, k)
    decreases k
  {
    hide Run, Do, Enabled, Boot;
    if k == 0 {
      evs, t := Open(g, m);
    } else {
      var a, s := Fill(g, m, k - 1);
      var b;
      b, t := LogOne(g, s, Writer(m, k - 1), k - 1);
      RunAppend(g, Boot(Blank(g), 3), a, s, b, t);
      evs := a + b;
    }
  }

  /** The converse of CapacityTestQuiet: on every log of at most LOGSIZE blocks some operation
      meets "too big a transaction" although its reservation is not used up. */
  lemma ShortLogPanics(g: Layout) returns (evs: seq<Event>, t: State)
    requires Short(g)
    ensures WellFormed(g, Blank(g)) && Blank(g)[g.start].w[0] == 0
    ensures Run(g, Boot(Blank(g), 3), evs, t)
    ensures |t.procs| == 3 && t.procs[2].Active? && |t.procs[2].wrote| < MAXOPBLOCKS && TestFires(g, t)
  {
    hide Run, Do, Enabled, Boot, WellFormed;
    BlankIsEmptyLog(g);
    evs, t := Fill(g, 19, if g.size <= 29 then g.size - 1 else 28);
    if g.size == 30 {
      var b, u := LogOne(g, t, 1, 28);
      RunAppend(g, Boot(Blank(g), 3), evs, t, b, u);
      evs, t := evs + b, u;
    }
  }

  /** Two processes that both pass the stale test before either appends. */
  lemma LogTwo(s: State) returns (evs: seq<Event>, t: State)
    requires Filled(SHIPPED, s, 19, 28)
    ensures Run(SHIPPED, s, evs, t) && |t.lh| == 30
  {
    hide Plan, HasPlan;
    var u := Do(SHIPPED, s, Test(1, Home(SHIPPED, 28), ZERO));
    var v := Do(SHIPPED, u, Test(2, Home(SHIPPED, 29), ZERO));
    var w := Do(SHIPPED, v, LogWrite(1));
    t := Do(SHIPPED, w, LogWrite(2));
    evs := [Test(1, Home(SHIPPED, 28), ZERO), Test(2, Home(SHIPPED, 29), ZERO), LogWrite(1), LogWrite(2)];
    assert Run(SHIPPED, w, [LogWrite(2)], t);
    assert Run(SHIPPED, v, [LogWrite(1), LogWrite(2)], t);
    assert Run(SHIPPED, u, [Test(2, Home(SHIPPED, 29), ZERO), LogWrite(1), LogWrite(2)], t);
  }

  /** The layout of mkfs can also take more blocks than the log has slots: the last slot that
      write_log fills is then the first block after the log. */
  lemma ShippedLogOverflows() returns (evs: seq<Event>, t: State)
    ensures Run(SHIPPED, Boot(Blank(SHIPPED), 3), evs, t)
    ensures |t.lh| == 30 && !InLog(SHIPPED, SHIPPED.start + |t.lh|)
  {
    hide Run, Do, Enabled, Boot;
    var a, s := Fill(SHIPPED, 19, 28);
    var b;
    b, t := LogTwo(s);
    RunAppend(SHIPPED, Boot(Blank(SHIPPED), 3), a, s, b, t);
    evs := a + b;
  }

  /** What is left of the panic on a log that is long enough: three operations use up their quotas
      and fill the log, and a log_write of a block that the operation has logged already, so within
      its quota, fires the test. */
  lemma FullLogPanics(g: Layout) returns (evs: seq<Event>, t: State)
    requires Roomy(g) && g.size > LOGSIZE
    ensures BootRun(g, Blank(g), 3, evs, t) && TestFires(g, t)
    ensures |t.procs| == 3 && t.procs[0].Active? && Home(g, 0) in t.procs[0].wrote && Home(g, 0) in t.lh
    ensures |t.procs[0].wrote + {Home(g, 0)}| <= MAXOPBLOCKS
  {
    hide Run, Do, Enabled, Boot, WellFormed;
    BlankIsEmptyLog(g);
    evs, t := Fill(g, 20, 30);
    var w := t.procs[Writer(20, 0)].wrote;
    assert Home(g, 0) in w && t.lh[0] == Home(g, 0);
    assert w + {Home(g, 0)} == w;
  }
}
