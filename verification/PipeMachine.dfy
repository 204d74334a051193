/** Any number of processes reading and writing one pipe. */
module PipeMachine {
  import opened PipeSpec

  /** What a process is doing.  Writing and Reading are on their way to the lock, at the head of the
      loop in pipewrite or piperead. */
  datatype Proc =
    | Outside
    | Writing(buf: seq<int>, i: nat) | WriterAsleep(buf: seq<int>, i: nat)
    | Reading(n: int) | ReaderAsleep(n: int)

  /** stored and taken record every byte that ever went into the ring and out of it. */
  datatype State = State(
    ring: Ring, readopen: bool, writeopen: bool, procs: seq<Proc>, killed: seq<bool>, stored: seq<int>, taken: seq<int>)

  /** kill does not take the pipe's lock: in WriteKilled and ReadKilled it comes between the test of
      the flag and the sleep or return of the process, which does not notice. */
  datatype Event =
    | CallWrite(p: nat, buf: seq<int>) | WriteStep(p: nat) | WriteKilled(p: nat)
    | CallRead(p: nat, n: int) | ReadStep(p: nat) | ReadKilled(p: nat)
    | CloseRead | CloseWrite | Kill(p: nat)

  predicate InWrite(p: Proc) { p.Writing? || p.WriterAsleep? }
  predicate InRead(p: Proc) { p.Reading? || p.ReaderAsleep? }

  ghost predicate CanWrite(s: State, p: nat) { p < |s.procs| && s.procs[p].Writing? && s.procs[p].i <= |s.procs[p].buf| }

  /** A call goes through an open descriptor, so neither end closes under a call. */
  ghost predicate Enabled(s: State, e: Event) {
    && |s.killed| == |s.procs| && Sound(s.ring)
    && match e
       case CallWrite(p, _) => p < |s.procs| && s.procs[p].Outside? && s.writeopen
       case WriteStep(p) => CanWrite(s, p)
       case WriteKilled(p) => CanWrite(s, p)
       case CallRead(p, _) => p < |s.procs| && s.procs[p].Outside? && s.readopen
       case ReadStep(p) => p < |s.procs| && s.procs[p].Reading?
       case ReadKilled(p) => p < |s.procs| && s.procs[p].Reading?
       case CloseRead => s.readopen && forall p :: 0 <= p < |s.procs| ==> !InRead(s.procs[p])
       case CloseWrite => s.writeopen && forall p :: 0 <= p < |s.procs| ==> !InWrite(s.procs[p])
       case Kill(p) => p < |s.procs|
  }

  /** wakeup(&p->nwrite) */
  function WakeWriters(ps: seq<Proc>): (r: seq<Proc>)
    ensures |r| == |ps| && forall i :: 0 <= i < |ps| ==> r[i] == if ps[i].WriterAsleep? then Writing(ps[i].buf, ps[i].i) else ps[i]
  {
    seq(|ps|, i requires 0 <= i < |ps| => if ps[i].WriterAsleep? then Writing(ps[i].buf, ps[i].i) else ps[i])
  }

  /** wakeup(&p->nread) */
  function WakeReaders(ps: seq<Proc>): (r: seq<Proc>)
    ensures |r| == |ps| && forall i :: 0 <= i < |ps| ==> r[i] == if ps[i].ReaderAsleep? then Reading(ps[i].n) else ps[i]
  {
    seq(|ps|, i requires 0 <= i < |ps| => if ps[i].ReaderAsleep? then Reading(ps[i].n) else ps[i])
  }

  /** From the lock to the return or to sleep: store what there is room for.  A writer that still has
      bytes left gives up if nobody can read or it was killed, and otherwise wakes readers and sleeps. */
  ghost function DoWrite(s: State, p: nat): State
    requires Enabled(s, WriteStep(p))
  {
    var w := s.procs[p];
    var (r, k) := Fill(s.ring, w.buf, w.i);
    var t := s.(ring := r, stored := if w.i <= k <= |w.buf| then s.stored + w.buf[w.i..k] else s.stored);
    if k >= |w.buf| then t.(procs := WakeReaders(s.procs)[p := Outside])
    else if !s.readopen || s.killed[p] then t.(procs := s.procs[p := Outside])
    else t.(procs := WakeReaders(s.procs)[p := WriterAsleep(w.buf, k)])
  }

  ghost function DoRead(s: State, p: nat): State
    requires Enabled(s, ReadStep(p))
  {
    var n := s.procs[p].n;
    if Empty(s.ring) && s.writeopen then
      s.(procs := s.procs[p := if s.killed[p] then Outside else ReaderAsleep(n)])
    else
      var (r, out) := Drain(s.ring, n, []);
      s.(ring := r, taken := s.taken + out, procs := WakeWriters(s.procs)[p := Outside])
  }

  /** kill sets the flag and wakes the process if it sleeps. */
  function Wake(p: Proc): Proc {
    match p
    case WriterAsleep(buf, i) => Writing(buf, i)
    case ReaderAsleep(n) => Reading(n)
    case _ => p
  }

  ghost function Do(s: State, e: Event): State
    requires Enabled(s, e)
  {
    match e
    case CallWrite(p, buf) => s.(procs := s.procs[p := Writing(buf, 0)])
    case WriteStep(p) => DoWrite(s, p)
    case WriteKilled(p) => DoWrite(s, p).(killed := s.killed[p := true])
    case CallRead(p, n) => s.(procs := s.procs[p := Reading(n)])
    case ReadStep(p) => DoRead(s, p)
    case ReadKilled(p) => DoRead(s, p).(killed := s.killed[p := true])
    case CloseRead => s.(readopen := false, procs := WakeWriters(s.procs))
    case CloseWrite => s.(writeopen := false, procs := WakeReaders(s.procs))
    case Kill(p) => s.(killed := s.killed[p := true], procs := s.procs[p := Wake(s.procs[p])])
  }

  /** A killed process is not left asleep: it goes on with its call where it was. */
  lemma KillWakes(s: State, p: nat)
    requires Enabled(s, Kill(p))
    ensures var t := Do(s, Kill(p));
      && t.killed[p] && !t.procs[p].WriterAsleep? && !t.procs[p].ReaderAsleep?
      && (InWrite(s.procs[p]) ==> t.procs[p] == Writing(s.procs[p].buf, s.procs[p].i))
      && (InRead(s.procs[p]) ==> t.procs[p] == Reading(s.procs[p].n))
      && t == s.(killed := t.killed, procs := t.procs)
      && forall q :: 0 <= q < |s.procs| && q != p ==> t.procs[q] == s.procs[q] && t.killed[q] == s.killed[q]
  {
  }

  // ---------------------------------------------------------------- invariants

  /** Bytes stored and not yet taken, oldest first. */
  ghost function Pending(s: State): seq<int> {
    if |s.taken| <= |s.stored| then s.stored[|s.taken|..] else []
  }

  /** What has been taken is the beginning of what has been stored, and the ring holds the rest. */
  ghost predicate Fifo(s: State) { s.taken <= s.stored && Holds(s.ring, Pending(s)) }

  ghost predicate Calls(s: State) {
    && |s.killed| == |s.procs|
    && (forall p :: 0 <= p < |s.procs| && InWrite(s.procs[p]) ==> s.writeopen && s.procs[p].i <= |s.procs[p].buf|)
    && (forall p :: 0 <= p < |s.procs| && InRead(s.procs[p]) ==> s.readopen)
  }

  /** A sleeping writer has a full ring before it and a reader's end open. */
  ghost predicate WritersOk(s: State) {
    forall p :: 0 <= p < |s.procs| && s.procs[p].WriterAsleep? ==> Full(s.ring) && s.readopen
  }

  /** A sleeping reader has an empty ring before it and a writer's end open. */
  ghost predicate ReadersOk(s: State) {
    forall p :: 0 <= p < |s.procs| && s.procs[p].ReaderAsleep? ==> Empty(s.ring) && s.writeopen
  }

  ghost predicate Inv(s: State) { Fifo(s) && Calls(s) && WritersOk(s) }

  lemma WriteFifo(s: State, p: nat)
    requires Inv(s) && Enabled(s, WriteStep(p))
    ensures var w := s.procs[p]; var (r, k) := Fill(s.ring, w.buf, w.i);
      && w.i <= k <= |w.buf| && Fifo(DoWrite(s, p)) && DoWrite(s, p).ring == r
      && (k < |w.buf| ==> Full(r)) && (w.i < |w.buf| && !Full(s.ring) ==> w.i < k && !Empty(r))
      && (k == w.i || Full(s.ring) ==> r == s.ring)
      && (Empty(s.ring) ==> (k < |w.buf| <==> |w.buf| - w.i > PIPESIZE))
  {
    hide Holds, Fill, WakeReaders;
    var w, q := s.procs[p], Pending(s);
    FillHolds(s.ring, q, w.buf, w.i);
    var (r, k) := Fill(s.ring, w.buf, w.i);
    Level(s.ring, q);
    Level(r, q + w.buf[w.i..k]);
    HoldsSize(s.ring, q);
    assert s.stored == s.taken + q;
    assert DoWrite(s, p).stored == s.taken + (q + w.buf[w.i..k]);
    assert Pending(DoWrite(s, p)) == q + w.buf[w.i..k];
    FillNone(s.ring, w.buf, w.i);
  }

  lemma FillNone(r: Ring, buf: seq<int>, i: nat)
    requires Sound(r)
    ensures Fill(r, buf, i).1 >= i && (Fill(r, buf, i).1 == i ==> Fill(r, buf, i).0 == r)
    decreases |buf| - i
  {
    if i < |buf| && !Full(r) { FillNone(Put(r, buf[i]), buf, i + 1); }
  }

  lemma ReadFifo(s: State, p: nat)
    requires Inv(s) && Enabled(s, ReadStep(p))
    ensures Fifo(DoRead(s, p))
    ensures Empty(s.ring) ==> Empty(DoRead(s, p).ring)
  {
    hide Holds, Drain, WakeWriters, Pending, Sound, Full, Calls, WritersOk;
    assert Sound(s.ring);
    if !(Empty(s.ring) && s.writeopen) {
      Taken(s, DoRead(s, p), s.procs[p].n);
    } else {
      SameFifo(s, DoRead(s, p));
    }
  }

  /** What is drained is the oldest of what is on the way. */
  lemma Taken(s: State, t: State, n: int)
    requires Fifo(s) && Sound(s.ring) && t.ring == Drain(s.ring, n, []).0 && t.stored == s.stored && t.taken == s.taken + Drain(s.ring, n, []).1
    ensures Fifo(t) && (Empty(s.ring) ==> Empty(t.ring))
  {
    hide Holds, Drain, Sound, Full, Empty;
    var q := Pending(s);
    DrainHolds(s.ring, q, n, []);
    Level(s.ring, q);
    var (r, out) := Drain(s.ring, n, []);
    var k := |out|;
    assert s.stored == s.taken + q && out == q[..k];
    assert t.taken <= s.stored && Pending(t) == q[k..];
    Level(r, q[k..]);
  }

  lemma CallsStep(s: State, e: Event)
    requires Inv(s) && Enabled(s, e)
    ensures Calls(Do(s, e))
  {
    hide Fifo, WritersOk, Fill, Drain, WakeWriters, WakeReaders, Full, Empty, Sound;
    if e.WriteStep? || e.WriteKilled? { WriteFifo(s, e.p); }
  }

  lemma WritersStep(s: State, e: Event)
    requires Inv(s) && Enabled(s, e)
    ensures WritersOk(Do(s, e))
  {
    hide Fifo, Calls, Fill, Drain, WakeWriters, WakeReaders, Full, Empty, Sound;
    if e.WriteStep? || e.WriteKilled? { WriteFifo(s, e.p); }
  }

  /** Every step keeps the bytes in order and no sleeping writer misses its wakeup. */
  lemma Step(s: State, e: Event)
    requires Inv(s) && Enabled(s, e)
    ensures Inv(Do(s, e))
  {
    hide Fifo, Calls, WritersOk, DoWrite, DoRead;
    CallsStep(s, e);
    WritersStep(s, e);
    if e.WriteStep? || e.WriteKilled? {
      WriteFifo(s, e.p);
      SameFifo(DoWrite(s, e.p), Do(s, e));
    } else if e.ReadStep? || e.ReadKilled? {
      ReadFifo(s, e.p);
      SameFifo(DoRead(s, e.p), Do(s, e));
    } else {
      SameFifo(s, Do(s, e));
    }
  }

  lemma SameFifo(s: State, t: State)
    requires Fifo(s) && t.ring == s.ring && t.stored == s.stored && t.taken == s.taken
    ensures Fifo(t)
  {
  }

  /** The one step that strands a sleeping reader: a killed writer fills the ring, has bytes left and
      gives up, and on that way out nobody wakes the reader. */
  ghost predicate Strands(s: State, e: Event) {
    && (e.WriteStep? || e.WriteKilled?) && e.p < |s.procs| && s.procs[e.p].Writing? && e.p < |s.killed| && s.killed[e.p]
    && |s.procs[e.p].buf| - s.procs[e.p].i > PIPESIZE
    && exists p :: 0 <= p < |s.procs| && s.procs[p].ReaderAsleep?
  }

  /** From a state where no reader sleeps before bytes, a step leads to one where some reader does
      exactly if a killed writer gives up in the middle of a write that a sleeping reader waits for. */
  lemma StrandedIff(s: State, e: Event)
    requires Inv(s) && ReadersOk(s) && Enabled(s, e)
    ensures ReadersOk(Do(s, e)) <==> !Strands(s, e)
  {
    hide Fifo, Fill, Drain, WakeWriters, WakeReaders, Full, Empty;
    if e.WriteStep? || e.WriteKilled? {
      WriteStranded(s, e.p);
      assert Strands(s, WriteKilled(e.p)) <==> Strands(s, WriteStep(e.p));
    } else if e.ReadStep? || e.ReadKilled? {
      ReadFifo(s, e.p);
    }
  }

  lemma WriteStranded(s: State, p: nat)
    requires Inv(s) && ReadersOk(s) && Enabled(s, WriteStep(p))
    ensures ReadersOk(DoWrite(s, p)) <==> !Strands(s, WriteStep(p))
  {
    hide Fifo, Fill, WakeReaders, Full, Empty;
    WriteFifo(s, p);
    var w, t := s.procs[p], DoWrite(s, p);
    if Strands(s, WriteStep(p)) {
      var a :| 0 <= a < |s.procs| && s.procs[a].ReaderAsleep?;
      assert Empty(s.ring) && s.readopen;
      EmptyNotFull(s.ring);
      assert t.procs[a].ReaderAsleep? && !Empty(t.ring);
    }
  }

  lemma EmptyNotFull(r: Ring)
    requires Sound(r)
    ensures Empty(r) ==> !Full(r)
  {
  }

  // ---------------------------------------------------------------- runs

  ghost predicate Possible(s: State, es: seq<Event>)
    decreases |es|
  {
    es == [] || (Enabled(s, es[0]) && Possible(Do(s, es[0]), es[1..]))
  }

  ghost function After(s: State, es: seq<Event>): State
    requires Possible(s, es)
    decreases |es|
  {
    if es == [] then s else After(Do(s, es[0]), es[1..])
  }

  /** After pipealloc, whatever the page held. */
  ghost function Start(data: seq<int>, n: nat): State {
    State(Ring(data, 0, 0), true, true, seq(n, _ => Outside), seq(n, _ => false), [], [])
  }

  /** In every run of any number of processes: bytes come out in the order they went in, at most
      PIPESIZE are on the way, and a sleeping writer has a full ring and an open read end. */
  lemma {:induction false} Runs(s: State, es: seq<Event>)
    requires Inv(s) && Possible(s, es)
    ensures Inv(After(s, es))
    decreases |es|
  {
    hide Inv, Enabled, Do;
    if es != [] {
      Step(s, es[0]);
      Runs(Do(s, es[0]), es[1..]);
    }
  }

  lemma FromStart(data: seq<int>, n: nat, es: seq<Event>)
    requires |data| == PIPESIZE && Possible(Start(data, n), es)
    ensures var t := After(Start(data, n), es);
      && t.taken <= t.stored && |t.stored| - |t.taken| <= PIPESIZE
      && forall p :: 0 <= p < |t.procs| && t.procs[p].WriterAsleep? ==> |t.stored| - |t.taken| == PIPESIZE && t.readopen
  {
    var s := Start(data, n);
    assert Holds(s.ring, []);
    assert Inv(s);
    var t := After(s, es);
    Runs(s, es);
    Level(t.ring, Pending(t));
  }

  /** No writer of the run is killed in the middle of a write that a sleeping reader waits for. */
  ghost predicate Calm(s: State, es: seq<Event>)
    requires Possible(s, es)
    decreases |es|
  {
    es != [] ==> !Strands(s, es[0]) && Calm(Do(s, es[0]), es[1..])
  }

  /** In calm runs a sleeping reader has an empty ring and an open write end. */
  lemma {:induction false} CalmRuns(s: State, es: seq<Event>)
    requires Inv(s) && ReadersOk(s) && Possible(s, es) && Calm(s, es)
    ensures ReadersOk(After(s, es))
    decreases |es|
  {
    hide Inv, Enabled, Do, ReadersOk, Strands;
    if es != [] {
      Step(s, es[0]);
      StrandedIff(s, es[0]);
      CalmRuns(Do(s, es[0]), es[1..]);
    }
  }

  /** The run that strands a reader: it sleeps on an empty pipe, a writer of 513 bytes is killed
      before it gets the lock, and the reader stays asleep before a full pipe. */
  lemma StrandedRun(data: seq<int>, buf: seq<int>) returns (es: seq<Event>)
    requires |data| == PIPESIZE && |buf| == PIPESIZE + 1
    ensures Possible(Start(data, 2), es)
    ensures var t := After(Start(data, 2), es);
      |t.procs| == 2 && t.procs[0].ReaderAsleep? && |t.stored| - |t.taken| == PIPESIZE && t.writeopen
  {
    hide Fill, WakeReaders;
    var e0, e1, e2, e3, e4 := CallRead(0, 1), ReadStep(0), CallWrite(1, buf), Kill(1), WriteStep(1);
    es := [e0, e1, e2, e3, e4];
    var s0 := Start(data, 2);
    var s1 := Do(s0, e0);
    var s2 := Do(s1, e1);
    var s3 := Do(s2, e2);
    var s4 := Do(s3, e3);
    assert s4 == State(s0.ring, true, true, [ReaderAsleep(1), Writing(buf, 0)], [false, true], [], []);
    assert Holds(s4.ring, []);
    FillHolds(s4.ring, [], buf, 0);
    assert Enabled(s4, e4);
    var s5 := Do(s4, e4);
    FiveSteps(s0, es, s1, s2, s3, s4, s5);
  }

  lemma FiveSteps(s0: State, es: seq<Event>, s1: State, s2: State, s3: State, s4: State, s5: State)
    requires |es| == 5 && Enabled(s0, es[0]) && s1 == Do(s0, es[0]) && Enabled(s1, es[1]) && s2 == Do(s1, es[1])
    requires Enabled(s2, es[2]) && s3 == Do(s2, es[2]) && Enabled(s3, es[3]) && s4 == Do(s3, es[3])
    requires Enabled(s4, es[4]) && s5 == Do(s4, es[4])
    ensures Possible(s0, es) && After(s0, es) == s5
  {
    hide Enabled, Do;
    var a, b, c, d := es[1..], es[1..][1..], es[1..][1..][1..], es[1..][1..][1..][1..];
    assert a[0] == es[1] && b[0] == es[2] && c[0] == es[3] && d[0] == es[4] && d[1..] == [];
    assert Possible(s5, d[1..]) && Possible(s4, d) && Possible(s3, c) && Possible(s2, b) && Possible(s1, a);
    assert After(s4, d) == s5 && After(s3, c) == s5 && After(s2, b) == s5 && After(s1, a) == s5;
  }
}
