/** The disk driver of ide.c as an asynchronous machine, and the one-step driver of memide.c that it
    must look like to its callers. */
module IdeSpec {

  type Block = seq<int>
  type Key = (int, int)                // disk and block number

  datatype Buf = Buf(dev: int, blockno: int, valid: bool, dirty: bool, data: Block)

  function KeyOf(b: Buf): Key { (b.dev, b.blockno) }
  function OnDisk(disk: map<Key, Block>, k: Key): Block { if k in disk then disk[k] else [] }

  /** There is something for iderw to do. */
  predicate Pending(b: Buf) { b.dirty || !b.valid }

  // ---------------------------------------------------------------- memide.c

  /** iderw of memide.c: the buffer and the disk afterwards. */
  function MemBuf(b: Buf, disk: map<Key, Block>): Buf {
    if b.dirty then b.(dirty := false, valid := true) else b.(data := OnDisk(disk, KeyOf(b)), valid := true)
  }

  function MemDisk(b: Buf, disk: map<Key, Block>): map<Key, Block> {
    if b.dirty then disk[KeyOf(b) := b.data] else disk
  }

  // ---------------------------------------------------------------- ide.c

  /** What idestart hands to the device: for a write the data goes along. */
  datatype Command = NoCommand | ReadBlock(k: Key) | WriteBlock(k: Key, data: Block)

  function CommandFor(b: Buf): Command {
    if b.dirty then WriteBlock(KeyOf(b), b.data) else ReadBlock(KeyOf(b))
  }

  /** The disk once the device, which makes no errors, has carried out the command. */
  function Carried(c: Command, disk: map<Key, Block>): map<Key, Block> {
    if c.WriteBlock? then disk[c.k := c.data] else disk
  }

  /** What the device gives back for the command. */
  function Fetched(c: Command, disk: map<Key, Block>): Block {
    if c.ReadBlock? then OnDisk(disk, c.k) else []
  }

  /** ideintr on the buffer that was at the head of the queue. */
  function Served(b: Buf, c: Command, disk: map<Key, Block>): Buf {
    b.(data := if b.dirty then b.data else Fetched(c, disk), valid := true, dirty := false)
  }

  /** Where a buffer is: with its holder, in iderw, or in iderw and already served.  was is the buffer
      when iderw was called, and seen the disk just before it was served. */
  datatype Status = Out | Waiting(was: Buf) | Done(was: Buf, seen: map<Key, Block>)

  datatype State = State(bufs: seq<Buf>, disk: map<Key, Block>, queue: seq<int>, cmd: Command, at: seq<Status>)

  datatype Event =
    | Call(b: nat)                     // iderw up to its wait
    | Interrupt                        // the device finishes, and ideintr runs
    | Return(b: nat)                   // iderw finds its request done
    | Holder(b: nat, buf: Buf)         // the holder of the buffer's lock changes it

  predicate Enabled(s: State, e: Event) {
    && |s.at| == |s.bufs|
    && match e
       case Call(b) => b < |s.bufs| && s.at[b].Out? && Pending(s.bufs[b])
       case Interrupt => s.queue == [] || 0 <= s.queue[0] < |s.bufs|
       case Return(b) => b < |s.bufs| && !s.at[b].Out? && !Pending(s.bufs[b])
       case Holder(b, _) => b < |s.bufs| && s.at[b].Out?
  }

  function Start(bufs: seq<Buf>, queue: seq<int>): Command {
    if queue != [] && 0 <= queue[0] < |bufs| then CommandFor(bufs[queue[0]]) else NoCommand
  }

  function Do(s: State, e: Event): State
    requires Enabled(s, e)
  {
    match e
    case Call(b) =>
      var queue := s.queue + [b];
      s.(queue := queue, at := s.at[b := Waiting(s.bufs[b])],
         cmd := if queue[0] == b then CommandFor(s.bufs[b]) else s.cmd)
    case Interrupt =>
      if s.queue == [] then s else
        var b := s.queue[0];
        var bufs := s.bufs[b := Served(s.bufs[b], s.cmd, s.disk)];
        s.(bufs := bufs, disk := Carried(s.cmd, s.disk), queue := s.queue[1..], cmd := Start(bufs, s.queue[1..]),
           at := s.at[b := if s.at[b].Waiting? then Done(s.at[b].was, s.disk) else s.at[b]])
    case Return(b) => s.(at := s.at[b := Out])
    case Holder(b, buf) => s.(bufs := s.bufs[b := buf])
  }

  // ---------------------------------------------------------------- invariant

  ghost predicate NoRepeats(a: seq<int>) { forall i, j :: 0 <= i < j < |a| ==> a[i] != a[j] }

  /** A buffer in iderw is as its caller left it until it is served, and then as memide leaves it. */
  ghost predicate BufOk(s: State, b: int)
    requires 0 <= b < |s.bufs| == |s.at|
  {
    match s.at[b]
    case Out => b !in s.queue
    case Waiting(was) => b in s.queue && s.bufs[b] == was && Pending(was)
    case Done(was, seen) => b !in s.queue && s.bufs[b] == MemBuf(was, seen)
  }

  ghost predicate Inv(s: State) {
    && |s.at| == |s.bufs| && NoRepeats(s.queue) && (forall i :: 0 <= i < |s.queue| ==> 0 <= s.queue[i] < |s.bufs|)
    && (forall b :: 0 <= b < |s.bufs| ==> BufOk(s, b))
    && s.cmd == Start(s.bufs, s.queue)
  }

  lemma CallStep(s: State, b: nat)
    requires Inv(s) && Enabled(s, Call(b))
    ensures Inv(Do(s, Call(b)))
  {
    var t := Do(s, Call(b));
    assert BufOk(s, b);
    assert t.queue[|s.queue|] == b;
    forall x | 0 <= x < |t.bufs| ensures BufOk(t, x) { assert BufOk(s, x); }
    forall i, j | 0 <= i < j < |t.queue| ensures t.queue[i] != t.queue[j] { assert s.queue[i] in s.queue; }
    assert s.queue != [] ==> t.queue[0] == s.queue[0] && s.queue[0] in s.queue;
  }

  /** The buffer at the head of the queue waits, and after its interrupt it does not. */
  lemma HeadWaits(s: State)
    requires Inv(s) && s.queue != []
    ensures 0 <= s.queue[0] < |s.bufs| && s.at[s.queue[0]].Waiting? && s.queue[0] !in s.queue[1..]
    ensures forall x :: x in s.queue[1..] <==> x in s.queue && x != s.queue[0]
    ensures Served(s.bufs[s.queue[0]], s.cmd, s.disk) == MemBuf(s.bufs[s.queue[0]], s.disk)
    ensures Carried(s.cmd, s.disk) == MemDisk(s.bufs[s.queue[0]], s.disk)
  {
    var b := s.queue[0];
    assert b in s.queue && BufOk(s, b);
    assert s.queue == [b] + s.queue[1..];
    forall x | x in s.queue[1..] ensures x != b {
      var i :| 0 <= i < |s.queue| - 1 && s.queue[1..][i] == x;
      assert s.queue[i + 1] == x;
    }
  }

  lemma InterruptStep(s: State)
    requires Inv(s) && Enabled(s, Interrupt)
    ensures Inv(Do(s, Interrupt))
  {
    hide MemBuf, Served, Carried;
    if s.queue != [] {
      HeadWaits(s);
      var b, t := s.queue[0], Do(s, Interrupt);
      assert BufOk(s, b);
      assert s.queue == [b] + t.queue;
      forall x | 0 <= x < |t.bufs| ensures BufOk(t, x) { assert BufOk(s, x); }
      forall i | 0 <= i < |t.queue| ensures 0 <= t.queue[i] < |t.bufs| { assert t.queue[i] == s.queue[i + 1]; }
      forall i, j | 0 <= i < j < |t.queue| ensures t.queue[i] != t.queue[j] { assert t.queue[i] == s.queue[i + 1] && t.queue[j] == s.queue[j + 1]; }
    }
  }

  lemma OutStep(s: State, e: Event)
    requires Inv(s) && Enabled(s, e) && (e.Return? || e.Holder?)
    ensures Inv(Do(s, e))
  {
    var t := Do(s, e);
    assert BufOk(s, e.b);
    forall x | 0 <= x < |t.bufs| ensures BufOk(t, x) { assert BufOk(s, x); }
    assert s.queue != [] ==> s.queue[0] in s.queue;
  }

  lemma Step(s: State, e: Event)
    requires Inv(s) && Enabled(s, e)
    ensures Inv(Do(s, e))
  {
    hide Inv, Enabled, Do;
    match e
    case Call(b) => CallStep(s, b);
    case Interrupt => InterruptStep(s);
    case Return(_) => OutStep(s, e);
    case Holder(_, _) => OutStep(s, e);
  }

  // ---------------------------------------------------------------- refinement

  /** What a caller of the synchronous driver can do. */
  datatype MemEvent = Rw(b: int) | Change(b: int, buf: Buf)

  datatype MemState = MemState(bufs: seq<Buf>, disk: map<Key, Block>)

  function MemDo(m: MemState, e: MemEvent): MemState {
    if !(0 <= e.b < |m.bufs|) then m else
      match e
      case Rw(b) => MemState(m.bufs[b := MemBuf(m.bufs[b], m.disk)], MemDisk(m.bufs[b], m.disk))
      case Change(b, buf) => m.(bufs := m.bufs[b := buf])
  }

  function MemRun(m: MemState, es: seq<MemEvent>): MemState {
    if es == [] then m else MemDo(MemRun(m, es[..|es| - 1]), es[|es| - 1])
  }

  /** The buffers and the disk, without the queue and the device. */
  function Abs(s: State): MemState { MemState(s.bufs, s.disk) }

  /** What an event of the asynchronous driver is to the synchronous one: nothing, or one call. */
  function Seen(s: State, e: Event): seq<MemEvent> {
    match e
    case Interrupt => if s.queue == [] then [] else [Rw(s.queue[0])]
    case Holder(b, buf) => [Change(b, buf)]
    case _ => []
  }

  lemma StepRefines(s: State, e: Event)
    requires Inv(s) && Enabled(s, e)
    ensures Abs(Do(s, e)) == MemRun(Abs(s), Seen(s, e))
  {
    hide MemBuf, MemDisk, Served, Carried;
    MemOne(Abs(s), Seen(s, e));
    if e.Interrupt? && s.queue != [] { HeadWaits(s); }
  }

  lemma MemOne(m: MemState, es: seq<MemEvent>)
    requires |es| <= 1
    ensures MemRun(m, es) == if es == [] then m else MemDo(m, es[0])
  {
    if es != [] { assert es[..|es| - 1] == []; }
  }

  lemma {:induction false} MemConcat(m: MemState, a: seq<MemEvent>, b: seq<MemEvent>)
    ensures MemRun(m, a + b) == MemRun(MemRun(m, a), b)
  {
    if b == [] {
      assert a + b == a;
    } else {
      MemConcat(m, a, b[..|b| - 1]);
      assert (a + b)[..|a + b| - 1] == a + b[..|b| - 1];
    }
  }

  ghost predicate Possible(s: State, es: seq<Event>)
    decreases |es|
  {
    es == [] || (Enabled(s, es[0]) && Possible(Do(s, es[0]), es[1..]))
  }

  ghost function After(s: State, es: seq<Event>): State
    requires Possible(s, es)
    decreases |es|
  {
    if es == [] then s else After(Do(s, es[0]), es[1..])
  }

  /** The run as the synchronous driver would have it: requests one at a time, as they are served. */
  ghost function Trace(s: State, es: seq<Event>): seq<MemEvent>
    requires Possible(s, es)
    decreases |es|
  {
    if es == [] then [] else Seen(s, es[0]) + Trace(Do(s, es[0]), es[1..])
  }

  /** In every run the buffers and the disk are what the synchronous driver makes of the same
      requests, in the order of the calls, each served once. */
  lemma {:induction false} Refines(s: State, es: seq<Event>)
    requires Inv(s) && Possible(s, es)
    ensures Inv(After(s, es)) && Abs(After(s, es)) == MemRun(Abs(s), Trace(s, es))
    decreases |es|
  {
    hide Inv, Enabled, Do, Seen, MemRun;
    if es == [] {
      MemOne(Abs(s), []);
    } else {
      Step(s, es[0]);
      StepRefines(s, es[0]);
      Refines(Do(s, es[0]), es[1..]);
      MemConcat(Abs(s), Seen(s, es[0]), Trace(Do(s, es[0]), es[1..]));
    }
  }

  // ---------------------------------------------------------------- every run of the driver

  /** The driver starts idle. */
  function Idle(bufs: seq<Buf>, disk: map<Key, Block>): State {
    State(bufs, disk, [], NoCommand, seq(|bufs|, _ => Out))
  }

  lemma IdleInv(bufs: seq<Buf>, disk: map<Key, Block>)
    ensures Inv(Idle(bufs, disk))
  {
    var s := Idle(bufs, disk);
    forall b | 0 <= b < |bufs| ensures BufOk(s, b) {}
  }

  lemma {:induction false} LastStep(s: State, es: seq<Event>)
    requires Possible(s, es) && es != []
    ensures var n := |es| - 1; Possible(s, es[..n]) && Enabled(After(s, es[..n]), es[n]) && After(s, es) == Do(After(s, es[..n]), es[n])
    decreases |es|
  {
    hide Enabled, Do;
    var n := |es| - 1;
    if n == 0 {
      assert es[..0] == [] && es[1..] == [];
    } else {
      LastStep(Do(s, es[0]), es[1..]);
      assert es[1..][..n - 1] == es[..n][1..];
    }
  }

  /** Event k of the run is the interrupt that serves buffer b, which was then was, on the disk seen. */
  ghost predicate ServedAt(s: State, es: seq<Event>, k: nat, b: int, was: Buf, seen: map<Key, Block>) {
    && k < |es| && es[k].Interrupt? && Possible(s, es[..k])
    && var m := After(s, es[..k]); m.queue != [] && m.queue[0] == b && 0 <= b < |m.bufs| && m.bufs[b] == was && m.disk == seen
  }

  /** A buffer is done because this interrupt served it, or it was done before. */
  lemma DoneStep(s: State, e: Event, b: nat)
    requires Inv(s) && Enabled(s, e) && b < |Do(s, e).at| && Do(s, e).at[b].Done?
    ensures b < |s.at| == |s.bufs|
    ensures if e.Interrupt? && s.queue != [] && s.queue[0] == b then Do(s, e).at[b] == Done(s.bufs[b], s.disk) else s.at[b] == Do(s, e).at[b]
  {
    hide MemBuf, Served, Carried;
    if e.Interrupt? && s.queue != [] { HeadWaits(s); assert BufOk(s, s.queue[0]); }
  }

  lemma {:induction false} DoneWasServed(s: State, es: seq<Event>, b: nat) returns (k: nat)
    requires Inv(s) && Possible(s, es) && (forall x :: 0 <= x < |s.at| ==> !s.at[x].Done?)
    requires b < |After(s, es).at| && After(s, es).at[b].Done?
    ensures ServedAt(s, es, k, b, After(s, es).at[b].was, After(s, es).at[b].seen)
    decreases |es|
  {
    hide Inv, Enabled, Do, MemRun, Abs;
    LastStep(s, es);
    var n := |es| - 1;
    var a, e := es[..n], es[n];
    var m := After(s, a);
    Refines(s, a);
    DoneStep(m, e, b);
    if e.Interrupt? && m.queue != [] && m.queue[0] == b {
      k := n;
    } else {
      k := DoneWasServed(s, a, b);
      assert es[..k] == a[..k] && es[k] == a[k];
    }
  }

  /** In every run, when iderw returns, an earlier interrupt served its request, and the buffer is what
      memide's one step makes of the buffer and the disk of that moment. */
  lemma ReturnsServed(bufs: seq<Buf>, disk: map<Key, Block>, es: seq<Event>, b: nat) returns (k: nat, was: Buf, seen: map<Key, Block>)
    requires Possible(Idle(bufs, disk), es) && Enabled(After(Idle(bufs, disk), es), Return(b))
    ensures ServedAt(Idle(bufs, disk), es, k, b, was, seen)
    ensures After(Idle(bufs, disk), es).bufs[b] == MemBuf(was, seen) && b !in After(Idle(bufs, disk), es).queue
  {
    hide Possible, After, ServedAt, MemBuf, MemRun;
    var s := Idle(bufs, disk);
    IdleInv(bufs, disk);
    Refines(s, es);
    var t := After(s, es);
    assert BufOk(t, b);
    was, seen := t.at[b].was, t.at[b].seen;
    k := DoneWasServed(s, es, b);
  }

  /** The buffers of the calls of a run, in order, and those of the requests that memide would see. */
  function Called(es: seq<Event>): seq<int> {
    if es == [] then [] else (if es[0].Call? then [es[0].b as int] else []) + Called(es[1..])
  }

  function Requested(ms: seq<MemEvent>): seq<int> {
    if ms == [] then [] else (if ms[0].Rw? then [ms[0].b] else []) + Requested(ms[1..])
  }

  lemma SeenFirst(x: seq<MemEvent>, ms: seq<MemEvent>)
    requires |x| <= 1
    ensures Requested(x + ms) == (if x != [] && x[0].Rw? then [x[0].b] else []) + Requested(ms)
  {
    if x == [] { assert x + ms == ms; } else { assert (x + ms)[1..] == ms; }
  }

  lemma StepOrder(s: State, e: Event)
    requires Enabled(s, e)
    ensures s.queue + (if e.Call? then [e.b as int] else []) == (if e.Interrupt? && s.queue != [] then [s.queue[0]] else []) + Do(s, e).queue
  {
    hide MemBuf, Served, Carried;
  }

  lemma Regroup(q: seq<int>, x: seq<int>, c: seq<int>, y: seq<int>, q1: seq<int>, r: seq<int>, q2: seq<int>)
    requires q + x == y + q1 && q1 + c == r + q2
    ensures q + (x + c) == (y + r) + q2
  {
    assert q + (x + c) == (q + x) + c == (y + q1) + c == y + (q1 + c) == y + (r + q2);
  }

  lemma {:induction false} InOrder(s: State, es: seq<Event>)
    requires Possible(s, es)
    ensures s.queue + Called(es) == Requested(Trace(s, es)) + After(s, es).queue
    decreases |es|
  {
    hide Do, Enabled;
    if es != [] {
      var e, t, rest := es[0], Do(s, es[0]), es[1..];
      InOrder(t, rest);
      SeenFirst(Seen(s, e), Trace(t, rest));
      StepOrder(s, e);
      Regroup(s.queue, if e.Call? then [e.b as int] else [], Called(rest), if e.Interrupt? && s.queue != [] then [s.queue[0]] else [],
              t.queue, Requested(Trace(t, rest)), After(t, rest).queue);
    }
  }

  /** In every run requests are served in the order of their calls, each once, and those not served
      yet are in the queue, none twice. */
  lemma FirstInFirstOut(bufs: seq<Buf>, disk: map<Key, Block>, es: seq<Event>)
    requires Possible(Idle(bufs, disk), es)
    ensures Called(es) == Requested(Trace(Idle(bufs, disk), es)) + After(Idle(bufs, disk), es).queue
    ensures NoRepeats(After(Idle(bufs, disk), es).queue)
  {
    hide Possible, After, Trace, Called, Requested, MemRun;
    IdleInv(bufs, disk);
    Refines(Idle(bufs, disk), es);
    InOrder(Idle(bufs, disk), es);
    assert Idle(bufs, disk).queue + Called(es) == Called(es);
  }

  // ---------------------------------------------------------------- what a read returns

  datatype Stored = Stored(k: Key, data: Block)

  /** The writes that the interrupts of a run served, in order. */
  ghost function Writes(s: State, es: seq<Event>): seq<Stored>
    requires Possible(s, es)
    decreases |es|
  {
    if es == [] then [] else
      (if es[0].Interrupt? && s.queue != [] && s.bufs[s.queue[0]].dirty
       then [Stored((s.bufs[s.queue[0]].dev, s.bufs[s.queue[0]].blockno), s.bufs[s.queue[0]].data)] else []) + Writes(Do(s, es[0]), es[1..])
  }

  /** Block k was on the disk from the start, or was written. */
  predicate Known(disk: map<Key, Block>, ws: seq<Stored>, k: Key) { k in disk || exists i :: 0 <= i < |ws| && ws[i].k == k }

  /** The data last written to block k, or what the disk had from the start. */
  function Newest(disk: map<Key, Block>, ws: seq<Stored>, k: Key): Block
    requires Known(disk, ws, k)
  {
    if ws == [] then disk[k]
    else if ws[|ws| - 1].k == k then ws[|ws| - 1].data
    else Newest(disk, ws[..|ws| - 1], k)
  }

  lemma {:induction false} NewestMore(disk: map<Key, Block>, w: Stored, ws: seq<Stored>, k: Key)
    requires Known(disk[w.k := w.data], ws, k)
    ensures Known(disk, [w] + ws, k) && Newest(disk[w.k := w.data], ws, k) == Newest(disk, [w] + ws, k)
    decreases |ws|
  {
    var us, n := [w] + ws, |ws|;
    assert forall i :: 0 <= i < n ==> us[i + 1] == ws[i];
    assert us[0] == w;
    if n > 0 {
      assert us[..|us| - 1] == [w] + ws[..n - 1] && us[|us| - 1] == ws[n - 1];
      if ws[n - 1].k != k {
        NewestMore(disk, w, ws[..n - 1], k);
      }
    } else {
      assert us[..0] == [];
      assert k != w.k ==> Newest(disk, us, k) == Newest(disk, us[..0], k);
    }
  }

  lemma ServeDisk(s: State, e: Event)
    requires Inv(s) && Enabled(s, e)
    ensures e.Interrupt? && s.queue != [] ==> 0 <= s.queue[0] < |s.bufs|
    ensures Do(s, e).disk == if e.Interrupt? && s.queue != [] && s.bufs[s.queue[0]].dirty
      then s.disk[(s.bufs[s.queue[0]].dev, s.bufs[s.queue[0]].blockno) := s.bufs[s.queue[0]].data] else s.disk
  {
    hide Served;
  }

  /** In every run the disk holds in each block what was last written to it. */
  lemma {:induction false} DiskNewest(s: State, es: seq<Event>, k: Key)
    requires Inv(s) && Possible(s, es)
    ensures k in After(s, es).disk <==> Known(s.disk, Writes(s, es), k)
    ensures k in After(s, es).disk ==> After(s, es).disk[k] == Newest(s.disk, Writes(s, es), k)
    decreases |es|
  {
    hide Inv, Do, Newest;
    if es == [] {
      NewestNone(s.disk, k);
    } else {
      Step(s, es[0]);
      ServeDisk(s, es[0]);
      DiskNewest(Do(s, es[0]), es[1..], k);
      var b, rest := if s.queue == [] then 0 else s.queue[0], Writes(Do(s, es[0]), es[1..]);
      if es[0].Interrupt? && s.queue != [] && s.bufs[b].dirty {
        var w := Stored((s.bufs[b].dev, s.bufs[b].blockno), s.bufs[b].data);
        assert Writes(s, es) == [w] + rest;
        KnownMore(s.disk, w, rest, k);
        if Known(s.disk[w.k := w.data], rest, k) { NewestMore(s.disk, w, rest, k); }
      } else {
        assert Writes(s, es) == rest;
      }
    }
  }

  lemma NewestNone(disk: map<Key, Block>, k: Key)
    ensures k in disk ==> Known(disk, [], k) && Newest(disk, [], k) == disk[k]
  {
  }

  lemma KnownMore(disk: map<Key, Block>, w: Stored, ws: seq<Stored>, k: Key)
    ensures Known(disk[w.k := w.data], ws, k) <==> Known(disk, [w] + ws, k)
  {
    var us := [w] + ws;
    assert us[0] == w && forall i :: 0 <= i < |ws| ==> us[i + 1] == ws[i];
  }

  /** In every run from the idle driver iderw returns, for a read, the data last written to the block by
      a request served before, or what the disk had from the start; and for a write its own data. */
  lemma ReadsNewest(bufs: seq<Buf>, disk: map<Key, Block>, es: seq<Event>, b: nat) returns (k: nat, was: Buf)
    requires Possible(Idle(bufs, disk), es) && Enabled(After(Idle(bufs, disk), es), Return(b))
    ensures k < |es| && Possible(Idle(bufs, disk), es[..k]) && b < |After(Idle(bufs, disk), es[..k]).bufs|
    ensures es[k].Interrupt? && After(Idle(bufs, disk), es[..k]).queue != [] && After(Idle(bufs, disk), es[..k]).queue[0] == b
    ensures was == After(Idle(bufs, disk), es[..k]).bufs[b]
    ensures var r, ws, at := After(Idle(bufs, disk), es).bufs[b], Writes(Idle(bufs, disk), es[..k]), (was.dev, was.blockno);
      && r.dev == was.dev && r.blockno == was.blockno && r.valid && !r.dirty
      && (was.dirty ==> r.data == was.data)
      && (!was.dirty && Known(disk, ws, at) ==> r.data == Newest(disk, ws, at))
  {
    hide Possible, After, Newest, Known, Writes, Inv;
    var seen;
    k, was, seen := ReturnsServed(bufs, disk, es, b);
    var s := Idle(bufs, disk);
    IdleInv(bufs, disk);
    DiskNewest(s, es[..k], (was.dev, was.blockno));
  }

  // ---------------------------------------------------------------- how long a call waits

  /** The interrupts of a run. */
  function Interrupts(es: seq<Event>): nat {
    if es == [] then 0 else (if es[0].Interrupt? then 1 else 0) + Interrupts(es[1..])
  }

  /** A request moves up by one at each interrupt and by nothing else, and at the head it is served. */
  lemma TurnStep(s: State, e: Event, b: int, p: nat)
    requires Inv(s) && Enabled(s, e) && p < |s.queue| && s.queue[p] == b && e != Return(b)
    ensures var t := Do(s, e);
      if !e.Interrupt? then p < |t.queue| && t.queue[p] == b
      else if p > 0 then p - 1 < |t.queue| && t.queue[p - 1] == b
      else 0 <= b < |t.at| && t.at[b].Done?
  {
    hide MemBuf, Served, Carried;
    if e.Interrupt? { HeadWaits(s); }
  }

  lemma {:induction false} StaysDone(s: State, es: seq<Event>, b: nat)
    requires Inv(s) && Possible(s, es) && b < |s.at| && s.at[b].Done? && Return(b) !in es
    ensures Enabled(After(s, es), Return(b))
    decreases |es|
  {
    hide Served, Carried, Start;
    if es != [] {
      var e := es[0];
      if e.Interrupt? && s.queue != [] { HeadWaits(s); }
      assert e in es && forall x :: x in es[1..] ==> x in es;
      Step(s, e);
      StaysDone(Do(s, e), es[1..], b);
    } else {
      assert BufOk(s, b);
    }
  }

  /** From then on, whatever else happens: the call at place p of the queue can return exactly if there
      have been more than p interrupts. */
  lemma {:induction false} InTurn(s: State, es: seq<Event>, b: nat, p: nat)
    requires Inv(s) && Possible(s, es) && p < |s.queue| && s.queue[p] == b && Return(b) !in es
    ensures Enabled(After(s, es), Return(b)) <==> Interrupts(es) > p
    decreases |es|
  {
    hide Inv, Do, Enabled;
    if es == [] {
      StillWaits(s, b, p);
    } else {
      var e := es[0];
      assert e in es && forall x :: x in es[1..] ==> x in es;
      TurnStep(s, e, b, p);
      Step(s, e);
      if e.Interrupt? && p == 0 {
        StaysDone(Do(s, e), es[1..], b);
      } else {
        InTurn(Do(s, e), es[1..], b, if e.Interrupt? then p - 1 else p);
      }
    }
  }

  lemma StillWaits(s: State, b: nat, p: nat)
    requires Inv(s) && p < |s.queue| && s.queue[p] == b
    ensures !Enabled(s, Return(b))
  {
    assert b in s.queue && BufOk(s, b);
  }

  /** In every run, a call that found p requests before its own can return exactly after p + 1 interrupts,
      whatever others call, return or change meanwhile. */
  lemma ReturnsInTurn(bufs: seq<Buf>, disk: map<Key, Block>, before: seq<Event>, b: nat, es: seq<Event>)
    requires Possible(Idle(bufs, disk), before) && Enabled(After(Idle(bufs, disk), before), Call(b)) && Return(b) !in es
    requires Possible(Do(After(Idle(bufs, disk), before), Call(b)), es)
    ensures var s := After(Idle(bufs, disk), before);
      Enabled(After(Do(s, Call(b)), es), Return(b)) <==> Interrupts(es) > |s.queue|
  {
    hide Possible, After, Inv, MemRun, Served, Carried;
    IdleInv(bufs, disk);
    Refines(Idle(bufs, disk), before);
    var s := After(Idle(bufs, disk), before);
    Step(s, Call(b));
    InTurn(Do(s, Call(b)), es, b, |s.queue|);
  }
}
