/** The redo log of log.c, seen as single-block disk writes that a crash may cut anywhere.

    A block is its 128 32-bit words.  The log region starts with the header block (word 0 is the
    count, words 1.. are home block numbers) and goes on with the logged copies. */
module Log {

  const LOGSIZE: nat := 30
  const BLOCK_WORDS: nat := 128

  datatype Block = Block(w: seq<int>)
  type Disk = seq<Block>

  /** One block write; the disk performs each of them atomically. */
  datatype Write = Write(addr: nat, data: Block)

  /** Where the log lives: log.start, log.size, and the number of blocks on the disk. */
  datatype Layout = Layout(start: nat, size: nat, total: nat)

  ghost predicate InLog(g: Layout, a: int) {
    g.start <= a < g.start + g.size
  }

  ghost predicate GoodLayout(g: Layout) {
    0 < g.size && g.start + g.size <= g.total
  }

  // ---------------------------------------------------------------- disk writes

  function Apply(d: Disk, ws: seq<Write>): (r: Disk)
    ensures |r| == |d|
  {
    if ws == [] then d else
    var w := ws[|ws| - 1];
    var e := Apply(d, ws[..|ws| - 1]);
    if w.addr < |e| then e[w.addr := w.data] else e
  }

  /** The disk a crash leaves when only the first k writes reached it. */
  function Cut(d: Disk, ws: seq<Write>, k: nat): Disk {
    Apply(d, if k <= |ws| then ws[..k] else ws)
  }

  lemma {:induction false} ApplyMiss(d: Disk, ws: seq<Write>, a: nat)
    requires a < |d|
    requires forall i :: 0 <= i < |ws| ==> ws[i].addr != a
    ensures Apply(d, ws)[a] == d[a]
  {
    if ws != [] { ApplyMiss(d, ws[..|ws| - 1], a); }
  }

  lemma ApplyNext(d: Disk, ws: seq<Write>, k: nat)
    requires k < |ws| && ws[k].addr < |d|
    ensures Apply(d, ws[..k + 1]) == Apply(d, ws[..k])[ws[k].addr := ws[k].data]
    ensures ws[..k + 1] == ws[..k] + [ws[k]]
  {
    assert ws[..k + 1][..k] == ws[..k];
  }

  ghost predicate DistinctAddrs(ws: seq<Write>) {
    forall i, j :: 0 <= i < j < |ws| ==> ws[i].addr != ws[j].addr
  }

  lemma {:induction false} ApplyHit(d: Disk, ws: seq<Write>, i: nat)
    requires i < |ws| && ws[i].addr < |d| && DistinctAddrs(ws)
    ensures Apply(d, ws)[ws[i].addr] == ws[i].data
  {
    var n := |ws| - 1;
    if i < n {
      ApplyHit(d, ws[..n], i);
      assert ws[i].addr != ws[n].addr;
    }
  }

  lemma {:induction false} ApplyConcat(d: Disk, a: seq<Write>, b: seq<Write>)
    ensures Apply(d, a + b) == Apply(Apply(d, a), b)
  {
    if b == [] {
      assert a + b == a;
    } else {
      var n := |b| - 1;
      ApplyConcat(d, a, b[..n]);
      assert (a + b)[..|a + b| - 1] == a + b[..n];
    }
  }

  // ---------------------------------------------------------------- header block

  ghost predicate GoodHomes(g: Layout, lh: seq<int>) {
    && |lh| <= LOGSIZE && |lh| <= g.size - 1
    && (forall i :: 0 <= i < |lh| ==> 0 <= lh[i] < g.total && !InLog(g, lh[i]))
    && (forall i, j :: 0 <= i < j < |lh| ==> lh[i] != lh[j])
  }

  /** What write_head leaves in the header buffer: words past the count stay as they were. */
  function HeaderInto(old_: Block, lh: seq<int>): Block
    requires |lh| <= LOGSIZE && |old_.w| == BLOCK_WORDS
  {
    Block([|lh|] + lh + old_.w[|lh| + 1..])
  }

  predicate HeaderShape(b: Block) {
    |b.w| == BLOCK_WORDS && 0 <= b.w[0] <= LOGSIZE
  }

  function HeadBlocks(b: Block): seq<int>
    requires HeaderShape(b)
  {
    b.w[1..1 + b.w[0]]
  }

  ghost predicate GoodHeader(g: Layout, b: Block) {
    HeaderShape(b) && GoodHomes(g, HeadBlocks(b))
  }

  lemma HeaderRoundTrip(old_: Block, lh: seq<int>)
    requires |lh| <= LOGSIZE && |old_.w| == BLOCK_WORDS
    ensures HeaderShape(HeaderInto(old_, lh)) && HeaderInto(old_, lh).w[0] == |lh|
    ensures HeadBlocks(HeaderInto(old_, lh)) == lh
  {
  }

  ghost predicate WellFormed(g: Layout, d: Disk) {
    GoodLayout(g) && |d| == g.total && GoodHeader(g, d[g.start])
  }

  // ---------------------------------------------------------------- what recovery promises

  /** The writes of install_trans for header lh, reading the log copies of d. */
  ghost function InstallWrites(g: Layout, lh: seq<int>, d: Disk): (ws: seq<Write>)
    requires GoodLayout(g) && GoodHomes(g, lh) && |d| == g.total
    ensures |ws| == |lh|
    ensures forall i :: 0 <= i < |lh| ==> ws[i] == Write(lh[i], d[g.start + 1 + i])
  {
    seq(|lh|, i requires 0 <= i < |lh| => Write(lh[i], d[g.start + 1 + i]))
  }

  /** Install the logged blocks, then clear the count. */
  ghost function FinishWrites(g: Layout, lh: seq<int>, d: Disk): seq<Write>
    requires GoodLayout(g) && GoodHomes(g, lh) && |d| == g.total && HeaderShape(d[g.start])
  {
    InstallWrites(g, lh, d) + [Write(g.start, HeaderInto(d[g.start], []))]
  }

  /** recover_from_log finishes whatever transaction the header on disk names. */
  ghost function RecoverWrites(g: Layout, d: Disk): seq<Write>
    requires WellFormed(g, d)
  {
    FinishWrites(g, HeadBlocks(d[g.start]), d)
  }

  ghost function Recover(g: Layout, d: Disk): Disk
    requires WellFormed(g, d)
  {
    Apply(d, RecoverWrites(g, d))
  }

  /** The file system image that d stands for: committed log copies override their home blocks. */
  ghost function Durable(g: Layout, d: Disk): (r: Disk)
    requires WellFormed(g, d)
    ensures |r| == |d|
  {
    Apply(d, InstallWrites(g, HeadBlocks(d[g.start]), d))
  }

  ghost predicate SameHome(g: Layout, d: Disk, e: Disk) {
    |d| == |e| && forall a :: 0 <= a < |d| && !InLog(g, a) ==> d[a] == e[a]
  }

  /** Block a of the durable image, by cases instead of by writes. */
  lemma DurableAt(g: Layout, d: Disk, a: nat)
    requires WellFormed(g, d) && a < |d|
    ensures forall i :: 0 <= i < d[g.start].w[0] && HeadBlocks(d[g.start])[i] == a ==>
              Durable(g, d)[a] == d[g.start + 1 + i]
    ensures a !in HeadBlocks(d[g.start]) ==> Durable(g, d)[a] == d[a]
  {
    hide Apply, InstallWrites;
    var lh := HeadBlocks(d[g.start]);
    var ws := InstallWrites(g, lh, d);
    if a in lh {
      var i :| 0 <= i < |lh| && lh[i] == a;
      assert DistinctAddrs(ws);
      ApplyHit(d, ws, i);
    } else {
      ApplyMiss(d, ws, a);
    }
  }

  /** Two disks with the same header and log copies, that differ at home only where the log
      overrides anyway, stand for the same image. */
  lemma DurableAgree(g: Layout, d: Disk, e: Disk)
    requires WellFormed(g, d) && |e| == |d|
    requires forall a :: InLog(g, a) ==> e[a] == d[a]
    requires forall a :: 0 <= a < |d| && !InLog(g, a) && a !in HeadBlocks(d[g.start]) ==> e[a] == d[a]
    ensures WellFormed(g, e) && SameHome(g, Durable(g, e), Durable(g, d))
  {
    assert e[g.start] == d[g.start];
    var lh := HeadBlocks(d[g.start]);
    forall a | 0 <= a < |d| && !InLog(g, a) ensures Durable(g, e)[a] == Durable(g, d)[a] {
      DurableAt(g, d, a);
      DurableAt(g, e, a);
      if a in lh {
        var i :| 0 <= i < |lh| && lh[i] == a;
        assert InLog(g, g.start + 1 + i);
      }
    }
  }

  // ---------------------------------------------------------------- recovery, cut and restarted

  /** Installing any prefix of the log keeps the image that the disk stands for. */
  lemma InstallPrefix(g: Layout, d: Disk, k: nat)
    requires WellFormed(g, d) && k <= d[g.start].w[0]
    ensures var e := Apply(d, InstallWrites(g, HeadBlocks(d[g.start]), d)[..k]);
      WellFormed(g, e) && SameHome(g, Durable(g, e), Durable(g, d)) && e[g.start] == d[g.start]
  {
    var lh := HeadBlocks(d[g.start]);
    var ws := InstallWrites(g, lh, d)[..k];
    var e := Apply(d, ws);
    forall a | 0 <= a < |d| && (InLog(g, a) || a !in lh) ensures e[a] == d[a] {
      ApplyMiss(d, ws, a);
    }
    DurableAgree(g, d, e);
  }

  /** Clearing the count after a full install keeps the image too. */
  lemma ClearHead(g: Layout, d: Disk, hd: Block)
    requires WellFormed(g, d) && HeaderShape(hd) && hd.w[0] == 0
    ensures var e := Durable(g, d)[g.start := hd];
      WellFormed(g, e) && SameHome(g, Durable(g, e), Durable(g, d)) && SameHome(g, e, Durable(g, d))
  {
    var e := Durable(g, d)[g.start := hd];
    forall a | 0 <= a < |d| && !InLog(g, a) ensures Durable(g, e)[a] == Durable(g, d)[a] {
      DurableAt(g, e, a);
    }
  }

  /** recover_from_log cut after k writes: the image never changes, whatever k is. */
  lemma RecoverCut(g: Layout, d: Disk, k: nat)
    requires WellFormed(g, d)
    ensures var e := Cut(d, RecoverWrites(g, d), k);
      WellFormed(g, e) && SameHome(g, Durable(g, e), Durable(g, d))
  {
    var ws := InstallWrites(g, HeadBlocks(d[g.start]), d);
    var all := RecoverWrites(g, d);
    if k <= |ws| {
      assert all[..k] == ws[..k];
      InstallPrefix(g, d, k);
    } else {
      assert all[..|all| - 1] == ws;
      HeaderRoundTrip(d[g.start], []);
      ClearHead(g, d, HeaderInto(d[g.start], []));
      assert k > |all| || all[..k] == all;
    }
  }

  /** A full recovery leaves exactly the image at home, with an empty log. */
  lemma RecoverFull(g: Layout, d: Disk)
    requires WellFormed(g, d)
    ensures var e := Recover(g, d);
      WellFormed(g, e) && SameHome(g, e, Durable(g, d)) && e[g.start].w[0] == 0
  {
    var ws := InstallWrites(g, HeadBlocks(d[g.start]), d);
    var all := RecoverWrites(g, d);
    assert all[..|all| - 1] == ws;
    HeaderRoundTrip(d[g.start], []);
    ClearHead(g, d, HeaderInto(d[g.start], []));
  }

  /** Recovery attempts that crash after cuts[0], cuts[1], ... writes, one boot after another. */
  ghost function Boots(g: Layout, d: Disk, cuts: seq<nat>): (e: Disk)
    requires WellFormed(g, d)
    ensures WellFormed(g, e) && SameHome(g, Durable(g, e), Durable(g, d))
    decreases |cuts|
  {
    if cuts == [] then d else
    RecoverCut(g, d, cuts[0]);
    Boots(g, Cut(d, RecoverWrites(g, d), cuts[0]), cuts[1..])
  }

  // ---------------------------------------------------------------- commit

  /** Contents of every block as bread sees them: the pinned dirty buffers over the disk. */
  function View(d: Disk, dirty: map<int, Block>): (v: Disk)
    ensures |v| == |d|
    ensures forall a :: 0 <= a < |d| ==> v[a] == if a in dirty then dirty[a] else d[a]
  {
    seq(|d|, a requires 0 <= a < |d| => if a in dirty then dirty[a] else d[a])
  }

  ghost function LogWrites(g: Layout, lh: seq<int>, view: Disk): (ws: seq<Write>)
    requires GoodHomes(g, lh) && |view| == g.total
    ensures |ws| == |lh|
    ensures forall i :: 0 <= i < |lh| ==> ws[i] == Write(g.start + 1 + i, view[lh[i]])
  {
    seq(|lh|, i requires 0 <= i < |lh| => Write(g.start + 1 + i, view[lh[i]]))
  }

  /** write_log, then the first write_head. */
  ghost function PrepareWrites(g: Layout, lh: seq<int>, view: Disk): seq<Write>
    requires GoodLayout(g) && GoodHomes(g, lh) && |view| == g.total && HeaderShape(view[g.start])
  {
    LogWrites(g, lh, view) + [Write(g.start, HeaderInto(view[g.start], lh))]
  }

  /** The index, among the writes of commit(), of the first write_head. */
  ghost function CommitPoint(lh: seq<int>): nat { |lh| }

  /** The disk just after the first write_head, the commit point. */
  ghost function AtCommitPoint(g: Layout, d: Disk, view: Disk, lh: seq<int>): Disk
    requires GoodLayout(g) && GoodHomes(g, lh) && |view| == g.total && HeaderShape(view[g.start])
  {
    Apply(d, PrepareWrites(g, lh, view))
  }

  lemma CommitPointHead(g: Layout, d: Disk, view: Disk, lh: seq<int>)
    requires GoodLayout(g) && GoodHomes(g, lh) && |d| == |view| == g.total && HeaderShape(view[g.start])
    ensures var e := AtCommitPoint(g, d, view, lh);
      && HeaderShape(e[g.start]) && HeadBlocks(e[g.start]) == lh && e[g.start].w[0] == |lh|
      && e == Apply(d, LogWrites(g, lh, view))[g.start := HeaderInto(view[g.start], lh)]
  {
    var ws := LogWrites(g, lh, view);
    assert PrepareWrites(g, lh, view)[..|ws|] == ws;
    HeaderRoundTrip(view[g.start], lh);
  }

  /** All the writes of commit(), in order. */
  ghost function CommitWrites(g: Layout, d: Disk, view: Disk, lh: seq<int>): seq<Write>
    requires GoodLayout(g) && GoodHomes(g, lh) && |d| == |view| == g.total && HeaderShape(view[g.start])
  {
    if lh == [] then [] else
    CommitPointHead(g, d, view, lh);
    PrepareWrites(g, lh, view) + FinishWrites(g, lh, AtCommitPoint(g, d, view, lh))
  }

  /** Disk d is about to receive the transaction lh, which turns its image into view: the log on
      disk is empty and only the logged blocks differ. */
  ghost predicate Committable(g: Layout, d: Disk, view: Disk, lh: seq<int>) {
    && WellFormed(g, d) && d[g.start].w[0] == 0 && GoodHomes(g, lh)
    && |view| == |d| && view[g.start] == d[g.start]
    && (forall a :: 0 <= a < |d| && a !in lh ==> view[a] == d[a])
  }

  /** Before the header write: only free log slots have changed. */
  lemma CutInLog(g: Layout, d: Disk, view: Disk, lh: seq<int>, k: nat)
    requires Committable(g, d, view, lh) && k <= |lh|
    ensures var e := Apply(d, LogWrites(g, lh, view)[..k]);
      WellFormed(g, e) && SameHome(g, Durable(g, e), d)
  {
    var ws := LogWrites(g, lh, view)[..k];
    var e := Apply(d, ws);
    ApplyMiss(d, ws, g.start);
    forall a | 0 <= a < |d| && !InLog(g, a) ensures Durable(g, e)[a] == d[a] {
      ApplyMiss(d, ws, a);
      DurableAt(g, e, a);
    }
  }

  lemma LogSlot(g: Layout, d: Disk, view: Disk, lh: seq<int>, i: nat)
    requires GoodLayout(g) && GoodHomes(g, lh) && |d| == |view| == g.total && i < |lh|
    ensures Apply(d, LogWrites(g, lh, view))[g.start + 1 + i] == view[lh[i]]
  {
    hide LogWrites, Apply;
    var ws := LogWrites(g, lh, view);
    assert ws[i].addr == g.start + 1 + i;
    ApplyHit(d, ws, i) by {
      forall j, k | 0 <= j < k < |ws| ensures ws[j].addr != ws[k].addr {}
    }
  }

  /** The log slots and the home blocks at the commit point. */
  lemma CommitPointSlot(g: Layout, d: Disk, view: Disk, lh: seq<int>, i: nat)
    requires Committable(g, d, view, lh) && i < |lh|
    ensures AtCommitPoint(g, d, view, lh)[g.start + 1 + i] == view[lh[i]]
  {
    hide Apply;
    CommitPointHead(g, d, view, lh);
    LogSlot(g, d, view, lh, i);
  }

  lemma CommitPointHome(g: Layout, d: Disk, view: Disk, lh: seq<int>, a: nat)
    requires Committable(g, d, view, lh) && a < |d| && !InLog(g, a)
    ensures AtCommitPoint(g, d, view, lh)[a] == d[a]
  {
    CommitPointHead(g, d, view, lh);
    ApplyMiss(d, LogWrites(g, lh, view), a);
  }

  /** A block of the durable image at the commit point. */
  lemma CommitPointAt(g: Layout, d: Disk, view: Disk, lh: seq<int>, a: nat)
    requires Committable(g, d, view, lh) && a < |d| && !InLog(g, a)
    ensures var e := AtCommitPoint(g, d, view, lh);
      WellFormed(g, e) && Durable(g, e)[a] == view[a]
  {
    hide Apply;
    CommitPointHead(g, d, view, lh);
    DurableAt(g, AtCommitPoint(g, d, view, lh), a);
    if a in lh {
      var i :| 0 <= i < |lh| && lh[i] == a;
      CommitPointSlot(g, d, view, lh, i);
    } else {
      CommitPointHome(g, d, view, lh, a);
    }
  }

  /** At the commit point the disk stands for the new image. */
  lemma CommitPointDurable(g: Layout, d: Disk, view: Disk, lh: seq<int>)
    requires Committable(g, d, view, lh)
    ensures var e := AtCommitPoint(g, d, view, lh);
      WellFormed(g, e) && SameHome(g, Durable(g, e), view) && HeadBlocks(e[g.start]) == lh
  {
    CommitPointHead(g, d, view, lh);
    forall a | 0 <= a < |d| && !InLog(g, a)
      ensures Durable(g, AtCommitPoint(g, d, view, lh))[a] == view[a]
    {
      CommitPointAt(g, d, view, lh, a);
    }
  }

  lemma CutConcat(d: Disk, first: seq<Write>, rest: seq<Write>, k: nat)
    requires k >= |first|
    ensures Cut(d, first + rest, k) == Cut(Apply(d, first), rest, k - |first|)
  {
    var all := first + rest;
    var tail := if k - |first| <= |rest| then rest[..k - |first|] else rest;
    assert (if k <= |all| then all[..k] else all) == first + tail;
    ApplyConcat(d, first, tail);
  }

  /** commit() cut after k writes stands for the old image up to the header write, and for the
      new one from then on: past that write, committing is recovering. */
  lemma CommitCut(g: Layout, d: Disk, view: Disk, lh: seq<int>, k: nat)
    requires Committable(g, d, view, lh)
    ensures var e := Cut(d, CommitWrites(g, d, view, lh), k);
      && WellFormed(g, e)
      && SameHome(g, Durable(g, e), if k <= CommitPoint(lh) then d else view)
  {
    hide Apply;
    if lh == [] {
      CutInLog(g, d, view, lh, 0);
      assert view == d;
    } else if k <= CommitPoint(lh) {
      assert CommitWrites(g, d, view, lh)[..k] == LogWrites(g, lh, view)[..k];
      CutInLog(g, d, view, lh, k);
    } else {
      var c := AtCommitPoint(g, d, view, lh);
      CommitPointDurable(g, d, view, lh);
      CutConcat(d, PrepareWrites(g, lh, view), RecoverWrites(g, c), k);
      RecoverCut(g, c, k - CommitPoint(lh) - 1);
    }
  }

  /** Crash atomicity of log.c.  Cut commit() after any k of its single-block writes, crash any
      number of recovery attempts wherever cuts says, then let recovery finish: every block
      outside the log is as before the transaction, or every one is as after it, and it is the
      latter exactly when the first write_head had reached the disk. */
  lemma CrashAtomicity(g: Layout, d: Disk, view: Disk, lh: seq<int>, k: nat, cuts: seq<nat>)
    requires Committable(g, d, view, lh)
    ensures WellFormed(g, Cut(d, CommitWrites(g, d, view, lh), k))
    ensures var e := Recover(g, Boots(g, Cut(d, CommitWrites(g, d, view, lh), k), cuts));
      && SameHome(g, e, if k <= CommitPoint(lh) then d else view)
      && WellFormed(g, e) && e[g.start].w[0] == 0
  {
    CommitCut(g, d, view, lh, k);
    RecoverFull(g, Boots(g, Cut(d, CommitWrites(g, d, view, lh), k), cuts));
  }

  /** An uncut commit leaves the whole transaction at home and the log empty. */
  lemma CommitWhole(g: Layout, d: Disk, view: Disk, lh: seq<int>)
    requires Committable(g, d, view, lh)
    ensures var e := Apply(d, CommitWrites(g, d, view, lh));
      WellFormed(g, e) && SameHome(g, e, view) && e[g.start].w[0] == 0
  {
    if lh == [] {
      assert view == d;
    } else {
      var c := AtCommitPoint(g, d, view, lh);
      CommitPointDurable(g, d, view, lh);
      RecoverFull(g, c);
      ApplyConcat(d, PrepareWrites(g, lh, view), RecoverWrites(g, c));
    }
  }
}
