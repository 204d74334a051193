/** filewrite over the log: the volume that a crash in the middle of a write leaves. */
module FileCrash {
  import opened Log
  import opened FsSpec
  import opened FsLogged
  import opened FileLayer
  import GroupCommit

  // ---------------------------------------------------------------- the volume on the disk

  /** What a block of the volume holds. */
  datatype Image = Data(bytes: seq<int>) | Bits(bits: seq<bool>) | Inodes(inodes: seq<Inode>)

  function Part<T>(s: seq<T>, lo: nat, n: nat): (r: seq<T>)
    requires lo <= |s|
    ensures |r| == (if lo + n <= |s| then n else |s| - lo) && forall x :: 0 <= x < |r| ==> r[x] == s[lo + x]
  {
    if lo + n <= |s| then s[lo..lo + n] else s[lo..]
  }

  predicate InInodes(pl: Place, s: Fs, b: int) { pl.inodestart <= b && (b - pl.inodestart) * IPB < |s.inodes| }
  predicate InBitmap(pl: Place, s: Fs, b: int) { pl.bmapstart <= b && (b - pl.bmapstart) * BPB < |s.used| }

  function ImageOf(pl: Place, s: Fs, b: int): Image {
    if InInodes(pl, s, b) then Inodes(Part(s.inodes, (b - pl.inodestart) * IPB, IPB))
    else if InBitmap(pl, s, b) then Bits(Part(s.used, (b - pl.bmapstart) * BPB, BPB))
    else Data(if 0 <= b < |s.blocks| then s.blocks[b] else [])
  }

  /** Outside the log, disk d holds the volume s in some encoding of blocks. */
  ghost predicate Shows(g: Layout, pl: Place, enc: Image -> Block, d: Disk, s: Fs) {
    |d| == g.total == |s.blocks| == |s.used| && forall b :: 0 <= b < |d| && !InLog(g, b) ==> d[b] == enc(ImageOf(pl, s, b))
  }

  /** The log, the inodes and the bitmap lie apart, below nmeta. */
  ghost predicate GoodPlace(g: Layout, pl: Place, s: Fs) {
    && (forall b :: InLog(g, b) ==> b < pl.nmeta && !InInodes(pl, s, b) && !InBitmap(pl, s, b))
    && (forall b :: InInodes(pl, s, b) ==> b < pl.nmeta <= g.total && !InBitmap(pl, s, b))
    && (forall b :: InBitmap(pl, s, b) ==> b < pl.nmeta <= g.total)
  }

  /** The disk determines the volume: its files, its free map, and all blocks that files can own. */
  lemma ShowsOne(g: Layout, pl: Place, enc: Image -> Block, d: Disk, s: Fs, t: Fs)
    requires (forall x, y :: enc(x) == enc(y) ==> x == y) && GoodPlace(g, pl, s)
    requires Shows(g, pl, enc, d, s) && Shows(g, pl, enc, d, t) && |t.inodes| == |s.inodes|
    ensures t.used == s.used && t.inodes == s.inodes && forall b :: pl.nmeta <= b < |s.blocks| ==> t.blocks[b] == s.blocks[b]
  {
    forall b | 0 <= b < |s.used| ensures t.used[b] == s.used[b] { SameBit(g, pl, enc, d, s, t, b); }
    forall i | 0 <= i < |s.inodes| ensures t.inodes[i] == s.inodes[i] { SameInode(g, pl, enc, d, s, t, i); }
    forall b | pl.nmeta <= b < |s.blocks| ensures t.blocks[b] == s.blocks[b] {
      assert ImageOf(pl, s, b) == ImageOf(pl, t, b);
    }
  }

  lemma SameBit(g: Layout, pl: Place, enc: Image -> Block, d: Disk, s: Fs, t: Fs, b: nat)
    requires (forall x, y :: enc(x) == enc(y) ==> x == y) && GoodPlace(g, pl, s) && b < |s.used|
    requires Shows(g, pl, enc, d, s) && Shows(g, pl, enc, d, t) && |t.inodes| == |s.inodes|
    ensures t.used[b] == s.used[b]
  {
    var c, lo := b / BPB + pl.bmapstart, b / BPB * BPB;
    assert InBitmap(pl, s, c);
    assert ImageOf(pl, s, c) == ImageOf(pl, t, c);
    assert Part(s.used, lo, BPB)[b - lo] == s.used[b] && Part(t.used, lo, BPB)[b - lo] == t.used[b];
  }

  lemma SameInode(g: Layout, pl: Place, enc: Image -> Block, d: Disk, s: Fs, t: Fs, i: nat)
    requires (forall x, y :: enc(x) == enc(y) ==> x == y) && GoodPlace(g, pl, s) && i < |s.inodes|
    requires Shows(g, pl, enc, d, s) && Shows(g, pl, enc, d, t) && |t.inodes| == |s.inodes|
    ensures t.inodes[i] == s.inodes[i]
  {
    var c, lo := i / IPB + pl.inodestart, i / IPB * IPB;
    assert InInodes(pl, s, c);
    assert ImageOf(pl, s, c) == ImageOf(pl, t, c);
    assert Part(s.inodes, lo, IPB)[i - lo] == s.inodes[i] && Part(t.inodes, lo, IPB)[i - lo] == t.inodes[i];
  }

  // ---------------------------------------------------------------- one transaction

  /** A block that is not logged looks the same after the transaction. */
  lemma UnloggedSame(pl: Place, s: Fs, t: Fs, log: set<int>, b: int)
    requires Logged(s, t, log, pl.bmapstart, pl.inodestart) && b !in log
    ensures ImageOf(pl, t, b) == ImageOf(pl, s, b)
  {
    if InInodes(pl, s, b) {
      var lo := (b - pl.inodestart) * IPB;
      var p, q := Part(s.inodes, lo, IPB), Part(t.inodes, lo, IPB);
      forall x | 0 <= x < |p| ensures q[x] == p[x] { assert (lo + x) / IPB + pl.inodestart == b; }
      assert q == p;
    } else if InBitmap(pl, s, b) {
      var lo := (b - pl.bmapstart) * BPB;
      var p, q := Part(s.used, lo, BPB), Part(t.used, lo, BPB);
      forall x | 0 <= x < |p| ensures q[x] == p[x] { assert (lo + x) / BPB + pl.bmapstart == b; }
      assert q == p;
    }
  }

  ghost predicate LastTo(ws: seq<Write>, k: int, b: int) {
    0 <= k < |ws| && ws[k].addr == b && forall l :: k < l < |ws| ==> ws[l].addr != b
  }

  lemma {:induction false} ApplyLast(d: Disk, ws: seq<Write>, k: int, b: int)
    requires LastTo(ws, k, b) && b < |d|
    ensures 0 <= b && Apply(d, ws)[b] == ws[k].data
  {
    var n := |ws| - 1;
    if k < n { ApplyLast(d, ws[..n], k, b); }
  }

  /** The log_writes of a transaction that ends in t: to the blocks that it logs and no others, and
      last with what the block holds in the end. */
  ghost predicate Carries(pl: Place, enc: Image -> Block, ws: seq<Write>, log: set<int>, t: Fs) {
    && (forall k :: 0 <= k < |ws| ==> ws[k].addr in log)
    && forall b :: b in log ==> exists k :: LastTo(ws, k, b) && ws[k].data == enc(ImageOf(pl, t, b))
  }

  /** A transaction that logs all it changes takes the disk from one volume to the other. */
  lemma TxnShows(g: Layout, pl: Place, enc: Image -> Block, d: Disk, s: Fs, t: Fs, log: set<int>, ws: seq<Write>)
    requires Shows(g, pl, enc, d, s) && Logged(s, t, log, pl.bmapstart, pl.inodestart) && Carries(pl, enc, ws, log, t)
    ensures Shows(g, pl, enc, Apply(d, ws), t)
  {
    hide ImageOf, Apply, Logged;
    var e := Apply(d, ws);
    forall b | 0 <= b < |e| && !InLog(g, b) ensures e[b] == enc(ImageOf(pl, t, b)) {
      if b in log {
        var k :| LastTo(ws, k, b) && ws[k].data == enc(ImageOf(pl, t, b));
        ApplyLast(d, ws, k, b);
      } else {
        ApplyMiss(d, ws, b);
        UnloggedSame(pl, s, t, log, b);
      }
    }
    SameSizes(s, t, log, pl);
  }

  lemma SameSizes(s: Fs, t: Fs, log: set<int>, pl: Place)
    requires Logged(s, t, log, pl.bmapstart, pl.inodestart)
    ensures |t.blocks| == |s.blocks| && |t.used| == |s.used|
  {
  }

  // ---------------------------------------------------------------- one after the other

  function Flat(txs: seq<seq<Write>>): seq<Write> { if txs == [] then [] else Flat(txs[..|txs| - 1]) + txs[|txs| - 1] }

  /** Where the writes of transaction k begin. */
  function Begins(txs: seq<seq<Write>>, k: nat): nat
    requires k <= |txs|
  {
    |Flat(txs[..k])|
  }

  lemma FlatNext(txs: seq<seq<Write>>, k: nat)
    requires k < |txs|
    ensures Flat(txs[..k + 1]) == Flat(txs[..k]) + txs[k]
  {
    assert txs[..k + 1][..k] == txs[..k];
  }

  ghost predicate Recorded(pl: Place, enc: Image -> Block, ts: seq<Txn>, txs: seq<seq<Write>>) {
    |txs| == |ts| && forall k :: 0 <= k < |ts| ==> Carries(pl, enc, txs[k], ts[k].logged, ts[k].after)
  }

  lemma {:induction false} ChainShows(g: Layout, pl: Place, enc: Image -> Block, d: Disk, s0: Fs, i: int, off: nat, src: seq<int>,
                                      ts: seq<Txn>, txs: seq<seq<Write>>, k: nat)
    requires Shows(g, pl, enc, d, s0) && Chain(pl, s0, i, off, src, ts) && Recorded(pl, enc, ts, txs) && k <= |ts|
    ensures Shows(g, pl, enc, Apply(d, Flat(txs[..k])), StateAt(s0, ts, k))
    decreases k
  {
    hide Shows, Carries, Progress, Apply, Flat, Logged;
    if k == 0 {
      FlatNone(txs, d);
    } else {
      ChainShows(g, pl, enc, d, s0, i, off, src, ts, txs, k - 1);
      FlatNext(txs, k - 1);
      ApplyConcat(d, Flat(txs[..k - 1]), txs[k - 1]);
      assert ChunkOf(pl, s0, i, off, src, k - 1, ts[k - 1]);
      TxnShows(g, pl, enc, Apply(d, Flat(txs[..k - 1])), ts[k - 1].before, ts[k - 1].after, ts[k - 1].logged, txs[k - 1]);
    }
  }

  lemma FlatNone(txs: seq<seq<Write>>, d: Disk)
    ensures Flat(txs[..0]) == [] && Apply(d, Flat(txs[..0])) == d
  {
  }

  /** A prefix of the writes ends at a transaction, or inside one. */
  lemma {:induction false} Falls(txs: seq<seq<Write>>, n: nat, m: nat) returns (k: nat)
    requires m <= |txs| && n <= Begins(txs, m)
    ensures k <= m && Begins(txs, k) <= n && (k < m ==> n < Begins(txs, k + 1)) && (k == m <==> n == Begins(txs, m))
    decreases m
  {
    if n == Begins(txs, m) {
      k := m;
    } else if m > 0 && n < Begins(txs, m - 1) {
      k := Falls(txs, n, m - 1);
    } else {
      assert m > 0;
      k := m - 1;
    }
  }

  lemma {:induction false} FlatPrefix(txs: seq<seq<Write>>, k: nat, m: nat)
    requires k <= m <= |txs|
    ensures Flat(txs[..k]) <= Flat(txs[..m])
    decreases m
  {
    if k < m {
      FlatPrefix(txs, k, m - 1);
      FlatNext(txs, m - 1);
    }
  }

  // ---------------------------------------------------------------- and the crash

  /** Write x of the history belongs to transaction k. */
  predicate Within(txs: seq<seq<Write>>, k: int, x: int) { 0 <= k < |txs| && Begins(txs, k) <= x < Begins(txs, k + 1) }

  /** The history of the run: the writes of whole transactions, each made by one operation, and then
      those of an operation that is still in progress. */
  ghost predicate Serial(t: GroupCommit.State, txs: seq<seq<Write>>) {
    && |t.ops| == |t.hist| && Flat(txs) <= t.hist
    && (forall k, x, y :: 0 <= x < |t.ops| && 0 <= y < |t.ops| && Within(txs, k, x) && Within(txs, k, y) ==> t.ops[x] == t.ops[y])
    && (forall x :: |Flat(txs)| <= x < |t.ops| ==> InProgress(t, t.ops[x]))
  }

  ghost predicate InProgress(t: GroupCommit.State, op: nat) {
    exists p :: 0 <= p < |t.procs| && GroupCommit.InOp(t.procs[p]) && t.procs[p].op == op
  }

  /** Nothing of an operation in progress is kept. */
  lemma KeptIsOver(g: Layout, d: Disk, n: nat, evs: seq<GroupCommit.Event>, t: GroupCommit.State, x: nat)
    requires GroupCommit.BootRun(g, d, n, evs, t) && x < t.durable
    ensures x < |t.ops| && !InProgress(t, t.ops[x])
  {
    hide GroupCommit.BootRun;
    GroupCommit.CrashAnywhere(g, d, n, evs, t, []);
  }

  lemma NotBeyond(g: Layout, d: Disk, n: nat, evs: seq<GroupCommit.Event>, t: GroupCommit.State, txs: seq<seq<Write>>)
    requires GroupCommit.BootRun(g, d, n, evs, t) && Serial(t, txs)
    ensures t.durable <= |Flat(txs)|
  {
    hide GroupCommit.BootRun, Flat, InProgress;
    var x := |Flat(txs)|;
    if x < t.durable { KeptIsOver(g, d, n, evs, t, x); }
  }

  /** No transaction is kept in part. */
  lemma NotInside(g: Layout, d: Disk, n: nat, evs: seq<GroupCommit.Event>, t: GroupCommit.State, txs: seq<seq<Write>>, k: nat)
    requires GroupCommit.BootRun(g, d, n, evs, t) && Serial(t, txs) && k < |txs| && Begins(txs, k) <= t.durable < Begins(txs, k + 1)
    ensures t.durable == Begins(txs, k)
  {
    hide GroupCommit.BootRun, Flat;
    GroupCommit.CrashAnywhere(g, d, n, evs, t, []);
    FlatPrefix(txs, k + 1, |txs|);
    assert txs[..|txs|] == txs;
    var x, y := Begins(txs, k), t.durable as int;
    assert Within(txs, k, x) && Within(txs, k, y);
    assert x < |t.ops| && y < |t.ops|;
  }

  /** What a crash keeps of such a history is whole transactions. */
  lemma WholeKept(g: Layout, d: Disk, n: nat, evs: seq<GroupCommit.Event>, t: GroupCommit.State, txs: seq<seq<Write>>) returns (k: nat)
    requires GroupCommit.BootRun(g, d, n, evs, t) && Serial(t, txs)
    ensures k <= |txs| && t.durable <= |t.hist| && t.hist[..t.durable] == Flat(txs[..k])
    ensures t.durable == |Flat(txs)| ==> k == |txs|
  {
    hide GroupCommit.BootRun, Flat;
    var m := |txs|;
    assert txs[..m] == txs;
    NotBeyond(g, d, n, evs, t, txs);
    k := Falls(txs, t.durable, m);
    if k < m { NotInside(g, d, n, evs, t, txs, k); }
    FlatPrefix(txs, k, m);
  }

  lemma ShowsSame(g: Layout, pl: Place, enc: Image -> Block, d: Disk, e: Disk, s: Fs)
    requires Shows(g, pl, enc, d, s) && SameHome(g, e, d)
    ensures Shows(g, pl, enc, e, s)
  {
    hide ImageOf;
  }

  /** How much of the write the volume has after k transactions. */
  lemma ChunksAt(pl: Place, s0: Fs, i: int, off: nat, src: seq<int>, ts: seq<Txn>, k: nat) returns (j: nat)
    requires Progress(s0, s0, pl.nmeta, i, off, src, 0) && Chain(pl, s0, i, off, src, ts) && k <= |ts|
    ensures j <= k && Progress(s0, StateAt(s0, ts, k), pl.nmeta, i, off, src, j)
  {
    hide Progress, Logged;
    j := k;
    if k > 0 {
      assert ChunkOf(pl, s0, i, off, src, k - 1, ts[k - 1]);
      if !Progress(s0, ts[k - 1].after, pl.nmeta, i, off, src, k) { j := k - 1; }
    }
  }

  /** A crash at any moment of a write, recovery cut and restarted any number of times: the disk then
      holds a volume in order, in which the file has the first j chunks of the data at the offset and
      nothing else of it, and all other files are as they were.  When no transaction is open it holds
      all chunks written. */
  lemma CrashDuringWrite(g: Layout, pl: Place, enc: Image -> Block, d: Disk, n: nat, evs: seq<GroupCommit.Event>, t: GroupCommit.State,
                         cuts: seq<nat>, s0: Fs, i: int, off: nat, src: seq<int>, ts: seq<Txn>, txs: seq<seq<Write>>)
    returns (k: nat, j: nat)
    requires GroupCommit.BootRun(g, d, n, evs, t) && Serial(t, txs)
    requires Shows(g, pl, enc, d, s0) && Progress(s0, s0, pl.nmeta, i, off, src, 0)
    requires Chain(pl, s0, i, off, src, ts) && Recorded(pl, enc, ts, txs)
    ensures WellFormed(g, t.disk) && j <= k <= |ts|
    ensures Shows(g, pl, enc, Recover(g, Boots(g, t.disk, cuts)), StateAt(s0, ts, k))
    ensures Progress(s0, StateAt(s0, ts, k), pl.nmeta, i, off, src, j)
    ensures t.outstanding == 0 && !t.committing && |t.hist| == |Flat(txs)| ==> k == |ts|
  {
    hide GroupCommit.BootRun, Serial, Shows, Progress, Recover, Boots, Apply, Flat, WellFormed, Carries, Chain, GroupCommit.AllOrNothing;
    GroupCommit.CrashAnywhere(g, d, n, evs, t, cuts);
    k := WholeKept(g, d, n, evs, t, txs);
    if t.outstanding == 0 && !t.committing { GroupCommit.QuietIsDurable(g, d, n, evs, t); }
    ChainShows(g, pl, enc, d, s0, i, off, src, ts, txs, k);
    ShowsSame(g, pl, enc, Apply(d, Flat(txs[..k])), Recover(g, Boots(g, t.disk, cuts)), StateAt(s0, ts, k));
    j := ChunksAt(pl, s0, i, off, src, ts, k);
  }
}
