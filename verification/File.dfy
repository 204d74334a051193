/** filewrite of file.c: a write of any length goes to the inode in chunks, each chunk in a
    transaction of its own, small enough for the log. */
module FileLayer {
  import opened FsSpec
  import opened FsOps
  import opened FsLogged
  import opened FsCount
  import opened FileSystem

  /** ((MAXOPBLOCKS - 1 - 1 - 2) / 2) * 512 */
  const CHUNK: nat := (MAXOPBLOCKS - 1 - 1 - 2) / 2 * 512

  lemma {:induction false} SpliceSplice(c: seq<int>, off: nat, a: seq<int>, b: seq<int>)
    requires off <= |c|
    ensures Splice(Splice(c, off, a), off + |a|, b) == Splice(c, off, a + b)
  {
    var l, r := Splice(Splice(c, off, a), off + |a|, b), Splice(c, off, a + b);
    assert |l| == |r|;
    forall x | 0 <= x < |r| ensures l[x] == r[x] {
      if off <= x < off + |a| + |b| { assert r[x] == (a + b)[x - off]; }
    }
  }

  /** t is the number of chunks that filewrite tries when done of n bytes get written: all it needs, or
      those written and the one that failed. */
  predicate Tried(t: int, done: nat, n: nat) {
    if done < n then done == (t - 1) * CHUNK else (t - 1) * CHUNK < n <= t * CHUNK
  }

  /** The same between two chunks. */
  predicate TriedSoFar(t: int, i: nat, n: nat) { if i < n then i == t * CHUNK else Tried(t, i, n) }

  lemma NoTries(n: nat)
    ensures TriedSoFar(0, 0, n)
  {
  }

  lemma AllTried(t: int, n: nat)
    requires TriedSoFar(t, n, n)
    ensures Tried(t, n, n)
  {
  }

  lemma OneMoreTry(t: int, i: nat, n: nat)
    requires TriedSoFar(t, i, n) && i < n
    ensures Tried(t + 1, i, n) && TriedSoFar(t + 1, i + Min(CHUNK, n - i), n)
    ensures i == t * CHUNK && t >= 0 && i + Min(CHUNK, n - i) == Upto(t + 1, n)
  {
  }

  /** How many of n bytes at off filewrite can get into a file: all, or the chunks before the first that
      reaches beyond the largest file. */
  function Fit(off: nat, n: nat): nat {
    if off + n <= MAXFILE * BSIZE then n else if off > MAXFILE * BSIZE then 0 else (MAXFILE * BSIZE - off) / CHUNK * CHUNK
  }

  /** Chunk t is within it, or the first that is not. */
  lemma FitChunk(off: nat, n: nat, t: nat)
    requires t * CHUNK < n && t * CHUNK <= Fit(off, n) <= n
    ensures var m := t * CHUNK + Min(CHUNK, n - t * CHUNK);
      if off + m <= MAXFILE * BSIZE then m <= Fit(off, n) else t * CHUNK == Fit(off, n)
  {
    if off + n > MAXFILE * BSIZE >= off { Chunks(MAXFILE * BSIZE - off, (MAXFILE * BSIZE - off) / CHUNK, t); }
  }

  lemma Chunks(room: nat, q: nat, t: nat)
    requires q * CHUNK <= room < q * CHUNK + CHUNK && t * CHUNK <= q * CHUNK
    ensures if t * CHUNK + CHUNK <= room then t * CHUNK + CHUNK <= q * CHUNK else t == q
  {
    assert CHUNK == 1536;
    if t < q {
      assert 1536 * (t + 1) <= 1536 * q;
    } else {
      assert t == q;
    }
  }

  lemma FitBound(off: nat, n: nat)
    ensures Fit(off, n) <= n
  {
  }

  /** A chunk ends where the bytes up to its end do. */
  lemma ChunkEnd(off: nat, i: nat, n: nat, all: nat)
    requires 0 < n
    ensures off / BSIZE <= (off + i) / BSIZE <= End(off, i) <= End(off, i + n) == End(off + i, n)
    ensures i + n <= all ==> End(off, i + n) <= End(off, all)
  {
  }

  /** The first done of n bytes for off of file i are written and paid for. */
  ghost predicate Account(s0: Fs, s: Fs, i: nat, off: nat, n: nat, done: nat) {
    && Paid(s0, s, i, off / BSIZE, End(off, done)) && done <= Fit(off, n) && i < |s0.inodes| && i < |s.inodes|
    && if done == 0 then s == s0 else off <= s0.inodes[i].size && off + done <= s.inodes[i].size
  }

  /** What a write of n bytes takes, chunk by chunk, is not there. */
  ghost predicate Beyond(s0: Fs, i: nat, off: nat, n: nat) {
    i < |s0.inodes| && off <= s0.inodes[i].size && FreeCount(s0.used) < WriteCost(s0, i, off, Fit(off, n))
  }

  /** What filewrite gets done if it is. */
  function Done(size: int, off: nat, n: nat): nat { if off > size then 0 else Fit(off, n) }

  lemma AccountNone(s0: Fs, i: nat, off: nat, n: nat)
    requires i < |s0.inodes|
    ensures Account(s0, s0, i, off, n, 0)
  {
    hide Paid;
    PaidNone(s0, i, off / BSIZE);
  }

  lemma AccountShort(s0: Fs, s: Fs, i: nat, off: nat, n: nat, j: nat)
    requires j * CHUNK < n && Account(s0, s, i, off, n, j * CHUNK)
    requires var at, m := off + j * CHUNK, Min(CHUNK, n - j * CHUNK);
      at <= s.inodes[i].size && at + m <= MAXFILE * BSIZE && FreeCount(s.used) < WriteCost(s, i, at, m)
    ensures Beyond(s0, i, off, n)
  {
    hide Paid, FreeCount, Blocks, End, Fit;
    var m := Min(CHUNK, n - j * CHUNK);
    FitBound(off, n);
    FitChunk(off, n, j);
    ChunkEnd(off, j * CHUNK, m, Fit(off, n));
    PaidShort(s0, s, i, off / BSIZE, End(off, j * CHUNK), (off + j * CHUNK) / BSIZE, End(off, j * CHUNK + m), End(off, Fit(off, n)));
  }

  lemma AccountMore(s0: Fs, s: Fs, s': Fs, i: nat, off: nat, n: nat, j: nat)
    requires j * CHUNK < n && Account(s0, s, i, off, n, j * CHUNK) && i < |s'.inodes|
    requires var at, m := off + j * CHUNK, Min(CHUNK, n - j * CHUNK);
      && at <= s.inodes[i].size && at + m <= MAXFILE * BSIZE
      && Paid(s, s', i, at / BSIZE, End(at, m)) && at + m <= s'.inodes[i].size
    ensures Account(s0, s', i, off, n, j * CHUNK + Min(CHUNK, n - j * CHUNK))
  {
    hide Paid, FreeCount, Blocks, End, Fit;
    var m := Min(CHUNK, n - j * CHUNK);
    FitBound(off, n);
    FitChunk(off, n, j);
    ChunkEnd(off, j * CHUNK, m, Fit(off, n));
    PaidMore(s0, s, s', i, off / BSIZE, End(off, j * CHUNK), (off + j * CHUNK) / BSIZE, End(off, j * CHUNK + m));
  }

  lemma AccountRefused(s0: Fs, s: Fs, i: nat, off: nat, n: nat, j: nat)
    requires j * CHUNK < n && Account(s0, s, i, off, n, j * CHUNK)
    requires var at, m := off + j * CHUNK, Min(CHUNK, n - j * CHUNK);
      at > s.inodes[i].size || at + m > MAXFILE * BSIZE
    ensures j * CHUNK == Done(s0.inodes[i].size, off, n) && !Beyond(s0, i, off, n)
    ensures Paid(s0, s, i, off / BSIZE, End(off, j * CHUNK))
  {
    hide Paid, FreeCount, Blocks, End, Fit;
    FitBound(off, n);
    FitChunk(off, n, j);
    PaidEnough(s0, s, i, off / BSIZE, End(off, j * CHUNK));
  }

  lemma AccountEnd(s0: Fs, s: Fs, i: nat, off: nat, n: nat)
    requires Account(s0, s, i, off, n, n)
    ensures n == Done(s0.inodes[i].size, off, n) && !Beyond(s0, i, off, n)
    ensures Paid(s0, s, i, off / BSIZE, End(off, n))
  {
    hide Paid, FreeCount, Blocks, End, Fit;
    FitBound(off, n);
    PaidEnough(s0, s, i, off / BSIZE, End(off, n));
  }

  /** c is c0 with the first done bytes of src put in at off; c0 itself if there are none. */
  ghost predicate Received(c: seq<int>, c0: seq<int>, off: nat, src: seq<int>, done: nat)
    requires done <= |src|
  {
    if done == 0 then c == c0 else off <= |c0| && c == Splice(c0, off, src[..done])
  }

  /** Every file but i has the contents it had. */
  ghost predicate FilesKept(s: Fs, s': Fs, i: int) {
    && |s'.inodes| == |s.inodes| && SizesOk(s) && SizesOk(s')
    && forall j :: 0 <= j < |s.inodes| && j != i ==> Content(s', j) == Content(s, j)
  }

  ghost predicate SizesOk(s: Fs) { forall j :: 0 <= j < |s.inodes| ==> 0 <= s.inodes[j].size }

  lemma KeptAgain(s: Fs, s1: Fs, s2: Fs, i: int)
    requires FilesKept(s, s1, i) && FilesKept(s1, s2, i)
    ensures FilesKept(s, s2, i)
  {
    hide Content;
  }

  lemma KeptSoFar(v: Volume)
    requires v.Valid()
    ensures forall i :: FilesKept(v.S(), v.S(), i)
  {
    hide Content, PointersOwned, OwnersPoint, NothingLost, HoleFree, IsFree, BitmapShape, Slot;
  }

  // ---------------------------------------------------------------- the transactions of one write

  /** A volume in order: blocks with one owner each, and files without holes. */
  ghost predicate Consistent(s: Fs, nmeta: nat) { HoleFree(s) && exists owner :: Owned(s, nmeta, owner) }

  /** The bytes in the first j chunks. */
  function Upto(j: nat, n: nat): nat { if j * CHUNK < n then j * CHUNK else n }

  /** The volume s is in order and is s0 with the first j chunks of src written to file i at off. */
  ghost predicate Progress(s0: Fs, s: Fs, nmeta: nat, i: int, off: nat, src: seq<int>, j: nat) {
    && FilesKept(s0, s, i) && 0 <= i < |s0.inodes| && Consistent(s, nmeta)
    && Received(Content(s, i), Content(s0, i), off, src, Upto(j, |src|))
  }

  /** Where the volume keeps its own blocks. */
  datatype Place = Place(nmeta: nat, bmapstart: nat, inodestart: nat)

  /** A transaction: the volume before and after, and the blocks it logged. */
  datatype Txn = Txn(before: Fs, after: Fs, logged: set<int>)

  /** The volume after k transactions. */
  function StateAt(s0: Fs, ts: seq<Txn>, k: nat): Fs
    requires k <= |ts|
  {
    if k == 0 then s0 else ts[k - 1].after
  }

  /** Transaction k of a write: it logs all that it changes, within the quota, and writes chunk k or
      nothing. */
  ghost predicate ChunkOf(pl: Place, s0: Fs, i: int, off: nat, src: seq<int>, k: nat, x: Txn) {
    && Logged(x.before, x.after, x.logged, pl.bmapstart, pl.inodestart) && |x.logged| <= MAXOPBLOCKS
    && (Progress(s0, x.after, pl.nmeta, i, off, src, k + 1) || (x.after == x.before && Progress(s0, x.after, pl.nmeta, i, off, src, k)))
  }

  /** The transactions of one write, one after the other. */
  ghost predicate Chain(pl: Place, s0: Fs, i: int, off: nat, src: seq<int>, ts: seq<Txn>) {
    forall k :: 0 <= k < |ts| ==> ts[k].before == StateAt(s0, ts, k) && ChunkOf(pl, s0, i, off, src, k, ts[k])
  }

  lemma ChainNone(pl: Place, s0: Fs, i: int, off: nat, src: seq<int>)
    ensures Chain(pl, s0, i, off, src, [])
  {
  }

  lemma ChainMore(pl: Place, s0: Fs, i: int, off: nat, src: seq<int>, ts: seq<Txn>, x: Txn)
    requires Chain(pl, s0, i, off, src, ts) && x.before == StateAt(s0, ts, |ts|) && ChunkOf(pl, s0, i, off, src, |ts|, x)
    ensures Chain(pl, s0, i, off, src, ts + [x]) && StateAt(s0, ts + [x], |ts| + 1) == x.after
  {
    hide ChunkOf;
    var us := ts + [x];
    forall k | 0 <= k < |us| ensures us[k].before == StateAt(s0, us, k) && ChunkOf(pl, s0, i, off, src, k, us[k]) {
      assert k < |ts| ==> us[k] == ts[k] && StateAt(s0, us, k) == StateAt(s0, ts, k);
    }
  }

  lemma ProgressNone(v: Volume, i: nat, off: nat, src: seq<int>)
    requires v.Valid() && i < |v.inodes|
    ensures Progress(v.S(), v.S(), v.nmeta, i, off, src, 0)
  {
    hide Content, PointersOwned, OwnersPoint, NothingLost, HoleFree, IsFree, BitmapShape, Slot;
    KeptSoFar(v);
    InOrder(v);
  }

  lemma InOrder(v: Volume)
    requires v.Valid()
    ensures Consistent(v.S(), v.nmeta)
  {
    hide HoleFree, IsFree, BitmapShape, Owned;
  }

  /** One more chunk. */
  lemma ProgressMore(s0: Fs, s: Fs, s': Fs, nmeta: nat, i: int, off: nat, src: seq<int>, j: nat)
    requires Progress(s0, s, nmeta, i, off, src, j) && FilesKept(s, s', i) && Consistent(s', nmeta) && j * CHUNK < |src|
    requires var n := j * CHUNK; off + n <= |Content(s, i)| && Content(s', i) == Splice(Content(s, i), off + n, src[n..n + Min(CHUNK, |src| - n)])
    ensures Progress(s0, s', nmeta, i, off, src, j + 1)
  {
    hide Content, Consistent, Splice;
    KeptAgain(s0, s, s', i);
    ChunkWritten(Content(s0, i), Content(s, i), off, src, j * CHUNK, Min(CHUNK, |src| - j * CHUNK));
  }

  // ---------------------------------------------------------------- a write under way

  /** The first done bytes of src are in file i at off, by the transactions ts. */
  ghost predicate Going(pl: Place, s0: Fs, s: Fs, i: nat, off: nat, src: seq<int>, ts: seq<Txn>, done: nat) {
    && done == Upto(|ts|, |src|) && TriedSoFar(|ts|, done, |src|)
    && Chain(pl, s0, i, off, src, ts) && StateAt(s0, ts, |ts|) == s
    && Progress(s0, s, pl.nmeta, i, off, src, |ts|) && Account(s0, s, i, off, |src|, done)
  }

  /** And that is how far it goes. */
  ghost predicate Over(pl: Place, s0: Fs, s: Fs, i: nat, off: nat, src: seq<int>, ts: seq<Txn>, done: nat) {
    && i < |s0.inodes| == |s.inodes| && 0 <= s0.inodes[i].size && 0 <= s.inodes[i].size
    && done <= |src| && done == Done(s0.inodes[i].size, off, |src|) && !Beyond(s0, i, off, |src|)
    && Paid(s0, s, i, off / BSIZE, End(off, done)) && Received(Content(s, i), Content(s0, i), off, src, done)
    && FilesKept(s0, s, i) && Tried(|ts|, done, |src|) && Chain(pl, s0, i, off, src, ts) && StateAt(s0, ts, |ts|) == s
  }

  lemma GoingNone(v: Volume, i: nat, off: nat, src: seq<int>)
    requires v.Valid() && i < |v.inodes|
    ensures Going(Place(v.nmeta, v.bmapstart, v.inodestart), v.S(), v.S(), i, off, src, [], 0)
  {
    hide Account, Progress, Chain;
    NoTries(|src|);
    ChainNone(Place(v.nmeta, v.bmapstart, v.inodestart), v.S(), i, off, src);
    ProgressNone(v, i, off, src);
    AccountNone(v.S(), i, off, |src|);
  }

  lemma GoingShort(pl: Place, s0: Fs, s: Fs, i: nat, off: nat, src: seq<int>, ts: seq<Txn>, done: nat)
    requires Going(pl, s0, s, i, off, src, ts, done) && done < |src| && i < |s.inodes|
    requires var at, m := off + done, Min(CHUNK, |src| - done);
      at <= s.inodes[i].size && at + m <= MAXFILE * BSIZE && FreeCount(s.used) < WriteCost(s, i, at, m)
    ensures Beyond(s0, i, off, |src|)
  {
    hide Account, Progress, Chain, Beyond, FreeCount, Blocks, End, Fit;
    OneMoreTry(|ts|, done, |src|);
    AccountShort(s0, s, i, off, |src|, |ts|);
  }

  lemma GoingRefused(pl: Place, s0: Fs, i: nat, off: nat, src: seq<int>, ts: seq<Txn>, done: nat, x: Txn)
    requires Going(pl, s0, x.before, i, off, src, ts, done) && done < |src| && x.after == x.before && i < |x.before.inodes|
    requires var at, m := off + done, Min(CHUNK, |src| - done); at > x.before.inodes[i].size || at + m > MAXFILE * BSIZE
    requires Logged(x.before, x.after, x.logged, pl.bmapstart, pl.inodestart) && |x.logged| <= MAXOPBLOCKS
    ensures Over(pl, s0, x.after, i, off, src, ts + [x], done)
  {
    hide Progress, Chain, Beyond, Done, Paid, End, Fit, Tried, Logged, ChunkOf, FilesKept, Content, Received;
    OneMoreTry(|ts|, done, |src|);
    AccountRefused(s0, x.before, i, off, |src|, |ts|);
    ChunkRefused(pl, s0, i, off, src, |ts|, x);
    ChainMore(pl, s0, i, off, src, ts, x);
    ProgressMeans(s0, x.after, pl.nmeta, i, off, src, |ts|, done);
  }

  lemma GoingMore(pl: Place, s0: Fs, i: nat, off: nat, src: seq<int>, ts: seq<Txn>, done: nat, x: Txn)
    requires Going(pl, s0, x.before, i, off, src, ts, done) && done < |src| && i < |x.before.inodes| == |x.after.inodes|
    requires 0 <= x.before.inodes[i].size && 0 <= x.after.inodes[i].size
    requires var at, m := off + done, Min(CHUNK, |src| - done);
      && at <= x.before.inodes[i].size && at + m <= MAXFILE * BSIZE && Paid(x.before, x.after, i, at / BSIZE, End(at, m))
      && Content(x.after, i) == Splice(Content(x.before, i), at, src[done..done + m])
    requires FilesKept(x.before, x.after, i) && Consistent(x.after, pl.nmeta)
    requires Logged(x.before, x.after, x.logged, pl.bmapstart, pl.inodestart) && |x.logged| <= MAXOPBLOCKS
    ensures Going(pl, s0, x.after, i, off, src, ts + [x], done + Min(CHUNK, |src| - done))
  {
    hide Account, Progress, Chain, Paid, End, Fit, Tried, TriedSoFar, Logged, ChunkOf, FilesKept, Content, Splice, Consistent;
    OneMoreTry(|ts|, done, |src|);
    AccountMore(s0, x.before, x.after, i, off, |src|, |ts|);
    ProgressMore(s0, x.before, x.after, pl.nmeta, i, off, src, |ts|);
    ChunkDone(pl, s0, i, off, src, |ts|, x);
    ChainMore(pl, s0, i, off, src, ts, x);
  }

  lemma GoingEnd(pl: Place, s0: Fs, s: Fs, i: nat, off: nat, src: seq<int>, ts: seq<Txn>)
    requires Going(pl, s0, s, i, off, src, ts, |src|)
    ensures Over(pl, s0, s, i, off, src, ts, |src|)
  {
    hide Progress, Chain, Beyond, Done, Paid, End, Fit, Tried, FilesKept, Content, Received;
    AllTried(|ts|, |src|);
    AccountEnd(s0, s, i, off, |src|);
    ProgressMeans(s0, s, pl.nmeta, i, off, src, |ts|, |src|);
  }

  /** txns is specification only: the transactions that writes to the file made. */
  class OpenFile {
    const inum: nat
    const writable: bool
    var off: nat
    ghost var txns: seq<Txn>

    constructor (inum: nat, writable: bool)
      ensures this.inum == inum && this.writable == writable && off == 0 && txns == []
    {
      this.inum, this.writable, off, txns := inum, writable, 0, [];
    }

    /** filewrite on an inode.  Whatever happens short of a full disk, the file has received a
        prefix src[..done] at the old offset, the offset has moved by done, and the result tells
        whether done is everything; a call that stops early stopped because the next chunk does
        not fit in a file.  The disk is full exactly if it has fewer free blocks than that takes.  There is one transaction for each chunk tried, from the volume that the
        one before left to one in order with that chunk written; each logged every block it changed,
        at most MAXOPBLOCKS.  No chunk is ever written short. */
    method FileWrite(v: Volume, src: seq<int>) returns (r: Outcome, ghost done: nat)
      requires v.Valid() && inum < |v.inodes| && off < UINT && |src| < UINT
      modifies this`off, this`txns, v`bmap, v`blocks, v`used, v`logged, v`inodes, v`owner
      ensures !r.ShortWrite? && (r.OutOfBlocks? ==> AllUsed(v.used))
      ensures r.OutOfBlocks? <==> writable && Beyond(old(v.S()), inum, old(off), |src|)
      ensures r.Ret? && writable ==> done == Done(old(v.inodes)[inum].size, old(off), |src|)
      ensures r.Ret? && writable ==> Paid(old(v.S()), v.S(), inum, old(off) / BSIZE, End(old(off), done))
      ensures !writable ==> r == Ret(-1) && v.S() == old(v.S()) && off == old(off) && txns == old(txns)
      ensures r.Ret? ==> v.Valid() && |v.inodes| == |old(v.inodes)|
      ensures r.Ret? && writable ==> done <= |src| && off == old(off) + done
      ensures r.Ret? && writable ==> (r.n == |src| <==> done == |src|) && (r.n == |src| || r.n == -1)
      ensures r.Ret? && writable ==> Received(Content(v.S(), inum), old(Content(v.S(), inum)), old(off), src, done)
      ensures r.Ret? && writable && done < |src| ==>
        off > v.inodes[inum].size || off + Min(CHUNK, |src| - done) > MAXFILE * BSIZE
      ensures r.Ret? ==> FilesKept(old(v.S()), v.S(), inum)
      ensures r.Ret? && writable ==> old(txns) <= txns && Tried(|txns| - |old(txns)|, done, |src|)
      ensures r.Ret? && writable ==> var ts := txns[|old(txns)|..];
        && Chain(Place(v.nmeta, v.bmapstart, v.inodestart), old(v.S()), inum, old(off), src, ts)
        && StateAt(old(v.S()), ts, |ts|) == v.S()
    {
      hide Content, Splice, PointersOwned, OwnersPoint, NothingLost, HoleFree, IsFree, BitmapShape, Slot, AllUsed, Tried,
        FilesKept, Chain, Logged, Consistent, FreeCount, Blocks, Paid, End, Received, Beyond, Done, Going;
      done := 0;
      KeptSoFar(v);
      if !writable {
        return Ret(-1), done;
      }
      ghost var s0, pl, ts := v.S(), Place(v.nmeta, v.bmapstart, v.inodestart), [];
      GoingNone(v, inum, off, src);
      var i, short := 0, false;
      while i < |src|
        invariant 0 <= i <= |src| && v.Valid() && |v.inodes| == |old(v.inodes)| && off == old(off) + i && done == i && !short && off < UINT
        invariant txns == old(txns) + ts && Going(pl, s0, v.S(), inum, old(off), src, ts, i)
      {
        var n1 := |src| - i;
        if n1 > CHUNK {
          n1 := CHUNK;
        }
        ghost var s := v.S();
        r := WriteChunk(v, src[i..i + n1]);
        if !r.Ret? {
          GoingShort(pl, s0, s, inum, old(off), src, ts, i);
          return;
        }
        ghost var x := Txn(s, v.S(), v.logged);
        if r.n < 0 {
          GoingRefused(pl, s0, inum, old(off), src, ts, i, x);
          ts := ts + [x];
          break;
        }
        short := r.n != n1;
        if short {
          break;
        }
        InOrder(v);
        GoingMore(pl, s0, inum, old(off), src, ts, i, x);
        ts := ts + [x];
        i := i + r.n;
        done := i;
      }
      if i == |src| { GoingEnd(pl, s0, v.S(), inum, old(off), src, ts); }
      assert txns[|old(txns)|..] == ts;
      r := if short then ShortWrite else if i == |src| then Ret(|src|) else Ret(-1);
    }

    /** One round of filewrite: begin_op, writei at the offset, end_op. */
    method WriteChunk(v: Volume, piece: seq<int>) returns (r: Outcome)
      requires v.Valid() && inum < |v.inodes| && off < UINT && |piece| <= CHUNK
      modifies this`off, this`txns, v`bmap, v`blocks, v`used, v`logged, v`inodes, v`owner
      ensures r.Ret? || (r.OutOfBlocks? && AllUsed(v.used))
      ensures r.OutOfBlocks? <==>
        && old(off) <= old(v.inodes)[inum].size && old(off) + |piece| <= MAXFILE * BSIZE
        && FreeCount(old(v.used)) < WriteCost(old(v.S()), inum, old(off), |piece|)
      ensures r.Ret? && r.n != -1 ==> Paid(old(v.S()), v.S(), inum, old(off) / BSIZE, End(old(off), |piece|))
      ensures r.Ret? ==> v.Valid() && |v.inodes| == |old(v.inodes)| && |v.logged| <= MAXOPBLOCKS && txns == old(txns) + [Txn(old(v.S()), v.S(), v.logged)]
      ensures r.Ret? ==> Logged(old(v.S()), v.S(), v.logged, v.bmapstart, v.inodestart)
      ensures r.Ret? ==> (r.n == -1 <==> old(off) > old(v.inodes)[inum].size || old(off) + |piece| > MAXFILE * BSIZE)
      ensures r.Ret? && r.n == -1 ==> v.S() == old(v.S()) && off == old(off)
      ensures r.Ret? && r.n != -1 ==> r.n == |piece| && off == old(off) + |piece| && old(off) <= |old(Content(v.S(), inum))|
      ensures r.Ret? && r.n != -1 ==> Content(v.S(), inum) == Splice(old(Content(v.S(), inum)), old(off), piece)
      ensures r.Ret? ==> FilesKept(old(v.S()), v.S(), inum)
    {
      hide Content, Splice, PointersOwned, OwnersPoint, NothingLost, HoleFree, IsFree, BitmapShape, Slot, AllUsed, Logged, FreeCount, Blocks, Paid, End;
      v.logged := {};
      r := v.Writei(inum, piece, off);
      assert v.logged - {} == v.logged;
      if r.Ret? && r.n > 0 {
        off := off + r.n;
      }
      txns := txns + [Txn(old(v.S()), v.S(), v.logged)];
    }
  }

  /** One more chunk extends the spliced prefix. */
  lemma ChunkWritten(c0: seq<int>, before: seq<int>, off: nat, src: seq<int>, i: nat, n: nat)
    requires i + n <= |src| && 0 < n && off + i <= |before| && Received(before, c0, off, src, i)
    ensures Received(Splice(before, off + i, src[i..i + n]), c0, off, src, i + n)
  {
    assert src[..i] + src[i..i + n] == src[..i + n];
    if i == 0 {
      assert src[0..n] == src[..n];
    } else {
      SpliceSplice(c0, off, src[..i], src[i..i + n]);
    }
  }

  lemma ProgressMeans(s0: Fs, s: Fs, nmeta: nat, i: int, off: nat, src: seq<int>, j: nat, done: nat)
    requires Progress(s0, s, nmeta, i, off, src, j) && done == Upto(j, |src|)
    ensures FilesKept(s0, s, i) && 0 <= i < |s0.inodes| == |s.inodes| && 0 <= s0.inodes[i].size && 0 <= s.inodes[i].size
    ensures Received(Content(s, i), Content(s0, i), off, src, done)
  {
    hide Content, Consistent, Received;
  }

  lemma ChunkRefused(pl: Place, s0: Fs, i: int, off: nat, src: seq<int>, j: nat, x: Txn)
    requires Progress(s0, x.before, pl.nmeta, i, off, src, j) && x.after == x.before
    requires Logged(x.before, x.after, x.logged, pl.bmapstart, pl.inodestart) && |x.logged| <= MAXOPBLOCKS
    ensures ChunkOf(pl, s0, i, off, src, j, x)
  {
    hide Progress, Logged;
  }

  lemma ChunkDone(pl: Place, s0: Fs, i: int, off: nat, src: seq<int>, j: nat, x: Txn)
    requires Progress(s0, x.after, pl.nmeta, i, off, src, j + 1)
    requires Logged(x.before, x.after, x.logged, pl.bmapstart, pl.inodestart) && |x.logged| <= MAXOPBLOCKS
    ensures ChunkOf(pl, s0, i, off, src, j, x)
  {
    hide Progress, Logged;
  }
}
