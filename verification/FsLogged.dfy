/** What a transaction of fs.c must log: every block that differs afterwards.  The free map lies in
    bitmap blocks, the inodes in inode blocks, and all else in blocks of its own. */
module FsLogged {
  import opened FsSpec
  import opened FsOps

  const BPB: nat := 4096     // bitmap bits per block
  const IPB: nat := 8        // inodes per block

  ghost predicate BlocksLogged(s: Fs, t: Fs, log: set<int>) {
    |t.blocks| == |s.blocks| && forall b :: 0 <= b < |s.blocks| && b !in log ==> t.blocks[b] == s.blocks[b]
  }

  ghost predicate MapLogged(s: Fs, t: Fs, log: set<int>, bmapstart: int) {
    |t.used| == |s.used| && forall b :: 0 <= b < |s.used| && b / BPB + bmapstart !in log ==> t.used[b] == s.used[b]
  }

  /** From s to t every change is in a logged block, but for inode i. */
  ghost predicate LoggedBut(s: Fs, t: Fs, log: set<int>, bmapstart: int, i: int) {
    && BlocksLogged(s, t, log) && MapLogged(s, t, log, bmapstart)
    && |t.inodes| == |s.inodes| && forall j :: 0 <= j < |s.inodes| && j != i ==> t.inodes[j] == s.inodes[j]
  }

  /** From s to t every change is in a logged block. */
  ghost predicate Logged(s: Fs, t: Fs, log: set<int>, bmapstart: int, inodestart: int) {
    && BlocksLogged(s, t, log) && MapLogged(s, t, log, bmapstart)
    && |t.inodes| == |s.inodes| && forall j :: 0 <= j < |s.inodes| && j / IPB + inodestart !in log ==> t.inodes[j] == s.inodes[j]
  }

  lemma NothingToLog(s: Fs, log: set<int>, bmapstart: int, inodestart: int, i: int)
    ensures LoggedBut(s, s, log, bmapstart, i) && Logged(s, s, log, bmapstart, inodestart)
  {
  }

  lemma LoggedTrans(s: Fs, t: Fs, u: Fs, a: set<int>, b: set<int>, bmapstart: int, i: int)
    requires LoggedBut(s, t, a, bmapstart, i) && LoggedBut(t, u, b, bmapstart, i) && a <= b
    ensures LoggedBut(s, u, b, bmapstart, i)
  {
  }

  lemma AttachedLogged(fs: Fs, i: int, k: int, b: int, log: set<int>, bmapstart: int)
    requires 0 <= i < |fs.inodes| && 0 <= k < |fs.inodes[i].addrs| && 0 <= b < |fs.used| == |fs.blocks|
    requires b in log && b / BPB + bmapstart in log
    ensures LoggedBut(fs, Attached(fs, i, k, b), log, bmapstart, i)
  {
  }

  lemma EnteredLogged(fs: Fs, ind: int, e: int, b: int, log: set<int>, bmapstart: int, i: int)
    requires 0 <= b < |fs.used| == |fs.blocks| && 0 <= ind < |fs.blocks| && ind != b && |fs.blocks[ind]| == BSIZE && 0 <= e < NINDIRECT
    requires b in log && b / BPB + bmapstart in log && ind in log
    ensures LoggedBut(fs, Entered(fs, ind, e, b), log, bmapstart, i)
  {
    hide SetWord;
  }

  lemma PutLogged(fs: Fs, a: int, data: seq<int>, log: set<int>, bmapstart: int, i: int)
    requires 0 <= a < |fs.blocks| && a in log
    ensures LoggedBut(fs, PutBlock(fs, a, data), log, bmapstart, i)
  {
  }

  /** iupdate completes the account, and is not needed if the inode is as it was. */
  lemma InodeLogged(s: Fs, t: Fs, size: int, a: set<int>, b: set<int>, bmapstart: int, inodestart: int, i: int)
    requires LoggedBut(s, t, a, bmapstart, i) && a <= b && 0 <= i < |s.inodes|
    requires i / IPB + inodestart in b || SetSize(t, i, size).inodes[i] == s.inodes[i]
    ensures Logged(s, SetSize(t, i, size), b, bmapstart, inodestart)
  {
  }

  // ---------------------------------------------------------------- what itrunc logs

  /** The bitmap blocks of the blocks of inode i. */
  ghost function BitmapBlocks(owner: Owner, i: int, bmapstart: int): set<int> {
    set b | b in owner && owner[b].0 == i :: b / BPB + bmapstart
  }

  /** Those of the first m pointers that itrunc visits. */
  ghost function Visited(fs: Fs, i: int, m: int, bmapstart: int): set<int> {
    set k | 0 <= k < m && Slot(fs, i, TruncSlot(k)) != 0 :: Slot(fs, i, TruncSlot(k)) / BPB + bmapstart
  }

  lemma VisitNext(fs: Fs, i: int, m: nat, bmapstart: int)
    ensures Visited(fs, i, m + 1, bmapstart) == Visited(fs, i, m, bmapstart)
      + if Slot(fs, i, TruncSlot(m)) == 0 then {} else {Slot(fs, i, TruncSlot(m)) / BPB + bmapstart}
  {
    hide Slot, TruncSlot;
    var u, v := Visited(fs, i, m, bmapstart), Visited(fs, i, m + 1, bmapstart);
    forall x | x in v ensures x in u || (Slot(fs, i, TruncSlot(m)) != 0 && x == Slot(fs, i, TruncSlot(m)) / BPB + bmapstart) {
      var k :| 0 <= k < m + 1 && Slot(fs, i, TruncSlot(k)) != 0 && x == Slot(fs, i, TruncSlot(k)) / BPB + bmapstart;
    }
  }

  /** With no indirect block there is nothing to visit behind the direct ones. */
  lemma {:induction false} VisitNoIndirect(fs: Fs, i: int, m: nat, bmapstart: int)
    requires 0 <= i < |fs.inodes| && |fs.inodes[i].addrs| == NDIRECT + 1 && fs.inodes[i].addrs[NDIRECT] == 0 && NDIRECT <= m <= NSLOTS
    ensures Visited(fs, i, m, bmapstart) == Visited(fs, i, NDIRECT, bmapstart)
  {
    hide Visited, Word;
    if m > NDIRECT {
      VisitNext(fs, i, m - 1, bmapstart);
      VisitNoIndirect(fs, i, m - 1, bmapstart);
    }
  }

  /** The pointer in slot k is visited, sooner or later. */
  lemma VisitedAt(fs: Fs, i: int, k: int, bmapstart: int)
    requires 0 <= k < NSLOTS
    ensures Slot(fs, i, k) != 0 ==> Slot(fs, i, k) / BPB + bmapstart in Visited(fs, i, NSLOTS, bmapstart)
  {
    hide Slot;
    assert TruncSlot(TruncOrder(k)) == k && 0 <= TruncOrder(k) < NSLOTS;
  }

  /** All pointers of the inode are visited. */
  lemma VisitedAll(fs: Fs, nmeta: nat, owner: Owner, i: int, bmapstart: int)
    requires Owned(fs, nmeta, owner) && 0 <= i < |fs.inodes|
    ensures Visited(fs, i, NSLOTS, bmapstart) == BitmapBlocks(owner, i, bmapstart)
  {
    hide Slot, NothingLost, TruncSlot;
    var v, w := Visited(fs, i, NSLOTS, bmapstart), BitmapBlocks(owner, i, bmapstart);
    forall x | x in v ensures x in w {
      var k :| 0 <= k < NSLOTS && Slot(fs, i, TruncSlot(k)) != 0 && x == Slot(fs, i, TruncSlot(k)) / BPB + bmapstart;
      InBitmapBlocks(owner, i, bmapstart, Slot(fs, i, TruncSlot(k)));
    }
    forall x | x in w ensures x in v {
      var b :| b in owner && owner[b].0 == i && x == b / BPB + bmapstart;
      VisitedAt(fs, i, owner[b].1, bmapstart);
    }
  }

  lemma InBitmapBlocks(owner: Owner, i: int, bmapstart: int, b: int)
    ensures b in owner && owner[b].0 == i ==> b / BPB + bmapstart in BitmapBlocks(owner, i, bmapstart)
  {
  }

  lemma TruncatedLogged(fs: Fs, owner: Owner, i: int, log: set<int>, bmapstart: int, inodestart: int)
    requires 0 <= i < |fs.inodes| && BitmapBlocks(owner, i, bmapstart) <= log && i / IPB + inodestart in log
    ensures Logged(fs, Truncated(fs, owner, i), log, bmapstart, inodestart)
  {
    var t := Truncated(fs, owner, i);
    forall b | 0 <= b < |fs.used| && b / BPB + bmapstart !in log ensures t.used[b] == fs.used[b] {
      InBitmapBlocks(owner, i, bmapstart, b);
    }
  }

  /** On a volume of up to nine bitmap blocks itrunc, with its inode block, stays within ten. */
  lemma TruncFits(fs: Fs, nmeta: nat, owner: Owner, i: int, bmapstart: int, inodestart: int)
    requires Owned(fs, nmeta, owner) && |fs.used| <= 9 * BPB
    ensures |BitmapBlocks(owner, i, bmapstart) + {i / IPB + inodestart}| <= 10
  {
    hide Slot, NothingLost, PointersOwned;
    var w := BitmapBlocks(owner, i, bmapstart);
    forall x | x in w ensures x in Range(bmapstart, 9) {
      var b :| b in owner && owner[b].0 == i && x == b / BPB + bmapstart;
      assert 0 <= b / BPB < 9;
    }
    Subset(w, Range(bmapstart, 9));
  }

  function Range(start: int, n: nat): (r: set<int>)
    ensures |r| == n && forall x :: x in r <==> start <= x < start + n
  {
    if n == 0 then {} else Range(start, n - 1) + {start + n - 1}
  }

  lemma Subset(a: set<int>, b: set<int>)
    requires a <= b
    ensures |a| <= |b|
  {
    assert b == a + (b - a);
  }

  // ---------------------------------------------------------------- and on larger volumes

  /** The block that the k-th pointer of the spread file leads to: one under each bitmap block. */
  function SpreadBlock(k: int): int { if k == 0 then 1 else k * BPB }

  predicate SpreadUsed(b: int) { b <= 1 || (b % BPB == 0 && b / BPB < 10) }

  /** One file of ten blocks, on a volume with one block of metadata. */
  function Spread(n: nat): Fs {
    Fs(seq(n, b => SpreadUsed(b)), seq(n, _ => Zeros()), [Inode(seq(NDIRECT + 1, k => if k < 10 then SpreadBlock(k) else 0), 10 * BSIZE)])
  }

  ghost function SpreadOwner(): Owner { map k: int | 0 <= k < 10 :: SpreadBlock(k) := (0, k) }

  lemma SpreadAt(b: int)
    ensures b in SpreadOwner() <==> 1 <= b && SpreadUsed(b)
    ensures b in SpreadOwner() ==> SpreadOwner()[b] == (0, b / BPB) && SpreadBlock(b / BPB) == b && 0 <= b / BPB < 10
  {
    if 1 <= b && SpreadUsed(b) { assert b == SpreadBlock(b / BPB); }
  }

  lemma SpreadSlot(n: nat, i: int, k: int)
    requires n > 9 * BPB
    ensures Slot(Spread(n), i, k) == if i == 0 && 0 <= k < 10 then SpreadBlock(k) else 0
  {
  }

  lemma SpreadOwned(n: nat)
    requires n > 9 * BPB
    ensures Owned(Spread(n), 1, SpreadOwner()) && HoleFree(Spread(n))
  {
    hide Slot, SpreadOwner;
    var fs := Spread(n);
    forall i, k ensures Slot(fs, i, k) == if i == 0 && 0 <= k < 10 then SpreadBlock(k) else 0 { SpreadSlot(n, i, k); }
    forall b ensures b in SpreadOwner() <==> 1 <= b && SpreadUsed(b) { SpreadAt(b); }
    forall i, k | Slot(fs, i, k) != 0 ensures Slot(fs, i, k) in SpreadOwner() && SpreadOwner()[Slot(fs, i, k)] == (i, k) {
      SpreadAt(SpreadBlock(k));
    }
    forall b | b in SpreadOwner() ensures b < n && SpreadOwner()[b] == (0, b / BPB) && SpreadBlock(b / BPB) == b && 0 <= b / BPB < 10 { SpreadAt(b); }
  }

  lemma SpreadBitmap(k: int, bmapstart: int)
    requires 0 <= k < 10
    ensures k + bmapstart in BitmapBlocks(SpreadOwner(), 0, bmapstart)
  {
    hide SpreadOwner;
    SpreadAt(SpreadBlock(k));
    InBitmapBlocks(SpreadOwner(), 0, bmapstart, SpreadBlock(k));
  }

  /** On every larger volume there can be a file whose truncation logs eleven blocks: the call that
      truncates it does not fit into what begin_op reserves. */
  lemma TruncTooMuch(n: nat, bmapstart: int, inodestart: int)
    requires n > 9 * BPB && inodestart < bmapstart
    ensures Owned(Spread(n), 1, SpreadOwner()) && HoleFree(Spread(n)) && |Spread(n).used| == n
    ensures |BitmapBlocks(SpreadOwner(), 0, bmapstart) + {0 / IPB + inodestart}| > 10
  {
    hide Owned, HoleFree, SpreadOwner, BitmapBlocks, Range;
    SpreadOwned(n);
    var w, r := BitmapBlocks(SpreadOwner(), 0, bmapstart), Range(bmapstart, 10);
    forall x | x in r ensures x in w { SpreadBitmap(x - bmapstart, bmapstart); }
    assert inodestart !in r && |r + {inodestart}| == 11;
    Subset(r + {inodestart}, w + {inodestart});
  }
}
