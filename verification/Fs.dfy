/** The block and inode layers of fs.c as code: the bitmap in bytes, the loops of balloc, bmap,
    itrunc, readi and writei.  `logged` collects the block numbers handed to log_write, so that the
    size of a transaction can be counted and that it logs every change can be stated. */
module FileSystem {
  import opened FsSpec
  import opened FsOps
  import opened FsLogged
  import opened FsCount

  const UINT: nat := 0x1_0000_0000
  const MAXOPBLOCKS: nat := 10

  /** When writei takes a write: it starts inside the file or at its end, and ends within the largest file,
      the sum taken modulo 2^32. */
  predicate Accepts(size: int, off: nat, n: nat) {
    off <= size && (off + n) % UINT >= off && off + n <= MAXFILE * BSIZE
  }

  /** How a call ends: a return value, or one of the panics on the way. */
  datatype Outcome = Ret(n: int) | OutOfBlocks | ShortWrite

  // ---------------------------------------------------------------- the bitmap

  function Mask(i: nat): bv8 requires i < 8 { 1 << i }

  predicate Clear(x: bv8, i: nat) requires i < 8 { x & Mask(i) == 0 }

  function SetBit(x: bv8, i: nat): bv8 requires i < 8 { x | Mask(i) }
  function ClearBit(x: bv8, i: nat): bv8 requires i < 8 { x & !Mask(i) }

  lemma Masks(i: nat)
    requires i < 8
    ensures Mask(i) == 1 || Mask(i) == 2 || Mask(i) == 4 || Mask(i) == 8
         || Mask(i) == 16 || Mask(i) == 32 || Mask(i) == 64 || Mask(i) == 128
  {
  }

  lemma OrMask(x: bv8, i: nat, j: nat)
    requires i < 8 && j < 8
    ensures Clear(SetBit(x, i), j) <==> i != j && Clear(x, j)
  {
    Masks(i);
    Masks(j);
  }

  lemma AndNotMask(x: bv8, i: nat, j: nat)
    requires i < 8 && j < 8
    ensures Clear(ClearBit(x, i), j) <==> i == j || Clear(x, j)
  {
    Masks(i);
    Masks(j);
  }

  type Bitmap = seq<seq<bv8>>

  ghost predicate BitmapShape(bm: Bitmap, size: nat) {
    size <= |bm| * BPB && forall j :: 0 <= j < |bm| ==> |bm[j]| == BSIZE
  }

  /** Where the bit of block b is: bitmap block, byte in it, bit in that. */
  function InBlock(b: nat): nat { b / BPB }
  function InByte(b: nat): nat { b % BPB / 8 }
  function InBit(b: nat): (r: nat) ensures r < 8 { b % 8 }

  lemma BitPlace(bm: Bitmap, size: nat, b: nat)
    requires BitmapShape(bm, size) && b < size
    ensures InBlock(b) < |bm| && |bm[InBlock(b)]| == BSIZE && InByte(b) < BSIZE
  {
  }

  lemma SamePlace(b: nat, c: nat)
    requires InBlock(b) == InBlock(c) && InByte(b) == InByte(c) && InBit(b) == InBit(c)
    ensures b == c
  {
    assert b % BPB % 8 == b % 8 && c % BPB % 8 == c % 8;
    assert b % BPB == b % BPB / 8 * 8 + b % 8 && c % BPB == c % BPB / 8 * 8 + c % 8;
  }

  /** Is block b free in the bitmap? */
  predicate IsFree(bm: Bitmap, b: nat) {
    InBlock(b) < |bm| && InByte(b) < |bm[InBlock(b)]| && Clear(bm[InBlock(b)][InByte(b)], InBit(b))
  }

  /** One byte of the bitmap rewritten. */
  function PutByte(bm: Bitmap, b: nat, x: bv8): Bitmap
    requires InBlock(b) < |bm| && InByte(b) < |bm[InBlock(b)]|
  {
    bm[InBlock(b) := bm[InBlock(b)][InByte(b) := x]]
  }

  lemma MarkBit(bm: Bitmap, size: nat, b: nat, c: nat)
    requires BitmapShape(bm, size) && b < size && c < size
    ensures InBlock(b) < |bm| && InByte(b) < |bm[InBlock(b)]|
    ensures var x := bm[InBlock(b)][InByte(b)];
      && (IsFree(PutByte(bm, b, SetBit(x, InBit(b))), c) <==> c != b && IsFree(bm, c))
      && (IsFree(PutByte(bm, b, ClearBit(x, InBit(b))), c) <==> c == b || IsFree(bm, c))
  {
    hide Clear, InBlock, InByte, InBit, SetBit, ClearBit;
    BitPlace(bm, size, b);
    BitPlace(bm, size, c);
    var x := bm[InBlock(b)][InByte(b)];
    OrMask(x, InBit(b), InBit(c));
    AndNotMask(x, InBit(b), InBit(c));
    if InBlock(b) == InBlock(c) && InByte(b) == InByte(c) && InBit(b) == InBit(c) { SamePlace(b, c); }
  }

  /** The place of the bit that balloc looks at in round bi of the bitmap block of base. */
  lemma ScanPlace(base: nat, bi: nat)
    requires base % BPB == 0 && bi < BPB
    ensures InBlock(base + bi) == base / BPB && InByte(base + bi) == bi / 8 && InBit(base + bi) == bi % 8
  {
    var q := base / BPB;
    assert base == 4096 * q;
    assert (4096 * q + bi) / 4096 == q && (4096 * q + bi) % 4096 == bi;
    assert 4096 * q + bi == 8 * (512 * q + bi / 8) + bi % 8;
  }

  /** The disk is full. */
  class Volume {
    const size: nat          // sb.size
    const nmeta: nat         // boot block, super block, log, inodes and bitmap
    const bmapstart: nat
    const inodestart: nat
    var bmap: Bitmap
    var blocks: seq<seq<int>>
    var inodes: seq<Inode>
    ghost var used: seq<bool>
    ghost var owner: Owner
    ghost var logged: set<int>

    ghost function S(): Fs
      reads this
    {
      Fs(used, blocks, inodes)
    }

    ghost predicate Bits()
      reads this
    {
      && BitmapShape(bmap, size) && |used| == size == |blocks|
      && forall b :: 0 <= b < size ==> (used[b] <==> !IsFree(bmap, b))
    }

    ghost predicate Sound()
      reads this
    {
      Bits() && Owned(S(), nmeta, owner)
    }

    ghost predicate Valid()
      reads this
    {
      Sound() && HoleFree(S())
    }

    /** An empty file system, as mkfs leaves it before it makes files: the bits of the metadata
        blocks are set and no inode points anywhere. */
    constructor (size: nat, nmeta: nat, bmapstart: nat, inodestart: nat, bmap: Bitmap, blocks: seq<seq<int>>, ninodes: nat)
      requires 0 < nmeta <= size && BitmapShape(bmap, size) && (forall b :: 0 <= b < size ==> (IsFree(bmap, b) <==> nmeta <= b))
      requires |blocks| == size && forall b :: 0 <= b < size ==> |blocks[b]| == BSIZE
      ensures Valid() && this.size == size && this.nmeta == nmeta && this.bmap == bmap && this.blocks == blocks
      ensures |inodes| == ninodes && forall i :: 0 <= i < ninodes ==> inodes[i].size == 0
    {
      hide IsFree, BitmapShape;
      this.size, this.nmeta, this.bmapstart, this.inodestart, this.bmap, this.blocks := size, nmeta, bmapstart, inodestart, bmap, blocks;
      inodes := seq(ninodes, _ => Inode(seq(NDIRECT + 1, _ => 0), 0));
      used, owner, logged := seq(size, b => b < nmeta), map[], {};
    }

    /** balloc: the lowest free block, marked and zeroed; -1 stands for "out of blocks". */
    method Balloc() returns (b: int)
      requires Bits()
      modifies this`bmap, this`blocks, this`used, this`logged
      ensures Bits()
      ensures b == -1 ==> S() == old(S()) && logged == old(logged) && AllUsed(used)
      ensures b != -1 ==> 0 <= b < size && !old(used)[b] && forall c :: 0 <= c < b ==> old(used)[c]
      ensures b != -1 ==> S() == Take(old(S()), b) && logged == old(logged) + {b / BPB + bmapstart, b}
    {
      hide IsFree, InBlock, InByte, InBit;
      var base := 0;
      while base < size
        invariant base % BPB == 0 && Bits() && S() == old(S()) && logged == old(logged)
        invariant forall c :: 0 <= c < base && c < size ==> used[c]
      {
        var bi := 0;
        while bi < BPB && base + bi < size
          invariant 0 <= bi <= BPB && Bits() && S() == old(S()) && logged == old(logged)
          invariant forall c :: 0 <= c < base + bi && c < size ==> used[c]
        {
          var free := TestBit(base, bi);
          if free {
            MarkUsed(base + bi);
            logged := logged + {base / BPB + bmapstart};
            blocks := blocks[base + bi := Zeros()];
            logged := logged + {base + bi};
            b := base + bi;
            assert b / BPB == base / BPB by { ScanPlace(base, bi); BlockOf(b); }
            return;
          }
          bi := bi + 1;
        }
        base := base + BPB;
      }
      b := -1;
    }

    method TestBit(base: nat, bi: nat) returns (free: bool)
      requires Bits() && base % BPB == 0 && bi < BPB && base + bi < size
      ensures free <==> !used[base + bi]
    {
      ScanPlace(base, bi);
      BitPlace(bmap, size, base + bi);
      free := Clear(bmap[base / BPB][bi / 8], bi % 8);
      assert free == IsFree(bmap, base + bi);
    }

    method MarkUsed(b: nat)
      requires Bits() && b < size
      modifies this`bmap, this`used
      ensures Bits() && used == old(used)[b := true]
    {
      hide IsFree, InBlock, InByte, InBit, Clear, SetBit, ClearBit;
      BitPlace(bmap, size, b);
      forall c | 0 <= c < size
        ensures IsFree(PutByte(bmap, b, SetBit(bmap[InBlock(b)][InByte(b)], InBit(b))), c) <==> c != b && IsFree(bmap, c)
      {
        MarkBit(bmap, size, b, c);
      }
      bmap := PutByte(bmap, b, SetBit(bmap[InBlock(b)][InByte(b)], InBit(b)));
      used := used[b := true];
    }

    method MarkFree(b: nat)
      requires Bits() && b < size
      modifies this`bmap, this`used
      ensures Bits() && used == old(used)[b := false]
    {
      hide IsFree, InBlock, InByte, InBit, Clear, SetBit, ClearBit;
      BitPlace(bmap, size, b);
      forall c | 0 <= c < size
        ensures IsFree(PutByte(bmap, b, ClearBit(bmap[InBlock(b)][InByte(b)], InBit(b))), c) <==> c == b || IsFree(bmap, c)
      {
        MarkBit(bmap, size, b, c);
      }
      bmap := PutByte(bmap, b, ClearBit(bmap[InBlock(b)][InByte(b)], InBit(b)));
      used := used[b := false];
    }

    /** bfree: refused ("freeing free block") exactly when the block is free already. */
    method Bfree(b: nat) returns (panicked: bool)
      requires Bits() && b < size
      modifies this`bmap, this`used, this`logged
      ensures Bits()
      ensures panicked <==> !old(used)[b]
      ensures panicked ==> used == old(used) && logged == old(logged)
      ensures !panicked ==> used == old(used)[b := false] && logged == old(logged) + {b / BPB + bmapstart}
    {
      hide IsFree, InBlock, InByte, InBit, Clear, SetBit, ClearBit;
      var base := b - b % BPB;
      assert base % BPB == 0 && base + b % BPB == b;
      var free := TestBit(base, b % BPB);
      if free {
        return true;
      }
      MarkFree(b);
      logged := logged + {b / BPB + bmapstart};
      return false;
    }

    // -------------------------------------------------------------- bmap

    /** The block in addrs[k], allocated now if there is none yet. */
    method AddrOrAlloc(i: nat, k: nat) returns (a: int, ghost bms: set<int>)
      requires Sound() && i < |inodes| && k <= NDIRECT
      modifies this`bmap, this`blocks, this`used, this`logged, this`inodes, this`owner
      ensures old(inodes)[i].addrs[k] != 0 ==>
        a > 0 && S() == old(S()) && owner == old(owner) && logged == old(logged) && bms == {} && Sound()
      ensures |inodes| == |old(inodes)|
      ensures a != -1 ==> Sound() && Grows(old(S()), S(), i) && a == Slot(S(), i, k) && a != 0
      ensures a != -1 ==> logged <= old(logged) + {a} + bms && |bms| <= 1
      ensures a != -1 ==> old(logged) <= logged && LoggedBut(old(S()), S(), logged, bmapstart, i)
      ensures a == -1 ==> AllUsed(used)
      ensures a == -1 <==> old(inodes)[i].addrs[k] == 0 && FreeCount(old(used)) == 0
      ensures a != -1 ==> Charged(old(S()), S(), i, k)
    {
      hide Slot, Grows, PointersOwned, OwnersPoint, NothingLost, IsFree, BitmapShape, LoggedBut, FreeCount;
      NothingToLog(S(), logged, bmapstart, inodestart, i);
      NoneFree(used);
      SlotIsAddr(S(), i, k);
      bms := {};
      a := inodes[i].addrs[k];
      if a == 0 {
        a := Balloc();
        if a == -1 {
          return;
        }
        assert Unused(old(S()), nmeta, a);
        bms := {a / BPB + bmapstart};
        AttachedOwned(old(S()), nmeta, owner, i, k, a);
        AttachedGrows(old(S()), nmeta, owner, i, k, a);
        AttachedLogged(old(S()), i, k, a, logged, bmapstart);
        AttachedBut(old(S()), nmeta, owner, i, k, a);
        inodes := inodes[i := inodes[i].(addrs := inodes[i].addrs[k := a])];
        owner := owner[a := (i, k)];
        assert S() == Attached(old(S()), i, k, a);
        SlotIsAddr(S(), i, k);
      } else {
        GrowsRefl(S(), i);
        MappedInRange(S(), nmeta, owner, i, k);
      }
    }

    /** The block in entry e of the indirect block ind, allocated now if there is none yet. */
    method EntryOrAlloc(i: nat, ind: nat, e: nat) returns (a: int, ghost bms: set<int>)
      requires Sound() && i < |inodes| && e < NINDIRECT && ind == inodes[i].addrs[NDIRECT] != 0
      modifies this`bmap, this`blocks, this`used, this`logged, this`owner
      ensures old(Slot(S(), i, e + NDIRECT + 1)) != 0 ==>
        a > 0 && S() == old(S()) && owner == old(owner) && logged == old(logged) && bms == {} && Sound()
      ensures a != -1 ==> Sound() && Grows(old(S()), S(), i) && a == Slot(S(), i, e + NDIRECT + 1) && a != 0
      ensures a != -1 ==> logged <= old(logged) + {a, ind} + bms && |bms| <= 1
      ensures a != -1 ==> old(logged) <= logged && LoggedBut(old(S()), S(), logged, bmapstart, i)
      ensures a == -1 ==> AllUsed(used)
      ensures a == -1 <==> old(Slot(S(), i, e + NDIRECT + 1)) == 0 && FreeCount(old(used)) == 0
      ensures a != -1 ==> Charged(old(S()), S(), i, e + NDIRECT + 1)
    {
      hide Grows, PointersOwned, OwnersPoint, NothingLost, IsFree, BitmapShape, Word, SetWord, LoggedBut, FreeCount;
      bms := {};
      NoneFree(used);
      NothingToLog(S(), logged, bmapstart, inodestart, i);
      ghost var fs := S();
      IndirectUsed(fs, nmeta, owner, i);
      a := Word(blocks[ind], e);
      assert a == Slot(fs, i, e + NDIRECT + 1);
      if a == 0 {
        a := Balloc();
        if a == -1 {
          return;
        }
        assert Unused(fs, nmeta, a);
        bms := {a / BPB + bmapstart};
        EnteredOwned(fs, nmeta, owner, i, e, a);
        EnteredGrows(fs, nmeta, owner, i, e, a);
        EnteredSlot(fs, nmeta, owner, i, e, a, i, e + NDIRECT + 1);
        EnteredLogged(fs, ind, e, a, logged + {ind}, bmapstart, i);
        EnteredBut(fs, nmeta, owner, i, e, a);
        blocks := blocks[ind := SetWord(blocks[ind], e, a)];
        logged := logged + {ind};
        owner := owner[a := (i, e + NDIRECT + 1)];
        assert S() == Entered(fs, ind, e, a);
      } else {
        GrowsRefl(fs, i);
        MappedInRange(fs, nmeta, owner, i, e + NDIRECT + 1);
      }
    }

    /** bmap: the disk block of the bn-th block of inode i, allocated if missing; -1 stands for a
        panic.  A mapped block costs nothing; a new one logs itself, its bitmap block, and, past
        the direct blocks, the indirect block and perhaps its bitmap block. */
    method Bmap(i: nat, bn: nat) returns (a: int, ghost bms: set<int>)
      requires Sound() && i < |inodes|
      modifies this`bmap, this`blocks, this`used, this`logged, this`inodes, this`owner
      ensures old(Mapped(S(), i, bn)) ==> a != -1 && S() == old(S()) && owner == old(owner) && logged == old(logged) && bms == {}
      ensures a != -1 ==> Sound() && Grows(old(S()), S(), i) && a == MapBlock(S(), i, bn) && a != 0
      ensures a != -1 ==> logged <= old(logged) + {a} + bms + (if bn < NDIRECT then {} else {Slot(S(), i, NDIRECT)})
      ensures a != -1 && bn < NDIRECT ==> |bms| <= 1
      ensures a == -1 ==> AllUsed(used) || bn >= MAXFILE
      ensures a == -1 <==> bn >= MAXFILE || FreeCount(old(used)) < Blocks(old(S()), i, bn, bn + 1)
      ensures a != -1 ==> Paid(old(S()), S(), i, bn, bn + 1)
      ensures a != -1 && bn >= NDIRECT ==> Slot(S(), i, NDIRECT) != 0
      ensures a != -1 && bn >= NDIRECT ==> |bms| <= if old(Slot(S(), i, NDIRECT)) == 0 then 2 else 1
      ensures a != -1 ==> old(logged) <= logged && LoggedBut(old(S()), S(), logged, bmapstart, i)
      ensures a != -1 ==> i < |inodes| && BlockAt(inodes[i], blocks, bn, a)
    {
      hide Slot, Grows, PointersOwned, OwnersPoint, NothingLost, IsFree, BitmapShape, LoggedBut, BlockAt, FreeCount, Blocks, Charged, Paid;
      bms := {};
      if bn < NDIRECT {
        SlotIsAddr(S(), i, bn);
        OneBlock(S(), i, bn);
        a, bms := AddrOrAlloc(i, bn);
        if a != -1 {
          SlotPlace(S(), i, bn, a);
          DirectPaid(old(S()), S(), i, bn);
        }
        return;
      }
      if bn < MAXFILE {
        a, bms := BmapIndirect(i, bn - NDIRECT);
        if a != -1 { SlotPlace(S(), i, bn, a); }
        return;
      }
      SlotBeyond(S(), i, bn);
      return -1, bms;
    }

    /** The part of bmap for entry e of the indirect block. */
    method BmapIndirect(i: nat, e: nat) returns (a: int, ghost bms: set<int>)
      requires Sound() && i < |inodes| && e < NINDIRECT
      modifies this`bmap, this`blocks, this`used, this`logged, this`inodes, this`owner
      ensures old(Slot(S(), i, e + NDIRECT + 1)) != 0 ==> a != -1 && S() == old(S()) && owner == old(owner) && logged == old(logged) && bms == {}
      ensures a != -1 ==> Sound() && Grows(old(S()), S(), i) && a == Slot(S(), i, e + NDIRECT + 1) && a != 0
      ensures a != -1 ==> logged <= old(logged) + {a} + bms + {Slot(S(), i, NDIRECT)}
      ensures |inodes| == |old(inodes)|
      ensures a == -1 ==> AllUsed(used)
      ensures a == -1 <==> FreeCount(old(used)) < Blocks(old(S()), i, e + NDIRECT, e + NDIRECT + 1)
      ensures a != -1 ==> Paid(old(S()), S(), i, e + NDIRECT, e + NDIRECT + 1)
      ensures a != -1 ==> Slot(S(), i, NDIRECT) != 0 && |bms| <= if old(Slot(S(), i, NDIRECT)) == 0 then 2 else 1
      ensures a != -1 ==> old(logged) <= logged && LoggedBut(old(S()), S(), logged, bmapstart, i)
    {
      hide Slot, Grows, PointersOwned, OwnersPoint, NothingLost, IsFree, BitmapShape, LoggedBut, AllUsed, Volume.Bits, FreeCount, Blocks, Charged, Paid;
      bms := {};
      ghost var fs := S();
      SlotIsAddr(fs, i, NDIRECT);
      OneBlock(fs, i, e + NDIRECT);
      if inodes[i].addrs[NDIRECT] == 0 { SlotNeedsIndirect(fs, i, e); }
      var ind, m1 := AddrOrAlloc(i, NDIRECT);
      if ind == -1 {
        return -1, bms;
      }
      ghost var t, log := S(), logged;
      SlotIsAddr(t, i, NDIRECT);
      MappedInRange(t, nmeta, owner, i, NDIRECT);
      assert GrowsSlot(fs, t, i, e + NDIRECT + 1) by { GrowsKeeps(fs, t, i, e + NDIRECT + 1); }
      ghost var m2;
      ChargedMeans(fs, t, i, NDIRECT, e + NDIRECT + 1);
      a, m2 := EntryOrAlloc(i, ind, e);
      if a != -1 {
        IndirectPaid(fs, t, S(), i, e);
        GrowsTrans(fs, t, S(), i);
        LoggedTrans(fs, t, S(), log, logged, bmapstart, i);
        assert GrowsSlot(t, S(), i, NDIRECT) by { GrowsKeeps(t, S(), i, NDIRECT); }
        SetSum(m1, m2);
        bms := m1 + m2;
      }
    }

    // -------------------------------------------------------------- itrunc

    /** iupdate: the inode goes to its block. */
    method Iupdate(i: nat)
      modifies this`logged
      ensures logged == old(logged) + {i / IPB + inodestart}
    {
      logged := logged + {i / IPB + inodestart};
    }

    /** Frees the pointer that itrunc visits in round m, if there is one.  "freeing free block" is
        out of reach. */
    method FreeNext(i: nat, m: nat, a: int, ghost fs: Fs, ghost own: Owner, ghost log: set<int>)
      requires Bits() && Owned(fs, nmeta, own) && i < |fs.inodes| && m < NSLOTS && |fs.used| == size
      requires used == TruncUsed(fs.used, own, i, m) && a == Slot(fs, i, TruncSlot(m)) && logged == log + Visited(fs, i, m, bmapstart)
      modifies this`bmap, this`used, this`logged
      ensures Bits() && used == TruncUsed(fs.used, own, i, m + 1) && logged == log + Visited(fs, i, m + 1, bmapstart)
    {
      hide Slot, TruncUsed, IsFree, BitmapShape, Owned, FreedBy, Visited;
      VisitNext(fs, i, m, bmapstart);
      TruncNext(fs, nmeta, own, i, m);
      if a != 0 {
        var panicked := Bfree(a);
        assert !panicked;
      }
    }

    method FreeDirect(i: nat, ghost fs: Fs, ghost own: Owner)
      requires Bits() && Owned(fs, nmeta, own) && i < |inodes| && S() == fs
      modifies this`bmap, this`used, this`logged, this`inodes
      ensures Bits() && used == TruncUsed(fs.used, own, i, NDIRECT) && logged == old(logged) + Visited(fs, i, NDIRECT, bmapstart)
      ensures inodes == fs.inodes[i := fs.inodes[i].(addrs := seq(NDIRECT, _ => 0) + [fs.inodes[i].addrs[NDIRECT]])]
    {
      hide TruncUsed, IsFree, BitmapShape, PointersOwned, OwnersPoint, NothingLost, Word, FreedBy, Visited;
      var k := 0;
      VisitNone(fs, i);
      TruncStart(fs.used, own, i, nmeta, fs);
      while k < NDIRECT
        invariant 0 <= k <= NDIRECT && Bits() && |inodes| == |fs.inodes|
        invariant used == TruncUsed(fs.used, own, i, k) && logged == old(logged) + Visited(fs, i, k, bmapstart)
        invariant |inodes[i].addrs| == NDIRECT + 1 && inodes == fs.inodes[i := fs.inodes[i].(addrs := inodes[i].addrs)]
        invariant forall l :: 0 <= l <= NDIRECT ==> inodes[i].addrs[l] == if l < k then 0 else fs.inodes[i].addrs[l]
      {
        FreeNext(i, k, inodes[i].addrs[k], fs, own, old(logged));
        if inodes[i].addrs[k] != 0 {
          inodes := inodes[i := inodes[i].(addrs := inodes[i].addrs[k := 0])];
        }
        k := k + 1;
      }
      assert inodes[i].addrs == seq(NDIRECT, _ => 0) + [fs.inodes[i].addrs[NDIRECT]];
    }

    method FreeIndirect(i: nat, ind: int, ghost fs: Fs, ghost own: Owner, ghost log: set<int>)
      requires Bits() && Owned(fs, nmeta, own) && i < |fs.inodes| && blocks == fs.blocks && |fs.used| == size
      requires used == TruncUsed(fs.used, own, i, NDIRECT) && ind == fs.inodes[i].addrs[NDIRECT] != 0
      requires logged == log + Visited(fs, i, NDIRECT, bmapstart)
      modifies this`bmap, this`used, this`logged
      ensures Bits() && used == TruncUsed(fs.used, own, i, NSLOTS) && logged == log + Visited(fs, i, NSLOTS, bmapstart)
    {
      hide Visited, TruncUsed, IsFree, BitmapShape, PointersOwned, OwnersPoint, NothingLost, Word, FreedBy;
      IndirectUsed(fs, nmeta, own, i);
      var e := 0;
      while e < NINDIRECT
        invariant 0 <= e <= NINDIRECT && Bits()
        invariant used == TruncUsed(fs.used, own, i, NDIRECT + e) && logged == log + Visited(fs, i, NDIRECT + e, bmapstart)
      {
        FreeNext(i, NDIRECT + e, Word(blocks[ind], e), fs, own, log);
        e := e + 1;
      }
      FreeNext(i, NSLOTS - 1, ind, fs, own, log);
    }

    /** itrunc: the inode is left empty and exactly its blocks are free again.  What it logs is the
        bitmap blocks of those and the inode's block, which is every block that changed. */
    method Itrunc(i: nat)
      requires Valid() && i < |inodes|
      modifies this`bmap, this`used, this`logged, this`inodes, this`owner
      ensures Valid()
      ensures S() == Truncated(old(S()), old(owner), i) && owner == WithoutFile(old(owner), i)
      ensures logged == old(logged) + BitmapBlocks(old(owner), i, bmapstart) + {i / IPB + inodestart}
      ensures Logged(old(S()), S(), logged, bmapstart, inodestart)
      ensures forall j :: 0 <= j < |inodes| && j != i ==> Content(S(), j) == old(Content(S(), j))
    {
      hide TruncUsed, IsFree, BitmapShape, PointersOwned, OwnersPoint, NothingLost, Word, HoleFree, FreedBy, Content, Visited, BitmapBlocks, Logged;
      ghost var fs, own := S(), owner;
      VisitedAll(fs, nmeta, own, i, bmapstart);
      FreeDirect(i, fs, own);
      if inodes[i].addrs[NDIRECT] != 0 {
        FreeIndirect(i, inodes[i].addrs[NDIRECT], fs, own, old(logged));
        inodes := inodes[i := inodes[i].(addrs := inodes[i].addrs[NDIRECT := 0])];
      } else {
        TruncNoIndirect(fs, nmeta, own, i);
        VisitNoIndirect(fs, i, NSLOTS, bmapstart);
      }
      inodes := inodes[i := inodes[i].(size := 0)];
      Iupdate(i);
      assert inodes[i].addrs == seq(NDIRECT + 1, _ => 0);
      assert S() == Truncated(fs, own, i);
      TruncatedLogged(fs, own, i, logged, bmapstart, inodestart);
      owner := WithoutFile(own, i);
      TruncatedFiles(fs, nmeta, own, i);
    }

    lemma VisitNone(fs: Fs, i: nat)
      ensures Visited(fs, i, 0, bmapstart) == {}
    {
    }

    // -------------------------------------------------------------- readi and writei

    /** readi: refused past the end or when off + n wraps; otherwise exactly the bytes of the flat
        file from off on, clipped at its size.  Nothing is allocated. */
    method Readi(i: nat, off: nat, n: nat) returns (r: int, dst: seq<int>)
      requires Valid() && i < |inodes| && off < UINT && n < UINT
      modifies this`bmap, this`blocks, this`used, this`logged, this`inodes, this`owner
      ensures S() == old(S()) && owner == old(owner) && logged == old(logged) && Valid()
      ensures off > inodes[i].size || (off + n) % UINT < off ==> r == -1 && dst == []
      ensures !(off > inodes[i].size || (off + n) % UINT < off) ==>
        r == Min(n, inodes[i].size - off) && dst == Content(S(), i)[off..off + r]
    {
      hide IsFree, BitmapShape, PointersOwned, OwnersPoint, NothingLost, Slot, Grows, Content, ByteAt;
      dst := [];
      if off > inodes[i].size || (off + n) % UINT < off {
        return -1, [];
      }
      ghost var fs := S();
      r := if off + n > inodes[i].size then inodes[i].size - off else n;
      var tot := 0;
      while tot < r
        invariant 0 <= tot <= r && S() == fs && owner == old(owner) && logged == old(logged) && Sound()
        invariant dst == Content(fs, i)[off..off + tot]
      {
        var piece := ReadOne(i, off + tot, r - tot);
        SliceAppend(Content(fs, i), off, off + tot, off + tot + |piece|);
        dst := dst + piece;
        tot := tot + |piece|;
      }
    }

    /** One round of the readi loop: what the block of byte x holds from there on. */
    method ReadOne(i: nat, x: nat, n: nat) returns (piece: seq<int>)
      requires Valid() && i < |inodes| && 0 < n && x + n <= inodes[i].size
      modifies this`bmap, this`blocks, this`used, this`logged, this`inodes, this`owner
      ensures S() == old(S()) && owner == old(owner) && logged == old(logged) && Sound()
      ensures |piece| == Min(n, BSIZE - x % BSIZE) && piece == Content(S(), i)[x..x + |piece|]
    {
      hide IsFree, BitmapShape, PointersOwned, OwnersPoint, NothingLost, Slot, Grows, Content, ByteAt, HoleFree;
      ghost var fs := S();
      ReadMapped(fs, i, x);
      var a, _ := Bmap(i, x / BSIZE);
      MappedInRange(fs, nmeta, owner, i, DataSlot(x / BSIZE));
      var m := Min(n, BSIZE - x % BSIZE);
      piece := blocks[a][x % BSIZE..x % BSIZE + m];
      ReadRound(fs, nmeta, owner, i, x, m);
    }

    /** One round of the writei loop. */
    method WriteOne(i: nat, src: seq<int>, off: nat, tot: nat, ghost fs0: Fs)
      returns (ok: bool, m: nat, ghost a: int, ghost bms: set<int>)
      requires Sound() && i < |fs0.inodes| && 0 <= off <= fs0.inodes[i].size && tot < |src|
      requires Written(fs0, S(), i, off, src, tot)
      modifies this`bmap, this`blocks, this`used, this`logged, this`inodes, this`owner
      ensures m == Min(|src| - tot, BSIZE - (off + tot) % BSIZE)
      ensures !ok ==> AllUsed(used) || (off + tot) / BSIZE >= MAXFILE
      ensures ok ==> Sound() && Written(fs0, S(), i, off, src, tot + m)
      ensures ok ==> logged <= old(logged) + {a} + bms + (if Slot(S(), i, NDIRECT) == 0 then {} else {Slot(S(), i, NDIRECT)})
      ensures ok && old(Slot(S(), i, NDIRECT)) != 0 ==> Slot(S(), i, NDIRECT) == old(Slot(S(), i, NDIRECT))
      ensures ok ==> |bms| <= (if old(Mapped(S(), i, (off + tot) / BSIZE)) then 0 else 1)
                            + (if old(Slot(S(), i, NDIRECT)) == 0 && Slot(S(), i, NDIRECT) != 0 then 1 else 0)
      ensures ok ==> old(logged) <= logged && LoggedBut(old(S()), S(), logged, bmapstart, i)
      ensures ok && old(Mapped(S(), i, (off + tot) / BSIZE)) ==> inodes == old(inodes)
      ensures var bn := (off + tot) / BSIZE;
        && (!ok <==> bn >= MAXFILE || FreeCount(old(used)) < Blocks(old(S()), i, bn, bn + 1))
        && (ok ==> Paid(old(S()), S(), i, bn, bn + 1))
    {
      hide FreeCount, Blocks, Paid, IsFree, BitmapShape, PointersOwned, OwnersPoint, NothingLost, Slot, Grows, NoHoles, ByteAt, OthersKept, Patch, LoggedBut;
      ghost var fs, own := S(), owner;
      m := Min(|src| - tot, BSIZE - (off + tot) % BSIZE);
      var bn := (off + tot) / BSIZE;
      var addr;
      addr, bms := Bmap(i, bn);
      a := addr;
      if addr == -1 {
        return false, m, a, bms;
      }
      ghost var t, log := S(), logged;
      MappedInRange(t, nmeta, owner, i, DataSlot(bn));
      WriteRound(fs0, fs, own, t, owner, nmeta, i, off, src, tot, m);
      blocks := blocks[addr := Patch(blocks[addr], (off + tot) % BSIZE, src[tot..tot + m])];
      assert S() == PutBlock(t, addr, Patch(t.blocks[addr], (off + tot) % BSIZE, src[tot..tot + m]));
      logged := logged + {addr};
      PutLogged(t, addr, blocks[addr], logged, bmapstart, i);
      LoggedTrans(fs, t, S(), log, logged, bmapstart, i);
      assert GrowsSlot(fs, t, i, NDIRECT) by { GrowsKeeps(fs, t, i, NDIRECT); }
      PaidPut(fs, t, nmeta, owner, i, bn, blocks[addr]);
      PutSlots(t, nmeta, owner, i, DataSlot(bn), Patch(t.blocks[addr], (off + tot) % BSIZE, src[tot..tot + m]), i, NDIRECT);
      ok := true;
    }

    /** The loop of writei, with an account of what it logs. */
    method WriteLoop(i: nat, src: seq<int>, off: nat)
      returns (ok: bool, ghost rounds: nat, ghost data: set<int>, ghost bms: set<int>)
      requires Valid() && i < |inodes| && off <= inodes[i].size && off + |src| <= MAXFILE * BSIZE
      modifies this`bmap, this`blocks, this`used, this`logged, this`inodes, this`owner
      ensures !ok ==> AllUsed(used)
      ensures ok ==> Sound() && Written(old(S()), S(), i, off, src, |src|)
      ensures ok ==> Spent(old(S()), S(), i, off, rounds, old(logged), logged, data, bms)
      ensures ok && rounds > 0 ==> Reached(off, |src|, rounds - 1) < |src|
      ensures ok ==> old(logged) <= logged && LoggedBut(old(S()), S(), logged, bmapstart, i)
      ensures ok && (|src| == 0 || off + |src| <= old(inodes)[i].size) ==> inodes == old(inodes)
      ensures !ok <==> FreeCount(old(used)) < WriteCost(old(S()), i, off, |src|)
      ensures ok ==> Paid(old(S()), S(), i, off / BSIZE, End(off, |src|))
    {
      hide FreeCount, Blocks, Paid, End, Volume.Bits, IsFree, BitmapShape, PointersOwned, OwnersPoint, NothingLost, Slot, ByteAt, OthersKept, Written, HoleFree, Spent, Reached, AllUsed, LoggedBut, Mapped;
      NothingToLog(S(), logged, bmapstart, inodestart, i);
      ghost var fs0 := S();
      data, bms, rounds := {}, {}, 0;
      var tot := 0;
      WrittenNone(fs0, i, off, src);
      SpentNone(fs0, i, off, |src|, logged);
      EndMono(off, 0, |src|);
      PaidNone(fs0, i, off / BSIZE);
      while tot < |src|
        invariant 0 <= tot <= |src| && Sound() && Written(fs0, S(), i, off, src, tot)
        invariant tot == Reached(off, |src|, rounds) && (rounds > 0 ==> Reached(off, |src|, rounds - 1) < |src|)
        invariant Spent(fs0, S(), i, off, rounds, old(logged), logged, data, bms)
        invariant old(logged) <= logged && LoggedBut(fs0, S(), logged, bmapstart, i)
        invariant off + |src| <= fs0.inodes[i].size || tot == 0 ==> inodes == old(inodes)
        invariant Paid(fs0, S(), i, off / BSIZE, End(off, tot)) && (tot == 0 || tot == |src| || (off + tot) % BSIZE == 0)
      {
        if off + |src| <= fs0.inodes[i].size { InsideMapped(fs0, S(), i, off, src, tot); }
        ghost var fs, was := S(), logged;
        var m;
        ghost var a, b;
        ok, m, a, b := WriteOne(i, src, off, tot, fs0);
        RoundEnd(off, |src|, tot, m);
        EndMono(off, tot, |src|);
        EndMono(off, tot + m, |src|);
        if !ok {
          PaidShort(fs0, fs, i, off / BSIZE, End(off, tot), (off + tot) / BSIZE, End(off, tot + m), End(off, |src|));
          return;
        }
        PaidMore(fs0, fs, S(), i, off / BSIZE, End(off, tot), (off + tot) / BSIZE, End(off, tot + m));
        LoggedTrans(fs0, fs, S(), was, logged, bmapstart, i);
        FirstMapped(fs0, fs, i, off, src, tot, rounds);
        SpendRound(fs0, fs, S(), i, off, rounds, old(logged), was, logged, data, bms, a, b, (off + tot) / BSIZE);
        data, bms := data + {a}, bms + b;
        ReachedNext(off, |src|, rounds);
        rounds := rounds + 1;
        tot := tot + m;
      }
      PaidEnough(fs0, S(), i, off / BSIZE, End(off, |src|));
      ok := true;
    }

    /** writei: refused as the source says, or the file is exactly the splice of src at off, every
        other file is as it was, and no file has holes.  A write of at most three blocks' worth of
        bytes logs no more than MAXOPBLOCKS blocks. */
    method Writei(i: nat, src: seq<int>, off: nat) returns (r: Outcome)
      requires Valid() && i < |inodes| && off < UINT && |src| < UINT
      modifies this`bmap, this`blocks, this`used, this`logged, this`inodes, this`owner
      ensures r.Ret? || (r.OutOfBlocks? && AllUsed(used))
      ensures r.OutOfBlocks? <==> Accepts(old(inodes)[i].size, off, |src|) && FreeCount(old(used)) < WriteCost(old(S()), i, off, |src|)
      ensures r.Ret? && r.n != -1 ==> Paid(old(S()), S(), i, off / BSIZE, End(off, |src|))
      ensures r.Ret? ==> Valid() && |inodes| == |old(inodes)|
      ensures r.Ret? ==> (r.n == -1 <==> !Accepts(old(inodes)[i].size, off, |src|))
      ensures r.Ret? && r.n == -1 ==> S() == old(S()) && logged == old(logged)
      ensures r.Ret? && r.n != -1 ==> r.n == |src| && Content(S(), i) == Splice(old(Content(S(), i)), off, src)
      ensures r.Ret? ==> forall j :: 0 <= j < |inodes| && j != i ==> Content(S(), j) == old(Content(S(), j))
      ensures r.Ret? && |src| <= 3 * BSIZE ==> |logged - old(logged)| <= MAXOPBLOCKS
      ensures r.Ret? ==> Logged(old(S()), S(), logged, bmapstart, inodestart)
    {
      hide IsFree, BitmapShape, PointersOwned, OwnersPoint, NothingLost, Slot, Content, ByteAt, OthersKept, Written, HoleFree, Splice, Spent, Reached, NoHoles, AllUsed, LoggedBut, Logged,
        FreeCount, Blocks, Paid, End;
      NothingToLog(S(), logged, bmapstart, inodestart, i);
      if off > inodes[i].size || (off + |src|) % UINT < off {
        return Ret(-1);
      }
      if off + |src| > MAXFILE * BSIZE {
        return Ret(-1);
      }
      ghost var fs0, own0 := S(), owner;
      var ok, rounds, data, bms := WriteLoop(i, src, off);
      if !ok {
        return OutOfBlocks;
      }
      ghost var done, spent, extra := S(), logged, {};
      WrittenContent(fs0, done, i, off, src);
      WrittenShape(fs0, done, i, off, src);
      if |src| > 0 && off + |src| > inodes[i].size {
        inodes := inodes[i := inodes[i].(size := off + |src|)];
        extra := {i / IPB + inodestart};
        Iupdate(i);
      }
      SetSizeSame(done, i);
      assert S() == SetSize(done, i, Max(done.inodes[i].size, off + |src|));
      SizeOwned(done, nmeta, owner, i, Max(done.inodes[i].size, off + |src|));
      InodeLogged(fs0, done, Max(done.inodes[i].size, off + |src|), spent, logged, bmapstart, inodestart, i);
      PaidSize(fs0, done, i, off / BSIZE, End(off, |src|), i, Max(done.inodes[i].size, off + |src|));
      WrittenFiles(fs0, nmeta, own0, S(), i);
      if |src| <= 3 * BSIZE {
        SpentBound(fs0, done, i, off, |src|, rounds, old(logged), spent, data, bms, extra);
      }
      return Ret(|src|);
    }
  }

  /** Block bn of a file is at a: in the inode's own address bn, or else in the little-endian word bn - 12
      of the block that its address 12 leads to. */
  predicate BlockAt(ip: Inode, blocks: seq<seq<int>>, bn: nat, a: int) {
    && |ip.addrs| == 13
    && if bn < 12 then ip.addrs[bn] == a
       else var e, ind := bn - 12, ip.addrs[12];
         && e < 128 && 0 < ind < |blocks| && |blocks[ind]| == 512
         && a == blocks[ind][4 * e] + 256 * blocks[ind][4 * e + 1] + 65536 * blocks[ind][4 * e + 2] + 16777216 * blocks[ind][4 * e + 3]
  }

  lemma SlotPlace(fs: Fs, i: int, bn: nat, a: int)
    requires 0 <= i < |fs.inodes| && |fs.inodes[i].addrs| == NDIRECT + 1 && MapBlock(fs, i, bn) == a != 0
    requires forall b :: 0 <= b < |fs.blocks| ==> |fs.blocks[b]| == BSIZE
    ensures BlockAt(fs.inodes[i], fs.blocks, bn, a)
  {
  }

  lemma SetSum(a: set<int>, b: set<int>)
    ensures |a + b| <= |a| + |b|
  {
    assert a + b == a + (b - a);
    assert b == (b - a) + (b * a);
  }

  lemma BlockOf(b: nat)
    ensures InBlock(b) == b / BPB
  {
  }

  lemma GrowsRefl(fs: Fs, i: int)
    ensures Grows(fs, fs, i)
  {
    hide Slot;
  }

  ghost predicate GrowsSlot(fs: Fs, t: Fs, i: int, l: int) { Slot(fs, i, l) != 0 ==> Slot(t, i, l) == Slot(fs, i, l) }

  lemma GrowsKeeps(fs: Fs, t: Fs, i: int, l: int)
    requires Grows(fs, t, i)
    ensures GrowsSlot(fs, t, i, l)
  {
    hide Slot;
  }

  lemma SlotNeedsIndirect(fs: Fs, i: int, e: nat)
    requires 0 <= i < |fs.inodes| && |fs.inodes[i].addrs| == NDIRECT + 1 && fs.inodes[i].addrs[NDIRECT] == 0
    ensures Slot(fs, i, e + NDIRECT + 1) == 0
  {
  }

  lemma SlotBeyond(fs: Fs, i: int, bn: int)
    requires bn >= MAXFILE
    ensures !Mapped(fs, i, bn)
  {
  }

  lemma TruncStart(used: seq<bool>, owner: Owner, i: int, nmeta: nat, fs: Fs)
    requires fs.used == used && Owned(fs, nmeta, owner)
    ensures TruncUsed(used, owner, i, 0) == used
  {
    hide Slot, NothingLost, PointersOwned;
  }

  /** With no indirect block the visits after the direct ones find nothing. */
  lemma TruncNoIndirect(fs: Fs, nmeta: nat, owner: Owner, i: int)
    requires Owned(fs, nmeta, owner) && 0 <= i < |fs.inodes| && fs.inodes[i].addrs[NDIRECT] == 0
    ensures TruncUsed(fs.used, owner, i, NSLOTS) == TruncUsed(fs.used, owner, i, NDIRECT)
  {
    hide NothingLost, PointersOwned, Word;
    var u, v := TruncUsed(fs.used, owner, i, NSLOTS), TruncUsed(fs.used, owner, i, NDIRECT);
    forall b | 0 <= b < |fs.used| ensures u[b] == v[b] {
      if b in owner && owner[b].0 == i && owner[b].1 >= NDIRECT {
        assert Slot(fs, i, owner[b].1) == 0;
      }
    }
  }

  /** After itrunc the volume is sound and the other files hold what they held. */
  lemma TruncatedFiles(fs: Fs, nmeta: nat, owner: Owner, i: int)
    requires Owned(fs, nmeta, owner) && HoleFree(fs) && 0 <= i < |fs.inodes|
    ensures var t := Truncated(fs, owner, i);
      && Owned(t, nmeta, WithoutFile(owner, i)) && HoleFree(t)
      && forall j :: 0 <= j < |fs.inodes| && j != i ==> Content(t, j) == Content(fs, j)
  {
    hide Slot, PointersOwned, OwnersPoint, NothingLost, NoHoles, TruncUsed, Content;
    var t := Truncated(fs, owner, i);
    TruncatedOwned(fs, nmeta, owner, i);
    forall j | 0 <= j < |fs.inodes| && j != i
      ensures Content(t, j) == Content(fs, j) && NoHoles(t, j, t.inodes[j].size)
    {
      OthersContent(fs, nmeta, owner, t, i, j);
    }
    assert NoHoles(t, i, 0) by { EmptyNoHoles(t, i); }
  }

  lemma EmptyNoHoles(fs: Fs, i: int)
    ensures NoHoles(fs, i, 0)
  {
  }

  /** A byte inside the file lies in a mapped block. */
  lemma ReadMapped(fs: Fs, i: int, x: nat)
    requires HoleFree(fs) && 0 <= i < |fs.inodes| && x < fs.inodes[i].size
    ensures Mapped(fs, i, x / BSIZE)
  {
    hide Slot, Mapped;
    assert NoHoles(fs, i, fs.inodes[i].size);
    assert x / BSIZE < BlockCount(fs.inodes[i].size);
  }

  lemma ReadRound(fs: Fs, nmeta: nat, owner: Owner, i: int, x: nat, m: nat)
    requires Owned(fs, nmeta, owner) && 0 <= i < |fs.inodes| && Mapped(fs, i, x / BSIZE)
    requires x % BSIZE + m <= BSIZE && x + m <= fs.inodes[i].size
    ensures var a := MapBlock(fs, i, x / BSIZE);
      && 0 <= a < |fs.blocks| && |fs.blocks[a]| == BSIZE
      && fs.blocks[a][x % BSIZE..x % BSIZE + m] == Content(fs, i)[x..x + m]
  {
    hide Slot, PointersOwned, OwnersPoint, NothingLost;
    MappedInRange(fs, nmeta, owner, i, DataSlot(x / BSIZE));
    var a := MapBlock(fs, i, x / BSIZE);
    var c := Content(fs, i);
    forall z | x <= z < x + m ensures c[z] == fs.blocks[a][z - x + x % BSIZE] {
      assert z / BSIZE == x / BSIZE && z % BSIZE == x % BSIZE + (z - x);
    }
  }

  lemma SliceAppend(c: seq<int>, a: nat, b: nat, d: nat)
    requires a <= b <= d <= |c|
    ensures c[a..b] + c[b..d] == c[a..d]
  {
  }

  lemma WrittenNone(fs: Fs, i: int, off: nat, src: seq<int>)
    requires 0 <= i < |fs.inodes| && off <= fs.inodes[i].size && HoleFree(fs)
    ensures Written(fs, fs, i, off, src, 0)
  {
    hide Slot, ByteAt;
  }

  lemma WrittenShape(fs0: Fs, fs: Fs, i: int, off: nat, src: seq<int>)
    requires 0 <= i < |fs0.inodes| && Written(fs0, fs, i, off, src, |src|)
    ensures |fs.inodes| == |fs0.inodes| && fs.inodes[i].size == fs0.inodes[i].size
  {
    hide Slot, ByteAt, NoHoles, OthersKept;
  }

  lemma SetSizeSame(fs: Fs, i: int)
    requires 0 <= i < |fs.inodes|
    ensures SetSize(fs, i, fs.inodes[i].size) == fs
  {
  }

  /** From what writei leaves to what its callers see. */
  lemma WrittenFiles(fs0: Fs, nmeta: nat, owner: Owner, fs: Fs, i: int)
    requires Owned(fs0, nmeta, owner) && HoleFree(fs0) && OthersKept(fs0, fs, i) && 0 <= i < |fs0.inodes|
    requires |fs.inodes| == |fs0.inodes| && 0 <= fs.inodes[i].size <= Max(fs0.inodes[i].size, MAXFILE * BSIZE)
    requires NoHoles(fs, i, fs.inodes[i].size)
    ensures HoleFree(fs)
    ensures forall j :: 0 <= j < |fs.inodes| && j != i ==>
      0 <= fs.inodes[j].size && 0 <= fs0.inodes[j].size && Content(fs, j) == Content(fs0, j)
  {
    hide Slot, NoHoles, Content, PointersOwned, OwnersPoint, NothingLost;
    forall j | 0 <= j < |fs.inodes| && j != i
      ensures 0 <= fs.inodes[j].size && 0 <= fs0.inodes[j].size && Content(fs, j) == Content(fs0, j) && NoHoles(fs, j, fs.inodes[j].size)
    {
      OthersContent(fs0, nmeta, owner, fs, i, j);
    }
  }

  // ---------------------------------------------------------------- how many blocks a write logs

  /** Bytes copied after so many rounds: every round but the last ends at a block boundary. */
  ghost function Reached(off: nat, n: nat, rounds: nat): nat {
    if rounds == 0 then 0 else Min(n, (off / BSIZE + rounds) * BSIZE - off)
  }

  lemma ReachedNext(off: nat, n: nat, rounds: nat)
    requires Reached(off, n, rounds) < n
    ensures var tot := Reached(off, n, rounds);
      Reached(off, n, rounds + 1) == tot + Min(n - tot, BSIZE - (off + tot) % BSIZE)
  {
    var tot := Reached(off, n, rounds);
    if rounds > 0 {
      assert off + tot == (off / BSIZE + rounds) * BSIZE;
    }
  }

  /** The log_writes so far: one data block a round, a bitmap block for each allocation, and the
      indirect block.  In an unaligned write the first round allocates nothing. */
  ghost predicate Spent(fs0: Fs, fs: Fs, i: int, off: nat, rounds: nat, logged0: set<int>, logged: set<int>,
                        data: set<int>, bms: set<int>)
  {
    && logged <= logged0 + data + bms + Indirect(fs, i)
    && |data| <= rounds
    && |bms| <= rounds - (if rounds > 0 && off % BSIZE != 0 then 1 else 0) + NewIndirect(fs0, fs, i)
    && (Slot(fs0, i, NDIRECT) != 0 ==> Slot(fs, i, NDIRECT) == Slot(fs0, i, NDIRECT))
  }

  lemma SpentNone(fs: Fs, i: int, off: nat, n: nat, logged: set<int>)
    ensures Spent(fs, fs, i, off, 0, logged, logged, {}, {}) && Reached(off, n, 0) == 0
  {
    hide Slot;
  }

  ghost function Indirect(fs: Fs, i: int): set<int> {
    if Slot(fs, i, NDIRECT) == 0 then {} else {Slot(fs, i, NDIRECT)}
  }

  ghost function NewIndirect(fs0: Fs, fs: Fs, i: int): int {
    if Slot(fs0, i, NDIRECT) == 0 && Slot(fs, i, NDIRECT) != 0 then 1 else 0
  }

  /** The block in which an unaligned write starts is there already. */
  lemma FirstMapped(fs0: Fs, fs: Fs, i: int, off: nat, src: seq<int>, tot: nat, rounds: nat)
    requires 0 <= i < |fs0.inodes| && off <= fs0.inodes[i].size && tot <= |src| && Written(fs0, fs, i, off, src, tot)
    requires tot == Reached(off, |src|, rounds)
    ensures rounds == 0 && off % BSIZE != 0 ==> Mapped(fs, i, (off + tot) / BSIZE)
  {
    hide Slot, ByteAt, Mapped, OthersKept;
    if rounds == 0 && off % BSIZE != 0 {
      assert off / BSIZE < BlockCount(fs0.inodes[i].size);
    }
  }

  /** A write inside the file finds its blocks there. */
  lemma InsideMapped(fs0: Fs, fs: Fs, i: int, off: nat, src: seq<int>, tot: nat)
    requires 0 <= i < |fs0.inodes| && tot < |src| && off + |src| <= fs0.inodes[i].size && Written(fs0, fs, i, off, src, tot)
    ensures Mapped(fs, i, (off + tot) / BSIZE)
  {
    hide Slot, ByteAt, Mapped, OthersKept;
    assert (off + tot) / BSIZE < BlockCount(fs0.inodes[i].size);
  }

  lemma SpendRound(fs0: Fs, fs: Fs, t: Fs, i: int, off: nat, rounds: nat, logged0: set<int>, was: set<int>, now: set<int>,
                   data: set<int>, bms: set<int>, a: int, b: set<int>, bn: int)
    requires Spent(fs0, fs, i, off, rounds, logged0, was, data, bms)
    requires now <= was + {a} + b + Indirect(t, i)
    requires Slot(fs, i, NDIRECT) != 0 ==> Slot(t, i, NDIRECT) == Slot(fs, i, NDIRECT)
    requires |b| <= (if Mapped(fs, i, bn) then 0 else 1)
                  + (if Slot(fs, i, NDIRECT) == 0 && Slot(t, i, NDIRECT) != 0 then 1 else 0)
    requires rounds == 0 && off % BSIZE != 0 ==> Mapped(fs, i, bn)
    ensures Spent(fs0, t, i, off, rounds + 1, logged0, now, data + {a}, bms + b)
  {
    hide Slot, Mapped;
    assert |data + {a}| <= |data| + 1;
    assert |bms + b| <= |bms| + |b|;
  }

  /** Three blocks' worth of bytes: at most four data blocks, four bitmap blocks, the indirect
      block and the inode. */
  lemma SpentBound(fs0: Fs, fs: Fs, i: int, off: nat, n: nat, rounds: nat, logged0: set<int>, logged: set<int>,
                   data: set<int>, bms: set<int>, extra: set<int>)
    requires Spent(fs0, fs, i, off, rounds, logged0, logged, data, bms)
    requires n <= 3 * BSIZE && |extra| <= 1
    requires rounds > 0 ==> Reached(off, n, rounds - 1) < n
    ensures |logged + extra - logged0| <= MAXOPBLOCKS
  {
    hide Slot;
    RoundsBound(off, n, rounds);
    var all := data + bms + Indirect(fs, i) + extra;
    assert |data + bms| <= |data| + |bms|;
    assert |data + bms + Indirect(fs, i)| <= |data + bms| + 1;
    assert |all| <= |data + bms + Indirect(fs, i)| + 1;
    SubsetCard(logged + extra - logged0, all);
  }

  lemma RoundsBound(off: nat, n: nat, rounds: nat)
    requires n <= 3 * BSIZE && (rounds > 0 ==> Reached(off, n, rounds - 1) < n)
    ensures rounds <= if off % BSIZE == 0 then 3 else 4
  {
    if rounds > 1 {
      assert (off / BSIZE + rounds - 1) * BSIZE == off - off % BSIZE + (rounds - 1) * BSIZE;
    }
  }

  lemma SubsetCard(a: set<int>, b: set<int>)
    requires a <= b
    ensures |a| <= |b|
  {
    assert b == a + (b - a);
  }
}
