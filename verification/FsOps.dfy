/** What the steps of fs.c do to ownership and to file contents: taking a block and attaching it
    to a pointer, writing a data block, letting a block go. */
module FsOps {
  import opened FsSpec

  type Owner = map<int, (int, int)>

  // ---------------------------------------------------------------- steps

  /** balloc: block b is marked in use and zeroed. */
  function Take(fs: Fs, b: int): (r: Fs)
    requires 0 <= b < |fs.used| == |fs.blocks|
    ensures |r.used| == |fs.used| == |r.blocks| && r.inodes == fs.inodes
  {
    fs.(used := fs.used[b := true], blocks := fs.blocks[b := Zeros()])
  }

  function SetAddr(fs: Fs, i: int, k: int, b: int): Fs
    requires 0 <= i < |fs.inodes| && 0 <= k < |fs.inodes[i].addrs|
  {
    fs.(inodes := fs.inodes[i := fs.inodes[i].(addrs := fs.inodes[i].addrs[k := b])])
  }

  function PutBlock(fs: Fs, a: int, data: seq<int>): Fs
    requires 0 <= a < |fs.blocks|
  {
    fs.(blocks := fs.blocks[a := data])
  }

  function SetSize(fs: Fs, i: int, size: int): Fs
    requires 0 <= i < |fs.inodes|
  {
    fs.(inodes := fs.inodes[i := fs.inodes[i].(size := size)])
  }

  function Free(fs: Fs, b: int): Fs
    requires 0 <= b < |fs.used|
  {
    fs.(used := fs.used[b := false])
  }

  ghost predicate Unused(fs: Fs, nmeta: nat, b: int) {
    nmeta <= b < |fs.used| == |fs.blocks| && !fs.used[b]
  }

  // ---------------------------------------------------------------- attaching a block to an inode

  ghost function Attached(fs: Fs, i: int, k: int, b: int): Fs
    requires 0 <= i < |fs.inodes| && 0 <= k < |fs.inodes[i].addrs| && 0 <= b < |fs.used| == |fs.blocks|
  {
    SetAddr(Take(fs, b), i, k, b)
  }

  /** An indirect block is in use, so it is none of the blocks just taken. */
  lemma IndirectUsed(fs: Fs, nmeta: nat, owner: Owner, j: int)
    requires Owned(fs, nmeta, owner) && 0 <= j < |fs.inodes| && fs.inodes[j].addrs[NDIRECT] != 0
    ensures var ind := fs.inodes[j].addrs[NDIRECT];
      ind == Slot(fs, j, NDIRECT) && nmeta <= ind < |fs.blocks| && fs.used[ind] && |fs.blocks[ind]| == BSIZE
  {
    assert Slot(fs, j, NDIRECT) in owner;
  }

  lemma AttachedSlot(fs: Fs, nmeta: nat, owner: Owner, i: int, k: int, b: int, j: int, l: int)
    requires Owned(fs, nmeta, owner) && 0 <= i < |fs.inodes| && 0 <= k <= NDIRECT
    requires fs.inodes[i].addrs[k] == 0 && Unused(fs, nmeta, b)
    ensures Slot(Attached(fs, i, k, b), j, l) == if (j, l) == (i, k) then b else Slot(fs, j, l)
  {
    hide Word, PointersOwned, OwnersPoint, NothingLost;
    if 0 <= j < |fs.inodes| && fs.inodes[j].addrs[NDIRECT] != 0 {
      IndirectUsed(fs, nmeta, owner, j);
    }
    if NDIRECT < l < NSLOTS { WordZeros(l - NDIRECT - 1); }
  }

  /** Giving a fresh block to an empty pointer keeps the ownership discipline. */
  lemma AttachedOwned(fs: Fs, nmeta: nat, owner: Owner, i: int, k: int, b: int)
    requires Owned(fs, nmeta, owner) && 0 <= i < |fs.inodes| && 0 <= k <= NDIRECT
    requires fs.inodes[i].addrs[k] == 0 && Unused(fs, nmeta, b)
    ensures Owned(Attached(fs, i, k, b), nmeta, owner[b := (i, k)])
  {
    hide Slot;
    var t := Attached(fs, i, k, b);
    forall j, l ensures Slot(t, j, l) == if (j, l) == (i, k) then b else Slot(fs, j, l) {
      AttachedSlot(fs, nmeta, owner, i, k, b, j, l);
    }
    assert Slot(fs, i, k) == 0 by { SlotIsAddr(fs, i, k); }
  }

  lemma SlotIsAddr(fs: Fs, i: int, k: int)
    requires 0 <= i < |fs.inodes| && |fs.inodes[i].addrs| == NDIRECT + 1 && 0 <= k <= NDIRECT
    ensures Slot(fs, i, k) == fs.inodes[i].addrs[k]
  {
  }

  /** The same for an empty entry of the indirect block. */
  ghost function Entered(fs: Fs, ind: int, j: int, b: int): Fs
    requires 0 <= b < |fs.used| == |fs.blocks| && 0 <= ind < |fs.blocks| && ind != b
    requires |fs.blocks[ind]| == BSIZE && 0 <= j < NINDIRECT
  {
    PutBlock(Take(fs, b), ind, SetWord(fs.blocks[ind], j, b))
  }

  lemma EnteredSlot(fs: Fs, nmeta: nat, owner: Owner, i: int, e: int, b: int, j: int, l: int)
    requires Owned(fs, nmeta, owner) && 0 <= i < |fs.inodes| && 0 <= e < NINDIRECT
    requires fs.inodes[i].addrs[NDIRECT] != 0 && Unused(fs, nmeta, b)
    ensures var ind := fs.inodes[i].addrs[NDIRECT];
      && 0 <= ind < |fs.blocks| && ind != b && |fs.blocks[ind]| == BSIZE
      && Slot(Entered(fs, ind, e, b), j, l) == if (j, l) == (i, e + NDIRECT + 1) then b else Slot(fs, j, l)
  {
    hide Word, PointersOwned, OwnersPoint, NothingLost, SetWord;
    IndirectUsed(fs, nmeta, owner, i);
    var ind := fs.inodes[i].addrs[NDIRECT];
    if 0 <= j < |fs.inodes| && fs.inodes[j].addrs[NDIRECT] != 0 {
      IndirectUsed(fs, nmeta, owner, j);
      if j != i && fs.inodes[j].addrs[NDIRECT] == ind { OneOwner(fs, nmeta, owner, i, NDIRECT, j, NDIRECT); }
    }
    if NDIRECT < l < NSLOTS { WordSetWord(fs.blocks[ind], e, b, l - NDIRECT - 1); }
  }

  lemma EnteredOwned(fs: Fs, nmeta: nat, owner: Owner, i: int, e: int, b: int)
    requires Owned(fs, nmeta, owner) && 0 <= i < |fs.inodes| && 0 <= e < NINDIRECT
    requires fs.inodes[i].addrs[NDIRECT] != 0 && Slot(fs, i, e + NDIRECT + 1) == 0 && Unused(fs, nmeta, b)
    ensures var ind := fs.inodes[i].addrs[NDIRECT];
      && 0 <= ind < |fs.blocks| && ind != b && |fs.blocks[ind]| == BSIZE
      && Owned(Entered(fs, ind, e, b), nmeta, owner[b := (i, e + NDIRECT + 1)])
  {
    hide Slot, SetWord;
    IndirectUsed(fs, nmeta, owner, i);
    var t := Entered(fs, fs.inodes[i].addrs[NDIRECT], e, b);
    forall j, l ensures Slot(t, j, l) == if (j, l) == (i, e + NDIRECT + 1) then b else Slot(fs, j, l) {
      EnteredSlot(fs, nmeta, owner, i, e, b, j, l);
    }
  }

  // ---------------------------------------------------------------- growing an inode

  /** t is fs after inode i got more blocks: no pointer moved, no data block changed. */
  ghost predicate Grows(fs: Fs, t: Fs, i: int) {
    && |t.inodes| == |fs.inodes| && |t.blocks| == |fs.blocks|
    && (forall j :: 0 <= j < |fs.inodes| ==> t.inodes[j].size == fs.inodes[j].size)
    && (forall j, l :: j != i ==> Slot(t, j, l) == Slot(fs, j, l))
    && (forall l :: Slot(fs, i, l) != 0 ==> Slot(t, i, l) == Slot(fs, i, l))
    && (forall j, l :: l != NDIRECT ==> SameData(fs, t, Slot(fs, j, l)))
  }

  ghost predicate SameData(fs: Fs, t: Fs, a: int) {
    a != 0 && 0 <= a < |fs.blocks| && a < |t.blocks| ==> t.blocks[a] == fs.blocks[a]
  }

  lemma GrowsTrans(fs: Fs, t: Fs, u: Fs, i: int)
    requires Grows(fs, t, i) && Grows(t, u, i)
    ensures Grows(fs, u, i)
  {
    hide Slot;
    forall j, l | l != NDIRECT ensures SameData(fs, u, Slot(fs, j, l)) {
      assert SameData(fs, t, Slot(fs, j, l));
      assert SameData(t, u, Slot(t, j, l));
    }
  }

  lemma AttachedGrows(fs: Fs, nmeta: nat, owner: Owner, i: int, k: int, b: int)
    requires Owned(fs, nmeta, owner) && 0 <= i < |fs.inodes| && 0 <= k <= NDIRECT
    requires fs.inodes[i].addrs[k] == 0 && Unused(fs, nmeta, b)
    ensures Grows(fs, Attached(fs, i, k, b), i)
  {
    hide Slot, NothingLost;
    var t := Attached(fs, i, k, b);
    SlotIsAddr(fs, i, k);
    forall j, l ensures Slot(t, j, l) == if (j, l) == (i, k) then b else Slot(fs, j, l) {
      AttachedSlot(fs, nmeta, owner, i, k, b, j, l);
    }
  }

  lemma EnteredGrows(fs: Fs, nmeta: nat, owner: Owner, i: int, e: int, b: int)
    requires Owned(fs, nmeta, owner) && 0 <= i < |fs.inodes| && 0 <= e < NINDIRECT
    requires fs.inodes[i].addrs[NDIRECT] != 0 && Slot(fs, i, e + NDIRECT + 1) == 0 && Unused(fs, nmeta, b)
    ensures var ind := fs.inodes[i].addrs[NDIRECT];
      && 0 <= ind < |fs.blocks| && ind != b && |fs.blocks[ind]| == BSIZE
      && Grows(fs, Entered(fs, ind, e, b), i)
  {
    hide Slot, NothingLost, SetWord;
    IndirectUsed(fs, nmeta, owner, i);
    var ind := fs.inodes[i].addrs[NDIRECT];
    var t := Entered(fs, ind, e, b);
    forall j, l ensures Slot(t, j, l) == if (j, l) == (i, e + NDIRECT + 1) then b else Slot(fs, j, l) {
      EnteredSlot(fs, nmeta, owner, i, e, b, j, l);
    }
    forall j, l | l != NDIRECT ensures SameData(fs, t, Slot(fs, j, l)) {
      if Slot(fs, j, l) == ind { OneOwner(fs, nmeta, owner, i, NDIRECT, j, l); }
    }
  }

  /** Growing a file leaves the bytes it had, and every other file, alone. */
  lemma GrowsBytes(fs: Fs, nmeta: nat, owner: Owner, t: Fs, i: int, j: int, x: nat)
    requires Owned(fs, nmeta, owner) && Grows(fs, t, i) && Mapped(fs, j, x / BSIZE)
    ensures ByteAt(t, j, x) == ByteAt(fs, j, x) && Mapped(t, j, x / BSIZE)
  {
    hide Slot, NothingLost;
    var l := DataSlot(x / BSIZE);
    assert SameData(fs, t, Slot(fs, j, l));
  }

  // ---------------------------------------------------------------- writing a data block

  /** A data block holds no pointers, so writing it moves none. */
  lemma PutSlots(fs: Fs, nmeta: nat, owner: Owner, i: int, d: int, data: seq<int>, j: int, l: int)
    requires Owned(fs, nmeta, owner) && d != NDIRECT && Slot(fs, i, d) != 0
    ensures 0 <= Slot(fs, i, d) < |fs.blocks|
    ensures Slot(PutBlock(fs, Slot(fs, i, d), data), j, l) == Slot(fs, j, l)
  {
    hide Word, NothingLost;
    var a := Slot(fs, i, d);
    assert a in owner;
    if 0 <= j < |fs.inodes| && fs.inodes[j].addrs[NDIRECT] == a { OneOwner(fs, nmeta, owner, i, d, j, NDIRECT); }
  }

  lemma PutOwned(fs: Fs, nmeta: nat, owner: Owner, i: int, d: int, data: seq<int>)
    requires Owned(fs, nmeta, owner) && d != NDIRECT && Slot(fs, i, d) != 0 && |data| == BSIZE
    ensures 0 <= Slot(fs, i, d) < |fs.blocks|
    ensures Owned(PutBlock(fs, Slot(fs, i, d), data), nmeta, owner)
  {
    hide Slot;
    var a := Slot(fs, i, d);
    assert a in owner;
    forall j, l ensures Slot(PutBlock(fs, a, data), j, l) == Slot(fs, j, l) {
      PutSlots(fs, nmeta, owner, i, d, data, j, l);
    }
  }

  lemma PutBytes(fs: Fs, nmeta: nat, owner: Owner, i: int, bn: int, data: seq<int>, j: int, x: nat)
    requires Owned(fs, nmeta, owner) && 0 <= bn && Mapped(fs, i, bn) && |data| == BSIZE
    ensures 0 <= MapBlock(fs, i, bn) < |fs.blocks|
    ensures var t := PutBlock(fs, MapBlock(fs, i, bn), data);
      && MapBlock(t, j, x / BSIZE) == MapBlock(fs, j, x / BSIZE)
      && ByteAt(t, j, x) == if j == i && x / BSIZE == bn then data[x % BSIZE] else ByteAt(fs, j, x)
  {
    hide Slot, NothingLost;
    var a := MapBlock(fs, i, bn);
    assert a in owner && a > 0;
    var l := DataSlot(x / BSIZE);
    PutSlots(fs, nmeta, owner, i, DataSlot(bn), data, j, l);
    if Slot(fs, j, l) == a { OneOwner(fs, nmeta, owner, i, DataSlot(bn), j, l); }
  }

  // ---------------------------------------------------------------- writei, round by round

  /** memmove of s into a block buffer at offset o. */
  function Patch(b: seq<int>, o: nat, s: seq<int>): (r: seq<int>)
    requires o + |s| <= |b|
    ensures |r| == |b|
    ensures forall x :: 0 <= x < |b| ==> r[x] == if o <= x < o + |s| then s[x - o] else b[x]
  {
    b[..o] + s + b[o + |s|..]
  }

  /** The files other than i hold what they held. */
  ghost predicate OthersKept(fs0: Fs, fs: Fs, i: int) {
    && |fs.inodes| == |fs0.inodes| && |fs.blocks| == |fs0.blocks|
    && (forall j :: 0 <= j < |fs.inodes| && j != i ==> fs.inodes[j].size == fs0.inodes[j].size)
    && (forall j, l :: j != i ==> Slot(fs, j, l) == Slot(fs0, j, l))
    && (forall j, l :: j != i && l != NDIRECT ==> SameData(fs0, fs, Slot(fs0, j, l)))
  }

  /** writei has copied the first tot bytes of src to offset off of inode i; the size is not yet
      updated. */
  ghost predicate Written(fs0: Fs, fs: Fs, i: int, off: nat, src: seq<int>, tot: nat)
    requires 0 <= i < |fs0.inodes| && tot <= |src|
  {
    && |fs.inodes| == |fs0.inodes| && OthersKept(fs0, fs, i)
    && fs.inodes[i].size == fs0.inodes[i].size
    && NoHoles(fs, i, Max(fs0.inodes[i].size, off + tot))
    && forall x :: 0 <= x < Max(fs0.inodes[i].size, off + tot) ==>
         ByteAt(fs, i, x) == if off <= x < off + tot then src[x - off] else ByteAt(fs0, i, x)
  }

  lemma OthersKeptRound(fs0: Fs, fs: Fs, t: Fs, nmeta: nat, owner: Owner, i: int, d: int, data: seq<int>)
    requires OthersKept(fs0, fs, i) && Grows(fs, t, i) && Owned(t, nmeta, owner)
    requires d != NDIRECT && Slot(t, i, d) != 0
    ensures 0 <= Slot(t, i, d) < |t.blocks|
    ensures OthersKept(fs0, PutBlock(t, Slot(t, i, d), data), i)
  {
    hide Slot, NothingLost;
    var a := Slot(t, i, d);
    assert a in owner;
    var u := PutBlock(t, a, data);
    forall j, l | j != i ensures Slot(u, j, l) == Slot(fs0, j, l) {
      PutSlots(t, nmeta, owner, i, d, data, j, l);
    }
    forall j, l | j != i && l != NDIRECT ensures SameData(fs0, u, Slot(fs0, j, l)) {
      assert SameData(fs0, fs, Slot(fs0, j, l)) && SameData(fs, t, Slot(fs, j, l));
      if Slot(t, j, l) == a { OneOwner(t, nmeta, owner, i, d, j, l); }
    }
  }

  /** One round of the writei loop: bmap may have grown the file from fs to t, then m bytes go
      into its block bn. */
  lemma WriteRound(fs0: Fs, fs: Fs, owner0: Owner, t: Fs, owner: Owner, nmeta: nat,
                   i: int, off: nat, src: seq<int>, tot: nat, m: nat)
    requires 0 <= i < |fs0.inodes| && 0 <= off <= fs0.inodes[i].size && tot < |src|
    requires Owned(fs, nmeta, owner0) && Owned(t, nmeta, owner)
    requires Written(fs0, fs, i, off, src, tot) && Grows(fs, t, i)
    requires Mapped(t, i, (off + tot) / BSIZE)
    requires m == Min(|src| - tot, BSIZE - (off + tot) % BSIZE)
    ensures var a := MapBlock(t, i, (off + tot) / BSIZE);
      && 0 <= a < |t.blocks| && |t.blocks[a]| == BSIZE
      && var u := PutBlock(t, a, Patch(t.blocks[a], (off + tot) % BSIZE, src[tot..tot + m]));
      && Owned(u, nmeta, owner) && Written(fs0, u, i, off, src, tot + m)
  {
    hide Slot, NothingLost, OthersKept, ByteAt, PointersOwned, Owned;
    var bn := (off + tot) / BSIZE;
    var a := MapBlock(t, i, bn);
    MappedInRange(t, nmeta, owner, i, DataSlot(bn));
    var data := Patch(t.blocks[a], (off + tot) % BSIZE, src[tot..tot + m]);
    var u := PutBlock(t, a, data);
    PutOwned(t, nmeta, owner, i, DataSlot(bn), data);
    OthersKeptRound(fs0, fs, t, nmeta, owner, i, DataSlot(bn), data);
    var size := fs0.inodes[i].size;
    forall k | 0 <= k < BlockCount(Max(size, off + tot + m)) ensures Mapped(u, i, k) {
      RoundMapped(fs, owner0, t, owner, nmeta, i, bn, data, k, k < BlockCount(Max(size, off + tot)));
    }
    forall x | 0 <= x < Max(size, off + tot + m)
      ensures ByteAt(u, i, x) == if off <= x < off + tot + m then src[x - off] else ByteAt(fs0, i, x)
    {
      RoundByte(fs0, fs, owner0, t, owner, nmeta, i, off, src, tot, m, x);
    }
  }

  lemma MappedInRange(t: Fs, nmeta: nat, owner: Owner, i: int, d: int)
    requires Owned(t, nmeta, owner) && Slot(t, i, d) != 0
    ensures 0 < nmeta <= Slot(t, i, d) < |t.blocks| == |t.used| && |t.blocks[Slot(t, i, d)]| == BSIZE
    ensures t.used[Slot(t, i, d)] && 0 <= i < |t.inodes|
  {
    hide NothingLost;
    assert Slot(t, i, d) in owner;
  }

  lemma RoundMapped(fs: Fs, owner0: Owner, t: Fs, owner: Owner, nmeta: nat, i: int, bn: int, data: seq<int>, k: int, had: bool)
    requires Owned(t, nmeta, owner) && Grows(fs, t, i) && 0 <= bn && Mapped(t, i, bn) && 0 <= k
    requires had ==> Mapped(fs, i, k)
    requires !had ==> k == bn
    ensures 0 <= MapBlock(t, i, bn) < |t.blocks|
    ensures Mapped(PutBlock(t, MapBlock(t, i, bn), data), i, k)
  {
    hide Slot, Owned;
    MappedInRange(t, nmeta, owner, i, DataSlot(bn));
    PutSlots(t, nmeta, owner, i, DataSlot(bn), data, i, DataSlot(k));
  }

  lemma RoundByte(fs0: Fs, fs: Fs, owner0: Owner, t: Fs, owner: Owner, nmeta: nat,
                  i: int, off: nat, src: seq<int>, tot: nat, m: nat, x: nat)
    requires 0 <= i < |fs0.inodes| && 0 <= off <= fs0.inodes[i].size && tot < |src|
    requires Owned(fs, nmeta, owner0) && Owned(t, nmeta, owner)
    requires Written(fs0, fs, i, off, src, tot) && Grows(fs, t, i)
    requires Mapped(t, i, (off + tot) / BSIZE)
    requires m == Min(|src| - tot, BSIZE - (off + tot) % BSIZE) && x < Max(fs0.inodes[i].size, off + tot + m)
    ensures var a := MapBlock(t, i, (off + tot) / BSIZE);
      && 0 <= a < |t.blocks| && |t.blocks[a]| == BSIZE
      && var u := PutBlock(t, a, Patch(t.blocks[a], (off + tot) % BSIZE, src[tot..tot + m]));
      ByteAt(u, i, x) == if off <= x < off + tot + m then src[x - off] else ByteAt(fs0, i, x)
  {
    hide Slot, Owned, OthersKept;
    var bn := (off + tot) / BSIZE;
    MappedInRange(t, nmeta, owner, i, DataSlot(bn));
    var a := MapBlock(t, i, bn);
    PutBytes(t, nmeta, owner, i, bn, Patch(t.blocks[a], (off + tot) % BSIZE, src[tot..tot + m]), i, x);
    if x < Max(fs0.inodes[i].size, off + tot) {
      assert Mapped(fs, i, x / BSIZE);
      GrowsBytes(fs, nmeta, owner0, t, i, i, x);
    }
  }

  /** When the loop ends and the size is set, the file is the splice of src into its old bytes. */
  lemma WrittenContent(fs0: Fs, fs: Fs, i: int, off: nat, src: seq<int>)
    requires 0 <= i < |fs0.inodes| && 0 <= off <= fs0.inodes[i].size
    requires Written(fs0, fs, i, off, src, |src|)
    ensures var t := SetSize(fs, i, Max(fs.inodes[i].size, off + |src|));
      && Content(t, i) == Splice(Content(fs0, i), off, src)
      && OthersKept(fs0, t, i) && NoHoles(t, i, t.inodes[i].size)
  {
    hide OthersKept;
    var t := SetSize(fs, i, Max(fs.inodes[i].size, off + |src|));
    SizeOnly(fs, i, Max(fs.inodes[i].size, off + |src|));
    assert OthersKept(fs0, t, i) by { SizeOthers(fs0, fs, i, t.inodes[i].size); }
    assert forall x: nat :: ByteAt(t, i, x) == ByteAt(fs, i, x);
    forall bn | 0 <= bn < BlockCount(t.inodes[i].size) ensures Mapped(t, i, bn) {
      assert Mapped(fs, i, bn);
    }
  }

  lemma SizeOnly(fs: Fs, i: int, size: int)
    requires 0 <= i < |fs.inodes|
    ensures forall j, l :: Slot(SetSize(fs, i, size), j, l) == Slot(fs, j, l)
  {
  }

  lemma SizeOthers(fs0: Fs, fs: Fs, i: int, size: int)
    requires OthersKept(fs0, fs, i) && 0 <= i < |fs.inodes|
    ensures OthersKept(fs0, SetSize(fs, i, size), i)
  {
    hide Slot;
    var t := SetSize(fs, i, size);
    SizeOnly(fs, i, size);
    forall j, l | j != i && l != NDIRECT ensures SameData(fs0, t, Slot(fs0, j, l)) {
      assert SameData(fs0, fs, Slot(fs0, j, l));
    }
  }

  lemma SizeOwned(fs: Fs, nmeta: nat, owner: Owner, i: int, size: nat)
    requires Owned(fs, nmeta, owner) && 0 <= i < |fs.inodes|
    ensures Owned(SetSize(fs, i, size), nmeta, owner)
  {
    hide Slot;
    SizeOnly(fs, i, size);
  }

  /** Files that were kept have the same bytes and still no holes. */
  lemma OthersContent(fs0: Fs, nmeta: nat, owner: Owner, fs: Fs, i: int, j: int)
    requires Owned(fs0, nmeta, owner) && OthersKept(fs0, fs, i) && j != i && 0 <= j < |fs0.inodes|
    requires NoHoles(fs0, j, fs0.inodes[j].size)
    ensures Content(fs, j) == Content(fs0, j) && NoHoles(fs, j, fs.inodes[j].size)
  {
    hide Slot, NothingLost;
    forall x | 0 <= x < fs0.inodes[j].size ensures ByteAt(fs, j, x) == ByteAt(fs0, j, x) {
      assert Mapped(fs0, j, x / BSIZE);
      assert SameData(fs0, fs, Slot(fs0, j, DataSlot(x / BSIZE)));
    }
    forall bn | 0 <= bn < BlockCount(fs.inodes[j].size) ensures Mapped(fs, j, bn) {
      assert Mapped(fs0, j, bn);
    }
  }

  // ---------------------------------------------------------------- itrunc

  /** The place of a pointer in the order in which itrunc frees: direct blocks, the entries of the
      indirect block, the indirect block itself. */
  function TruncOrder(k: int): int { if k < NDIRECT then k else if k == NDIRECT then NSLOTS - 1 else k - 1 }

  function TruncSlot(m: int): int { if m < NDIRECT then m else if m == NSLOTS - 1 then NDIRECT else m + 1 }

  ghost predicate FreedBy(owner: Owner, i: int, m: int, b: int) {
    b in owner && owner[b].0 == i && TruncOrder(owner[b].1) < m
  }

  /** The free map after itrunc of inode i has visited its first m pointers. */
  ghost function TruncUsed(used: seq<bool>, owner: Owner, i: int, m: int): (r: seq<bool>)
    ensures |r| == |used|
    ensures forall b :: 0 <= b < |used| ==> r[b] == (used[b] && !FreedBy(owner, i, m, b))
  {
    seq(|used|, b requires 0 <= b < |used| => used[b] && !FreedBy(owner, i, m, b))
  }

  /** Visiting one more pointer frees its block, which was still in use, or nothing. */
  lemma TruncNext(fs: Fs, nmeta: nat, owner: Owner, i: int, m: int)
    requires Owned(fs, nmeta, owner) && 0 <= i < |fs.inodes| && 0 <= m < NSLOTS
    ensures var s := Slot(fs, i, TruncSlot(m));
      var u, v := TruncUsed(fs.used, owner, i, m), TruncUsed(fs.used, owner, i, m + 1);
      if s == 0 then v == u else nmeta <= s < |u| && u[s] && v == u[s := false]
  {
    hide Slot, TruncUsed;
    var s := Slot(fs, i, TruncSlot(m));
    var u, v := TruncUsed(fs.used, owner, i, m), TruncUsed(fs.used, owner, i, m + 1);
    if s != 0 {
      MappedInRange(fs, nmeta, owner, i, TruncSlot(m));
      assert owner[s] == (i, TruncSlot(m));
    }
    assert s == 0 ==> !(s in owner);
  }

  ghost function WithoutFile(owner: Owner, i: int): Owner {
    map b | b in owner && owner[b].0 != i :: owner[b]
  }

  ghost function Truncated(fs: Fs, owner: Owner, i: int): Fs
    requires 0 <= i < |fs.inodes|
  {
    Fs(TruncUsed(fs.used, owner, i, NSLOTS), fs.blocks, fs.inodes[i := Inode(seq(NDIRECT + 1, _ => 0), 0)])
  }

  /** itrunc gives back exactly the blocks that the inode pointed to, and no pointer of any other
      inode moves. */
  lemma TruncatedOwned(fs: Fs, nmeta: nat, owner: Owner, i: int)
    requires Owned(fs, nmeta, owner) && 0 <= i < |fs.inodes|
    ensures var t := Truncated(fs, owner, i);
      && Owned(t, nmeta, WithoutFile(owner, i))
      && OthersKept(fs, t, i)
      && (forall k :: Slot(t, i, k) == 0)
      && (forall b :: 0 <= b < |fs.used| ==>
            (t.used[b] <==> fs.used[b] && !(exists k :: Slot(fs, i, k) == b && b != 0)))
  {
    hide Slot, Word;
    var t := Truncated(fs, owner, i);
    TruncatedSlots(fs, owner, i);
    forall b | 0 <= b < |fs.used|
      ensures t.used[b] <==> fs.used[b] && !(exists k :: Slot(fs, i, k) == b && b != 0)
    {
      if b in owner && owner[b].0 == i {
        assert Slot(fs, i, owner[b].1) == b;
      }
    }
    assert Shape(t, nmeta);
  }

  lemma TruncatedSlots(fs: Fs, owner: Owner, i: int)
    requires 0 <= i < |fs.inodes|
    ensures forall j, l :: Slot(Truncated(fs, owner, i), j, l) == if j == i then 0 else Slot(fs, j, l)
  {
    hide TruncUsed;
  }
}
