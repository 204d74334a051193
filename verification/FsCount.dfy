/** How many blocks a write takes: one for each block of the file that is not there yet, and one for the
    indirect block if it is on the way and not there. */
module FsCount {
  import opened FsSpec
  import opened FsOps

  ghost function FreeCount(used: seq<bool>): nat {
    if used == [] then 0 else (if used[|used| - 1] then 0 else 1) + FreeCount(used[..|used| - 1])
  }

  lemma {:induction false} TakeCount(used: seq<bool>, b: int)
    requires 0 <= b < |used| && !used[b]
    ensures FreeCount(used[b := true]) == FreeCount(used) - 1
  {
    var n := |used| - 1;
    var v := used[b := true];
    if b < n {
      TakeCount(used[..n], b);
      assert v[..n] == used[..n][b := true];
    } else {
      assert v[..n] == used[..n];
    }
  }

  ghost predicate AllUsed(used: seq<bool>) { forall b :: 0 <= b < |used| ==> used[b] }

  lemma {:induction false} NoneFree(used: seq<bool>)
    ensures FreeCount(used) == 0 <==> AllUsed(used)
  {
    if used != [] {
      NoneFree(used[..|used| - 1]);
      assert AllUsed(used) ==> AllUsed(used[..|used| - 1]);
    }
  }

  // ---------------------------------------------------------------- what is not there

  /** The blocks of the file from a up to b that are not there. */
  ghost function Holes(fs: Fs, i: int, a: int, b: int): nat
    decreases b - a
  {
    if a >= b then 0 else (if Mapped(fs, i, a) then 0 else 1) + Holes(fs, i, a + 1, b)
  }

  /** What it takes to have all of them. */
  ghost function Blocks(fs: Fs, i: int, a: int, b: int): nat {
    if a >= b then 0 else Holes(fs, i, a, b) + if b > NDIRECT && Slot(fs, i, NDIRECT) == 0 then 1 else 0
  }

  /** From fs to t the blocks from a up to b got there, and no others. */
  ghost predicate Fills(fs: Fs, t: Fs, i: int, a: int, b: int) {
    && (forall x :: 0 <= x ==> (Mapped(t, i, x) <==> Mapped(fs, i, x) || a <= x < b))
    && if b > a && b > NDIRECT then Slot(t, i, NDIRECT) != 0 else Slot(t, i, NDIRECT) == Slot(fs, i, NDIRECT)
  }

  /** And that was paid for, with no more than it takes. */
  ghost predicate Paid(fs: Fs, t: Fs, i: int, a: int, b: int) {
    Fills(fs, t, i, a, b) && FreeCount(t.used) == FreeCount(fs.used) - Blocks(fs, i, a, b)
  }

  lemma {:induction false} HolesSplit(fs: Fs, i: int, a: int, b: int, c: int)
    requires a <= b <= c
    ensures Holes(fs, i, a, c) == Holes(fs, i, a, b) + Holes(fs, i, b, c)
    decreases b - a
  {
    hide Mapped;
    if a < b { HolesSplit(fs, i, a + 1, b, c); }
  }

  lemma {:induction false} HolesSame(fs: Fs, t: Fs, i: int, a: int, b: int)
    requires forall x :: a <= x < b ==> (Mapped(t, i, x) <==> Mapped(fs, i, x))
    ensures Holes(t, i, a, b) == Holes(fs, i, a, b)
    decreases b - a
  {
    hide Mapped;
    if a < b { HolesSame(fs, t, i, a + 1, b); }
  }

  lemma {:induction false} NoHolesNone(fs: Fs, i: int, a: int, b: int)
    requires forall x :: a <= x < b ==> Mapped(fs, i, x)
    ensures Holes(fs, i, a, b) == 0
    decreases b - a
  {
    hide Mapped;
    if a < b { NoHolesNone(fs, i, a + 1, b); }
  }

  /** What is there already costs nothing again: the next stretch may start inside the last. */
  lemma BlocksSplit(fs: Fs, t: Fs, i: int, a: int, b: int, next: int, c: int)
    requires 0 <= a <= next <= b <= c && Fills(fs, t, i, a, b)
    ensures Blocks(fs, i, a, c) == Blocks(fs, i, a, b) + Blocks(t, i, next, c)
  {
    hide Mapped, Slot;
    HolesSplit(fs, i, a, b, c);
    HolesSplit(t, i, next, b, c);
    NoHolesNone(t, i, next, b);
    HolesSame(fs, t, i, b, c);
  }

  lemma BlocksMono(fs: Fs, i: int, a: int, b: int, c: int)
    requires a <= b <= c
    ensures Blocks(fs, i, a, b) <= Blocks(fs, i, a, c)
  {
    hide Mapped, Slot;
    HolesSplit(fs, i, a, b, c);
  }

  lemma PaidNone(fs: Fs, i: int, a: int)
    ensures Paid(fs, fs, i, a, a)
  {
    hide Mapped, Slot, FreeCount;
  }

  lemma PaidMore(fs: Fs, t: Fs, u: Fs, i: int, a: int, b: int, next: int, c: int)
    requires 0 <= a <= next <= b <= c && Paid(fs, t, i, a, b) && Paid(t, u, i, next, c)
    ensures Paid(fs, u, i, a, c)
  {
    hide Mapped, Slot, FreeCount, Blocks;
    BlocksSplit(fs, t, i, a, b, next, c);
  }

  lemma PaidEnough(fs: Fs, t: Fs, i: int, a: int, b: int)
    requires Paid(fs, t, i, a, b)
    ensures FreeCount(fs.used) >= Blocks(fs, i, a, b)
  {
    hide Mapped, Slot, FreeCount, Blocks;
  }

  /** If the next stretch cannot be had, then neither can any that contains it. */
  lemma PaidShort(fs: Fs, t: Fs, i: int, a: int, b: int, next: int, c: int, end: int)
    requires 0 <= a <= next <= b <= c <= end && Paid(fs, t, i, a, b) && FreeCount(t.used) < Blocks(t, i, next, c)
    ensures FreeCount(fs.used) < Blocks(fs, i, a, end)
  {
    hide Mapped, Slot, FreeCount, Blocks;
    BlocksSplit(fs, t, i, a, b, next, c);
    BlocksMono(fs, i, a, c, end);
  }

  // ---------------------------------------------------------------- one pointer

  ghost predicate SlotsBut(fs: Fs, t: Fs, i: int, k: int) { forall l :: l != k ==> Slot(t, i, l) == Slot(fs, i, l) }

  lemma AttachedBut(fs: Fs, nmeta: nat, owner: Owner, i: int, k: int, b: int)
    requires Owned(fs, nmeta, owner) && 0 <= i < |fs.inodes| && 0 <= k <= NDIRECT
    requires fs.inodes[i].addrs[k] == 0 && Unused(fs, nmeta, b)
    ensures SlotsBut(fs, Attached(fs, i, k, b), i, k)
    ensures FreeCount(Attached(fs, i, k, b).used) == FreeCount(fs.used) - 1
  {
    hide Slot, PointersOwned, OwnersPoint, NothingLost, FreeCount;
    TakeCount(fs.used, b);
    forall l | l != k ensures Slot(Attached(fs, i, k, b), i, l) == Slot(fs, i, l) {
      AttachedSlot(fs, nmeta, owner, i, k, b, i, l);
    }
  }

  lemma EnteredBut(fs: Fs, nmeta: nat, owner: Owner, i: int, e: int, b: int)
    requires Owned(fs, nmeta, owner) && 0 <= i < |fs.inodes| && 0 <= e < NINDIRECT
    requires fs.inodes[i].addrs[NDIRECT] != 0 && Unused(fs, nmeta, b)
    ensures var ind := fs.inodes[i].addrs[NDIRECT];
      && 0 <= ind < |fs.blocks| && ind != b && |fs.blocks[ind]| == BSIZE
      && SlotsBut(fs, Entered(fs, ind, e, b), i, e + NDIRECT + 1) && FreeCount(Entered(fs, ind, e, b).used) == FreeCount(fs.used) - 1
  {
    hide Slot, PointersOwned, OwnersPoint, NothingLost, FreeCount, SetWord;
    TakeCount(fs.used, b);
    EnteredSlot(fs, nmeta, owner, i, e, b, i, 0);
    forall l | l != e + NDIRECT + 1 ensures Slot(Entered(fs, fs.inodes[i].addrs[NDIRECT], e, b), i, l) == Slot(fs, i, l) {
      EnteredSlot(fs, nmeta, owner, i, e, b, i, l);
    }
  }

  /** One pointer of its own: one block if it was empty. */
  ghost predicate Charged(fs: Fs, t: Fs, i: int, k: int) {
    && SlotsBut(fs, t, i, k) && Slot(t, i, k) != 0
    && FreeCount(t.used) == FreeCount(fs.used) - if Slot(fs, i, k) == 0 then 1 else 0
  }

  lemma ChargedMeans(fs: Fs, t: Fs, i: int, k: int, l: int)
    requires Charged(fs, t, i, k) && l != k
    ensures Slot(t, i, l) == Slot(fs, i, l) && FreeCount(t.used) == FreeCount(fs.used) - if Slot(fs, i, k) == 0 then 1 else 0
  {
    hide Slot, FreeCount;
  }

  /** What one block takes. */
  lemma OneBlock(fs: Fs, i: int, bn: int)
    ensures Blocks(fs, i, bn, bn + 1) ==
      (if Mapped(fs, i, bn) then 0 else 1) + if bn >= NDIRECT && Slot(fs, i, NDIRECT) == 0 then 1 else 0
  {
    assert Holes(fs, i, bn + 1, bn + 1) == 0;
  }

  /** The slot of block bn is no other's. */
  lemma DirectPaid(fs: Fs, t: Fs, i: int, bn: int)
    requires 0 <= bn < NDIRECT && Charged(fs, t, i, bn)
    ensures Paid(fs, t, i, bn, bn + 1)
  {
    hide Slot, FreeCount, Blocks;
    OneBlock(fs, i, bn);
  }

  lemma IndirectPaid(fs: Fs, t: Fs, u: Fs, i: int, e: nat)
    requires e < NINDIRECT && Charged(fs, t, i, NDIRECT) && Charged(t, u, i, e + NDIRECT + 1)
    requires Slot(fs, i, NDIRECT) == 0 ==> Slot(fs, i, e + NDIRECT + 1) == 0
    ensures Paid(fs, u, i, e + NDIRECT, e + NDIRECT + 1)
  {
    hide Slot, FreeCount, Blocks;
    OneBlock(fs, i, e + NDIRECT);
  }

  /** Writing a data block moves no pointer. */
  lemma PaidPut(fs: Fs, t: Fs, nmeta: nat, owner: Owner, i: int, bn: int, data: seq<int>)
    requires Owned(t, nmeta, owner) && 0 <= bn && MapBlock(t, i, bn) != 0 && Paid(fs, t, i, bn, bn + 1)
    ensures 0 <= MapBlock(t, i, bn) < |t.blocks| && Paid(fs, PutBlock(t, MapBlock(t, i, bn), data), i, bn, bn + 1)
  {
    hide Slot, FreeCount, Owned, Blocks;
    forall l ensures 0 <= MapBlock(t, i, bn) < |t.blocks| && Slot(PutBlock(t, MapBlock(t, i, bn), data), i, l) == Slot(t, i, l) {
      PutSlots(t, nmeta, owner, i, DataSlot(bn), data, i, l);
    }
  }

  /** Nor does setting the size of a file. */
  lemma PaidSize(fs: Fs, t: Fs, i: int, a: int, b: int, j: int, size: int)
    requires Paid(fs, t, i, a, b) && 0 <= j < |t.inodes|
    ensures Paid(fs, SetSize(t, j, size), i, a, b)
  {
    hide Slot, FreeCount, Blocks;
    SizeOnly(t, j, size);
    var u := SetSize(t, j, size);
    assert u.used == t.used;
    forall x ensures Mapped(u, i, x) <==> Mapped(t, i, x) { assert Slot(u, i, DataSlot(x)) == Slot(t, i, DataSlot(x)); }
    assert Slot(u, i, NDIRECT) == Slot(t, i, NDIRECT);
  }

  // ---------------------------------------------------------------- a write of n bytes at off

  /** The first block it does not reach. */
  function End(off: nat, n: nat): nat { if n == 0 then off / BSIZE else BlockCount(off + n) }

  /** The blocks that it takes. */
  ghost function WriteCost(fs: Fs, i: int, off: nat, n: nat): nat { Blocks(fs, i, off / BSIZE, End(off, n)) }

  /** The rounds of a write lie one after the other. */
  lemma RoundEnd(off: nat, n: nat, tot: nat, m: nat)
    requires tot < n && m == Min(n - tot, BSIZE - (off + tot) % BSIZE) && (tot == 0 || (off + tot) % BSIZE == 0)
    ensures End(off, tot) == (off + tot) / BSIZE && End(off, tot + m) == (off + tot) / BSIZE + 1 && tot + m <= n
    ensures tot + m == n || (off + (tot + m)) % BSIZE == 0
  {
    var bn := (off + tot) / BSIZE;
    assert off + tot == BSIZE * bn + (off + tot) % BSIZE;
  }

  lemma EndMono(off: nat, m: nat, n: nat)
    requires m <= n
    ensures End(off, 0) == off / BSIZE <= (off + m) / BSIZE <= End(off, m) <= End(off, n)
    ensures End(off + m, n - m) <= End(off, n) && (m < n ==> End(off + m, n - m) == End(off, n))
  {
  }
}
