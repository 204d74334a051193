/** The on-disk structures of fs.c as values: which blocks are in use, what they hold, and which
    inode owns them.  A file is read through its twelve direct addresses and one indirect block. */
module FsSpec {

  const BSIZE: nat := 512
  const NDIRECT: nat := 12
  const NINDIRECT: nat := 128
  const MAXFILE: nat := 140
  /** Block pointers of an inode: 0..11 direct, 12 the indirect block, 13.. its entries. */
  const NSLOTS: nat := 141

  datatype Inode = Inode(addrs: seq<int>, size: int)

  /** used is the free map, blocks the contents of every block, bytes as integers. */
  datatype Fs = Fs(used: seq<bool>, blocks: seq<seq<int>>, inodes: seq<Inode>)

  // ---------------------------------------------------------------- words of an indirect block

  /** The j-th little-endian 32-bit word of a block. */
  function Word(b: seq<int>, j: nat): int {
    if 4 * j + 3 < |b| then b[4 * j] + 256 * b[4 * j + 1] + 65536 * b[4 * j + 2] + 16777216 * b[4 * j + 3] else 0
  }

  function SetWord(b: seq<int>, j: nat, v: nat): (r: seq<int>)
    requires 4 * j + 3 < |b|
    ensures |r| == |b|
  {
    b[..4 * j] + [v % 256, v / 256 % 256, v / 256 / 256 % 256, v / 256 / 256 / 256] + b[4 * j + 4..]
  }

  lemma WordSetWord(b: seq<int>, j: nat, v: nat, k: nat)
    requires 4 * j + 3 < |b|
    ensures Word(SetWord(b, j, v), k) == if j == k then v else Word(b, k)
  {
    var q := v / 256;
    var r := q / 256;
    assert v == v % 256 + 256 * q && q == q % 256 + 256 * r && r == r % 256 + 256 * (r / 256);
    var s := SetWord(b, j, v);
    assert forall x :: 0 <= x < |b| && !(4 * j <= x < 4 * j + 4) ==> s[x] == b[x];
    assert s[4 * j] == v % 256 && s[4 * j + 1] == q % 256 && s[4 * j + 2] == r % 256 && s[4 * j + 3] == r / 256;
  }

  function Zeros(): (z: seq<int>)
    ensures |z| == BSIZE && forall i :: 0 <= i < BSIZE ==> z[i] == 0
  {
    seq(BSIZE, _ => 0)
  }

  lemma WordZeros(j: nat)
    ensures Word(Zeros(), j) == 0
  {
  }

  // ---------------------------------------------------------------- block pointers

  /** The k-th block pointer of inode i; 0 means none. */
  function Slot(fs: Fs, i: int, k: int): int {
    if !(0 <= i < |fs.inodes| && 0 <= k < NSLOTS && |fs.inodes[i].addrs| == NDIRECT + 1) then 0
    else if k <= NDIRECT then fs.inodes[i].addrs[k]
    else IndirectEntry(fs.blocks, fs.inodes[i].addrs[NDIRECT], k - NDIRECT - 1)
  }

  function IndirectEntry(blocks: seq<seq<int>>, ind: int, j: nat): int {
    if 0 < ind < |blocks| then Word(blocks[ind], j) else 0
  }

  function DataSlot(bn: int): int { if bn < NDIRECT then bn else bn + 1 }

  /** The block that holds the bn-th block of the file. */
  function MapBlock(fs: Fs, i: int, bn: int): int { Slot(fs, i, DataSlot(bn)) }

  // ---------------------------------------------------------------- ownership

  ghost predicate Shape(fs: Fs, nmeta: nat) {
    && 0 < nmeta <= |fs.used| == |fs.blocks|
    && (forall b :: 0 <= b < |fs.blocks| ==> |fs.blocks[b]| == BSIZE)
    && (forall i :: 0 <= i < |fs.inodes| ==> |fs.inodes[i].addrs| == NDIRECT + 1 && 0 <= fs.inodes[i].size)
    && (forall b :: 0 <= b < nmeta ==> fs.used[b])
  }

  /** Every pointer is to a block recorded as this inode's, at this slot. */
  ghost predicate PointersOwned(fs: Fs, owner: map<int, (int, int)>) {
    forall i, k :: Slot(fs, i, k) != 0 ==> Slot(fs, i, k) in owner && owner[Slot(fs, i, k)] == (i, k)
  }

  /** The owned blocks are the used ones after the metadata, and their owners point to them. */
  ghost predicate OwnersPoint(fs: Fs, nmeta: nat, owner: map<int, (int, int)>) {
    forall b :: b in owner ==>
      && nmeta <= b < |fs.used| && fs.used[b]
      && 0 <= owner[b].0 < |fs.inodes| && 0 <= owner[b].1 < NSLOTS
      && Slot(fs, owner[b].0, owner[b].1) == b
  }

  ghost predicate NothingLost(fs: Fs, nmeta: nat, owner: map<int, (int, int)>) {
    forall b :: nmeta <= b < |fs.used| && fs.used[b] ==> b in owner
  }

  /** Each block in use belongs to the metadata or to exactly one pointer of one inode. */
  ghost predicate Owned(fs: Fs, nmeta: nat, owner: map<int, (int, int)>) {
    && Shape(fs, nmeta) && PointersOwned(fs, owner) && OwnersPoint(fs, nmeta, owner) && NothingLost(fs, nmeta, owner)
  }

  lemma OneOwner(fs: Fs, nmeta: nat, owner: map<int, (int, int)>, i: int, k: int, j: int, l: int)
    requires Owned(fs, nmeta, owner) && Slot(fs, i, k) != 0 && Slot(fs, i, k) == Slot(fs, j, l)
    ensures i == j && k == l
  {
    assert owner[Slot(fs, i, k)] == (i, k) && owner[Slot(fs, j, l)] == (j, l);
  }

  // ---------------------------------------------------------------- files

  function BlockCount(size: int): int { (size + BSIZE - 1) / BSIZE }

  ghost predicate Mapped(fs: Fs, i: int, bn: int) { MapBlock(fs, i, bn) != 0 }

  /** Every block of the first size bytes is there. */
  ghost predicate NoHoles(fs: Fs, i: int, size: int) {
    forall bn :: 0 <= bn < BlockCount(size) ==> Mapped(fs, i, bn)
  }

  ghost predicate HoleFree(fs: Fs) {
    forall i :: 0 <= i < |fs.inodes| ==> fs.inodes[i].size <= MAXFILE * BSIZE && NoHoles(fs, i, fs.inodes[i].size)
  }

  /** Byte x of inode i, wherever the pointers lead. */
  function ByteAt(fs: Fs, i: int, x: nat): int {
    var a := MapBlock(fs, i, x / BSIZE);
    if 0 < a < |fs.blocks| && |fs.blocks[a]| == BSIZE then fs.blocks[a][x % BSIZE] else 0
  }

  /** The file as the flat byte sequence its users see. */
  function Content(fs: Fs, i: int): (c: seq<int>)
    requires 0 <= i < |fs.inodes| && 0 <= fs.inodes[i].size
    ensures |c| == fs.inodes[i].size
    ensures forall x :: 0 <= x < |c| ==> c[x] == ByteAt(fs, i, x)
  {
    seq(fs.inodes[i].size, x requires 0 <= x < fs.inodes[i].size => ByteAt(fs, i, x))
  }

  /** Replace the bytes of c from off on by src, growing c if src reaches further. */
  function Splice(c: seq<int>, off: nat, src: seq<int>): (r: seq<int>)
    requires off <= |c|
    ensures |r| == if off + |src| > |c| then off + |src| else |c|
    ensures forall x :: 0 <= x < |r| ==> r[x] == if off <= x < off + |src| then src[x - off] else c[x]
  {
    c[..off] + src + if off + |src| < |c| then c[off + |src|..] else []
  }

  function Min(a: int, b: int): int { if a < b then a else b }
  function Max(a: int, b: int): int { if a > b then a else b }
}
