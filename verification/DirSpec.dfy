/** Directories and link counts (sysfile.c, and the directory part of fs.c). */
module DirSpec {

  const DIRSIZ: int := 14
  const ROOT: int := 1

  // ---------------------------------------------------------------- names

  /** A name as it is passed around and stored: 14 bytes, of which those after a NUL do not count. */
  type Name = seq<int>

  predicate NameBytes(s: Name) { |s| == DIRSIZ }

  /** The bytes that count, from k on. */
  function Canon(s: Name, k: nat): (r: seq<int>)
    decreases |s| - k
  {
    if k >= |s| || s[k] == 0 then [] else [s[k]] + Canon(s, k + 1)
  }

  /** strncmp over DIRSIZ bytes finds no difference, from byte k on. */
  function SameFrom(s: Name, t: Name, k: nat): bool
    requires NameBytes(s) && NameBytes(t)
    decreases DIRSIZ - k
  {
    k >= DIRSIZ || (s[k] == t[k] && (s[k] == 0 || SameFrom(s, t, k + 1)))
  }

  /** namecmp says equal iff the names agree up to their NULs, whatever bytes follow. */
  lemma {:induction false} NameCmpIff(s: Name, t: Name, k: nat)
    requires NameBytes(s) && NameBytes(t)
    ensures SameFrom(s, t, k) <==> Canon(s, k) == Canon(t, k)
    decreases DIRSIZ - k
  {
    if k < DIRSIZ {
      NameCmpIff(s, t, k + 1);
      if s[k] != 0 && t[k] != 0 {
        assert Canon(s, k)[0] == s[k] && Canon(t, k)[0] == t[k];
        assert Canon(s, k)[1..] == Canon(s, k + 1) && Canon(t, k)[1..] == Canon(t, k + 1);
      }
    }
  }

  predicate Same(s: Name, t: Name) { Canon(s, 0) == Canon(t, 0) }
  predicate IsDot(s: Name) { Canon(s, 0) == [46] }
  predicate IsDotDot(s: Name) { Canon(s, 0) == [46, 46] }

  const DOT: Name := [46, 0, 0, 0, 0, 0, 0, 0, 0, 0, 0, 0, 0, 0]
  const DOTDOT: Name := [46, 46, 0, 0, 0, 0, 0, 0, 0, 0, 0, 0, 0, 0]
  const NONAME: Name := [0, 0, 0, 0, 0, 0, 0, 0, 0, 0, 0, 0, 0, 0]

  lemma Dots()
    ensures NameBytes(DOT) && NameBytes(DOTDOT) && IsDot(DOT) && IsDotDot(DOTDOT)
  {
    assert Canon(DOT, 1) == [];
    assert Canon(DOTDOT, 2) == [];
    assert Canon(DOTDOT, 1) == [46];
  }

  // ---------------------------------------------------------------- directories

  datatype Dirent = Dirent(inum: int, name: Name)

  datatype Kind = Unused | Dir | File | Dev

  /** A file or a device: anything in use that is no directory. */
  predicate Plain(k: Kind) { k == File || k == Dev }

  datatype Inode = Inode(kind: Kind, nlink: int, entries: seq<Dirent>)

  /** The first entry from k on with the name, |es| if there is none. */
  function Lookup(es: seq<Dirent>, name: Name, k: nat): (r: nat)
    requires k <= |es|
    ensures k <= r <= |es| && (r < |es| ==> es[r].inum != 0 && Same(es[r].name, name))
    ensures forall j :: k <= j < r ==> es[j].inum == 0 || !Same(es[j].name, name)
    decreases |es| - k
  {
    if k == |es| || (es[k].inum != 0 && Same(es[k].name, name)) then k else Lookup(es, name, k + 1)
  }

  /** The first free slot from k on, |es| if there is none. */
  function FreeSlot(es: seq<Dirent>, k: nat): (r: nat)
    requires k <= |es|
    ensures k <= r <= |es| && (r < |es| ==> es[r].inum == 0) && forall j :: k <= j < r ==> es[j].inum != 0
    decreases |es| - k
  {
    if k == |es| || es[k].inum == 0 then k else FreeSlot(es, k + 1)
  }

  /** Entry k replaced, or appended when k is the end. */
  function Put(es: seq<Dirent>, k: nat, e: Dirent): (r: seq<Dirent>)
    requires k <= |es|
    ensures |r| == (if k == |es| then |es| + 1 else |es|) && r[k] == e && forall j :: 0 <= j < |es| && j != k ==> r[j] == es[j]
  {
    if k == |es| then es + [e] else es[k := e]
  }

  /** dirlink, once the name is known to be new. */
  function Linked(es: seq<Dirent>, name: Name, inum: int): seq<Dirent> { Put(es, FreeSlot(es, 0), Dirent(inum, name)) }

  /** No entry after the first two is in use. */
  predicate OnlyDots(es: seq<Dirent>) { forall k :: 2 <= k < |es| ==> es[k].inum == 0 }

  /** No name occurs twice among the entries in use: the directory is a map from names. */
  ghost predicate IsMap(es: seq<Dirent>) {
    forall j, k :: 0 <= j < k < |es| && es[j].inum != 0 && es[k].inum != 0 ==> !Same(es[j].name, es[k].name)
  }

  lemma LinkedIsMap(es: seq<Dirent>, name: Name, inum: int)
    requires IsMap(es) && Lookup(es, name, 0) == |es|
    ensures IsMap(Linked(es, name, inum))
  {
    hide Lookup, FreeSlot, Same;
    var r, k := Linked(es, name, inum), FreeSlot(es, 0);
    forall j | 0 <= j < |r| && j != k ensures r[j] == es[j] && (es[j].inum != 0 ==> !Same(es[j].name, name)) {}
    forall i, j | 0 <= i < j < |r| && r[i].inum != 0 && r[j].inum != 0 ensures !Same(r[i].name, r[j].name) {
      if i == k { SameSym(r[j].name, name); }
    }
  }

  lemma SameSym(s: Name, t: Name)
    ensures Same(s, t) <==> Same(t, s)
  {
  }
}
