/** The directory loops of fs.c and the calls of sysfile.c, on inodes whose directories are read into
    entries. */
module DirCode {
  import opened DirSpec
  import opened DirMachine

  /** strncmp over DIRSIZ bytes. */
  method NameCmp(s: Name, t: Name) returns (same: bool)
    requires NameBytes(s) && NameBytes(t)
    ensures same <==> Same(s, t)
    ensures same <==> exists n :: EqualUpTo(s, t, n)
  {
    NameCmpIff(s, t, 0);
    var k := 0;
    while k < DIRSIZ && s[k] != 0 && s[k] == t[k]
      invariant 0 <= k <= DIRSIZ && SameFrom(s, t, 0) == SameFrom(s, t, k) && forall j :: 0 <= j < k ==> s[j] == t[j] && s[j] != 0
    {
      k := k + 1;
    }
    same := k == DIRSIZ || s[k] == t[k];
    assert same ==> EqualUpTo(s, t, k);
  }

  /** The first n bytes agree, and then the names end: by a NUL in both, or because there are no more. */
  predicate EqualUpTo(s: Name, t: Name, n: int)
    requires NameBytes(s) && NameBytes(t)
  {
    0 <= n <= DIRSIZ && (forall j :: 0 <= j < n ==> s[j] == t[j]) && (n < DIRSIZ ==> s[n] == 0 && t[n] == 0)
  }

  ghost predicate BytesIn(es: seq<Dirent>) { forall k :: 0 <= k < |es| ==> NameBytes(es[k].name) }

  /** The entry that dirlookup finds, |es| when it finds none. */
  method DirLookup(es: seq<Dirent>, name: Name) returns (k: nat)
    requires BytesIn(es) && NameBytes(name)
    ensures k == Lookup(es, name, 0)
  {
    hide Same;
    k := 0;
    while k < |es|
      invariant 0 <= k <= |es| && Lookup(es, name, 0) == Lookup(es, name, k)
    {
      if es[k].inum != 0 {
        var same := NameCmp(es[k].name, name);
        if same { return; }
      }
      k := k + 1;
    }
  }

  /** dirlink: -1 if the name is there. */
  method DirLink(es: seq<Dirent>, name: Name, inum: int) returns (r: int, es': seq<Dirent>)
    requires BytesIn(es) && NameBytes(name)
    ensures if Lookup(es, name, 0) < |es| then r == -1 && es' == es else r == 0 && es' == Linked(es, name, inum)
  {
    hide Lookup;
    var found := DirLookup(es, name);
    if found < |es| { return -1, es; }
    var k := 0;
    while k < |es|
      invariant 0 <= k <= |es| && FreeSlot(es, 0) == FreeSlot(es, k)
    {
      if es[k].inum == 0 { break; }
      k := k + 1;
    }
    r := 0;
    es' := if k == |es| then es + [Dirent(inum, name)] else es[k := Dirent(inum, name)];
  }

  method IsDirEmpty(es: seq<Dirent>) returns (empty: bool)
    ensures empty <==> OnlyDots(es)
  {
    var k := 2;
    while k < |es|
      invariant 2 <= k && (k <= |es| || k == 2) && forall j :: 2 <= j < k && j < |es| ==> es[j].inum == 0
    {
      if es[k].inum != 0 { return false; }
      k := k + 1;
    }
    return true;
  }

  class Volume {
    var ns: Inodes
    ghost var home: seq<Home>

    ghost function Now(): State
      reads this
    {
      State(ns, home)
    }

    ghost predicate Bytes()
      reads this
    {
      forall i :: 0 <= i < |ns| ==> BytesIn(ns[i].entries)
    }

    /** After mkfs. */
    constructor (n: nat)
      requires n > ROOT
      ensures Inv(Now()) && Bytes() && Now() == Empty(n)
    {
      ns, home := Empty(n).ns, Empty(n).home;
      new;
      EmptyInv(n);
      Dots();
    }

    /** create in directory d; 0 when the name is taken and no plain file is both wanted and there.
        The panics for want of inodes and for a directory that lacks its dots are excluded. */
    method Create(d: int, name: Name, kind: Kind) returns (i: int)
      requires Bytes() && NameBytes(name) && Callable(Now(), DirMachine.Create(d, name, kind)) && d > 0
      modifies this
      ensures Bytes() && Now() == old(DoCreate(Now(), d, name, kind))
      ensures forall k :: FirstNamed(old(ns), d, name, k) ==> ns == old(ns) && i == Found(ns, ns[d].entries[k].inum, kind)
      ensures !(exists k :: NamedAt(old(ns), d, name, k)) ==> Created(old(ns), ns, d, name, kind, i)
    {
      hide Lookup, FreeSlot, FreeInode, Same, Linked, BytesIn, Created, NamedAt, FirstNamed;
      BytesCreated(Now(), d, name, kind);
      CreateAdds(Now(), d, name, kind);
      LookupNamed(ns, d, name);
      LookupFirst(ns, d, name);
      ghost var made := DoCreate(Now(), d, name, kind).ns;
      var found := DirLookup(ns[d].entries, name);
      if found < |ns[d].entries| {
        var j := ns[d].entries[found].inum;
        if kind == File && 0 <= j < |ns| && ns[j].kind == File { return j; }
        return 0;
      }
      ghost var was := ns;
      i := IAlloc(kind);
      ns := ns[i := ns[i].(nlink := 1)];
      if kind == Dir {
        MakeDots(i, d);
        home := home[i := Home(FreeSlot(was[d].entries, 0), home[d].depth + 1)];
      }
      var r, es := DirLink(ns[d].entries, name, i);
      ns := ns[d := ns[d].(entries := es)];
      assert ns == made;
    }

    /** The part of create for a directory i in d: one more link for d, and the dots of i. */
    method MakeDots(i: int, d: int)
      requires 0 < i < |ns| && 0 < d < |ns| && i != d && ns[i].entries == []
      modifies this`ns
      ensures ns == AddLink(old(ns), d, 1)[i := old(ns[i]).(entries := [Dirent(i, DOT), Dirent(d, DOTDOT)])]
    {
      Dots();
      DotsDiffer();
      FirstSlots(i, d);
      hide FreeSlot, Canon;
      ns := ns[d := ns[d].(nlink := ns[d].nlink + 1)];
      var r0, dot := DirLink(ns[i].entries, DOT, i);
      ns := ns[i := ns[i].(entries := dot)];
      assert Lookup(ns[i].entries, DOTDOT, 0) == 1;
      var r1, dots := DirLink(ns[i].entries, DOTDOT, d);
      ns := ns[i := ns[i].(entries := dots)];
    }

    /** The first free inode, cleared. */
    method IAlloc(kind: Kind) returns (i: int)
      requires |ns| > ROOT && FreeInode(ns, ROOT) < |ns|
      modifies this`ns
      ensures i == old(FreeInode(ns, ROOT)) && ROOT <= i < |ns| && ns == old(ns)[i := Inode(kind, 0, [])]
    {
      i := 1;
      while ns[i].kind != Unused
        invariant ROOT <= i < |ns| && FreeInode(ns, ROOT) == FreeInode(ns, i) && ns == old(ns)
        decreases |ns| - i
      {
        i := i + 1;
      }
      ns := ns[i := Inode(kind, 0, [])];
    }

    /** link of inode i under a name in directory d: directories are refused, and a link count taken
        too early is given back. */
    method Link(d: int, name: Name, i: int) returns (r: int)
      requires Bytes() && NameBytes(name) && IsDir(ns, d) && 0 < i < |ns| && |ns| > ROOT && |home| == |ns| && ns[i].kind != Unused
      modifies this`ns
      ensures Bytes()
      ensures old(ns[i].kind) == Dir ==> r == -1 && ns == old(ns)
      ensures old(ns[i].kind) != Dir ==> Now() == old(Do(Now(), DirMachine.Link(d, name, i))) && (r == 0 <==> !old(Has(ns, d, name)))
      ensures r == 0 || r == -1
      ensures r == 0 <==> old(ns[i].kind) != Dir && !(exists k :: NamedAt(old(ns), d, name, k))
      ensures r == 0 ==> LinkAdded(old(ns), ns, d, name, i)
      ensures r == -1 ==> ns == old(ns)
    {
      hide Lookup, FreeSlot, Same, LinkAdded, NamedAt;
      LookupNamed(ns, d, name);
      if ns[i].kind != Dir { LinkAdds(Now(), d, name, i); }
      if ns[i].kind == Dir { return -1; }
      ns := ns[i := ns[i].(nlink := ns[i].nlink + 1)];
      var q, es := DirLink(ns[d].entries, name, i);
      if q < 0 {
        ns := ns[i := ns[i].(nlink := ns[i].nlink - 1)];
        return -1;
      }
      ns := ns[d := ns[d].(entries := es)];
      return 0;
    }

    /** unlink of a name in directory d. */
    method Unlink(d: int, name: Name) returns (r: int)
      requires Bytes() && NameBytes(name) && Inv(Now()) && Callable(Now(), DirMachine.Unlink(d, name))
      modifies this`ns
      ensures Bytes() && Inv(Now()) && Now() == old(DoUnlink(Now(), d, name)) && (r == 0 <==> old(Removable(ns, d, name)))
      ensures r == 0 || r == -1
      ensures r == 0 <==>
        !IsDot(name) && !IsDotDot(name) && exists k :: NamedAt(old(ns), d, name, k) && !Busy(old(ns), old(ns)[d].entries[k].inum)
      ensures r == 0 ==> (forall k :: NamedAt(old(ns), d, name, k) ==> Gone(old(ns), ns, d, k)) && forall k :: !NamedAt(ns, d, name, k)
      ensures r == -1 ==> ns == old(ns)
    {
      hide Lookup, Canon, Shape, CountsOk, Gone, Busy, NamedAt;
      UnlinkRemoves(Now(), d, name);
      Dots();
      ghost var s := Now();
      if Removable(ns, d, name) { UnlinkFinds(s, d, name); }
      UnlinkStep(s, d, name);
      var isDot := NameCmp(name, DOT);
      var isDotDot := NameCmp(name, DOTDOT);
      if isDot || isDotDot { return -1; }
      var k := DirLookup(ns[d].entries, name);
      if k == |ns[d].entries| { return -1; }
      var i := ns[d].entries[k].inum;
      EntryNames(s, d, k);
      if ns[i].kind == Dir {
        var empty := IsDirEmpty(ns[i].entries);
        if !empty { return -1; }
      }
      ns := ns[d := ns[d].(entries := ns[d].entries[k := Dirent(0, NONAME)])];
      if ns[i].kind == Dir {
        ns := ns[d := ns[d].(nlink := ns[d].nlink - 1)];
      }
      ns := ns[i := ns[i].(nlink := ns[i].nlink - 1)];
      return 0;
    }
  }

  lemma LinkedBytes(es: seq<Dirent>, name: Name, inum: int)
    requires BytesIn(es) && NameBytes(name)
    ensures BytesIn(Linked(es, name, inum))
  {
    hide FreeSlot;
  }

  lemma BytesCreated(s: State, d: int, name: Name, kind: Kind)
    requires NameBytes(name) && Callable(s, Create(d, name, kind)) && forall i :: 0 <= i < |s.ns| ==> BytesIn(s.ns[i].entries)
    ensures forall i :: 0 <= i < |s.ns| ==> BytesIn(DoCreate(s, d, name, kind).ns[i].entries)
  {
    hide Lookup, FreeInode, Linked, Canon;
    Dots();
    LinkedBytes(s.ns[d].entries, name, FreeInode(s.ns, ROOT));
  }

  lemma DotsDiffer()
    ensures !Same(DOT, DOTDOT)
  {
    Dots();
  }

  /** Linking the dots into an empty directory puts them into its first two slots. */
  lemma FirstSlots(i: int, d: int)
    requires i > 0
    ensures Linked([], DOT, i) == [Dirent(i, DOT)]
    ensures Linked([Dirent(i, DOT)], DOTDOT, d) == [Dirent(i, DOT), Dirent(d, DOTDOT)]
  {
    assert FreeSlot([Dirent(i, DOT)], 1) == 1;
  }

  /** What a used entry behind a name other than a dot names is an inode. */
  lemma EntryNames(s: State, d: int, k: int)
    requires Shape(s) && IsDir(s.ns, d) && 0 <= k < |s.ns[d].entries| && s.ns[d].entries[k].inum != 0
    ensures 0 <= s.ns[d].entries[k].inum < |s.ns|
  {
    assert InodeOk(s.ns, d);
    if k >= 2 { assert SlotOk(s, d, k); }
  }
}
