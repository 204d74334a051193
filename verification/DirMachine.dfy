/** create, link and unlink, each taken as one step, and the freeing of inodes by iput. */
module DirMachine {
  import opened DirSpec

  type Inodes = seq<Inode>

  /** Where a directory was made: the slot that names it in its parent, and how far below the root. */
  datatype Home = Home(slot: int, depth: int)

  /** home tells this of each linked directory.  It is history only. */
  datatype State = State(ns: Inodes, home: seq<Home>)

  datatype Event =
    | Create(d: int, name: Name, kind: Kind)
    | Link(d: int, name: Name, i: int)
    | Unlink(d: int, name: Name)
    | Free(i: int)

  predicate IsDir(ns: Inodes, d: int) { 0 <= d < |ns| && ns[d].kind == Dir }
  predicate LinkedDir(ns: Inodes, d: int) { IsDir(ns, d) && ns[d].nlink > 0 }

  /** The lowest free inode from k on, |ns| if there is none. */
  function FreeInode(ns: Inodes, k: nat): (r: nat)
    requires k <= |ns|
    ensures k <= r <= |ns| && (r < |ns| ==> ns[r].kind == Unused)
    decreases |ns| - k
  {
    if k == |ns| || ns[k].kind == Unused then k else FreeInode(ns, k + 1)
  }

  predicate Has(ns: Inodes, d: int, name: Name)
    requires IsDir(ns, d)
  {
    Lookup(ns[d].entries, name, 0) < |ns[d].entries|
  }

  /** The call adds an entry to directory d. */
  predicate Adds(s: State, e: Event) {
    (e.Create? || e.Link?) && IsDir(s.ns, e.d) && !Has(s.ns, e.d, e.name)
  }

  /** What the calls demand: locked directories, room in the inode table. */
  predicate Callable(s: State, e: Event) {
    && |s.ns| > ROOT && |s.home| == |s.ns|
    && match e
       case Create(d, name, kind) => IsDir(s.ns, d) && kind != Unused && FreeInode(s.ns, ROOT) < |s.ns|
       case Link(d, name, i) => IsDir(s.ns, d) && 0 < i < |s.ns| && Plain(s.ns[i].kind)
       case Unlink(d, name) => IsDir(s.ns, d)
       case Free(i) => 0 < i < |s.ns| && s.ns[i].kind != Unused && s.ns[i].nlink == 0
  }

  /** Entries go only into directories that are still linked. */
  predicate Enabled(s: State, e: Event) { Callable(s, e) && (Adds(s, e) ==> s.ns[e.d].nlink > 0) }

  function AddEntry(ns: Inodes, d: int, name: Name, i: int): Inodes
    requires 0 <= d < |ns|
  {
    ns[d := ns[d].(entries := Linked(ns[d].entries, name, i))]
  }

  function AddLink(ns: Inodes, i: int, n: int): Inodes
    requires 0 <= i < |ns|
  {
    ns[i := ns[i].(nlink := ns[i].nlink + n)]
  }

  function DoCreate(s: State, d: int, name: Name, kind: Kind): State
    requires Callable(s, Create(d, name, kind))
  {
    if Has(s.ns, d, name) then s else
      var i := FreeInode(s.ns, ROOT);
      var ip := Inode(kind, 1, if kind == Dir then [Dirent(i, DOT), Dirent(d, DOTDOT)] else []);
      var ns := if kind == Dir then AddLink(s.ns[i := ip], d, 1) else s.ns[i := ip];
      State(AddEntry(ns, d, name, i), if kind == Dir then s.home[i := Home(FreeSlot(s.ns[d].entries, 0), s.home[d].depth + 1)] else s.home)
  }

  /** The entry that unlink may remove: not a dot, and no directory with entries of its own. */
  predicate Removable(ns: Inodes, d: int, name: Name)
    requires IsDir(ns, d)
  {
    && !IsDot(name) && !IsDotDot(name) && Has(ns, d, name)
    && var i := ns[d].entries[Lookup(ns[d].entries, name, 0)].inum;
       0 <= i < |ns| && (ns[i].kind == Dir ==> OnlyDots(ns[i].entries))
  }

  function DoUnlink(s: State, d: int, name: Name): State
    requires Callable(s, Unlink(d, name))
  {
    if !Removable(s.ns, d, name) then s else
      var k := Lookup(s.ns[d].entries, name, 0);
      var i := s.ns[d].entries[k].inum;
      var ns := s.ns[d := s.ns[d].(entries := s.ns[d].entries[k := Dirent(0, NONAME)])];
      var ns' := if ns[i].kind == Dir then AddLink(ns, d, -1) else ns;
      s.(ns := AddLink(ns', i, -1))
  }

  function Do(s: State, e: Event): State
    requires Callable(s, e)
  {
    match e
    case Create(d, name, kind) => DoCreate(s, d, name, kind)
    case Link(d, name, i) =>
      if Has(s.ns, d, name) then s else s.(ns := AddEntry(AddLink(s.ns, i, 1), d, name, i))
    case Unlink(d, name) => DoUnlink(s, d, name)
    case Free(i) => s.(ns := s.ns[i := Inode(Unused, 0, [])])
  }

  // ---------------------------------------------------------------- invariant

  /** Slot k of directory d counts for the links of inode i: "." is slot 0 and does not. */
  predicate Counts(ns: Inodes, d: int, k: int, i: int) {
    LinkedDir(ns, d) && 0 < k < |ns[d].entries| && ns[d].entries[k].inum == i
  }

  /** The entries in linked directories that name inode i, "." aside. */
  ghost function Names(ns: Inodes, i: int): set<(int, int)> {
    set d: int, k: int | 0 <= d < |ns| && 0 < k < |ns[d].entries| && Counts(ns, d, k, i) :: (d, k)
  }

  ghost predicate InodeOk(ns: Inodes, i: int)
    requires 0 <= i < |ns|
  {
    var es := ns[i].entries;
    if ns[i].kind != Dir then es == [] else
      && i > 0 && |es| >= 2 && IsMap(es) && es[0].inum == i && IsDot(es[0].name) && 0 < es[1].inum < |ns| && IsDotDot(es[1].name)
      && (ns[i].nlink <= 0 ==> OnlyDots(es))
  }

  /** What an entry other than the dots may name. */
  ghost predicate SlotOk(s: State, d: int, k: int)
    requires |s.home| == |s.ns|
  {
    LinkedDir(s.ns, d) && 2 <= k < |s.ns[d].entries| && s.ns[d].entries[k].inum != 0 ==>
      var c := s.ns[d].entries[k].inum;
      && 0 < c < |s.ns| && s.ns[c].kind != Unused
      && (s.ns[c].kind == Dir ==>
            s.ns[c].nlink > 0 && c != ROOT && |s.ns[c].entries| >= 2 && s.ns[c].entries[1].inum == d && s.home[c].slot == k)
  }

  /** A linked directory other than the root is named in the linked directory that its ".." names, and
      lies one further down. */
  ghost predicate HomeOk(s: State, c: int)
    requires |s.home| == |s.ns|
  {
    LinkedDir(s.ns, c) && c != ROOT ==>
      && |s.ns[c].entries| >= 2 && LinkedDir(s.ns, s.ns[c].entries[1].inum)
      && 2 <= s.home[c].slot < |s.ns[s.ns[c].entries[1].inum].entries|
      && s.ns[s.ns[c].entries[1].inum].entries[s.home[c].slot].inum == c
      && s.home[c].depth == s.home[s.ns[c].entries[1].inum].depth + 1 > 0
  }

  ghost predicate Shape(s: State) {
    && |s.home| == |s.ns| && |s.ns| > ROOT
    && (forall i :: 0 <= i < |s.ns| ==> InodeOk(s.ns, i))
    && (forall d, k :: 0 <= d < |s.ns| && 2 <= k < |s.ns[d].entries| ==> SlotOk(s, d, k))
    && (forall c :: 0 <= c < |s.ns| ==> HomeOk(s, c))
    && LinkedDir(s.ns, ROOT) && |s.ns[ROOT].entries| >= 2 && s.ns[ROOT].entries[1].inum == ROOT && s.home[ROOT].depth == 0
  }

  ghost predicate CountOk(ns: Inodes, i: int)
    requires 0 <= i < |ns|
  {
    (ns[i].kind != Unused ==> ns[i].nlink == |Names(ns, i)|) && (ns[i].kind == Unused ==> Names(ns, i) == {})
  }

  /** Link counts are right: every inode in use has as many links as there are names for it. */
  ghost predicate CountsOk(ns: Inodes) { forall i :: 0 < i < |ns| ==> CountOk(ns, i) }

  ghost predicate Inv(s: State) { Shape(s) && CountsOk(s.ns) }

  // ---------------------------------------------------------------- changes of the names

  lemma InNames(ns: Inodes, i: int, d: int, k: int)
    ensures (d, k) in Names(ns, i) <==> Counts(ns, d, k, i)
  {
  }

  /** The names of an inode, when the entries that count change by one. */
  lemma NamesSame(ns: Inodes, ns': Inodes, i: int)
    requires forall d, k :: Counts(ns', d, k, i) <==> Counts(ns, d, k, i)
    ensures Names(ns', i) == Names(ns, i)
  {
    forall x ensures x in Names(ns', i) <==> x in Names(ns, i) {
      InNames(ns, i, x.0, x.1);
      InNames(ns', i, x.0, x.1);
    }
  }

  lemma NamesMore(ns: Inodes, ns': Inodes, i: int, d: int, k: int)
    requires forall x, y :: Counts(ns', x, y, i) <==> Counts(ns, x, y, i) || (x, y) == (d, k)
    requires !Counts(ns, d, k, i)
    ensures Names(ns', i) == Names(ns, i) + {(d, k)} && |Names(ns', i)| == |Names(ns, i)| + 1
  {
    hide Counts;
    InNames(ns, i, d, k);
    forall x ensures x in Names(ns', i) <==> x in Names(ns, i) + {(d, k)} {
      InNames(ns, i, x.0, x.1);
      InNames(ns', i, x.0, x.1);
    }
    assert Names(ns', i) == Names(ns, i) + {(d, k)};
  }

  lemma NamesLess(ns: Inodes, ns': Inodes, i: int, d: int, k: int)
    requires forall x, y :: Counts(ns', x, y, i) <==> Counts(ns, x, y, i) && (x, y) != (d, k)
    requires Counts(ns, d, k, i)
    ensures Names(ns', i) == Names(ns, i) - {(d, k)} && |Names(ns', i)| == |Names(ns, i)| - 1
  {
    hide Counts;
    NamesMore(ns', ns, i, d, k);
    InNames(ns', i, d, k);
    assert Names(ns', i) == Names(ns, i) - {(d, k)};
  }

  // ---------------------------------------------------------------- adding a name

  /** A new entry goes behind the dots. */
  lemma SlotBehindDots(ns: Inodes, d: int)
    requires 0 <= d < |ns| && ns[d].kind == Dir && InodeOk(ns, d)
    ensures 2 <= FreeSlot(ns[d].entries, 0)
  {
  }

  /** ns' is ns with entry k of directory d naming inode i, which was free, and the links of i one up. */
  ghost predicate Named(ns: Inodes, ns': Inodes, d: int, k: int, i: int, name: Name) {
    && |ns'| == |ns| && 0 <= d < |ns| && 0 < i < |ns| && i != d && 0 <= k <= |ns[d].entries|
    && ns'[d] == ns[d].(entries := Put(ns[d].entries, k, Dirent(i, name)))
    && (k < |ns[d].entries| ==> ns[d].entries[k].inum == 0)
    && ns'[i] == ns[i].(nlink := ns[i].nlink + 1)
    && forall j :: 0 <= j < |ns| && j != d && j != i ==> ns'[j] == ns[j]
  }

  lemma LinkNamed(s: State, d: int, name: Name, i: int)
    requires Callable(s, Link(d, name, i)) && !Has(s.ns, d, name)
    ensures Named(s.ns, Do(s, Link(d, name, i)).ns, d, FreeSlot(s.ns[d].entries, 0), i, name)
  {
    hide Lookup, FreeSlot;
  }

  /** A file gets one more name, if the directory is linked. */
  lemma LinkCounts(ns: Inodes, ns': Inodes, d: int, k: int, i: int, name: Name, j: int)
    requires Named(ns, ns', d, k, i, name) && ns[d].kind == Dir && Plain(ns[i].kind) && 2 <= k && 0 < j < |ns|
    requires CountOk(ns, j) && ns[d].nlink > 0
    ensures CountOk(ns', j)
  {
    forall x, y ensures Counts(ns', x, y, j) <==> Counts(ns, x, y, j) || (j == i && (x, y) == (d, k)) {}
    if j == i { NamesMore(ns, ns', j, d, k); } else { NamesSame(ns, ns', j); }
  }

  lemma LinkShape(s: State, d: int, k: int, i: int, name: Name, ns': Inodes)
    requires Shape(s) && Named(s.ns, ns', d, k, i, name) && s.ns[d].kind == Dir && Plain(s.ns[i].kind) && 2 <= k
    requires s.ns[d].nlink > 0 && IsMap(ns'[d].entries)
    ensures Shape(s.(ns := ns'))
  {
    var t := s.(ns := ns');
    assert InodeOk(s.ns, d);
    forall j | 0 <= j < |ns'| ensures InodeOk(ns', j) && HomeOk(t, j) { assert InodeOk(s.ns, j) && HomeOk(s, j); }
    forall x, y | 0 <= x < |ns'| && 2 <= y < |ns'[x].entries| ensures SlotOk(t, x, y) {
      if x != d || y < |s.ns[d].entries| { assert SlotOk(s, x, y); }
    }
  }

  lemma LinkStep(s: State, d: int, name: Name, i: int)
    requires Inv(s) && Enabled(s, Link(d, name, i))
    ensures Inv(Do(s, Link(d, name, i)))
  {
    hide Lookup, FreeSlot, Shape, CountOk, IsMap;
    if !Has(s.ns, d, name) {
      var ns', k := Do(s, Link(d, name, i)).ns, FreeSlot(s.ns[d].entries, 0);
      LinkNamed(s, d, name, i);
      assert InodeOk(s.ns, d) by { ShapeAt(s, d); }
      SlotBehindDots(s.ns, d);
      LinkedIsMap(s.ns[d].entries, name, i);
      LinkShape(s, d, k, i, name, ns');
      forall j | 0 < j < |ns'| ensures CountOk(ns', j) { LinkCounts(s.ns, ns', d, k, i, name, j); }
    }
  }

  lemma ShapeAt(s: State, i: int)
    requires Shape(s) && 0 <= i < |s.ns|
    ensures InodeOk(s.ns, i) && HomeOk(s, i) && LinkedDir(s.ns, ROOT)
  {
  }

  // ---------------------------------------------------------------- create

  /** A fresh inode of no links: a file, or a directory with its dots. */
  function Fresh(i: int, d: int, kind: Kind): Inode {
    Inode(kind, 0, if kind == Dir then [Dirent(i, DOT), Dirent(d, DOTDOT)] else [])
  }

  lemma FreshDots(i: int, d: int)
    requires i > 0 && d > 0
    ensures var es := Fresh(i, d, Dir).entries; IsMap(es) && IsDot(es[0].name) && IsDotDot(es[1].name) && OnlyDots(es)
  {
    Dots();
    hide Canon;
  }

  /** An inode that is allocated and not linked yet changes no count. */
  lemma FreshInv(s: State, i: int, d: int, kind: Kind)
    requires Inv(s) && 0 < i < |s.ns| && s.ns[i].kind == Unused && 0 < d < |s.ns| && kind != Unused
    ensures Inv(s.(ns := s.ns[i := Fresh(i, d, kind)]))
  {
    hide IsMap, OnlyDots, IsDot, IsDotDot, Fresh, Names;
    var ns', t := s.ns[i := Fresh(i, d, kind)], s.(ns := s.ns[i := Fresh(i, d, kind)]);
    assert InodeOk(s.ns, i);
    FreshOk(s.ns, i, d, kind);
    forall j | 0 <= j < |ns'| ensures InodeOk(ns', j) && HomeOk(t, j) { assert InodeOk(s.ns, j) && HomeOk(s, j); }
    forall x, y | 0 <= x < |ns'| && 2 <= y < |ns'[x].entries| ensures SlotOk(t, x, y) {
      if x != i { FreshSlot(s, i, d, kind, x, y); }
    }
    forall j | 0 < j < |ns'| ensures CountOk(ns', j) {
      assert CountOk(s.ns, j);
      forall x, y ensures Counts(ns', x, y, j) <==> Counts(s.ns, x, y, j) {}
      NamesSame(s.ns, ns', j);
      if j == i { NoNames(ns', j); }
    }
  }

  lemma NoNames(ns: Inodes, i: int)
    requires Names(ns, i) == {}
    ensures |Names(ns, i)| == 0
  {
  }

  lemma FreshOk(ns: Inodes, i: int, d: int, kind: Kind)
    requires 0 < i < |ns| && 0 < d < |ns| && kind != Unused
    ensures InodeOk(ns[i := Fresh(i, d, kind)], i) && Fresh(i, d, kind).nlink == 0 && Fresh(i, d, kind).kind == kind
  {
    if kind == Dir { FreshDots(i, d); }
  }

  /** No slot names an inode that is not in use. */
  lemma FreshSlot(s: State, i: int, d: int, kind: Kind, x: int, y: int)
    requires Shape(s) && 0 < i < |s.ns| && s.ns[i].kind == Unused && x != i && 0 <= x < |s.ns| && 2 <= y < |s.ns[x].entries|
    ensures SlotOk(s.(ns := s.ns[i := Fresh(i, d, kind)]), x, y)
  {
    hide Fresh;
    assert SlotOk(s, x, y);
  }

  /** ns' is ns with entry k of directory d naming the fresh directory i, now linked. */
  ghost predicate NamedDir(ns: Inodes, ns': Inodes, d: int, k: int, i: int, name: Name) {
    && |ns'| == |ns| && 0 <= d < |ns| && 0 < i < |ns| && i != d && 0 <= k <= |ns[d].entries|
    && ns'[d] == ns[d].(entries := Put(ns[d].entries, k, Dirent(i, name)), nlink := ns[d].nlink + 1)
    && (k < |ns[d].entries| ==> ns[d].entries[k].inum == 0)
    && ns[i].nlink == 0 && ns'[i] == ns[i].(nlink := 1)
    && forall j :: 0 <= j < |ns| && j != d && j != i ==> ns'[j] == ns[j]
  }

  lemma MkdirCounts(ns: Inodes, ns': Inodes, d: int, k: int, i: int, name: Name, j: int)
    requires NamedDir(ns, ns', d, k, i, name) && LinkedDir(ns, d) && ns[i].kind == Dir && 2 <= k && 0 < j < |ns|
    requires |ns[i].entries| == 2 && ns[i].entries[1].inum == d && CountOk(ns, j)
    ensures CountOk(ns', j)
  {
    forall x, y ensures Counts(ns', x, y, j) <==> Counts(ns, x, y, j) || (j == i && (x, y) == (d, k)) || (j == d && (x, y) == (i, 1)) {}
    if j == i { NamesMore(ns, ns', j, d, k); } else if j == d { NamesMore(ns, ns', j, i, 1); } else { NamesSame(ns, ns', j); }
  }

  lemma MkdirShape(s: State, ns': Inodes, d: int, k: int, i: int, name: Name)
    requires Shape(s) && NamedDir(s.ns, ns', d, k, i, name) && LinkedDir(s.ns, d) && s.ns[i].kind == Dir && 2 <= k && i != ROOT
    requires |s.ns[i].entries| == 2 && s.ns[i].entries[1].inum == d && IsMap(ns'[d].entries)
    ensures Shape(State(ns', s.home[i := Home(k, s.home[d].depth + 1)]))
  {
    hide IsMap;
    var t := State(ns', s.home[i := Home(k, s.home[d].depth + 1)]);
    assert InodeOk(s.ns, d) && InodeOk(s.ns, i) && HomeOk(s, d);
    forall j | 0 <= j < |ns'| ensures InodeOk(ns', j) && HomeOk(t, j) { assert InodeOk(s.ns, j) && HomeOk(s, j); }
    forall x, y | 0 <= x < |ns'| && 2 <= y < |ns'[x].entries| ensures SlotOk(t, x, y) {
      if x != d || y < |s.ns[d].entries| { assert SlotOk(s, x, y); }
    }
  }

  lemma CreateStep(s: State, d: int, name: Name, kind: Kind)
    requires Inv(s) && Enabled(s, Create(d, name, kind))
    ensures Inv(Do(s, Create(d, name, kind)))
  {
    hide Lookup, FreeSlot, FreeInode, Shape, CountOk, IsMap, Fresh, Linked;
    if !Has(s.ns, d, name) {
      var i, k := FreeInode(s.ns, ROOT), FreeSlot(s.ns[d].entries, 0);
      assert InodeOk(s.ns, d) && LinkedDir(s.ns, ROOT) by { ShapeAt(s, d); }
      SlotBehindDots(s.ns, d);
      FreshInv(s, i, d, kind);
      LinkedIsMap(s.ns[d].entries, name, i);
      var s1, t := s.(ns := s.ns[i := Fresh(i, d, kind)]), Do(s, Create(d, name, kind));
      if kind == Dir {
        MkdirNamed(s, d, name);
        MkdirShape(s1, t.ns, d, k, i, name);
        forall j | 0 < j < |t.ns| ensures CountOk(t.ns, j) { MkdirCounts(s1.ns, t.ns, d, k, i, name, j); }
      } else {
        MkfileNamed(s, d, name, kind);
        LinkShape(s1, d, k, i, name, t.ns);
        forall j | 0 < j < |t.ns| ensures CountOk(t.ns, j) { LinkCounts(s1.ns, t.ns, d, k, i, name, j); }
      }
    }
  }

  lemma MkdirNamed(s: State, d: int, name: Name)
    requires Callable(s, Create(d, name, Dir)) && !Has(s.ns, d, name)
    ensures var i := FreeInode(s.ns, ROOT); var t := Do(s, Create(d, name, Dir)); var f := Fresh(i, d, Dir);
      && NamedDir(s.ns[i := f], t.ns, d, FreeSlot(s.ns[d].entries, 0), i, name) && t.home == s.home[i := Home(FreeSlot(s.ns[d].entries, 0), s.home[d].depth + 1)]
      && t.ns[d].entries == Linked(s.ns[d].entries, name, i) && |f.entries| == 2 && f.entries[1].inum == d && f.kind == Dir
  {
    hide Lookup, FreeSlot, FreeInode;
  }

  lemma MkfileNamed(s: State, d: int, name: Name, kind: Kind)
    requires Callable(s, Create(d, name, kind)) && !Has(s.ns, d, name) && Plain(kind)
    ensures var i := FreeInode(s.ns, ROOT); var t := Do(s, Create(d, name, kind)); var f := Fresh(i, d, kind);
      && Named(s.ns[i := f], t.ns, d, FreeSlot(s.ns[d].entries, 0), i, name) && t.home == s.home
      && t.ns[d].entries == Linked(s.ns[d].entries, name, i) && f.kind == kind
  {
    hide Lookup, FreeSlot, FreeInode;
  }

  // ---------------------------------------------------------------- unlink

  /** The entry that unlink removes is not one of the dots, lies in a linked directory, and names an
      inode that has a link. */
  lemma UnlinkFinds(s: State, d: int, name: Name)
    requires Shape(s) && IsDir(s.ns, d) && Removable(s.ns, d, name)
    ensures var k := Lookup(s.ns[d].entries, name, 0); var i := s.ns[d].entries[k].inum;
      && 2 <= k < |s.ns[d].entries| && LinkedDir(s.ns, d) && 0 < i < |s.ns| && i != d && Counts(s.ns, d, k, i) && SlotOk(s, d, k)
      && s.ns[i].kind != Unused && d > 0
  {
    hide Lookup, IsMap, Canon;
    var k := Lookup(s.ns[d].entries, name, 0);
    assert InodeOk(s.ns, d);
    assert k < |s.ns[d].entries| && SlotOk(s, d, k);
  }

  ghost predicate Unnamed(ns: Inodes, ns': Inodes, d: int, k: int, i: int) {
    && |ns'| == |ns| && 0 <= d < |ns| && 0 < i < |ns| && i != d && 2 <= k < |ns[d].entries| && ns[d].entries[k].inum == i
    && ns'[d] == ns[d].(entries := ns[d].entries[k := Dirent(0, NONAME)], nlink := ns[d].nlink - if ns[i].kind == Dir then 1 else 0)
    && ns'[i] == ns[i].(nlink := ns[i].nlink - 1)
    && forall j :: 0 <= j < |ns| && j != d && j != i ==> ns'[j] == ns[j]
  }

  lemma UnlinkUnnamed(s: State, d: int, name: Name)
    requires Shape(s) && Callable(s, Unlink(d, name)) && Removable(s.ns, d, name)
    ensures var k := Lookup(s.ns[d].entries, name, 0);
      k < |s.ns[d].entries| && Unnamed(s.ns, Do(s, Unlink(d, name)).ns, d, k, s.ns[d].entries[k].inum) && Do(s, Unlink(d, name)).home == s.home
  {
    UnlinkFinds(s, d, name);
    hide Lookup, Shape, IsDot, IsDotDot;
  }

  lemma UnmapEntries(es: seq<Dirent>, k: int)
    requires IsMap(es) && 0 <= k < |es|
    ensures IsMap(es[k := Dirent(0, NONAME)])
  {
    hide Same;
  }

  lemma RmCounts(ns: Inodes, ns': Inodes, d: int, k: int, i: int, j: int)
    requires Unnamed(ns, ns', d, k, i) && LinkedDir(ns, d) && Plain(ns[i].kind) && 0 < j < |ns| && CountOk(ns, j)
    ensures CountOk(ns', j)
  {
    forall x, y ensures Counts(ns', x, y, j) <==> Counts(ns, x, y, j) && (j != i || (x, y) != (d, k)) {}
    if j == i { NamesLess(ns, ns', j, d, k); } else { NamesSame(ns, ns', j); }
  }

  lemma RmShape(s: State, ns': Inodes, d: int, k: int, i: int)
    requires Shape(s) && Unnamed(s.ns, ns', d, k, i) && LinkedDir(s.ns, d) && Plain(s.ns[i].kind)
    ensures Shape(s.(ns := ns'))
  {
    hide IsMap, IsDot, IsDotDot;
    var t := s.(ns := ns');
    assert InodeOk(s.ns, d);
    UnmapEntries(s.ns[d].entries, k);
    forall j | 0 <= j < |ns'| ensures InodeOk(ns', j) && HomeOk(t, j) { assert InodeOk(s.ns, j) && HomeOk(s, j); }
    forall x, y | 0 <= x < |ns'| && 2 <= y < |ns'[x].entries| ensures SlotOk(t, x, y) { assert SlotOk(s, x, y); }
  }

  // ---------------------------------------------------------------- unlinking a directory

  /** An empty directory has one name: the one in its parent. */
  lemma EmptyDirNames(s: State, d: int, k: int, i: int, x: int, y: int)
    requires Shape(s) && LinkedDir(s.ns, d) && 2 <= k < |s.ns[d].entries| && s.ns[d].entries[k].inum == i && i != 0
    requires 0 <= i < |s.ns| && s.ns[i].kind == Dir && OnlyDots(s.ns[i].entries) && Counts(s.ns, x, y, i)
    ensures (x, y) == (d, k)
  {
    hide IsMap, IsDot, IsDotDot;
    assert SlotOk(s, d, k) && HomeOk(s, x) && InodeOk(s.ns, x);
    if y >= 2 { assert SlotOk(s, x, y); }
  }

  lemma OneName(s: State, d: int, k: int, i: int)
    requires Shape(s) && LinkedDir(s.ns, d) && 2 <= k < |s.ns[d].entries| && s.ns[d].entries[k].inum == i && i != 0
    requires 0 <= i < |s.ns| && s.ns[i].kind == Dir && OnlyDots(s.ns[i].entries)
    ensures Names(s.ns, i) == {(d, k)} && |Names(s.ns, i)| == 1
  {
    hide Shape, OnlyDots;
    forall p ensures p in Names(s.ns, i) <==> p == (d, k) {
      InNames(s.ns, i, p.0, p.1);
      if Counts(s.ns, p.0, p.1, i) { EmptyDirNames(s, d, k, i, p.0, p.1); }
    }
  }

  /** A linked directory with a subdirectory has a link more than its parent gives it. */
  lemma ParentKeepsLink(s: State, d: int, c: int)
    requires Shape(s) && LinkedDir(s.ns, d) && LinkedDir(s.ns, c) && c != ROOT && |s.ns[c].entries| >= 2 && s.ns[c].entries[1].inum == d
    requires CountOk(s.ns, d)
    ensures s.ns[d].nlink >= 2
  {
    hide IsMap, IsDot, IsDotDot, Names;
    assert HomeOk(s, d);
    var a, b := if d == ROOT then ROOT else s.ns[d].entries[1].inum, if d == ROOT then 1 else s.home[d].slot;
    assert Counts(s.ns, a, b, d) && Counts(s.ns, c, 1, d) && (a, b) != (c, 1);
    InNames(s.ns, d, a, b);
    InNames(s.ns, d, c, 1);
    TwoElements(Names(s.ns, d), (a, b), (c, 1));
  }

  lemma TwoElements(s: set<(int, int)>, a: (int, int), b: (int, int))
    requires a in s && b in s && a != b
    ensures |s| >= 2
  {
    assert s == (s - {a} - {b}) + {b} + {a};
  }

  lemma RmdirCounts(s: State, ns': Inodes, d: int, k: int, i: int, j: int)
    requires Shape(s) && CountsOk(s.ns) && Unnamed(s.ns, ns', d, k, i) && LinkedDir(s.ns, d) && s.ns[i].kind == Dir && OnlyDots(s.ns[i].entries)
    requires 0 < j < |s.ns| && s.ns[i].nlink == 1 && s.ns[d].nlink >= 2 && |s.ns[i].entries| >= 2 && s.ns[i].entries[1].inum == d
    ensures CountOk(ns', j)
  {
    hide Shape, Names;
    assert CountOk(s.ns, j);
    forall x, y ensures Counts(ns', x, y, j) <==> Counts(s.ns, x, y, j) && (j != i || (x, y) != (d, k)) && (j != d || (x, y) != (i, 1)) {}
    if j == i { NamesLess(s.ns, ns', j, d, k); } else if j == d { NamesLess(s.ns, ns', j, i, 1); } else { NamesSame(s.ns, ns', j); }
  }

  lemma RmdirShape(s: State, ns': Inodes, d: int, k: int, i: int)
    requires Shape(s) && Unnamed(s.ns, ns', d, k, i) && LinkedDir(s.ns, d) && s.ns[i].kind == Dir && OnlyDots(s.ns[i].entries)
    requires s.ns[i].nlink == 1 && s.ns[d].nlink >= 2 && i != ROOT
    ensures Shape(s.(ns := ns'))
  {
    hide IsMap, IsDot, IsDotDot;
    var t := s.(ns := ns');
    assert InodeOk(s.ns, d) && InodeOk(s.ns, i);
    UnmapEntries(s.ns[d].entries, k);
    forall j | 0 <= j < |ns'| ensures InodeOk(ns', j) && HomeOk(t, j) { assert InodeOk(s.ns, j) && HomeOk(s, j); }
    forall x, y | 0 <= x < |ns'| && 2 <= y < |ns'[x].entries| ensures SlotOk(t, x, y) {
      assert SlotOk(s, x, y);
      if s.ns[x].entries[y].inum == i && LinkedDir(s.ns, x) { assert SlotOk(s, d, k) && (x, y) == (d, k); }
    }
  }

  lemma UnlinkStep(s: State, d: int, name: Name)
    requires Inv(s) && Enabled(s, Unlink(d, name))
    ensures Inv(Do(s, Unlink(d, name)))
  {
    hide Lookup, Shape, CountOk, OnlyDots, Names;
    if Removable(s.ns, d, name) {
      UnlinkFinds(s, d, name);
      UnlinkUnnamed(s, d, name);
      var k, ns' := Lookup(s.ns[d].entries, name, 0), Do(s, Unlink(d, name)).ns;
      var i := s.ns[d].entries[k].inum;
      if s.ns[i].kind == Dir {
        OneName(s, d, k, i);
        assert s.ns[i].nlink == 1 by { assert CountOk(s.ns, i); LinksAre(s.ns, i); }
        ParentKeepsLink(s, d, i);
        RmdirShape(s, ns', d, k, i);
        forall j | 0 < j < |ns'| ensures CountOk(ns', j) { RmdirCounts(s, ns', d, k, i, j); }
      } else {
        RmShape(s, ns', d, k, i);
        forall j | 0 < j < |ns'| ensures CountOk(ns', j) { RmCounts(s.ns, ns', d, k, i, j); }
      }
    }
  }

  lemma LinksAre(ns: Inodes, i: int)
    requires 0 <= i < |ns| && CountOk(ns, i) && ns[i].kind != Unused
    ensures ns[i].nlink == |Names(ns, i)|
  {
  }

  // ---------------------------------------------------------------- every run

  lemma FreeStep(s: State, i: int)
    requires Inv(s) && Enabled(s, Free(i))
    ensures Inv(Do(s, Free(i)))
  {
    hide IsMap, IsDot, IsDotDot, Names;
    var t := Do(s, Free(i));
    assert InodeOk(s.ns, i) && CountOk(s.ns, i);
    NoLinksNoNames(s.ns, i);
    forall j | 0 <= j < |t.ns| ensures InodeOk(t.ns, j) && HomeOk(t, j) { assert InodeOk(s.ns, j) && HomeOk(s, j); }
    forall x, y | 0 <= x < |t.ns| && 2 <= y < |t.ns[x].entries| ensures SlotOk(t, x, y) {
      assert SlotOk(s, x, y);
      assert !Counts(s.ns, x, y, i);
    }
    forall j | 0 < j < |t.ns| ensures CountOk(t.ns, j) {
      assert CountOk(s.ns, j);
      forall x, y ensures Counts(t.ns, x, y, j) <==> Counts(s.ns, x, y, j) {}
      NamesSame(s.ns, t.ns, j);
    }
  }

  lemma NoLinksNoNames(ns: Inodes, i: int)
    requires 0 <= i < |ns| && CountOk(ns, i) && ns[i].nlink == 0
    ensures Names(ns, i) == {} && forall x, y :: !Counts(ns, x, y, i)
  {
    assert Names(ns, i) == {};
    forall x, y ensures !Counts(ns, x, y, i) { InNames(ns, i, x, y); }
  }

  /** Every call that adds entries to linked directories only keeps the link counts right. */
  lemma Step(s: State, e: Event)
    requires Inv(s) && Enabled(s, e)
    ensures Inv(Do(s, e))
  {
    hide Inv, Enabled, Do;
    match e
    case Create(d, name, kind) => CreateStep(s, d, name, kind);
    case Link(d, name, i) => LinkStep(s, d, name, i);
    case Unlink(d, name) => UnlinkStep(s, d, name);
    case Free(i) => FreeStep(s, i);
  }

  ghost predicate Possible(s: State, es: seq<Event>)
    decreases |es|
  {
    es == [] || (Enabled(s, es[0]) && Possible(Do(s, es[0]), es[1..]))
  }

  ghost function After(s: State, es: seq<Event>): State
    requires Possible(s, es)
    decreases |es|
  {
    if es == [] then s else After(Do(s, es[0]), es[1..])
  }

  /** In every run of such calls, each inode in use has as many links as linked directories have
      entries for it, "." aside, and every directory is a map from names. */
  lemma {:induction false} Runs(s: State, es: seq<Event>)
    requires Inv(s) && Possible(s, es)
    ensures Inv(After(s, es))
    decreases |es|
  {
    hide Inv, Callable, Adds, Do;
    if es != [] {
      Step(s, es[0]);
      Runs(Do(s, es[0]), es[1..]);
    }
  }

  /** The state that mkfs leaves: a root directory with its dots and one link, other inodes free. */
  function Empty(n: nat): State
    requires n > ROOT
  {
    State(seq(n, i => if i == ROOT then Inode(Dir, 1, [Dirent(ROOT, DOT), Dirent(ROOT, DOTDOT)]) else Inode(Unused, 0, [])), seq(n, _ => Home(0, 0)))
  }

  lemma EmptyInv(n: nat)
    requires n > ROOT
    ensures Inv(Empty(n))
  {
    hide Canon;
    var s := Empty(n);
    FreshDots(ROOT, ROOT);
    forall i | 0 <= i < n ensures InodeOk(s.ns, i) && HomeOk(s, i) {}
    forall i | 0 < i < n ensures CountOk(s.ns, i) {
      forall p ensures p in Names(s.ns, i) <==> (i == ROOT && p == (ROOT, 1)) { InNames(s.ns, i, p.0, p.1); }
      if i == ROOT { assert Names(s.ns, i) == {(ROOT, 1)}; } else { assert Names(s.ns, i) == {}; }
    }
  }

  // ---------------------------------------------------------------- the tree

  /** Where n steps over ".." lead. */
  ghost function Up(ns: Inodes, c: int, n: nat): int
    decreases n
  {
    if n == 0 || !IsDir(ns, c) || |ns[c].entries| < 2 then c else Up(ns, ns[c].entries[1].inum, n - 1)
  }

  lemma {:induction false} UpToRoot(s: State, c: int)
    requires Shape(s) && LinkedDir(s.ns, c)
    ensures s.home[c].depth >= 0 && Up(s.ns, c, s.home[c].depth) == ROOT
    decreases s.home[c].depth
  {
    hide InodeOk, SlotOk;
    if c != ROOT {
      assert HomeOk(s, c);
      UpToRoot(s, s.ns[c].entries[1].inum);
    }
  }

  /** The linked directories are a tree: in every run from the state that mkfs leaves, the way over
      ".." from a linked directory ends at the root, and no directory is named twice. */
  lemma Tree(n: nat, es: seq<Event>, c: int)
    requires n > ROOT && Possible(Empty(n), es) && LinkedDir(After(Empty(n), es).ns, c)
    ensures var ns := After(Empty(n), es).ns;
      && (exists k: nat :: Up(ns, c, k) == ROOT)
      && forall d, j, d', j' :: Holds(ns, d, j, c) && Holds(ns, d', j', c) ==> (d, j) == (d', j')
  {
    hide Possible, After, Shape, Up;
    EmptyInv(n);
    Runs(Empty(n), es);
    var s := After(Empty(n), es);
    UpToRoot(s, c);
    forall d, j, d', j' | Holds(s.ns, d, j, c) && Holds(s.ns, d', j', c) ensures (d, j) == (d', j') {
      OneHome(s, d, j, c);
      OneHome(s, d', j', c);
    }
  }

  /** Slot j of linked directory d, not one of the dots, names c. */
  predicate Holds(ns: Inodes, d: int, j: int, c: int) { LinkedDir(ns, d) && 2 <= j < |ns[d].entries| && ns[d].entries[j].inum == c }

  lemma OneHome(s: State, d: int, j: int, c: int)
    requires Shape(s) && LinkedDir(s.ns, c) && Holds(s.ns, d, j, c)
    ensures |s.ns[c].entries| >= 2 && (d, j) == (s.ns[c].entries[1].inum, s.home[c].slot)
  {
    hide HomeOk;
    assert SlotOk(s, d, j) && InodeOk(s.ns, c);
  }

  /** iput frees an inode only when no linked directory has an entry for it. */
  lemma FreesUnnamed(s: State, i: int, d: int, k: int)
    requires Inv(s) && Enabled(s, Free(i)) && LinkedDir(s.ns, d) && 0 < k < |s.ns[d].entries|
    ensures s.ns[d].entries[k].inum != i
  {
    hide Shape, Names;
    assert CountOk(s.ns, i);
    NoLinksNoNames(s.ns, i);
    assert !Counts(s.ns, d, k, i);
  }

  /** unlink never finds an inode without links, whether or not it then finds a directory that is not
      empty. */
  lemma UnlinkHasLink(s: State, d: int, name: Name)
    requires Inv(s) && Callable(s, Unlink(d, name)) && !IsDot(name) && !IsDotDot(name) && Has(s.ns, d, name)
    ensures var i := s.ns[d].entries[Lookup(s.ns[d].entries, name, 0)].inum; 0 < i < |s.ns| && s.ns[i].nlink >= 1
  {
    hide Names, Lookup, IsMap, Canon;
    var k := Lookup(s.ns[d].entries, name, 0);
    var i := s.ns[d].entries[k].inum;
    assert InodeOk(s.ns, d) && SlotOk(s, d, k);
    assert Counts(s.ns, d, k, i) && CountOk(s.ns, i);
    InNames(s.ns, i, d, k);
    assert {(d, k)} <= Names(s.ns, i);
    assert Names(s.ns, i) != {};
  }

  // ---------------------------------------------------------------- why only linked directories

  /** A call that adds an entry keeps the counts right exactly if the directory is still linked. */
  lemma CountsRightIff(s: State, e: Event)
    requires Inv(s) && Callable(s, e) && Adds(s, e)
    ensures CountsOk(Do(s, e).ns) <==> s.ns[e.d].nlink > 0
  {
    hide Shape, Lookup, FreeSlot, FreeInode, Names, Do;
    if s.ns[e.d].nlink > 0 {
      Step(s, e);
    } else {
      ShapeAt(s, e.d);
      assert CountOk(s.ns, e.d);
      if e.Create? && e.kind == Dir { UnlinkedMkdir(s, e.d, e.name); } else { UnlinkedFile(s, e); }
    }
  }

  /** A file added to an unlinked directory has a link that no linked directory accounts for. */
  lemma UnlinkedFile(s: State, e: Event)
    requires Inv(s) && Callable(s, e) && Adds(s, e) && s.ns[e.d].nlink == 0 && !(e.Create? && e.kind == Dir)
    ensures !CountsOk(Do(s, e).ns)
  {
    hide Shape, Lookup, FreeSlot, FreeInode, Names, Linked;
    var t, i := Do(s, e), if e.Create? then FreeInode(s.ns, ROOT) else e.i;
    assert CountOk(s.ns, i);
    assert s.ns[i].kind == Unused ==> |Names(s.ns, i)| == 0;
    ShapeAt(s, i);
    forall x, y ensures Counts(t.ns, x, y, i) ==> Counts(s.ns, x, y, i) {}
    MoreNames(t.ns, s.ns, i);
    assert t.ns[i].nlink == |Names(s.ns, i)| + 1;
    assert !CountOk(t.ns, i);
  }

  lemma MoreNames(ns: Inodes, ns': Inodes, i: int)
    requires forall x, y :: Counts(ns, x, y, i) ==> Counts(ns', x, y, i)
    ensures |Names(ns, i)| <= |Names(ns', i)|
  {
    hide Counts;
    var a, b := Names(ns, i), Names(ns', i);
    forall p | p in a ensures p in b { InNames(ns', i, p.0, p.1); InNames(ns, i, p.0, p.1); }
    assert a <= b;
    assert b == a + (b - a);
  }

  /** ns' is ns with the unlinked directory d linked again by its new subdirectory i. */
  ghost predicate Revived(ns: Inodes, ns': Inodes, d: int, k: int, i: int) {
    && |ns'| == |ns| && 0 < d < |ns| && 0 < i < |ns| && i != d && ns[d].kind == Dir && ns[i].kind == Unused && ns[i].entries == []
    && 2 <= k <= |ns[d].entries| && ns[d].nlink == 0 && ns'[d].nlink == 1 && ns'[d].kind == Dir
    && |ns'[d].entries| > k && ns'[d].entries[k].inum == i && ns'[d].entries[1] == ns[d].entries[1]
    && ns'[i].kind == Dir && ns'[i].nlink == 1 && |ns'[i].entries| == 2 && ns'[i].entries[1].inum == d
    && forall j :: 0 <= j < |ns| && j != d && j != i ==> ns'[j] == ns[j]
  }

  /** A directory made in an unlinked one links it again, and then the ".." of that one is a name for
      its parent that the parent has no link for. */
  lemma UnlinkedMkdir(s: State, d: int, name: Name)
    requires Inv(s) && Callable(s, Create(d, name, Dir)) && !Has(s.ns, d, name) && s.ns[d].nlink == 0
    ensures !CountsOk(Do(s, Create(d, name, Dir)).ns)
  {
    hide Lookup, FreeSlot, FreeInode, Names, Shape;
    var i, k, ns' := FreeInode(s.ns, ROOT), FreeSlot(s.ns[d].entries, 0), Do(s, Create(d, name, Dir)).ns;
    ShapeAt(s, d);
    ShapeAt(s, i);
    SlotBehindDots(s.ns, d);
    assert Revived(s.ns, ns', d, k, i);
    var p := s.ns[d].entries[1].inum;
    assert CountOk(s.ns, p);
    RevivedNames(s.ns, ns', d, k, i, p);
    assert !CountOk(ns', p);
  }

  lemma RevivedNames(ns: Inodes, ns': Inodes, d: int, k: int, i: int, p: int)
    requires Revived(ns, ns', d, k, i) && p == ns[d].entries[1].inum && 0 < p < |ns| && CountOk(ns, p)
    ensures |Names(ns', p)| > (if p == d || p == i then 1 else |Names(ns, p)|) && Names(ns', p) != {}
  {
    hide Names;
    assert Counts(ns', d, 1, p) && !Counts(ns, d, 1, p);
    InNames(ns', p, d, 1);
    InNames(ns, p, d, 1);
    if p == d {
      assert Counts(ns', i, 1, p);
      InNames(ns', p, i, 1);
      TwoElements(Names(ns', p), (d, 1), (i, 1));
    } else if p == i {
      assert Counts(ns', d, k, p);
      InNames(ns', p, d, k);
      TwoElements(Names(ns', p), (d, 1), (d, k));
    } else {
      forall q | q in Names(ns, p) ensures q in Names(ns', p) { InNames(ns, p, q.0, q.1); InNames(ns', p, q.0, q.1); }
      var a, b := Names(ns, p), Names(ns', p);
      assert a <= b && (d, 1) in b - a;
      assert b == a + (b - a);
      assert b - a != {};
      assert |b| == |a| + |b - a|;
    }
  }

  // ---------------------------------------------------------------- such a run

  const A: Name := [97, 0, 0, 0, 0, 0, 0, 0, 0, 0, 0, 0, 0, 0]

  function MadeA(): State {
    State([Inode(Unused, 0, []), Inode(Dir, 2, [Dirent(1, DOT), Dirent(1, DOTDOT), Dirent(2, A)]),
           Inode(Dir, 1, [Dirent(2, DOT), Dirent(1, DOTDOT)]), Inode(Unused, 0, [])], [Home(0, 0), Home(0, 0), Home(2, 1), Home(0, 0)])
  }

  function RemovedA(): State {
    State([Inode(Unused, 0, []), Inode(Dir, 1, [Dirent(1, DOT), Dirent(1, DOTDOT), Dirent(0, NONAME)]),
           Inode(Dir, 0, [Dirent(2, DOT), Dirent(1, DOTDOT)]), Inode(Unused, 0, [])], [Home(0, 0), Home(0, 0), Home(2, 1), Home(0, 0)])
  }

  lemma NamesApart()
    ensures !Same(DOT, A) && !Same(DOTDOT, A) && !IsDot(A) && !IsDotDot(A) && Same(A, A)
  {
    Dots();
    assert Canon(A, 0)[0] == 97;
  }

  /** The name is not among the dots of a directory i in d. */
  lemma NotThere(i: int, d: int)
    ensures var es := [Dirent(i, DOT), Dirent(d, DOTDOT)]; Lookup(es, A, 0) == 2
  {
    NamesApart();
    hide Same;
    var es := [Dirent(i, DOT), Dirent(d, DOTDOT)];
    assert Lookup(es, A, 1) == Lookup(es, A, 2);
  }

  lemma RunFirst()
    ensures Enabled(Empty(4), Create(1, A, Dir)) && Do(Empty(4), Create(1, A, Dir)) == MadeA()
  {
    hide Lookup, Canon;
    NotThere(1, 1);
    var s, es := Empty(4), [Dirent(1, DOT), Dirent(1, DOTDOT)];
    assert s.ns[1].entries == es;
    assert FreeSlot(es, 0) == FreeSlot(es, 1) == FreeSlot(es, 2) == 2;
    assert FreeInode(s.ns, 1) == FreeInode(s.ns, 2) == 2;
    var t := Do(s, Create(1, A, Dir));
    assert t.ns[1] == MadeA().ns[1] && t.ns[2] == MadeA().ns[2];
    assert t.ns == MadeA().ns && t.home == MadeA().home;
  }

  lemma RunSecond()
    ensures Enabled(MadeA(), Unlink(1, A)) && Do(MadeA(), Unlink(1, A)) == RemovedA()
  {
    NamesApart();
    hide Same, Canon, IsDot, IsDotDot;
    var es := MadeA().ns[1].entries;
    assert Lookup(es, A, 0) == Lookup(es, A, 1) == Lookup(es, A, 2) == 2;
    var t := Do(MadeA(), Unlink(1, A));
    assert t.ns[1] == RemovedA().ns[1] && t.ns[2] == RemovedA().ns[2];
    assert t.ns == RemovedA().ns;
  }

  lemma RunThird()
    ensures var e := Create(2, A, File); Callable(RemovedA(), e) && Adds(RemovedA(), e) && RemovedA().ns[2].nlink == 0
  {
    NotThere(2, 1);
    hide Lookup, Canon;
    var ns := RemovedA().ns;
    assert FreeInode(ns, 1) == FreeInode(ns, 2) == FreeInode(ns, 3) == 3;
  }

  /** A process sits in a directory, another removes it, and the first makes a file there. */
  lemma UnlinkedRun()
    ensures var s := Empty(4); var es := [Create(1, A, Dir), Unlink(1, A)];
      && Possible(s, es) && var t := After(s, es); Callable(t, Create(2, A, File)) && !CountsOk(Do(t, Create(2, A, File)).ns)
  {
    var s := Empty(4);
    var e1, e2, e3 := Create(1, A, Dir), Unlink(1, A), Create(2, A, File);
    var s1, s2 := MadeA(), RemovedA();
    EmptyInv(4);
    RunFirst();
    RunSecond();
    Step(s, e1);
    Step(s1, e2);
    RunThird();
    UnlinkedFile(s2, e3);
    assert [e1, e2][1..] == [e2] && [e2][1..] == [];
    assert Possible(s2, []) && Possible(s1, [e2]);
    assert After(s1, [e2]) == s2;
  }

  // ---------------------------------------------------------------- what the calls do, entry by entry

  /** Entry k of directory d is in use and has the name. */
  predicate NamedAt(ns: Inodes, d: int, name: Name, k: int) {
    0 <= d < |ns| && 0 <= k < |ns[d].entries| && ns[d].entries[k].inum != 0 && Same(ns[d].entries[k].name, name)
  }

  /** Inode i is a directory with an entry in use behind its dots. */
  ghost predicate Busy(ns: Inodes, i: int) {
    0 <= i < |ns| && ns[i].kind == Dir && exists k :: 2 <= k < |ns[i].entries| && ns[i].entries[k].inum != 0
  }

  /** unlink of entry k of directory d: the entry is cleared and the inode that it named has one link
      fewer, and so has d if that inode is a directory.  Nothing else changes. */
  ghost predicate Gone(ns: Inodes, ns': Inodes, d: int, k: int) {
    && |ns'| == |ns| && 0 <= d < |ns| && 0 <= k < |ns[d].entries| && |ns'[d].entries| == |ns[d].entries|
    && var i := ns[d].entries[k].inum;
    && 0 <= i < |ns| && i != d
    && ns'[d].entries[k] == Dirent(0, NONAME) && (forall j :: 0 <= j < |ns[d].entries| && j != k ==> ns'[d].entries[j] == ns[d].entries[j])
    && ns'[d].kind == ns[d].kind && ns'[d].nlink == ns[d].nlink - (if ns[i].kind == Dir then 1 else 0)
    && ns'[i].kind == ns[i].kind && ns'[i].entries == ns[i].entries && ns'[i].nlink == ns[i].nlink - 1
    && forall j :: 0 <= j < |ns| && j != d && j != i ==> ns'[j] == ns[j]
  }

  lemma LookupNamed(ns: Inodes, d: int, name: Name)
    requires IsDir(ns, d)
    ensures Has(ns, d, name) <==> exists k :: NamedAt(ns, d, name, k)
    ensures Has(ns, d, name) ==> NamedAt(ns, d, name, Lookup(ns[d].entries, name, 0))
  {
    hide Same, Lookup;
    if Has(ns, d, name) { assert NamedAt(ns, d, name, Lookup(ns[d].entries, name, 0)); }
  }

  predicate FirstNamed(ns: Inodes, d: int, name: Name, k: int) { NamedAt(ns, d, name, k) && forall j :: 0 <= j < k ==> !NamedAt(ns, d, name, j) }

  lemma LookupFirst(ns: Inodes, d: int, name: Name)
    requires IsDir(ns, d)
    ensures forall k :: FirstNamed(ns, d, name, k) ==> k == Lookup(ns[d].entries, name, 0) && Has(ns, d, name)
  {
    hide Same, Lookup;
    var f := Lookup(ns[d].entries, name, 0);
    forall k | FirstNamed(ns, d, name, k) ensures k == f && Has(ns, d, name) {
      assert f < |ns[d].entries| && NamedAt(ns, d, name, f);
    }
  }

  /** What create returns when the name leads to inode j: j if a file is wanted and j is one, else 0. */
  function Found(ns: Inodes, j: int, kind: Kind): int { if kind == File && 0 <= j < |ns| && ns[j].kind == File then j else 0 }

  /** In a directory in order at most one entry has the name. */
  lemma NamedOnce(s: State, d: int, name: Name, j: int, k: int)
    requires Shape(s) && IsDir(s.ns, d) && NamedAt(s.ns, d, name, j) && NamedAt(s.ns, d, name, k)
    ensures j == k
  {
    assert InodeOk(s.ns, d);
    hide Shape, IsDot, IsDotDot;
  }

  /** unlink removes a name exactly if it is not a dot and an entry in use has it that does not lead to a
      directory with entries; then as Gone says, and afterwards no entry has the name.  Otherwise nothing
      changes. */
  lemma UnlinkRemoves(s: State, d: int, name: Name)
    requires Inv(s) && Callable(s, Unlink(d, name))
    ensures Removable(s.ns, d, name) <==>
      !IsDot(name) && !IsDotDot(name) && exists k :: NamedAt(s.ns, d, name, k) && !Busy(s.ns, s.ns[d].entries[k].inum)
    ensures Removable(s.ns, d, name) ==> var ns' := Do(s, Unlink(d, name)).ns;
      && (forall k :: NamedAt(s.ns, d, name, k) ==> Gone(s.ns, ns', d, k)) && forall k :: !NamedAt(ns', d, name, k)
    ensures !Removable(s.ns, d, name) ==> Do(s, Unlink(d, name)) == s
  {
    LookupNamed(s.ns, d, name);
    RemovableIff(s, d, name);
    if Removable(s.ns, d, name) {
      UnlinkFinds(s, d, name);
      UnlinkUnnamed(s, d, name);
      hide Same, Lookup, IsDot, IsDotDot, Shape, CountsOk, Removable;
      var ns', k := Do(s, Unlink(d, name)).ns, Lookup(s.ns[d].entries, name, 0);
      forall j | NamedAt(s.ns, d, name, j) ensures Gone(s.ns, ns', d, j) {
        NamedOnce(s, d, name, j, k);
        GoneIs(s.ns, ns', d, k, s.ns[d].entries[k].inum);
      }
      forall j ensures !NamedAt(ns', d, name, j) {
        if NamedAt(ns', d, name, j) && j != k { NamedOnce(s, d, name, j, k); }
      }
    }
  }

  lemma GoneIs(ns: Inodes, ns': Inodes, d: int, k: int, i: int)
    requires Unnamed(ns, ns', d, k, i)
    ensures Gone(ns, ns', d, k)
  {
  }

  lemma RemovableIff(s: State, d: int, name: Name)
    requires Inv(s) && IsDir(s.ns, d)
    ensures Removable(s.ns, d, name) <==>
      !IsDot(name) && !IsDotDot(name) && exists k :: NamedAt(s.ns, d, name, k) && !Busy(s.ns, s.ns[d].entries[k].inum)
  {
    hide Same, Lookup, IsDot, IsDotDot, CountsOk, IsMap;
    LookupNamed(s.ns, d, name);
    if Has(s.ns, d, name) {
      var k := Lookup(s.ns[d].entries, name, 0);
      EntryInRange(s, d, k);
      forall j | NamedAt(s.ns, d, name, j) ensures j == k { NamedOnce(s, d, name, j, k); }
      var i := s.ns[d].entries[k].inum;
      assert s.ns[i].kind == Dir ==> (OnlyDots(s.ns[i].entries) <==> !Busy(s.ns, i));
    }
  }

  /** What an entry in use names is an inode. */
  lemma EntryInRange(s: State, d: int, k: int)
    requires Shape(s) && IsDir(s.ns, d) && 0 <= k < |s.ns[d].entries| && s.ns[d].entries[k].inum != 0
    ensures 0 < s.ns[d].entries[k].inum < |s.ns|
  {
    assert InodeOk(s.ns, d);
    if k >= 2 { assert SlotOk(s, d, k); }
  }

  /** A new entry for inode i in directory d: in the lowest slot that is not in use, or at the end.  All
      other entries stay. */
  ghost predicate NewEntry(es: seq<Dirent>, es': seq<Dirent>, k: int, name: Name, i: int) {
    && 0 <= k <= |es| && (forall j :: 0 <= j < k ==> es[j].inum != 0) && (k < |es| ==> es[k].inum == 0)
    && |es'| == (if k == |es| then |es| + 1 else |es|) && es'[k] == Dirent(i, name)
    && forall j :: 0 <= j < |es| && j != k ==> es'[j] == es[j]
  }

  /** link: a new entry for i and one link more for it, and nothing else. */
  ghost predicate LinkAdded(ns: Inodes, ns': Inodes, d: int, name: Name, i: int) {
    && |ns'| == |ns| && 0 <= d < |ns| && 0 <= i < |ns| && i != d
    && (exists k :: NewEntry(ns[d].entries, ns'[d].entries, k, name, i)) && ns'[d].kind == ns[d].kind && ns'[d].nlink == ns[d].nlink
    && ns'[i] == ns[i].(nlink := ns[i].nlink + 1)
    && forall j :: 0 <= j < |ns| && j != d && j != i ==> ns'[j] == ns[j]
  }

  /** create: i was the lowest unused inode and is now of the kind, with one link, and with its dots if it
      is a directory; d has a new entry for it, and one link more if i is a directory. */
  ghost predicate Created(ns: Inodes, ns': Inodes, d: int, name: Name, kind: Kind, i: int) {
    && |ns'| == |ns| && 0 <= d < |ns| && ROOT <= i < |ns| && i != d
    && ns[i].kind == Unused && (forall j :: ROOT <= j < i ==> ns[j].kind != Unused)
    && ns'[i] == Inode(kind, 1, if kind == Dir then [Dirent(i, DOT), Dirent(d, DOTDOT)] else [])
    && (exists k :: NewEntry(ns[d].entries, ns'[d].entries, k, name, i))
    && ns'[d].kind == ns[d].kind && ns'[d].nlink == ns[d].nlink + (if kind == Dir then 1 else 0)
    && forall j :: 0 <= j < |ns| && j != d && j != i ==> ns'[j] == ns[j]
  }

  lemma LinkedIsNew(es: seq<Dirent>, name: Name, i: int)
    ensures NewEntry(es, Linked(es, name, i), FreeSlot(es, 0), name, i)
  {
    hide FreeSlot;
  }

  lemma {:induction false} LowestFree(ns: Inodes, k: nat, j: int)
    requires k <= |ns| && k <= j < FreeInode(ns, k)
    ensures ns[j].kind != Unused
    decreases |ns| - k
  {
    if j > k { LowestFree(ns, k + 1, j); }
  }

  /** create adds a name exactly if no entry in use has it. */
  lemma CreateAdds(s: State, d: int, name: Name, kind: Kind)
    requires Callable(s, Create(d, name, kind))
    ensures (exists k :: NamedAt(s.ns, d, name, k)) ==> Do(s, Create(d, name, kind)) == s
    ensures !(exists k :: NamedAt(s.ns, d, name, k)) ==>
      Created(s.ns, Do(s, Create(d, name, kind)).ns, d, name, kind, FreeInode(s.ns, ROOT))
  {
    hide Lookup, FreeSlot, FreeInode, Same, NewEntry, Linked;
    LookupNamed(s.ns, d, name);
    if !Has(s.ns, d, name) {
      var i, ns' := FreeInode(s.ns, ROOT), Do(s, Create(d, name, kind)).ns;
      LinkedIsNew(s.ns[d].entries, name, i);
      assert NewEntry(s.ns[d].entries, ns'[d].entries, FreeSlot(s.ns[d].entries, 0), name, i);
      forall j | ROOT <= j < i ensures s.ns[j].kind != Unused { LowestFree(s.ns, ROOT, j); }
    }
  }

  /** link adds a name exactly if no entry in use has it. */
  lemma LinkAdds(s: State, d: int, name: Name, i: int)
    requires Callable(s, Link(d, name, i))
    ensures (exists k :: NamedAt(s.ns, d, name, k)) ==> Do(s, Link(d, name, i)) == s
    ensures !(exists k :: NamedAt(s.ns, d, name, k)) ==> LinkAdded(s.ns, Do(s, Link(d, name, i)).ns, d, name, i)
  {
    hide Lookup, FreeSlot, Same, NewEntry, Linked;
    LookupNamed(s.ns, d, name);
    if !Has(s.ns, d, name) {
      LinkedIsNew(s.ns[d].entries, name, i);
      assert NewEntry(s.ns[d].entries, Do(s, Link(d, name, i)).ns[d].entries, FreeSlot(s.ns[d].entries, 0), name, i);
    }
  }
}
