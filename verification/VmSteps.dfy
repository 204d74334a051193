/** Arithmetic of addresses and the steps of the loops of vm.c, on values. */
module VmSteps {
  import opened VmSpec

  function Wrap(x: int): int { x % 0x1_0000_0000 }

  function RoundUp(x: int): int { Wrap(x + 4095) / 4096 * 4096 }

  /** The page whose kernel virtual address is a. */
  function PageAt(a: int): int { if a == 0 then 0 else a / 4096 - USERPAGES }

  /** What kfree leaves in a page: the link and then junk. */
  function Junk(link: int): (s: seq<int>)
    ensures |s| == WORDS && s[0] == link
  {
    seq(WORDS, j => if j == 0 then link else 0x01010101)
  }

  /** A page that kalloc gave out and that no translation leads to yet. */
  ghost predicate Unclaimed(o: Owner, first: int, f: int) {
    first <= f < |o| && 0 <= f && o[f] == Other
  }

  ghost predicate SameDirectories(o: Owner, o': Owner) {
    |o| == |o'| && forall f :: 0 <= f < |o| ==> (o'[f] == Dir <==> o[f] == Dir)
  }

  /** The pages of address space d were freed, and no other page changed hands. */
  ghost predicate SpaceFreed(o: Owner, o': Owner, d: int) {
    |o'| == |o| && forall f :: 0 <= f < |o| ==>
      o'[f] == if f == d || (o[f].Table? && o[f].d == d) || (o[f].User? && o[f].d == d) then Free else o[f]
  }

  /** Every directory translates every page as before. */
  ghost predicate SameViews(m: Mem, m': Mem, o: Owner) {
    forall d, v :: 0 <= d < |o| && o[d] == Dir && 0 <= v < PAGES ==> View(m', d, v) == View(m, d, v)
  }

  lemma SameViewsAfter(m: Mem, m1: Mem, m2: Mem, o: Owner, o': Owner, d: int)
    requires Unmapped(m, m1, o, d, 0, USERPAGES) && SameRaw(m1, m2, o', -1, 0)
    requires |o| == |o'| && forall f :: 0 <= f < |o| && o'[f] == Dir ==> o[f] == Dir && f != d
    ensures SameViews(m, m2, o')
  {
    hide Raw;
    forall d', v | 0 <= d' < |o'| && o'[d'] == Dir && 0 <= v < PAGES ensures View(m2, d', v) == View(m, d', v) {
      assert View(m2, d', v) == View(m1, d', v);
    }
  }

  lemma TableUnique(m: Mem, o: Owner, d: int, i: int)
    requires TablesOk(m, o) && 0 <= d < |o| && o[d] == Dir && 0 <= i < WORDS
    ensures Present(m[d][i]) ==> 0 <= FrameOf(m[d][i]) < |o| && o[FrameOf(m[d][i])] == Table(d, i)
    ensures forall f :: 0 <= f < |o| && o[f] == Table(d, i) ==> Present(m[d][i]) && f == FrameOf(m[d][i])
  {
    assert TableAt(m, o, d, i);
    forall f | 0 <= f < |o| && o[f] == Table(d, i) ensures Present(m[d][i]) && f == FrameOf(m[d][i]) { assert TableHome(m, o, f); }
  }

  lemma TableIndex(m: Mem, o: Owner)
    requires TablesOk(m, o)
    ensures forall f :: 0 <= f < |o| && o[f].Table? ==> 0 <= o[f].i < WORDS
  {
    forall f | 0 <= f < |o| && o[f].Table? ensures 0 <= o[f].i < WORDS { assert TableHome(m, o, f); }
  }

  lemma UserIndex(m: Mem, o: Owner)
    requires UsersOk(m, o)
    ensures forall f :: 0 <= f < |o| && o[f].User? ==> 0 <= o[f].v < USERPAGES
  {
    forall f | 0 <= f < |o| && o[f].User? ensures 0 <= o[f].v < USERPAGES { assert UserHome(m, o, f); }
  }

  lemma UserPage(m: Mem, o: Owner, d: int, v: int)
    requires UsersOk(m, o) && 0 <= d < |o| && o[d] == Dir && 0 <= v < USERPAGES && View(m, d, v) != 0
    ensures 0 <= FrameOf(View(m, d, v)) < |o| && o[FrameOf(View(m, d, v))] == User(d, v)
  {
    assert UserAt(m, o, d, v);
  }

  lemma EntryRead(m: Mem, o: Owner, d: int, v: int)
    requires TablesOk(m, o) && 0 <= d < |o| && o[d] == Dir && 0 <= v < PAGES && Present(m[d][v / WORDS])
    ensures 0 <= FrameOf(m[d][v / WORDS]) < |m|
    ensures var e := m[FrameOf(m[d][v / WORDS])][v % WORDS]; if Present(e) then View(m, d, v) == e != 0 else View(m, d, v) == 0
  {
    RawThroughTable(m, o, d, v);
  }

  lemma SameSame(m: Mem, m1: Mem, m2: Mem, o: Owner, d: int, v: int)
    requires SameRaw(m, m1, o, -1, 0) && SameRaw(m1, m2, o, d, v)
    ensures SameRaw(m, m2, o, d, v)
  {
    hide Raw;
  }

  lemma UnmappedNone(m: Mem, o: Owner, d: int, lo: int, hi: int)
    requires hi <= lo
    ensures Unmapped(m, m, o, d, lo, hi) && Released(o, o, d, lo, hi)
  {
    hide View;
  }

  lemma KeptSelf(m: Mem, o: Owner, d: int)
    requires |m| == |o|
    ensures Kept(m, o, m, o, d)
  {
  }

  lemma KeptRelease(m: Mem, o: Owner, m1: Mem, o1: Owner, m2: Mem, o2: Owner, d: int, lo: int, k: int)
    requires Kept(m, o, m1, o1, d) && Released(o, o1, d, lo, k) && Kept(m1, o1, m2, o2, d)
    requires forall f :: 0 <= f < |o1| && o2[f] != Free ==> o2[f] == o1[f]
    ensures Kept(m, o, m2, o2, d)
  {
  }

  /** Where the loop of deallocuvm goes on after directory entry a / 4 MB, in pages. */
  ghost function NextEntry(a: int, oldsz: int): (next: int)
    requires 0 <= a < oldsz <= 0x8000_0000 && a % 4096 == 0
    ensures a / 4096 < next <= (a / 4096 / WORDS + 1) * WORDS && next <= (oldsz + 4095) / 4096
  {
    var e := (a / 0x40_0000 + 1) * WORDS;
    if e < (oldsz + 4095) / 4096 then e else (oldsz + 4095) / 4096
  }

  lemma RoundUpPage(x: int)
    requires 0 <= x < 0x8000_0000
    ensures RoundUp(x) == (x + 4095) / 4096 * 4096 <= 0x8000_0000
    ensures RoundUp(x) % 4096 == 0 && RoundUp(x) / 4096 == (x + 4095) / 4096
  {
  }

  /** The next address of the loop of deallocuvm, with and without a table. */
  lemma SkipAddress(a: int, oldsz: int)
    requires 0 <= a < oldsz <= 0x8000_0000 && a % 4096 == 0
    ensures var b := Wrap(a + 4096);
      a < b <= 0x8000_0000 && b % 4096 == 0 && a / 4096 + 1 == if b < oldsz then b / 4096 else (oldsz + 4095) / 4096
    ensures var b := Wrap(Wrap(Wrap((a / 0x40_0000 + 1) * 0x40_0000) - 4096) + 4096);
      a < b <= 0x8000_0000 && b % 4096 == 0 && NextEntry(a, oldsz) == if b < oldsz then b / 4096 else (oldsz + 4095) / 4096
  {
    var e := a / 0x40_0000 + 1;
    assert e <= 512;
  }

  lemma MappedNone(m: Mem, o: Owner, d: int, v: int, f: int, flags: int)
    ensures Mapped(m, m, o, d, v, 0, f, flags)
  {
    hide View;
  }

  lemma MappedDirs(m: Mem, m': Mem, o: Owner, o': Owner, d: int, v: int, n: int, f: int, flags: int)
    requires SameDirectories(o', o) && Mapped(m, m', o, d, v, n, f, flags)
    ensures Mapped(m, m', o', d, v, n, f, flags)
  {
    hide View, Entry;
  }

  lemma MappedAt(m: Mem, m': Mem, o: Owner, d: int, v: int, n: int, f: int, flags: int, x: int)
    requires Mapped(m, m', o, d, v, n, f, flags) && 0 <= d < |o| && o[d] == Dir && 0 <= x < PAGES
    ensures View(m', d, x) == if v <= x < v + n then Entry(f + (x - v), flags) else View(m, d, x)
  {
  }

  lemma SameView(m: Mem, m': Mem, o: Owner, d: int, v: int)
    requires SameRaw(m, m', o, -1, 0) && 0 <= d < |o| && o[d] == Dir && 0 <= v < PAGES
    ensures View(m', d, v) == View(m, d, v)
  {
  }

  lemma GivenKernel(o: Owner, d: int, v: int, n: int, f: int)
    requires USERPAGES <= v
    ensures Given(o, d, v, n, f) == o
  {
  }

  lemma SameDirs(m: Mem, m': Mem, o: Owner, o': Owner, d: int, v: int)
    requires SameDirectories(o', o) && SameRaw(m, m', o, d, v)
    ensures SameRaw(m, m', o', d, v)
  {
    hide Raw;
  }

  // ---------------------------------------------------------------- building an address space

  /** Pages only went from the free list to address space d. */
  ghost predicate GrewSpace(o: Owner, o': Owner, d: int) {
    && |o'| == |o|
    && forall f :: 0 <= f < |o| ==> o'[f] == o[f] || (o[f] == Free && (o'[f].Table? || o'[f].User?) && o'[f].d == d)
  }

  /** Directories other than d translate as before. */
  ghost predicate OtherViews(m: Mem, m': Mem, o: Owner, d: int) {
    forall d', v :: 0 <= d' < |o| && o[d'] == Dir && d' != d && 0 <= v < PAGES ==> View(m', d', v) == View(m, d', v)
  }

  /** Address space d is new and all of it came off the free list; nothing else has changed. */
  ghost predicate Apart(m: Mem, o: Owner, m': Mem, o': Owner, d: int) {
    && |o'| == |o| && 0 <= d < |o| && o[d] == Free && o'[d] == Dir
    && (forall f :: 0 <= f < |o| && f != d ==> o'[f] == o[f] || (o[f] == Free && (o'[f].Table? || o'[f].User?) && o'[f].d == d))
    && SameViews(m, m', o) && Kept(m, o, m', o', d)
  }

  lemma ApartStep(m: Mem, o: Owner, m1: Mem, o1: Owner, m2: Mem, o2: Owner, d: int)
    requires Apart(m, o, m1, o1, d) && GrewSpace(o1, o2, d) && OtherViews(m1, m2, o1, d) && Kept(m1, o1, m2, o2, d)
    ensures Apart(m, o, m2, o2, d)
  {
    hide View;
    forall d', v | 0 <= d' < |o| && o[d'] == Dir && 0 <= v < PAGES ensures View(m2, d', v) == View(m, d', v) {
      assert o1[d'] == Dir && d' != d;
    }
  }

  /** Freeing a new space gives every page back. */
  lemma ApartFreed(m: Mem, o: Owner, m1: Mem, o1: Owner, m2: Mem, o2: Owner, d: int)
    requires TablesOk(m, o) && UsersOk(m, o) && Apart(m, o, m1, o1, d)
    requires SpaceFreed(o1, o2, d) && SameViews(m1, m2, o2) && Kept(m1, o1, m2, o2, d)
    ensures o2 == o && SameViews(m, m2, o) && forall f :: 0 <= f < |o| && o[f] != Free ==> m2[f] == m[f]
  {
    hide TableAt, UserAt, View;
    forall f | 0 <= f < |o| ensures o2[f] == o[f] {
      assert TableHome(m, o, f) && UserHome(m, o, f);
    }
  }

  lemma MappedOther(m: Mem, m': Mem, o: Owner, d: int, v: int, n: int, f: int, flags: int)
    requires Mapped(m, m', o, d, v, n, f, flags)
    ensures OtherViews(m, m', o, d)
  {
    hide View, Entry;
  }

  /** What one row of kmap adds to a directory that has the rows before it. */
  lemma RowMapped(m: Mem, m': Mem, o: Owner, d: int, data: int, k: int)
    requires DataSegment(data) && 0 <= k < 4 && 0 <= d < |o| && o[d] == Dir
    requires var r := Kmaps(data)[k];
      Mapped(m, m', o, d, FirstPage(r), LastPage(r) - FirstPage(r) + 1, r.start / 4096, OrPresent(r.perm))
    requires forall v :: 0 <= v < PAGES ==> View(m, d, v) == KernelRows(data, k, v)
    ensures forall v :: 0 <= v < PAGES ==> View(m', d, v) == KernelRows(data, k + 1, v)
  {
    hide View, Entry, Kmaps, KernelRows, FirstPage, LastPage, DataSegment, OrPresent;
    forall v | 0 <= v < PAGES ensures View(m', d, v) == KernelRows(data, k + 1, v) { KernelRow(data, k, v); }
  }

  lemma RowFits(m: Mem, d: int, data: int, k: int)
    requires DataSegment(data) && 0 <= k < 4
    requires forall v :: 0 <= v < PAGES ==> View(m, d, v) == KernelRows(data, k, v)
    ensures var r := Kmaps(data)[k];
      && USERPAGES <= FirstPage(r) <= LastPage(r) < PAGES && r.start / 4096 + LastPage(r) - FirstPage(r) < PAGES
      && forall v :: FirstPage(r) <= v <= LastPage(r) ==> View(m, d, v) == 0
  {
    hide View, Entry, Kmaps, KernelRows, FirstPage, LastPage, DataSegment, OrPresent;
    KernelRow(data, k, 0);
    forall v | 0 <= v < PAGES ensures FirstPage(Kmaps(data)[k]) <= v <= LastPage(Kmaps(data)[k]) ==> View(m, d, v) == 0 {
      KernelRow(data, k, v);
    }
  }

  lemma SameViewsSelf(m: Mem, o: Owner)
    ensures SameViews(m, m, o)
  {
    hide View;
  }

  lemma NewDirApart(m: Mem, o: Owner, m': Mem, o': Owner, d: int)
    requires 0 <= d < |o| && o[d] == Free && o' == o[d := Dir] && |m| == |m'| == |o|
    requires SameRaw(m, m', o[d := Other], -1, 0) && forall f :: 0 <= f < |o| && f != d ==> m'[f] == m[f]
    ensures Apart(m, o, m', o', d)
  {
    hide Raw;
  }

  // ---------------------------------------------------------------- adding user pages

  /** Virtual page v of space d is a page of its own with the given contents and flags. */
  ghost predicate HasPage(m: Mem, o: Owner, d: int, v: int, page: seq<int>, flags: int) {
    var f := FrameOf(View(m, d, v));
    0 <= f < |o| && |m| == |o| && o[f] == User(d, v) && m[f] == page && FlagsOf(View(m, d, v)) == flags && View(m, d, v) != 0
  }

  /** From one state to the next, page v of space d was added and nothing else changed. */
  ghost predicate PageAdded(m: Mem, o: Owner, m': Mem, o': Owner, d: int, v: int, page: seq<int>, flags: int) {
    && GrewSpace(o, o', d) && Kept(m, o, m', o', d) && OtherViews(m, m', o, d)
    && HasPage(m', o', d, v, page, flags)
    && (forall v' :: 0 <= v' < PAGES && v' != v ==> View(m', d, v') == View(m, d, v'))
    && (forall f :: 0 <= f < |o| && o'[f].User? && o'[f] != o[f] ==> o'[f].v == v)
  }

  /** The pages from lo to k of space d were added, each zeroed and writable by the user. */
  ghost predicate Extended(m: Mem, o: Owner, m': Mem, o': Owner, d: int, lo: int, k: int) {
    && GrewSpace(o, o', d) && Kept(m, o, m', o', d) && OtherViews(m, m', o, d)
    && (forall v :: lo <= v < k ==> HasPage(m', o', d, v, Zeros(), 7))
    && (forall v :: 0 <= v < PAGES && !(lo <= v < k) ==> View(m', d, v) == View(m, d, v))
    && (forall f :: 0 <= f < |o| && o'[f].User? && o'[f] != o[f] ==> lo <= o'[f].v < k)
  }

  lemma HasPageKept(m: Mem, o: Owner, m': Mem, o': Owner, d: int, v: int, page: seq<int>, flags: int)
    requires HasPage(m, o, d, v, page, flags) && View(m', d, v) == View(m, d, v)
    requires GrewSpace(o, o', d) && Kept(m, o, m', o', d) && 0 <= d < |o| && o[d] == Dir
    ensures HasPage(m', o', d, v, page, flags)
  {
    hide View, FrameOf, FlagsOf;
  }

  lemma KeptGrew(m: Mem, o: Owner, m1: Mem, o1: Owner, m2: Mem, o2: Owner, d: int)
    requires GrewSpace(o, o1, d) && Kept(m, o, m1, o1, d) && GrewSpace(o1, o2, d) && Kept(m1, o1, m2, o2, d)
    requires OtherViews(m, m1, o, d) && OtherViews(m1, m2, o1, d)
    ensures GrewSpace(o, o2, d) && Kept(m, o, m2, o2, d) && OtherViews(m, m2, o, d)
  {
    hide View;
  }

  lemma ExtendStep(m: Mem, o: Owner, m1: Mem, o1: Owner, m2: Mem, o2: Owner, d: int, lo: int, k: int)
    requires Extended(m, o, m1, o1, d, lo, k) && PageAdded(m1, o1, m2, o2, d, k, Zeros(), 7)
    requires 0 <= lo <= k < PAGES && 0 <= d < |o| && o[d] == Dir
    ensures Extended(m, o, m2, o2, d, lo, k + 1)
  {
    hide View, HasPage, Zeros;
    KeptGrew(m, o, m1, o1, m2, o2, d);
    forall v | lo <= v < k + 1 ensures HasPage(m2, o2, d, v, Zeros(), 7) {
      if v < k { HasPageKept(m1, o1, m2, o2, d, v, Zeros(), 7); }
    }
  }

  /** Undoing an extension restores every translation, and what is not on the free list again is a
      table of d. */
  lemma ExtendUndone(m: Mem, o: Owner, m1: Mem, o1: Owner, m2: Mem, o2: Owner, d: int, lo: int, k: int, hi: int)
    requires UsersOk(m, o) && Extended(m, o, m1, o1, d, lo, k) && k <= hi <= USERPAGES && 0 <= lo && 0 <= d < |o| && o[d] == Dir
    requires forall v :: lo <= v < hi ==> View(m, d, v) == 0
    requires Released(o1, o2, d, lo, hi) && Unmapped(m1, m2, o1, d, lo, hi) && Kept(m1, o1, m2, o2, d)
    ensures Grew(o, o2, d) && SameViews(m, m2, o) && Kept(m, o, m2, o2, d)
  {
    hide View, HasPage;
    NothingInRange(m, o, d, lo, hi);
    forall d', v | 0 <= d' < |o| && o[d'] == Dir && 0 <= v < PAGES ensures View(m2, d', v) == View(m, d', v) {
      assert o1[d'] == Dir;
      assert d' != d ==> View(m1, d', v) == View(m, d', v);
    }
  }

  /** The same when a page was taken that could not be mapped, and is freed last. */
  lemma LooseFreed(m1: Mem, o1: Owner, m2: Mem, o2: Owner, m3: Mem, f: int, d: int, lo: int, hi: int)
    requires 0 <= f < |o1| && o1[f] == Other && f != d
    requires Released(o1, o2, d, lo, hi) && Unmapped(m1, m2, o1, d, lo, hi) && Kept(m1, o1, m2, o2, d)
    requires |m3| == |m2| && (forall g :: 0 <= g < |m2| && g != f ==> m3[g] == m2[g]) && SameRaw(m2, m3, o2, -1, 0)
    ensures Released(o1[f := Free], o2[f := Free], d, lo, hi) && Unmapped(m1, m3, o1[f := Free], d, lo, hi)
    ensures Kept(m1, o1[f := Free], m3, o2[f := Free], d)
  {
    hide Raw;
    forall d', v' | 0 <= d' < |o1| && o1[f := Free][d'] == Dir && 0 <= v' < PAGES
      ensures View(m3, d', v') == if d' == d && lo <= v' < hi then 0 else View(m1, d', v')
    {
      assert View(m3, d', v') == View(m2, d', v');
    }
  }

  /** A page that was taken and not mapped yet does not show. */
  lemma LooseExtended(m: Mem, o: Owner, m1: Mem, o1: Owner, m2: Mem, o2: Owner, f: int, d: int, lo: int, k: int)
    requires Extended(m, o, m1, o1, d, lo, k) && 0 <= f < |o1| && o1[f] == Free && f != d && 0 <= d < |o| && o[d] == Dir
    requires Grew(o1[f := Other], o2, d) && Kept(m1, o1, m2, o2, d) && SameViews(m1, m2, o1) && 0 <= lo && k <= PAGES
    ensures o2[f] == Other && Extended(m, o, m2, o2[f := Free], d, lo, k)
  {
    hide View, HasPage, Zeros;
    var o3 := o2[f := Free];
    KeptGrew(m, o, m1, o1, m2, o3, d);
    forall v | lo <= v < k ensures HasPage(m2, o3, d, v, Zeros(), 7) {
      HasPageKept(m1, o1, m2, o3, d, v, Zeros(), 7);
    }
  }

  lemma PageAddedBy(m: Mem, o: Owner, m1: Mem, m2: Mem, o2: Owner, d: int, v: int, f: int, page: seq<int>, flags: int)
    requires 0 <= d < |o| && o[d] == Dir && 0 <= v < USERPAGES && 0 < f < |o| && o[f] == Free && 0 <= flags < 4096 && flags % 2 == 1
    requires |m| == |m1| == |m2| == |o| == |o2| && m1[f] == page && forall g :: 0 <= g < |o| && g != f ==> m1[g] == m[g]
    requires SameRaw(m, m1, o, -1, 0) && Mapped(m1, m2, o[f := Other], d, v, 1, f, flags)
    requires Grew(o[f := User(d, v)], o2, d) && Kept(m1, o[f := Other], m2, o2, d)
    ensures PageAdded(m, o, m2, o2, d, v, page, flags)
  {
    hide Raw, Entry;
    EntryParts(f, flags);
    forall d', v' | 0 <= d' < |o| && o[d'] == Dir && 0 <= v' < PAGES && (d' != d || v' != v) ensures View(m2, d', v') == View(m, d', v') {
      assert View(m1, d', v') == View(m, d', v');
    }
  }

  lemma NotAddedBy(m: Mem, o: Owner, m1: Mem, m2: Mem, o2: Owner, d: int, v: int, f: int, flags: int)
    requires 0 <= d < |o| && o[d] == Dir && 0 < f < |o| && o[f] == Free
    requires |m| == |m1| == |m2| == |o| == |o2| && forall g :: 0 <= g < |o| && g != f ==> m1[g] == m[g]
    requires SameRaw(m, m1, o, -1, 0) && Mapped(m1, m2, o[f := Other], d, v, 0, f, flags)
    requires Grew(o[f := Other], o2, d) && Kept(m1, o[f := Other], m2, o2, d)
    ensures SameViews(m, m2, o) && Kept(m, o, m2, o2, d)
  {
    hide Raw, Entry;
    forall d', v' | 0 <= d' < |o| && o[d'] == Dir && 0 <= v' < PAGES ensures View(m2, d', v') == View(m, d', v') {
      assert View(m1, d', v') == View(m, d', v');
    }
  }

  lemma Unchanged(m: Mem, o: Owner, d: int, lo: int)
    requires |m| == |o|
    ensures Grew(o, o, d) && SameViews(m, m, o) && Kept(m, o, m, o, d) && Extended(m, o, m, o, d, lo, lo)
  {
    hide View, HasPage, Zeros;
  }

  lemma ExtendedAt(m: Mem, o: Owner, m1: Mem, o1: Owner, d: int, lo: int, k: int, v: int)
    requires Extended(m, o, m1, o1, d, lo, k) && 0 <= v < PAGES && k <= v
    ensures View(m1, d, v) == View(m, d, v)
  {
    hide View, HasPage, Zeros;
  }

  lemma ReleasedAt(o: Owner, o': Owner, d: int, lo: int, hi: int, f: int)
    requires Released(o, o', d, lo, hi) && 0 <= f < |o| && o[f] == Other
    ensures |o'| == |o| && o'[f] == Other
  {
  }

  // ---------------------------------------------------------------- copying

  /** The first k user pages of space d are copies of those of the space s in memory m: equal bytes
      and flags on pages of their own.  The rest of d is the kernel part. */
  ghost predicate Copied(m: Mem, s: int, m': Mem, o': Owner, d: int, k: int, data: int) {
    && (forall v :: 0 <= v < k ==> HasPage(m', o', d, v, PageOf(m, s, v), FlagsOf(View(m, s, v))))
    && (forall v :: k <= v < PAGES ==> View(m', d, v) == KernelView(data, v))
  }

  /** The contents of virtual page v of space s. */
  function PageOf(m: Mem, s: int, v: int): seq<int> {
    if 0 <= FrameOf(View(m, s, v)) < |m| then m[FrameOf(View(m, s, v))] else []
  }

  lemma CopyStep(m: Mem, s: int, m1: Mem, o1: Owner, m2: Mem, o2: Owner, d: int, k: int, data: int)
    requires Copied(m, s, m1, o1, d, k, data) && 0 <= k < PAGES && 0 <= d < |o1| && o1[d] == Dir
    requires PageAdded(m1, o1, m2, o2, d, k, PageOf(m, s, k), FlagsOf(View(m, s, k)))
    ensures Copied(m, s, m2, o2, d, k + 1, data)
  {
    hide View, HasPage, PageOf, FlagsOf, KernelView;
    forall v | 0 <= v < k + 1 ensures HasPage(m2, o2, d, v, PageOf(m, s, v), FlagsOf(View(m, s, v))) {
      if v < k { HasPageKept(m1, o1, m2, o2, d, v, PageOf(m, s, v), FlagsOf(View(m, s, v))); }
    }
  }

  lemma ApartPageAdded(m: Mem, o: Owner, m1: Mem, o1: Owner, m2: Mem, o2: Owner, d: int, v: int, page: seq<int>, flags: int)
    requires Apart(m, o, m1, o1, d) && PageAdded(m1, o1, m2, o2, d, v, page, flags)
    ensures Apart(m, o, m2, o2, d)
  {
    hide View, HasPage;
    ApartStep(m, o, m1, o1, m2, o2, d);
  }

  /** A page that was taken, not mapped and freed again does not show. */
  lemma LooseApart(m: Mem, o: Owner, m1: Mem, o1: Owner, m2: Mem, o2: Owner, m3: Mem, f: int, d: int)
    requires Apart(m, o, m1, o1, d) && 0 <= f < |o1| && o1[f] == Free && f != d
    requires Grew(o1[f := Other], o2, d) && SameViews(m1, m2, o1) && Kept(m1, o1, m2, o2, d)
    requires |m3| == |m2| && SameRaw(m2, m3, o2, -1, 0) && forall g :: 0 <= g < |m2| && g != f ==> m3[g] == m2[g]
    ensures o2[f] == Other && Apart(m, o, m3, o2[f := Free], d)
  {
    hide Raw;
    var o3 := o2[f := Free];
    forall d', v | 0 <= d' < |o1| && o1[d'] == Dir && d' != d && 0 <= v < PAGES ensures View(m3, d', v) == View(m1, d', v) {
      assert View(m3, d', v) == View(m2, d', v);
    }
    ApartStep(m, o, m1, o1, m3, o3, d);
  }

  /** While a new space is built, the old ones keep their pages. */
  lemma SourcePage(m: Mem, o: Owner, m1: Mem, o1: Owner, d: int, s: int, v: int)
    requires UsersOk(m, o) && Apart(m, o, m1, o1, d) && 0 <= s < |o| && o[s] == Dir && 0 <= v < USERPAGES && View(m, s, v) != 0
    ensures s != d && o1[s] == Dir && View(m1, s, v) == View(m, s, v)
    ensures 0 <= FrameOf(View(m1, s, v)) < |m1| && m1[FrameOf(View(m1, s, v))] == PageOf(m, s, v)
  {
    hide View, FrameOf;
    UserPage(m, o, s, v);
  }

  lemma ViewPresent(m: Mem, d: int, v: int)
    requires View(m, d, v) != 0
    ensures OrPresent(FlagsOf(View(m, d, v))) == FlagsOf(View(m, d, v))
  {
    var e := View(m, d, v);
    assert e == 2 * (e / 4096 * 2048 + e % 4096 / 2) + e % 4096 % 2;
    Halves(e / 4096 * 2048 + e % 4096 / 2, e % 4096 % 2);
  }

  lemma CopiedNone(m: Mem, s: int, m': Mem, o': Owner, d: int, data: int)
    requires forall v :: 0 <= v < PAGES ==> View(m', d, v) == KernelView(data, v)
    ensures Copied(m, s, m', o', d, 0, data)
  {
  }

  lemma CopiedAt(m: Mem, s: int, m': Mem, o': Owner, d: int, k: int, data: int)
    requires Copied(m, s, m', o', d, k, data) && 0 <= k < USERPAGES
    ensures View(m', d, k) == 0
  {
  }

  // ---------------------------------------------------------------- isolation

  /** A page that a user mapping leads to is reached by no other user mapping of any space, is no
      directory and no table, and is not on the free list. */
  lemma Isolated(m: Mem, o: Owner, free: seq<int>, freelist: int, d: int, v: int, d': int, v': int)
    requires TablesOk(m, o) && UsersOk(m, o) && FreeOk(m, o, free, freelist)
    requires 0 <= d < |o| && o[d] == Dir && 0 <= v < USERPAGES && View(m, d, v) != 0
    requires 0 <= d' < |o| && o[d'] == Dir && 0 <= v' < PAGES
    ensures v' < USERPAGES && View(m, d', v') != 0 && (d', v') != (d, v) ==> FrameOf(View(m, d', v')) != FrameOf(View(m, d, v))
    ensures d' != FrameOf(View(m, d, v))
    ensures Present(m[d'][v' / WORDS]) ==> FrameOf(m[d'][v' / WORDS]) != FrameOf(View(m, d, v))
    ensures FrameOf(View(m, d, v)) !in free
  {
    hide View, FrameOf, Present;
    assert UserAt(m, o, d, v);
    if v' < USERPAGES { assert UserAt(m, o, d', v'); }
    assert TableAt(m, o, d', v' / WORDS);
  }

  lemma GrewOther(o: Owner, o': Owner, f: int, d: int)
    requires 0 <= f < |o| && Grew(o[f := Other], o', d)
    ensures o'[f] == Other
  {
  }
}
