/** Physical memory, two-level page tables and who owns each page (vm.c, kalloc.c, mmu.h).

    A page of memory is 1024 words.  A page number stands for the address of the page divided by
    4096, physical or virtual.  The owner of each page is specification only. */
module VmSpec {

  const WORDS: int := 1024             // NPTENTRIES and NPDENTRIES
  const PAGES: int := 0x100000         // virtual pages
  const USERPAGES: int := 0x80000      // KERNBASE / PGSIZE
  const NFRAMES: int := 0xE000         // PHYSTOP / PGSIZE
  const DEVPAGE: int := 0xFE000        // DEVSPACE / PGSIZE

  type Mem = seq<seq<int>>

  /** What a page is used for.  Other is the kernel image, kernel stacks, pipes, and a page between
      kalloc and its first use. */
  datatype Role = Free | Dir | Table(d: int, i: int) | User(d: int, v: int) | Other

  type Owner = seq<Role>

  // ---------------------------------------------------------------- entries

  predicate Present(e: int) { e % 2 == 1 }
  function FrameOf(e: int): int { e / 4096 }
  function FlagsOf(e: int): int { e % 4096 }
  function Entry(f: int, flags: int): int { f * 4096 + flags }

  /** flags | PTE_P */
  function OrPresent(flags: int): int { if flags % 2 == 1 then flags else flags + 1 }

  lemma EntryParts(f: int, flags: int)
    requires 0 <= flags < 4096
    ensures FrameOf(Entry(f, flags)) == f && FlagsOf(Entry(f, flags)) == flags
    ensures Present(Entry(f, flags)) <==> flags % 2 == 1
  {
    var h := f * 2048 + flags / 2;
    assert Entry(f, flags) == 2 * h + flags % 2;
    Halves(h, flags % 2);
  }

  lemma Halves(h: int, b: int)
    requires 0 <= b < 2
    ensures (2 * h + b) % 2 == b
  {
  }

  function Zeros(): (z: seq<int>)
    ensures |z| == WORDS && forall j :: 0 <= j < WORDS ==> z[j] == 0
  {
    seq(WORDS, _ => 0)
  }

  // ---------------------------------------------------------------- translation

  ghost predicate Sized(m: Mem, o: Owner) {
    |m| == NFRAMES && |o| == NFRAMES && forall f :: 0 <= f < |m| ==> |m[f]| == WORDS
  }

  /** The page table entry for virtual page v in directory d, 0 if there is no table for it. */
  function Raw(m: Mem, d: int, v: int): int {
    if 0 <= d < |m| && 0 <= v < PAGES && |m[d]| == WORDS && Present(m[d][v / WORDS]) &&
       0 <= FrameOf(m[d][v / WORDS]) < |m| && |m[FrameOf(m[d][v / WORDS])]| == WORDS
    then m[FrameOf(m[d][v / WORDS])][v % WORDS] else 0
  }

  /** The translation of virtual page v: its entry, 0 if not present. */
  function View(m: Mem, d: int, v: int): int {
    if Present(Raw(m, d, v)) then Raw(m, d, v) else 0
  }

  // ---------------------------------------------------------------- ownership

  ghost predicate TableAt(m: Mem, o: Owner, d: int, i: int)
    requires 0 <= d < |m| && |m[d]| == WORDS && 0 <= i < WORDS
  {
    var f := FrameOf(m[d][i]);
    Present(m[d][i]) ==> 0 <= f < |o| && o[f] == Table(d, i)
  }

  ghost predicate TableHome(m: Mem, o: Owner, f: int)
    requires Sized(m, o) && 0 <= f < |o|
  {
    o[f].Table? ==>
      && 0 <= o[f].d < |o| && o[o[f].d] == Dir && 0 <= o[f].i < WORDS
      && Present(m[o[f].d][o[f].i]) && FrameOf(m[o[f].d][o[f].i]) == f
  }

  /** The table pages are exactly those that the entries of the directories name, each once. */
  ghost predicate TablesOk(m: Mem, o: Owner) {
    && Sized(m, o)
    && (forall d, i :: 0 <= d < |o| && o[d] == Dir && 0 <= i < WORDS ==> TableAt(m, o, d, i))
    && (forall f :: 0 <= f < |o| ==> TableHome(m, o, f))
  }

  ghost predicate UserAt(m: Mem, o: Owner, d: int, v: int) {
    var f := FrameOf(View(m, d, v));
    View(m, d, v) != 0 ==> 0 <= f < |o| && o[f] == User(d, v)
  }

  ghost predicate UserHome(m: Mem, o: Owner, f: int)
    requires 0 <= f < |o|
  {
    o[f].User? ==>
      && 0 <= o[f].d < |o| && o[o[f].d] == Dir && 0 <= o[f].v < USERPAGES
      && View(m, o[f].d, o[f].v) != 0 && FrameOf(View(m, o[f].d, o[f].v)) == f
  }

  /** The user pages are exactly those that user mappings name, each named by one mapping. */
  ghost predicate UsersOk(m: Mem, o: Owner) {
    && (forall d, v :: 0 <= d < |o| && o[d] == Dir && 0 <= v < USERPAGES ==> UserAt(m, o, d, v))
    && (forall f :: 0 <= f < |o| ==> UserHome(m, o, f))
  }

  /** The pages that kalloc hands out are those from first on. */
  ghost predicate RolesOk(o: Owner, first: int) {
    0 < first && forall f :: 0 <= f < |o| && f < first ==> o[f] == Other
  }

  // ---------------------------------------------------------------- the free list

  /** The word that links to page f in the free list: its kernel virtual address. */
  function Link(f: int): int { if f == 0 then 0 else (f + USERPAGES) * 4096 }

  /** The k-th page of the list, 0 past its end. */
  function At(free: seq<int>, k: int): int { if 0 <= k < |free| then free[k] else 0 }

  ghost predicate FreeOk(m: Mem, o: Owner, free: seq<int>, freelist: int) {
    && freelist == Link(At(free, 0))
    && (forall k :: 0 <= k < |free| ==> 0 < free[k] < |o| && |m| == |o| && o[free[k]] == Free && |m[free[k]]| == WORDS)
    && (forall k :: 0 < k <= |free| ==> m[free[k - 1]][0] == Link(At(free, k)))
    && (forall j, k :: 0 <= j < k < |free| ==> free[j] != free[k])
    && (forall f :: 0 <= f < |o| && o[f] == Free ==> f in free)
  }

  /** The list stays when the free pages and their contents do. */
  lemma FreeFrame(m: Mem, o: Owner, m': Mem, o': Owner, free: seq<int>, freelist: int)
    requires FreeOk(m, o, free, freelist) && |m| == |o| == |o'| == |m'|
    requires forall f :: 0 <= f < |o| ==> (o'[f] == Free <==> o[f] == Free) && (o[f] == Free ==> m'[f] == m[f])
    ensures FreeOk(m', o', free, freelist)
  {
  }

  /** Taking the first page off the list follows its link. */
  lemma FreePop(m: Mem, o: Owner, free: seq<int>, freelist: int)
    requires FreeOk(m, o, free, freelist) && |m| == |o| && free != []
    ensures var f := free[0];
      && 0 < f < |o| && o[f] == Free && |m[f]| == WORDS && freelist == Link(f)
      && FreeOk(m, o[f := Other], free[1..], m[f][0])
  {
    var f, rest := free[0], free[1..];
    forall k | 0 < k <= |rest| ensures m[rest[k - 1]][0] == Link(At(rest, k)) { assert At(free, k + 1) == At(rest, k) && rest[k - 1] == free[k]; }
    assert At(free, 1) == At(rest, 0);
    forall g | 0 <= g < |o| && g != f && o[g] == Free ensures g in rest { assert g in free; }
  }

  /** Putting a page on the list keeps it, whatever the page held. */
  lemma FreePush(m: Mem, o: Owner, free: seq<int>, freelist: int, f: int, page: seq<int>)
    requires FreeOk(m, o, free, freelist) && |m| == |o| && 0 < f < |o| && o[f] != Free && |page| == WORDS && page[0] == freelist
    ensures FreeOk(m[f := page], o[f := Free], [f] + free, Link(f))
  {
    var m', o', list := m[f := page], o[f := Free], [f] + free;
    forall k | 0 <= k < |list| ensures 0 < list[k] < |o'| && o'[list[k]] == Free && (k > 0 ==> list[k] != f) {
      if k > 0 { assert list[k] == free[k - 1]; }
    }
    forall k | 0 < k <= |list| ensures m'[list[k - 1]][0] == Link(At(list, k)) {
      assert At(list, k) == At(free, k - 1);
      if k > 1 { assert list[k - 1] == free[k - 2] && list[k - 1] != f; }
    }
    forall g | 0 <= g < |o'| && o'[g] == Free ensures g in list {
      assert g == f || g in free;
    }
  }

  // ---------------------------------------------------------------- one store at a time

  /** Directories translate the same, virtual page v of directory d aside. */
  ghost predicate SameRaw(m: Mem, m': Mem, o: Owner, d: int, v: int) {
    forall d', v' :: 0 <= d' < |o| && o[d'] == Dir && 0 <= v' < PAGES && (d' != d || v' != v) ==> Raw(m', d', v') == Raw(m, d', v')
  }

  lemma RawThroughTable(m: Mem, o: Owner, d: int, v: int)
    requires TablesOk(m, o) && 0 <= d < |o| && o[d] == Dir && 0 <= v < PAGES
    ensures Present(m[d][v / WORDS]) ==>
      var f := FrameOf(m[d][v / WORDS]); 0 <= f < |o| && o[f] == Table(d, v / WORDS) && Raw(m, d, v) == m[f][v % WORDS]
    ensures !Present(m[d][v / WORDS]) ==> Raw(m, d, v) == 0
  {
    assert TableAt(m, o, d, v / WORDS);
  }

  /** A store to one entry of a table changes the translation of that page and no other. */
  lemma StoreEntry(m: Mem, o: Owner, d: int, v: int, w: int)
    requires TablesOk(m, o) && 0 <= d < |o| && o[d] == Dir && 0 <= v < PAGES && Present(m[d][v / WORDS])
    ensures var f := FrameOf(m[d][v / WORDS]);
      && 0 <= f < |m| && o[f] == Table(d, v / WORDS)
      && var m' := m[f := m[f][v % WORDS := w]]; TablesOk(m', o) && Raw(m', d, v) == w && SameRaw(m, m', o, d, v)
  {
    RawThroughTable(m, o, d, v);
    var f := FrameOf(m[d][v / WORDS]);
    var m' := m[f := m[f][v % WORDS := w]];
    TablesKept(m, o, m', o);
    RawThroughTable(m', o, d, v);
    forall d', v' | 0 <= d' < |o| && o[d'] == Dir && 0 <= v' < PAGES && (d' != d || v' != v) ensures Raw(m', d', v') == Raw(m, d', v') {
      RawThroughTable(m, o, d', v');
      RawThroughTable(m', o, d', v');
    }
  }

  /** Stores outside the directories keep the tables in order. */
  lemma TablesKept(m: Mem, o: Owner, m': Mem, o': Owner)
    requires TablesOk(m, o) && Sized(m', o')
    requires forall f :: 0 <= f < |o| ==>
      && (o'[f] == Dir <==> o[f] == Dir) && (o'[f].Table? || o[f].Table? ==> o'[f] == o[f])
      && (o[f] == Dir ==> m'[f] == m[f])
    ensures TablesOk(m', o')
  {
    forall d, i | 0 <= d < |o| && o'[d] == Dir && 0 <= i < WORDS ensures TableAt(m', o', d, i) { assert TableAt(m, o, d, i); }
    forall f | 0 <= f < |o| ensures TableHome(m', o', f) { assert TableHome(m, o, f); }
  }

  /** Stores outside directories and tables change no translation. */
  lemma DataStore(m: Mem, o: Owner, m': Mem)
    requires TablesOk(m, o) && Sized(m', o)
    requires forall f :: 0 <= f < |o| && (o[f] == Dir || o[f].Table?) ==> m'[f] == m[f]
    ensures TablesOk(m', o) && SameRaw(m, m', o, -1, 0)
  {
    TablesKept(m, o, m', o);
    forall d', v' | 0 <= d' < |o| && o[d'] == Dir && 0 <= v' < PAGES ensures Raw(m', d', v') == Raw(m, d', v') {
      RawThroughTable(m, o, d', v');
      RawThroughTable(m', o, d', v');
    }
  }

  /** A new, empty table changes no translation. */
  lemma NewTable(m: Mem, o: Owner, d: int, i: int, f: int)
    requires TablesOk(m, o) && 0 <= d < |o| && o[d] == Dir && 0 <= i < WORDS && !Present(m[d][i])
    requires 0 <= f < |o| && o[f] == Other
    ensures var m' := m[f := Zeros()][d := m[d][i := Entry(f, 7)]];
      var o' := o[f := Table(d, i)]; TablesOk(m', o') && SameRaw(m, m', o, -1, 0)
  {
    hide Zeros, Raw;
    var m' := m[f := Zeros()][d := m[d][i := Entry(f, 7)]];
    var o' := o[f := Table(d, i)];
    EntryParts(f, 7);
    forall d', i' | 0 <= d' < |o'| && o'[d'] == Dir && 0 <= i' < WORDS ensures TableAt(m', o', d', i') { assert TableAt(m, o, d', i'); }
    forall f' | 0 <= f' < |o'| ensures TableHome(m', o', f') { assert TableHome(m, o, f'); }
    forall d', v' | 0 <= d' < |o| && o[d'] == Dir && 0 <= v' < PAGES ensures Raw(m', d', v') == Raw(m, d', v') {
      RawThroughTable(m, o, d', v');
      RawThroughTable(m', o', d', v');
    }
  }

  // ---------------------------------------------------------------- user mappings

  lemma UsersKept(m: Mem, o: Owner, m': Mem, o': Owner)
    requires UsersOk(m, o) && |o'| == |o| && SameRaw(m, m', o, -1, 0)
    requires forall f :: 0 <= f < |o| ==> (o'[f] == Dir <==> o[f] == Dir) && (o'[f].User? || o[f].User? ==> o'[f] == o[f])
    ensures UsersOk(m', o')
  {
    hide Raw;
    forall d, v | 0 <= d < |o| && o'[d] == Dir && 0 <= v < USERPAGES ensures UserAt(m', o', d, v) { assert UserAt(m, o, d, v); }
    forall f | 0 <= f < |o| ensures UserHome(m', o', f) { assert UserHome(m, o, f); }
  }

  /** A page that changes between the free list and other uses, contents and all, is in no
      translation. */
  lemma Relabel(m: Mem, o: Owner, m': Mem, f: int, r: Role)
    requires TablesOk(m, o) && UsersOk(m, o) && 0 <= f < |o| && Sized(m', o)
    requires (o[f] == Free || o[f] == Other) && (r == Free || r == Other)
    requires forall g :: 0 <= g < |o| && g != f ==> m'[g] == m[g]
    ensures TablesOk(m', o[f := r]) && UsersOk(m', o[f := r]) && SameRaw(m, m', o, -1, 0)
  {
    hide UsersOk;
    DataStore(m, o, m');
    TablesKept(m', o, m', o[f := r]);
    UsersKept(m, o, m', o[f := r]);
  }

  /** Mapping a page that nobody uses gives it to that mapping. */
  lemma MapUser(m: Mem, o: Owner, m': Mem, d: int, v: int, f: int, flags: int)
    requires UsersOk(m, o) && 0 <= d < |o| && o[d] == Dir && 0 <= v < USERPAGES && View(m, d, v) == 0
    requires 0 < f < |o| && o[f] == Other && 0 <= flags < 4096 && flags % 2 == 1
    requires Raw(m', d, v) == Entry(f, flags) && SameRaw(m, m', o, d, v)
    ensures UsersOk(m', o[f := User(d, v)])
  {
    hide Raw, Entry;
    var o' := o[f := User(d, v)];
    EntryParts(f, flags);
    assert View(m', d, v) == Entry(f, flags) && Entry(f, flags) != 0;
    forall d', v' | 0 <= d' < |o| && o'[d'] == Dir && 0 <= v' < USERPAGES ensures UserAt(m', o', d', v') { assert UserAt(m, o, d', v'); }
    forall f' | 0 <= f' < |o| ensures UserHome(m', o', f') { assert UserHome(m, o, f'); }
  }

  /** Kernel mappings are not the business of the user pages. */
  lemma MapKernel(m: Mem, o: Owner, m': Mem, d: int, v: int)
    requires UsersOk(m, o) && USERPAGES <= v && SameRaw(m, m', o, d, v)
    ensures UsersOk(m', o)
  {
    hide Raw;
    forall d', v' | 0 <= d' < |o| && o[d'] == Dir && 0 <= v' < USERPAGES ensures UserAt(m', o, d', v') { assert UserAt(m, o, d', v'); }
    forall f | 0 <= f < |o| ensures UserHome(m', o, f) { assert UserHome(m, o, f); }
  }

  /** Clearing a mapping and freeing its page go together. */
  lemma UnmapUser(m: Mem, o: Owner, m': Mem, d: int, v: int)
    requires UsersOk(m, o) && 0 <= d < |o| && o[d] == Dir && 0 <= v < USERPAGES && View(m, d, v) != 0
    requires Raw(m', d, v) == 0 && SameRaw(m, m', o, d, v)
    ensures var f := FrameOf(View(m, d, v)); 0 <= f < |o| && o[f] == User(d, v) && UsersOk(m', o[f := Free])
  {
    hide Raw;
    assert UserAt(m, o, d, v);
    var f := FrameOf(View(m, d, v));
    var o' := o[f := Free];
    forall d', v' | 0 <= d' < |o| && o'[d'] == Dir && 0 <= v' < USERPAGES ensures UserAt(m', o', d', v') {
      assert UserAt(m, o, d', v');
      assert (d', v') != (d, v) && View(m, d', v') != 0 ==> FrameOf(View(m, d', v')) != f;
    }
    forall f' | 0 <= f' < |o| ensures UserHome(m', o', f') { assert UserHome(m, o, f'); }
  }

  // ---------------------------------------------------------------- whole ranges

  predicate InRange(r: Role, d: int, lo: int, hi: int) { r.User? && r.d == d && lo <= r.v < hi }

  /** The user pages of directory d from lo to hi were freed, and no other page changed hands. */
  ghost predicate Released(o: Owner, o': Owner, d: int, lo: int, hi: int) {
    |o'| == |o| && forall f :: 0 <= f < |o| ==> o'[f] == if InRange(o[f], d, lo, hi) then Free else o[f]
  }

  /** The mappings of directory d from lo to hi are gone, and every other translation stays. */
  ghost predicate Unmapped(m: Mem, m': Mem, o: Owner, d: int, lo: int, hi: int) {
    forall d', v' :: 0 <= d' < |o| && o[d'] == Dir && 0 <= v' < PAGES ==>
      View(m', d', v') == if d' == d && lo <= v' < hi then 0 else View(m, d', v')
  }

  /** Pages only changed hands from the free list to the tables of directory d. */
  ghost predicate Grew(o: Owner, o': Owner, d: int) {
    |o'| == |o| && forall f :: 0 <= f < |o| ==> o'[f] == o[f] || (o[f] == Free && o'[f].Table? && o'[f].d == d)
  }

  /** Outside directory d and its tables, a page that was in use and still is keeps its contents. */
  ghost predicate Kept(m: Mem, o: Owner, m': Mem, o': Owner, d: int) {
    && |m'| == |m| == |o| == |o'|
    && forall f :: 0 <= f < |o| && o[f] != Free && o'[f] != Free && f != d && !(o[f].Table? && o[f].d == d) ==> m'[f] == m[f]
  }

  /** In directory d the n pages from v now lead to the n frames from f; other translations stay. */
  ghost predicate Mapped(m: Mem, m': Mem, o: Owner, d: int, v: int, n: int, f: int, flags: int) {
    forall d', v' :: 0 <= d' < |o| && o[d'] == Dir && 0 <= v' < PAGES ==>
      View(m', d', v') == if d' == d && v <= v' < v + n then Entry(f + (v' - v), flags) else View(m, d', v')
  }

  /** No user page of d lies in a range where nothing is mapped. */
  lemma NothingInRange(m: Mem, o: Owner, d: int, lo: int, hi: int)
    requires UsersOk(m, o) && forall v :: lo <= v < hi ==> View(m, d, v) == 0
    ensures forall f :: 0 <= f < |o| ==> !InRange(o[f], d, lo, hi)
  {
    hide View;
    forall f | 0 <= f < |o| ensures !InRange(o[f], d, lo, hi) { assert UserHome(m, o, f); }
  }

  /** Without a table for directory entry i, nothing is mapped in the 1024 pages it covers. */
  lemma NoTableNothing(m: Mem, d: int, v: int)
    requires 0 <= d < |m| && |m[d]| == WORDS && 0 <= v < PAGES && !Present(m[d][v / WORDS])
    ensures forall v' :: v / WORDS * WORDS <= v' < (v / WORDS + 1) * WORDS ==> View(m, d, v') == 0
  {
    forall v' | v / WORDS * WORDS <= v' < (v / WORDS + 1) * WORDS ensures View(m, d, v') == 0 {
      assert v' / WORDS == v / WORDS;
    }
  }

  /** Freeing directory d with all its tables leaves the other spaces in order. */
  lemma DropSpace(m: Mem, o: Owner, m': Mem, o': Owner, d: int)
    requires TablesOk(m, o) && UsersOk(m, o) && Sized(m', o') && 0 <= d < |o| && o[d] == Dir
    requires forall f :: 0 <= f < |o| ==>
      && !InRange(o[f], d, 0, USERPAGES)
      && o'[f] == (if f == d || (o[f].Table? && o[f].d == d) then Free else o[f])
      && (o'[f] != Free ==> m'[f] == m[f])
    ensures TablesOk(m', o') && UsersOk(m', o') && SameRaw(m, m', o', -1, 0)
  {
    DropTables(m, o, m', o', d);
    DropRaw(m, o, m', o', d);
    DropUsers(m, o, m', o', d);
  }

  lemma DropTables(m: Mem, o: Owner, m': Mem, o': Owner, d: int)
    requires TablesOk(m, o) && Sized(m', o') && 0 <= d < |o| && o[d] == Dir
    requires forall f :: 0 <= f < |o| ==>
      o'[f] == (if f == d || (o[f].Table? && o[f].d == d) then Free else o[f]) && (o'[f] != Free ==> m'[f] == m[f])
    ensures TablesOk(m', o')
  {
    forall d', i | 0 <= d' < |o'| && o'[d'] == Dir && 0 <= i < WORDS ensures TableAt(m', o', d', i) { assert TableAt(m, o, d', i); }
    forall f | 0 <= f < |o'| ensures TableHome(m', o', f) { assert TableHome(m, o, f); }
  }

  lemma DropRaw(m: Mem, o: Owner, m': Mem, o': Owner, d: int)
    requires TablesOk(m, o) && TablesOk(m', o') && 0 <= d < |o| && o[d] == Dir
    requires forall f :: 0 <= f < |o| ==>
      o'[f] == (if f == d || (o[f].Table? && o[f].d == d) then Free else o[f]) && (o'[f] != Free ==> m'[f] == m[f])
    ensures SameRaw(m, m', o', -1, 0)
  {
    hide Raw;
    forall d', v' | 0 <= d' < |o'| && o'[d'] == Dir && 0 <= v' < PAGES ensures Raw(m', d', v') == Raw(m, d', v') {
      RawThroughTable(m, o, d', v');
      RawThroughTable(m', o', d', v');
    }
  }

  lemma DropUsers(m: Mem, o: Owner, m': Mem, o': Owner, d: int)
    requires UsersOk(m, o) && |o'| == |o| && 0 <= d < |o| && o[d] == Dir && SameRaw(m, m', o', -1, 0)
    requires forall f :: 0 <= f < |o| ==>
      !InRange(o[f], d, 0, USERPAGES) && o'[f] == (if f == d || (o[f].Table? && o[f].d == d) then Free else o[f])
    ensures UsersOk(m', o')
  {
    hide Raw;
    forall d', v' | 0 <= d' < |o'| && o'[d'] == Dir && 0 <= v' < USERPAGES ensures UserAt(m', o', d', v') { assert UserAt(m, o, d', v'); }
    forall f | 0 <= f < |o'| ensures UserHome(m', o', f) { assert UserHome(m, o, f); }
  }

  // ---------------------------------------------------------------- steps of the loops

  lemma MapStep(m: Mem, m1: Mem, m2: Mem, o: Owner, d: int, v: int, f: int, flags: int)
    requires SameRaw(m, m1, o, -1, 0) && SameRaw(m1, m2, o, d, v)
    requires 0 <= flags < 4096 && flags % 2 == 1 && Raw(m2, d, v) == Entry(f, flags)
    ensures SameRaw(m, m2, o, d, v) && Mapped(m, m2, o, d, v, 1, f, flags)
  {
    hide Raw, Entry;
    EntryParts(f, flags);
  }

  lemma SameMapped(m: Mem, m': Mem, o: Owner, d: int, v: int, f: int, flags: int)
    requires SameRaw(m, m', o, -1, 0)
    ensures Mapped(m, m', o, d, v, 0, f, flags)
  {
    hide Raw, Entry;
  }

  lemma MappedMore(m: Mem, m1: Mem, m2: Mem, o: Owner, d: int, v: int, k: int, f: int, flags: int, n: int)
    requires Mapped(m, m1, o, d, v, k, f, flags) && Mapped(m1, m2, o, d, v + k, n, f + k, flags) && 0 <= k && 0 <= n
    ensures Mapped(m, m2, o, d, v, k + n, f, flags)
  {
    hide View, Entry;
  }

  /** The owners once the n user pages from v in directory d were given the frames from f. */
  ghost function Given(o: Owner, d: int, v: int, n: int, f: int): (r: Owner)
    ensures |r| == |o|
    ensures forall g :: 0 <= g < |o| ==> r[g] == if f <= g < f + n && v + (g - f) < USERPAGES then User(d, v + (g - f)) else o[g]
  {
    seq(|o|, g requires 0 <= g < |o| => if f <= g < f + n && v + (g - f) < USERPAGES then User(d, v + (g - f)) else o[g])
  }

  lemma GivenNone(o: Owner, d: int, v: int, f: int)
    ensures Given(o, d, v, 0, f) == o
  {
  }

  lemma GivenOne(o: Owner, d: int, v: int, f: int)
    requires v < USERPAGES && 0 <= f < |o|
    ensures Given(o, d, v, 1, f) == o[f := User(d, v)]
  {
  }

  lemma GivenMore(o: Owner, o1: Owner, o2: Owner, d: int, v: int, k: int, f: int)
    requires 0 <= k && Grew(Given(o, d, v, k, f), o1, d) && Grew(Given(o1, d, v + k, 1, f + k), o2, d)
    requires v + k < USERPAGES ==> 0 <= f + k < |o| && o[f + k] == Other
    ensures Grew(Given(o, d, v, k + 1, f), o2, d)
  {
    hide Given;
  }

  lemma SkipStep(m0: Mem, o0: Owner, m: Mem, o: Owner, d: int, lo: int, k: int, k': int)
    requires Released(o0, o, d, lo, k) && Unmapped(m0, m, o0, d, lo, k) && UsersOk(m, o) && lo <= k <= k' <= PAGES && 0 <= lo
    requires 0 <= d < |o0| && o0[d] == Dir
    requires forall v :: k <= v < k' ==> View(m, d, v) == 0
    ensures Released(o0, o, d, lo, k') && Unmapped(m0, m, o0, d, lo, k')
  {
    hide View;
    NothingInRange(m, o, d, k, k');
  }

  lemma FreeStep(m0: Mem, o0: Owner, m: Mem, o: Owner, m': Mem, f: int, d: int, lo: int, k: int)
    requires Released(o0, o, d, lo, k) && Unmapped(m0, m, o0, d, lo, k) && UsersOk(m, o) && 0 <= lo <= k < USERPAGES
    requires 0 <= d < |o0| && o0[d] == Dir && 0 <= f < |o| && o[f] == User(d, k)
    requires Raw(m', d, k) == 0 && SameRaw(m, m', o, d, k)
    ensures Released(o0, o[f := Free], d, lo, k + 1) && Unmapped(m0, m', o0, d, lo, k + 1)
  {
    hide Raw, UserAt;
    assert UserHome(m, o, f);
    forall g | 0 <= g < |o| ensures o[f := Free][g] == if InRange(o0[g], d, lo, k + 1) then Free else o0[g] {
      assert UserHome(m, o, g);
    }
    forall d', v' | 0 <= d' < |o0| && o0[d'] == Dir && 0 <= v' < PAGES
      ensures View(m', d', v') == if d' == d && lo <= v' < k + 1 then 0 else View(m0, d', v')
    {
      assert o[d'] == Dir;
      assert d' != d || v' != k ==> View(m', d', v') == View(m, d', v');
    }
  }

  // ---------------------------------------------------------------- the kernel part

  /** One row of the kmap table; addresses in bytes. */
  datatype Kmap = Kmap(virt: int, start: int, end: int, perm: int)

  /** The kmap table, for a kernel whose data segment starts at the given address. */
  function Kmaps(data: int): (r: seq<Kmap>)
    ensures |r| == 4
  {
    [ Kmap(0x8000_0000, 0, 0x10_0000, 2),
      Kmap(0x8010_0000, 0x10_0000, data - 0x8000_0000, 0),
      Kmap(data, data - 0x8000_0000, 0xE00_0000, 2),
      Kmap(0xFE00_0000, 0xFE00_0000, 0, 2) ]
  }

  /** The data segment starts on a page between the kernel text and the top of memory. */
  predicate DataSegment(data: int) { data % 4096 == 0 && 0x8010_0000 < data < 0x8E00_0000 }

  /** The kernel part of every address space: physical memory at KERNBASE, the text read-only, and
      the devices where they are. */
  function KernelView(data: int, v: int): int {
    if 0x80000 <= v < 0x80000 + NFRAMES then
      Entry(v - 0x80000, if 0x80100 <= v < data / 4096 then 1 else 3)
    else if DEVPAGE <= v < PAGES then Entry(v, 3)
    else 0
  }

  function RowOf(data: int, v: int): int {
    if v < 0x80100 then 0 else if v < data / 4096 then 1 else if v < DEVPAGE then 2 else 3
  }

  /** The same with only the first k rows mapped. */
  function KernelRows(data: int, k: int, v: int): int { if RowOf(data, v) < k then KernelView(data, v) else 0 }

  function FirstPage(r: Kmap): int { r.virt / 4096 }
  function LastPage(r: Kmap): int { (r.virt + (r.end - r.start) % 0x1_0000_0000 - 1) % 0x1_0000_0000 / 4096 }

  /** The first and last page of each row; the last row ends at the top of the address space. */
  lemma RowPages(data: int, k: int)
    requires DataSegment(data) && 0 <= k < 4
    ensures var r := Kmaps(data)[k];
      && FirstPage(r) == [0x80000, 0x80100, data / 4096, DEVPAGE][k]
      && LastPage(r) == [0x800FF, data / 4096 - 1, 0x8DFFF, 0xFFFFF][k]
      && r.start / 4096 == [0, 0x100, data / 4096 - 0x80000, DEVPAGE][k]
      && OrPresent(r.perm) == [3, 1, 3, 3][k]
      && 0x80100 < data / 4096 < 0x8E000
  {
    var p := data / 4096;
    assert data == p * 4096;
    if k == 0 { RowZero(data); } else if k == 1 { RowOne(data, p); } else if k == 2 { RowTwo(data, p); } else { RowThree(data); }
  }

  lemma RowZero(data: int)
    ensures FirstPage(Kmaps(data)[0]) == 0x80000 && LastPage(Kmaps(data)[0]) == 0x800FF
  {
  }

  lemma RowOne(data: int, p: int)
    requires data == p * 4096 && 0x80100 < p < 0x8E000
    ensures FirstPage(Kmaps(data)[1]) == 0x80100 && LastPage(Kmaps(data)[1]) == p - 1
  {
    assert (data - 0x8010_0000) % 0x1_0000_0000 == data - 0x8010_0000;
  }

  lemma RowTwo(data: int, p: int)
    requires data == p * 4096 && 0x80100 < p < 0x8E000
    ensures FirstPage(Kmaps(data)[2]) == p && LastPage(Kmaps(data)[2]) == 0x8DFFF && Kmaps(data)[2].start / 4096 == p - 0x80000
  {
    assert (0x8E00_0000 - data) % 0x1_0000_0000 == 0x8E00_0000 - data;
  }

  lemma RowThree(data: int)
    ensures FirstPage(Kmaps(data)[3]) == DEVPAGE && LastPage(Kmaps(data)[3]) == 0xFFFFF
  {
  }

  /** Mapping one more row. */
  lemma KernelRow(data: int, k: int, v: int)
    requires DataSegment(data) && 0 <= k < 4 && 0 <= v < PAGES
    ensures var r := Kmaps(data)[k]; var n := LastPage(r) - FirstPage(r);
      && 0 <= n && USERPAGES <= FirstPage(r) && LastPage(r) < PAGES && r.start / 4096 + n < PAGES
      && KernelRows(data, k + 1, v) ==
         (if FirstPage(r) <= v <= LastPage(r) then Entry(r.start / 4096 + (v - FirstPage(r)), OrPresent(r.perm)) else KernelRows(data, k, v))
      && (FirstPage(r) <= v <= LastPage(r) ==> KernelRows(data, k, v) == 0)
  {
    hide Entry, Kmaps, FirstPage, LastPage, OrPresent;
    RowPages(data, k);
  }

  /** A new directory maps nothing. */
  lemma NewDir(m: Mem, o: Owner, d: int)
    requires TablesOk(m, o) && UsersOk(m, o) && 0 <= d < |o| && o[d] == Other
    ensures var m' := m[d := Zeros()]; var o' := o[d := Dir];
      && TablesOk(m', o') && UsersOk(m', o') && SameRaw(m, m', o, -1, 0)
      && forall v :: 0 <= v < PAGES ==> View(m', d, v) == 0
  {
    hide Zeros;
    var m', o' := m[d := Zeros()], o[d := Dir];
    DataStore(m, o, m');
    NewDirTables(m, o, d);
    forall v | 0 <= v < PAGES ensures View(m', d, v) == 0 { assert !Present(m'[d][v / WORDS]); }
    NewDirUsers(m, o, m', d);
  }

  lemma NewDirTables(m: Mem, o: Owner, d: int)
    requires TablesOk(m, o) && 0 <= d < |o| && o[d] == Other
    ensures TablesOk(m[d := Zeros()], o[d := Dir])
  {
    hide Zeros;
    var m', o' := m[d := Zeros()], o[d := Dir];
    forall d', i | 0 <= d' < |o'| && o'[d'] == Dir && 0 <= i < WORDS ensures TableAt(m', o', d', i) {
      if d' != d { assert TableAt(m, o, d', i); }
    }
    forall f | 0 <= f < |o'| ensures TableHome(m', o', f) { assert TableHome(m, o, f); }
  }

  lemma NewDirUsers(m: Mem, o: Owner, m': Mem, d: int)
    requires UsersOk(m, o) && 0 <= d < |o| && o[d] == Other && SameRaw(m, m', o, -1, 0)
    requires forall v :: 0 <= v < PAGES ==> View(m', d, v) == 0
    ensures UsersOk(m', o[d := Dir])
  {
    hide Raw;
    var o' := o[d := Dir];
    forall d', v | 0 <= d' < |o'| && o'[d'] == Dir && 0 <= v < USERPAGES ensures UserAt(m', o', d', v) {
      if d' != d { assert UserAt(m, o, d', v); }
    }
    forall f | 0 <= f < |o'| ensures UserHome(m', o', f) { assert UserHome(m, o, f); }
  }
}
