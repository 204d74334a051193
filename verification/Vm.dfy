/** vm.c and kalloc.c over one physical memory. */
module Vm {
  import opened VmSpec
  import opened VmSteps
  import opened VmCount

  class Machine {
    var mem: Mem
    var freelist: int
    const first: int
    ghost var free: seq<int>
    ghost var owner: Owner

    ghost predicate Valid()
      reads this
    {
      Sized(mem, owner) && FreeOk(mem, owner, free, freelist) && RolesOk(owner, first)
    }

    ghost predicate Inv()
      reads this
    {
      Valid() && TablesOk(mem, owner) && UsersOk(mem, owner)
    }

    // -------------------------------------------------------------- kalloc.c

    /** Before kinit1: the kernel image ends below page first, and nothing is free. */
    constructor (contents: Mem, end: int)
      requires 0 < end && |contents| == NFRAMES && forall f :: 0 <= f < NFRAMES ==> |contents[f]| == WORDS
      ensures Inv() && mem == contents && first == end && free == []
      ensures forall f :: 0 <= f < NFRAMES ==> owner[f] == Other
    {
      mem, freelist, first := contents, 0, end;
      free, owner := [], seq(NFRAMES, _ => Other);
    }

    /** Give every whole page between the kernel addresses vstart and vend to the free list. */
    method FreeRange(vstart: int, vend: int)
      requires Inv() && (first + USERPAGES) * 4096 <= vstart <= vend <= (NFRAMES + USERPAGES) * 4096
      requires forall f :: (vstart + 4095) / 4096 - USERPAGES <= f < vend / 4096 - USERPAGES ==> owner[f] == Other
      modifies this
      ensures Inv() && |owner| == |old(owner)| && forall f :: 0 <= f < NFRAMES ==>
        owner[f] == if (vstart + 4095) / 4096 - USERPAGES <= f < vend / 4096 - USERPAGES then Free else old(owner)[f]
      ensures forall f :: 0 <= f < NFRAMES && owner[f] != Free ==> mem[f] == old(mem)[f]
    {
      hide TablesOk, UsersOk, FreeOk, SameRaw;
      var p := RoundUp(vstart);
      while p + 4096 <= vend
        invariant p % 4096 == 0 && p >= (vstart + 4095) / 4096 * 4096 && (p <= vend || p == (vstart + 4095) / 4096 * 4096) && Inv()
        invariant |owner| == |old(owner)| && forall f :: 0 <= f < NFRAMES ==>
          owner[f] == if (vstart + 4095) / 4096 - USERPAGES <= f < p / 4096 - USERPAGES then Free else old(owner)[f]
        invariant forall f :: 0 <= f < NFRAMES && owner[f] != Free ==> mem[f] == old(mem)[f]
      {
        KFree(PageAt(p));
        p := p + 4096;
      }
    }

    /** Any free page, 0 if there is none. */
    method KAlloc() returns (f: int)
      requires Valid()
      modifies this
      ensures Valid() && mem == old(mem) && (old(Inv()) ==> Inv())
      ensures f == At(old(free), 0) && (f == 0 <==> old(free) == [])
      ensures f == 0 ==> owner == old(owner) && free == old(free)
      ensures f != 0 ==> first <= f < NFRAMES && old(owner)[f] == Free && owner == old(owner)[f := Other] && free == old(free)[1..]
    {
      hide TablesOk, UsersOk, SameRaw;
      assert freelist == Link(At(free, 0));
      if free != [] { FreePop(mem, owner, free, freelist); }
      f := PageAt(freelist);
      if f != 0 {
        freelist := mem[f][0];
        if old(Inv()) { Relabel(mem, owner, mem, f, Other); }
        owner, free := owner[f := Other], free[1..];
      }
    }

    method KFree(f: int)
      requires Valid() && first <= f < NFRAMES && owner[f] != Free
      modifies this
      ensures Valid()
      ensures owner == old(owner)[f := Free] && free == [f] + old(free) && mem == old(mem)[f := Junk(old(freelist))]
      ensures old(Inv()) && old(owner)[f] == Other ==> Inv() && SameRaw(old(mem), mem, old(owner), -1, 0)
    {
      hide TablesOk, UsersOk, SameRaw, FreeOk, Link;
      assert f != 0;
      FreePush(mem, owner, free, freelist, f, Junk(freelist));
      mem := mem[f := Junk(0x01010101)];
      mem := mem[f := mem[f][0 := freelist]];
      assert mem[f] == Junk(freelist) && mem == old(mem)[f := Junk(freelist)];
      freelist := Link(f);
      if old(Inv()) && owner[f] == Other { Relabel(old(mem), owner, mem, f, Free); }
      owner, free := owner[f := Free], [f] + free;
    }

    // -------------------------------------------------------------- walkpgdir, mappages

    /** The page that holds the entry for virtual page v in directory d; 0 when there is no table
        and none may or can be made.  Making one changes no translation. */
    method WalkPgdir(d: int, v: int, alloc: bool) returns (t: int)
      requires Inv() && 0 <= d < NFRAMES && owner[d] == Dir && 0 <= v < PAGES
      modifies this
      ensures Inv() && Grew(old(owner), owner, d) && Kept(old(mem), old(owner), mem, owner, d)
      ensures SameRaw(old(mem), mem, old(owner), -1, 0)
      ensures t != 0 ==> 0 < t < NFRAMES && Present(mem[d][v / WORDS]) && FrameOf(mem[d][v / WORDS]) == t
      ensures t == 0 <==> !Present(old(mem)[d][v / WORDS]) && (!alloc || old(free) == [])
      ensures RowStep(old(mem)[d], mem[d], v / WORDS, t != 0)
      ensures |free| == |old(free)| - if t != 0 && !Present(old(mem)[d][v / WORDS]) then 1 else 0
      ensures t == 0 || !alloc || Present(old(mem)[d][v / WORDS]) ==> mem == old(mem) && owner == old(owner) && free == old(free)
    {
      hide UsersOk, FreeOk, TableHome, Zeros, Raw, Entry, FrameOf, Present;
      var i := v / WORDS;
      assert TableAt(mem, owner, d, i);
      if Present(mem[d][i]) {
        t := FrameOf(mem[d][i]);
        assert owner[t] != Other;
      } else if alloc {
        t := KAlloc();
        if t != 0 {
          MakeTable(d, i, t);
        }
      } else {
        t := 0;
      }
    }

    method MakeTable(d: int, i: int, t: int)
      requires Inv() && 0 <= d < NFRAMES && owner[d] == Dir && 0 <= i < WORDS && !Present(mem[d][i])
      requires first <= t < NFRAMES && owner[t] == Other
      modifies this
      ensures Inv() && owner == old(owner)[t := Table(d, i)] && free == old(free)
      ensures forall f :: 0 <= f < NFRAMES && f != d && f != t ==> mem[f] == old(mem)[f]
      ensures SameRaw(old(mem), mem, old(owner), -1, 0)
      ensures Present(mem[d][i]) && FrameOf(mem[d][i]) == t && mem[d] == old(mem)[d][i := mem[d][i]]
    {
      hide TablesOk, UsersOk, FreeOk, Zeros, Raw, Entry, FrameOf, Present;
      EntryParts(t, 7);
      NewTable(mem, owner, d, i, t);
      mem := mem[t := Zeros()];
      mem := mem[d := mem[d][i := Entry(t, 7)]];
      owner := owner[t := Table(d, i)];
      UsersKept(old(mem), old(owner), mem, owner);
      FreeFrame(old(mem), old(owner), mem, owner, free, freelist);
    }

    /** A store to the entry for virtual page v, in the table page t. */
    method SetEntry(d: int, v: int, t: int, w: int)
      requires Valid() && TablesOk(mem, owner) && 0 <= d < NFRAMES && owner[d] == Dir && 0 <= v < PAGES
      requires Present(mem[d][v / WORDS]) && FrameOf(mem[d][v / WORDS]) == t
      modifies this`mem
      ensures Valid() && TablesOk(mem, owner) && Kept(old(mem), owner, mem, owner, d)
      ensures Raw(mem, d, v) == w && SameRaw(old(mem), mem, owner, d, v) && mem[d] == old(mem)[d]
    {
      hide TablesOk, UsersOk, FreeOk, Raw, FrameOf, Present, SameRaw;
      StoreEntry(mem, owner, d, v, w);
      mem := mem[t := mem[t][v % WORDS := w]];
      FreeFrame(old(mem), owner, mem, owner, free, freelist);
    }

    /** One turn of the loop in mappages.  A page of the user part must come with a frame that
        nobody else uses. */
    method MapOne(d: int, v: int, f: int, perm: int) returns (ok: bool)
      requires Inv() && 0 <= d < NFRAMES && owner[d] == Dir && 0 <= v < PAGES && View(mem, d, v) == 0
      requires 0 <= perm < 4096 && (v < USERPAGES ==> first <= f < NFRAMES && owner[f] == Other)
      modifies this
      ensures Inv() && Grew(Given(old(owner), d, v, if ok then 1 else 0, f), owner, d)
      ensures Kept(old(mem), old(owner), mem, owner, d) && SameDirectories(old(owner), owner)
      ensures Mapped(old(mem), mem, old(owner), d, v, if ok then 1 else 0, f, OrPresent(perm))
      ensures ok <==> Present(old(mem)[d][v / WORDS]) || old(free) != []
      ensures RowStep(old(mem)[d], mem[d], v / WORDS, ok)
      ensures |free| == |old(free)| - if ok && !Present(old(mem)[d][v / WORDS]) then 1 else 0
    {
      hide RowStep, TablesOk, UsersOk, FreeOk, Raw, FrameOf, Present, Entry, SameRaw, Given, Mapped;
      var t := WalkPgdir(d, v, true);
      ok := t != 0;
      GivenNone(old(owner), d, v, f);
      if ok {
        ghost var m1, o1 := mem, owner;
        SetEntry(d, v, t, Entry(f, OrPresent(perm)));
        assert SameRaw(m1, mem, old(owner), d, v) by { SameDirs(m1, mem, o1, old(owner), d, v); }
        MapStep(old(mem), m1, mem, old(owner), d, v, f, OrPresent(perm));
        if v < USERPAGES {
          assert View(m1, d, v) == 0 by { hide *; SameView(old(mem), m1, old(owner), d, v); }
          MapUser(m1, o1, mem, d, v, f, OrPresent(perm));
          TablesKept(mem, owner, mem, owner[f := User(d, v)]);
          FreeFrame(mem, owner, mem, owner[f := User(d, v)], free, freelist);
          owner := owner[f := User(d, v)];
          GivenOne(old(owner), d, v, f);
        } else {
          MapKernel(m1, owner, mem, d, v);
          GivenKernel(old(owner), d, v, 1, f);
        }
      } else {
        SameMapped(old(mem), mem, old(owner), d, v, f, OrPresent(perm));
      }
    }

    /** Map the pages that the size bytes from va lie in to the frames from pa on; -1 if a table page
        was needed and none was left, after the first k pages. */
    method MapPages(d: int, va: int, size: int, pa: int, perm: int) returns (r: int, ghost k: int)
      requires Inv() && 0 <= d < NFRAMES && owner[d] == Dir && 0 <= perm < 4096
      requires 0 <= va <= Wrap(va + size - 1) < 0x1_0000_0000 && 0 <= pa && pa % 4096 == 0
      requires Wrap(va + size - 1) / 4096 - va / 4096 + pa / 4096 < PAGES
      requires forall v :: va / 4096 <= v <= Wrap(va + size - 1) / 4096 ==> View(mem, d, v) == 0
      requires forall f :: pa / 4096 <= f <= pa / 4096 + Wrap(va + size - 1) / 4096 - va / 4096 && f - pa / 4096 + va / 4096 < USERPAGES ==>
        Unclaimed(owner, first, f)
      modifies this
      ensures Inv() && Grew(Given(old(owner), d, va / 4096, k, pa / 4096), owner, d)
      ensures Kept(old(mem), old(owner), mem, owner, d) && SameDirectories(old(owner), owner)
      ensures Mapped(old(mem), mem, old(owner), d, va / 4096, k, pa / 4096, OrPresent(perm))
      ensures 0 <= k && if r == 0 then k == Wrap(va + size - 1) / 4096 - va / 4096 + 1
              else r == -1 && k <= Wrap(va + size - 1) / 4096 - va / 4096
      ensures Took(old(mem)[d], |old(free)|, mem[d], |free|, va / 4096, Wrap(va + size - 1) / 4096, r == 0)
    {
      hide Took, Taking, RowStep, Missing, TablesOk, UsersOk, FreeOk, RolesOk, Raw, View, FrameOf, Present, Entry, SameRaw, Given, Mapped;
      var a, last := va / 4096 * 4096, Wrap(va + size - 1) / 4096 * 4096;
      ghost var v0, f0, n := va / 4096, pa / 4096, Wrap(va + size - 1) / 4096 - va / 4096 + 1;
      var p := pa;
      k := 0;
      GivenNone(owner, d, v0, f0);
      MappedNone(mem, owner, d, v0, f0, OrPresent(perm));
      TakingNone(mem[d], |free|, v0, v0 + n);
      while true
        invariant Inv() && 0 <= k < n && a == (v0 + k) * 4096 && p == (f0 + k) * 4096
        invariant SameDirectories(old(owner), owner) && Grew(Given(old(owner), d, v0, k, f0), owner, d)
        invariant Taking(old(mem)[d], |old(free)|, mem[d], |free|, v0, v0 + k, v0 + n)
        invariant Kept(old(mem), old(owner), mem, owner, d)
        invariant Mapped(old(mem), mem, old(owner), d, v0, k, f0, OrPresent(perm))
        decreases n - k
      {
        ghost var m1, o1, n1 := mem, owner, |free|;
        assert View(mem, d, v0 + k) == 0 by { MappedAt(old(mem), mem, old(owner), d, v0, k, f0, OrPresent(perm), v0 + k); }
        assert v0 + k < USERPAGES ==> Unclaimed(old(owner), first, f0 + k) && owner[f0 + k] == Other;
        var ok := MapOne(d, a / 4096, p / 4096, perm);
        assert a / 4096 == v0 + k && p / 4096 == f0 + k;
        MappedDirs(m1, mem, o1, old(owner), d, v0 + k, if ok then 1 else 0, f0 + k, OrPresent(perm));
        MappedMore(old(mem), m1, mem, old(owner), d, v0, k, f0, OrPresent(perm), if ok then 1 else 0);
        if !ok {
          TookNot(old(mem)[d], |old(free)|, m1[d], mem[d], v0, v0 + k, v0 + n);
          return -1, k;
        }
        TakingMore(old(mem)[d], |old(free)|, m1[d], n1, mem[d], |free|, v0, v0 + k, v0 + n);
        GivenMore(old(owner), o1, owner, d, v0, k, f0);
        k := k + 1;
        if a == last {
          break;
        }
        a := Wrap(a + 4096);
        p := Wrap(p + 4096);
      }
      TookAll(old(mem)[d], |old(free)|, mem[d], |free|, v0, v0 + n);
      r := 0;
    }

    // -------------------------------------------------------------- deallocuvm, freevm

    /** Free the page mapped at v, whose entry is in table page t, and clear the entry. */
    method UnmapOne(d: int, v: int, t: int)
      requires Inv() && 0 <= d < NFRAMES && owner[d] == Dir && 0 <= v < USERPAGES && View(mem, d, v) != 0
      requires Present(mem[d][v / WORDS]) && FrameOf(mem[d][v / WORDS]) == t
      modifies this
      ensures var f := FrameOf(View(old(mem), d, v));
        Inv() && 0 <= f < NFRAMES && old(owner)[f] == User(d, v) && owner == old(owner)[f := Free]
      ensures Raw(mem, d, v) == 0 && SameRaw(old(mem), mem, old(owner), d, v) && Kept(old(mem), old(owner), mem, owner, d)
    {
      hide TablesOk, UsersOk, FreeOk, Raw, FrameOf, Present, SameRaw;
      UserPage(mem, owner, d, v);
      var f := FrameOf(View(mem, d, v));
      KFree(f);
      ghost var m1 := mem;
      DataStore(old(mem), old(owner), m1);
      TablesKept(m1, old(owner), m1, owner);
      SetEntry(d, v, t, 0);
      SameDirs(m1, mem, owner, old(owner), d, v);
      SameSame(old(mem), m1, mem, old(owner), d, v);
      UnmapUser(old(mem), old(owner), mem, d, v);
    }

    /** Unmap and free the user pages from newsz up to oldsz.  Where there is no table the loop skips
        to the next directory entry; the result is what unmapping page by page gives. */
    method DeallocUvm(d: int, oldsz: int, newsz: int) returns (sz: int)
      requires Inv() && 0 <= d < NFRAMES && owner[d] == Dir && 0 <= oldsz <= 0x8000_0000 && 0 <= newsz < 0x1_0000_0000
      modifies this
      ensures Inv() && sz == (if newsz >= oldsz then oldsz else newsz)
      ensures Released(old(owner), owner, d, (newsz + 4095) / 4096, (oldsz + 4095) / 4096)
      ensures Unmapped(old(mem), mem, old(owner), d, (newsz + 4095) / 4096, (oldsz + 4095) / 4096)
      ensures Kept(old(mem), old(owner), mem, owner, d)
    {
      hide TablesOk, UsersOk, FreeOk, RolesOk, Raw, FrameOf, Present, SameRaw, Unmapped, Released, Kept, View, Wrap, NextEntry, RoundUp;
      ghost var lo, hi := (newsz + 4095) / 4096, (oldsz + 4095) / 4096;
      UnmappedNone(mem, owner, d, lo, lo);
      assert Kept(mem, owner, mem, owner, d) by { KeptSelf(mem, owner, d); }
      if newsz >= oldsz {
        UnmappedNone(mem, owner, d, lo, hi);
        return oldsz;
      }
      var a := RoundUp(newsz);
      ghost var k := lo;
      RoundUpPage(newsz);
      while a < oldsz
        invariant a % 4096 == 0 && lo <= k <= hi && k == (if a < oldsz then a / 4096 else hi) && a <= 0x8000_0000
        invariant Inv() && owner[d] == Dir && Released(old(owner), owner, d, lo, k)
        invariant Unmapped(old(mem), mem, old(owner), d, lo, k) && Kept(old(mem), old(owner), mem, owner, d)
        decreases 0x8000_0000 - a
      {
        SkipAddress(a, oldsz);
        var t := WalkPgdir(d, a / 4096, false);
        ghost var next := k + 1;
        if t == 0 {
          NoTableNothing(mem, d, k);
          next := NextEntry(a, oldsz);
          a := Wrap(Wrap((a / 0x40_0000 + 1) * 0x40_0000) - 4096);
          SkipStep(old(mem), old(owner), mem, owner, d, lo, k, next);
        } else {
          ghost var m1, o1 := mem, owner;
          EntryRead(mem, owner, d, k);
          if Present(mem[t][a / 4096 % WORDS]) {
            UnmapOne(d, a / 4096, t);
            UserPage(m1, o1, d, k);
            KeptRelease(old(mem), old(owner), m1, o1, mem, owner, d, lo, k);
            FreeStep(old(mem), old(owner), m1, o1, mem, FrameOf(View(m1, d, k)), d, lo, k);
          } else {
            SkipStep(old(mem), old(owner), mem, owner, d, lo, k, next);
          }
        }
        a := Wrap(a + 4096);
        k := next;
      }
      sz := newsz;
    }

    /** Free the user pages of directory d, its tables and the directory itself: exactly what this
        address space owned.  Every other space translates as before. */
    method FreeVm(d: int)
      requires Inv() && 0 <= d < NFRAMES && owner[d] == Dir
      modifies this
      ensures Inv() && SpaceFreed(old(owner), owner, d)
      ensures SameViews(old(mem), mem, owner) && Kept(old(mem), old(owner), mem, owner, d)
    {
      hide TablesOk, UsersOk, FreeOk, Raw, FrameOf, Present, SameRaw, View;
      var _ := DeallocUvm(d, 0x8000_0000, 0);
      ghost var m1, o1 := mem, owner;
      TableIndex(m1, o1);
      UserIndex(old(mem), old(owner));
      var i := 0;
      while i < WORDS
        invariant 0 <= i <= WORDS && Valid()
        invariant forall f :: 0 <= f < NFRAMES ==> owner[f] == if o1[f].Table? && o1[f].d == d && o1[f].i < i then Free else o1[f]
        invariant forall f :: 0 <= f < NFRAMES && owner[f] != Free ==> mem[f] == m1[f]
      {
        TableUnique(m1, o1, d, i);
        if Present(mem[d][i]) {
          KFree(FrameOf(mem[d][i]));
        }
        i := i + 1;
      }
      KFree(d);
      DropSpace(m1, o1, mem, owner, d);
      SameViewsAfter(old(mem), m1, mem, old(owner), owner, d);
    }

    // -------------------------------------------------------------- setupkvm

    /** A directory with the kernel part only, which takes 65 pages; 0 exactly if there are fewer, everything
        taken given back. */
    method SetupKvm(data: int) returns (d: int)
      requires Inv() && DataSegment(data)
      modifies this
      ensures Inv() && SameViews(old(mem), mem, old(owner))
      ensures d == 0 <==> |old(free)| < 65
      ensures d != 0 ==> 0 <= d < NFRAMES && |mem[d]| == WORDS && |free| == |old(free)| - 65 && forall x :: 0 <= x < USERPAGES / WORDS ==> !Present(mem[d][x])
      ensures d == 0 ==> owner == old(owner) && forall f :: 0 <= f < NFRAMES && owner[f] != Free ==> mem[f] == old(mem)[f]
      ensures d != 0 ==> Apart(old(mem), old(owner), mem, owner, d)
      ensures d != 0 ==> forall v :: 0 <= v < PAGES ==> View(mem, d, v) == KernelView(data, v)
    {
      hide TablesOk, UsersOk, FreeOk, Raw, View, Entry, KernelView, Zeros, Link, Kmaps, SameViews, OtherViews, DataSegment;
      ghost var m0, o0 := mem, owner;
      d := KAlloc();
      SameViewsSelf(mem, o0);
      if d == 0 { return; }
      MakeDir(d);
      NewDirApart(m0, o0, mem, owner, d);
      KernelNone(mem[d], |free|);
      var k := 0;
      while k < 4
        invariant 0 <= k <= 4 && Inv() && Apart(m0, o0, mem, owner, d) && KernelOnly(mem[d], |free|, |old(free)|)
        invariant forall v :: 0 <= v < PAGES ==> View(mem, d, v) == KernelRows(data, k, v)
      {
        ghost var m1, o1, n1 := mem, owner, |free|;
        var ok := MapRow(d, data, k);
        RowTakes(m1[d], n1, mem[d], |free|, |old(free)|, data, k, ok);
        ApartStep(m0, o0, m1, o1, mem, owner, d);
        if !ok {
          m1, o1 := mem, owner;
          FreeVm(d);
          ApartFreed(m0, o0, m1, o1, mem, owner, d);
          return 0;
        }
        k := k + 1;
      }
      KernelDone(mem, d, data, |free|, |old(free)|);
    }

    method MakeDir(d: int)
      requires Inv() && first <= d < NFRAMES && owner[d] == Other
      modifies this
      ensures Inv() && free == old(free) && mem[d] == Zeros() && owner == old(owner)[d := Dir] && SameRaw(old(mem), mem, old(owner), -1, 0)
      ensures forall f :: 0 <= f < NFRAMES && f != d ==> mem[f] == old(mem)[f]
      ensures forall v :: 0 <= v < PAGES ==> View(mem, d, v) == 0
    {
      hide TablesOk, UsersOk, FreeOk, Raw, View, SameRaw, Zeros;
      NewDir(mem, owner, d);
      FreeFrame(mem, owner, mem[d := Zeros()], owner[d := Dir], free, freelist);
      mem := mem[d := Zeros()];
      owner := owner[d := Dir];
    }

    /** Map row k of the kmap table. */
    method MapRow(d: int, data: int, k: int) returns (ok: bool)
      requires Inv() && 0 <= d < NFRAMES && owner[d] == Dir && DataSegment(data) && 0 <= k < 4
      requires forall v :: 0 <= v < PAGES ==> View(mem, d, v) == KernelRows(data, k, v)
      modifies this
      ensures Inv() && GrewSpace(old(owner), owner, d) && Kept(old(mem), old(owner), mem, owner, d)
      ensures Took(old(mem)[d], |old(free)|, mem[d], |free|, FirstPage(Kmaps(data)[k]), LastPage(Kmaps(data)[k]), ok)
      ensures OtherViews(old(mem), mem, old(owner), d)
      ensures ok ==> forall v :: 0 <= v < PAGES ==> View(mem, d, v) == KernelRows(data, k + 1, v)
    {
      hide TablesOk, UsersOk, FreeOk, Raw, View, SameRaw, Entry, KernelView, KernelRows, Mapped, Given, Kept, OtherViews, Took;
      RowFits(mem, d, data, k);
      var row := Kmaps(data)[k];
      var r, n := MapPages(d, row.virt, Wrap(row.end - row.start), row.start, row.perm);
      GivenKernel(old(owner), d, FirstPage(row), n, row.start / 4096);
      MappedOther(old(mem), mem, old(owner), d, FirstPage(row), n, row.start / 4096, OrPresent(row.perm));
      ok := r == 0;
      if ok { RowMapped(old(mem), mem, old(owner), d, data, k); }
    }

    // -------------------------------------------------------------- allocuvm

    /** Fill the page f, fresh from kalloc, and map it at user page v.  If a table page was needed and
        none was left, f is still the caller's. */
    method FillAndMap(d: int, v: int, f: int, page: seq<int>, perm: int, ghost m0: Mem, ghost o0: Owner) returns (ok: bool)
      requires Inv() && first <= f < NFRAMES && mem == m0 && |o0| == NFRAMES && o0[f] == Free && owner == o0[f := Other]
      requires 0 <= d < NFRAMES && owner[d] == Dir && 0 <= v < USERPAGES && View(mem, d, v) == 0
      requires |page| == WORDS && 0 <= perm < 4096
      modifies this
      ensures Inv() && owner[d] == Dir && (ok <==> Present(m0[d][v / WORDS]) || old(free) != [])
      ensures ok ==> RowStep(m0[d], mem[d], v / WORDS, true) && |free| == |old(free)| - if Present(m0[d][v / WORDS]) then 0 else 1
      ensures ok ==> PageAdded(m0, o0, mem, owner, d, v, page, OrPresent(perm))
      ensures !ok ==> Grew(o0[f := Other], owner, d) && SameViews(m0, mem, o0) && Kept(m0, o0, mem, owner, d)
    {
      hide TablesOk, UsersOk, FreeOk, Raw, View, SameRaw, Entry, Mapped, Given, FrameOf, Present, Took, RowStep;
      Relabel(mem, owner, mem[f := page], f, Other);
      assert owner[f := Other] == owner;
      FreeFrame(mem, owner, mem[f := page], owner, free, freelist);
      mem := mem[f := page];
      ghost var m1 := mem;
      assert View(m1, d, v) == 0 by { SameView(m0, m1, owner, d, v); }
      assert SameRaw(m0, m1, o0, -1, 0) by { SameDirs(m0, m1, owner, o0, -1, 0); }
      var r, k := MapPages(d, v * 4096, 4096, f * 4096, perm);
      TookOne(m1[d], |old(free)|, mem[d], |free|, v, r == 0);
      ok := r == 0;
      if ok {
        GivenOne(o0[f := Other], d, v, f);
        assert o0[f := Other][f := User(d, v)] == o0[f := User(d, v)];
        PageAddedBy(m0, o0, m1, mem, owner, d, v, f, page, OrPresent(perm));
      } else {
        GivenNone(o0[f := Other], d, v, f);
        NotAddedBy(m0, o0, m1, mem, owner, d, v, f, OrPresent(perm));
      }
    }

    /** Grow the user part from oldsz to newsz.  It fails exactly if there are fewer free pages than pages
        in the range and tables that the directory lacks for them.  On failure every translation is as before, and of
        the pages taken only empty tables of this directory stay, which freevm gives back. */
    method AllocUvm(d: int, oldsz: int, newsz: int) returns (sz: int)
      requires Inv() && 0 <= d < NFRAMES && owner[d] == Dir && 0 <= oldsz && 0 <= newsz < 0x1_0000_0000
      requires newsz < 0x8000_0000 ==> forall v :: (oldsz + 4095) / 4096 <= v < (newsz + 4095) / 4096 ==> View(mem, d, v) == 0
      modifies this
      ensures Inv() && (sz == 0 || sz == if newsz < oldsz then oldsz else newsz)
      ensures oldsz <= newsz < 0x8000_0000 && 0 < newsz ==>
        (sz == 0 <==> |old(free)| < Need(old(mem)[d], (oldsz + 4095) / 4096, (newsz + 4095) / 4096))
      ensures 0 < sz == newsz ==> |free| == |old(free)| - Need(old(mem)[d], (oldsz + 4095) / 4096, (newsz + 4095) / 4096)
      ensures newsz >= 0x8000_0000 || newsz < oldsz ==> mem == old(mem) && owner == old(owner)
      ensures newsz >= 0x8000_0000 ==> sz == 0
      ensures newsz < 0x8000_0000 && newsz < oldsz ==> sz == oldsz
      ensures 0 < sz == newsz ==> Extended(old(mem), old(owner), mem, owner, d, (oldsz + 4095) / 4096, (newsz + 4095) / 4096)
      ensures sz == 0 ==> Grew(old(owner), owner, d) && SameViews(old(mem), mem, old(owner)) && Kept(old(mem), old(owner), mem, owner, d)
    {
      hide TablesOk, UsersOk, FreeOk, Raw, View, SameRaw, Zeros, Extended, PageAdded, SameViews, Kept, Grew, RoundUp, Need, RowStep, Present;
      ghost var m0, o0 := mem, owner;
      ghost var lo, hi := (oldsz + 4095) / 4096, (newsz + 4095) / 4096;
      Unchanged(mem, owner, d, lo);
      if newsz >= 0x8000_0000 { return 0; }
      if newsz < oldsz { return oldsz; }
      var a := RoundUp(oldsz);
      RoundUpPage(oldsz);
      ghost var k := lo;
      while a < newsz
        invariant a % 4096 == 0 && a == k * 4096 && lo <= k && (k <= hi || k == lo)
        invariant Inv() && |owner| == NFRAMES && owner[d] == Dir && Extended(m0, o0, mem, owner, d, lo, k)
        invariant |free| - Need(mem[d], k, hi) == |old(free)| - Need(m0[d], lo, hi)
        invariant k == lo ==> mem == m0 && owner == o0
      {
        ghost var m1, o1 := mem, owner;
        NeedAt(mem[d], k, hi);
        var f := KAlloc();
        if f == 0 {
          var _ := DeallocUvm(d, newsz, oldsz);
          ExtendUndone(m0, o0, m1, o1, mem, owner, d, lo, k, hi);
          return 0;
        }
        ExtendedAt(m0, o0, m1, o1, d, lo, k, k);
        var ok := FillAndMap(d, a / 4096, f, Zeros(), 6, m1, o1);
        if !ok {
          ghost var m2, o2 := mem, owner;
          LooseExtended(m0, o0, m1, o1, m2, o2, f, d, lo, k);
          var _ := DeallocUvm(d, newsz, oldsz);
          ghost var m3, o3 := mem, owner;
          ReleasedAt(o2, o3, d, lo, hi, f);
          KFree(f);
          LooseFreed(m2, o2, m3, o3, mem, f, d, lo, hi);
          ExtendUndone(m0, o0, m2, o2[f := Free], mem, owner, d, lo, k, hi);
          return 0;
        }
        ExtendStep(m0, o0, m1, o1, mem, owner, d, lo, k);
        NeedStep(m1[d], mem[d], k, hi);
        a := a + 4096;
        k := k + 1;
      }
      NeedNone(mem[d], k, hi);
      return newsz;
    }

    // -------------------------------------------------------------- copyuvm

    /** A copy of address space s up to sz bytes.  It takes 65 pages for the kernel part, one for each page
        copied and one for each table to them; 0 exactly if there are fewer, and then every page is back
        where it was.  The pages below sz must be there. */
    method CopyUvm(s: int, sz: int, data: int) returns (d: int)
      requires Inv() && DataSegment(data) && 0 <= s < NFRAMES && owner[s] == Dir && 0 <= sz <= 0x8000_0000
      requires forall v :: 0 <= v < (sz + 4095) / 4096 ==> View(mem, s, v) != 0
      modifies this
      ensures Inv() && SameViews(old(mem), mem, old(owner))
      ensures d == 0 <==> |old(free)| < 65 + TableCount((sz + 4095) / 4096)
      ensures d == 0 ==> owner == old(owner) && forall f :: 0 <= f < NFRAMES && owner[f] != Free ==> mem[f] == old(mem)[f]
      ensures d != 0 ==> Apart(old(mem), old(owner), mem, owner, d) && Copied(old(mem), s, mem, owner, d, (sz + 4095) / 4096, data)
    {
      hide TablesOk, UsersOk, FreeOk, Raw, View, FrameOf, FlagsOf, KernelView, SameViews, SameRaw, PageOf, Copied, PageAdded, Kept, Grew, DataSegment, Present, Need, RowStep, TableCount;
      ghost var m0, o0 := mem, owner;
      d := SetupKvm(data);
      ghost var n := (sz + 4095) / 4096;
      TableCountPositive(n);
      if d == 0 { return; }
      NeedFresh(mem[d], n);
      CopiedNone(m0, s, mem, owner, d, data);
      var i := 0;
      ghost var k := 0;
      while i < sz
        invariant i == k * 4096 && 0 <= k <= (sz + 4095) / 4096
        invariant Inv() && Apart(m0, o0, mem, owner, d) && Copied(m0, s, mem, owner, d, k, data)
        invariant |free| - Need(mem[d], k, n) == |old(free)| - 65 - TableCount(n)
      {
        ghost var m1, o1 := mem, owner;
        CopiedAt(m0, s, mem, owner, d, k, data);
        NeedAt(mem[d], k, n);
        var r := CopyPage(s, d, i, m0, o0);
        if r != 0 {
          ghost var m2, o2 := mem, owner;
          FreeVm(d);
          ApartFreed(m0, o0, m2, o2, mem, owner, d);
          return 0;
        }
        ApartPageAdded(m0, o0, m1, o1, mem, owner, d, k, PageOf(m0, s, k), FlagsOf(View(m0, s, k)));
        CopyStep(m0, s, m1, o1, mem, owner, d, k, data);
        NeedStep(m1[d], mem[d], k, n);
        i := i + 4096;
        k := k + 1;
      }
      NeedNone(mem[d], k, n);
    }

    /** One turn of the loop in copyuvm, at address i. */
    method CopyPage(s: int, d: int, i: int, ghost m0: Mem, ghost o0: Owner) returns (r: int)
      requires Inv() && Sized(m0, o0) && UsersOk(m0, o0) && Apart(m0, o0, mem, owner, d)
      requires 0 <= s < NFRAMES && o0[s] == Dir && 0 <= i < 0x8000_0000 && i % 4096 == 0
      requires View(m0, s, i / 4096) != 0 && View(mem, d, i / 4096) == 0
      modifies this
      ensures Inv() && (r == 0 <==> |old(free)| >= if Present(old(mem)[d][i / 4096 / WORDS]) then 1 else 2)
      ensures r == 0 ==> RowStep(old(mem)[d], mem[d], i / 4096 / WORDS, true) && |free| == |old(free)| - if Present(old(mem)[d][i / 4096 / WORDS]) then 1 else 2
      ensures r == 0 ==> PageAdded(old(mem), old(owner), mem, owner, d, i / 4096, PageOf(m0, s, i / 4096), FlagsOf(View(m0, s, i / 4096)))
      ensures r != 0 ==> Apart(m0, o0, mem, owner, d)
    {
      hide TablesOk, UsersOk, FreeOk, Raw, View, FrameOf, FlagsOf, SameViews, SameRaw, PageOf, PageAdded, Kept, Grew, Present, OrPresent;
      ghost var m1, o1, v := mem, owner, i / 4096;
      SourcePage(m0, o0, mem, owner, d, s, v);
      ViewPresent(m0, s, v);
      var pte := WalkEntry(s, i);
      var pa, flags := FrameOf(pte), FlagsOf(pte);
      var f := KAlloc();
      if f == 0 { return -1; }
      var ok := FillAndMap(d, i / 4096, f, mem[pa], flags, m1, o1);
      if !ok {
        ghost var m2, o2 := mem, owner;
        GrewOther(o1, o2, f, d);
        KFree(f);
        LooseApart(m0, o0, m1, o1, m2, o2, mem, f, d);
        return -1;
      }
      return 0;
    }

    /** The entry for address i, which must be present. */
    method WalkEntry(d: int, i: int) returns (pte: int)
      requires Inv() && 0 <= d < NFRAMES && owner[d] == Dir && 0 <= i < 0x8000_0000 && View(mem, d, i / 4096) != 0
      modifies this
      ensures Inv() && mem == old(mem) && owner == old(owner) && free == old(free)
      ensures pte == View(mem, d, i / 4096) && 0 <= FlagsOf(pte) < 4096
    {
      hide TablesOk, UsersOk, FreeOk, RolesOk, SameRaw, Grew, Kept, Raw;
      RawThroughTable(mem, owner, d, i / 4096);
      var t := WalkPgdir(d, i / 4096, false);
      pte := mem[t][i / 4096 % WORDS];
    }
  }
}
