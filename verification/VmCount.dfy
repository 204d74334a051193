/** How many pages the operations of vm.c take: for each page of a range one, and one for each table that
    the directory lacks. */
module VmCount {
  import opened VmSpec

  /** The directory entries from i up to j that have no table. */
  ghost function Missing(row: seq<int>, i: int, j: int): nat
    decreases j - i
  {
    if i >= j then 0 else (if 0 <= i < |row| && !Present(row[i]) then 1 else 0) + Missing(row, i + 1, j)
  }

  /** The directory entries that lead to the pages from lo up to hi end before this one. */
  function Until(hi: int): int { (hi - 1) / WORDS + 1 }

  /** The pages needed to map the pages from lo up to hi to fresh pages. */
  ghost function Need(row: seq<int>, lo: int, hi: int): int {
    if lo >= hi then 0 else hi - lo + Missing(row, lo / WORDS, Until(hi))
  }

  /** Directory entry x has a table now, if it is to have one, and all else is as it was. */
  ghost predicate RowStep(r: seq<int>, r': seq<int>, x: int, has: bool) {
    && |r'| == |r| && 0 <= x < |r| && (forall k :: 0 <= k < |r| && k != x ==> r'[k] == r[k])
    && (Present(r[x]) ==> r'[x] == r[x]) && (Present(r'[x]) <==> has || Present(r[x]))
  }

  /** Only entries from i up to j changed, and none lost its table. */
  ghost predicate RowGrew(r: seq<int>, r': seq<int>, i: int, j: int) {
    && |r'| == |r| && (forall k :: 0 <= k < |r| && (k < i || k >= j) ==> r'[k] == r[k])
    && forall k :: 0 <= k < |r| && Present(r[k]) ==> r'[k] == r[k]
  }

  lemma {:induction false} MissingSame(r: seq<int>, r': seq<int>, i: int, j: int)
    requires |r'| == |r| && forall k :: i <= k < j && 0 <= k < |r| ==> (Present(r'[k]) <==> Present(r[k]))
    ensures Missing(r', i, j) == Missing(r, i, j)
    decreases j - i
  {
    hide Present;
    if i < j { MissingSame(r, r', i + 1, j); }
  }

  lemma {:induction false} MissingSplit(r: seq<int>, i: int, k: int, j: int)
    requires i <= k <= j
    ensures Missing(r, i, j) == Missing(r, i, k) + Missing(r, k, j)
    decreases k - i
  {
    hide Present;
    if i < k { MissingSplit(r, i + 1, k, j); }
  }

  lemma {:induction false} MissingAll(r: seq<int>, i: int, j: int)
    requires 0 <= i <= j <= |r| && forall k :: i <= k < j ==> !Present(r[k])
    ensures Missing(r, i, j) == j - i
    decreases j - i
  {
    hide Present;
    if i < j { MissingAll(r, i + 1, j); }
  }

  lemma {:induction false} MissingNone(r: seq<int>, i: int, j: int)
    requires 0 <= i && j <= |r| && forall k :: i <= k < j ==> Present(r[k])
    ensures Missing(r, i, j) == 0
    decreases j - i
  {
    hide Present;
    if i < j { MissingNone(r, i + 1, j); }
  }

  lemma {:induction false} MissingAtMost(r: seq<int>, i: int, j: int)
    ensures i <= j ==> Missing(r, i, j) <= j - i
    decreases j - i
  {
    hide Present;
    if i < j { MissingAtMost(r, i + 1, j); }
  }

  /** A table made at x is one missing less, in any range that x lies in. */
  lemma MissingLess(r: seq<int>, r': seq<int>, x: int, has: bool, i: int, j: int)
    requires RowStep(r, r', x, has) && i <= x < j
    ensures Missing(r', i, j) == Missing(r, i, j) - (if has && !Present(r[x]) then 1 else 0)
  {
    hide Present;
    MissingSplit(r, i, x, j);
    MissingSplit(r', i, x, j);
    MissingSame(r, r', i, x);
    MissingSame(r, r', x + 1, j);
  }

  /** One page further in a range: one page and perhaps a table less to come. */
  lemma NeedStep(r: seq<int>, r': seq<int>, v: int, hi: int)
    requires 0 <= v < hi <= WORDS * |r| && RowStep(r, r', v / WORDS, true)
    ensures Need(r', v + 1, hi) == Need(r, v, hi) - 1 - (if Present(r[v / WORDS]) then 0 else 1)
  {
    hide Present;
    var x, j := v / WORDS, Until(hi);
    StepIndex(v, hi);
    MissingLess(r, r', x, true, x, j);
    assert Missing(r', x, j) == Missing(r', x + 1, j);
  }

  lemma StepIndex(v: int, hi: int)
    requires 0 <= v < hi
    ensures v / WORDS < Until(hi) && ((v + 1) / WORDS == v / WORDS || (v + 1) / WORDS == v / WORDS + 1)
    ensures v + 1 == hi ==> Until(hi) == v / WORDS + 1
  {
  }

  // ---------------------------------------------------------------- mappages

  /** In the middle of mapping the pages from v0 up to end, at v: what was taken from the free list, which
      held n0 pages and holds n, is what is no longer missing. */
  ghost predicate Taking(r0: seq<int>, n0: int, r: seq<int>, n: int, v0: int, v: int, end: int) {
    && |r0| == |r| == WORDS && 0 <= v0 <= v <= end <= PAGES && v0 < end
    && RowGrew(r0, r, v0 / WORDS, Until(end))
    && n - Missing(r, v / WORDS, Until(end)) == n0 - Missing(r0, v0 / WORDS, Until(end))
    && (v > v0 ==> forall x :: v0 / WORDS <= x <= (v - 1) / WORDS ==> Present(r[x]))
  }

  /** Mapping the pages from v0 to last takes the tables that the directory lacks for them, and succeeds
      exactly if there are as many free pages; else it has used them all up. */
  ghost predicate Took(r0: seq<int>, n0: int, r: seq<int>, n: int, v0: int, last: int, ok: bool) {
    && |r0| == |r| && RowGrew(r0, r, v0 / WORDS, last / WORDS + 1)
    && (ok <==> n0 >= Missing(r0, v0 / WORDS, last / WORDS + 1))
    && (if ok then n == n0 - Missing(r0, v0 / WORDS, last / WORDS + 1) && forall x :: v0 / WORDS <= x <= last / WORDS && 0 <= x < |r| ==> Present(r[x])
        else n == 0 && Missing(r, v0 / WORDS, last / WORDS + 1) == Missing(r0, v0 / WORDS, last / WORDS + 1) - n0)
  }

  lemma TakingNone(r: seq<int>, n: int, v0: int, end: int)
    requires |r| == WORDS && 0 <= v0 < end <= PAGES
    ensures Taking(r, n, r, n, v0, v0, end)
  {
    hide Present, Missing;
  }

  lemma TakingMore(r0: seq<int>, n0: int, r1: seq<int>, n1: int, r: seq<int>, n: int, v0: int, v: int, end: int)
    requires Taking(r0, n0, r1, n1, v0, v, end) && v < end && RowStep(r1, r, v / WORDS, true)
    requires n == n1 - if Present(r1[v / WORDS]) then 0 else 1
    ensures Taking(r0, n0, r, n, v0, v + 1, end)
  {
    hide Present, Missing;
    var x, j := v / WORDS, Until(end);
    StepIndex(v, end);
    assert v0 / WORDS <= x;
    MissingLess(r1, r, x, true, x, j);
    MissingFirst(r, x, j);
    if v + 1 == end { MissingEmpty(r, (v + 1) / WORDS, j); MissingEmpty(r, x + 1, j); }
    assert (v - 1) / WORDS >= x - 1;
  }

  lemma MissingFirst(r: seq<int>, x: int, j: int)
    requires 0 <= x < |r| && x < j && Present(r[x])
    ensures Missing(r, x, j) == Missing(r, x + 1, j)
  {
  }

  lemma MissingEmpty(r: seq<int>, x: int, j: int)
    ensures x >= j ==> Missing(r, x, j) == 0
  {
  }

  /** What is present does not count. */
  lemma MissingBehind(r: seq<int>, i: int, x: int, j: int)
    requires 0 <= i <= x <= j <= |r| && forall k :: i <= k < x ==> Present(r[k])
    ensures Missing(r, i, j) == Missing(r, x, j)
  {
    hide Present, Missing;
    MissingSplit(r, i, x, j);
    MissingNone(r, i, x);
  }

  lemma TookNot(r0: seq<int>, n0: int, r1: seq<int>, r: seq<int>, v0: int, v: int, end: int)
    requires Taking(r0, n0, r1, 0, v0, v, end) && v < end && RowStep(r1, r, v / WORDS, false) && !Present(r1[v / WORDS])
    ensures Took(r0, n0, r, 0, v0, end - 1, false)
  {
    hide Present, Missing;
    var i, x, j := v0 / WORDS, v / WORDS, Until(end);
    StepIndex(v, end);
    MissingSame(r1, r, x, j);
    MissingLess(r1, r1, x, false, x, j);
    AbsentCounts(r1, x, j);
    assert (v - 1) / WORDS >= x - 1;
    MissingBehind(r, i, x, j);
  }

  lemma AbsentCounts(r: seq<int>, x: int, j: int)
    requires 0 <= x < |r| && x < j && !Present(r[x])
    ensures Missing(r, x, j) > 0
  {
  }

  lemma TookAll(r0: seq<int>, n0: int, r: seq<int>, n: int, v0: int, end: int)
    requires Taking(r0, n0, r, n, v0, end, end) && n >= 0
    ensures Took(r0, n0, r, n, v0, end - 1, true)
  {
    hide Present, Missing;
    var x, j := end / WORDS, Until(end);
    if x < j {
      assert x == j - 1 == (end - 1) / WORDS;
      MissingFirst(r, x, j);
      MissingEmpty(r, x + 1, j);
    } else {
      MissingEmpty(r, x, j);
    }
  }

  lemma TookOne(r0: seq<int>, n0: int, r: seq<int>, n: int, v: int, ok: bool)
    requires Took(r0, n0, r, n, v, v, ok) && |r0| == WORDS && 0 <= v < PAGES && n0 >= 0
    ensures ok <==> Present(r0[v / WORDS]) || n0 > 0
    ensures ok ==> RowStep(r0, r, v / WORDS, true) && n == n0 - if Present(r0[v / WORDS]) then 0 else 1
  {
    hide Present;
    var x := v / WORDS;
    assert Missing(r0, x, x + 1) == (if Present(r0[x]) then 0 else 1) + Missing(r0, x + 1, x + 1);
  }

  // ---------------------------------------------------------------- pages and their tables

  lemma NeedAt(row: seq<int>, k: int, hi: int)
    requires |row| == WORDS && 0 <= k < hi <= PAGES
    ensures Need(row, k, hi) >= 1 + if Present(row[k / WORDS]) then 0 else 1
  {
    hide Present;
    StepIndex(k, hi);
    if !Present(row[k / WORDS]) { AbsentCounts(row, k / WORDS, Until(hi)); }
  }

  lemma NeedNone(row: seq<int>, k: int, hi: int)
    requires k >= hi
    ensures Need(row, k, hi) == 0
  {
  }

  /** n pages and the tables to them. */
  function TableCount(n: int): int { if n <= 0 then 0 else n + Until(n) }

  lemma TableCountPositive(n: int)
    ensures TableCount(n) >= 0
  {
  }

  lemma NeedFresh(row: seq<int>, n: int)
    requires |row| == WORDS && 0 <= n <= USERPAGES && forall x :: 0 <= x < USERPAGES / WORDS ==> !Present(row[x])
    ensures Need(row, 0, n) == TableCount(n)
  {
    hide Present, Missing;
    if n > 0 { MissingAll(row, 0, Until(n)); }
  }

  // ---------------------------------------------------------------- setupkvm

  /** The directory entries that the kernel part needs: 56 for physical memory, 8 for the devices. */
  predicate InKernel(x: int) { 512 <= x < 568 || 1016 <= x < 1024 }

  ghost function KernelMissing(row: seq<int>): int { Missing(row, 512, 568) + Missing(row, 1016, 1024) }

  /** The directory has tables for kernel entries only, and they and the directory itself are what was
      taken of n0 free pages. */
  ghost predicate KernelOnly(row: seq<int>, n: int, n0: int) {
    && |row| == WORDS && n >= 0 && n == n0 - 1 - (64 - KernelMissing(row))
    && forall x :: 0 <= x < WORDS && Present(row[x]) ==> InKernel(x)
  }

  lemma KernelNone(row: seq<int>, n: int)
    requires row == Zeros() && n >= 0
    ensures KernelOnly(row, n, n + 1)
  {
    hide Missing;
    MissingAll(row, 512, 568);
    MissingAll(row, 1016, 1024);
  }

  /** What a row of the kernel map takes. */
  lemma RowTakes(r0: seq<int>, n1: int, r: seq<int>, n: int, n0: int, data: int, k: int, ok: bool)
    requires DataSegment(data) && 0 <= k < 4 && KernelOnly(r0, n1, n0)
    requires Took(r0, n1, r, n, FirstPage(Kmaps(data)[k]), LastPage(Kmaps(data)[k]), ok)
    ensures if ok then KernelOnly(r, n, n0) else n0 < 65
  {
    hide Present, Missing, Kmaps, FirstPage, LastPage, DataSegment;
    var a, b := FirstPage(Kmaps(data)[k]), LastPage(Kmaps(data)[k]);
    RowIndexes(data, k);
    var i, j := a / WORDS, b / WORDS + 1;
    if k < 3 { Within(r0, r, 512, i, j, 568); Apartness(r0, r, i, j, 1016, 1024); } else { Within(r0, r, 1016, i, j, 1024); Apartness(r0, r, i, j, 512, 568); }
    if ok { MissingNone(r, i, j); }
    forall x | 0 <= x < WORDS && Present(r[x]) ensures InKernel(x) { if x < i || x >= j { assert r[x] == r0[x]; } }
  }

  lemma RowIndexes(data: int, k: int)
    requires DataSegment(data) && 0 <= k < 4
    ensures var a, b := FirstPage(Kmaps(data)[k]), LastPage(Kmaps(data)[k]);
      a <= b && if k < 3 then 512 <= a / WORDS <= b / WORDS < 568 else a / WORDS == 1016 && b / WORDS == 1023
  {
    hide Kmaps, FirstPage, LastPage;
    RowPages(data, k);
  }

  lemma Within(r0: seq<int>, r: seq<int>, lo: int, i: int, j: int, hi: int)
    requires |r| == |r0| && RowGrew(r0, r, i, j) && 0 <= lo <= i <= j <= hi <= |r|
    ensures Missing(r, lo, hi) - Missing(r, i, j) == Missing(r0, lo, hi) - Missing(r0, i, j) >= 0
  {
    hide Present, Missing;
    MissingSplit(r, lo, i, hi);
    MissingSplit(r, i, j, hi);
    MissingSplit(r0, lo, i, hi);
    MissingSplit(r0, i, j, hi);
    MissingSame(r0, r, lo, i);
    MissingSame(r0, r, j, hi);
  }

  lemma Apartness(r0: seq<int>, r: seq<int>, i: int, j: int, lo: int, hi: int)
    requires |r| == |r0| && RowGrew(r0, r, i, j) && 0 <= lo <= hi <= |r| && (j <= lo || hi <= i)
    ensures Missing(r, lo, hi) == Missing(r0, lo, hi)
  {
    hide Present, Missing;
    MissingSame(r0, r, lo, hi);
  }

  /** Once all four rows are mapped no table of the kernel part is missing. */
  lemma KernelDone(m: Mem, d: int, data: int, n: int, n0: int)
    requires 0 <= d < |m| && KernelOnly(m[d], n, n0) && DataSegment(data) && forall v :: 0 <= v < PAGES ==> View(m, d, v) == KernelRows(data, 4, v)
    ensures n == n0 - 65 && forall x :: 0 <= x < USERPAGES / WORDS ==> !Present(m[d][x])
  {
    hide Present, Missing, Entry, DataSegment;
    forall x | 0 <= x < WORDS && InKernel(x) ensures Present(m[d][x]) { KernelTable(m, d, data, x); }
    MissingNone(m[d], 512, 568);
    MissingNone(m[d], 1016, 1024);
  }

  lemma KernelTable(m: Mem, d: int, data: int, x: int)
    requires 0 <= d < |m| && |m[d]| == WORDS && 0 <= x < WORDS && InKernel(x) && DataSegment(data)
    requires View(m, d, x * WORDS) == KernelRows(data, 4, x * WORDS)
    ensures Present(m[d][x])
  {
    var v := x * WORDS;
    assert v / WORDS == x && KernelRows(data, 4, v) == KernelView(data, v);
    assert KernelView(data, v) != 0;
    assert Present(0) == false;
  }
}
