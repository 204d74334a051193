/** The memory of the user allocator in umalloc.c.  Addresses count headers, that is units of
    8 bytes, and a header is what the allocator reads and writes at an address. */
module UmallocSpec {

  datatype Header = Header(ptr: int, size: int)

  type Mem = map<int, Header>

  function At(m: Mem, a: int): Header { if a in m then m[a] else Header(0, 0) }
  function SetPtr(m: Mem, a: int, p: int): Mem { m[a := At(m, a).(ptr := p)] }
  function SetSize(m: Mem, a: int, n: int): Mem { m[a := At(m, a).(size := n)] }

  function Next(n: nat, i: int): int { if i + 1 < n then i + 1 else 0 }

  /** The address after the block at a. */
  function End(m: Mem, a: int): int { a + At(m, a).size }

  ghost predicate Points(m: Mem, list: seq<int>, i: int)
    requires 0 <= i < |list|
  {
    At(m, list[i]).ptr == list[Next(|list|, i)]
  }

  ghost predicate Fits(m: Mem, list: seq<int>, i: int)
    requires 0 <= i < |list| - 1
  {
    End(m, list[i]) <= list[i + 1]
  }

  /** The free list: circular, in address order from base with one wrap, blocks not overlapping. */
  ghost predicate ListOk(m: Mem, list: seq<int>, base: int) {
    && |list| > 0 && list[0] == base && At(m, base).size == 0
    && (forall i, j :: 0 <= i < j < |list| ==> list[i] < list[j])
    && (forall i :: 0 <= i < |list| ==> Points(m, list, i))
    && (forall i :: 0 < i < |list| ==> At(m, list[i]).size > 0)
    && (forall i :: 0 <= i < |list| - 1 ==> Fits(m, list, i))
  }

  /** There is memory between free block i and the next. */
  ghost predicate Gap(m: Mem, list: seq<int>, i: int)
    requires 0 <= i < |list| - 1
  {
    End(m, list[i]) < list[i + 1]
  }

  /** No two free blocks touch. */
  ghost predicate NoneTouch(m: Mem, list: seq<int>) { forall i :: 0 <= i < |list| - 1 ==> Gap(m, list, i) }

  /** No two free blocks touch, unless they are blocks a and a + 1, or b and b + 1. */
  ghost predicate TouchOnly(m: Mem, list: seq<int>, a: int, b: int) {
    forall i :: 0 <= i < |list| - 1 && i != a && i != b ==> Gap(m, list, i)
  }

  ghost predicate IsBlock(list: seq<int>, live: map<int, int>, base: int, b: int) {
    (b in list && b != base) || b in live
  }

  ghost predicate Covers(m: Mem, owner: map<int, int>, b: int) {
    forall u :: b <= u < End(m, b) ==> u in owner && owner[u] == b
  }

  ghost predicate Lies(m: Mem, list: seq<int>, live: map<int, int>, owner: map<int, int>, base: int, u: int)
    requires u in owner
  {
    base < u && IsBlock(list, live, base, owner[u]) && owner[u] <= u < End(m, owner[u])
  }

  /** owner maps each unit obtained from the system to the block it lies in.  Blocks are free or live,
      not both; they are made of units obtained, and every unit lies in one. */
  ghost predicate CoverOk(m: Mem, list: seq<int>, live: map<int, int>, owner: map<int, int>, base: int) {
    && (forall b :: b in live ==> b !in list)
    && (forall b :: b in live ==> live[b] > 0 && At(m, b).size == live[b])
    && (forall b :: IsBlock(list, live, base, b) ==> Covers(m, owner, b))
    && (forall u :: u in owner ==> Lies(m, list, live, owner, base, u))
  }

  /** Where a block at address b belongs: after the last free block below it. */
  ghost predicate Place(list: seq<int>, i: int, b: int) {
    0 <= i < |list| && list[i] < b && (i + 1 < |list| ==> b < list[i + 1])
  }

  lemma {:induction false} FindPlace(list: seq<int>, b: int) returns (i: int)
    requires |list| > 0 && list[0] < b && b !in list
    ensures Place(list, i, b)
  {
    if list[|list| - 1] < b {
      i := |list| - 1;
    } else {
      assert |list| > 1;
      i := FindPlace(list[..|list| - 1], b);
    }
  }

  // ---------------------------------------------------------------- linking and merging

  /** A live block lies apart from every free one. */
  lemma LiveApart(m: Mem, list: seq<int>, live: map<int, int>, owner: map<int, int>, base: int, i: int, b: int)
    requires ListOk(m, list, base) && CoverOk(m, list, live, owner, base) && b in live && Place(list, i, b)
    ensures base < b && End(m, list[i]) <= b && (i + 1 < |list| ==> End(m, b) <= list[i + 1]) && At(m, b).size > 0 && b !in list
  {
    assert IsBlock(list, live, base, b) && Covers(m, owner, b);
    assert owner[b] == b && Lies(m, list, live, owner, base, b);
    if i > 0 { assert IsBlock(list, live, base, list[i]) && Covers(m, owner, list[i]); }
    if i + 1 < |list| {
      var q := list[i + 1];
      assert q != base && IsBlock(list, live, base, q) && Covers(m, owner, q);
      assert q in owner && owner[q] == q;
    }
  }

  function Linked(m: Mem, p: int, b: int): Mem { SetPtr(SetPtr(m, b, At(m, p).ptr), p, b) }

  function With(list: seq<int>, i: int, b: int): (r: seq<int>)
    requires 0 <= i < |list|
    ensures |r| == |list| + 1 && r[i + 1] == b
    ensures forall k :: 0 <= k <= i ==> r[k] == list[k]
    ensures forall k :: i + 1 < k <= |list| ==> r[k] == list[k - 1]
  {
    list[..i + 1] + [b] + list[i + 1..]
  }

  /** Linking a live block where it belongs makes it a free one. */
  lemma Link(m: Mem, list: seq<int>, live: map<int, int>, owner: map<int, int>, base: int, i: int, b: int)
    requires ListOk(m, list, base) && CoverOk(m, list, live, owner, base) && b in live && Place(list, i, b)
    ensures ListOk(Linked(m, list[i], b), With(list, i, b), base)
    ensures NoneTouch(m, list) ==> TouchOnly(Linked(m, list[i], b), With(list, i, b), i, i + 1)
    ensures CoverOk(Linked(m, list[i], b), With(list, i, b), live - {b}, owner, base)
  {
    LiveApart(m, list, live, owner, base, i, b);
    LinkList(m, list, base, i, b);
    LinkCover(m, list, live, owner, base, i, b);
  }

  lemma LinkList(m: Mem, list: seq<int>, base: int, i: int, b: int)
    requires ListOk(m, list, base) && Place(list, i, b) && At(m, b).size > 0 && b !in list
    requires End(m, list[i]) <= b && (i + 1 < |list| ==> End(m, b) <= list[i + 1])
    ensures ListOk(Linked(m, list[i], b), With(list, i, b), base)
    ensures NoneTouch(m, list) ==> TouchOnly(Linked(m, list[i], b), With(list, i, b), i, i + 1)
  {
    hide With;
    var m', list' := Linked(m, list[i], b), With(list, i, b);
    forall j, k | 0 <= j < k < |list'| ensures list'[j] < list'[k] {
      OrderAt(list, i, b, j, k);
    }
    forall k | 0 < k < |list'| ensures At(m', list'[k]).size > 0 {
      assert k != i + 1 ==> list'[k] == list[if k <= i then k else k - 1];
    }
    forall k | 0 <= k < |list'| ensures Points(m', list', k) && (k < |list| ==> Fits(m', list', k)) {
      LinkAt(m, list, base, i, b, k);
    }
    if NoneTouch(m, list) {
      forall k | 0 <= k < |list| && k != i && k != i + 1 ensures Gap(m', list', k) {
        LinkAt(m, list, base, i, b, k);
      }
    }
  }

  lemma OrderAt(list: seq<int>, i: int, b: int, j: int, k: int)
    requires Place(list, i, b) && 0 <= j < k <= |list| && forall x, y :: 0 <= x < y < |list| ==> list[x] < list[y]
    ensures With(list, i, b)[j] < With(list, i, b)[k]
  {
  }

  lemma LinkAt(m: Mem, list: seq<int>, base: int, i: int, b: int, k: int)
    requires ListOk(m, list, base) && Place(list, i, b) && At(m, b).size > 0 && b !in list
    requires End(m, list[i]) <= b && (i + 1 < |list| ==> End(m, b) <= list[i + 1]) && 0 <= k <= |list|
    ensures var m' := Linked(m, list[i], b); var list' := With(list, i, b);
      && |list'| == |list| + 1 && Points(m', list', k) && (k < |list| ==> Fits(m', list', k))
      && (NoneTouch(m, list) && k < |list| && k != i && k != i + 1 ==> Gap(m', list', k))
  {
    hide With;
    assert Points(m, list, i);
    var m', list' := Linked(m, list[i], b), With(list, i, b);
    assert list'[0] == list[0] && list'[i] == list[i] && list'[i + 1] == b;
    if k < i {
      assert list'[k] == list[k] && list'[k + 1] == list[k + 1] && list[k] < list[i];
      assert Points(m, list, k) && Fits(m, list, k);
      if NoneTouch(m, list) { assert Gap(m, list, k); }
    } else if k > i + 1 {
      assert list'[k] == list[k - 1] && list[i] < list[k - 1];
      assert Points(m, list, k - 1);
      if k < |list| {
        assert list'[k + 1] == list[k];
        assert Fits(m, list, k - 1);
        if NoneTouch(m, list) { assert Gap(m, list, k - 1); }
      }
    }
  }

  lemma WithAll(list: seq<int>, i: int, b: int)
    requires 0 <= i < |list|
    ensures forall x :: x in With(list, i, b) <==> x in list || x == b
  {
    var r := With(list, i, b);
    forall x ensures x in r <==> x in list || x == b {
      if x in list {
        var k :| 0 <= k < |list| && list[k] == x;
        assert r[if k <= i then k else k + 1] == x;
      }
      if x == b { assert r[i + 1] == b; }
    }
  }

  lemma LinkCover(m: Mem, list: seq<int>, live: map<int, int>, owner: map<int, int>, base: int, i: int, b: int)
    requires ListOk(m, list, base) && CoverOk(m, list, live, owner, base) && b in live && Place(list, i, b) && b != base
    ensures CoverOk(Linked(m, list[i], b), With(list, i, b), live - {b}, owner, base)
  {
    hide With, ListOk;
    WithAll(list, i, b);
    CoverSame(m, list, live, owner, base, Linked(m, list[i], b), With(list, i, b), live - {b});
  }

  /** The cover depends on which blocks there are and on their sizes. */
  lemma CoverSame(m: Mem, list: seq<int>, live: map<int, int>, owner: map<int, int>, base: int, m': Mem, list': seq<int>, live': map<int, int>)
    requires CoverOk(m, list, live, owner, base)
    requires forall x :: IsBlock(list', live', base, x) <==> IsBlock(list, live, base, x)
    requires forall x :: At(m', x).size == At(m, x).size
    requires forall b :: b in live' ==> b !in list' && live'[b] > 0 && At(m', b).size == live'[b]
    ensures CoverOk(m', list', live', owner, base)
  {
    hide IsBlock, At;
    forall b | IsBlock(list', live', base, b) ensures Covers(m', owner, b) { assert Covers(m, owner, b); }
    forall u | u in owner ensures Lies(m', list', live', owner, base, u) { assert Lies(m, list, live, owner, base, u); }
  }

  /** Free block p takes in the next one, which it touches. */
  function Merged(m: Mem, p: int): Mem {
    var q := At(m, p).ptr;
    SetPtr(SetSize(m, p, At(m, p).size + At(m, q).size), p, At(m, q).ptr)
  }

  function Without(list: seq<int>, k: int): (r: seq<int>)
    requires 0 <= k < |list|
    ensures |r| == |list| - 1
    ensures forall j :: 0 <= j < k ==> r[j] == list[j]
    ensures forall j :: k <= j < |r| ==> r[j] == list[j + 1]
  {
    list[..k] + list[k + 1..]
  }

  lemma WithoutIn(list: seq<int>, k: int)
    requires 0 <= k < |list| && forall i, j :: 0 <= i < j < |list| ==> list[i] < list[j]
    ensures forall x :: x in Without(list, k) <==> x in list && x != list[k]
  {
    var r := Without(list, k);
    forall x ensures x in r <==> x in list && x != list[k] {
      if x in list && x != list[k] {
        var j :| 0 <= j < |list| && list[j] == x;
        assert r[if j < k then j else j - 1] == x;
      }
      if x in r {
        var j :| 0 <= j < |r| && r[j] == x;
        assert if j < k then list[j] < list[k] else list[k] < list[j + 1];
      }
    }
  }

  /** The units of block q now belong to block p. */
  ghost function Moved(owner: map<int, int>, q: int, p: int): (r: map<int, int>)
    ensures r.Keys == owner.Keys && forall u :: u in owner ==> r[u] == if owner[u] == q then p else owner[u]
  {
    map u | u in owner :: if owner[u] == q then p else owner[u]
  }

  lemma WithoutOrder(list: seq<int>, k: int, i: int, j: int)
    requires 0 <= k < |list| && 0 <= i < j < |list| - 1 && forall x, y :: 0 <= x < y < |list| ==> list[x] < list[y]
    ensures Without(list, k)[i] < Without(list, k)[j]
  {
  }

  /** Merging block k with the next removes one place where blocks touch. */
  lemma Merge(m: Mem, list: seq<int>, live: map<int, int>, owner: map<int, int>, base: int, k: int, a: int)
    requires ListOk(m, list, base) && CoverOk(m, list, live, owner, base)
    requires 0 <= k < |list| - 1 && End(m, list[k]) == list[k + 1] && TouchOnly(m, list, a, k) && (a == k - 1 || a == -1)
    ensures var m', list' := Merged(m, list[k]), Without(list, k + 1);
      ListOk(m', list', base) && CoverOk(m', list', live, Moved(owner, list[k + 1], list[k]), base) && TouchOnly(m', list', a, -1)
  {
    hide Merged, Without, CoverOk, Moved;
    assert k > 0 by { assert list[0] < list[k + 1]; }
    MergeList(m, list, base, k, a);
    MergeCover(m, list, live, owner, base, k);
  }

  lemma MergeList(m: Mem, list: seq<int>, base: int, k: int, a: int)
    requires ListOk(m, list, base) && 0 < k < |list| - 1 && End(m, list[k]) == list[k + 1] && TouchOnly(m, list, a, k) && (a == k - 1 || a == -1)
    ensures ListOk(Merged(m, list[k]), Without(list, k + 1), base) && TouchOnly(Merged(m, list[k]), Without(list, k + 1), a, -1)
  {
    hide Merged, Without, Gap, At;
    var m', list' := Merged(m, list[k]), Without(list, k + 1);
    forall i, j | 0 <= i < j < |list'| ensures list'[i] < list'[j] { WithoutOrder(list, k + 1, i, j); }
    forall j | 0 <= j < |list'| ensures Points(m', list', j) { MergeAt(m, list, base, k, j); }
    forall j | 0 < j < |list'| ensures At(m', list'[j]).size > 0 { MergeAt(m, list, base, k, j); }
    forall j | 0 <= j < |list'| - 1 ensures Fits(m', list', j) && (j != a ==> Gap(m', list', j)) {
      MergeAt(m, list, base, k, j);
      assert j != a ==> if j < k then Gap(m, list, j) else Gap(m, list, j + 1);
    }
    MergeAt(m, list, base, k, 0);
    assert list'[0] == list[0];
  }

  lemma MergeAt(m: Mem, list: seq<int>, base: int, k: int, j: int)
    requires ListOk(m, list, base) && 0 < k < |list| - 1 && End(m, list[k]) == list[k + 1] && 0 <= j < |list| - 1
    ensures var m', list' := Merged(m, list[k]), Without(list, k + 1);
      && Points(m', list', j) && (j > 0 ==> At(m', list'[j]).size > 0) && (j == 0 ==> At(m', base).size == 0)
      && (j < |list'| - 1 ==> Fits(m', list', j) && ((if j < k then Gap(m, list, j) else Gap(m, list, j + 1)) ==> Gap(m', list', j)))
  {
    hide Without;
    var m', list' := Merged(m, list[k]), Without(list, k + 1);
    assert Points(m, list, k) && Points(m, list, k + 1) && At(m, list[k + 1]).size > 0 && At(m, list[k]).size > 0;
    assert list'[0] == list[0] && list'[k] == list[k];
    if j < k {
      assert list'[j] == list[j] && list'[j + 1] == list[j + 1] && list[j] < list[k];
      assert Points(m, list, j) && Fits(m, list, j);
    } else if j == k {
      if k + 2 < |list| { assert list'[k + 1] == list[k + 2] && Fits(m, list, k + 1); }
    } else {
      assert list'[j] == list[j + 1] && list[k] < list[j + 1];
      assert Points(m, list, j + 1);
      if j < |list'| - 1 { assert list'[j + 1] == list[j + 2] && Fits(m, list, j + 1); }
    }
  }

  lemma MergeCover(m: Mem, list: seq<int>, live: map<int, int>, owner: map<int, int>, base: int, k: int)
    requires ListOk(m, list, base) && CoverOk(m, list, live, owner, base)
    requires 0 < k < |list| - 1 && End(m, list[k]) == list[k + 1]
    ensures CoverOk(Merged(m, list[k]), Without(list, k + 1), live, Moved(owner, list[k + 1], list[k]), base)
  {
    hide Without;
    var p, q := list[k], list[k + 1];
    assert list[0] < p < q && Points(m, list, k);
    WithoutIn(list, k + 1);
    assert IsBlock(list, live, base, p) && IsBlock(list, live, base, q);
    MergeCoverOn(m, list, live, owner, base, p, q, Merged(m, p), Without(list, k + 1));
  }

  lemma MergeCoverOn(m: Mem, list: seq<int>, live: map<int, int>, owner: map<int, int>, base: int, p: int, q: int, m': Mem, list': seq<int>)
    requires CoverOk(m, list, live, owner, base) && base < p < q && p in list && q in list && End(m, p) == q && p !in live
    requires At(m, q).size > 0 && forall x :: x in list' <==> x in list && x != q
    requires At(m', p).size == At(m, p).size + At(m, q).size && forall x :: x != p ==> At(m', x).size == At(m, x).size
    ensures CoverOk(m', list', live, Moved(owner, q, p), base)
  {
    hide Moved, At;
    var owner' := Moved(owner, q, p);
    assert IsBlock(list, live, base, q) && IsBlock(list, live, base, p) && Covers(m, owner, q) && Covers(m, owner, p);
    forall b | IsBlock(list', live, base, b) ensures Covers(m', owner', b) {
      assert IsBlock(list, live, base, b) && b != q && Covers(m, owner, b);
    }
    forall u | u in owner' ensures Lies(m', list', live, owner', base, u) {
      assert Lies(m, list, live, owner, base, u);
    }
  }

  // ---------------------------------------------------------------- taking blocks

  /** Unlinking a free block makes it live. */
  lemma Unlink(m: Mem, list: seq<int>, live: map<int, int>, owner: map<int, int>, base: int, k: int)
    requires ListOk(m, list, base) && NoneTouch(m, list) && CoverOk(m, list, live, owner, base) && 0 < k < |list|
    ensures var m', list' := SetPtr(m, list[k - 1], At(m, list[k]).ptr), Without(list, k);
      && ListOk(m', list', base) && NoneTouch(m', list')
      && CoverOk(m', list', live[list[k] := At(m, list[k]).size], owner, base)
  {
    hide Without, Covers, Lies, Gap;
    var m', list' := SetPtr(m, list[k - 1], At(m, list[k]).ptr), Without(list, k);
    WithoutIn(list, k);
    forall i, j | 0 <= i < j < |list'| ensures list'[i] < list'[j] { WithoutOrder(list, k, i, j); }
    UnlinkAt(m, list, base, k, 0);
    forall j | 0 <= j < |list'| ensures Points(m', list', j) { UnlinkAt(m, list, base, k, j); }
    forall j | 0 < j < |list'| ensures At(m', list'[j]).size > 0 { UnlinkAt(m, list, base, k, j); }
    forall j | 0 <= j < |list'| - 1 ensures Fits(m', list', j) && Gap(m', list', j) { UnlinkAt(m, list, base, k, j); }
    assert list[0] < list[k];
    CoverSame(m, list, live, owner, base, m', list', live[list[k] := At(m, list[k]).size]);
  }

  lemma UnlinkAt(m: Mem, list: seq<int>, base: int, k: int, j: int)
    requires ListOk(m, list, base) && NoneTouch(m, list) && 0 < k < |list| && 0 <= j < |list| - 1
    ensures var m', list' := SetPtr(m, list[k - 1], At(m, list[k]).ptr), Without(list, k);
      && Points(m', list', j) && (j > 0 ==> At(m', list'[j]).size > 0) && At(m', base).size == 0
      && (j < |list'| - 1 ==> Fits(m', list', j) && Gap(m', list', j))
  {
    hide Without;
    var list' := Without(list, k);
    assert Points(m, list, k - 1) && Points(m, list, k) && list'[0] == list[0] && list[k - 1] < list[k];
    if j < k - 1 {
      assert list'[j] == list[j] && list'[j + 1] == list[j + 1] && list[j] < list[k - 1];
      assert Points(m, list, j) && Gap(m, list, j);
    } else if j == k - 1 {
      assert list'[j] == list[j] && Gap(m, list, j);
      if k + 1 < |list| { assert list'[k] == list[k + 1] && list[k] < list[k + 1]; }
    } else {
      assert list'[j] == list[j + 1] && list[k - 1] < list[j + 1];
      assert Points(m, list, j + 1);
      if j < |list'| - 1 { assert list'[j + 1] == list[j + 2] && Gap(m, list, j + 1); }
    }
  }

  /** Memory after the last n units of free block p were split off. */
  function Carved(m: Mem, p: int, n: int): Mem { SetSize(SetSize(m, p, At(m, p).size - n), End(m, p) - n, n) }

  /** The units of block p from b on now belong to block b. */
  ghost function Split(owner: map<int, int>, p: int, b: int): (r: map<int, int>)
    ensures r.Keys == owner.Keys && forall u :: u in owner ==> r[u] == if owner[u] == p && b <= u then b else owner[u]
  {
    map u | u in owner :: if owner[u] == p && b <= u then b else owner[u]
  }

  lemma Carve(m: Mem, list: seq<int>, live: map<int, int>, owner: map<int, int>, base: int, k: int, n: int)
    requires ListOk(m, list, base) && NoneTouch(m, list) && CoverOk(m, list, live, owner, base) && 0 < k < |list| && 0 < n < At(m, list[k]).size
    ensures var p := list[k]; var b := End(m, p) - n; var m' := Carved(m, p, n);
      && ListOk(m', list, base) && NoneTouch(m', list) && b !in live
      && CoverOk(m', list, live[b := n], Split(owner, p, b), base)
  {
    hide Split;
    var p := list[k];
    var b := End(m, p) - n;
    assert list[0] < p;
    assert IsBlock(list, live, base, p) && Covers(m, owner, p) && owner[b] == p;
    BlockOwns(m, list, live, owner, base, b);
    assert Lies(m, list, live, owner, base, b);
    CarveList(m, list, base, k, n, b);
    CarveCover(m, list, live, owner, base, p, n, b, Carved(m, p, n));
  }

  lemma CarveList(m: Mem, list: seq<int>, base: int, k: int, n: int, b: int)
    requires ListOk(m, list, base) && NoneTouch(m, list) && 0 < k < |list| && 0 < n < At(m, list[k]).size
    requires b == End(m, list[k]) - n && b !in list
    ensures ListOk(Carved(m, list[k], n), list, base) && NoneTouch(Carved(m, list[k], n), list)
  {
    var m' := Carved(m, list[k], n);
    assert forall j :: 0 <= j < |list| ==> At(m', list[j]).ptr == At(m, list[j]).ptr && At(m', list[j]).size <= At(m, list[j]).size;
    forall j | 0 <= j < |list| ensures Points(m', list, j) { assert Points(m, list, j); }
    forall j | 0 <= j < |list| - 1 ensures Fits(m', list, j) && Gap(m', list, j) { assert Gap(m, list, j); }
    assert list[0] < list[k];
  }

  lemma CarveCover(m: Mem, list: seq<int>, live: map<int, int>, owner: map<int, int>, base: int, p: int, n: int, b: int, m': Mem)
    requires CoverOk(m, list, live, owner, base) && base < p && p in list && p !in live && 0 < n < At(m, p).size && b == End(m, p) - n
    requires !IsBlock(list, live, base, b) && base < b && b !in list
    requires At(m', p).size == At(m, p).size - n && At(m', b).size == n
    requires forall x :: x != p && x != b ==> At(m', x).size == At(m, x).size
    ensures CoverOk(m', list, live[b := n], Split(owner, p, b), base)
  {
    hide Split, At, Covers, Lies, End;
    var live', owner' := live[b := n], Split(owner, p, b);
    assert IsBlock(list, live, base, p) && Covers(m, owner, p);
    forall x | IsBlock(list, live', base, x) ensures Covers(m', owner', x) {
      assert x != b ==> IsBlock(list, live, base, x);
      CarveCovers(m, owner, p, n, b, m', x);
    }
    forall u | u in owner' ensures Lies(m', list, live', owner', base, u) { CarveLies(m, list, live, owner, base, p, n, b, m', u); }
  }

  lemma CarveCovers(m: Mem, owner: map<int, int>, p: int, n: int, b: int, m': Mem, x: int)
    requires Covers(m, owner, p) && 0 < n < At(m, p).size && b == End(m, p) - n
    requires At(m', p).size == At(m, p).size - n && At(m', b).size == n && (x != p && x != b ==> At(m', x).size == At(m, x).size)
    requires x == b || Covers(m, owner, x)
    ensures Covers(m', Split(owner, p, b), x)
  {
    hide Split, At;
  }

  lemma CarveLies(m: Mem, list: seq<int>, live: map<int, int>, owner: map<int, int>, base: int, p: int, n: int, b: int, m': Mem, u: int)
    requires u in owner && Lies(m, list, live, owner, base, u) && 0 < n < At(m, p).size && b == End(m, p) - n
    requires At(m', p).size == At(m, p).size - n && At(m', b).size == n
    requires forall x :: x != p && x != b ==> At(m', x).size == At(m, x).size
    requires !IsBlock(list, live, base, b)
    ensures Lies(m', list, live[b := n], Split(owner, p, b), base, u)
  {
    hide Split, At;
  }

  /** Memory obtained from the system starts as one live block. */
  ghost function Obtained(owner: map<int, int>, b: int, n: int): (r: map<int, int>)
    ensures forall u :: u in r <==> u in owner || b <= u < b + n
    ensures forall u :: u in r ==> r[u] == if b <= u < b + n then b else owner[u]
    decreases n
  {
    if n <= 0 then owner else Obtained(owner, b, n - 1)[b + n - 1 := b]
  }

  lemma Obtain(m: Mem, list: seq<int>, live: map<int, int>, owner: map<int, int>, base: int, b: int, n: int)
    requires ListOk(m, list, base) && NoneTouch(m, list) && CoverOk(m, list, live, owner, base)
    requires n > 0 && base < b && forall u :: u in owner ==> u < b
    ensures var m' := SetSize(m, b, n);
      && b !in list && b !in live && ListOk(m', list, base) && NoneTouch(m', list)
      && CoverOk(m', list, live[b := n], Obtained(owner, b, n), base)
  {
    hide Obtained, CoverOk;
    var m' := SetSize(m, b, n);
    BlockOwns(m, list, live, owner, base, b);
    assert b !in list;
    forall j | 0 <= j < |list| ensures Points(m', list, j) { assert Points(m, list, j); }
    forall j | 0 <= j < |list| - 1 ensures Fits(m', list, j) && Gap(m', list, j) { assert Gap(m, list, j); }
    ObtainCover(m, list, live, owner, base, b, n, m');
  }

  lemma ObtainCover(m: Mem, list: seq<int>, live: map<int, int>, owner: map<int, int>, base: int, b: int, n: int, m': Mem)
    requires CoverOk(m, list, live, owner, base) && n > 0 && base < b && !IsBlock(list, live, base, b) && b !in list
    requires forall u :: u in owner ==> u < b
    requires At(m', b).size == n && forall x :: x != b ==> At(m', x).size == At(m, x).size
    ensures CoverOk(m', list, live[b := n], Obtained(owner, b, n), base)
  {
    hide Obtained, At, Covers, Lies, End;
    var live', owner' := live[b := n], Obtained(owner, b, n);
    forall x | IsBlock(list, live', base, x) ensures Covers(m', owner', x) {
      assert x != b ==> IsBlock(list, live, base, x);
      ObtainCovers(m, owner, b, n, m', x);
    }
    forall u | u in owner' ensures Lies(m', list, live', owner', base, u) { ObtainLies(m, list, live, owner, base, b, n, m', u); }
  }

  lemma ObtainCovers(m: Mem, owner: map<int, int>, b: int, n: int, m': Mem, x: int)
    requires x == b || Covers(m, owner, x)
    requires At(m', b).size == n && (x != b ==> At(m', x).size == At(m, x).size) && forall u :: u in owner ==> u < b
    ensures Covers(m', Obtained(owner, b, n), x)
  {
    hide Obtained, At;
    var owner' := Obtained(owner, b, n);
    forall u | x <= u < End(m', x) ensures u in owner' && owner'[u] == x {
      assert x != b ==> u in owner && owner[u] == x;
    }
  }

  lemma ObtainLies(m: Mem, list: seq<int>, live: map<int, int>, owner: map<int, int>, base: int, b: int, n: int, m': Mem, u: int)
    requires base < b && !IsBlock(list, live, base, b) && (u in owner ==> u < b && Lies(m, list, live, owner, base, u)) && u in Obtained(owner, b, n)
    requires At(m', b).size == n && forall x :: x != b ==> At(m', x).size == At(m, x).size
    ensures Lies(m', list, live[b := n], Obtained(owner, b, n), base, u)
  {
    hide Obtained, At;
  }

  /** A block lies in memory obtained. */
  lemma BlockOwns(m: Mem, list: seq<int>, live: map<int, int>, owner: map<int, int>, base: int, b: int)
    requires ListOk(m, list, base) && CoverOk(m, list, live, owner, base)
    ensures IsBlock(list, live, base, b) ==> b in owner && owner[b] == b && At(m, b).size > 0
  {
    if IsBlock(list, live, base, b) {
      assert Covers(m, owner, b);
      if b in list && b != base {
        var j :| 0 <= j < |list| && list[j] == b;
        assert At(m, list[j]).size > 0;
      }
    }
  }

  // ---------------------------------------------------------------- free

  /** Where the search of free stops. */
  lemma SearchStops(m: Mem, list: seq<int>, base: int, k: int, b: int)
    requires ListOk(m, list, base) && 0 <= k < |list| && base < b && b !in list
    ensures var p := list[k]; var q := At(m, p).ptr;
      (p < b < q || (p >= q && (b > p || b < q))) <==> Place(list, k, b)
  {
    assert Points(m, list, k);
    assert k + 1 < |list| ==> list[k] < list[k + 1];
    assert k > 0 ==> list[0] < list[k];
  }

  /** What free stores once it has found the block p below b. */
  function FreedUp(m: Mem, p: int, b: int): Mem {
    var q := At(m, p).ptr;
    if End(m, b) == q then SetPtr(SetSize(m, b, At(m, b).size + At(m, q).size), b, At(m, q).ptr) else SetPtr(m, b, q)
  }

  function FreedDown(m: Mem, p: int, b: int): Mem {
    if End(m, p) == b then SetPtr(SetSize(m, p, At(m, p).size + At(m, b).size), p, At(m, b).ptr) else SetPtr(m, p, b)
  }

  lemma FreeUpper(m: Mem, list: seq<int>, live: map<int, int>, owner: map<int, int>, base: int, k: int, b: int)
    returns (list': seq<int>, owner': map<int, int>)
    requires ListOk(m, list, base) && NoneTouch(m, list) && CoverOk(m, list, live, owner, base) && b in live && Place(list, k, b)
    ensures var m' := SetPtr(FreedUp(m, list[k], b), list[k], b);
      && ListOk(m', list', base) && TouchOnly(m', list', k, -1) && CoverOk(m', list', live - {b}, owner', base)
      && owner'.Keys == owner.Keys && k + 1 < |list'| && list'[k] == list[k] && list'[k + 1] == b
      && At(m', b).size >= At(m, b).size && base < b
  {
    hide CoverOk, Without, With, Merged, TouchOnly, ListOk;
    LiveApart(m, list, live, owner, base, k, b);
    Link(m, list, live, owner, base, k, b);
    var p := list[k];
    var m1, list1 := Linked(m, p, b), With(list, k, b);
    LinkedNext(m, list, base, k, b);
    if End(m, b) == At(m, p).ptr {
      assert list1[k + 2] == At(m, p).ptr && End(m1, b) == End(m, b);
      Merge(m1, list1, live - {b}, owner, base, k + 1, k);
      UpperSame(m, p, b);
      list', owner' := Without(list1, k + 2), Moved(owner, list1[k + 2], b);
    } else {
      TouchLess(m1, list1, k);
      list', owner' := list1, owner;
    }
  }

  /** After linking b behind block k, what follows b is what followed block k. */
  lemma LinkedNext(m: Mem, list: seq<int>, base: int, k: int, b: int)
    requires ListOk(m, list, base) && Place(list, k, b) && base < b && At(m, b).size > 0 && b !in list
    ensures At(m, list[k]).ptr == if k + 1 < |list| then With(list, k, b)[k + 2] else base
    ensures End(m, b) == At(m, list[k]).ptr ==> k + 1 < |list| && At(m, At(m, list[k]).ptr).size > 0
    ensures End(Linked(m, list[k], b), b) == End(m, b) && At(Linked(m, list[k], b), b).ptr == At(m, list[k]).ptr
  {
    hide With;
    assert Points(m, list, k);
  }

  lemma UpperSame(m: Mem, p: int, b: int)
    requires p != b && At(m, p).ptr != p && At(m, p).ptr != b && End(m, b) == At(m, p).ptr
    ensures Merged(Linked(m, p, b), b) == SetPtr(FreedUp(m, p, b), p, b)
  {
  }

  lemma TouchLess(m: Mem, list: seq<int>, k: int)
    requires TouchOnly(m, list, k, k + 1) && (0 <= k + 1 < |list| - 1 ==> End(m, list[k + 1]) < list[k + 2])
    ensures TouchOnly(m, list, k, -1)
  {
  }

  /** Freeing a live block where it belongs: the list stays in order, no two free blocks touch, no
      other block changes hands, and some free block w is at least as large as the one freed. */
  lemma FreeAll(m: Mem, list: seq<int>, live: map<int, int>, owner: map<int, int>, base: int, k: int, b: int)
    returns (list': seq<int>, owner': map<int, int>, w: int)
    requires ListOk(m, list, base) && NoneTouch(m, list) && CoverOk(m, list, live, owner, base) && b in live && Place(list, k, b)
    ensures var m' := FreedDown(FreedUp(m, list[k], b), list[k], b);
      && ListOk(m', list', base) && NoneTouch(m', list') && CoverOk(m', list', live - {b}, owner', base)
      && owner'.Keys == owner.Keys && list[k] in list' && w in list' && At(m', w).size >= At(m, b).size
  {
    hide CoverOk, Without, Merged, ListOk, FreedUp, NoneTouch;
    list', owner' := FreeUpper(m, list, live, owner, base, k, b);
    var p := list[k];
    var m1 := FreedUp(m, p, b);
    var m2 := SetPtr(m1, p, b);
    assert p != b;
    if End(m1, p) == b {
      assert TouchOnly(m2, list', -1, k);
      Merge(m2, list', live - {b}, owner', base, k, -1);
      LowerSame(m1, p, b);
      BlockSize(m2, list', base, k);
      list', owner', w := Without(list', k + 1), Moved(owner', b, p), p;
      assert list'[k] == p;
      TouchNone(FreedDown(m1, p, b), list', -1);
    } else {
      FitsAt(m2, list', base, k);
      TouchNone(m2, list', k);
      w := b;
      assert list'[k + 1] == b;
    }
  }

  lemma BlockSize(m: Mem, list: seq<int>, base: int, k: int)
    requires ListOk(m, list, base) && 0 <= k < |list|
    ensures At(m, list[k]).size >= 0
  {
  }

  lemma FitsAt(m: Mem, list: seq<int>, base: int, k: int)
    requires ListOk(m, list, base) && 0 <= k < |list| - 1
    ensures End(m, list[k]) <= list[k + 1]
  {
    assert Fits(m, list, k);
  }

  lemma LowerSame(m: Mem, p: int, b: int)
    requires p != b && End(m, p) == b
    ensures Merged(SetPtr(m, p, b), p) == FreedDown(m, p, b) && At(FreedDown(m, p, b), p).size == At(m, p).size + At(m, b).size
  {
  }

  lemma TouchNone(m: Mem, list: seq<int>, k: int)
    requires TouchOnly(m, list, k, -1) && (0 <= k < |list| - 1 ==> Gap(m, list, k))
    ensures NoneTouch(m, list)
  {
  }

  // ---------------------------------------------------------------- what stays

  /** The units of the given blocks stay with them, and so does what is stored there. */
  ghost predicate Kept(m: Mem, owner: map<int, int>, m': Mem, owner': map<int, int>, blocks: map<int, int>) {
    forall u :: u in owner && owner[u] in blocks ==> u in owner' && owner'[u] == owner[u] && At(m', u) == At(m, u)
  }

  lemma KeptTrans(m: Mem, o: map<int, int>, m1: Mem, o1: map<int, int>, m2: Mem, o2: map<int, int>, blocks: map<int, int>)
    requires Kept(m, o, m1, o1, blocks) && Kept(m1, o1, m2, o2, blocks)
    ensures Kept(m, o, m2, o2, blocks)
  {
    hide At;
  }

  /** Blocks that are live before and after, with nothing stored in them, keep their units. */
  lemma KeptBlocks(m: Mem, list: seq<int>, live: map<int, int>, owner: map<int, int>, base: int,
                   m': Mem, list': seq<int>, live': map<int, int>, owner': map<int, int>, blocks: map<int, int>)
    requires CoverOk(m, list, live, owner, base) && CoverOk(m', list', live', owner', base)
    requires forall b :: b in blocks ==> b in live && b in live' && live'[b] == live[b]
    requires forall u :: u in owner && owner[u] in blocks ==> At(m', u) == At(m, u)
    ensures Kept(m, owner, m', owner', blocks)
  {
    hide At;
    forall u | u in owner && owner[u] in blocks ensures u in owner' && owner'[u] == owner[u] {
      var b := owner[u];
      assert Lies(m, list, live, owner, base, u);
      assert IsBlock(list', live', base, b) && Covers(m', owner', b);
      assert End(m', b) == End(m, b);
    }
  }

  /** Free blocks and base are no part of a live block. */
  lemma FreeNotInLive(m: Mem, list: seq<int>, live: map<int, int>, owner: map<int, int>, base: int, p: int)
    requires ListOk(m, list, base) && CoverOk(m, list, live, owner, base) && p in list
    ensures p in owner ==> owner[p] !in live
  {
    hide ListOk, At;
    if p in owner {
      assert Lies(m, list, live, owner, base, p);
      assert p != base && IsBlock(list, live, base, p);
      BlockOwns(m, list, live, owner, base, p);
    }
  }

  lemma FreeKeeps(m: Mem, list: seq<int>, live: map<int, int>, owner: map<int, int>, base: int, p: int, b: int,
                  list': seq<int>, owner': map<int, int>)
    requires ListOk(m, list, base) && CoverOk(m, list, live, owner, base) && p in list && b in live
    requires CoverOk(FreedDown(FreedUp(m, p, b), p, b), list', live - {b}, owner', base)
    ensures Kept(m, owner, FreedDown(FreedUp(m, p, b), p, b), owner', live - {b})
  {
    hide ListOk, CoverOk, FreedUp, FreedDown;
    var m' := FreedDown(FreedUp(m, p, b), p, b);
    FreeNotInLive(m, list, live, owner, base, p);
    BlockOwns(m, list, live, owner, base, b);
    assert IsBlock(list, live, base, b);
    forall u | u in owner && owner[u] in live - {b} ensures At(m', u) == At(m, u) { FreedElsewhere(m, p, b, u); }
    KeptBlocks(m, list, live, owner, base, m', list', live - {b}, owner', live - {b});
  }

  lemma FreedElsewhere(m: Mem, p: int, b: int, u: int)
    ensures u != p && u != b ==> At(FreedDown(FreedUp(m, p, b), p, b), u) == At(m, u)
  {
  }

  lemma UnlinkKeeps(m: Mem, list: seq<int>, live: map<int, int>, owner: map<int, int>, base: int, prev: int, p: int, x: int, n: int, list': seq<int>)
    requires ListOk(m, list, base) && CoverOk(m, list, live, owner, base) && prev in list && p !in live
    requires CoverOk(SetPtr(m, prev, x), list', live[p := n], owner, base)
    ensures Kept(m, owner, SetPtr(m, prev, x), owner, live)
  {
    hide ListOk, CoverOk;
    FreeNotInLive(m, list, live, owner, base, prev);
    KeptBlocks(m, list, live, owner, base, SetPtr(m, prev, x), list', live[p := n], owner, live);
  }

  lemma CarveKeeps(m: Mem, list: seq<int>, live: map<int, int>, owner: map<int, int>, base: int, p: int, n: int, owner': map<int, int>)
    requires ListOk(m, list, base) && CoverOk(m, list, live, owner, base) && p in list && p != base && 0 < n < At(m, p).size
    requires End(m, p) - n !in live && CoverOk(Carved(m, p, n), list, live[End(m, p) - n := n], owner', base)
    ensures Kept(m, owner, Carved(m, p, n), owner', live)
  {
    hide ListOk;
    var b := End(m, p) - n;
    FreeNotInLive(m, list, live, owner, base, p);
    assert IsBlock(list, live, base, p) && Covers(m, owner, p) && owner[b] == p && p !in live;
    forall u | u in owner && owner[u] in live ensures At(Carved(m, p, n), u) == At(m, u) { assert u != b && u != p; }
    KeptBlocks(m, list, live, owner, base, Carved(m, p, n), list, live[b := n], owner', live);
  }

  lemma ObtainKeeps(m: Mem, owner: map<int, int>, live: map<int, int>, b: int, n: int)
    requires forall u :: u in owner ==> u < b
    ensures Kept(m, owner, SetSize(m, b, n), Obtained(owner, b, n), live)
  {
    hide Obtained;
  }
}
