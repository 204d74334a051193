/** What the invariant of the allocator says about every run of malloc and free. */
module UmallocTheorems {
  import opened UmallocSpec

  /** No two blocks, free or live, overlap. */
  lemma BlocksDisjoint(m: Mem, list: seq<int>, live: map<int, int>, owner: map<int, int>, base: int, a: int, b: int)
    requires CoverOk(m, list, live, owner, base) && IsBlock(list, live, base, a) && IsBlock(list, live, base, b) && a < b && At(m, b).size > 0
    ensures End(m, a) <= b
  {
    hide At;
    assert Covers(m, owner, a) && Covers(m, owner, b);
    assert b in owner && owner[b] == b;
  }

  /** Whatever the program stores in its blocks past their headers leaves the allocator's state in
      order. */
  lemma ProgramStores(m: Mem, list: seq<int>, live: map<int, int>, owner: map<int, int>, base: int, m': Mem)
    requires ListOk(m, list, base) && NoneTouch(m, list) && CoverOk(m, list, live, owner, base)
    requires forall a :: At(m', a) != At(m, a) ==> a in owner && owner[a] in live && a != owner[a]
    ensures ListOk(m', list, base) && NoneTouch(m', list) && CoverOk(m', list, live, owner, base)
  {
    hide At;
    forall b | b in list || b in live ensures At(m', b) == At(m, b) {
      if b == base { assert b in owner ==> Lies(m, list, live, owner, base, b); }
      else { BlockOwns(m, list, live, owner, base, b); assert IsBlock(list, live, base, b); }
    }
    forall i | 0 <= i < |list| ensures At(m', list[i]) == At(m, list[i]) { assert list[i] in list; }
    StoresList(m, list, base, m');
    forall b | IsBlock(list, live, base, b) ensures Covers(m', owner, b) { assert Covers(m, owner, b); }
    forall u | u in owner ensures Lies(m', list, live, owner, base, u) { assert Lies(m, list, live, owner, base, u); }
  }

  lemma StoresList(m: Mem, list: seq<int>, base: int, m': Mem)
    requires ListOk(m, list, base) && NoneTouch(m, list) && forall i :: 0 <= i < |list| ==> At(m', list[i]) == At(m, list[i])
    ensures ListOk(m', list, base) && NoneTouch(m', list)
  {
    hide At;
    forall i | 0 <= i < |list| ensures Points(m', list, i) { assert Points(m, list, i); }
    forall i | 0 <= i < |list| - 1 ensures Fits(m', list, i) && Gap(m', list, i) { assert Gap(m, list, i); }
    assert list[0] == base;
  }

  // ---------------------------------------------------------------- conservation

  /** The total size of the blocks at the given addresses. */
  ghost function Sum(m: Mem, bs: seq<int>): int {
    if bs == [] then 0 else Sum(m, bs[..|bs| - 1]) + At(m, bs[|bs| - 1]).size
  }

  lemma {:induction false} SumConcat(m: Mem, a: seq<int>, b: seq<int>)
    ensures Sum(m, a + b) == Sum(m, a) + Sum(m, b)
  {
    if b == [] {
      assert a + b == a;
    } else {
      SumConcat(m, a, b[..|b| - 1]);
      assert (a + b)[..|a + b| - 1] == a + b[..|b| - 1];
    }
  }

  ghost predicate Distinct(bs: seq<int>) { forall i, j :: 0 <= i < j < |bs| ==> bs[i] != bs[j] }

  /** The units from b to b + n. */
  ghost function Interval(b: int, n: nat): (s: set<int>)
    ensures |s| == n && forall u :: u in s <==> b <= u < b + n
  {
    if n == 0 then {} else Interval(b, n - 1) + {b + n - 1}
  }

  /** The units that lie in the given blocks. */
  ghost function UnitsOf(m: Mem, bs: seq<int>): set<int> {
    if bs == [] then {}
    else UnitsOf(m, bs[..|bs| - 1]) + if At(m, bs[|bs| - 1]).size > 0 then Interval(bs[|bs| - 1], At(m, bs[|bs| - 1]).size) else {}
  }

  lemma {:induction false} UnitsIn(m: Mem, bs: seq<int>, owner: map<int, int>, u: int)
    requires forall i :: 0 <= i < |bs| ==> Covers(m, owner, bs[i])
    ensures u in UnitsOf(m, bs) <==> u in owner && owner[u] in bs && owner[u] <= u < End(m, owner[u])
  {
    hide At;
    if bs != [] {
      var b := bs[|bs| - 1];
      UnitsIn(m, bs[..|bs| - 1], owner, u);
      assert Covers(m, owner, b);
      assert bs == bs[..|bs| - 1] + [b];
    }
  }

  /** Blocks that do not share units have as many units as their sizes add up to. */
  lemma {:induction false} CountUnits(m: Mem, bs: seq<int>, owner: map<int, int>)
    requires Distinct(bs) && forall i :: 0 <= i < |bs| ==> At(m, bs[i]).size > 0 && Covers(m, owner, bs[i])
    ensures |UnitsOf(m, bs)| == Sum(m, bs)
  {
    hide At;
    if bs != [] {
      var rest, b := bs[..|bs| - 1], bs[|bs| - 1];
      CountUnits(m, rest, owner);
      assert Covers(m, owner, b);
      forall u | u in UnitsOf(m, rest) ensures u !in Interval(b, At(m, b).size) {
        UnitsIn(m, rest, owner, u);
        assert b !in rest;
      }
      assert UnitsOf(m, rest) !! Interval(b, At(m, b).size);
    }
  }

  /** Free units and live units add up to the units obtained from the system, for any order ls in
      which the live blocks are listed. */
  lemma UnitsConserved(m: Mem, list: seq<int>, live: map<int, int>, owner: map<int, int>, base: int, ls: seq<int>)
    requires ListOk(m, list, base) && CoverOk(m, list, live, owner, base)
    requires Distinct(ls) && forall b :: b in ls <==> b in live
    ensures Sum(m, list[1..]) + Sum(m, ls) == |owner.Keys|
  {
    var bs := list[1..] + ls;
    SumConcat(m, list[1..], ls);
    AllBlocks(m, list, live, owner, base, ls);
    CountUnits(m, bs, owner);
    forall u ensures u in UnitsOf(m, bs) <==> u in owner.Keys {
      UnitsIn(m, bs, owner, u);
      if u in owner { assert Lies(m, list, live, owner, base, u); }
    }
    assert UnitsOf(m, bs) == owner.Keys;
  }

  lemma AllBlocks(m: Mem, list: seq<int>, live: map<int, int>, owner: map<int, int>, base: int, ls: seq<int>)
    requires ListOk(m, list, base) && CoverOk(m, list, live, owner, base)
    requires Distinct(ls) && forall b :: b in ls <==> b in live
    ensures var bs := list[1..] + ls;
      && Distinct(bs) && (forall i :: 0 <= i < |bs| ==> At(m, bs[i]).size > 0 && Covers(m, owner, bs[i]))
      && forall b :: IsBlock(list, live, base, b) ==> b in bs
  {
    hide At;
    var bs := list[1..] + ls;
    forall i | 0 <= i < |bs| ensures At(m, bs[i]).size > 0 && Covers(m, owner, bs[i]) {
      BlockAt(m, list, live, owner, base, ls, i);
    }
    forall i, j | 0 <= i < j < |bs| ensures bs[i] != bs[j] { ApartAt(m, list, live, owner, base, ls, i, j); }
    forall b | IsBlock(list, live, base, b) ensures b in bs {
      if b in live { assert b in ls; } else {
        var i :| 0 <= i < |list| && list[i] == b;
        assert list[1..][i - 1] == b;
      }
    }
  }

  lemma BlockAt(m: Mem, list: seq<int>, live: map<int, int>, owner: map<int, int>, base: int, ls: seq<int>, i: int)
    requires ListOk(m, list, base) && CoverOk(m, list, live, owner, base) && 0 <= i < |list| - 1 + |ls| && forall b :: b in ls <==> b in live
    ensures var b := (list[1..] + ls)[i]; At(m, b).size > 0 && Covers(m, owner, b)
  {
    hide At;
    var b := (list[1..] + ls)[i];
    if i < |list| - 1 {
      assert b == list[i + 1] && list[0] < list[i + 1];
    } else {
      assert b == ls[i - (|list| - 1)] && b in ls;
    }
    assert IsBlock(list, live, base, b);
    BlockOwns(m, list, live, owner, base, b);
  }

  lemma ApartAt(m: Mem, list: seq<int>, live: map<int, int>, owner: map<int, int>, base: int, ls: seq<int>, i: int, j: int)
    requires ListOk(m, list, base) && CoverOk(m, list, live, owner, base) && 0 <= i < j < |list| - 1 + |ls|
    requires Distinct(ls) && forall b :: b in ls <==> b in live
    ensures (list[1..] + ls)[i] != (list[1..] + ls)[j]
  {
    hide At;
    var bs := list[1..] + ls;
    if j < |list| - 1 {
      assert bs[i] == list[i + 1] && bs[j] == list[j + 1];
    } else {
      assert bs[j] == ls[j - (|list| - 1)] && bs[j] in ls;
      if i < |list| - 1 { assert bs[i] == list[i + 1] && bs[i] in list; } else { assert bs[i] == ls[i - (|list| - 1)]; }
    }
  }
}
