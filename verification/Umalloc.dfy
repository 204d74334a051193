/** The allocator of umalloc.c. */
module Umalloc {
  import opened UmallocSpec

  /** Distance from index k forward to index i in a circular list of n. */
  ghost function Dist(n: int, k: int, i: int): (d: int)
    ensures 0 <= k < n && 0 <= i < n ==> 0 <= d < n
  {
    if k <= i then i - k else i - k + n
  }

  const WRAP: int := 0x1_0000_0000
  const KERNBASE: int := 0x8000_0000

  /** The units malloc asks for, in 32-bit arithmetic: enough for the bytes, and a header. */
  function Units(nbytes: int): int { (nbytes + 8 - 1) % WRAP / 8 + 1 }

  /** The units morecore asks for. */
  function Asked(nu: int): int { if nu < 4096 then 4096 else nu }

  // ---------------------------------------------------------------- sbrk

  /** A 32-bit word read as an int. */
  function Signed(x: int): int { if x % WRAP < KERNBASE then x % WRAP else x % WRAP - WRAP }

  function PageUp(x: int): int { (x + 4095) / 4096 * 4096 }

  /** How sbrk ends: the size of the process, and the end of the pages it has then. */
  datatype Break = Refused(end: int) | Set(sz: int, end: int)

  /** growproc of n bytes, positive or not, on a process of sz bytes; granted tells whether there are
      pages to be had.  A process that shrinks to nothing loses its pages and is told that it failed. */
  function GrowProc(sz: int, n: int, granted: bool): Break {
    var newsz := (sz + n) % WRAP;
    if n > 0 then
      if newsz >= KERNBASE || !granted then Refused(PageUp(sz)) else Set(newsz, PageUp(newsz))
    else if n < 0 then
      var r := if newsz >= sz then sz else newsz;
      if r == 0 then Refused(0) else Set(r, PageUp(r))
    else Set(sz, PageUp(sz))
  }

  /** What morecore gets from sbrk for nu units. */
  function CoreFor(sz: int, nu: int, granted: bool): Break { GrowProc(sz, Signed(Asked(nu) * 8), granted) }

  /** The product that morecore passes to sbrk, as sbrk reads it, is positive up to 2^28 - 1 units. */
  lemma SignOfProduct(nu: int)
    requires 0 < nu <= 0x2000_0000
    ensures if Asked(nu) * 8 < KERNBASE then Signed(Asked(nu) * 8) == Asked(nu) * 8 else Signed(Asked(nu) * 8) == Asked(nu) * 8 - WRAP <= 0
  {
  }

  /** A product that is read as positive gets its bytes or a refusal that changes nothing. */
  lemma AsMeant(sz: int, nu: int, granted: bool)
    requires 0 < sz < KERNBASE && sz % 8 == 0 && 0 < nu && Asked(nu) * 8 < KERNBASE
    ensures var b := CoreFor(sz, nu, granted);
      if granted && sz + Asked(nu) * 8 < KERNBASE
      then b.Set? && b.sz == sz + Asked(nu) * 8 && b.end == PageUp(b.sz) >= sz + 8 && b.end >= PageUp(sz)
      else b == Refused(PageUp(sz))
  {
    hide Signed;
    SignOfProduct(nu);
  }

  /** A request of 0x7FFF_FFF1 bytes or more that does not wrap is one for which sbrk, whether or not
      it reports success, gives no memory at all. */
  lemma SbrkGivesNothing(sz: int, nbytes: int, granted: bool)
    requires 0 < sz < KERNBASE && 0x7FFF_FFF0 < nbytes <= 0xFFFF_FFF8
    ensures Units(nbytes) * 8 >= KERNBASE
    ensures var b := CoreFor(sz, Units(nbytes), granted); b.end <= PageUp(sz) && (b.Set? ==> b.sz <= sz)
  {
    hide Signed;
    SignOfProduct(Units(nbytes));
  }

  /** What malloc asks of sbrk is meant as it is read exactly up to 0x7FFF_FFF0 bytes. */
  lemma AskedAsMeant(nbytes: int)
    requires 0 <= nbytes < WRAP
    ensures nbytes <= 0x7FFF_FFF0 <==> (Units(nbytes) - 1) * 8 >= nbytes && Units(nbytes) * 8 < KERNBASE
    ensures nbytes <= 0xFFFF_FFF8 ==> (Units(nbytes) - 1) * 8 - 7 <= nbytes <= (Units(nbytes) - 1) * 8
    ensures 0 < Units(nbytes) <= 0x2000_0000
  {
  }

  /** sbrk reports success, and there is a page at the address it returns. */
  predicate Gives(sz: int, b: Break) { b.Set? && sz + 8 <= b.end }

  /** The process traps: on the store of the header, which has no page, or because it has none at all. */
  predicate Traps(sz: int, b: Break) { if b.Set? then sz + 8 > b.end else b.end == 0 }

  /** After anything but a trap the pages of the process end with its size. */
  lemma StillProcess(sz: int, nu: int, granted: bool)
    requires 0 < sz < KERNBASE && sz % 8 == 0 && 0 < nu <= 0x2000_0000
    ensures var b := CoreFor(sz, nu, granted);
      !Traps(sz, b) ==> if b.Set? then 0 < b.sz < KERNBASE && b.sz % 8 == 0 && b.end == PageUp(b.sz) else b.end == PageUp(sz)
  {
    hide Signed;
    SignOfProduct(nu);
  }

  /** How malloc ends; Fault is a trap in morecore. */
  datatype Outcome = Null | Fault | Block(ap: int)

  /** The block of n units behind pointer ap has room for nbytes bytes, all of it in memory that the
      process has. */
  predicate Room(ap: int, n: int, nbytes: int, end: int) { (n - 1) * 8 >= nbytes && (ap - 1 + n) * 8 <= end }

  /** A request for a block, or to give back the block that request k got. */
  datatype Request = Ask(nbytes: int, granted: bool) | Give(k: nat)

  predicate Modest(reqs: seq<Request>) { forall k :: 0 <= k < |reqs| && reqs[k].Ask? ==> 0 <= reqs[k].nbytes <= 0x7FFF_FFF0 }

  /** If the request got a block, the block has room. */
  predicate Served(r: Request, o: Outcome, end: int)
    requires r.Ask?
  {
    o.Block? ==> Room(o.ap, Units(r.nbytes), r.nbytes, end)
  }

  /** The requests in held got blocks that are still live, each its own. */
  ghost predicate Holding(reqs: seq<Request>, outs: seq<Outcome>, held: set<nat>, live: map<int, int>) {
    && |outs| <= |reqs|
    && (forall k :: k in held ==> k < |outs| && Held(reqs[k], outs[k], live))
    && forall j, k :: j in held && k in held && j != k ==> outs[j] != outs[k]
  }

  ghost predicate Held(r: Request, o: Outcome, live: map<int, int>) {
    r.Ask? && o.Block? && o.ap - 1 in live && live[o.ap - 1] == Units(r.nbytes)
  }

  /** base is the address of the list's first header, below all memory from sbrk; freep is 0 before
      the first malloc.  sz is the size of the process in bytes, and end the end of its pages.  list,
      live, owner and top are specification only: the free list, the sizes of the blocks given out,
      the block of every unit obtained, and an end of that memory. */
  class Heap {
    var mem: Mem
    var freep: int
    var sz: int
    var end: int
    const base: int
    ghost var list: seq<int>
    ghost var live: map<int, int>
    ghost var owner: map<int, int>
    ghost var top: int

    ghost predicate Ready()
      reads this
    {
      ListOk(mem, list, base) && NoneTouch(mem, list) && CoverOk(mem, list, live, owner, base) && freep in list
    }

    ghost predicate Valid()
      reads this
    {
      && 0 < base < top && (forall u :: u in owner ==> u < top)
      && if freep == 0 then list == [] && live == map[] && owner == map[] else Ready()
    }

    /** The size of the process and its pages fit together. */
    ghost predicate Process()
      reads this
    {
      0 < sz < KERNBASE && sz % 8 == 0 && end == PageUp(sz)
    }

    /** All memory that the allocator counts on is there. */
    ghost predicate Backed()
      reads this
    {
      Process() && top * 8 <= sz
    }

    constructor (base: int, sz: int)
      requires 0 < base && (base + 1) * 8 <= sz < KERNBASE && sz % 8 == 0
      ensures Valid() && Backed() && freep == 0 && this.base == base && live == map[] && owner == map[] && list == [] && this.sz == sz
    {
      this.base, freep, mem := base, 0, map[];
      this.sz, end := sz, PageUp(sz);
      list, live, owner, top := [], map[], map[], base + 1;
    }

    /** Give back a live block.  The other live blocks and what is in them stay.  Some free block w is
        then at least as large. */
    method Free(ap: int) returns (ghost w: int)
      requires Valid() && ap - 1 in live
      modifies this`mem, this`freep, this`list, this`live, this`owner
      ensures Valid() && freep != 0 && live == old(live) - {ap - 1} && owner.Keys == old(owner.Keys)
      ensures Kept(old(mem), old(owner), mem, owner, live)
      ensures w in list && At(mem, w).size >= old(live)[ap - 1]
    {
      hide CoverOk, NoneTouch, ListOk, FreedUp, FreedDown, At, Kept;
      var bp := ap - 1;
      assert At(mem, bp).size == live[bp] && bp !in list by { LiveSize(mem, list, live, owner, base, bp); }
      LiveAbove(mem, list, live, owner, base, bp);
      var p, k := Spot(bp);
      SearchStops(mem, list, base, k, bp);
      ghost var list', owner', w' := FreeAll(mem, list, live, owner, base, k, bp);
      FreeKeeps(mem, list, live, owner, base, p, bp, list', owner');
      StoreFreed(p, bp);
      freep := p;
      list, live, owner, w := list', live - {bp}, owner', w';
      assert freep != 0 by { FirstPositive(mem, list, base, freep); }
    }

    /** The search of free: p is the free block that bp goes behind, or the last one if bp goes behind
        that or before all. */
    method Spot(bp: int) returns (p: int, ghost k: int)
      requires ListOk(mem, list, base) && freep in list && base < bp && bp !in list
      ensures 0 <= k < |list| && p == list[k]
      ensures (bp > p && bp < At(mem, p).ptr) || (p >= At(mem, p).ptr && (bp > p || bp < At(mem, p).ptr))
    {
      hide At;
      p := freep;
      k :| 0 <= k < |list| && list[k] == freep;
      assert list[0] == base;
      ghost var i := FindPlace(list, bp);
      while !(bp > p && bp < At(mem, p).ptr)
        invariant 0 <= k < |list| && p == list[k]
        decreases Dist(|list|, k, i)
      {
        SearchStops(mem, list, base, k, bp);
        if p >= At(mem, p).ptr && (bp > p || bp < At(mem, p).ptr) {
          break;
        }
        assert k != i;
        assert Points(mem, list, k);
        p := At(mem, p).ptr;
        k := Next(|list|, k);
      }
    }

    /** The stores of free, once it has found the free block p below bp. */
    method StoreFreed(p: int, bp: int)
      modifies this`mem
      ensures mem == FreedDown(FreedUp(old(mem), p, bp), p, bp)
    {
      var q := At(mem, p).ptr;
      if bp + At(mem, bp).size == q {
        mem := SetSize(mem, bp, At(mem, bp).size + At(mem, q).size);
        mem := SetPtr(mem, bp, At(mem, q).ptr);
      } else {
        mem := SetPtr(mem, bp, q);
      }
      if p + At(mem, p).size == bp {
        mem := SetSize(mem, p, At(mem, p).size + At(mem, bp).size);
        mem := SetPtr(mem, p, At(mem, bp).ptr);
      } else {
        mem := SetPtr(mem, p, bp);
      }
    }

    /** sys_sbrk: the old size, -1 if growproc refused. */
    method Sbrk(n: int, granted: bool) returns (addr: int)
      requires 0 <= sz < KERNBASE && -KERNBASE <= n < KERNBASE
      modifies this`sz, this`end
      ensures var b := GrowProc(old(sz), n, granted);
        && end == b.end && if b.Refused? then addr == -1 && sz == old(sz) else addr == old(sz) && sz == b.sz
      ensures addr == -1 <==> (n > 0 && (old(sz) + n >= KERNBASE || !granted)) || (n < 0 && (old(sz) + n == 0 || old(sz) == 0))
      ensures addr != -1 ==> addr == old(sz)
      ensures sz == if addr == -1 || old(sz) + n < 0 then old(sz) else old(sz) + n
      ensures end == if n < 0 && old(sz) + n == 0 then 0 else (sz + 4095) / 4096 * 4096
    {
      addr := sz;
      var newsz := (sz + n) % WRAP;
      if n > 0 {
        if newsz >= KERNBASE || !granted {
          end := PageUp(sz);
          return -1;
        }
        sz := newsz;
      } else if n < 0 {
        var r := if newsz >= sz then sz else newsz;
        if r == 0 {
          end := 0;
          return -1;
        }
        sz := r;
      }
      end := PageUp(sz);
    }

    /** Ask sbrk for at least nu units, in a 32-bit product that sbrk reads as signed, and put what it
        says it gave on the free list.  0 if it refused; fault if the process traps.  What sbrk gives must
        be memory that is not counted yet. */
    method MoreCore(nu: int, granted: bool) returns (r: int, fault: bool, ghost w: int)
      requires Valid() && Process() && freep != 0 && 0 < nu <= 0x2000_0000
      requires Gives(sz, CoreFor(sz, nu, granted)) ==> top * 8 <= sz
      modifies this
      ensures Valid() && freep != 0 && live == old(live) && Kept(old(mem), old(owner), mem, owner, live)
      ensures var b := CoreFor(old(sz), nu, granted);
        && end == b.end && sz == (if b.Refused? then old(sz) else b.sz)
        && (fault <==> Traps(old(sz), b)) && (r != 0 <==> Gives(old(sz), b))
      ensures r == 0 ==> mem == old(mem) && owner == old(owner) && freep == old(freep) && list == old(list) && top == old(top)
      ensures r != 0 ==> r == freep && w in list && At(mem, w).size >= nu && Larger(old(owner), owner, old(sz) / 8, if nu < 4096 then 4096 else nu)
      ensures !fault ==> Process()
      ensures old(Backed()) && Asked(nu) * 8 < KERNBASE ==> !fault && Backed() && old(end) <= end
    {
      hide CoverOk, NoneTouch, ListOk, Kept, At, Larger, Signed, PageUp, GrowProc;
      w, fault := 0, false;
      SignOfProduct(nu);
      StillProcess(sz, nu, granted);
      if Asked(nu) * 8 < KERNBASE { AsMeant(sz, nu, granted); PageUpPositive(sz); }
      KeptSame(mem, owner, live);
      var n := if nu < 4096 then 4096 else nu;
      var p := Sbrk(Signed(n * 8), granted);
      if p == -1 { return 0, end == 0, 0; }
      if p + 8 > end { return 0, true, 0; }
      w := Receive(p / 8, n);
      r := freep;
    }

    /** A block of n units at hp, above all others, is on the free list. */
    method Receive(hp: int, n: int) returns (ghost w: int)
      requires Valid() && freep != 0 && top <= hp && n > 0
      modifies this`mem, this`freep, this`list, this`live, this`owner, this`top
      ensures Valid() && freep != 0 && live == old(live) && Kept(old(mem), old(owner), mem, owner, live)
      ensures w in list && At(mem, w).size >= n && Larger(old(owner), owner, hp, n) && top == hp + n
    {
      hide CoverOk, NoneTouch, ListOk, Obtained, Kept, At;
      Obtain(mem, list, live, owner, base, hp, n);
      ObtainKeeps(mem, owner, live, hp, n);
      ghost var was := live;
      mem := SetSize(mem, hp, n);
      live, owner, top := live[hp := n], Obtained(owner, hp, n), hp + n;
      ghost var m1, o1 := mem, owner;
      w := Free(hp + 1);
      assert live == was;
      KeptTrans(old(mem), old(owner), m1, o1, mem, owner, live);
      LargerObtained(old(owner), owner, hp, n);
    }

    /** A block of Units(nbytes) units.  It comes from a free block that is large enough if there is
        one, and otherwise from what sbrk says it gave, which must be memory that is not counted yet.
        Up to 0x7FFF_FFF0 bytes, and only up to there, a block that malloc returns has room for the
        bytes asked for, if all memory counted was there before. */
    method Malloc(nbytes: int, granted: bool) returns (o: Outcome)
      requires Valid() && Process() && 0 <= nbytes < WRAP
      requires NoFit(mem, list, Units(nbytes)) && Gives(sz, CoreFor(sz, Units(nbytes), granted)) ==> top * 8 <= sz
      modifies this
      ensures Valid() && freep != 0 && Kept(old(mem), old(owner), mem, owner, old(live))
      ensures o.Block? ==> o.ap - 1 !in old(live) && live == old(live)[o.ap - 1 := Units(nbytes)]
      ensures !o.Block? ==> live == old(live) && owner == old(owner)
      ensures !NoFit(old(mem), old(list), Units(nbytes)) ==>
        o.Block? && owner.Keys == old(owner.Keys) && sz == old(sz) && end == old(end)
      ensures !NoFit(old(mem), old(list), Units(nbytes)) ==> TailOfNext(old(mem), old(list), old(freep), Units(nbytes), o.ap)
      ensures NoFit(old(mem), old(list), Units(nbytes)) ==> var b := CoreFor(old(sz), Units(nbytes), granted);
        && (o.Fault? <==> Traps(old(sz), b)) && (o.Block? <==> Gives(old(sz), b))
        && end == b.end && sz == (if b.Refused? then old(sz) else b.sz)
        && (o.Block? ==> Larger(old(owner), owner, old(sz) / 8, Asked(Units(nbytes))))
      ensures !o.Fault? ==> Process()
      ensures old(Backed()) && Units(nbytes) * 8 >= KERNBASE ==> NoFit(old(mem), old(list), Units(nbytes))
      ensures old(Backed()) && Units(nbytes) * 8 < KERNBASE ==> !o.Fault? && Backed() && old(end) <= end
      ensures old(Backed()) && o.Block? ==> (Room(o.ap, Units(nbytes), nbytes, end) <==> nbytes <= 0x7FFF_FFF0)
    {
      hide CoverOk, NoneTouch, ListOk, At, Larger, Ahead, Dist, Kept, NoFit, Units, CoreFor, Room, Asked, PageUp, TailOfNext;
      var nunits := Units(nbytes);
      AskedAsMeant(nbytes);
      if Backed() { NoFitAbove(mem, list, live, owner, base, top, nunits, freep != 0); }
      EndBound(sz, nunits, granted);
      KeptSame(mem, owner, live);
      if freep == 0 {
        NoneFit(mem, list, nunits);
        StartList();
        NoneFit(mem, list, nunits);
        KeptNone(old(mem), mem, owner, live);
      }
      ghost var m0, o0 := mem, owner;
      o := Search(nunits, granted);
      KeptTrans(old(mem), old(owner), m0, o0, mem, owner, old(live));
      if old(Backed()) && o.Block? { RoomIff(mem, list, live, owner, base, top, sz, end, o.ap, nbytes); }
    }

    /** Any sequence of requests, none of more than 0x7FFF_FFF0 bytes, with blocks given back in any
        order: nothing traps, every block has room in memory that the process has, and the blocks held
        at the end are live and distinct. */
    method Session(reqs: seq<Request>) returns (outs: seq<Outcome>, held: set<nat>)
      requires Valid() && Backed() && Modest(reqs)
      modifies this
      ensures Valid() && Backed() && |outs| == |reqs| && Holding(reqs, outs, held, live)
      ensures forall k :: 0 <= k < |reqs| && reqs[k].Ask? ==> !outs[k].Fault? && Served(reqs[k], outs[k], end)
    {
      hide CoverOk, NoneTouch, ListOk, NoFit, CoreFor, Kept, Units, Room, Larger, PageUp;
      outs, held := [], {};
      var k := 0;
      while k < |reqs|
        invariant 0 <= k <= |reqs| && |outs| == k && Valid() && Backed() && Holding(reqs, outs, held, live)
        invariant forall j :: 0 <= j < k && reqs[j].Ask? ==> !outs[j].Fault? && Served(reqs[j], outs[j], end)
      {
        ghost var was, e := live, end;
        if reqs[k].Ask? {
          AskedAsMeant(reqs[k].nbytes);
          var o := Malloc(reqs[k].nbytes, reqs[k].granted);
          ServedLater(reqs, outs, e, end);
          HoldMore(reqs, outs, held, was, o);
          outs := outs + [o];
          if o.Block? { held := held + {k}; }
        } else {
          HoldSame(reqs, outs, held, live);
          if reqs[k].k in held {
            HoldLess(reqs, outs, held, live, reqs[k].k);
            var w := Free(outs[reqs[k].k].ap);
            held := held - {reqs[k].k};
          }
          outs := outs + [Null];
        }
        k := k + 1;
      }
    }

    /** The search of malloc for nunits units. */
    method Search(nunits: int, granted: bool) returns (o: Outcome)
      requires Valid() && Process() && freep != 0 && 0 < nunits <= 0x2000_0000
      requires NoFit(mem, list, nunits) && Gives(sz, CoreFor(sz, nunits, granted)) ==> top * 8 <= sz
      modifies this
      ensures Valid() && freep != 0 && Kept(old(mem), old(owner), mem, owner, old(live))
      ensures o.Block? ==> o.ap - 1 !in old(live) && live == old(live)[o.ap - 1 := nunits]
      ensures !o.Block? ==> live == old(live) && owner == old(owner)
      ensures !NoFit(old(mem), old(list), nunits) ==> o.Block? && owner.Keys == old(owner.Keys) && sz == old(sz) && end == old(end)
      ensures !NoFit(old(mem), old(list), nunits) ==> TailOfNext(old(mem), old(list), old(freep), nunits, o.ap)
      ensures NoFit(old(mem), old(list), nunits) ==> var b := CoreFor(old(sz), nunits, granted);
        && (o.Fault? <==> Traps(old(sz), b)) && (o.Block? <==> Gives(old(sz), b))
        && end == b.end && sz == (if b.Refused? then old(sz) else b.sz)
        && (o.Block? ==> Larger(old(owner), owner, old(sz) / 8, Asked(nunits)))
      ensures !o.Fault? ==> Process()
      ensures old(Backed()) && nunits * 8 < KERNBASE ==> !o.Fault? && Backed() && old(end) <= end
    {
      hide CoverOk, NoneTouch, ListOk, At, Larger, Ahead, Dist, Kept, NoFit, CoreFor, PageUp, TailOfNext;
      KeptSame(mem, owner, live);
      var prevp := freep;
      ghost var grown := false;
      ghost var f :| 0 <= f < |list| && list[f] == freep;
      ghost var k := Next(|list|, f);
      ghost var w := 0;
      FollowsAt(mem, list, base, f);
      AheadStart(mem, list, f, nunits);
      var p := At(mem, prevp).ptr;
      while true
        invariant Valid() && freep != 0 && live == old(live) && Kept(old(mem), old(owner), mem, owner, live)
        invariant 0 <= f < |list| && list[f] == freep && 0 <= k < |list| && p == list[k]
        invariant prevp == list[if k == 0 then |list| - 1 else k - 1]
        invariant Ahead(mem, list, k, f, nunits)
        invariant !grown ==> freep == old(freep) && mem == old(mem) && owner == old(owner) && list == old(list) && sz == old(sz) && end == old(end) && top == old(top)
        invariant grown ==> NoFit(old(mem), old(list), nunits) && Grown(old(sz), sz, end, nunits, granted)
        invariant grown ==> w in list && At(mem, w).size >= nunits && Larger(old(owner), owner, old(sz) / 8, Asked(nunits))
        invariant Process() && (old(Backed()) && nunits * 8 < KERNBASE ==> Backed() && old(end) <= end)
        decreases if grown then 0 else 1, Dist(|list|, k, f)
      {
        if At(mem, p).size >= nunits {
          ghost var m1, o1 := mem, owner;
          if !grown {
            SomeFit(mem, list, k, nunits);
            NextFound(mem, list, k, f, nunits, End(mem, p) - nunits + 1);
          }
          var ap := Take(prevp, p, nunits, k);
          if grown { LargerKeys(old(owner), o1, owner, old(sz) / 8, Asked(nunits)); }
          KeptTrans(old(mem), old(owner), m1, o1, mem, owner, old(live));
          return Block(ap);
        }
        if p == freep {
          SearchedAll(mem, list, base, k, f, nunits);
          if grown { SomeFitAt(mem, list, w, nunits); }
          assert !grown;
          var r, fault, w' := MoreCore(nunits, granted);
          p := r;
          if p == 0 { return if fault then Fault else Null; }
          grown, w := true, w';
          f :| 0 <= f < |list| && list[f] == freep;
          k := f;
          AheadStart(mem, list, f, nunits);
        } else {
          AheadStep(mem, list, base, k, f, nunits);
        }
        FollowsAt(mem, list, base, k);
        prevp := p;
        p := At(mem, p).ptr;
        k := Next(|list|, k);
      }
    }

    /** The first malloc makes a list of the empty block base alone. */
    method StartList()
      requires Valid() && freep == 0
      modifies this`mem, this`freep, this`list
      ensures Valid() && freep == base && list == [base] && At(mem, base).size == 0
    {
      mem := SetPtr(mem, base, base);
      freep := base;
      mem := SetSize(mem, base, 0);
      list := [base];
      assert Points(mem, list, 0);
    }

    /** Take nunits units from the free block p, the k-th of the list, which follows prevp. */
    method Take(prevp: int, p: int, nunits: int, ghost k: int) returns (ap: int)
      requires Valid() && freep != 0 && 0 < nunits <= At(mem, p).size && 0 <= k < |list| && p == list[k]
      requires prevp == list[if k == 0 then |list| - 1 else k - 1]
      modifies this`mem, this`freep, this`list, this`live, this`owner
      ensures Kept(old(mem), old(owner), mem, owner, old(live))
      ensures Valid() && freep == prevp != 0 && ap != 0 && ap - 1 !in old(live) && live == old(live)[ap - 1 := nunits]
      ensures owner.Keys == old(owner.Keys) && ap - 1 + nunits == End(old(mem), p)
    {
      hide CoverOk, NoneTouch, ListOk, At, Kept;
      TakeAt(mem, list, live, owner, base, k);
      if At(mem, p).size == nunits {
        ap := TakeWhole(prevp, p, k);
      } else {
        ap := TakeTail(p, nunits, k);
      }
      freep := prevp;
      FirstPositive(mem, list, base, freep);
    }

    method TakeWhole(prevp: int, p: int, ghost k: int) returns (ap: int)
      requires Valid() && freep != 0 && 0 < k < |list| && p == list[k] && prevp == list[k - 1] && p > 0 && p !in live
      modifies this`mem, this`live, this`list
      ensures ListOk(mem, list, base) && NoneTouch(mem, list) && CoverOk(mem, list, live, owner, base) && prevp in list
      ensures ap == p + 1 && live == old(live)[p := At(old(mem), p).size]
      ensures Kept(old(mem), owner, mem, owner, old(live))
    {
      hide CoverOk, NoneTouch, ListOk, At, Without, Kept, SetPtr;
      Unlink(mem, list, live, owner, base, k);
      UnlinkKeeps(mem, list, live, owner, base, prevp, p, At(mem, p).ptr, At(mem, p).size, Without(list, k));
      live := live[p := At(mem, p).size];
      mem := SetPtr(mem, prevp, At(mem, p).ptr);
      list := Without(list, k);
      assert list[k - 1] == prevp;
      ap := p + 1;
    }

    method TakeTail(p: int, nunits: int, ghost k: int) returns (ap: int)
      requires Valid() && freep != 0 && 0 < k < |list| && p == list[k] && p > 0 && 0 < nunits < At(mem, p).size
      modifies this`mem, this`live, this`owner
      ensures ListOk(mem, list, base) && NoneTouch(mem, list) && CoverOk(mem, list, live, owner, base)
      ensures ap > 1 && ap - 1 + nunits == End(old(mem), p) && ap - 1 !in old(live) && live == old(live)[ap - 1 := nunits] && owner.Keys == old(owner.Keys)
      ensures Kept(old(mem), old(owner), mem, owner, old(live))
    {
      hide CoverOk, NoneTouch, ListOk, At, Split, Carved, Kept;
      Carve(mem, list, live, owner, base, k, nunits);
      ghost var b := End(mem, p) - nunits;
      NotBase(mem, list, base, k);
      CarveKeeps(mem, list, live, owner, base, p, nunits, Split(owner, p, b));
      owner, live := Split(owner, p, b), live[b := nunits];
      ap := CarveTail(p, nunits);
    }

    method CarveTail(p: int, nunits: int) returns (ap: int)
      requires 0 < nunits < At(mem, p).size
      modifies this`mem
      ensures mem == Carved(old(mem), p, nunits) && ap == End(old(mem), p) - nunits + 1
    {
      mem := SetSize(mem, p, At(mem, p).size - nunits);
      var q := p + At(mem, p).size;
      mem := SetSize(mem, q, nunits);
      ap := q + 1;
    }
  }

  lemma LiveSize(m: Mem, list: seq<int>, live: map<int, int>, owner: map<int, int>, base: int, b: int)
    requires CoverOk(m, list, live, owner, base) && b in live
    ensures At(m, b).size == live[b] > 0 && b !in list
  {
  }

  lemma LiveAbove(m: Mem, list: seq<int>, live: map<int, int>, owner: map<int, int>, base: int, b: int)
    requires CoverOk(m, list, live, owner, base) && b in live
    ensures base < b
  {
    assert IsBlock(list, live, base, b) && Covers(m, owner, b) && b in owner;
    assert Lies(m, list, live, owner, base, b);
  }

  lemma FirstPositive(m: Mem, list: seq<int>, base: int, p: int)
    requires ListOk(m, list, base) && p in list && base > 0
    ensures p > 0
  {
  }

  /** n more units were obtained at b. */
  ghost predicate Larger(owner: map<int, int>, owner': map<int, int>, b: int, n: int) {
    forall u :: u in owner' <==> u in owner || b <= u < b + n
  }

  lemma LargerObtained(owner: map<int, int>, owner': map<int, int>, b: int, n: int)
    requires owner'.Keys == Obtained(owner, b, n).Keys
    ensures Larger(owner, owner', b, n)
  {
    assert forall u :: u in owner' <==> u in Obtained(owner, b, n);
  }

  ghost predicate NoFit(m: Mem, list: seq<int>, n: int) { forall i :: 0 <= i < |list| ==> At(m, list[i]).size < n }

  /** Every free block of at least n units lies on the way from index k forward to index f. */
  ghost predicate Ahead(m: Mem, list: seq<int>, k: int, f: int, n: int) {
    forall j :: 0 <= j < |list| && At(m, list[j]).size >= n ==> Dist(|list|, k, j) <= Dist(|list|, k, f)
  }

  lemma AheadStart(m: Mem, list: seq<int>, f: int, n: int)
    requires 0 <= f < |list|
    ensures Ahead(m, list, Next(|list|, f), f, n)
  {
    hide At;
  }

  lemma AheadStep(m: Mem, list: seq<int>, base: int, k: int, f: int, n: int)
    requires Ahead(m, list, k, f, n) && 0 <= k < |list| && 0 <= f < |list| && k != f && At(m, list[k]).size < n
    ensures Ahead(m, list, Next(|list|, k), f, n) && Dist(|list|, Next(|list|, k), f) < Dist(|list|, k, f)
  {
    hide At;
  }

  lemma SearchedAll(m: Mem, list: seq<int>, base: int, k: int, f: int, n: int)
    requires ListOk(m, list, base) && Ahead(m, list, k, f, n) && 0 <= k < |list| && 0 <= f < |list| && list[k] == list[f] && At(m, list[k]).size < n
    ensures NoFit(m, list, n)
  {
    hide At;
    assert k == f;
  }

  lemma FollowsAt(m: Mem, list: seq<int>, base: int, k: int)
    requires ListOk(m, list, base) && 0 <= k < |list|
    ensures At(m, list[k]).ptr == list[Next(|list|, k)]
  {
    assert Points(m, list, k);
  }

  /** A free block that has units is not base, and no live block. */
  lemma TakeAt(m: Mem, list: seq<int>, live: map<int, int>, owner: map<int, int>, base: int, k: int)
    requires ListOk(m, list, base) && CoverOk(m, list, live, owner, base) && 0 <= k < |list| && At(m, list[k]).size > 0 && base > 0
    ensures k > 0 && list[k] > base && list[k] !in live && list[k - 1] in list
  {
    hide At, CoverOk;
    BlockLive(m, list, live, owner, base, k);
    assert list[0] == base;
  }

  lemma BlockLive(m: Mem, list: seq<int>, live: map<int, int>, owner: map<int, int>, base: int, k: int)
    requires CoverOk(m, list, live, owner, base) && 0 <= k < |list|
    ensures list[k] !in live
  {
    FreeNotLive(m, list, live, owner, base, list[k]);
  }

  lemma FreeNotLive(m: Mem, list: seq<int>, live: map<int, int>, owner: map<int, int>, base: int, b: int)
    requires CoverOk(m, list, live, owner, base) && b in list
    ensures b !in live
  {
  }

  lemma LargerKeys(o: map<int, int>, o1: map<int, int>, o2: map<int, int>, b: int, n: int)
    requires Larger(o, o1, b, n) && o2.Keys == o1.Keys
    ensures Larger(o, o2, b, n)
  {
    assert forall u :: u in o2 <==> u in o2.Keys;
  }

  lemma KeptSame(m: Mem, owner: map<int, int>, blocks: map<int, int>)
    ensures Kept(m, owner, m, owner, blocks)
  {
  }

  /** Nothing is given out, so nothing can be lost. */
  lemma KeptNone(m: Mem, m': Mem, owner: map<int, int>, blocks: map<int, int>)
    requires owner == map[]
    ensures Kept(m, owner, m', owner, blocks)
  {
  }

  lemma PageUpPositive(sz: int)
    requires sz > 0
    ensures PageUp(sz) > 0
  {
  }

  lemma NotBase(m: Mem, list: seq<int>, base: int, k: int)
    requires ListOk(m, list, base) && 0 < k < |list|
    ensures list[k] != base && list[k] in list
  {
    assert list[0] < list[k];
  }

  /** What sbrk did to the process when it had to be asked. */
  ghost predicate Grown(sz: int, sz': int, end': int, nunits: int, granted: bool) {
    var b := CoreFor(sz, nunits, granted);
    Gives(sz, b) && end' == b.end && sz' == b.sz
  }

  /** Block ap is the tail of the first free block of n units that one meets going round from freep. */
  ghost predicate TailOfNext(m: Mem, list: seq<int>, freep: int, n: int, ap: int) {
    exists k, f :: 0 <= f < |list| && list[f] == freep && IsNext(m, list, n, k, f) && ap - 1 + n == End(m, list[k])
  }

  ghost predicate IsNext(m: Mem, list: seq<int>, n: int, k: int, f: int)
    requires 0 <= f < |list|
  {
    && 0 <= k < |list| && At(m, list[k]).size >= n
    && forall j :: 0 <= j < |list| && At(m, list[j]).size >= n ==> Dist(|list|, Next(|list|, f), k) <= Dist(|list|, Next(|list|, f), j)
  }

  lemma NextFound(m: Mem, list: seq<int>, k: int, f: int, n: int, ap: int)
    requires Ahead(m, list, k, f, n) && 0 <= k < |list| && 0 <= f < |list| && At(m, list[k]).size >= n && ap - 1 + n == End(m, list[k])
    ensures TailOfNext(m, list, list[f], n, ap)
  {
    hide At;
    assert IsNext(m, list, n, k, f);
  }

  lemma SomeFit(m: Mem, list: seq<int>, k: int, n: int)
    requires 0 <= k < |list| && At(m, list[k]).size >= n
    ensures !NoFit(m, list, n)
  {
    hide At;
  }

  lemma SomeFitAt(m: Mem, list: seq<int>, w: int, n: int)
    requires w in list && At(m, w).size >= n
    ensures !NoFit(m, list, n)
  {
    hide At;
    var k :| 0 <= k < |list| && list[k] == w;
    SomeFit(m, list, k, n);
  }

  lemma NoneFit(m: Mem, list: seq<int>, n: int)
    requires list == [] || (|list| == 1 && At(m, list[0]).size < n)
    ensures NoFit(m, list, n)
  {
  }

  /** No free block has 2^28 units, since the process has less than 2^31 bytes. */
  lemma NoFitAbove(m: Mem, list: seq<int>, live: map<int, int>, owner: map<int, int>, base: int, top: int, n: int, ready: bool)
    requires 0 < base && top * 8 < KERNBASE && (forall u :: u in owner ==> u < top)
    requires if ready then ListOk(m, list, base) && CoverOk(m, list, live, owner, base) else list == []
    ensures n * 8 >= KERNBASE ==> NoFit(m, list, n)
  {
    hide ListOk, CoverOk, At;
    if n * 8 >= KERNBASE {
      forall i | 0 <= i < |list| ensures At(m, list[i]).size < n {
        BlockBelow(m, list, live, owner, base, top, list[i]);
      }
    }
  }

  /** A block ends within the memory obtained. */
  lemma BlockBelow(m: Mem, list: seq<int>, live: map<int, int>, owner: map<int, int>, base: int, top: int, b: int)
    requires ListOk(m, list, base) && CoverOk(m, list, live, owner, base) && 0 < base && (b in list || b in live)
    requires forall u :: u in owner ==> u < top
    ensures b == base || (base < b && End(m, b) <= top)
    ensures b == base ==> At(m, b).size == 0
  {
    if b != base {
      assert IsBlock(list, live, base, b);
      BlockOwns(m, list, live, owner, base, b);
      assert Covers(m, owner, b) && Lies(m, list, live, owner, base, b);
      assert End(m, b) - 1 in owner;
    }
  }

  /** A request that does not read as positive leaves the process with no more pages than before. */
  lemma EndBound(sz: int, nunits: int, granted: bool)
    requires 0 < sz < KERNBASE && 0 < nunits <= 0x2000_0000
    ensures nunits * 8 >= KERNBASE ==> CoreFor(sz, nunits, granted).end <= KERNBASE
  {
    hide Signed;
    SignOfProduct(nunits);
  }

  /** A block has room for the bytes asked for exactly if they are at most 0x7FFF_FFF0: beyond that
      the units run past the end of the process, or their number has wrapped. */
  lemma RoomIff(m: Mem, list: seq<int>, live: map<int, int>, owner: map<int, int>, base: int, top: int, sz: int, end: int, ap: int, nbytes: int)
    requires ListOk(m, list, base) && CoverOk(m, list, live, owner, base) && 0 < base && (forall u :: u in owner ==> u < top)
    requires 0 <= nbytes < WRAP && ap - 1 in live && live[ap - 1] == Units(nbytes)
    requires if Units(nbytes) * 8 < KERNBASE then top * 8 <= sz && end == PageUp(sz) else end <= KERNBASE
    ensures Room(ap, Units(nbytes), nbytes, end) <==> nbytes <= 0x7FFF_FFF0
  {
    hide Units, ListOk, CoverOk, At;
    AskedAsMeant(nbytes);
    LiveSize(m, list, live, owner, base, ap - 1);
    LiveAbove(m, list, live, owner, base, ap - 1);
    BlockBelow(m, list, live, owner, base, top, ap - 1);
  }

  lemma PhantomCore()
    ensures CoreFor(12288, Units(40000), true) == Set(52296, 53248)
    ensures CoreFor(52296, Units(0x8000_0000), true) == Set(52296, 53248)
    ensures Units(40000) == 5001 && Units(0x8000_0000) == 0x1000_0001
  {
  }

  lemma ServedLater(reqs: seq<Request>, outs: seq<Outcome>, e: int, end: int)
    requires |outs| <= |reqs| && e <= end
    ensures forall j :: 0 <= j < |outs| && reqs[j].Ask? && Served(reqs[j], outs[j], e) ==> Served(reqs[j], outs[j], end)
  {
    hide Units;
  }

  /** A request that gets a new block, or none. */
  lemma HoldMore(reqs: seq<Request>, outs: seq<Outcome>, held: set<nat>, live: map<int, int>, o: Outcome)
    requires Holding(reqs, outs, held, live) && |outs| < |reqs| && reqs[|outs|].Ask? && (o.Block? ==> o.ap - 1 !in live)
    ensures o.Block? ==> Holding(reqs, outs + [o], held + {|outs|}, live[o.ap - 1 := Units(reqs[|outs|].nbytes)])
    ensures Holding(reqs, outs + [o], held, live)
  {
    hide Units;
    var os := outs + [o];
    forall k | k in held ensures os[k] == outs[k] && Held(reqs[k], os[k], live) {}
  }

  lemma HoldSame(reqs: seq<Request>, outs: seq<Outcome>, held: set<nat>, live: map<int, int>)
    requires Holding(reqs, outs, held, live) && |outs| < |reqs|
    ensures Holding(reqs, outs + [Null], held, live)
  {
    hide Held;
    var os := outs + [Null];
    forall k | k in held ensures os[k] == outs[k] {}
  }

  lemma HoldLess(reqs: seq<Request>, outs: seq<Outcome>, held: set<nat>, live: map<int, int>, k: nat)
    requires Holding(reqs, outs, held, live) && k in held && |outs| < |reqs|
    ensures outs[k].Block? && outs[k].ap - 1 in live
    ensures Holding(reqs, outs + [Null], held - {k}, live - {outs[k].ap - 1})
  {
    hide Units;
    var os, less := outs + [Null], live - {outs[k].ap - 1};
    assert Held(reqs[k], outs[k], live);
    forall j | j in held && j != k ensures os[j] == outs[j] && Held(reqs[j], os[j], less) { assert Held(reqs[j], outs[j], live); }
  }

  /** A live block whose units can only lie in the n places from lo on lies there. */
  lemma OnlyPlace(m: Mem, list: seq<int>, live: map<int, int>, owner: map<int, int>, base: int, b: int, lo: int, n: int)
    requires ListOk(m, list, base) && CoverOk(m, list, live, owner, base) && b in live && live[b] == n
    requires forall u :: u in owner && owner[u] == b ==> lo <= u < lo + n
    ensures b == lo && forall u :: lo <= u < lo + n ==> u in owner && owner[u] == b
  {
    LiveSize(m, list, live, owner, base, b);
    assert IsBlock(list, live, base, b) && Covers(m, owner, b);
    assert b in owner && End(m, b) - 1 in owner;
  }

  /** The first block of the runs below owns the lowest units. */
  ghost predicate Low(owner: map<int, int>) {
    (forall u :: u in owner ==> 1536 <= u) && forall u :: 1536 <= u < 6537 ==> u in owner && owner[u] == 1536
  }

  /** The failing case, on a process of three pages: after a request of 40000 bytes the process ends
      in the middle of a page, and a request of 2^31 bytes returns a block for which sbrk gave nothing. */
  method NoRoomRun() returns (h: Heap, o: Outcome)
    ensures fresh(h) && h.Valid() && h.Process() && h.freep != 0 && h.sz == 52296 && h.end == 53248
    ensures o.Block? && !Room(o.ap, Units(0x8000_0000), 0x8000_0000, h.end)
    ensures o.ap == 6538
    ensures h.live == map[1536 := 5001, 6537 := 0x1000_0001] && 6537 in h.owner && h.owner[6537] == 6537 && Low(h.owner)
  {
    hide NoFit, CoreFor, Units, Larger, Kept, Room, ListOk, CoverOk, NoneTouch, Asked;
    PhantomCore();
    h := new Heap(1, 12288);
    NoneFit(h.mem, h.list, Units(40000));
    var first := h.Malloc(40000, true);
    FirstPlace(h.mem, h.list, h.live, h.owner, h.base, first.ap - 1);
    ghost var m1, o1 := h.mem, h.owner;
    o := h.Malloc(0x8000_0000, true);
    SecondPlace(m1, o1, h.mem, h.list, h.live, h.owner, h.base, o.ap - 1);
  }

  lemma FirstPlace(m: Mem, list: seq<int>, live: map<int, int>, owner: map<int, int>, base: int, b: int)
    requires ListOk(m, list, base) && CoverOk(m, list, live, owner, base) && live == map[b := 5001] && Larger(map[], owner, 1536, Asked(5001))
    ensures b == 1536 && (forall u :: u in owner <==> 1536 <= u < 6537) && forall u :: 1536 <= u < 6537 ==> owner[u] == 1536
  {
    hide ListOk, CoverOk;
    OnlyPlace(m, list, live, owner, base, b, 1536, 5001);
  }

  lemma SecondPlace(m1: Mem, o1: map<int, int>, m: Mem, list: seq<int>, live: map<int, int>, owner: map<int, int>, base: int, b: int)
    requires ListOk(m, list, base) && CoverOk(m, list, live, owner, base) && live == map[1536 := 5001][b := 0x1000_0001] && b != 1536
    requires (forall u :: u in o1 <==> 1536 <= u < 6537) && (forall u :: 1536 <= u < 6537 ==> o1[u] == 1536)
    requires Larger(o1, owner, 6537, Asked(0x1000_0001)) && Kept(m1, o1, m, owner, map[1536 := 5001])
    ensures b == 6537 && 6537 in owner && owner[6537] == 6537 && Low(owner)
  {
    hide ListOk, CoverOk;
    forall u | 1536 <= u < 6537 ensures u in owner && owner[u] == 1536 { assert u in o1 && o1[u] in map[1536 := 5001]; }
    OnlyPlace(m, list, live, owner, base, b, 6537, 0x1000_0001);
  }

  /** What such a block leads to.  sbrk gives its memory out again. */
  method OverlapRun() returns (h: Heap, o: Outcome, addr: int)
    ensures o.Block? && addr != -1 && addr / 8 in h.owner && h.owner[addr / 8] == o.ap - 1 && o.ap - 1 in h.live
  {
    hide Room, ListOk, CoverOk, NoneTouch, Units;
    h, o := NoRoomRun();
    addr := h.Sbrk(32768, true);
  }

  /** And once it is freed, a request at the bound itself gets a block without room from it. */
  method BoundRun() returns (h: Heap, o: Outcome)
    ensures o.Block? && !Room(o.ap, Units(0x7FFF_FFF0), 0x7FFF_FFF0, h.end)
  {
    hide Kept, ListOk, CoverOk, NoneTouch, NoFit, CoreFor, Units, Room, Low;
    BoundUnits();
    var p;
    h, p := NoRoomRun();
    ghost var m0, o0 := h.mem, h.owner;
    var w := h.Free(p.ap);
    LowKept(m0, o0, h.mem, h.owner, h.live);
    SomeFitAt(h.mem, h.list, w, Units(0x7FFF_FFF0));
    ghost var m1, o1, l1 := h.mem, h.owner, h.live;
    o := h.Malloc(0x7FFF_FFF0, true);
    LowKept(m1, o1, h.mem, h.owner, l1);
    FarOut(h.mem, h.list, h.live, h.owner, h.base, o.ap);
  }

  lemma BoundUnits()
    ensures Units(0x7FFF_FFF0) == 0x0FFF_FFFF && Units(0x8000_0000) == 0x1000_0001
  {
  }

  lemma LowKept(m: Mem, o: map<int, int>, m': Mem, o': map<int, int>, blocks: map<int, int>)
    requires Low(o) && Kept(m, o, m', o', blocks) && o'.Keys == o.Keys && 1536 in blocks
    ensures Low(o')
  {
    hide At;
    forall u | u in o' ensures 1536 <= u { assert u in o'.Keys; }
  }

  /** A block other than the first begins behind it, so 2^28 - 1 units reach far past the pages. */
  lemma FarOut(m: Mem, list: seq<int>, live: map<int, int>, owner: map<int, int>, base: int, ap: int)
    requires ListOk(m, list, base) && CoverOk(m, list, live, owner, base) && Low(owner) && ap - 1 in live && ap - 1 != 1536
    ensures !Room(ap, 0x0FFF_FFFF, 0x7FFF_FFF0, 53248)
  {
    hide ListOk, At;
    LiveSize(m, list, live, owner, base, ap - 1);
    assert IsBlock(list, live, base, ap - 1) && Covers(m, owner, ap - 1);
    assert ap - 1 in owner && owner[ap - 1] == ap - 1;
  }
}
