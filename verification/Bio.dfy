/** The buffer cache of bio.c over a disk that serves each request at once (memide.c). */
module BufferCache {
  import opened BioSpec

  /** The list runs from the most to the least recently released buffer. */
  ghost predicate ByRelease(order: seq<int>, released: seq<int>, now: int) {
    && (forall k :: 0 <= k < |order| ==> 0 <= order[k] < |released| && released[order[k]] < now)
    && (forall j, k :: 0 <= j < k < |order| ==> released[order[j]] > released[order[k]])
  }

  /** Blocks have the same latest contents in both states. */
  ghost predicate SameBlocks(bufs: seq<Buf>, disk: map<Key, Block>, bufs': seq<Buf>, disk': map<Key, Block>) {
    forall k: Key :: Latest(bufs', disk', k) == Latest(bufs, disk, k)
  }

  /** The block of key now has the given contents, the other blocks are as before. */
  ghost predicate OneBlock(bufs: seq<Buf>, disk: map<Key, Block>, bufs': seq<Buf>, disk': map<Key, Block>, key: Key, data: Block) {
    forall k: Key :: Latest(bufs', disk', k) == if k == key then data else Latest(bufs, disk, k)
  }

  /** Node n of the list is its head.  order, released and now are specification only: the list, and
      when the last holder of each buffer released it. */
  class BCache {
    const n: int
    const next: array<int>
    const prev: array<int>
    const buf: array<Buf>
    var disk: map<Key, Block>
    ghost var order: seq<int>
    ghost var released: seq<int>
    ghost var now: int

    ghost predicate Valid()
      reads this, next, prev, buf
    {
      && next != prev && 0 <= n && next.Length == n + 1 && prev.Length == n + 1 && buf.Length == n && |released| == n
      && Linked(next[..], prev[..], order, n) && |order| == n && ByRelease(order, released, now)
      && Unique(buf[..]) && Agree(buf[..], disk)
    }

    /** All buffers start without a block, in a list that binit makes one push at a time. */
    constructor (n: nat, disk: map<Key, Block>)
      ensures Valid() && this.n == n && this.disk == disk && fresh(next) && fresh(prev) && fresh(buf)
      ensures forall k: Key :: Latest(buf[..], disk, k) == OnDisk(disk, k)
    {
      this.n, this.disk := n, disk;
      next, prev := new int[n + 1], new int[n + 1];
      buf := new Buf[n](_ => Buf(0, 0, false, false, 0, []));
      order, released, now := [], seq(n, i => i), n;
      new;
      hide Linked;
      prev[n] := n;
      next[n] := n;
      EmptyList(next[..], prev[..], n);
      var b := 0;
      while b < n
        invariant 0 <= b <= n && Linked(next[..], prev[..], order, n) && |order| == b
        invariant forall k :: 0 <= k < b ==> order[k] == b - 1 - k
        invariant this.disk == disk && |released| == n && now == n && forall i :: 0 <= i < n ==> released[i] == i
        invariant fresh(next) && fresh(prev) && fresh(buf) && forall i :: 0 <= i < n ==> buf[i] == Buf(0, 0, false, false, 0, [])
      {
        PushFirst(b);
        b := b + 1;
      }
    }

    /** Link buffer b in at the head of the list. */
    method PushFirst(b: int)
      requires next != prev && 0 <= b < n && next.Length == n + 1 && prev.Length == n + 1 && b !in order
      requires Linked(next[..], prev[..], order, n)
      modifies next, prev, this`order
      ensures Linked(next[..], prev[..], order, n) && order == [b] + old(order)
    {
      hide Linked;
      Push(next[..], prev[..], order, n, b);
      next[b] := next[n];
      prev[b] := n;
      prev[next[n]] := b;
      next[n] := b;
      order := [b] + order;
      assert next[..] == old(next[..])[b := old(next[n])][n := b];
      assert prev[..] == old(prev[..])[b := n][old(next[n]) := b];
    }

    /** The buffer that holds the block, -1 if none does. */
    method FindCached(dev: int, blockno: int) returns (b: int)
      requires Valid()
      ensures b == -1 ==> forall i :: 0 <= i < n ==> KeyOf(buf[i]) != (dev, blockno)
      ensures b != -1 ==> 0 <= b < n && KeyOf(buf[b]) == (dev, blockno)
    {
      hide Linked, Unique, Agree, ByRelease;
      ghost var k := 0;
      ListEnds(next[..], prev[..], order, n);
      b := next[n];
      while b != n
        invariant 0 <= k <= n && b == Node(order, n, k)
        invariant forall j :: 0 <= j < k ==> KeyOf(buf[order[j]]) != (dev, blockno)
        decreases n - k
      {
        ListStep(next[..], prev[..], order, n, k);
        if buf[b].dev == dev && buf[b].blockno == blockno {
          return;
        }
        b := next[b];
        k := k + 1;
      }
      b := -1;
      forall i | 0 <= i < n ensures KeyOf(buf[i]) != (dev, blockno) { var j := Listed(order, n, i); }
    }

    /** The idle clean buffer released longest ago, -1 if all are in use or pinned by the log. */
    method FindVictim() returns (b: int)
      requires Valid()
      ensures b == -1 ==> forall i :: 0 <= i < n ==> !Idle(buf[i])
      ensures b != -1 ==> 0 <= b < n && Idle(buf[b]) && forall i :: 0 <= i < n && Idle(buf[i]) ==> released[b] <= released[i]
    {
      hide Linked, Unique, Agree, ByRelease;
      ghost var k := n - 1;
      ListEnds(next[..], prev[..], order, n);
      b := prev[n];
      while b != n
        invariant -1 <= k < n && b == Node(order, n, k)
        invariant forall j :: k < j < n ==> !Idle(buf[order[j]])
        decreases k + 1
      {
        ListStep(next[..], prev[..], order, n, k);
        if buf[b].refcnt == 0 && !buf[b].dirty {
          forall i | 0 <= i < n && Idle(buf[i]) ensures released[b] <= released[i] {
            var j := Listed(order, n, i);
            ReleaseOrder(order, released, now, j, k);
          }
          return;
        }
        b := prev[b];
        k := k - 1;
      }
      b := -1;
      forall i | 0 <= i < n ensures !Idle(buf[i]) { var j := Listed(order, n, i); }
    }

    /** A buffer for the block, held; -1 stands for the panic when there is none.  No block changes. */
    method Bget(dev: int, blockno: int) returns (b: int)
      requires Valid()
      modifies buf
      ensures Valid() && SameBlocks(old(buf[..]), disk, buf[..], disk)
      ensures b == -1 ==> buf[..] == old(buf[..]) && forall i :: 0 <= i < n ==> KeyOf(buf[i]) != (dev, blockno) && !Idle(buf[i])
      ensures b != -1 ==> 0 <= b < n && KeyOf(buf[b]) == (dev, blockno) && buf[..] == old(buf[..])[b := buf[b]]
      ensures b != -1 && KeyOf(old(buf[b])) == (dev, blockno) ==> buf[b] == old(buf[b]).(refcnt := old(buf[b]).refcnt + 1)
      ensures b != -1 && KeyOf(old(buf[b])) != (dev, blockno) ==>
        && (forall i :: 0 <= i < n ==> KeyOf(old(buf[i])) != (dev, blockno))
        && Idle(old(buf[b])) && (forall i :: 0 <= i < n && Idle(old(buf[i])) ==> released[b] <= released[i])
        && buf[b].refcnt == 1 && !buf[b].valid && !buf[b].dirty
    {
      hide Linked, ByRelease;
      b := FindCached(dev, blockno);
      if b != -1 {
        Replace(b, buf[b].(refcnt := buf[b].refcnt + 1));
        return;
      }
      b := FindVictim();
      if b != -1 {
        Replace(b, buf[b].(dev := dev, blockno := blockno, valid := false, dirty := false, refcnt := 1));
      }
    }

    /** Change the fields of buffer i, not touching dirty data. */
    method Replace(i: int, b: Buf)
      requires Valid() && 0 <= i < n && BufOk(b, disk)
      requires buf[i].dirty || b.dirty ==> b.dirty && buf[i].dirty && KeyOf(b) == KeyOf(buf[i]) && b.data == buf[i].data
      requires KeyOf(b) == KeyOf(buf[i]) || forall j :: 0 <= j < n ==> KeyOf(buf[j]) != KeyOf(b)
      modifies buf
      ensures Valid() && buf[..] == old(buf[..])[i := b] && SameBlocks(old(buf[..]), disk, buf[..], disk)
    {
      hide Linked, ByRelease, Latest;
      forall k: Key ensures Latest(buf[..][i := b], disk, k) == Latest(buf[..], disk, k) { LatestKept(buf[..], disk, i, b, k); }
      buf[i] := b;
      assert buf[..] == old(buf[..])[i := b];
      KeyKept(old(buf[..]), i, b);
    }

    /** A held buffer with the latest contents of the block. */
    method Bread(dev: int, blockno: int) returns (b: int)
      requires Valid() && dev != 0
      modifies buf
      ensures Valid() && SameBlocks(old(buf[..]), disk, buf[..], disk)
      ensures b != -1 ==> && 0 <= b < n && KeyOf(buf[b]) == (dev, blockno) && buf[b].refcnt > 0 && buf[b].valid
                          && buf[b].data == Latest(old(buf[..]), disk, (dev, blockno))
      ensures b == -1 ==> forall i :: 0 <= i < n ==> KeyOf(buf[i]) != (dev, blockno) && !Idle(buf[i])
    {
      hide Linked, ByRelease, Latest;
      b := Bget(dev, blockno);
      if b == -1 { return; }
      assert BufOk(buf[b], disk);
      if !buf[b].valid {
        Replace(b, buf[b].(valid := true, data := OnDisk(disk, (dev, blockno))));
      }
      ValidIsLatest(buf[..], disk, b);
    }

    /** The holder stores data in buffer b and hands it to log_write, which pins it. */
    method LogWrite(b: int, data: Block)
      requires Valid() && 0 <= b < n && buf[b].refcnt > 0 && buf[b].dev != 0 && buf[b].valid
      modifies buf
      ensures Valid() && buf[..] == old(buf[..])[b := old(buf[b]).(data := data, dirty := true)]
      ensures OneBlock(old(buf[..]), disk, buf[..], disk, KeyOf(old(buf[b])), data)
    {
      hide Linked, ByRelease, Latest;
      var x := buf[b].(data := data, dirty := true);
      buf[b] := x;
      assert buf[..] == old(buf[..])[b := x];
      forall k: Key ensures Latest(buf[..], disk, k) == if k == KeyOf(x) then data else Latest(old(buf[..]), disk, k) {
        LatestSet(old(buf[..]), disk, b, x, k);
      }
      KeyKept(old(buf[..]), b, x);
    }

    /** The holder stores data in buffer b and calls bwrite. */
    method Bwrite(b: int, data: Block)
      requires Valid() && 0 <= b < n && buf[b].refcnt > 0 && buf[b].dev != 0
      modifies buf, this`disk
      ensures Valid() && buf[..] == old(buf[..])[b := old(buf[b]).(data := data, valid := true, dirty := false)]
      ensures disk == old(disk)[KeyOf(old(buf[b])) := data]
      ensures OneBlock(old(buf[..]), old(disk), buf[..], disk, KeyOf(old(buf[b])), data)
    {
      hide Linked, ByRelease, Latest;
      var x := buf[b].(data := data, valid := true, dirty := false);
      var d := disk[KeyOf(x) := data];
      disk := d;
      buf[b] := x;
      assert buf[..] == old(buf[..])[b := x];
      forall k: Key ensures Latest(buf[..], disk, k) == if k == KeyOf(x) then data else Latest(old(buf[..]), old(disk), k) {
        LatestWritten(old(buf[..]), old(disk), b, x, k);
      }
      KeyKept(old(buf[..]), b, x);
      AgreeWritten(old(buf[..]), old(disk), b, x);
    }

    /** Give up buffer b.  The last holder to do so moves it to the head of the list. */
    method Brelse(b: int)
      requires Valid() && 0 <= b < n && buf[b].refcnt > 0
      modifies buf, next, prev, this`order, this`released, this`now
      ensures Valid() && buf[..] == old(buf[..])[b := old(buf[b]).(refcnt := old(buf[b]).refcnt - 1)]
      ensures SameBlocks(old(buf[..]), disk, buf[..], disk)
      ensures if buf[b].refcnt == 0 then order[0] == b && released == old(released)[b := old(now)] && now == old(now) + 1
              else order == old(order) && released == old(released) && now == old(now)
    {
      hide Linked, ByRelease, Latest, SameBlocks, Unique, Agree;
      assert BufOk(buf[b], disk) by { BufAt(buf[..], disk, b); }
      Replace(b, buf[b].(refcnt := buf[b].refcnt - 1));
      if buf[b].refcnt == 0 {
        MoveFirst(b);
      }
    }

    method MoveFirst(b: int)
      requires Valid() && 0 <= b < n
      modifies next, prev, this`order, this`released, this`now
      ensures Valid() && |order| > 0 && order[0] == b && released == old(released)[b := old(now)] && now == old(now) + 1
    {
      hide Linked, Latest, Unique, Agree, ByRelease;
      ListEnds(next[..], prev[..], order, n);
      ghost var k := Listed(order, n, b);
      Remove(next[..], prev[..], order, n, k);
      WithoutMembers(order, n, k);
      ghost var order0 := order;
      prev[next[b]] := prev[b];
      next[prev[b]] := next[b];
      assert next[..] == old(next[..])[old(prev[b]) := old(next[b])];
      assert prev[..] == old(prev[..])[old(next[b]) := old(prev[b])];
      order := Without(order, k);
      PushFirst(b);
      Newest(order0, released, now, k);
      released, now := released[b := now], now + 1;
    }
  }

  lemma EmptyList(next: seq<int>, prev: seq<int>, n: int)
    requires 0 <= n && |next| == n + 1 && |prev| == n + 1 && next[n] == n && prev[n] == n
    ensures Linked(next, prev, [], n)
  {
    assert LinkAt(next, prev, [], n, -1);
  }

  lemma ListEnds(next: seq<int>, prev: seq<int>, order: seq<int>, n: int)
    requires Linked(next, prev, order, n)
    ensures next[n] == Node(order, n, 0) && prev[n] == Node(order, n, |order| - 1) && Members(order, n)
  {
    assert LinkAt(next, prev, order, n, -1) && LinkAt(next, prev, order, n, |order| - 1);
  }

  lemma ListStep(next: seq<int>, prev: seq<int>, order: seq<int>, n: int, k: int)
    requires Linked(next, prev, order, n) && 0 <= k < |order|
    ensures 0 <= order[k] < n && next[order[k]] == Node(order, n, k + 1) && prev[order[k]] == Node(order, n, k - 1)
  {
    assert LinkAt(next, prev, order, n, k) && LinkAt(next, prev, order, n, k - 1);
  }

  lemma ReleaseOrder(order: seq<int>, released: seq<int>, now: int, j: int, k: int)
    requires ByRelease(order, released, now) && 0 <= j <= k < |order|
    ensures 0 <= order[j] < |released| && 0 <= order[k] < |released| && released[order[k]] <= released[order[j]]
  {
  }

  lemma KeyKept(bufs: seq<Buf>, i: int, b: Buf)
    requires Unique(bufs) && 0 <= i < |bufs|
    requires KeyOf(b) == KeyOf(bufs[i]) || forall j :: 0 <= j < |bufs| ==> KeyOf(bufs[j]) != KeyOf(b)
    ensures Unique(bufs[i := b])
  {
  }

  lemma AgreeWritten(bufs: seq<Buf>, disk: map<Key, Block>, i: int, b: Buf)
    requires Unique(bufs) && Agree(bufs, disk) && 0 <= i < |bufs| && KeyOf(b) == KeyOf(bufs[i]) && b.dev != 0
    requires b.valid && !b.dirty && b.refcnt >= 0
    ensures Agree(bufs[i := b], disk[KeyOf(b) := b.data])
  {
    var disk', bufs' := disk[KeyOf(b) := b.data], bufs[i := b];
    forall j | 0 <= j < |bufs'| ensures BufOk(bufs'[j], disk') {
      assert BufOk(bufs[j], disk);
    }
  }

  lemma BufAt(bufs: seq<Buf>, disk: map<Key, Block>, i: int)
    requires Agree(bufs, disk) && 0 <= i < |bufs|
    ensures BufOk(bufs[i], disk)
  {
  }

  /** Releasing buffer k now makes it the most recently released. */
  lemma Newest(order: seq<int>, released: seq<int>, now: int, k: int)
    requires ByRelease(order, released, now) && 0 <= k < |order|
    ensures ByRelease([order[k]] + Without(order, k), released[order[k] := now], now + 1)
  {
  }
}
