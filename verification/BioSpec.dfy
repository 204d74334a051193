/** The buffer cache's list of all buffers (bio.c): circular, doubly linked, through a head that is
    node n, the buffers being nodes 0 to n - 1. */
module BioSpec {

  /** The k-th buffer of the list; the head before the first and after the last. */
  function Node(order: seq<int>, n: int, k: int): int { if 0 <= k < |order| then order[k] else n }

  ghost predicate LinkAt(next: seq<int>, prev: seq<int>, order: seq<int>, n: int, k: int) {
    var a, b := Node(order, n, k), Node(order, n, k + 1);
    0 <= a < |next| && 0 <= b < |prev| && next[a] == b && prev[b] == a
  }

  ghost predicate Members(order: seq<int>, n: int) {
    && (forall k :: 0 <= k < |order| ==> 0 <= order[k] < n)
    && (forall j, k :: 0 <= j < k < |order| ==> order[j] != order[k])
  }

  /** next and prev run through order and back. */
  ghost predicate Linked(next: seq<int>, prev: seq<int>, order: seq<int>, n: int) {
    && 0 <= n && |next| == n + 1 && |prev| == n + 1 && Members(order, n)
    && forall k :: -1 <= k < |order| ==> LinkAt(next, prev, order, n, k)
  }

  function Without(order: seq<int>, k: int): (r: seq<int>)
    requires 0 <= k < |order|
    ensures |r| == |order| - 1
    ensures forall j :: 0 <= j < k ==> r[j] == order[j]
    ensures forall j :: k <= j < |r| ==> r[j] == order[j + 1]
  {
    order[..k] + order[k + 1..]
  }

  /** Different places of the list are different nodes. */
  lemma NodesDiffer(order: seq<int>, n: int, j: int, k: int)
    requires Members(order, n) && -1 <= j < k <= |order| && !(j == -1 && k == |order|)
    ensures Node(order, n, j) != Node(order, n, k)
  {
  }

  /** Taking buffer b out of the list. */
  lemma Remove(next: seq<int>, prev: seq<int>, order: seq<int>, n: int, k: int)
    requires Linked(next, prev, order, n) && 0 <= k < |order|
    ensures var b := order[k];
      && 0 <= next[b] <= n && 0 <= prev[b] <= n
      && Linked(next[prev[b] := next[b]], prev[next[b] := prev[b]], Without(order, k), n)
  {
    hide Without;
    var b := order[k];
    assert LinkAt(next, prev, order, n, k) && LinkAt(next, prev, order, n, k - 1);
    var next', prev', order' := next[prev[b] := next[b]], prev[next[b] := prev[b]], Without(order, k);
    WithoutMembers(order, n, k);
    forall j | -1 <= j < |order'| ensures LinkAt(next', prev', order', n, j) { RemoveAt(next, prev, order, n, k, j); }
  }

  lemma WithoutMembers(order: seq<int>, n: int, k: int)
    requires Members(order, n) && 0 <= k < |order|
    ensures Members(Without(order, k), n) && order[k] !in Without(order, k)
  {
  }

  lemma RemoveAt(next: seq<int>, prev: seq<int>, order: seq<int>, n: int, k: int, j: int)
    requires Linked(next, prev, order, n) && 0 <= k < |order| && -1 <= j < |order| - 1
    requires var b := order[k]; 0 <= next[b] <= n && 0 <= prev[b] <= n
    ensures var b := order[k]; LinkAt(next[prev[b] := next[b]], prev[next[b] := prev[b]], Without(order, k), n, j)
  {
    hide Without;
    var b := order[k];
    assert LinkAt(next, prev, order, n, k) && LinkAt(next, prev, order, n, k - 1);
    if j < k - 1 {
      assert LinkAt(next, prev, order, n, j);
      NodesDiffer(order, n, j, k - 1);
      NodesDiffer(order, n, j + 1, k + 1);
    } else if j > k - 1 {
      assert LinkAt(next, prev, order, n, j + 1);
      NodesDiffer(order, n, k - 1, j + 1);
      if j + 2 <= |order| && k + 1 < j + 2 { NodesDiffer(order, n, k + 1, j + 2); }
    }
  }

  /** Putting buffer b first. */
  lemma Push(next: seq<int>, prev: seq<int>, order: seq<int>, n: int, b: int)
    requires Linked(next, prev, order, n) && 0 <= b < n && b !in order
    ensures 0 <= next[n] <= n
    ensures Linked(next[b := next[n]][n := b], prev[b := n][next[n] := b], [b] + order, n)
  {
    assert LinkAt(next, prev, order, n, -1);
    var next', prev', order' := next[b := next[n]][n := b], prev[b := n][next[n] := b], [b] + order;
    forall j | -1 <= j < |order'| ensures LinkAt(next', prev', order', n, j) {
      if j > 0 {
        assert LinkAt(next, prev, order, n, j - 1);
        NodesDiffer(order, n, 0, j);
        if j < |order| + 1 { assert Node(order', n, j) == Node(order, n, j - 1); }
      }
    }
  }

  ghost function Below(n: nat): (s: set<int>)
    ensures |s| == n && forall i :: i in s <==> 0 <= i < n
  {
    if n == 0 then {} else Below(n - 1) + {n - 1}
  }

  ghost function Elements(order: seq<int>): (s: set<int>)
    ensures forall i :: i in s <==> i in order
  {
    set i | i in order
  }

  lemma {:induction false} ElementCount(order: seq<int>, n: int)
    requires Members(order, n)
    ensures |Elements(order)| == |order|
  {
    if order != [] {
      var rest, last := order[..|order| - 1], order[|order| - 1];
      ElementCount(rest, n);
      assert order == rest + [last] && last !in rest;
      assert Elements(order) == Elements(rest) + {last};
    }
  }

  /** n different buffers out of n are all of them. */
  lemma Listed(order: seq<int>, n: int, i: int) returns (k: int)
    requires Members(order, n) && |order| == n && 0 <= i < n
    ensures 0 <= k < n && order[k] == i
  {
    ElementCount(order, n);
    var all, some := Below(n), Elements(order);
    assert forall j :: j in some ==> j in all;
    assert some <= all;
    assert all * some == some;
    assert |all - some| == 0;
    assert i in all && i !in all - some;
    k :| 0 <= k < |order| && order[k] == i;
  }

  // ---------------------------------------------------------------- contents

  type Block = seq<int>
  type Key = (int, int)                // device and block number

  datatype Buf = Buf(dev: int, blockno: int, valid: bool, dirty: bool, refcnt: int, data: Block)

  function KeyOf(b: Buf): Key { (b.dev, b.blockno) }
  predicate Idle(b: Buf) { b.refcnt == 0 && !b.dirty }

  function OnDisk(disk: map<Key, Block>, k: Key): Block { if k in disk then disk[k] else [] }

  /** At most one buffer holds any block of a device other than 0. */
  ghost predicate Unique(bufs: seq<Buf>) {
    forall i, j :: 0 <= i < j < |bufs| && bufs[i].dev != 0 ==> KeyOf(bufs[i]) != KeyOf(bufs[j])
  }

  ghost predicate BufOk(b: Buf, disk: map<Key, Block>) {
    b.refcnt >= 0 && (b.dirty ==> b.valid) && (b.valid && !b.dirty ==> b.data == OnDisk(disk, KeyOf(b)))
  }

  ghost predicate Agree(bufs: seq<Buf>, disk: map<Key, Block>) { forall i :: 0 <= i < |bufs| ==> BufOk(bufs[i], disk) }

  /** The first dirty buffer with the given block from i on, |bufs| if there is none. */
  function Dirty(bufs: seq<Buf>, k: Key, i: nat): (r: nat)
    requires i <= |bufs|
    ensures i <= r <= |bufs| && (r < |bufs| ==> bufs[r].dirty && KeyOf(bufs[r]) == k)
    ensures forall j :: i <= j < r ==> !(bufs[j].dirty && KeyOf(bufs[j]) == k)
    decreases |bufs| - i
  {
    if i == |bufs| || (bufs[i].dirty && KeyOf(bufs[i]) == k) then i else Dirty(bufs, k, i + 1)
  }

  predicate Hit(b: Buf, k: Key) { b.dirty && KeyOf(b) == k }

  lemma DirtySame(a: seq<Buf>, b: seq<Buf>, k: Key)
    requires |a| == |b| && forall j :: 0 <= j < |a| ==> (Hit(a[j], k) <==> Hit(b[j], k))
    ensures Dirty(a, k, 0) == Dirty(b, k, 0)
  {
    hide Dirty;
    var x, y := Dirty(a, k, 0), Dirty(b, k, 0);
    assert x < |a| ==> Hit(a[x], k);
    assert y < |b| ==> Hit(b[y], k);
  }

  /** The latest contents of a block: those of the buffer that has yet to be written, or the disk's. */
  function Latest(bufs: seq<Buf>, disk: map<Key, Block>, k: Key): Block {
    var i := Dirty(bufs, k, 0);
    if i < |bufs| then bufs[i].data else OnDisk(disk, k)
  }

  /** A valid buffer has the latest contents of its block. */
  lemma ValidIsLatest(bufs: seq<Buf>, disk: map<Key, Block>, i: int)
    requires Unique(bufs) && Agree(bufs, disk) && 0 <= i < |bufs| && bufs[i].valid && bufs[i].dev != 0
    ensures bufs[i].data == Latest(bufs, disk, KeyOf(bufs[i]))
  {
    hide Dirty, OnDisk;
    var d := Dirty(bufs, KeyOf(bufs[i]), 0);
    assert BufOk(bufs[i], disk);
    if d < |bufs| { assert d == i; }
  }

  /** Changing one buffer in a way that keeps it clean, or keeps its data if dirty, changes no block. */
  lemma LatestKept(bufs: seq<Buf>, disk: map<Key, Block>, i: int, b: Buf, k: Key)
    requires 0 <= i < |bufs| && (bufs[i].dirty || b.dirty ==> b.dirty && bufs[i].dirty && KeyOf(b) == KeyOf(bufs[i]) && b.data == bufs[i].data)
    ensures Latest(bufs[i := b], disk, k) == Latest(bufs, disk, k)
  {
    hide Dirty, OnDisk;
    DirtySame(bufs, bufs[i := b], k);
  }

  /** Making buffer i dirty with new data changes its block and no other. */
  lemma LatestSet(bufs: seq<Buf>, disk: map<Key, Block>, i: int, b: Buf, k: Key)
    requires Unique(bufs) && 0 <= i < |bufs| && b.dirty && KeyOf(b) == KeyOf(bufs[i]) && b.dev != 0
    ensures Latest(bufs[i := b], disk, k) == if k == KeyOf(b) then b.data else Latest(bufs, disk, k)
  {
    hide Dirty, OnDisk;
    var bufs' := bufs[i := b];
    if k == KeyOf(b) {
      assert Hit(bufs'[i], k);
      assert forall j :: 0 <= j < |bufs| && j != i ==> !Hit(bufs'[j], k);
    } else {
      DirtySame(bufs, bufs', k);
    }
  }

  /** Writing buffer i out makes its data the latest contents of its block. */
  lemma LatestWritten(bufs: seq<Buf>, disk: map<Key, Block>, i: int, b: Buf, k: Key)
    requires Unique(bufs) && 0 <= i < |bufs| && !b.dirty && KeyOf(b) == KeyOf(bufs[i]) && b.dev != 0
    ensures Latest(bufs[i := b], disk[KeyOf(b) := b.data], k) == if k == KeyOf(b) then b.data else Latest(bufs, disk, k)
  {
    hide Dirty;
    var bufs' := bufs[i := b];
    if k == KeyOf(b) {
      assert forall j :: 0 <= j < |bufs| ==> !Hit(bufs'[j], k);
    } else {
      DirtySame(bufs, bufs', k);
    }
  }
}
