/** iderw and ideintr on the linked request queue. */
module IdeCode {
  import opened IdeSpec

  /** The k-th request, -1 past the end. */
  function QAt(queue: seq<int>, k: int): int { if 0 <= k < |queue| then queue[k] else -1 }

  ghost predicate QLink(qnext: seq<int>, queue: seq<int>, k: int)
    requires 0 <= k < |queue|
  {
    0 <= queue[k] < |qnext| && qnext[queue[k]] == QAt(queue, k + 1)
  }

  /** idequeue and the qnext fields run through queue. */
  ghost predicate QLinked(head: int, qnext: seq<int>, queue: seq<int>) {
    head == QAt(queue, 0) && NoRepeats(queue) && forall k :: 0 <= k < |queue| ==> QLink(qnext, queue, k)
  }

  lemma Append(head: int, qnext: seq<int>, queue: seq<int>, b: int)
    requires QLinked(head, qnext, queue) && 0 <= b < |qnext| && b !in queue
    ensures queue == [] ==> QLinked(b, qnext[b := -1], [b])
    ensures queue != [] ==> 0 <= queue[|queue| - 1] < |qnext| && QLinked(head, qnext[b := -1][queue[|queue| - 1] := b], queue + [b])
  {
    if queue != [] {
      var last := queue[|queue| - 1];
      assert QLink(qnext, queue, |queue| - 1);
      var q, n := queue + [b], qnext[b := -1][last := b];
      forall i, j | 0 <= i < j < |q| ensures q[i] != q[j] { assert queue[i] in queue; }
      forall k | 0 <= k < |q| ensures QLink(n, q, k) {
        if k < |queue| { assert QLink(qnext, queue, k); assert queue[k] in queue; }
      }
    }
  }

  lemma TakeFirst(head: int, qnext: seq<int>, queue: seq<int>)
    requires QLinked(head, qnext, queue) && queue != []
    ensures head == queue[0] && 0 <= head < |qnext| && QLinked(qnext[head], qnext, queue[1..])
  {
    assert QLink(qnext, queue, 0);
    var q := queue[1..];
    forall i, j | 0 <= i < j < |q| ensures q[i] != q[j] { assert q[i] == queue[i + 1] && q[j] == queue[j + 1]; }
    forall k | 0 <= k < |q| ensures QLink(qnext, q, k) { assert QLink(qnext, queue, k + 1); }
  }

  lemma Aside(head: int, qnext: seq<int>, queue: seq<int>, b: int, v: int)
    requires QLinked(head, qnext, queue) && 0 <= b < |qnext| && b !in queue
    ensures QLinked(head, qnext[b := v], queue)
  {
    var n := qnext[b := v];
    forall k | 0 <= k < |queue| ensures QLink(n, queue, k) { assert QLink(qnext, queue, k) && queue[k] in queue; }
  }

  class Driver {
    const buf: array<Buf>
    const qnext: array<int>
    var idequeue: int
    var disk: map<Key, Block>
    var cmd: Command
    ghost var queue: seq<int>

    ghost predicate Valid()
      reads this, buf, qnext
    {
      buf.Length == qnext.Length && QLinked(idequeue, qnext[..], queue) && cmd == Start(buf[..], queue)
    }

    constructor (n: nat, disk: map<Key, Block>)
      ensures Valid() && fresh(buf) && fresh(qnext) && buf.Length == n && queue == [] && this.disk == disk
    {
      buf := new Buf[n](_ => Buf(0, 0, false, false, []));
      qnext := new int[n];
      idequeue, cmd, queue := -1, NoCommand, [];
      this.disk := disk;
    }

    method IdeStart(b: int)
      requires 0 <= b < buf.Length
      modifies this`cmd
      ensures cmd == CommandFor(buf[b])
      ensures cmd == if buf[b].dirty then WriteBlock((buf[b].dev, buf[b].blockno), buf[b].data) else ReadBlock((buf[b].dev, buf[b].blockno))
    {
      if buf[b].dirty {
        cmd := WriteBlock((buf[b].dev, buf[b].blockno), buf[b].data);
      } else {
        cmd := ReadBlock((buf[b].dev, buf[b].blockno));
      }
    }

    /** iderw up to its wait: the request goes last, and to the device if it is the only one. */
    method Call(b: int)
      requires Valid() && 0 <= b < buf.Length && b !in queue && Pending(buf[b])
      modifies this`idequeue, this`cmd, this`queue, qnext
      ensures Valid() && queue == old(queue) + [b]
      ensures cmd == if old(queue) == [] then CommandFor(buf[b]) else old(cmd)
    {
      hide QLinked;
      Append(idequeue, qnext[..], queue, b);
      Aside(idequeue, qnext[..], queue, b, -1);
      HeadIs(idequeue, qnext[..], queue);
      qnext[b] := -1;
      assert qnext[..] == old(qnext[..])[b := -1];
      var last := LastRequest();
      if last == -1 {
        idequeue := b;
      } else {
        qnext[last] := b;
        assert qnext[..] == old(qnext[..])[b := -1][last := b];
      }
      queue := queue + [b];
      if old(queue) != [] {
        assert queue[0] == old(queue)[0] && old(queue)[0] in old(queue);
      } else {
        assert queue == [b];
      }
      if idequeue == b {
        IdeStart(b);
      }
    }

    /** The request at the end of the queue, whose link a new request goes into; -1 for none. */
    method LastRequest() returns (last: int)
      requires QLinked(idequeue, qnext[..], queue)
      ensures last == QAt(queue, |queue| - 1) && (queue == [] <==> last == -1)
    {
      HeadIs(idequeue, qnext[..], queue);
      var pp := idequeue;
      last := -1;
      ghost var k := 0;
      while pp != -1
        invariant 0 <= k <= |queue| && pp == QAt(queue, k) && last == QAt(queue, k - 1) && (k > 0 ==> last >= 0)
        invariant pp == -1 <==> k == |queue|
        decreases |queue| - k
      {
        assert QLink(qnext[..], queue, k) && (k + 1 < |queue| ==> QLink(qnext[..], queue, k + 1));
        last := pp;
        pp := qnext[pp];
        k := k + 1;
      }
    }

    /** The device has carried out its command, and ideintr serves the request at the head as memide's
        iderw would have, then starts the next. */
    method Interrupt()
      requires Valid()
      modifies this`idequeue, this`cmd, this`queue, this`disk, buf
      ensures Valid()
      ensures old(queue) == [] ==> queue == [] && buf[..] == old(buf[..]) && disk == old(disk)
      ensures old(queue) != [] ==> queue == old(queue)[1..] && 0 <= old(queue)[0] < buf.Length
      ensures old(queue) != [] ==> buf[..] == old(buf[..])[old(queue)[0] := MemBuf(old(buf[..])[old(queue)[0]], old(disk))]
      ensures old(queue) != [] ==> disk == MemDisk(old(buf[..])[old(queue)[0]], old(disk))
      ensures forall b :: 0 <= b < buf.Length && (old(queue) == [] || b != old(queue)[0]) ==> buf[b] == old(buf[b])
      ensures old(queue) != [] && old(buf[queue[0]]).dirty ==> var b := old(queue)[0]; var x := old(buf[queue[0]]);
        buf[b] == x.(valid := true, dirty := false) && disk == old(disk)[(x.dev, x.blockno) := x.data]
      ensures old(queue) != [] && !old(buf[queue[0]]).dirty ==> var b := old(queue)[0]; var x := old(buf[queue[0]]);
        && disk == old(disk) && buf[b] == x.(valid := true, data := buf[b].data)
        && ((x.dev, x.blockno) in disk ==> buf[b].data == disk[(x.dev, x.blockno)])
    {
      hide QLinked;
      var b := idequeue;
      HeadIs(idequeue, qnext[..], queue);
      if b == -1 { return; }
      TakeFirst(idequeue, qnext[..], queue);
      var got := Fetched(cmd, disk);
      disk := Carried(cmd, disk);
      idequeue := qnext[b];
      queue := queue[1..];
      if !buf[b].dirty {
        buf[b] := buf[b].(data := got);
      }
      buf[b] := buf[b].(valid := true);
      buf[b] := buf[b].(dirty := false);
      HeadIs(idequeue, qnext[..], queue);
      if idequeue != -1 {
        IdeStart(idequeue);
      } else {
        cmd := NoCommand;
      }
    }
  }

  lemma HeadIs(head: int, qnext: seq<int>, queue: seq<int>)
    requires QLinked(head, qnext, queue)
    ensures head == QAt(queue, 0) && (queue != [] ==> 0 <= queue[0] < |qnext|)
  {
    if queue != [] { assert QLink(qnext, queue, 0); }
  }
}
