/** log.c as code: the in-memory header, the pinned dirty buffers and the loops that move
    blocks between the cache, the log and their home locations.  Every block write is also
    appended to the ghost trace `issued`, so that a crash point is a prefix of that trace. */
module LogLayer {
  import opened Log

  class LogState {
    const g: Layout
    var disk: Disk
    var dirty: map<int, Block>   // buffers with B_DIRTY, pinned in the cache
    var n: int                   // log.lh.n
    const block: array<int>      // log.lh.block
    var outstanding: int
    ghost var issued: seq<Write>

    ghost predicate Shape()
      reads this, block
    {
      && GoodLayout(g) && |disk| == g.total
      && block.Length == LOGSIZE && 0 <= n <= LOGSIZE
      && GoodHomes(g, block[..n])
    }

    ghost function Header(): seq<int>
      reads this, block
      requires block.Length == LOGSIZE && 0 <= n <= LOGSIZE
    {
      block[..n]
    }

    /** Outside commit: the dirty buffers are exactly the logged blocks. */
    ghost predicate Valid()
      reads this, block
    {
      && Shape() && (forall a :: a in dirty <==> a in Header()) && InLog(g, g.start) && g.start !in dirty
      && GoodHeader(g, disk[g.start]) && disk[g.start].w[0] == 0
    }

    /** A machine that has just booted: nothing cached, header not yet read. */
    constructor (layout: Layout, image: Disk)
      requires WellFormed(layout, image)
      ensures g == layout && disk == image && dirty == map[] && n == 0 && outstanding == 0 && issued == []
      ensures Shape() && fresh(block)
    {
      g := layout;
      disk := image;
      dirty := map[];
      n := 0;
      block := new int[LOGSIZE](_ => 0);
      outstanding := 0;
      issued := [];
    }

    method Bread(a: nat) returns (data: Block)
      requires a < |disk|
      ensures data == View(disk, dirty)[a]
    {
      data := if a in dirty then dirty[a] else disk[a];
    }

    /** bwrite: the buffer goes to disk and is clean again. */
    method Bwrite(a: nat, data: Block)
      requires a < |disk|
      modifies this`disk, this`dirty, this`issued
      ensures disk == old(disk)[a := data] && dirty == old(dirty) - {a}
      ensures issued == old(issued) + [Write(a, data)]
    {
      disk := disk[a := data];
      dirty := dirty - {a};
      issued := issued + [Write(a, data)];
    }

    /** log_write of block a after the caller filled its buffer with data.  A panic is one of the
        two refusals of the code; otherwise every reader sees the write, the disk does not, and a
        block already in the header is absorbed. */
    method LogWrite(a: nat, data: Block) returns (panicked: bool)
      requires Valid() && a < g.total && !InLog(g, a)
      modifies this`dirty, this`n, block
      ensures panicked <==> old(n) >= LOGSIZE || old(n) >= g.size - 1 || outstanding < 1
      ensures panicked ==> n == old(n) && dirty == old(dirty) && block[..] == old(block[..])
      ensures Valid()
      ensures !panicked ==> View(disk, dirty) == View(disk, old(dirty))[a := data]
      ensures !panicked ==> Header() == if a in old(Header()) then old(Header()) else old(Header()) + [a]
    {
      if n >= LOGSIZE || n >= g.size - 1 {
        return true;
      }
      if outstanding < 1 {
        return true;
      }
      var i := 0;
      while i < n
        invariant 0 <= i <= n
        invariant forall j :: 0 <= j < i ==> block[j] != a
      {
        if block[i] == a {
          break;
        }
        i := i + 1;
      }
      ghost var lh := Header();
      block[i] := a;
      if i == n {
        n := n + 1;
        assert Header() == lh + [a];
      } else {
        assert Header() == lh;
      }
      dirty := dirty[a := data];
      return false;
    }

    /** One round of write_log: the cached block goes into its log slot. */
    method CopyToLog(tail: nat)
      requires Shape() && tail < n && g.start + tail + 1 !in dirty
      modifies this`disk, this`dirty, this`issued
      ensures Shape() && dirty == old(dirty)
      ensures var w := Write(g.start + tail + 1, View(old(disk), dirty)[block[tail]]);
        disk == old(disk)[w.addr := w.data] && issued == old(issued) + [w]
    {
      var from := Bread(block[tail]);
      Bwrite(g.start + tail + 1, from);
      assert dirty == old(dirty);
    }

    method WriteLog()
      requires Shape() && forall a :: InLog(g, a) ==> a !in dirty
      modifies this`disk, this`dirty, this`issued
      ensures Shape() && dirty == old(dirty)
      ensures var ws := LogWrites(g, Header(), View(old(disk), dirty));
        issued == old(issued) + ws && disk == Apply(old(disk), ws)
    {
      ghost var d0, lh := disk, Header();
      ghost var ws := LogWrites(g, lh, View(d0, dirty));
      var tail := 0;
      while tail < n
        invariant 0 <= tail <= n && Shape() && Header() == lh && dirty == old(dirty)
        invariant issued == old(issued) + ws[..tail]
        invariant disk == Apply(d0, ws[..tail])
      {
        LogRound(g, lh, d0, dirty, tail);
        CopyToLog(tail);
        tail := tail + 1;
      }
      assert ws[..n] == ws;
    }

    /** One round of install_trans: the log copy goes home and the home buffer is clean. */
    method CopyHome(tail: nat)
      requires Shape() && tail < n && g.start + tail + 1 !in dirty
      modifies this`disk, this`dirty, this`issued
      ensures Shape() && dirty == old(dirty) - {block[tail]}
      ensures var w := Write(block[tail], old(disk)[g.start + tail + 1]);
        disk == old(disk)[w.addr := w.data] && issued == old(issued) + [w]
    {
      var lbuf := Bread(g.start + tail + 1);
      Bwrite(block[tail], lbuf);
    }

    method InstallTrans()
      requires Shape() && forall a :: InLog(g, a) ==> a !in dirty
      modifies this`disk, this`dirty, this`issued
      ensures Shape() && dirty == old(dirty) - (set a | a in Header())
      ensures var ws := InstallWrites(g, Header(), old(disk));
        issued == old(issued) + ws && disk == Apply(old(disk), ws)
    {
      hide InstallWrites, GoodHomes;
      ghost var d0, lh := disk, Header();
      ghost var ws := InstallWrites(g, lh, d0);
      var tail := 0;
      while tail < n
        invariant 0 <= tail <= n && Shape() && Header() == lh
        invariant dirty == old(dirty) - (set a | a in lh[..tail])
        invariant issued == old(issued) + ws[..tail]
        invariant disk == Apply(d0, ws[..tail])
      {
        InstallRound(g, lh, d0, tail);
        CopyHome(tail);
        tail := tail + 1;
      }
      assert ws[..n] == ws && lh[..n] == lh;
    }

    method ReadHead()
      requires Shape() && g.start !in dirty && GoodHeader(g, disk[g.start])
      modifies this`n, block
      ensures Shape() && Header() == HeadBlocks(disk[g.start])
    {
      var buf := Bread(g.start);
      n := buf.w[0];
      var i := 0;
      while i < n
        invariant 0 <= i <= n <= LOGSIZE && n == buf.w[0]
        invariant forall j :: 0 <= j < i ==> block[j] == buf.w[1 + j]
      {
        block[i] := buf.w[1 + i];
        i := i + 1;
      }
      assert block[..n] == HeadBlocks(buf);
    }

    method WriteHead()
      requires Shape() && g.start !in dirty && HeaderShape(disk[g.start])
      modifies this`disk, this`dirty, this`issued
      ensures Shape() && dirty == old(dirty)
      ensures var w := Write(g.start, HeaderInto(old(disk)[g.start], Header()));
        issued == old(issued) + [w] && disk == old(disk)[g.start := w.data]
    {
      var old_ := Bread(g.start);
      var hb := old_.w[0 := n];
      var i := 0;
      while i < n
        invariant 0 <= i <= n && |hb| == BLOCK_WORDS && hb[0] == n
        invariant forall j :: 0 <= j < i ==> hb[1 + j] == block[j]
        invariant forall j :: i < j < BLOCK_WORDS ==> hb[j] == old_.w[j]
      {
        hb := hb[1 + i := block[i]];
        i := i + 1;
      }
      assert Block(hb) == HeaderInto(old_, Header());
      Bwrite(g.start, Block(hb));
      assert dirty == old(dirty);
    }

    /** The first half of commit: write_log, then the header write that is the commit point. */
    method WriteTransaction()
      requires Valid()
      modifies this`disk, this`dirty, this`issued
      ensures Shape() && dirty == old(dirty)
      ensures var ws := PrepareWrites(g, Header(), View(old(disk), dirty));
        disk == Apply(old(disk), ws) && issued == old(issued) + ws
    {
      WriteLog();
      ghost var ws := LogWrites(g, Header(), View(old(disk), dirty));
      ApplyMiss(old(disk), ws, g.start);
      WriteHead();
      assert PrepareWrites(g, Header(), View(old(disk), dirty))[..|ws|] == ws;
    }

    /** The second half, also the body of recovery: install_trans, then the header write that
        erases the transaction. */
    method EraseTransaction()
      requires Shape() && HeaderShape(disk[g.start]) && InLog(g, g.start)
      requires forall a :: a in dirty ==> a in Header()
      modifies this`disk, this`dirty, this`issued, this`n
      ensures Shape() && n == 0 && dirty == map[]
      ensures var ws := FinishWrites(g, old(Header()), old(disk));
        disk == Apply(old(disk), ws) && issued == old(issued) + ws
    {
      ghost var d, lh := disk, Header();
      InstallTrans();
      ghost var ws := InstallWrites(g, lh, d);
      ApplyMiss(d, ws, g.start);
      assert forall a :: a !in dirty;
      n := 0;
      assert block[..0] == [];
      WriteHead();
      assert FinishWrites(g, lh, d)[..|ws|] == ws;
    }

    method CommitLogged(ghost lh: seq<int>, ghost view: Disk)
      requires Valid() && n > 0 && lh == Header() && view == View(disk, dirty)
      modifies this`disk, this`dirty, this`issued, this`n
      ensures Shape() && n == 0 && dirty == map[]
      ensures var all := CommitWrites(g, old(disk), view, lh);
        issued == old(issued) + all && disk == Apply(old(disk), all)
    {
      hide Apply, LogWrites, GoodHomes, PrepareWrites, FinishWrites;
      ghost var d := disk;
      CommitPointHead(g, d, view, lh);
      WriteTransaction();
      EraseTransaction();
      ApplyConcat(d, PrepareWrites(g, lh, view), FinishWrites(g, lh, AtCommitPoint(g, d, view, lh)));
    }

    /** commit(): its trace is exactly CommitWrites, so CrashAtomicity speaks of every crash in it. */
    method Commit()
      requires Valid()
      modifies this`disk, this`dirty, this`issued, this`n
      ensures Valid() && n == 0 && dirty == map[]
      ensures var all := CommitWrites(g, old(disk), View(old(disk), old(dirty)), old(Header()));
        issued == old(issued) + all && disk == Apply(old(disk), all)
      ensures SameHome(g, disk, View(old(disk), old(dirty)))
    {
      CommitWhole(g, disk, View(disk, dirty), Header());
      if n > 0 {
        CommitLogged(Header(), View(disk, dirty));
      }
      assert forall a :: a !in dirty;
    }

    /** recover_from_log at boot: the disk ends as Recover says. */
    method RecoverFromLog()
      requires Shape() && dirty == map[] && WellFormed(g, disk) && InLog(g, g.start)
      modifies this`disk, this`dirty, this`issued, this`n, block
      ensures Valid() && n == 0
      ensures issued == old(issued) + RecoverWrites(g, old(disk))
      ensures disk == Recover(g, old(disk))
      ensures SameHome(g, disk, Durable(g, old(disk)))
    {
      ghost var d := disk;
      ReadHead();
      EraseTransaction();
      RecoverFull(g, d);
      ghost var all := RecoverWrites(g, d);
      assert all[..|all| - 1] == InstallWrites(g, HeadBlocks(d[g.start]), d);
    }
  }

  lemma LogRound(g: Layout, lh: seq<int>, d: Disk, dirty: map<int, Block>, k: nat)
    requires GoodLayout(g) && GoodHomes(g, lh) && |d| == g.total && k < |lh|
    ensures var ws := LogWrites(g, lh, View(d, dirty));
      var e := Apply(d, ws[..k]);
      && View(e, dirty)[lh[k]] == View(d, dirty)[lh[k]]
      && Apply(d, ws[..k + 1]) == e[g.start + k + 1 := View(d, dirty)[lh[k]]]
      && ws[..k + 1] == ws[..k] + [Write(g.start + k + 1, View(d, dirty)[lh[k]])]
      && InLog(g, g.start + k + 1)
  {
    hide Apply, LogWrites, View;
    var v := View(d, dirty);
    var ws := LogWrites(g, lh, v);
    assert ws[k] == Write(g.start + 1 + k, v[lh[k]]);
    forall i | 0 <= i < k ensures ws[..k][i].addr != lh[k] { assert ws[i] == Write(g.start + 1 + i, v[lh[i]]); }
    ApplyMiss(d, ws[..k], lh[k]);
    ApplyNext(d, ws, k);
  }

  lemma InstallRound(g: Layout, lh: seq<int>, d: Disk, k: nat)
    requires GoodLayout(g) && GoodHomes(g, lh) && |d| == g.total && k < |lh|
    ensures var ws := InstallWrites(g, lh, d);
      var e := Apply(d, ws[..k]);
      && e[g.start + k + 1] == d[g.start + k + 1]
      && Apply(d, ws[..k + 1]) == e[lh[k] := d[g.start + k + 1]]
      && ws[..k + 1] == ws[..k] + [Write(lh[k], d[g.start + k + 1])]
      && InLog(g, g.start + k + 1) && lh[..k + 1] == lh[..k] + [lh[k]]
  {
    var ws := InstallWrites(g, lh, d);
    assert InLog(g, g.start + k + 1);
    ApplyMiss(d, ws[..k], g.start + k + 1);
    ApplyNext(d, ws, k);
  }
}
