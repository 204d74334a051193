/** The loops of pipewrite and piperead on the ring, between one moment the lock is taken and the
    next it is given up. */
module PipeCode {
  import opened PipeSpec

  /** How such a stretch ends. */
  datatype Outcome = Return(n: int) | Sleep

  function Least(a: int, b: int): int { if a < b then a else b }

  class Pipe {
    const data: array<int>
    var nread: int
    var nwrite: int
    var readopen: bool
    var writeopen: bool

    ghost function R(): Ring
      reads this, data
    {
      Ring(data[..], nread, nwrite)
    }

    constructor ()
      ensures fresh(data) && Holds(R(), []) && readopen && writeopen && nread == 0 && nwrite == 0
    {
      data := new int[PIPESIZE];
      nread, nwrite, readopen, writeopen := 0, 0, true, true;
    }

    /** pipewrite from byte i on; k is the byte it got to.  When it sleeps or has written all it
        calls wakeup(&p->nread), and when it gives up it does not. */
    method Write(buf: seq<int>, i: nat, killed: bool) returns (k: nat, o: Outcome, wakes: bool)
      requires Sound(R()) && i <= |buf|
      modifies this`nwrite, data
      ensures Sound(R()) && (R(), k) == Fill(old(R()), buf, i)
      ensures o == (if k >= |buf| then Return(|buf|) else if !readopen || killed then Return(-1) else Sleep)
      ensures wakes <==> o != Return(-1)
      ensures i <= k <= |buf| && forall q :: Holds(old(R()), q) ==> Holds(R(), q + buf[i..k]) && k - i == Least(|buf| - i, 512 - |q|)
    {
      forall q | Holds(R(), q) ensures var (r, j) := Fill(R(), buf, i); i <= j <= |buf| && Holds(r, q + buf[i..j]) && j - i == Least(|buf| - i, 512 - |q|) {
        FillHolds(R(), q, buf, i);
      }
      k := i;
      while k < |buf| && nwrite != (nread + PIPESIZE) % WRAP
        invariant i <= k <= |buf| && Sound(R()) && Fill(R(), buf, k) == Fill(old(R()), buf, i)
      {
        ghost var r := R();
        data[nwrite % PIPESIZE] := buf[k];
        nwrite := (nwrite + 1) % WRAP;
        assert R() == Put(r, buf[k]);
        k := k + 1;
      }
      if k < |buf| {
        if !readopen || killed { return k, Return(-1), false; }
        return k, Sleep, true;
      }
      return k, Return(|buf|), true;
    }

    /** piperead of n bytes; out is what it copied.  It calls wakeup(&p->nwrite) iff it got to copy. */
    method Read(n: int, killed: bool) returns (out: seq<int>, o: Outcome, wakes: bool)
      requires Sound(R())
      modifies this`nread
      ensures Sound(R()) && (wakes <==> !(Empty(old(R())) && writeopen))
      ensures wakes ==> (R(), out) == Drain(old(R()), n, []) && o == Return(|out|)
      ensures !wakes ==> R() == old(R()) && o == if killed then Return(-1) else Sleep
      ensures wakes ==> forall q :: Holds(old(R()), q) && n >= 0 ==> var k := Least(n, |q|); out == q[..k] && Holds(R(), q[k..])
    {
      forall q | Holds(R(), q) && n >= 0 ensures var (r, b) := Drain(R(), n, []); var k := Least(n, |q|); b == q[..k] && Holds(r, q[k..]) {
        DrainHolds(R(), q, n, []);
        HoldsSize(R(), q);
      }
      out := [];
      if nread == nwrite && writeopen {
        if killed { return out, Return(-1), false; }
        return out, Sleep, false;
      }
      var i := 0;
      while i < n
        invariant |out| == i && Sound(R()) && data[..] == old(data[..]) && nwrite == old(nwrite)
        invariant Drain(R(), n, out) == Drain(old(R()), n, [])
      {
        if nread == nwrite { break; }
        out := out + [data[nread % PIPESIZE]];
        nread := (nread + 1) % WRAP;
        i := i + 1;
      }
      return out, Return(i), true;
    }
  }
}
