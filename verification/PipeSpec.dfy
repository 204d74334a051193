/** A pipe: the ring with its 32-bit counters, and the processes that read and write it, as a machine
    whose steps are the stretches that hold the pipe's lock (pipe.c over sleep and wakeup). */
module PipeSpec {

  const PIPESIZE: int := 512
  const WRAP: int := 0x1_0000_0000

  // ---------------------------------------------------------------- the ring

  datatype Ring = Ring(data: seq<int>, nread: int, nwrite: int)

  predicate Sound(r: Ring) { |r.data| == PIPESIZE && 0 <= r.nread < WRAP && 0 <= r.nwrite < WRAP }

  predicate Full(r: Ring) { r.nwrite == (r.nread + PIPESIZE) % WRAP }
  predicate Empty(r: Ring) { r.nread == r.nwrite }

  function Put(r: Ring, b: int): Ring
    requires Sound(r)
  {
    r.(data := r.data[r.nwrite % PIPESIZE := b], nwrite := (r.nwrite + 1) % WRAP)
  }

  function Drop(r: Ring): Ring { r.(nread := (r.nread + 1) % WRAP) }

  function Front(r: Ring): int
    requires Sound(r)
  {
    r.data[r.nread % PIPESIZE]
  }

  /** Store the bytes of buf from i on until the ring is full; also the index reached. */
  function Fill(r: Ring, buf: seq<int>, i: nat): (Ring, nat)
    requires Sound(r)
    decreases |buf| - i
  {
    if i < |buf| && !Full(r) then Fill(Put(r, buf[i]), buf, i + 1) else (r, i)
  }

  /** Take up to n bytes. */
  function Drain(r: Ring, n: int, out: seq<int>): (Ring, seq<int>)
    requires Sound(r)
    decreases n - |out|
  {
    if |out| < n && !Empty(r) then Drain(Drop(r), n, out + [Front(r)]) else (r, out)
  }

  /** The ring holds the bytes q, oldest first. */
  ghost predicate Holds(r: Ring, q: seq<int>) {
    && Sound(r) && |q| <= PIPESIZE && r.nwrite == (r.nread + |q|) % WRAP
    && forall j :: 0 <= j < |q| ==> r.data[(r.nread + j) % PIPESIZE] == q[j]
  }

  lemma SlotsDiffer(x: int, j: int, k: int)
    requires 0 <= j < PIPESIZE && 0 <= k < PIPESIZE && j != k
    ensures (x + j) % PIPESIZE != (x + k) % PIPESIZE
  {
  }

  /** Wrapping a counter does not move its slot: the ring size divides the range of the counters. */
  lemma SlotWraps(x: int)
    requires 0 <= x < 2 * WRAP
    ensures x % WRAP % PIPESIZE == x % PIPESIZE
  {
  }

  /** The counters tell the number of bytes held, although they wrap. */
  lemma Level(r: Ring, q: seq<int>)
    requires Holds(r, q)
    ensures Full(r) <==> |q| == PIPESIZE
    ensures Empty(r) <==> q == []
  {
  }

  lemma PutHolds(r: Ring, q: seq<int>, b: int)
    requires Holds(r, q) && |q| < PIPESIZE
    ensures Holds(Put(r, b), q + [b])
  {
    var r', q' := Put(r, b), q + [b];
    SlotWraps(r.nread + |q|);
    forall j | 0 <= j < |q'| ensures r'.data[(r'.nread + j) % PIPESIZE] == q'[j] {
      if j < |q| { SlotsDiffer(r.nread, j, |q|); }
    }
    CounterUp(r.nread, |q|);
  }

  lemma CounterUp(x: int, n: int)
    ensures ((x + n) % WRAP + 1) % WRAP == (x + (n + 1)) % WRAP
    ensures ((x + 1) % WRAP + n) % WRAP == (x + (n + 1)) % WRAP
  {
  }

  lemma DropHolds(r: Ring, q: seq<int>)
    requires Holds(r, q) && q != []
    ensures Front(r) == q[0] && Holds(Drop(r), q[1..])
  {
    var r' := Drop(r);
    assert r.data[(r.nread + 0) % PIPESIZE] == q[0];
    CounterUp(r.nread, |q| - 1);
    forall j | 0 <= j < |q| - 1 ensures r'.data[(r'.nread + j) % PIPESIZE] == q[1..][j] {
      SlotShift(r.nread, j);
    }
  }

  lemma SlotShift(x: int, j: int)
    requires 0 <= x < WRAP && 0 <= j < PIPESIZE
    ensures ((x + 1) % WRAP + j) % PIPESIZE == (x + (j + 1)) % PIPESIZE
  {
    SlotWraps(x + 1);
  }

  /** Filling appends as many bytes as there is room for. */
  lemma {:induction false} FillHolds(r: Ring, q: seq<int>, buf: seq<int>, i: nat)
    requires Holds(r, q) && i <= |buf|
    ensures var (r', k) := Fill(r, buf, i);
      && i <= k <= |buf| && Holds(r', q + buf[i..k])
      && k == if |buf| - i <= PIPESIZE - |q| then |buf| else i + PIPESIZE - |q|
    decreases |buf| - i
  {
    hide Holds, Put;
    Level(r, q);
    HoldsSize(r, q);
    if i < |buf| && !Full(r) {
      PutHolds(r, q, buf[i]);
      FillHolds(Put(r, buf[i]), q + [buf[i]], buf, i + 1);
      var k := Fill(r, buf, i).1;
      assert q + [buf[i]] + buf[i + 1..k] == q + buf[i..k];
    } else {
      assert q + buf[i..i] == q;
    }
  }

  lemma HoldsSize(r: Ring, q: seq<int>)
    requires Holds(r, q)
    ensures |q| <= PIPESIZE && Sound(r)
  {
  }

  /** Draining takes the oldest bytes, as many as there are up to n. */
  lemma {:induction false} DrainHolds(r: Ring, q: seq<int>, n: int, out: seq<int>)
    requires Holds(r, q)
    ensures var (r', out') := Drain(r, n, out); var k := |out'| - |out|;
      && 0 <= k <= |q| && out' == out + q[..k] && Holds(r', q[k..])
      && k == if n <= |out| then 0 else if |q| <= n - |out| then |q| else n - |out|
    decreases n - |out|
  {
    hide Holds;
    Level(r, q);
    HoldsSize(r, q);
    if |out| < n && !Empty(r) {
      DropHolds(r, q);
      DrainHolds(Drop(r), q[1..], n, out + [Front(r)]);
      var k := |Drain(r, n, out).1| - |out|;
      assert out + [q[0]] + q[1..][..k - 1] == out + q[..k] && q[1..][k - 1..] == q[k..];
    } else {
      assert out + q[..0] == out && q[0..] == q;
    }
  }
}
