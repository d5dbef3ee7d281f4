/** pipe.c, the code between two sleeps as one call under p->lock. The counters are
    32-bit and wrap; the ring has 512 places. */
module Pipe {
  import opened Common

  const PIPESIZE := 512
  const WRAP := 0x1_0000_0000

  type Byte = b: int | 0 <= b < 256

  /** How a stretch under the lock ends: asleep on its channel, -1, or returned. */
  datatype End = Sleeps | Fails | Returns

  /** How many bytes pipewrite stores before it finishes or finds the ring full. */
  function Fits(queue: nat, left: nat): nat { if queue <= PIPESIZE then Min(PIPESIZE - queue, left) else 0 }

  function WriteEnd(left: nat, readopen: bool, killed: bool): End {
    if left == 0 then Returns else if !readopen || killed then Fails else Sleeps
  }

  function ReadEnd(queue: nat, writeopen: bool, killed: bool): End {
    if queue > 0 || !writeopen then Returns else if killed then Fails else Sleeps
  }

  /** The place of byte j of the queue. */
  function Place(nread: nat, j: nat): (r: nat)
    ensures r < PIPESIZE
  {
    (nread + j) % PIPESIZE
  }

  lemma ModOff(x: nat, m: int)
    requires x >= PIPESIZE * m
    ensures (x - PIPESIZE * m) % PIPESIZE == x % PIPESIZE
  {
    var d, r := x / PIPESIZE, x % PIPESIZE;
    assert x - PIPESIZE * m == PIPESIZE * (d - m) + r;
  }

  /** A counter that has wrapped still points at its byte: 512 divides 2^32. */
  lemma WrappedPlace(x: nat)
    ensures (x % WRAP) % PIPESIZE == x % PIPESIZE
  {
    assert x % WRAP == x - PIPESIZE * (8388608 * (x / WRAP));
    ModOff(x, 8388608 * (x / WRAP));
  }

  lemma NextPlace(nread: nat, j: nat)
    requires nread < WRAP
    ensures Place((nread + 1) % WRAP, j) == Place(nread, j + 1)
  {
    assert nread + 1 == WRAP ==> nread + 1 + j - WRAP == nread + 1 + j - PIPESIZE * 8388608;
    ModOff(nread + 1 + j, if nread + 1 == WRAP then 8388608 else 0);
  }

  lemma FirstPlace(nread: nat)
    ensures Place(nread, 0) == nread % PIPESIZE
  {
  }

  /** The writer's counter, when the reader's moves on by one of len bytes. */
  lemma ReaderMoves(nread: nat, len: nat)
    requires nread < WRAP && 0 < len <= PIPESIZE
    ensures (nread + 1) % WRAP < WRAP && (nread + len) % WRAP == ((nread + 1) % WRAP + (len - 1)) % WRAP
  {
  }

  /** Fewer than 512 bytes lie at different places. */
  lemma PlacesDiffer(nread: nat, j: nat, k: nat)
    requires j < k < j + PIPESIZE
    ensures Place(nread, j) != Place(nread, k)
  {
    var x, y := nread + j, nread + k;
    assert x == PIPESIZE * (x / PIPESIZE) + x % PIPESIZE;
    assert y == PIPESIZE * (y / PIPESIZE) + y % PIPESIZE;
  }

  /** Full and empty, as the two counters tell them. */
  lemma CountersTell(nread: nat, len: nat)
    requires nread < WRAP && len <= PIPESIZE
    ensures (nread + len) % WRAP == (nread + PIPESIZE) % WRAP <==> len == PIPESIZE
    ensures (nread + len) % WRAP == nread <==> len == 0
  {
  }

  class Pipe {
    var data: array<Byte>
    var nread: nat
    var nwrite: nat
    var readopen: bool
    var writeopen: bool
    ghost var queue: seq<Byte>

    ghost predicate Valid()
      reads this, data
    {
      && data.Length == PIPESIZE && nread < WRAP && |queue| <= PIPESIZE
      && nwrite == (nread + |queue|) % WRAP
      && Holds(nread, queue)
    }

    /** The ring holds q from the reader's counter on. */
    ghost predicate Holds(from: nat, q: seq<Byte>)
      requires data.Length == PIPESIZE && |q| <= PIPESIZE
      reads this`data, data
    {
      forall j :: 0 <= j < |q| ==> data[Place(from, j)] == q[j]
    }

    constructor ()
      ensures Valid() && fresh(data) && queue == [] && readopen && writeopen
    {
      data := new Byte[PIPESIZE](_ => 0);
      nread, nwrite := 0, 0;
      readopen, writeopen := true, true;
      queue := [];
    }

    method Put(b: Byte)
      requires Valid() && |queue| < PIPESIZE
      modifies data, this`nwrite, this`queue
      ensures Valid() && queue == old(queue) + [b]
    {
      WrappedPlace(nread + |queue|);
      forall j | 0 <= j < |queue|
        ensures Place(nread, j) != Place(nread, |queue|)
      {
        PlacesDiffer(nread, j, |queue|);
      }
      hide Place;
      data[nwrite % PIPESIZE] := b;
      nwrite := (nwrite + 1) % WRAP;
      queue := queue + [b];
    }

    method Get() returns (b: Byte)
      requires Valid() && |queue| > 0
      modifies this`nread, this`queue
      ensures Valid() && [b] + queue == old(queue)
    {
      hide Place;
      FirstPlace(nread);
      ReaderMoves(nread, |queue|);
      b := data[nread % PIPESIZE];
      assert data[Place(nread, 0)] == b;
      forall j: nat | j < |queue| - 1
        ensures data[Place((nread + 1) % WRAP, j)] == queue[1..][j]
      {
        NextPlace(nread, j);
      }
      nread := (nread + 1) % WRAP;
      queue := queue[1..];
    }

    /** pipewrite from the top of its loop at byte i0 to the next sleep or return; `woke`:
        readers were woken. */
    method WriteSome(addr: seq<Byte>, i0: nat, killed: bool) returns (i: nat, end: End, woke: bool)
      requires Valid() && i0 <= |addr|
      modifies data, this`nwrite, this`queue
      ensures Valid()
      ensures i == i0 + Fits(|old(queue)|, |addr| - i0) && queue == old(queue) + addr[i0..i]
      ensures end == WriteEnd(|addr| - i, readopen, killed)
      ensures woke <==> end != Fails
    {
      i := i0;
      while i < |addr|
        invariant Valid() && i0 <= i <= |addr| && data == old(data)
        invariant queue == old(queue) + addr[i0..i]
      {
        CountersTell(nread, |queue|);
        if nwrite == (nread + PIPESIZE) % WRAP {
          if !readopen || killed {
            return i, Fails, false;
          }
          return i, Sleeps, true;
        }
        Put(addr[i]);
        i := i + 1;
      }
      return i, Returns, true;
    }

    /** piperead to its next sleep or return; `woke`: writers were woken. */
    method ReadSome(n: nat, killed: bool) returns (out: seq<Byte>, end: End, woke: bool)
      requires Valid()
      modifies this`nread, this`queue
      ensures Valid()
      ensures end == ReadEnd(|old(queue)|, writeopen, killed)
      ensures |out| == (if end == Returns then Min(n, |old(queue)|) else 0) && out + queue == old(queue)
      ensures woke <==> end == Returns
    {
      CountersTell(nread, |queue|);
      out := [];
      if nread == nwrite && writeopen {
        if killed {
          return [], Fails, false;
        }
        return [], Sleeps, false;
      }
      var i := 0;
      while i < n
        invariant Valid() && i == |out| <= n && out + queue == old(queue)
      {
        CountersTell(nread, |queue|);
        if nread == nwrite {
          break;
        }
        var b := Get();
        assert (out + [b]) + queue == out + ([b] + queue);
        out := out + [b];
        i := i + 1;
      }
      return out, Returns, true;
    }

    /** pipeclose. */
    method Close(writable: bool) returns (wokeReaders: bool, free: bool)
      requires Valid()
      modifies this`readopen, this`writeopen
      ensures Valid() && wokeReaders == writable
      ensures writeopen == (old(writeopen) && !writable) && readopen == (old(readopen) && writable)
      ensures free <==> !readopen && !writeopen
    {
      if writable {
        writeopen := false;
      } else {
        readopen := false;
      }
      return writable, !readopen && !writeopen;
    }
  }
}
