/** Any number of readers and writers of one pipe, a stretch of each at a time: from taking
    p->lock to having slept or returned, with its wakeup. A call that is woken runs its next
    stretch when it gets the lock; kill() comes between two stretches. Module PipeLocks has
    the two locks, the points between them and a kill() at any of those, and shows that its
    runs are runs of this module. */
module PipeRun {
  import opened Common
  import opened Pipe

  /** Over(ok): returned its count, or -1. */
  datatype Status = Ready | Asleep | Over(ok: bool)

  /** A pipewrite at byte i of addr; a piperead whose bytes are out, taken from position
      `from` of all the bytes ever read. */
  datatype Job =
    | Write(addr: seq<Byte>, i: nat, st: Status)
    | Read(n: nat, from: nat, out: seq<Byte>, st: Status)

  /** sent: every byte stored, with the call that stored it; got: every byte taken. */
  datatype Sys = Sys(
    queue: seq<Byte>, readopen: bool, writeopen: bool, jobs: map<nat, Job>, killed: set<nat>,
    sent: seq<(nat, Byte)>, got: seq<Byte>)

  datatype Action =
    | StartWrite(id: nat, addr: seq<Byte>) | StartRead(id: nat, n: nat)
    | Go(id: nat) | Kill(id: nat) | CloseWrite | CloseRead

  function After(end: End): Status {
    match end case Sleeps => Asleep case Fails => Over(false) case Returns => Over(true)
  }

  /** wakeup(&p->nread) or wakeup(&p->nwrite). */
  function Woken(jobs: map<nat, Job>, readers: bool): (r: map<nat, Job>) {
    map id | id in jobs :: if jobs[id].Read? == readers && jobs[id].st.Asleep? then jobs[id].(st := Ready) else jobs[id]
  }

  function Tag(id: nat, bs: seq<Byte>): (r: seq<(nat, Byte)>)
    ensures |r| == |bs|
  {
    seq(|bs|, k requires 0 <= k < |bs| => (id, bs[k]))
  }

  function Bytes(xs: seq<(nat, Byte)>): (r: seq<Byte>)
    ensures |r| == |xs|
  {
    seq(|xs|, k requires 0 <= k < |xs| => xs[k].1)
  }

  /** The bytes call id stored, in order. */
  function Of(xs: seq<(nat, Byte)>, id: nat): seq<Byte> {
    if xs == [] then [] else Of(xs[..|xs| - 1], id) + if xs[|xs| - 1].0 == id then [xs[|xs| - 1].1] else []
  }

  ghost predicate Busy(s: Sys, readers: bool) {
    exists id :: id in s.jobs && s.jobs[id].Read? == readers && !s.jobs[id].st.Over?
  }

  /** An end is closed when its last file reference goes, so not during a call on it. */
  ghost predicate Enabled(s: Sys, a: Action) {
    match a
    case StartWrite(id, _) => id !in s.jobs && s.writeopen
    case StartRead(id, _) => id !in s.jobs && s.readopen
    case Go(id) => id in s.jobs && s.jobs[id].st == Ready && (s.jobs[id].Write? ==> s.jobs[id].i <= |s.jobs[id].addr|)
    case Kill(id) => id in s.jobs
    case CloseWrite => s.writeopen && !Busy(s, false)
    case CloseRead => s.readopen && !Busy(s, true)
  }

  function DoWrite(s: Sys, id: nat): (t: Sys)
    requires id in s.jobs && s.jobs[id].Write? && s.jobs[id].i <= |s.jobs[id].addr|
  {
    var j := s.jobs[id];
    var i := j.i + Fits(|s.queue|, |j.addr| - j.i);
    var end := WriteEnd(|j.addr| - i, s.readopen, id in s.killed);
    var jobs := if end != Fails then Woken(s.jobs, true) else s.jobs;
    s.(queue := s.queue + j.addr[j.i..i], jobs := jobs[id := j.(i := i, st := After(end))],
       sent := s.sent + Tag(id, j.addr[j.i..i]))
  }

  function DoRead(s: Sys, id: nat): (t: Sys)
    requires id in s.jobs && s.jobs[id].Read?
  {
    var j := s.jobs[id];
    var end := ReadEnd(|s.queue|, s.writeopen, id in s.killed);
    if end != Returns then s.(jobs := s.jobs[id := j.(st := After(end))])
    else
      var out := s.queue[..Min(j.n, |s.queue|)];
      s.(queue := s.queue[|out|..], jobs := Woken(s.jobs, false)[id := Read(j.n, |s.got|, out, Over(true))],
         got := s.got + out)
  }

  ghost function Do(s: Sys, a: Action): (t: Sys)
    requires Enabled(s, a)
  {
    match a
    case StartWrite(id, addr) => s.(jobs := s.jobs[id := Write(addr, 0, Ready)])
    case StartRead(id, n) => s.(jobs := s.jobs[id := Read(n, |s.got|, [], Ready)])
    case Go(id) => if s.jobs[id].Write? then DoWrite(s, id) else DoRead(s, id)
    case Kill(id) =>
      s.(killed := s.killed + {id},
         jobs := if s.jobs[id].st.Asleep? then s.jobs[id := s.jobs[id].(st := Ready)] else s.jobs)
    case CloseWrite => s.(writeopen := false, jobs := Woken(s.jobs, true))
    case CloseRead => s.(readopen := false, jobs := Woken(s.jobs, false))
  }

  // ------------------------------------------------------------ first in, first out

  ghost predicate JobFine(s: Sys, id: nat, j: Job) {
    match j
    case Write(addr, i, st) => i <= |addr| && Of(s.sent, id) == addr[..i] && (st == Over(true) ==> i == |addr|)
    case Read(n, from, out, st) => |out| <= n && from + |out| <= |s.got| && out == s.got[from..from + |out|]
  }

  ghost predicate Fifo(s: Sys) {
    && |s.queue| <= PIPESIZE && Bytes(s.sent) == s.got + s.queue
    && (forall id :: id in s.jobs ==> JobFine(s, id, s.jobs[id]))
    && (forall id :: id !in s.jobs ==> Of(s.sent, id) == [])
  }

  /** A closed end has no call in progress. */
  ghost predicate Ends(s: Sys) {
    (!s.writeopen ==> !Busy(s, false)) && (!s.readopen ==> !Busy(s, true))
  }

  lemma {:induction false} OfPlus(xs: seq<(nat, Byte)>, ys: seq<(nat, Byte)>, id: nat)
    ensures Of(xs + ys, id) == Of(xs, id) + Of(ys, id)
    decreases |ys|
  {
    if ys == [] {
      assert xs + ys == xs;
    } else {
      var zs := ys[..|ys| - 1];
      assert (xs + ys)[..|xs + ys| - 1] == xs + zs;
      OfPlus(xs, zs, id);
    }
  }

  lemma {:induction false} OfTag(id: nat, bs: seq<Byte>, who: nat)
    ensures Of(Tag(id, bs), who) == if who == id then bs else []
    decreases |bs|
  {
    if bs != [] {
      var cs := bs[..|bs| - 1];
      assert Tag(id, bs)[..|bs| - 1] == Tag(id, cs);
      OfTag(id, cs, who);
      assert cs + [bs[|bs| - 1]] == bs;
    }
  }

  lemma BytesPlus(xs: seq<(nat, Byte)>, id: nat, bs: seq<Byte>)
    ensures Bytes(xs + Tag(id, bs)) == Bytes(xs) + bs
  {
  }

  /** A call is not disturbed by bytes that others store and take. */
  lemma JobKept(s: Sys, t: Sys, id: nat, j: Job, k: Job)
    requires JobFine(s, id, j) && Of(t.sent, id) == Of(s.sent, id) && s.got <= t.got
    requires k == j.(st := k.st) && (k.st == Over(true) ==> j.st == Over(true))
    ensures JobFine(t, id, k)
  {
  }

  lemma StoredOf(sent: seq<(nat, Byte)>, id: nat, bs: seq<Byte>, who: nat)
    ensures Of(sent + Tag(id, bs), who) == Of(sent, who) + if who == id then bs else []
  {
    OfPlus(sent, Tag(id, bs), who);
    OfTag(id, bs, who);
  }

  /** The writer's own bytes after its stretch. */
  lemma WriterFine(s: Sys, id: nat)
    requires id in s.jobs && s.jobs[id].Write? && JobFine(s, id, s.jobs[id])
    ensures JobFine(DoWrite(s, id), id, DoWrite(s, id).jobs[id])
  {
    hide Of, Tag, Woken;
    var j := s.jobs[id];
    var i := j.i + Fits(|s.queue|, |j.addr| - j.i);
    StoredOf(s.sent, id, j.addr[j.i..i], id);
    assert j.addr[..j.i] + j.addr[j.i..i] == j.addr[..i];
  }

  /** The other calls after it. */
  lemma WriteKeeps(s: Sys, id: nat, who: nat)
    requires id in s.jobs && s.jobs[id].Write? && s.jobs[id].i <= |s.jobs[id].addr| && who != id
    ensures Of(DoWrite(s, id).sent, who) == Of(s.sent, who)
    ensures who in s.jobs <==> who in DoWrite(s, id).jobs
    ensures who in s.jobs && JobFine(s, who, s.jobs[who]) ==> JobFine(DoWrite(s, id), who, DoWrite(s, id).jobs[who])
  {
    hide Of, Tag, JobFine;
    var j := s.jobs[id];
    StoredOf(s.sent, id, j.addr[j.i..j.i + Fits(|s.queue|, |j.addr| - j.i)], who);
    if who in s.jobs && JobFine(s, who, s.jobs[who]) {
      JobKept(s, DoWrite(s, id), who, s.jobs[who], DoWrite(s, id).jobs[who]);
    }
  }

  lemma WriteFifo(s: Sys, id: nat)
    requires Fifo(s) && id in s.jobs && s.jobs[id].Write?
    ensures s.jobs[id].i <= |s.jobs[id].addr| && Fifo(DoWrite(s, id))
  {
    hide Of, Tag, Bytes, Woken;
    var j := s.jobs[id];
    assert JobFine(s, id, j);
    var t := DoWrite(s, id);
    BytesPlus(s.sent, id, j.addr[j.i..t.jobs[id].i]);
    assert (s.got + s.queue) + j.addr[j.i..t.jobs[id].i] == t.got + t.queue;
    WriterFine(s, id);
    forall who: nat | who != id
      ensures Of(t.sent, who) == Of(s.sent, who)
      ensures who in s.jobs <==> who in t.jobs
      ensures who in t.jobs ==> JobFine(t, who, t.jobs[who])
    {
      WriteKeeps(s, id, who);
    }
    hide JobFine;
  }

  lemma TakenBytes(sent: seq<Byte>, got: seq<Byte>, queue: seq<Byte>, k: nat)
    requires sent == got + queue && k <= |queue|
    ensures sent == (got + queue[..k]) + queue[k..] && (got + queue[..k])[|got|..|got| + k] == queue[..k]
  {
  }

  lemma ReadFifo(s: Sys, id: nat)
    requires Fifo(s) && id in s.jobs && s.jobs[id].Read?
    ensures Fifo(DoRead(s, id))
  {
    hide Of, Bytes;
    var t := DoRead(s, id);
    TakenBytes(Bytes(s.sent), s.got, s.queue, Min(s.jobs[id].n, |s.queue|));
    forall who | who in t.jobs
      ensures JobFine(t, who, t.jobs[who])
    {
      assert JobFine(s, who, s.jobs[who]);
      if who != id || t.jobs[id].st != Over(true) {
        JobKept(s, t, who, s.jobs[who], t.jobs[who]);
      }
    }
  }

  lemma StepFifo(s: Sys, a: Action)
    requires Fifo(s) && Enabled(s, a)
    ensures Fifo(Do(s, a))
  {
    hide Of, Bytes, DoWrite, DoRead, Fits, WriteEnd, ReadEnd;
    if a.Go? {
      if s.jobs[a.id].Write? { WriteFifo(s, a.id); } else { ReadFifo(s, a.id); }
    } else {
      var t := Do(s, a);
      forall who | who in t.jobs
        ensures JobFine(t, who, t.jobs[who])
      {
        if who in s.jobs { JobKept(s, t, who, s.jobs[who], t.jobs[who]); }
      }
    }
  }

  lemma StepEnds(s: Sys, a: Action)
    requires Ends(s) && Enabled(s, a)
    ensures Ends(Do(s, a))
  {
    var t := Do(s, a);
    forall id | id in t.jobs && !t.jobs[id].st.Over?
      ensures t.jobs[id].Read? ==> t.readopen
      ensures t.jobs[id].Write? ==> t.writeopen
    {
      assert id in s.jobs ==> s.jobs[id].Read? == t.jobs[id].Read?;
      assert id in s.jobs ==> !s.jobs[id].st.Over?;
    }
  }

  // ------------------------------------------------------------ no lost wakeup

  /** A sleeping reader has nothing to read and may still get something; a sleeping
      writer has no room and may still be read. */
  ghost predicate NoneMissed(s: Sys) {
    forall id :: id in s.jobs && s.jobs[id].st.Asleep? ==>
      if s.jobs[id].Read? then s.queue == [] && s.writeopen else |s.queue| == PIPESIZE && s.readopen
  }

  /** A killed writer that stores bytes and then finds the ring full returns -1 without
      waking the readers. */
  ghost predicate Misses(s: Sys, a: Action) {
    && a.Go? && a.id in s.jobs && s.jobs[a.id].Write? && a.id in s.killed
    && |s.jobs[a.id].addr| - s.jobs[a.id].i > PIPESIZE
    && exists r :: r in s.jobs && s.jobs[r].Read? && s.jobs[r].st.Asleep?
  }

  lemma MissedExactly(s: Sys, a: Action)
    requires Fifo(s) && Ends(s) && NoneMissed(s) && Enabled(s, a)
    ensures NoneMissed(Do(s, a)) <==> !Misses(s, a)
  {
    var t := Do(s, a);
    if Misses(s, a) {
      var r :| r in s.jobs && s.jobs[r].Read? && s.jobs[r].st.Asleep?;
      assert r in t.jobs && t.jobs[r] == s.jobs[r];
    } else {
      forall id | id in t.jobs && t.jobs[id].st.Asleep?
        ensures if t.jobs[id].Read? then t.queue == [] && t.writeopen else |t.queue| == PIPESIZE && t.readopen
      {
      }
    }
  }

  // ------------------------------------------------------------ whole runs

  function Fresh(): Sys { Sys([], true, true, map[], {}, [], []) }

  ghost predicate Runs(s: Sys, acts: seq<Action>, t: Sys)
    decreases |acts|
  {
    if acts == [] then s == t else Enabled(s, acts[0]) && Runs(Do(s, acts[0]), acts[1..], t)
  }

  lemma {:induction false} RunKeeps(s: Sys, acts: seq<Action>, t: Sys)
    requires Fifo(s) && Ends(s) && Runs(s, acts, t)
    ensures Fifo(t) && Ends(t)
    decreases |acts|
  {
    if acts != [] {
      StepFifo(s, acts[0]);
      StepEnds(s, acts[0]);
      RunKeeps(Do(s, acts[0]), acts[1..], t);
    }
  }

  lemma FreshFine()
    ensures Fifo(Fresh()) && Ends(Fresh()) && NoneMissed(Fresh())
  {
  }

  /** What is read is what was written, in that order: nothing lost, doubled or
      reordered, at most 512 bytes in between. Each call's bytes are stored in order, and
      all of them if it returns its count; each read gets consecutive bytes. */
  lemma FirstInFirstOut(acts: seq<Action>, t: Sys)
    requires Runs(Fresh(), acts, t)
    ensures Bytes(t.sent) == t.got + t.queue && |t.queue| <= PIPESIZE
    ensures forall id :: id in t.jobs && t.jobs[id].Write? ==>
      t.jobs[id].i <= |t.jobs[id].addr| && Of(t.sent, id) == t.jobs[id].addr[..t.jobs[id].i]
    ensures forall id :: id in t.jobs && t.jobs[id].Write? && t.jobs[id].st == Over(true) ==>
      Of(t.sent, id) == t.jobs[id].addr
    ensures forall id :: id in t.jobs && t.jobs[id].Read? ==>
      var j := t.jobs[id]; j.from + |j.out| <= |t.got| && j.out == t.got[j.from..j.from + |j.out|]
  {
    FreshFine();
    RunKeeps(Fresh(), acts, t);
    forall id | id in t.jobs
      ensures JobFine(t, id, t.jobs[id])
    {
    }
  }

  /** A read of n > 0 bytes that returns 0 means end of file: the write end is closed
      and every byte ever sent has been read; none is sent afterwards. */
  lemma EndOfFile(acts: seq<Action>, s: Sys, id: nat, more: seq<Action>, t: Sys)
    requires Runs(Fresh(), acts, s) && Enabled(s, Go(id)) && s.jobs[id].Read? && s.jobs[id].n > 0
    requires Do(s, Go(id)).jobs[id].st == Over(true) && Do(s, Go(id)).jobs[id].out == []
    requires Runs(Do(s, Go(id)), more, t)
    ensures !s.writeopen && Bytes(s.sent) == s.got && t.sent == s.sent && t.got == s.got
  {
    FreshFine();
    RunKeeps(Fresh(), acts, s);
    StepEnds(s, Go(id));
    StepFifo(s, Go(id));
    Silent(Do(s, Go(id)), more, t);
  }

  lemma {:induction false} Silent(s: Sys, acts: seq<Action>, t: Sys)
    requires Ends(s) && !s.writeopen && s.queue == [] && Runs(s, acts, t)
    ensures t.sent == s.sent && t.got == s.got
    decreases |acts|
  {
    if acts != [] {
      StepEnds(s, acts[0]);
      var u := Do(s, acts[0]);
      assert acts[0].Go? ==> s.jobs[acts[0].id].Read?;
      Silent(u, acts[1..], t);
    }
  }

  // ------------------------------------------------------------ how much one stretch does

  /** By the bytes in the pipe just before the stretch: a read returns a count exactly if there
      are bytes or the write end is closed, and then takes the first n of them, or all; with
      neither it fails exactly if it was killed, and otherwise sleeps. Nothing else changes but
      that its return wakes the writers. */
  lemma ReadTakes(s: Sys, id: nat)
    requires Enabled(s, Go(id)) && s.jobs[id].Read?
    ensures var t := Do(s, Go(id)); var j := t.jobs[id];
      && t.readopen == s.readopen && t.writeopen == s.writeopen && t.killed == s.killed && t.sent == s.sent
      && j.Read? && j.n == s.jobs[id].n
      && (j.st == Over(true) <==> s.queue != [] || !s.writeopen)
      && (j.st == Over(false) <==> s.queue == [] && s.writeopen && id in s.killed)
      && (j.st == Asleep <==> s.queue == [] && s.writeopen && id !in s.killed)
      && (j.st == Over(true) ==>
            && |j.out| == (if j.n < |s.queue| then j.n else |s.queue|)
            && j.out + t.queue == s.queue && t.got == s.got + j.out && j.from == |s.got|)
      && (j.st != Over(true) ==> t.queue == s.queue && t.got == s.got)
    ensures forall x :: x in s.jobs && x != id ==>
      var t := Do(s, Go(id));
      && x in t.jobs && t.jobs[x] == s.jobs[x].(st := t.jobs[x].st)
      && t.jobs[x].st ==
           if t.jobs[id].st == Over(true) && s.jobs[x].Write? && s.jobs[x].st == Asleep then Ready else s.jobs[x].st
  {
  }

  /** In every run: a write stores, in order, what is left of its bytes or what there is room
      for; it returns its count exactly if that was all, fails exactly if bytes are left and the
      read end is closed or it was killed, and otherwise sleeps. It wakes the readers
      unless it fails. */
  lemma WriteStores(acts: seq<Action>, s: Sys, id: nat)
    requires Runs(Fresh(), acts, s) && Enabled(s, Go(id)) && s.jobs[id].Write?
    ensures var t := Do(s, Go(id)); var i, j := s.jobs[id].i, t.jobs[id];
      && t.readopen == s.readopen && t.writeopen == s.writeopen && t.killed == s.killed && t.got == s.got
      && j.Write? && j.addr == s.jobs[id].addr && i <= j.i <= |j.addr| && |s.queue| <= 512
      && j.i - i == (if |j.addr| - i < 512 - |s.queue| then |j.addr| - i else 512 - |s.queue|)
      && t.queue == s.queue + j.addr[i..j.i] && t.sent == s.sent + Tag(id, j.addr[i..j.i])
      && (j.st == Over(true) <==> j.i == |j.addr|)
      && (j.st == Over(false) <==> j.i < |j.addr| && (!s.readopen || id in s.killed))
      && (j.st == Asleep <==> j.i < |j.addr| && s.readopen && id !in s.killed)
    ensures forall x :: x in s.jobs && x != id ==>
      var t := Do(s, Go(id));
      && x in t.jobs && t.jobs[x] == s.jobs[x].(st := t.jobs[x].st)
      && t.jobs[x].st ==
           if t.jobs[id].st != Over(false) && s.jobs[x].Read? && s.jobs[x].st == Asleep then Ready else s.jobs[x].st
  {
    hide Tag, Of, Bytes;
    FreshFine();
    RunKeeps(Fresh(), acts, s);
  }

  lemma OverStays(s: Sys, a: Action, id: nat)
    requires Enabled(s, a) && id in s.jobs && s.jobs[id].st.Over?
    ensures id in Do(s, a).jobs && Do(s, a).jobs[id] == s.jobs[id]
  {
  }

  lemma {:induction false} OverToEnd(s: Sys, acts: seq<Action>, t: Sys, id: nat)
    requires Runs(s, acts, t) && id in s.jobs && s.jobs[id].st.Over?
    ensures id in t.jobs && t.jobs[id] == s.jobs[id]
    decreases |acts|
  {
    hide Enabled, Do;
    if acts != [] {
      OverStays(s, acts[0], id);
      OverToEnd(Do(s, acts[0]), acts[1..], t, id);
    }
  }

  /** A read comes to have returned its count only by a stretch of its own. */
  lemma ReturnsItself(s: Sys, a: Action, id: nat)
    requires Enabled(s, a) && id in Do(s, a).jobs && Do(s, a).jobs[id].Read? && Do(s, a).jobs[id].st == Over(true)
    requires !(id in s.jobs && s.jobs[id].st == Over(true))
    ensures a == Go(id) && s.jobs[id].Read?
  {
  }

  lemma {:induction false} ReturnedFrom(s: Sys, acts: seq<Action>, t: Sys, id: nat) returns (k: nat, u: Sys)
    requires Runs(s, acts, t) && id in t.jobs && t.jobs[id].Read? && t.jobs[id].st == Over(true)
    requires !(id in s.jobs && s.jobs[id].st == Over(true))
    ensures k < |acts| && acts[k] == Go(id) && Runs(s, acts[..k], u)
    ensures Enabled(u, Go(id)) && u.jobs[id].Read? && id in Do(u, Go(id)).jobs && Do(u, Go(id)).jobs[id] == t.jobs[id]
    decreases |acts|
  {
    hide Enabled, Do;
    var v := Do(s, acts[0]);
    if id in v.jobs && v.jobs[id].st == Over(true) {
      OverToEnd(v, acts[1..], t, id);
      ReturnsItself(s, acts[0], id);
      k, u := 0, s;
    } else {
      k, u := ReturnedFrom(v, acts[1..], t, id);
      k := k + 1;
      assert acts[..k][1..] == acts[1..][..k - 1];
    }
  }

  /** For every read of every run that has returned its count, there is the stretch at which it
      did: it took the first n of the bytes then in the pipe, or all of them if they were fewer,
      and it took none of n > 0 only from an empty pipe with its write end closed. */
  lemma ReadReturned(acts: seq<Action>, t: Sys, id: nat) returns (k: nat, u: Sys)
    requires Runs(Fresh(), acts, t) && id in t.jobs && t.jobs[id].Read? && t.jobs[id].st == Over(true)
    ensures k < |acts| && acts[k] == Go(id) && Runs(Fresh(), acts[..k], u)
    ensures var j := t.jobs[id];
      && |j.out| == (if j.n < |u.queue| then j.n else |u.queue|) && j.out == u.queue[..|j.out|] && j.from == |u.got|
      && (j.out == [] && j.n > 0 ==> u.queue == [] && !u.writeopen)
  {
    hide Enabled, Do, Runs;
    k, u := ReturnedFrom(Fresh(), acts, t, id);
    ReadTakes(u, id);
  }

  // ------------------------------------------------------------ the steps, by the code

  /** p is the pipe of the run's state. */
  ghost predicate Shows(p: Pipe, s: Sys)
    reads p, p.data
  {
    p.Valid() && p.queue == s.queue && p.readopen == s.readopen && p.writeopen == s.writeopen
  }

  /** pipewrite, piperead and pipeclose on the ring make exactly the steps of the runs. */
  method Step(p: Pipe, s: Sys, a: Action) returns (t: Sys)
    requires Shows(p, s) && Enabled(s, a)
    modifies p, p.data
    ensures Shows(p, t) && t == Do(s, a)
  {
    match a {
      case Go(id) =>
        var j := s.jobs[id];
        if j.Write? {
          var i, end, woke := p.WriteSome(j.addr, j.i, id in s.killed);
          t := s.(queue := s.queue + j.addr[j.i..i], sent := s.sent + Tag(id, j.addr[j.i..i]),
                  jobs := (if woke then Woken(s.jobs, true) else s.jobs)[id := j.(i := i, st := After(end))]);
        } else {
          var out, end, woke := p.ReadSome(j.n, id in s.killed);
          var from := if end == Returns then |s.got| else j.from;
          var all := if end == Returns then out else j.out;
          t := s.(queue := s.queue[|out|..], got := s.got + out,
                  jobs := (if woke then Woken(s.jobs, false) else s.jobs)[id := Read(j.n, from, all, After(end))]);
        }
      case CloseWrite =>
        var readers, free := p.Close(true);
        t := s.(writeopen := false, jobs := Woken(s.jobs, readers));
      case CloseRead =>
        var readers, free := p.Close(false);
        t := s.(readopen := false, jobs := Woken(s.jobs, readers));
      case StartWrite(id, addr) => t := s.(jobs := s.jobs[id := Write(addr, 0, Ready)]);
      case StartRead(id, n) => t := s.(jobs := s.jobs[id := Read(n, |s.got|, [], Ready)]);
      case Kill(id) =>
        t := s.(killed := s.killed + {id},
                jobs := if s.jobs[id].st.Asleep? then s.jobs[id := s.jobs[id].(st := Ready)] else s.jobs);
    }
  }
}
