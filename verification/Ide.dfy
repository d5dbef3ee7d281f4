/** ide.c's request queue, against memide.c's disk that does everything at once. The port
    I/O of idestart is a request handed to the controller; an interrupt comes when the
    controller has carried it out. */
module Ide {
  import opened Common

  const FSSIZE := 1000

  type Data = seq<nat>

  /** qnext: the next buffer in the queue; the number of buffers stands for null. */
  datatype Buf = Buf(dev: nat, blockno: nat, busy: bool, valid: bool, dirty: bool, data: Data, qnext: nat)

  /** What idestart gives the controller: the data goes along with a write. */
  datatype Req = Req(write: bool, place: (nat, nat), data: Data)

  /** By drive and block. */
  type Disk = map<(nat, nat), Data>

  /** idestart selects the drive by the low bit of the device. */
  function Place(x: Buf): (nat, nat) { (x.dev % 2, x.blockno) }

  /** The blocks there are. */
  ghost predicate Drives(disk: Disk, have1: bool) {
    forall v: nat, k: nat :: (v, k) in disk <==> k < FSSIZE && (v == 0 || (v == 1 && have1))
  }

  function Issue(x: Buf): Req { Req(x.dirty, Place(x), if x.dirty then x.data else []) }

  /** memide.c's iderw. */
  function SyncDisk(disk: Disk, x: Buf): Disk {
    if x.dirty then disk[Place(x) := x.data] else disk
  }

  function SyncBuf(disk: Disk, x: Buf): Buf
    requires Place(x) in disk
  {
    if x.dirty then x.(dirty := false, valid := true) else x.(data := disk[Place(x)], valid := true)
  }

  // ------------------------------------------------------------ the queue as a linked list

  /** The list that starts at `from`. */
  predicate List(bs: seq<Buf>, from: nat, q: seq<nat>)
    decreases |q|
  {
    if q == [] then from == |bs| else from == q[0] && q[0] < |bs| && List(bs, bs[q[0]].qnext, q[1..])
  }

  lemma {:induction false} ListKept(bs: seq<Buf>, cs: seq<Buf>, from: nat, q: seq<nat>)
    requires List(bs, from, q) && |cs| == |bs|
    requires forall i :: 0 <= i < |q| ==> q[i] < |bs| && cs[q[i]].qnext == bs[q[i]].qnext
    ensures List(cs, from, q)
    decreases |q|
  {
    if q != [] {
      ListKept(bs, cs, bs[q[0]].qnext, q[1..]);
    }
  }

  lemma {:induction false} ListIn(bs: seq<Buf>, from: nat, q: seq<nat>)
    requires List(bs, from, q)
    ensures forall i :: 0 <= i < |q| ==> q[i] < |bs|
    decreases |q|
  {
    if q != [] {
      ListIn(bs, bs[q[0]].qnext, q[1..]);
    }
  }

  lemma ListEmpty(bs: seq<Buf>, from: nat, q: seq<nat>)
    requires List(bs, from, q)
    ensures from == |bs| <==> q == []
  {
  }

  /** The list without its head. */
  lemma ListTail(bs: seq<Buf>, from: nat, q: seq<nat>)
    requires List(bs, from, q) && Distinct(q) && from != |bs|
    ensures q != [] && from == q[0] && from < |bs| && from !in q[1..] && Distinct(q[1..])
    ensures List(bs, bs[from].qnext, q[1..])
    ensures bs[from].qnext == (if |q| == 1 then |bs| else q[1]) && (|q| > 1 ==> q[1] < |bs|)
  {
    assert forall i :: 0 <= i < |q[1..]| ==> q[1..][i] == q[i + 1];
  }

  lemma ListUpdate(bs: seq<Buf>, b: nat, x: Buf, from: nat, q: seq<nat>)
    requires List(bs, from, q) && b < |bs| && b !in q
    ensures List(bs[b := x], from, q)
  {
    ListIn(bs, from, q);
    ListKept(bs, bs[b := x], from, q);
  }

  /** Appending b: the null at the end of the list becomes b, and b leads to null. */
  lemma {:induction false} ListAppend(bs: seq<Buf>, from: nat, q: seq<nat>, b: nat)
    requires List(bs, from, q) && b < |bs| && b !in q && bs[b].qnext == |bs| && Distinct(q)
    ensures q == [] ==> List(bs, b, [b])
    ensures q != [] ==> q[|q| - 1] < |bs| && List(bs[q[|q| - 1] := bs[q[|q| - 1]].(qnext := b)], from, q + [b])
    decreases |q|
  {
    if q != [] {
      ListIn(bs, from, q);
      var last := q[|q| - 1];
      var cs := bs[last := bs[last].(qnext := b)];
      assert (q + [b])[1..] == q[1..] + [b];
      if |q| == 1 {
        assert q[1..] + [b] == [b];
        assert List(cs, b, [b]);
      } else {
        assert q[1..][|q[1..]| - 1] == last;
        ListAppend(bs, bs[q[0]].qnext, q[1..], b);
      }
    }
  }

  class Driver {
    var bufs: seq<Buf>
    var head: nat
    var disk: Disk
    var active: Option<Req>
    const have1: bool
    ghost var queue: seq<nat>

    ghost predicate Valid()
      reads this
    {
      List(bufs, head, queue) && Distinct(queue) && Queued(Abs())
    }

    /** The walk to the end of the queue, and the new last element. */
    method Append(b: nat)
      requires List(bufs, head, queue) && Distinct(queue) && b < |bufs| && b !in queue
      modifies this`bufs, this`head
      ensures List(bufs, head, queue + [b]) && SameButNext(old(bufs), bufs) && (head == b <==> queue == [])
    {
      ListIn(bufs, head, queue);
      ghost var bs := bufs;
      bufs := bufs[b := bufs[b].(qnext := |bufs|)];
      ListKept(bs, bufs, head, queue);
      ListAppend(bufs, head, queue, b);
      if head == |bufs| {
        head := b;
        assert queue + [b] == [b];
      } else {
        var p := head;
        ghost var i := 0;
        while bufs[p].qnext != |bufs|
          invariant 0 <= i < |queue| && p == queue[i] && p < |bufs| && List(bufs, bufs[p].qnext, queue[i + 1..])
          decreases |queue| - i
        {
          p := bufs[p].qnext;
          assert queue[i + 1..][1..] == queue[i + 1 + 1..];
          i := i + 1;
        }
        assert i == |queue| - 1;
        bufs := bufs[p := bufs[p].(qnext := b)];
      }
    }

    /** iderw up to its first sleep: the buffer joins the queue, and the disk is started if
        it was idle. A panic exactly on a buffer that is not busy, has nothing to do, or is
        for a drive that is not there, and, in idestart, on a block out of range. */
    method Iderw(b: nat) returns (ok: bool)
      requires Valid() && b < |bufs| && b !in queue
      modifies this`bufs, this`head, this`active, this`queue
      ensures ok <==> Pending(old(bufs)[b], have1) && (old(queue) == [] ==> old(bufs)[b].blockno < FSSIZE)
      ensures ok ==> Valid() && Same(Abs(), Enqueue(old(Abs()), b))
      ensures !Pending(old(bufs)[b], have1) ==> Abs() == old(Abs())
    {
      if !bufs[b].busy {
        return false;
      }
      if bufs[b].valid && !bufs[b].dirty {
        return false;
      }
      if bufs[b].dev != 0 && !have1 {
        return false;
      }
      ghost var s0 := Abs();
      ghost var s := Enqueue(s0, b);
      hide List, Queued;
      Append(b);
      queue := queue + [b];
      if head == b {
        if bufs[b].blockno >= FSSIZE {
          return false;
        }
        active := Some(Issue(bufs[b]));
      }
      EnqueueKeeps(s0, b);
      SameQueued(s, Abs());
      return true;
    }

    /** ideintr: the controller has carried out the request at the head; its buffer leaves
        the queue, up to date, and the next request starts. `error`: the status of a read. A
        panic, in idestart, exactly when the next block is out of range. */
    method Ideintr(error: bool) returns (ok: bool)
      requires Valid()
      modifies this`bufs, this`head, this`disk, this`active, this`queue
      ensures ok <==> NextFits(old(Abs()))
      ensures ok ==> Valid() && Same(Abs(), Complete(old(Abs()), error))
      ensures ok ==> disk == if old(queue) == [] then old(disk) else
        var x := old(bufs)[old(queue)[0]];
        if x.dirty then old(disk)[(x.dev % 2, x.blockno) := x.data] else old(disk)
    {
      hide List, Distinct, Queued;
      ListEmpty(bufs, head, queue);
      if head == |bufs| {
        return true;
      }
      ghost var s := Abs();
      ListTail(bufs, head, queue);
      HeadReady(s);
      var b := head;
      head := bufs[b].qnext;
      // what the controller did
      var input: Data := [];
      if active.value.write {
        disk := disk[active.value.place := active.value.data];
      } else {
        input := disk[active.value.place];
      }
      var x := bufs[b];
      if !x.dirty && !error {
        x := x.(data := input);
      }
      x := x.(valid := true, dirty := false);
      assert x == Finished(s.disk, s.bufs[b], error) && disk == SyncDisk(s.disk, s.bufs[b]);
      ListUpdate(bufs, b, x, head, queue[1..]);
      bufs := bufs[b := x];
      queue := queue[1..];
      active := None;
      if head != |bufs| {
        if bufs[head].blockno >= FSSIZE {
          return false;
        }
        active := Some(Issue(bufs[head]));
      }
      CompleteKeeps(s, error);
      assert Abs() == Complete(s, error);
      return true;
    }

    ghost function Abs(): State
      reads this
    {
      State(disk, bufs, queue, active, have1)
    }
  }

  // ------------------------------------------------------------ the queue as a value

  datatype State = State(disk: Disk, bufs: seq<Buf>, queue: seq<nat>, active: Option<Req>, have1: bool)

  /** Equal but for the links. */
  predicate Same(s: State, t: State) {
    && s.disk == t.disk && s.queue == t.queue && s.active == t.active && s.have1 == t.have1 && |s.bufs| == |t.bufs|
    && forall i :: 0 <= i < |s.bufs| ==> s.bufs[i] == t.bufs[i].(qnext := s.bufs[i].qnext)
  }

  function Enqueue(s: State, b: nat): State
    requires b < |s.bufs|
  {
    s.(queue := s.queue + [b], active := if s.queue == [] then Some(Issue(s.bufs[b])) else s.active)
  }

  /** Queued buffers are distinct and busy with something to do; the request at the
      controller is that of the first, for a block there is, and there is one whenever the
      queue is not empty. */
  ghost predicate Queued(s: State) {
    && Distinct(s.queue) && Drives(s.disk, s.have1)
    && (forall i :: 0 <= i < |s.queue| ==> s.queue[i] < |s.bufs| && Pending(s.bufs[s.queue[i]], s.have1))
    && (s.queue != [] ==> s.bufs[s.queue[0]].blockno < FSSIZE)
    && s.active == if s.queue == [] then None else Some(Issue(s.bufs[s.queue[0]]))
  }

  /** iderw's three tests. */
  predicate Pending(x: Buf, have1: bool) {
    x.busy && !(x.valid && !x.dirty) && (x.dev == 0 || have1)
  }

  /** The request after the head is for a block there is. */
  predicate NextFits(s: State) {
    |s.queue| > 1 && s.queue[1] < |s.bufs| ==> s.bufs[s.queue[1]].blockno < FSSIZE
  }

  predicate SameButNext(bs: seq<Buf>, cs: seq<Buf>) {
    |cs| == |bs| && forall i :: 0 <= i < |bs| ==> cs[i] == bs[i].(qnext := cs[i].qnext)
  }

  lemma SameQueued(s: State, t: State)
    requires Queued(s) && Same(t, s)
    ensures Queued(t)
  {
  }

  lemma HeadReady(s: State)
    requires Queued(s) && s.queue != []
    ensures s.queue[0] < |s.bufs| && Place(s.bufs[s.queue[0]]) in s.disk && s.active == Some(Issue(s.bufs[s.queue[0]]))
  {
    assert Pending(s.bufs[s.queue[0]], s.have1);
  }

  lemma EnqueueKeeps(s: State, b: nat)
    requires Queued(s) && b < |s.bufs| && b !in s.queue && Pending(s.bufs[b], s.have1)
    requires s.queue == [] ==> s.bufs[b].blockno < FSSIZE
    ensures Queued(Enqueue(s, b))
  {
    var t := Enqueue(s, b);
    assert forall i :: 0 <= i < |s.queue| ==> t.queue[i] == s.queue[i];
  }

  /** A request done: as memide's iderw does it, unless a read fails. */
  function Finished(disk: Disk, x: Buf, error: bool): Buf
    requires Place(x) in disk
  {
    if error && !x.dirty then x.(valid := true) else SyncBuf(disk, x)
  }

  function Complete(s: State, error: bool): State
    requires Queued(s)
  {
    if s.queue == [] then s
    else
      HeadReady(s);
      var bs := s.bufs[s.queue[0] := Finished(s.disk, s.bufs[s.queue[0]], error)];
      State(SyncDisk(s.disk, s.bufs[s.queue[0]]), bs, s.queue[1..],
            if |s.queue| == 1 then None else Some(Issue(bs[s.queue[1]])), s.have1)
  }

  lemma CompleteKeeps(s: State, error: bool)
    requires Queued(s) && NextFits(s)
    ensures Queued(Complete(s, error))
  {
    if s.queue != [] {
      HeadReady(s);
      var t := Complete(s, error);
      forall i | 0 <= i < |t.queue|
        ensures t.queue[i] < |t.bufs| && Pending(t.bufs[t.queue[i]], t.have1)
        ensures t.bufs[t.queue[i]] == s.bufs[s.queue[i + 1]]
      {
        assert t.queue[i] == s.queue[i + 1];
        assert Pending(s.bufs[s.queue[i + 1]], s.have1);
      }
    }
  }

  /** A request comes out as memide's iderw does it exactly when it was a write, no error
      was reported, or the buffer happened to hold the block already. */
  lemma FinishedIsSync(disk: Disk, x: Buf, error: bool)
    requires Place(x) in disk
    ensures Finished(disk, x, error) == SyncBuf(disk, x) <==> x.dirty || !error || x.data == disk[Place(x)]
  {
  }

  // ------------------------------------------------------------ all interleavings

  /** calls: the buffers some process is inside iderw with. entry: the buffer at the call.
      at: the disk just before its request was carried out, and failed: whether an error was
      reported then. started and done: every request, in the order it was queued and
      completed; asked: the buffers those calls were made with, and turn: the place of a
      buffer's last call among them. */
  datatype Sys = Sys(q: State, calls: set<nat>, entry: map<nat, Buf>, at: map<nat, Disk>, failed: map<nat, bool>,
          started: seq<nat>, done: seq<nat>, asked: seq<Buf>, turn: map<nat, nat>)

  /** Client: anything a process does with a buffer it is not in iderw with. */
  datatype Action = Start(b: nat) | Intr(error: bool) | Return(b: nat) | Client(b: nat, x: Buf)

  /** A step that does not panic. */
  ghost predicate Enabled(s: Sys, a: Action) {
    match a
    case Start(b) =>
      && b < |s.q.bufs| && b !in s.calls && Pending(s.q.bufs[b], s.q.have1)
      && (s.q.queue == [] ==> s.q.bufs[b].blockno < FSSIZE)
    case Intr(_) => Queued(s.q) && NextFits(s.q)
    case Return(b) => b in s.calls && b < |s.q.bufs| && s.q.bufs[b].valid && !s.q.bufs[b].dirty
    case Client(b, _) => b < |s.q.bufs| && b !in s.calls
  }

  ghost function Do(s: Sys, a: Action): Sys
    requires Enabled(s, a)
  {
    match a
    case Start(b) =>
      s.(q := Enqueue(s.q, b), calls := s.calls + {b}, entry := s.entry[b := s.q.bufs[b]], started := s.started + [b],
         asked := s.asked + [s.q.bufs[b]], turn := s.turn[b := |s.started|])
    case Intr(error) =>
      if s.q.queue == [] then s
      else
        s.(q := Complete(s.q, error), at := s.at[s.q.queue[0] := s.q.disk], failed := s.failed[s.q.queue[0] := error],
           done := s.done + [s.q.queue[0]])
    case Return(b) => s.(calls := s.calls - {b})
    case Client(b, x) => s.(q := s.q.(bufs := s.q.bufs[b := x]))
  }

  /** In iderw: queued and as it was at the call, or done and as its completion left it. */
  ghost predicate CallFine(s: Sys, b: nat) {
    && b < |s.q.bufs| && b in s.entry
    && if b in s.q.queue then s.q.bufs[b] == s.entry[b]
       else
         && b in s.at && b in s.failed && Place(s.entry[b]) in s.at[b]
         && s.q.bufs[b] == Finished(s.at[b], s.entry[b], s.failed[b])
  }

  ghost predicate Inv(s: Sys) {
    && Queued(s.q) && s.started == s.done + s.q.queue
    && (forall i :: 0 <= i < |s.q.queue| ==> s.q.queue[i] in s.calls)
    && (forall b :: b in s.calls ==> CallFine(s, b))
  }

  lemma StartKeeps(s: Sys, b: nat)
    requires Inv(s) && Enabled(s, Start(b))
    ensures Inv(Do(s, Start(b)))
  {
    var t := Do(s, Start(b));
    EnqueueKeeps(s.q, b);
    assert t.started == t.done + t.q.queue;
    forall c | c in t.calls
      ensures CallFine(t, c)
    {
      assert c in s.calls ==> CallFine(s, c);
    }
  }

  lemma IntrCall(s: Sys, error: bool, c: nat)
    requires Enabled(s, Intr(error)) && s.q.queue != [] && c in s.calls && CallFine(s, c)
    ensures CallFine(Do(s, Intr(error)), c)
  {
    HeadReady(s.q);
    HeadGone(s.q.queue);
    hide Queued, Distinct, SyncDisk;
  }

  lemma IntrKeeps(s: Sys, error: bool)
    requires Inv(s) && Enabled(s, Intr(error))
    ensures Inv(Do(s, Intr(error)))
  {
    hide Queued, Distinct, Finished, SyncDisk, CallFine;
    CompleteKeeps(s.q, error);
    var t := Do(s, Intr(error));
    if s.q.queue != [] {
      assert t.started == t.done + t.q.queue;
      forall c | c in t.calls
        ensures CallFine(t, c)
      {
        IntrCall(s, error, c);
      }
    }
  }

  lemma ClientKeeps(s: Sys, b: nat, x: Buf)
    requires Inv(s) && Enabled(s, Client(b, x))
    ensures Inv(Do(s, Client(b, x)))
  {
    var t := Do(s, Client(b, x));
    assert forall i :: 0 <= i < |s.q.queue| ==> s.q.queue[i] != b;
    forall c | c in t.calls
      ensures CallFine(t, c)
    {
      assert CallFine(s, c);
    }
  }

  lemma StepKeeps(s: Sys, a: Action)
    requires Inv(s) && Enabled(s, a)
    ensures Inv(Do(s, a))
  {
    match a
    case Start(b) => StartKeeps(s, b);
    case Intr(error) => IntrKeeps(s, error);
    case Client(b, x) => ClientKeeps(s, b, x);
    case Return(b) =>
      NotQueued(s, b);
      forall c | c in Do(s, a).calls
        ensures CallFine(Do(s, a), c)
      {
        assert CallFine(s, c);
      }
  }

  lemma HeadGone(q: seq<nat>)
    requires q != [] && Distinct(q)
    ensures forall c :: c in q[1..] <==> c in q && c != q[0]
  {
  }

  /** A buffer that is valid and clean is not in the queue. */
  lemma NotQueued(s: Sys, b: nat)
    requires Inv(s) && b < |s.q.bufs| && s.q.bufs[b].valid && !s.q.bufs[b].dirty
    ensures b !in s.q.queue
  {
    assert forall i :: 0 <= i < |s.q.queue| ==> Pending(s.q.bufs[s.q.queue[i]], s.q.have1);
  }

  ghost predicate Runs(s: Sys, acts: seq<Action>, t: Sys)
    decreases |acts|
  {
    if acts == [] then s == t else Enabled(s, acts[0]) && Runs(Do(s, acts[0]), acts[1..], t)
  }

  ghost predicate Idle(s: Sys) {
    && Drives(s.q.disk, s.q.have1) && s.q.queue == [] && s.q.active == None && s.calls == {} && s.started == []
    && s.done == [] && s.asked == []
  }

  lemma {:induction false} RunKeeps(s: Sys, acts: seq<Action>, t: Sys)
    requires Inv(s) && Runs(s, acts, t)
    ensures Inv(t)
    decreases |acts|
  {
    if acts != [] {
      StepKeeps(s, acts[0]);
      RunKeeps(Do(s, acts[0]), acts[1..], t);
    }
  }

  lemma Reaches(s: Sys, acts: seq<Action>, t: Sys)
    requires Idle(s) && Runs(s, acts, t)
    ensures Inv(t)
  {
    assert Queued(s.q);
    assert s.started == s.done + s.q.queue;
    hide Runs, Queued;
    RunKeeps(s, acts, t);
  }

  /** Queued buffers are distinct and busy, only the head is issued, a waiting request is
      never without one at the controller, and requests finish in the order they came. */
  lemma InOrder(s: Sys, acts: seq<Action>, t: Sys)
    requires Idle(s) && Runs(s, acts, t)
    ensures Distinct(t.q.queue) && t.started == t.done + t.q.queue
    ensures forall i :: 0 <= i < |t.q.queue| ==> t.q.queue[i] < |t.q.bufs| && t.q.bufs[t.q.queue[i]].busy
    ensures t.q.active == if t.q.queue == [] then None else Some(Issue(t.q.bufs[t.q.queue[0]]))
  {
    Reaches(s, acts, t);
  }

  /** When iderw returns, its request has been carried out, and the buffer is what memide's
      iderw makes of the buffer it was called with and the disk at that moment if and only if
      it was a write, no error was reported, or it held the bytes of the block already. */
  lemma ReturnsAsSync(s: Sys, acts: seq<Action>, t: Sys, b: nat)
    requires Idle(s) && Runs(s, acts, t) && Enabled(t, Return(b))
    ensures b !in t.q.queue && b in t.entry && b in t.at && b in t.failed && Place(t.entry[b]) in t.at[b]
    ensures t.q.bufs[b] == SyncBuf(t.at[b], t.entry[b]) <==>
      t.entry[b].dirty || !t.failed[b] || t.entry[b].data == t.at[b][Place(t.entry[b])]
    ensures t.q.bufs[b].data == t.entry[b].data || t.q.bufs[b] == SyncBuf(t.at[b], t.entry[b])
  {
    Reaches(s, acts, t);
    NotQueued(t, b);
    assert CallFine(t, b);
    FinishedIsSync(t.at[b], t.entry[b], t.failed[b]);
  }

  lemma HeadEntry(s: Sys)
    requires Inv(s) && s.q.queue != []
    ensures s.q.queue[0] < |s.q.bufs| && s.q.queue[0] in s.entry && s.q.bufs[s.q.queue[0]] == s.entry[s.q.queue[0]]
  {
    assert s.q.queue[0] in s.calls;
    assert CallFine(s, s.q.queue[0]);
  }

  /** The disk changes only when a request is carried out, and then as memide's iderw on
      the buffer of that call changes it. */
  lemma DiskAsSync(s: Sys, acts: seq<Action>, t: Sys, a: Action)
    requires Idle(s) && Runs(s, acts, t) && Enabled(t, a)
    ensures a.Intr? && t.q.queue != [] ==>
      && t.q.queue[0] in t.entry && t.q.queue[0] in Do(t, a).at && Do(t, a).at[t.q.queue[0]] == t.q.disk
      && Do(t, a).q.disk == SyncDisk(t.q.disk, t.entry[t.q.queue[0]])
    ensures !(a.Intr? && t.q.queue != []) ==> Do(t, a).q.disk == t.q.disk
  {
    hide Runs, Queued, Idle, Inv, CallFine, Finished;
    Reaches(s, acts, t);
    if t.q.queue != [] {
      HeadEntry(t);
    }
  }

  // ------------------------------------------------------------ what a read returns

  /** The last of these requests that is a write to this block of this drive gives the bytes,
      or, if none is, the block had them to begin with. */
  ghost predicate LastWritten(asked: seq<Buf>, drive: nat, block: nat, first: Data, data: Data) {
    || (data == first && forall i :: 0 <= i < |asked| ==> !WritesTo(asked[i], drive, block))
    || exists i :: 0 <= i < |asked| && WritesTo(asked[i], drive, block) && data == asked[i].data
                   && forall j :: i < j < |asked| ==> !WritesTo(asked[j], drive, block)
  }

  predicate WritesTo(x: Buf, drive: nat, block: nat) {
    x.dirty && x.dev % 2 == drive && x.blockno == block
  }

  /** The disk holds what these requests made of the first one. */
  ghost predicate Follows(first: Disk, asked: seq<Buf>, disk: Disk) {
    && disk.Keys == first.Keys
    && forall v: nat, k: nat :: (v, k) in disk ==> LastWritten(asked, v, k, first[(v, k)], disk[(v, k)])
  }

  lemma LastWrittenNext(asked: seq<Buf>, x: Buf, drive: nat, block: nat, first: Data, data: Data)
    requires LastWritten(asked, drive, block, first, data)
    ensures LastWritten(asked + [x], drive, block, first, if WritesTo(x, drive, block) then x.data else data)
  {
    var more := asked + [x];
    assert more[|asked|] == x && forall i :: 0 <= i < |asked| ==> more[i] == asked[i];
    if !WritesTo(x, drive, block) && exists i :: 0 <= i < |asked| && WritesTo(asked[i], drive, block) {
      if i :| 0 <= i < |asked| && WritesTo(asked[i], drive, block) && data == asked[i].data
              && forall j :: i < j < |asked| ==> !WritesTo(asked[j], drive, block) {
        assert WritesTo(more[i], drive, block);
      }
    }
  }

  lemma FollowsNext(first: Disk, asked: seq<Buf>, disk: Disk, x: Buf)
    requires Follows(first, asked, disk) && Place(x) in disk
    ensures Follows(first, asked + [x], SyncDisk(disk, x))
  {
    hide LastWritten;
    var d := SyncDisk(disk, x);
    forall v: nat, k: nat | (v, k) in d
      ensures LastWritten(asked + [x], v, k, first[(v, k)], d[(v, k)])
    {
      LastWrittenNext(asked, x, v, k, first[(v, k)], disk[(v, k)]);
    }
  }

  /** Call b stands in its turn, and if it is over, with the disk as the calls before it left it. */
  ghost predicate InTurn(first: Disk, s: Sys, b: nat) {
    && b in s.turn && b in s.entry && s.turn[b] < |s.asked| == |s.started| && s.started[s.turn[b]] == b
    && s.asked[s.turn[b]] == s.entry[b]
    && (b !in s.q.queue ==>
          s.turn[b] < |s.done| && b in s.at && Follows(first, s.asked[..s.turn[b]], s.at[b]))
  }

  ghost predicate History(first: Disk, s: Sys) {
    && |s.asked| == |s.started| && |s.done| <= |s.asked| && Follows(first, s.asked[..|s.done|], s.q.disk)
    && (forall b :: b in s.calls ==> InTurn(first, s, b))
    && (forall i :: 0 <= i < |s.q.queue| ==> s.q.queue[i] in s.turn && s.turn[s.q.queue[i]] == |s.done| + i)
  }

  lemma StartHistory(first: Disk, s: Sys, b: nat)
    requires Inv(s) && History(first, s) && Enabled(s, Start(b))
    ensures History(first, Do(s, Start(b)))
  {
    hide Follows, Queued, CallFine;
    var t := Do(s, Start(b));
    assert t.asked[..|t.done|] == s.asked[..|s.done|];
    assert forall i :: 0 <= i < |s.q.queue| ==> t.q.queue[i] == s.q.queue[i] && t.q.queue[i] != b;
    forall c | c in t.calls
      ensures InTurn(first, t, c)
    {
      if c != b {
        assert InTurn(first, s, c);
        assert t.asked[..t.turn[c]] == s.asked[..s.turn[c]];
      }
    }
  }

  lemma IntrHistory(first: Disk, s: Sys, error: bool)
    requires Inv(s) && History(first, s) && Enabled(s, Intr(error)) && s.q.queue != []
    ensures History(first, Do(s, Intr(error)))
  {
    hide Follows, Queued, CallFine, SyncDisk, Finished, Distinct;
    HeadReady(s.q);
    HeadEntry(s);
    var h, t := s.q.queue[0], Do(s, Intr(error));
    QueueTail(s);
    assert InTurn(first, s, h);
    FollowsNext(first, s.asked[..|s.done|], s.q.disk, s.entry[h]);
    assert s.asked[..|s.done|] + [s.entry[h]] == t.asked[..|t.done|];
    forall c | c in t.calls
      ensures InTurn(first, t, c)
    {
      assert InTurn(first, s, c);
    }
  }

  lemma QueueTail(s: Sys)
    requires Inv(s) && s.q.queue != []
    ensures forall c :: c in s.q.queue[1..] <==> c in s.q.queue && c != s.q.queue[0]
    ensures forall i :: 0 <= i < |s.q.queue| - 1 ==> s.q.queue[1..][i] == s.q.queue[i + 1]
    ensures s.q.queue[0] in s.calls
  {
    HeadGone(s.q.queue);
  }

  lemma StepHistory(first: Disk, s: Sys, a: Action)
    requires Inv(s) && History(first, s) && Enabled(s, a)
    ensures History(first, Do(s, a))
  {
    hide Inv, Follows, Queued, CallFine, SyncDisk, Finished, Pending;
    match a
    case Start(b) => StartHistory(first, s, b);
    case Intr(error) => if s.q.queue != [] { IntrHistory(first, s, error); }
    case Return(b) =>
      assert forall c :: c in Do(s, a).calls ==> InTurn(first, s, c);
    case Client(b, x) =>
      assert forall c :: c in Do(s, a).calls ==> InTurn(first, s, c);
  }

  lemma {:induction false} RunHistory(first: Disk, s: Sys, acts: seq<Action>, t: Sys)
    requires Inv(s) && History(first, s) && Runs(s, acts, t)
    ensures Inv(t) && History(first, t)
    decreases |acts|
  {
    hide Inv, History, Enabled, Do;
    if acts != [] {
      StepKeeps(s, acts[0]);
      StepHistory(first, s, acts[0]);
      RunHistory(first, Do(s, acts[0]), acts[1..], t);
    }
  }

  /** Every run: when iderw can return, its call is the k-th that was made, and the buffer is
      valid and clean. A write leaves its bytes, which are then the last written for the calls
      behind it. A read that reported no error has the bytes of the last write to its block
      among the k calls before it, or, if there was none, those the disk began with; one that
      reported an error has the bytes it was called with. */
  lemma ReadsLastWrite(s: Sys, acts: seq<Action>, t: Sys, b: nat)
    requires Idle(s) && Runs(s, acts, t) && Enabled(t, Return(b))
    ensures b in t.turn && b in t.entry && b in t.failed
    ensures |t.asked| == |t.started| && t.turn[b] < |t.done| <= |t.asked|
    ensures t.started[t.turn[b]] == b && t.asked[t.turn[b]] == t.entry[b]
    ensures (t.entry[b].dev % 2, t.entry[b].blockno) in s.q.disk
    ensures t.q.bufs[b].dev == t.entry[b].dev && t.q.bufs[b].blockno == t.entry[b].blockno
    ensures t.entry[b].dirty || t.failed[b] ==> t.q.bufs[b].data == t.entry[b].data
    ensures !t.entry[b].dirty && !t.failed[b] ==>
      var v, k := t.entry[b].dev % 2, t.entry[b].blockno;
      LastWritten(t.asked[..t.turn[b]], v, k, s.q.disk[(v, k)], t.q.bufs[b].data)
  {
    hide Queued, LastWritten;
    IdleHistory(s);
    RunHistory(s.q.disk, s, acts, t);
    NotQueued(t, b);
    assert CallFine(t, b) && InTurn(s.q.disk, t, b);
  }

  lemma IdleHistory(s: Sys)
    requires Idle(s)
    ensures Inv(s) && History(s.q.disk, s)
  {
    assert Queued(s.q);
    assert s.started == s.done + s.q.queue;
  }

  /** And the disk always holds what the calls completed so far, in their order, have written. */
  lemma DiskFollows(s: Sys, acts: seq<Action>, t: Sys)
    requires Idle(s) && Runs(s, acts, t)
    ensures |t.done| <= |t.asked| && t.q.disk.Keys == s.q.disk.Keys
    ensures forall v: nat, k: nat :: (v, k) in t.q.disk ==>
      LastWritten(t.asked[..|t.done|], v, k, s.q.disk[(v, k)], t.q.disk[(v, k)])
  {
    hide Queued, LastWritten, Inv, Runs;
    IdleHistory(s);
    RunHistory(s.q.disk, s, acts, t);
  }
}
