/** pipe.c under its two locks. A call takes p->lock, runs a stretch, and calls wakeup and
    sleep, which take ptable.lock; sleep lets go of p->lock only once it has the other
    (proc.c:366-369). wakeup and kill are steps of their own, kill at any moment at which
    ptable.lock is free. Whole runs are shown to be runs of module PipeRun, whose steps are
    whole stretches. */
module PipeLocks {
  import opened Common
  import opened Pipe
  import Coarse = PipeRun

  /** A read or a write, or the closing of an end. job.st is what its last stretch decided. */
  datatype Work = Io(job: Coarse.Job) | Close(writable: bool)

  datatype Point =
    | Wants       // outside, to take p->lock
    | Holds       // has p->lock, at the top of its loop
    | Wakes       // has p->lock, about to call wakeup
    | ToSleep     // has p->lock, has tested its condition and `killed`, about to call sleep
    | Both        // in sleep, has p->lock and ptable.lock
    | TableOnly   // in sleep, has let go of p->lock
    | Asleep      // SLEEPING
    | Woken       // RUNNABLE, in sched()
    | Back        // out of sched(), has ptable.lock
    | Leaves      // has p->lock, about to return
    | Over

  datatype Call = Call(work: Work, at: Point)

  /** Who has ptable.lock: nobody, a call on this pipe, or some other process. */
  datatype Holder = Nobody | By(id: nat) | Stranger

  datatype State = State(
    queue: seq<Byte>, readopen: bool, writeopen: bool, calls: map<nat, Call>, killed: set<nat>,
    sent: seq<(nat, Byte)>, got: seq<Byte>, plock: Option<nat>, tlock: Holder)

  datatype Action =
    | StartWrite(id: nat, addr: seq<Byte>) | StartRead(id: nat, n: nat) | StartClose(id: nat, writable: bool)
    | Take(id: nat) | Run(id: nat) | Wake(id: nat)
    | SleepTake(id: nat) | SleepDrop(id: nat) | SleepGo(id: nat) | Resume(id: nat) | ResumeDrop(id: nat)
    | Leave(id: nat) | Kill(id: nat) | Table(take: bool)

  // ------------------------------------------------------------ the steps

  predicate AtPoint(s: State, id: nat, at: Point) {
    id in s.calls && s.calls[id].at == at
  }

  /** A read (or write) in progress. */
  ghost predicate Busy(s: State, readers: bool) {
    exists id :: id in s.calls && s.calls[id].work.Io? && s.calls[id].work.job.Read? == readers
                 && s.calls[id].at != Over
  }

  ghost predicate Closing(s: State, writable: bool) {
    exists id :: id in s.calls && s.calls[id].work == Close(writable)
  }

  /** An end is closed when its last file reference goes, so not during a call on it, and no
      call on it starts afterwards. A kill of a process inside pipeclose shows nowhere. */
  ghost predicate Enabled(s: State, a: Action) {
    match a
    case StartWrite(id, _) => id !in s.calls && s.writeopen && !Closing(s, true)
    case StartRead(id, _) => id !in s.calls && s.readopen && !Closing(s, false)
    case StartClose(id, w) =>
      id !in s.calls && (if w then s.writeopen else s.readopen) && !Busy(s, !w) && !Closing(s, w)
    case Take(id) => AtPoint(s, id, Wants) && s.plock == None
    case Run(id) => AtPoint(s, id, Holds) && Runnable(s.calls[id].work)
    case Wake(id) => AtPoint(s, id, Wakes) && s.tlock == Nobody
    case SleepTake(id) => AtPoint(s, id, ToSleep) && s.tlock == Nobody
    case SleepDrop(id) => AtPoint(s, id, Both)
    case SleepGo(id) => AtPoint(s, id, TableOnly)
    case Resume(id) => AtPoint(s, id, Woken) && s.tlock == Nobody
    case ResumeDrop(id) => AtPoint(s, id, Back) && s.calls[id].work.Io?
    case Leave(id) => AtPoint(s, id, Leaves)
    case Kill(id) => id in s.calls && s.calls[id].work.Io? && s.tlock == Nobody
    case Table(take) => s.tlock == if take then Nobody else Stranger
  }

  predicate Runnable(w: Work) {
    w.Io? && w.job.Write? ==> w.job.i <= |w.job.addr|
  }

  /** The side a call's wakeup is for. */
  predicate WakesReaders(w: Work) {
    if w.Io? then w.job.Write? else w.writable
  }

  function Goes(s: State, id: nat, at: Point): State
    requires id in s.calls
  {
    s.(calls := s.calls[id := s.calls[id].(at := at)])
  }

  /** wakeup: every sleeper of that side. */
  function Roused(calls: map<nat, Call>, readers: bool): (r: map<nat, Call>) {
    map id | id in calls ::
      if calls[id].at.Asleep? && calls[id].work.Io? && calls[id].work.job.Read? == readers
      then calls[id].(at := Woken) else calls[id]
  }

  /** A stretch under p->lock: of pipewrite up to a full ring or its end, of piperead up to an
      empty pipe or its end, with the test of `killed` where the source has it. */
  function Stretch(s: State, id: nat): State
    requires id in s.calls && Runnable(s.calls[id].work)
  {
    match s.calls[id].work
    case Close(w) =>
      (if w then s.(writeopen := false) else s.(readopen := false)).(calls := s.calls[id := Call(Close(w), Wakes)])
    case Io(Write(addr, i, _)) =>
      var k := i + Fits(|s.queue|, |addr| - i);
      var end := WriteEnd(|addr| - k, s.readopen, id in s.killed);
      s.(queue := s.queue + addr[i..k], sent := s.sent + Coarse.Tag(id, addr[i..k]),
         calls := s.calls[id := Call(Io(Coarse.Write(addr, k, Coarse.After(end))),
                                     if end == Fails then Leaves else Wakes)])
    case Io(Read(n, from, out, _)) =>
      var end := ReadEnd(|s.queue|, s.writeopen, id in s.killed);
      if end != Returns then
        s.(calls := s.calls[id := Call(Io(Coarse.Read(n, from, out, Coarse.After(end))),
                                       if end == Fails then Leaves else ToSleep)])
      else
        var taken := s.queue[..Min(n, |s.queue|)];
        s.(queue := s.queue[|taken|..], got := s.got + taken,
           calls := s.calls[id := Call(Io(Coarse.Read(n, |s.got|, taken, Coarse.Over(true))), Wakes)])
  }

  ghost function Do(s: State, a: Action): State
    requires Enabled(s, a)
  {
    match a
    case StartWrite(id, addr) => s.(calls := s.calls[id := Call(Io(Coarse.Write(addr, 0, Coarse.Ready)), Wants)])
    case StartRead(id, n) => s.(calls := s.calls[id := Call(Io(Coarse.Read(n, |s.got|, [], Coarse.Ready)), Wants)])
    case StartClose(id, w) => s.(calls := s.calls[id := Call(Close(w), Wants)])
    case Take(id) => Goes(s, id, Holds).(plock := Some(id))
    case Run(id) => Stretch(s, id)
    case Wake(id) =>
      var c := s.calls[id];
      s.(calls := Roused(s.calls, WakesReaders(c.work))
           [id := c.(at := if c.work.Io? && c.work.job.st == Coarse.Asleep then ToSleep else Leaves)])
    case SleepTake(id) => Goes(s, id, Both).(tlock := By(id))
    case SleepDrop(id) => Goes(s, id, TableOnly).(plock := None)
    case SleepGo(id) => Goes(s, id, Asleep).(tlock := Nobody)
    case Resume(id) => Goes(s, id, Back).(tlock := By(id))
    case ResumeDrop(id) =>
      s.(calls := s.calls[id := Call(Io(s.calls[id].work.job.(st := Coarse.Ready)), Wants)], tlock := Nobody)
    case Leave(id) => Goes(s, id, Over).(plock := None)
    case Kill(id) => (if s.calls[id].at == Asleep then Goes(s, id, Woken) else s).(killed := s.killed + {id})
    case Table(take) => s.(tlock := if take then Stranger else Nobody)
  }

  // ------------------------------------------------------------ what every step keeps

  predicate HasPipe(at: Point) { at == Holds || at == Wakes || at == ToSleep || at == Both || at == Leaves }

  predicate HasTable(at: Point) { at == Both || at == TableOnly || at == Back }

  ghost predicate Locks(s: State) {
    && (forall id :: id in s.calls ==> (HasPipe(s.calls[id].at) <==> s.plock == Some(id)))
    && (forall id :: id in s.calls ==> (HasTable(s.calls[id].at) <==> s.tlock == By(id)))
    && (s.plock.Some? ==> s.plock.value in s.calls) && (s.tlock.By? ==> s.tlock.id in s.calls)
  }

  /** What a call has decided, by where it is. */
  predicate CallFine(c: Call) {
    match c.work
    case Close(_) => c.at == Wants || c.at == Holds || c.at == Wakes || c.at == Leaves || c.at == Over
    case Io(j) =>
      && Runnable(c.work)
      && match c.at
         case Wants => j.st == Coarse.Ready
         case Holds => j.st == Coarse.Ready
         case Wakes => j.st == Coarse.Over(true) || (j.Write? && j.st == Coarse.Asleep)
         case Leaves => j.st.Over?
         case Over => j.st.Over?
         case _ => j.st == Coarse.Asleep
  }

  ghost predicate CallsFine(s: State) {
    forall id :: id in s.calls ==> CallFine(s.calls[id])
  }

  /** A call that closes an end: the end is open and unused until its stretch, and no other
      call closes it. */
  ghost predicate Closers(s: State) {
    && (forall id :: id in s.calls && s.calls[id].work.Close? && s.calls[id].at in {Wants, Holds} ==>
          (if s.calls[id].work.writable then s.writeopen else s.readopen) && !Busy(s, !s.calls[id].work.writable))
    && (forall i, j :: i in s.calls && j in s.calls && s.calls[i].work.Close? && s.calls[j].work == s.calls[i].work ==>
          i == j)
  }

  ghost predicate Inv(s: State) {
    Locks(s) && CallsFine(s) && Closers(s)
  }

  // ------------------------------------------------------------ as a run of stretches

  /** The holder of p->lock is about to wake that side. */
  predicate Pending(s: State, readers: bool) {
    && s.plock.Some? && s.plock.value in s.calls && s.calls[s.plock.value].at == Wakes
    && WakesReaders(s.calls[s.plock.value].work) == readers
  }

  /** A call that has decided to sleep counts as asleep unless a wakeup has reached it, is on
      its way, or it has been killed. */
  function AbsJob(s: State, id: nat): Coarse.Job
    requires id in s.calls && s.calls[id].work.Io?
  {
    var j := s.calls[id].work.job;
    if j.st == Coarse.Asleep
       && (s.calls[id].at == Woken || s.calls[id].at == Back || id in s.killed || Pending(s, j.Read?))
    then j.(st := Coarse.Ready) else j
  }

  ghost function Abs(s: State): Coarse.Sys {
    Coarse.Sys(s.queue, s.readopen, s.writeopen, map id | id in s.calls && s.calls[id].work.Io? :: AbsJob(s, id),
               s.killed, s.sent, s.got)
  }

  // ------------------------------------------------------------ the invariant is kept

  /** A call's next point, with the locks it takes or gives up by going there. */
  lemma OneCall(s: State, t: State, id: nat)
    requires Inv(s) && id in s.calls && id in t.calls && t.calls == s.calls[id := t.calls[id]]
    requires CallFine(t.calls[id]) && t.calls[id].work.Close? == s.calls[id].work.Close?
    requires t.calls[id].work.Close? ==> t.calls[id].work == s.calls[id].work
    requires t.calls[id].work.Io? ==> t.calls[id].work.job.Read? == s.calls[id].work.job.Read?
    requires s.calls[id].at == Over ==> t.calls[id].at == Over
    requires s.calls[id].work.Close? && (t.calls[id].at == Wants || t.calls[id].at == Holds) ==>
      s.calls[id].at == Wants || s.calls[id].at == Holds
    requires t.readopen == s.readopen && t.writeopen == s.writeopen
    requires HasPipe(t.calls[id].at) ==> s.plock == None || s.plock == Some(id)
    requires t.plock == if HasPipe(t.calls[id].at) then Some(id) else if s.plock == Some(id) then None else s.plock
    requires HasTable(t.calls[id].at) ==> s.tlock == Nobody || s.tlock == By(id)
    requires t.tlock == if HasTable(t.calls[id].at) then By(id) else if s.tlock == By(id) then Nobody else s.tlock
    ensures Inv(t)
  {
    forall x | x in t.calls
      ensures HasPipe(t.calls[x].at) <==> t.plock == Some(x)
      ensures HasTable(t.calls[x].at) <==> t.tlock == By(x)
      ensures CallFine(t.calls[x])
    {
      assert HasPipe(s.calls[x].at) <==> s.plock == Some(x);
      assert HasTable(s.calls[x].at) <==> s.tlock == By(x);
    }
    BusyKept(s, t, id);
  }

  lemma BusyKept(s: State, t: State, id: nat)
    requires Closers(s) && id in s.calls && id in t.calls && t.calls == s.calls[id := t.calls[id]]
    requires t.calls[id].work.Close? == s.calls[id].work.Close?
    requires t.calls[id].work.Close? ==> t.calls[id].work == s.calls[id].work
    requires t.calls[id].work.Io? ==> t.calls[id].work.job.Read? == s.calls[id].work.job.Read?
    requires s.calls[id].at == Over ==> t.calls[id].at == Over
    requires s.calls[id].work.Close? && (t.calls[id].at == Wants || t.calls[id].at == Holds) ==>
      s.calls[id].at == Wants || s.calls[id].at == Holds
    requires t.readopen == s.readopen && t.writeopen == s.writeopen
    ensures Closers(t) && (forall r :: Busy(t, r) ==> Busy(s, r))
  {
    forall r | Busy(t, r)
      ensures Busy(s, r)
    {
      var x :| x in t.calls && t.calls[x].work.Io? && t.calls[x].work.job.Read? == r && t.calls[x].at != Over;
      assert x in s.calls && s.calls[x].work.Io?;
    }
  }

  lemma Here(s: State, id: nat)
    requires Inv(s) && id in s.calls
    ensures CallFine(s.calls[id])
    ensures HasPipe(s.calls[id].at) <==> s.plock == Some(id)
    ensures HasTable(s.calls[id].at) <==> s.tlock == By(id)
  {
  }

  /** Steps in which one call goes from point to point. */
  lemma GoInv(s: State, id: nat, at: Point, plock: Option<nat>, tlock: Holder)
    requires Inv(s) && id in s.calls && CallFine(s.calls[id].(at := at)) && s.calls[id].at != Over
    requires s.calls[id].work.Close? && (at == Wants || at == Holds) ==> s.calls[id].at == Wants
    requires HasPipe(at) ==> s.plock == None || s.plock == Some(id)
    requires plock == if HasPipe(at) then Some(id) else if s.plock == Some(id) then None else s.plock
    requires HasTable(at) ==> s.tlock == Nobody || s.tlock == By(id)
    requires tlock == if HasTable(at) then By(id) else if s.tlock == By(id) then Nobody else s.tlock
    ensures Inv(Goes(s, id, at).(plock := plock, tlock := tlock))
  {
    hide Inv;
    OneCall(s, Goes(s, id, at).(plock := plock, tlock := tlock), id);
  }

  lemma MoveInv(s: State, a: Action)
    requires Inv(s) && Enabled(s, a)
    requires a.Take? || a.SleepTake? || a.SleepDrop? || a.SleepGo? || a.Resume? || a.Leave?
    ensures Inv(Do(s, a))
  {
    hide Inv, Stretch, Roused, Busy, Closing;
    Here(s, a.id);
    match a {
      case Take(id) => GoInv(s, id, Holds, Some(id), s.tlock);
      case SleepTake(id) => GoInv(s, id, Both, s.plock, By(id));
      case SleepDrop(id) => GoInv(s, id, TableOnly, None, s.tlock);
      case SleepGo(id) => GoInv(s, id, Asleep, s.plock, Nobody);
      case Resume(id) => GoInv(s, id, Back, s.plock, By(id));
      case Leave(id) => GoInv(s, id, Over, None, s.tlock);
    }
  }

  lemma KillInv(s: State, a: Action)
    requires Inv(s) && Enabled(s, a) && (a.Kill? || a.ResumeDrop?)
    ensures Inv(Do(s, a))
  {
    hide Inv, Stretch, Roused, Busy, Closing;
    Here(s, a.id);
    var t := Do(s, a);
    assert t.calls == s.calls[a.id := t.calls[a.id]];
    OneCall(s, t, a.id);
  }

  lemma StretchInv(s: State, id: nat)
    requires Inv(s) && Enabled(s, Run(id))
    ensures Inv(Do(s, Run(id)))
  {
    hide Inv, Busy;
    Here(s, id);
    var t := Stretch(s, id);
    var u := t.(readopen := s.readopen, writeopen := s.writeopen);
    OneCall(s, u, id);
    if s.calls[id].work.Close? {
      ClosedInv(s, u, id);
    }
  }

  /** The stretch of pipeclose: its end was open and unused. */
  lemma ClosedInv(s: State, u: State, id: nat)
    requires Inv(s) && Inv(u) && AtPoint(s, id, Holds) && s.calls[id].work.Close?
    requires u.calls == s.calls[id := Call(s.calls[id].work, Wakes)]
    ensures if s.calls[id].work.writable then Inv(u.(writeopen := false)) else Inv(u.(readopen := false))
  {
    var w := s.calls[id].work.writable;
    var t := if w then u.(writeopen := false) else u.(readopen := false);
    assert forall r :: Busy(t, r) == Busy(u, r);
    forall x | x in t.calls && t.calls[x].work.Close? && (t.calls[x].at == Wants || t.calls[x].at == Holds)
      ensures t.calls[x].work.writable != w
    {
      assert x in s.calls && id in s.calls;
    }
    assert Locks(t) && CallsFine(t);
  }

  lemma WakeInv(s: State, id: nat)
    requires Inv(s) && Enabled(s, Wake(id))
    ensures Inv(Do(s, Wake(id)))
  {
    hide Inv, Roused;
    Here(s, id);
    RousedInv(s, WakesReaders(s.calls[id].work));
    RousedFacts(s.calls, WakesReaders(s.calls[id].work));
    OneCall(s.(calls := Roused(s.calls, WakesReaders(s.calls[id].work))), Do(s, Wake(id)), id);
  }

  /** Closers keep their end while no call on it starts. */
  lemma ClosersKept(s: State, t: State)
    requires Closers(s) && t.readopen == s.readopen && t.writeopen == s.writeopen
    requires forall x :: x in t.calls && t.calls[x].work.Close? ==> x in s.calls && s.calls[x] == t.calls[x]
    requires forall x :: x in t.calls && t.calls[x].work.Io? ==>
      && x in s.calls && s.calls[x].work.Io? && s.calls[x].work.job.Read? == t.calls[x].work.job.Read?
      && (s.calls[x].at == Over ==> t.calls[x].at == Over)
    ensures Closers(t)
  {
    forall r | Busy(t, r)
      ensures Busy(s, r)
    {
      var x :| x in t.calls && t.calls[x].work.Io? && t.calls[x].work.job.Read? == r && t.calls[x].at != Over;
      assert x in s.calls;
    }
    hide Busy;
  }

  lemma RousedFacts(calls: map<nat, Call>, readers: bool)
    ensures Roused(calls, readers).Keys == calls.Keys
    ensures forall x :: x in calls ==> var c := Roused(calls, readers)[x];
      c == calls[x] || (calls[x].at == Asleep && calls[x].work.Io? && c == calls[x].(at := Woken))
  {
  }

  lemma RousedHere(s: State, readers: bool, x: nat)
    requires Inv(s) && x in s.calls
    ensures x in Roused(s.calls, readers)
    ensures var c := Roused(s.calls, readers)[x]; CallFine(c) && (HasPipe(c.at) <==> s.plock == Some(x))
    ensures var c := Roused(s.calls, readers)[x]; HasTable(c.at) <==> s.tlock == By(x)
  {
    hide Inv;
    Here(s, x);
  }

  lemma RousedInv(s: State, readers: bool)
    requires Inv(s)
    ensures Inv(s.(calls := Roused(s.calls, readers)))
  {
    hide Roused, Closers, CallFine, HasPipe, HasTable;
    RousedFacts(s.calls, readers);
    ClosersKept(s, s.(calls := Roused(s.calls, readers)));
    forall x | x in s.calls
      ensures var c := Roused(s.calls, readers)[x]; CallFine(c) && (HasPipe(c.at) <==> s.plock == Some(x))
      ensures var c := Roused(s.calls, readers)[x]; HasTable(c.at) <==> s.tlock == By(x)
    {
      RousedHere(s, readers, x);
    }
  }

  lemma StartInv(s: State, a: Action, c: Call)
    requires Inv(s) && Enabled(s, a) && (a.StartWrite? || a.StartRead? || a.StartClose?)
    requires Do(s, a) == s.(calls := s.calls[a.id := c]) && c.at == Wants && CallFine(c)
    requires if a.StartClose? then c.work == Close(a.writable) else c.work.Io? && c.work.job.Read? == a.StartRead?
    ensures Inv(Do(s, a))
  {
    hide Closers;
    StartClosers(s, a, c);
    var t := s.(calls := s.calls[a.id := c]);
    forall x | x in t.calls
      ensures HasPipe(t.calls[x].at) <==> t.plock == Some(x)
      ensures HasTable(t.calls[x].at) <==> t.tlock == By(x)
      ensures CallFine(t.calls[x])
    {
    }
  }

  lemma AddedBusy(s: State, id: nat, c: Call, readers: bool)
    requires Busy(s.(calls := s.calls[id := c]), readers)
    ensures Busy(s, readers) || (c.work.Io? && c.work.job.Read? == readers)
  {
    var calls := s.calls[id := c];
    var x :| x in calls && calls[x].work.Io? && calls[x].work.job.Read? == readers && calls[x].at != Over;
    assert x != id ==> x in s.calls;
  }

  lemma AlreadyCloses(s: State, id: nat)
    requires id in s.calls && s.calls[id].work.Close?
    ensures Closing(s, s.calls[id].work.writable)
  {
    assert s.calls[id].work == Close(s.calls[id].work.writable);
  }

  lemma StartClosers(s: State, a: Action, c: Call)
    requires Closers(s) && Enabled(s, a) && (a.StartWrite? || a.StartRead? || a.StartClose?) && c.at == Wants
    requires if a.StartClose? then c.work == Close(a.writable) else c.work.Io? && c.work.job.Read? == a.StartRead?
    ensures Closers(s.(calls := s.calls[a.id := c]))
  {
    hide Busy, Closing;
    var t := s.(calls := s.calls[a.id := c]);
    forall r | Busy(t, r)
      ensures Busy(s, r) || (c.work.Io? && c.work.job.Read? == r)
    {
      AddedBusy(s, a.id, c, r);
    }
    forall x | x in s.calls && s.calls[x].work.Close?
      ensures Closing(s, s.calls[x].work.writable)
    {
      AlreadyCloses(s, x);
    }
  }

  lemma StepInv(s: State, a: Action)
    requires Inv(s) && Enabled(s, a)
    ensures Inv(Do(s, a))
  {
    match a {
      case Run(id) => StretchInv(s, id);
      case Wake(id) => WakeInv(s, id);
      case StartWrite(_, addr) => StartInv(s, a, Call(Io(Coarse.Write(addr, 0, Coarse.Ready)), Wants));
      case StartRead(_, n) => StartInv(s, a, Call(Io(Coarse.Read(n, |s.got|, [], Coarse.Ready)), Wants));
      case StartClose(_, w) => StartInv(s, a, Call(Close(w), Wants));
      case Kill(_) => KillInv(s, a);
      case ResumeDrop(_) => KillInv(s, a);
      case Table(_) => assert forall r :: Busy(Do(s, a), r) == Busy(s, r);
      case _ => MoveInv(s, a);
    }
  }

  // ------------------------------------------------------------ the runs refine PipeRun

  /** The stretch of PipeRun that a step completes, if it completes one. */
  function Matches(s: State, a: Action): Option<Coarse.Action> {
    match a
    case StartWrite(id, addr) => Some(Coarse.StartWrite(id, addr))
    case StartRead(id, n) => Some(Coarse.StartRead(id, n))
    case Run(id) =>
      if id !in s.calls then None
      else if s.calls[id].work.Io? then Some(Coarse.Go(id))
      else Some(if s.calls[id].work.writable then Coarse.CloseWrite else Coarse.CloseRead)
    case Kill(id) => Some(Coarse.Kill(id))
    case _ => None
  }

  lemma SameAbs(s: State, t: State)
    requires t.(calls := s.calls, plock := s.plock, tlock := s.tlock) == s && t.calls.Keys == s.calls.Keys
    requires forall id :: id in s.calls ==> t.calls[id].work.Io? == s.calls[id].work.Io?
    requires forall id :: id in s.calls && s.calls[id].work.Io? ==> AbsJob(t, id) == AbsJob(s, id)
    ensures Abs(t) == Abs(s)
  {
    hide AbsJob;
    assert Abs(t).jobs == Abs(s).jobs;
  }

  /** Steps that move one call on, and none to or from where it wakes the others. */
  lemma QuietMove(s: State, t: State, id: nat)
    requires t.(calls := s.calls, plock := s.plock, tlock := s.tlock) == s && id in s.calls && id in t.calls
    requires t.calls == s.calls[id := t.calls[id]]
    requires forall r :: Pending(t, r) == Pending(s, r)
    requires t.calls[id].work.Io? == s.calls[id].work.Io?
    requires s.calls[id].work.Io? ==> AbsJob(t, id) == AbsJob(s, id)
    ensures Abs(t) == Abs(s)
  {
    hide Pending;
    SameAbs(s, t);
  }

  lemma MoveAbs(s: State, a: Action)
    requires Inv(s) && Enabled(s, a)
    requires a.Take? || a.SleepDrop? || a.Leave?
    ensures Abs(Do(s, a)) == Abs(s)
  {
    hide Inv, Stretch, Roused, Busy, Closing, CallFine, Abs;
    Here(s, a.id);
    QuietMove(s, Do(s, a), a.id);
  }

  lemma SamePending(s: State, t: State, id: nat)
    requires t.plock == s.plock && id in s.calls && id in t.calls && t.calls == s.calls[id := t.calls[id]]
    requires t.calls[id] == s.calls[id] || (s.calls[id].at != Wakes && t.calls[id].at != Wakes)
    ensures forall r :: Pending(t, r) == Pending(s, r)
  {
  }

  /** Steps that leave p->lock alone. */
  lemma AsideAbs(s: State, a: Action)
    requires Inv(s) && Enabled(s, a)
    requires a.SleepTake? || a.SleepGo? || a.Resume? || a.ResumeDrop?
    ensures Abs(Do(s, a)) == Abs(s)
  {
    hide Inv, Stretch, Roused, Busy, Closing, Abs, Pending;
    Here(s, a.id);
    SamePending(s, Do(s, a), a.id);
    QuietMove(s, Do(s, a), a.id);
  }

  /** Where every sleeper of a side is while ptable.lock is free and p->lock is another's. */
  lemma SleeperAt(s: State, id: nat, x: nat)
    requires Inv(s) && s.tlock == Nobody && AtPoint(s, id, Wakes) && x in s.calls && x != id
    requires s.calls[x].work.Io? && s.calls[x].work.job.st == Coarse.Asleep
    ensures s.calls[x].at == Asleep || s.calls[x].at == Woken
  {
    assert CallFine(s.calls[x]);
  }

  lemma WakeJob(s: State, id: nat, x: nat)
    requires Inv(s) && Enabled(s, Wake(id)) && x in s.calls && s.calls[x].work.Io?
    ensures AbsJob(Do(s, Wake(id)), x) == AbsJob(s, x)
  {
    hide Inv, Busy, Closing;
    Here(s, id);
    Here(s, x);
    if x != id && s.calls[x].work.job.st == Coarse.Asleep { SleeperAt(s, id, x); }
  }

  lemma WakeAbs(s: State, id: nat)
    requires Inv(s) && Enabled(s, Wake(id))
    ensures Abs(Do(s, Wake(id))) == Abs(s)
  {
    hide Inv, AbsJob, Abs, Roused;
    RousedFacts(s.calls, WakesReaders(s.calls[id].work));
    forall x | x in s.calls && s.calls[x].work.Io?
      ensures AbsJob(Do(s, Wake(id)), x) == AbsJob(s, x)
    {
      WakeJob(s, id, x);
    }
    SameAbs(s, Do(s, Wake(id)));
  }

  /** A stretch that ends before its wakeup: the others are as PipeRun's step leaves them. */
  lemma PendingAbs(s: State, t: State, id: nat, readers: bool, x: nat)
    requires id in s.calls && id in t.calls && t.calls == s.calls[id := t.calls[id]] && t.killed == s.killed
    requires !Pending(s, readers) && !Pending(s, !readers) && Pending(t, readers) && !Pending(t, !readers)
    requires x in s.calls && s.calls[x].work.Io? && x != id
    ensures x in Abs(s).jobs && AbsJob(t, x) == Coarse.Woken(Abs(s).jobs, readers)[x]
  {
    hide Pending;
    assert Abs(s).jobs[x] == AbsJob(s, x);
  }

  lemma WokenKeys(jobs: map<nat, Coarse.Job>, readers: bool)
    ensures Coarse.Woken(jobs, readers).Keys == jobs.Keys
  {
  }

  lemma AbsJobs(s: State, jobs: map<nat, Coarse.Job>)
    requires forall x :: x in jobs <==> x in s.calls && s.calls[x].work.Io?
    requires forall x :: x in jobs ==> jobs[x] == AbsJob(s, x)
    ensures jobs == Abs(s).jobs
  {
    hide AbsJob;
  }

  /** The caller's own job after its stretch. */
  lemma OwnJob(s: State, id: nat)
    requires Inv(s) && Enabled(s, Run(id)) && s.calls[id].work.Io?
    ensures id in Abs(s).jobs && Abs(s).jobs[id] == s.calls[id].work.job && s.calls[id].work.job.st == Coarse.Ready
    ensures AbsJob(Stretch(s, id), id) == Stretch(s, id).calls[id].work.job
  {
    hide Inv, Busy, Closing, Coarse.Tag;
    Here(s, id);
  }

  /** The other jobs after a stretch. */
  lemma OtherJob(s: State, id: nat, t: State, x: nat)
    requires Inv(s) && Enabled(s, Run(id)) && t == Stretch(s, id) && x in s.calls && s.calls[x].work.Io? && x != id
    ensures x in Abs(s).jobs && x in t.calls && t.calls[x] == s.calls[x] && id in t.calls
    ensures AbsJob(t, x) ==
      if t.calls[id].at == Wakes then Coarse.Woken(Abs(s).jobs, WakesReaders(s.calls[id].work))[x] else Abs(s).jobs[x]
  {
    hide Inv, Busy, Closing, Coarse.Tag, Coarse.Woken;
    Here(s, id);
    assert Abs(s).jobs[x] == AbsJob(s, x);
    if t.calls[id].at == Wakes { PendingAbs(s, t, id, WakesReaders(s.calls[id].work), x); }
  }

  lemma WriteJobs(s: State, id: nat)
    requires Inv(s) && Enabled(s, Run(id)) && s.calls[id].work.Io? && s.calls[id].work.job.Write?
    requires id in Abs(s).jobs && Abs(s).jobs[id] == s.calls[id].work.job
    ensures Coarse.DoWrite(Abs(s), id).jobs == Abs(Stretch(s, id)).jobs
  {
    hide Inv, Busy, Closing, Pending, AbsJob, Coarse.Tag, Coarse.Woken;
    OwnJob(s, id);
    var t := Stretch(s, id);
    var u := Coarse.DoWrite(Abs(s), id);
    WokenKeys(Abs(s).jobs, true);
    forall x | x in t.calls && t.calls[x].work.Io?
      ensures x in u.jobs && u.jobs[x] == AbsJob(t, x)
    {
      if x != id { OtherJob(s, id, t, x); }
    }
    AbsJobs(t, u.jobs);
  }

  lemma WriteAbs(s: State, id: nat)
    requires Inv(s) && Enabled(s, Run(id)) && s.calls[id].work.Io? && s.calls[id].work.job.Write?
    ensures Coarse.Enabled(Abs(s), Coarse.Go(id)) && Coarse.Do(Abs(s), Coarse.Go(id)) == Abs(Do(s, Run(id)))
  {
    hide Inv, Busy, Closing, Pending, AbsJob, Coarse.Tag, Coarse.Woken, Coarse.Busy;
    OwnJob(s, id);
    WriteJobs(s, id);
  }

  lemma ReadAbs(s: State, id: nat)
    requires Inv(s) && Enabled(s, Run(id)) && s.calls[id].work.Io? && s.calls[id].work.job.Read?
    ensures Coarse.Enabled(Abs(s), Coarse.Go(id)) && Coarse.Do(Abs(s), Coarse.Go(id)) == Abs(Do(s, Run(id)))
  {
    hide Inv, Busy, Closing, Pending, AbsJob, Coarse.Woken, Coarse.Busy;
    OwnJob(s, id);
    var t := Stretch(s, id);
    var u := Coarse.DoRead(Abs(s), id);
    WokenKeys(Abs(s).jobs, false);
    forall x | x in t.calls && t.calls[x].work.Io?
      ensures x in u.jobs && u.jobs[x] == AbsJob(t, x)
    {
      if x != id { OtherJob(s, id, t, x); }
    }
    AbsJobs(t, u.jobs);
  }

  lemma BusyAbs(s: State, readers: bool)
    requires Inv(s) && Coarse.Busy(Abs(s), readers)
    ensures Busy(s, readers)
  {
    hide Locks, Closers;
    var x :| x in Abs(s).jobs && Abs(s).jobs[x].Read? == readers && !Abs(s).jobs[x].st.Over?;
    assert x in s.calls && CallFine(s.calls[x]);
  }

  lemma CloseAbs(s: State, id: nat)
    requires Inv(s) && Enabled(s, Run(id)) && s.calls[id].work.Close?
    ensures var b := if s.calls[id].work.writable then Coarse.CloseWrite else Coarse.CloseRead;
      Coarse.Enabled(Abs(s), b) && Coarse.Do(Abs(s), b) == Abs(Do(s, Run(id)))
  {
    hide Inv, Busy, Closing, Pending, AbsJob, Coarse.Woken, Coarse.Busy;
    var w := s.calls[id].work.writable;
    var t := Stretch(s, id);
    CloserFree(s, id);
    if Coarse.Busy(Abs(s), !w) { BusyAbs(s, !w); }
    var u := Coarse.Woken(Abs(s).jobs, w);
    WokenKeys(Abs(s).jobs, w);
    forall x | x in t.calls && t.calls[x].work.Io?
      ensures x in u && u[x] == AbsJob(t, x)
    {
      OtherJob(s, id, t, x);
    }
    AbsJobs(t, u);
  }

  lemma CloserFree(s: State, id: nat)
    requires Inv(s) && AtPoint(s, id, Holds) && s.calls[id].work.Close?
    ensures (if s.calls[id].work.writable then s.writeopen else s.readopen) && !Busy(s, !s.calls[id].work.writable)
  {
  }

  lemma KilledJob(s: State, id: nat, x: nat)
    requires Inv(s) && Enabled(s, Kill(id)) && x in s.calls && s.calls[x].work.Io?
    ensures x in Abs(s).jobs && x in Do(s, Kill(id)).calls && Do(s, Kill(id)).calls[x].work == s.calls[x].work
    ensures AbsJob(Do(s, Kill(id)), x) ==
      if x == id && Abs(s).jobs[x].st.Asleep? then Abs(s).jobs[x].(st := Coarse.Ready) else Abs(s).jobs[x]
  {
    hide Inv, Busy, Closing, Pending;
    SamePending(s, Do(s, Kill(id)), id);
    assert Abs(s).jobs[x] == AbsJob(s, x);
  }

  lemma KillAbs(s: State, id: nat)
    requires Inv(s) && Enabled(s, Kill(id))
    ensures Coarse.Enabled(Abs(s), Coarse.Kill(id)) && Coarse.Do(Abs(s), Coarse.Kill(id)) == Abs(Do(s, Kill(id)))
  {
    hide Inv, Busy, Closing, Coarse.Woken, Coarse.Busy, AbsJob, Pending;
    var t := Do(s, Kill(id));
    var u := Coarse.Do(Abs(s), Coarse.Kill(id));
    forall x | x in t.calls && t.calls[x].work.Io?
      ensures x in u.jobs && u.jobs[x] == AbsJob(t, x)
    {
      KilledJob(s, id, x);
    }
    AbsJobs(t, u.jobs);
  }

  lemma StartAbs(s: State, a: Action)
    requires Inv(s) && Enabled(s, a) && (a.StartWrite? || a.StartRead? || a.StartClose?)
    ensures var b := Matches(s, a);
      if b.None? then Abs(Do(s, a)) == Abs(s)
      else Coarse.Enabled(Abs(s), b.value) && Coarse.Do(Abs(s), b.value) == Abs(Do(s, a))
  {
    hide Inv, Busy, Closing, Coarse.Woken, Coarse.Busy;
    var t := Do(s, a);
    var jobs := if a.StartClose? then Abs(s).jobs else Abs(s).jobs[a.id := t.calls[a.id].work.job];
    forall x | x in t.calls && t.calls[x].work.Io?
      ensures x in jobs && jobs[x] == AbsJob(t, x)
    {
      if x != a.id { StartedJob(s, a, x); }
    }
    AbsJobs(t, jobs);
  }

  lemma StartedJob(s: State, a: Action, x: nat)
    requires Inv(s) && Enabled(s, a) && (a.StartWrite? || a.StartRead? || a.StartClose?)
    requires x in s.calls && s.calls[x].work.Io?
    ensures x in Do(s, a).calls && AbsJob(Do(s, a), x) == AbsJob(s, x) && Abs(s).jobs[x] == AbsJob(s, x)
  {
    hide Busy, Closing, CallsFine, Closers, CallFine;
    assert s.plock.Some? ==> s.plock.value in s.calls;
  }

  /** Every step is a step of PipeRun, or one that PipeRun does not see. */
  lemma StepRefines(s: State, a: Action)
    requires Inv(s) && Enabled(s, a)
    ensures var b := Matches(s, a);
      if b.None? then Abs(Do(s, a)) == Abs(s)
      else Coarse.Enabled(Abs(s), b.value) && Coarse.Do(Abs(s), b.value) == Abs(Do(s, a))
  {
    hide Inv, Busy, Closing, Coarse.Woken, Coarse.Busy, Coarse.DoWrite, Coarse.DoRead, Stretch, Roused, Pending, AbsJob;
    match a {
      case Run(id) =>
        if s.calls[id].work.Close? { CloseAbs(s, id); }
        else if s.calls[id].work.job.Write? { WriteAbs(s, id); }
        else { ReadAbs(s, id); }
      case Wake(id) => WakeAbs(s, id);
      case Kill(id) => KillAbs(s, id);
      case StartWrite(_, _) => StartAbs(s, a);
      case StartRead(_, _) => StartAbs(s, a);
      case StartClose(_, _) => StartAbs(s, a);
      case Table(_) => TableAbs(s, a);
      case Take(_) => MoveAbs(s, a);
      case SleepDrop(_) => MoveAbs(s, a);
      case Leave(_) => MoveAbs(s, a);
      case _ => AsideAbs(s, a);
    }
  }

  lemma TableAbs(s: State, a: Action)
    requires Enabled(s, a) && a.Table?
    ensures Abs(Do(s, a)) == Abs(s)
  {
    SameAbs(s, Do(s, a));
  }

  // ------------------------------------------------------------ whole runs

  function Fresh(): State { State([], true, true, map[], {}, [], [], None, Nobody) }

  ghost predicate Runs(s: State, acts: seq<Action>, t: State)
    decreases |acts|
  {
    if acts == [] then s == t else Enabled(s, acts[0]) && Runs(Do(s, acts[0]), acts[1..], t)
  }

  ghost predicate KillFree(acts: seq<Action>) {
    forall i :: 0 <= i < |acts| ==> !acts[i].Kill?
  }

  lemma FreshInv()
    ensures Inv(Fresh()) && Abs(Fresh()) == Coarse.Fresh()
  {
    assert Abs(Fresh()).jobs == map[];
  }

  /** Every run under the two locks is a run of PipeRun's stretches. */
  lemma {:induction false} Refines(s: State, acts: seq<Action>, t: State) returns (whole: seq<Coarse.Action>)
    requires Inv(s) && Runs(s, acts, t)
    ensures Inv(t) && Coarse.Runs(Abs(s), whole, Abs(t))
    decreases |acts|
  {
    hide Inv, Enabled, Do, Abs, Coarse.Enabled, Coarse.Do;
    if acts == [] {
      whole := [];
    } else {
      StepInv(s, acts[0]);
      StepRefines(s, acts[0]);
      var rest := Refines(Do(s, acts[0]), acts[1..], t);
      var b := Matches(s, acts[0]);
      whole := if b.None? then rest else [b.value] + rest;
      assert b.Some? ==> whole[1..] == rest;
    }
  }

  /** What the bytes of all calls satisfy: FirstInFirstOut below spells it out. */
  lemma RunFine(acts: seq<Action>, t: State)
    requires Runs(Fresh(), acts, t)
    ensures Inv(t) && Coarse.Fifo(Abs(t)) && Coarse.Ends(Abs(t))
  {
    hide Inv, Coarse.Fifo, Coarse.Ends;
    FreshInv();
    var whole := Refines(Fresh(), acts, t);
    Coarse.FreshFine();
    Coarse.RunKeeps(Coarse.Fresh(), whole, Abs(t));
  }

  lemma JobIs(t: State, id: nat)
    requires id in t.calls && t.calls[id].work.Io?
    ensures id in Abs(t).jobs && var j := t.calls[id].work.job; var k := Abs(t).jobs[id];
      k == j.(st := k.st) && (k.st == j.st || (j.st == Coarse.Asleep && k.st == Coarse.Ready))
  {
    assert Abs(t).jobs[id] == AbsJob(t, id);
  }

  /** PipeRun.FirstInFirstOut, for every run under the two locks. */
  lemma FirstInFirstOut(acts: seq<Action>, t: State, id: nat)
    requires Runs(Fresh(), acts, t)
    ensures Coarse.Bytes(t.sent) == t.got + t.queue && |t.queue| <= PIPESIZE
    ensures id in t.calls && t.calls[id].work.Io? ==> var j := t.calls[id].work.job;
      if j.Write? then
        && j.i <= |j.addr| && Coarse.Of(t.sent, id) == j.addr[..j.i]
        && (j.st == Coarse.Over(true) ==> j.i == |j.addr|)
      else |j.out| <= j.n && j.from + |j.out| <= |t.got| && j.out == t.got[j.from..j.from + |j.out|]
  {
    hide Inv, Coarse.Of, Coarse.Bytes, Coarse.Ends, AbsJob;
    RunFine(acts, t);
    if id in t.calls && t.calls[id].work.Io? {
      JobIs(t, id);
      assert Coarse.JobFine(Abs(t), id, Abs(t).jobs[id]);
    }
  }

  /** PipeRun.EndOfFile, for every run under the two locks. */
  lemma EndOfFile(acts: seq<Action>, s: State, id: nat, more: seq<Action>, t: State)
    requires Runs(Fresh(), acts, s) && Enabled(s, Run(id)) && s.calls[id].work.Io? && s.calls[id].work.job.Read?
    requires s.calls[id].work.job.n > 0
    requires var j := Do(s, Run(id)).calls[id].work.job; j.st == Coarse.Over(true) && j.out == []
    requires Runs(Do(s, Run(id)), more, t)
    ensures !s.writeopen && Coarse.Bytes(s.sent) == s.got && t.sent == s.sent && t.got == s.got
  {
    hide Inv, Runs, Abs, AbsJob, Coarse.Of, Coarse.Fifo, Coarse.Ends, Coarse.Runs, Coarse.Do, Coarse.Enabled;
    RunFine(acts, s);
    FreshInv();
    var before := Refines(Fresh(), acts, s);
    StepInv(s, Run(id));
    StepRefines(s, Run(id));
    var after := Refines(Do(s, Run(id)), more, t);
    OwnJob(s, id);
    JobIs(Do(s, Run(id)), id);
    Coarse.EndOfFile(before, Abs(s), id, after, Abs(t));
    AbsBytes(s);
    AbsBytes(t);
  }

  lemma AbsBytes(s: State)
    ensures Abs(s).sent == s.sent && Abs(s).got == s.got && Abs(s).writeopen == s.writeopen
  {
  }

  // ------------------------------------------------------------ no lost wakeup

  /** A call set on sleeping, not killed, and no wakeup for it under way. */
  ghost predicate Waits(s: State, id: nat) {
    && id in s.calls && s.calls[id].work.Io? && s.calls[id].work.job.st == Coarse.Asleep
    && s.calls[id].at != Woken && s.calls[id].at != Back && id !in s.killed && !Pending(s, s.calls[id].work.job.Read?)
  }

  /** Its call would have something to do: bytes or end of file for a reader, room or a
      closed read end for a writer. */
  predicate CouldRun(s: State, id: nat)
    requires id in s.calls && s.calls[id].work.Io?
  {
    if s.calls[id].work.job.Read? then s.queue != [] || !s.writeopen else |s.queue| != PIPESIZE || !s.readopen
  }

  ghost predicate NoneLost(s: State) {
    forall id :: Waits(s, id) ==> !CouldRun(s, id)
  }

  /** A killed writer with more left than the ring holds fills it and returns -1 without a
      wakeup, while a reader waits. */
  ghost predicate Misses(s: State, a: Action) {
    && a.Run? && a.id in s.calls && s.calls[a.id].work.Io? && s.calls[a.id].work.job.Write? && a.id in s.killed
    && |s.calls[a.id].work.job.addr| - s.calls[a.id].work.job.i > PIPESIZE
    && exists r :: Waits(s, r) && s.calls[r].work.job.Read?
  }

  lemma WaitsAbs(s: State, id: nat)
    ensures Waits(s, id) <==> id in Abs(s).jobs && Abs(s).jobs[id].st.Asleep?
    ensures id in Abs(s).jobs <==> id in s.calls && s.calls[id].work.Io?
    ensures id in Abs(s).jobs ==> Abs(s).jobs[id].Read? == s.calls[id].work.job.Read?
  {
    hide Pending;
    assert id in Abs(s).jobs ==> Abs(s).jobs[id] == AbsJob(s, id);
  }

  lemma NoneLostAbs(s: State)
    ensures NoneLost(s) <==> Coarse.NoneMissed(Abs(s))
  {
    hide Waits;
    forall id: nat { WaitsAbs(s, id); }
  }

  lemma MissesAbs(s: State, a: Action)
    requires Inv(s) && Enabled(s, a)
    ensures Misses(s, a) <==> Matches(s, a).Some? && Coarse.Misses(Abs(s), Matches(s, a).value)
  {
    hide Inv, Waits, Busy, Closing;
    forall id: nat { WaitsAbs(s, id); }
    if a.Run? && s.calls[a.id].work.Io? { OwnJob(s, a.id); }
  }

  /** A step loses a wakeup exactly when it Misses. */
  lemma MissedExactly(s: State, a: Action)
    requires Inv(s) && Coarse.Fifo(Abs(s)) && Coarse.Ends(Abs(s)) && NoneLost(s) && Enabled(s, a)
    ensures NoneLost(Do(s, a)) <==> !Misses(s, a)
  {
    hide Inv, Enabled, Do, Misses, NoneLost, Abs, Coarse.Fifo, Coarse.Ends, Coarse.Enabled, Coarse.Do,
      Coarse.NoneMissed, Coarse.Misses;
    NoneLostAbs(s);
    NoneLostAbs(Do(s, a));
    StepRefines(s, a);
    MissesAbs(s, a);
    if Matches(s, a).Some? { Coarse.MissedExactly(Abs(s), Matches(s, a).value); }
  }

  /** No step of the run Misses. */
  ghost predicate NeverMisses(s: State, acts: seq<Action>)
    decreases |acts|
  {
    acts == [] || (Enabled(s, acts[0]) && !Misses(s, acts[0]) && NeverMisses(Do(s, acts[0]), acts[1..]))
  }

  lemma {:induction false} RunAwake(s: State, acts: seq<Action>, t: State)
    requires Inv(s) && Coarse.Fifo(Abs(s)) && Coarse.Ends(Abs(s)) && NoneLost(s) && Runs(s, acts, t)
    requires NeverMisses(s, acts)
    ensures Inv(t) && NoneLost(t)
    decreases |acts|
  {
    hide Inv, Enabled, Do, Misses, NoneLost, Abs, Coarse.Fifo, Coarse.Ends, Coarse.Enabled, Coarse.Do, Matches;
    if acts != [] {
      StepInv(s, acts[0]);
      StepRefines(s, acts[0]);
      if Matches(s, acts[0]).Some? {
        Coarse.StepFifo(Abs(s), Matches(s, acts[0]).value);
        Coarse.StepEnds(Abs(s), Matches(s, acts[0]).value);
      }
      MissedExactly(s, acts[0]);
      RunAwake(Do(s, acts[0]), acts[1..], t);
    }
  }

  lemma {:induction false} KillFreeNeverMisses(s: State, acts: seq<Action>, t: State)
    requires Runs(s, acts, t) && KillFree(acts) && s.killed == {}
    ensures NeverMisses(s, acts) && t.killed == {}
    decreases |acts|
  {
    hide Roused, Pending, Busy, Closing;
    if acts != [] {
      assert Do(s, acts[0]).killed == {};
      KillFreeNeverMisses(Do(s, acts[0]), acts[1..], t);
    }
  }

  /** Whatever is killed and when: if no step Misses, whoever sleeps, is not killed and has
      no wakeup coming has nothing to do. */
  lemma NoneLostUnless(acts: seq<Action>, t: State)
    requires Runs(Fresh(), acts, t) && NeverMisses(Fresh(), acts)
    ensures NoneLost(t)
  {
    hide Inv, Enabled, Do, Misses, NoneLost, Abs;
    FreshInv();
    Coarse.FreshFine();
    NoneLostAbs(Fresh());
    RunAwake(Fresh(), acts, t);
  }

  /** Without kill, while nobody is about to call wakeup (so whenever p->lock is free) no
      reader sleeps on a pipe that holds bytes or whose write end is closed, and no writer
      on one that has room or whose read end is closed. Nor are a reader and a writer ever
      both stuck: some call is awake, at p->lock or ready to run when both locks are free. */
  lemma NoLostWakeup(acts: seq<Action>, t: State)
    requires Runs(Fresh(), acts, t) && KillFree(acts)
    ensures forall id :: AtPoint(t, id, Asleep) && t.calls[id].work.Io? && !Pending(t, t.calls[id].work.job.Read?) ==>
      !CouldRun(t, id)
    ensures t.plock == None ==> forall id :: AtPoint(t, id, Asleep) && t.calls[id].work.Io? ==> !CouldRun(t, id)
    ensures Busy(t, true) && Busy(t, false) ==>
      exists id :: id in t.calls && t.calls[id].at != Asleep && t.calls[id].at != Over
    ensures Busy(t, true) && Busy(t, false) && t.plock == None && t.tlock == Nobody ==>
      exists id :: AtPoint(t, id, Wants) || AtPoint(t, id, Woken)
  {
    KillFreeNeverMisses(Fresh(), acts, t);
    NoneLostUnless(acts, t);
    RunFine(acts, t);
    SleepersIdle(t);
    if Busy(t, true) && Busy(t, false) { SomeoneAwake(t); }
  }

  lemma SleepersIdle(t: State)
    requires Inv(t) && NoneLost(t) && t.killed == {}
    ensures forall id :: AtPoint(t, id, Asleep) && t.calls[id].work.Io? && !Pending(t, t.calls[id].work.job.Read?) ==>
      !CouldRun(t, id)
  {
    hide Pending, CouldRun;
    forall id | AtPoint(t, id, Asleep) && t.calls[id].work.Io? && !Pending(t, t.calls[id].work.job.Read?)
      ensures !CouldRun(t, id)
    {
      assert CallFine(t.calls[id]);
      assert Waits(t, id);
    }
  }

  lemma SomeoneAwake(t: State)
    requires Inv(t) && Busy(t, true) && Busy(t, false)
    requires forall id :: AtPoint(t, id, Asleep) && t.calls[id].work.Io? && !Pending(t, t.calls[id].work.job.Read?) ==>
      !CouldRun(t, id)
    ensures exists id :: id in t.calls && t.calls[id].at != Asleep && t.calls[id].at != Over
    ensures t.plock == None && t.tlock == Nobody ==> exists id :: AtPoint(t, id, Wants) || AtPoint(t, id, Woken)
  {
    hide Inv, Busy;
    if t.plock.Some? {
      HolderHere(t);
    } else {
      var r := BusyCall(t, true);
      var w := BusyCall(t, false);
      var x := if t.calls[r].at == Asleep then w else r;
      Here(t, x);
      assert AtPoint(t, r, Asleep) ==> !CouldRun(t, r);
      assert AtPoint(t, w, Asleep) ==> !CouldRun(t, w);
      assert t.calls[x].at != Asleep;
      assert t.tlock == Nobody ==> AtPoint(t, x, Wants) || AtPoint(t, x, Woken);
    }
  }

  lemma HolderHere(t: State)
    requires Inv(t) && t.plock.Some?
    ensures t.plock.value in t.calls && HasPipe(t.calls[t.plock.value].at)
  {
  }

  lemma BusyCall(t: State, readers: bool) returns (id: nat)
    requires Busy(t, readers)
    ensures id in t.calls && t.calls[id].work.Io? && t.calls[id].work.job.Read? == readers && t.calls[id].at != Over
  {
    id :| id in t.calls && t.calls[id].work.Io? && t.calls[id].work.job.Read? == readers && t.calls[id].at != Over;
  }

  // ------------------------------------------------------------ killed and left asleep

  /** Killed, and yet asleep or on its way there. */
  ghost predicate Caught(s: State, id: nat) {
    && id in s.calls && id in s.killed && s.calls[id].work.Io? && s.calls[id].work.job.st == Coarse.Asleep
    && s.calls[id].at != Woken && s.calls[id].at != Back
  }

  /** After its test of `killed` and before sleep() has ptable.lock. */
  predicate InWindow(s: State, id: nat) {
    && id in s.calls && s.calls[id].work.Io? && s.calls[id].work.job.st == Coarse.Asleep
    && (s.calls[id].at == Wakes || s.calls[id].at == ToSleep)
  }

  lemma StretchCatchesNone(s: State, x: nat, id: nat)
    requires Inv(s) && Enabled(s, Run(x)) && !Caught(s, id)
    ensures !Caught(Do(s, Run(x)), id)
  {
    hide Inv, Busy, Closing, Coarse.Tag;
    Here(s, x);
  }

  lemma WakeCatchesNone(s: State, x: nat, id: nat)
    requires Enabled(s, Wake(x)) && !Caught(s, id)
    ensures !Caught(Do(s, Wake(x)), id)
  {
    hide Roused;
    RousedFacts(s.calls, WakesReaders(s.calls[x].work));
  }

  lemma KillCatches(s: State, x: nat, id: nat)
    requires Inv(s) && Enabled(s, Kill(x)) && !Caught(s, id)
    ensures Caught(Do(s, Kill(x)), id) <==> x == id && InWindow(s, id)
  {
    hide Inv;
    Here(s, x);
    if id in s.calls && id != x {
      assert Do(s, Kill(x)).calls[id] == s.calls[id];
    }
  }

  lemma StartCatchesNone(s: State, a: Action, id: nat)
    requires Enabled(s, a) && !Caught(s, id) && (a.StartWrite? || a.StartRead? || a.StartClose?)
    ensures !Caught(Do(s, a), id)
  {
    hide Busy, Closing;
  }

  lemma SleepCatchesNone(s: State, a: Action, id: nat)
    requires Inv(s) && Enabled(s, a) && !Caught(s, id)
    requires a.SleepTake? || a.SleepDrop? || a.SleepGo? || a.Resume? || a.ResumeDrop?
    ensures !Caught(Do(s, a), id)
  {
    hide Inv;
    Here(s, a.id);
  }

  lemma EndCatchesNone(s: State, a: Action, id: nat)
    requires Inv(s) && Enabled(s, a) && !Caught(s, id) && (a.Take? || a.Leave? || a.Table?)
    ensures !Caught(Do(s, a), id)
  {
    hide Inv;
    if !a.Table? {
      Here(s, a.id);
    }
  }

  lemma MoveCatchesNone(s: State, a: Action, id: nat)
    requires Inv(s) && Enabled(s, a) && !Caught(s, id) && !a.Run? && !a.Wake? && !a.Kill?
    ensures !Caught(Do(s, a), id)
  {
    hide Inv, Stretch, Roused, Busy, Closing, Caught, CallFine;
    match a
    case StartWrite(_, _) => StartCatchesNone(s, a, id);
    case StartRead(_, _) => StartCatchesNone(s, a, id);
    case StartClose(_, _) => StartCatchesNone(s, a, id);
    case Take(_) => EndCatchesNone(s, a, id);
    case Leave(_) => EndCatchesNone(s, a, id);
    case Table(_) => EndCatchesNone(s, a, id);
    case _ => SleepCatchesNone(s, a, id);
  }

  /** A process comes to be caught exactly by a kill in that window. */
  lemma CaughtExactly(s: State, a: Action, id: nat)
    requires Inv(s) && Enabled(s, a) && !Caught(s, id)
    ensures Caught(Do(s, a), id) <==> a == Kill(id) && InWindow(s, id)
  {
    hide Inv, Stretch, Roused, Busy, Closing;
    if a.Run? {
      StretchCatchesNone(s, a.id, id);
    } else if a.Wake? {
      WakeCatchesNone(s, a.id, id);
    } else if a.Kill? {
      KillCatches(s, a.id, id);
    } else {
      MoveCatchesNone(s, a, id);
    }
  }

  /** And is freed exactly, once asleep, by the wakeup of its side or by another kill. */
  lemma FreedExactly(s: State, a: Action, id: nat)
    requires Inv(s) && Enabled(s, a) && Caught(s, id)
    ensures !Caught(Do(s, a), id) <==>
      && s.calls[id].at == Asleep
      && (a == Kill(id) || (a.Wake? && WakesReaders(s.calls[a.id].work) == s.calls[id].work.job.Read?))
  {
    hide Inv, Busy, Closing;
    Here(s, id);
  }

  /** No kill of the run comes in its process's window. */
  ghost predicate NoWindowKill(s: State, acts: seq<Action>)
    decreases |acts|
  {
    || acts == []
    || (Enabled(s, acts[0]) && !(acts[0].Kill? && InWindow(s, acts[0].id)) && NoWindowKill(Do(s, acts[0]), acts[1..]))
  }

  lemma {:induction false} RunCatchesNone(s: State, acts: seq<Action>, t: State)
    requires Inv(s) && (forall id :: !Caught(s, id)) && Runs(s, acts, t) && NoWindowKill(s, acts)
    ensures forall id :: !Caught(t, id)
    decreases |acts|
  {
    hide Inv, Enabled, Do, Caught, InWindow;
    if acts != [] {
      forall id: nat
        ensures !Caught(Do(s, acts[0]), id)
      {
        CaughtExactly(s, acts[0], id);
      }
      StepInv(s, acts[0]);
      RunCatchesNone(Do(s, acts[0]), acts[1..], t);
    }
  }

  /** If no kill comes in such a window, no killed process is ever asleep. */
  lemma KilledWakes(acts: seq<Action>, t: State, id: nat)
    requires Runs(Fresh(), acts, t) && NoWindowKill(Fresh(), acts) && AtPoint(t, id, Asleep)
    ensures id !in t.killed
  {
    hide Inv;
    FreshInv();
    RunCatchesNone(Fresh(), acts, t);
    RunFine(acts, t);
    Here(t, id);
    assert !Caught(t, id);
  }

  // ------------------------------------------------------------ the two failures

  lemma {:induction false} Snoc(s: State, acts: seq<Action>, t: State, a: Action)
    requires Runs(s, acts, t) && Enabled(t, a)
    ensures Runs(s, acts + [a], Do(t, a))
    decreases |acts|
  {
    hide Enabled, Do;
    if acts == [] {
      assert Runs(Do(t, a), [], Do(t, a)) && ([] + [a])[1..] == [];
    } else {
      Snoc(Do(s, acts[0]), acts[1..], t, a);
      assert (acts + [a])[1..] == acts[1..] + [a];
    }
  }

  lemma Then(acts: seq<Action>, s: State, a: Action) returns (more: seq<Action>, t: State)
    requires Runs(Fresh(), acts, s) && Enabled(s, a)
    ensures Runs(Fresh(), more, t) && t == Do(s, a)
  {
    Snoc(Fresh(), acts, s, a);
    more, t := acts + [a], Do(s, a);
  }

  lemma NoActs(s: State)
    ensures Runs(s, [], s)
  {
  }

  function OneRead(at: Point): map<nat, Call> {
    map[0 := Call(Io(Coarse.Read(1, 0, [], if at == Wants || at == Holds then Coarse.Ready else Coarse.Asleep)), at)]
  }

  lemma ReaderEnters() returns (acts: seq<Action>, s: State)
    ensures Runs(Fresh(), acts, s) && s == Fresh().(calls := OneRead(Holds), plock := Some(0))
  {
    hide Runs, Stretch, Roused;
    NoActs(Fresh());
    acts, s := Then([], Fresh(), StartRead(0, 1));
    assert s == Fresh().(calls := OneRead(Wants));
    acts, s := Then(acts, s, Take(0));
  }

  /** A reader that has found the pipe empty. */
  lemma ReaderDozes() returns (acts: seq<Action>, s: State)
    ensures Runs(Fresh(), acts, s) && s == Fresh().(calls := OneRead(ToSleep), plock := Some(0))
  {
    hide Runs, Busy, Closing, Roused;
    acts, s := ReaderEnters();
    acts, s := Then(acts, s, Run(0));
  }

  /** ... goes to sleep, with the pipe empty and both locks free. */
  lemma ReaderSleeps(acts: seq<Action>, s: State, killed: set<nat>) returns (more: seq<Action>, t: State)
    requires Runs(Fresh(), acts, s) && s == Fresh().(calls := OneRead(ToSleep), plock := Some(0), killed := killed)
    ensures Runs(Fresh(), more, t) && t == Fresh().(calls := OneRead(Asleep), killed := killed)
  {
    hide Runs;
    more, t := Then(acts, s, SleepTake(0));
    assert t == Fresh().(calls := OneRead(Both), killed := killed, plock := Some(0), tlock := By(0));
    more, t := Then(more, t, SleepDrop(0));
    assert t == Fresh().(calls := OneRead(TableOnly), killed := killed, tlock := By(0));
    more, t := Then(more, t, SleepGo(0));
  }

  /** A killed reader asleep on an empty pipe, both locks free and no other call on it. */
  lemma KilledLeftAsleep() returns (acts: seq<Action>, t: State)
    ensures Runs(Fresh(), acts, t) && t.calls.Keys == {0} && AtPoint(t, 0, Asleep) && 0 in t.killed
    ensures t.queue == [] && t.writeopen && t.plock == None && t.tlock == Nobody
  {
    hide Runs;
    var s;
    acts, s := ReaderDozes();
    acts, s := Then(acts, s, Kill(0));
    acts, t := ReaderSleeps(acts, s, {0});
  }

  function Zeros(n: nat): (r: seq<Byte>)
    ensures |r| == n
  {
    seq(n, _ => 0)
  }

  /** A killed writer that has p->lock, and a sleeping reader. */
  lemma KilledWriterHolds() returns (acts: seq<Action>, s: State)
    ensures Runs(Fresh(), acts, s)
    ensures s == Fresh().(calls := OneRead(Asleep)[1 := Call(Io(Coarse.Write(Zeros(513), 0, Coarse.Ready)), Holds)],
                          killed := {1}, plock := Some(1))
  {
    hide Runs;
    acts, s := ReaderDozes();
    acts, s := ReaderSleeps(acts, s, {});
    acts, s := Then(acts, s, StartWrite(1, Zeros(513)));
    acts, s := Then(acts, s, Take(1));
    acts, s := Then(acts, s, Kill(1));
  }

  /** A reader asleep on a full pipe, not killed, both locks free and no call that would
      wake it. */
  lemma KillLosesWakeup() returns (acts: seq<Action>, t: State)
    ensures Runs(Fresh(), acts, t) && t.calls.Keys == {0, 1} && AtPoint(t, 0, Asleep) && 0 !in t.killed
    ensures AtPoint(t, 1, Over)
    ensures t.calls[0].work.Io? && t.calls[0].work.job.Read? && |t.queue| == PIPESIZE && t.plock == None
    ensures t.tlock == Nobody
  {
    hide Runs;
    var s;
    acts, s := KilledWriterHolds();
    acts, s := Then(acts, s, Run(1));
    acts, t := Then(acts, s, Leave(1));
  }

  // ------------------------------------------------------------ how much one stretch does

  predicate Returned(s: State, id: nat) {
    id in s.calls && s.calls[id].work.Io? && s.calls[id].work.job.Read? && s.calls[id].work.job.st == Coarse.Over(true)
  }

  /** A read that has returned its count keeps it. */
  lemma ReturnedStays(s: State, a: Action, id: nat)
    requires Inv(s) && Enabled(s, a) && Returned(s, id)
    ensures Returned(Do(s, a), id) && Do(s, a).calls[id].work == s.calls[id].work
  {
    hide Inv, Busy, Closing;
    Here(s, id);
  }

  lemma {:induction false} ReturnedToEnd(s: State, acts: seq<Action>, t: State, id: nat)
    requires Inv(s) && Runs(s, acts, t) && Returned(s, id)
    ensures Returned(t, id) && t.calls[id].work == s.calls[id].work
    decreases |acts|
  {
    hide Inv, Enabled, Do, Returned;
    if acts != [] {
      ReturnedStays(s, acts[0], id);
      StepInv(s, acts[0]);
      ReturnedToEnd(Do(s, acts[0]), acts[1..], t, id);
    }
  }

  /** And comes to it only by a stretch of its own. */
  lemma ReturnsItself(s: State, a: Action, id: nat)
    requires Enabled(s, a) && Returned(Do(s, a), id) && !Returned(s, id)
    ensures a == Run(id) && s.calls[id].work.Io? && s.calls[id].work.job.Read?
    ensures var j := Do(s, a).calls[id].work.job; var k := |j.out|;
      && j.n == s.calls[id].work.job.n && k == (if j.n < |s.queue| then j.n else |s.queue|)
      && j.out == s.queue[..k] && Do(s, a).queue == s.queue[k..] && j.from == |s.got|
      && (s.queue != [] || !s.writeopen)
  {
    hide Busy, Closing, Coarse.Tag;
  }

  lemma {:induction false} ReturnedFrom(s: State, acts: seq<Action>, t: State, id: nat) returns (k: nat, u: State)
    requires Inv(s) && Runs(s, acts, t) && Returned(t, id) && !Returned(s, id)
    ensures k < |acts| && acts[k] == Run(id) && Runs(s, acts[..k], u) && Enabled(u, Run(id)) && !Returned(u, id)
    ensures Returned(Do(u, Run(id)), id) && Do(u, Run(id)).calls[id].work == t.calls[id].work
    decreases |acts|
  {
    hide Inv, Enabled, Do, Returned;
    var v := Do(s, acts[0]);
    StepInv(s, acts[0]);
    if Returned(v, id) {
      ReturnedToEnd(v, acts[1..], t, id);
      ReturnsItself(s, acts[0], id);
      k, u := 0, s;
    } else {
      k, u := ReturnedFrom(v, acts[1..], t, id);
      k := k + 1;
      assert acts[..k][1..] == acts[1..][..k - 1];
    }
  }

  /** PipeRun.ReadReturned, for every run under the two locks. */
  lemma ReadReturned(acts: seq<Action>, t: State, id: nat) returns (k: nat, u: State)
    requires Runs(Fresh(), acts, t) && Returned(t, id)
    ensures k < |acts| && acts[k] == Run(id) && Runs(Fresh(), acts[..k], u)
    ensures var j := t.calls[id].work.job;
      && |j.out| == (if j.n < |u.queue| then j.n else |u.queue|) && j.out == u.queue[..|j.out|] && j.from == |u.got|
      && (j.out == [] && j.n > 0 ==> u.queue == [] && !u.writeopen)
  {
    hide Inv, Enabled, Do, Runs;
    FreshInv();
    k, u := ReturnedFrom(Fresh(), acts, t, id);
    ReturnsItself(u, Run(id), id);
  }

  // ------------------------------------------------------------ the stretches, by the code

  /** p is the pipe of the run's state. */
  ghost predicate Shows(p: Pipe, s: State)
    reads p, p.data
  {
    p.Valid() && p.queue == s.queue && p.readopen == s.readopen && p.writeopen == s.writeopen
  }

  /** pipewrite, piperead and pipeclose on the ring make exactly the stretches of the runs. */
  method RunStretch(p: Pipe, s: State, id: nat) returns (t: State)
    requires Shows(p, s) && Enabled(s, Run(id))
    modifies p, p.data
    ensures Shows(p, t) && t == Do(s, Run(id))
  {
    match s.calls[id].work {
      case Close(w) =>
        var readers, free := p.Close(w);
        t := s.(readopen := s.readopen && w, writeopen := s.writeopen && !w,
                calls := s.calls[id := Call(Close(w), Wakes)]);
      case Io(Write(addr, i0, _)) =>
        var i, end, woke := p.WriteSome(addr, i0, id in s.killed);
        t := s.(queue := s.queue + addr[i0..i], sent := s.sent + Coarse.Tag(id, addr[i0..i]),
                calls := s.calls[id := Call(Io(Coarse.Write(addr, i, Coarse.After(end))),
                                            if woke then Wakes else Leaves)]);
      case Io(Read(n, from, had, _)) =>
        var out, end, woke := p.ReadSome(n, id in s.killed);
        var job := if woke then Coarse.Read(n, |s.got|, out, Coarse.Over(true))
                   else Coarse.Read(n, from, had, Coarse.After(end));
        t := s.(queue := s.queue[|out|..], got := s.got + out,
                calls := s.calls[id := Call(Io(job),
                                            if woke then Wakes else if end == Fails then Leaves else ToSleep)]);
    }
  }
}
