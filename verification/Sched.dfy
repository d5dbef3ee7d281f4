/** proc.c and spinlock.c as a step relation: any number of CPUs and process
    slots, ptable.lock, and the kernel stack each CPU executes on. A swtch is a step
    of its own, so the window in which a process has given up its state but its
    stack is still in use is visible; the lock is what covers it. */
module Sched {
  import opened Common

  datatype PState = UNUSED | EMBRYO | SLEEPING | RUNNABLE | RUNNING | ZOMBIE

  /** The address of a process slot, or of anything else. */
  datatype Chan = OfProc(p: nat) | Other(n: int)

  /** What a process takes ptable.lock for. */
  datatype Op = Yield | Sleep(chan: Chan) | Exit | Wait | Wakeup(chan: Chan) | Kill(pid: int) | Alloc | Launch

  /** Where a process's kernel thread is. */
  datatype Point =
    | Nowhere                     // no thread
    | Run                         // outside ptable.lock
    | Held(op: Op)                // just inside the lock
    | Done                        // about to release the lock
    | Leaving(next: Point)        // in sched(), about to swtch
    | Fresh                       // will start in forkret
    | InSched(waiting: bool)      // swtched out of sched(); `waiting`: called from wait()
    | Gone                        // exited

  /** kstack: the slot owns a kernel stack. cpu: the CPU executing on it. child: the
      slot fork() is filling. others: spinlocks held besides ptable.lock. intena:
      sched()'s local. want: the interrupt flag when the thread last held no lock. */
  datatype Proc = Proc(
    state: PState, pid: int, parent: Option<nat>, chan: Option<Chan>, killed: bool, kstack: bool,
    at: Point, cpu: Option<nat>, child: Option<nat>, others: nat, intena: bool, want: bool)

  /** stack: whose kernel stack the CPU is on, None for its scheduler's. proc: the
      per-CPU variable. inLock: the scheduler is between its acquire and release. */
  datatype Cpu = Cpu(stack: Option<nat>, proc: Option<nat>, inLock: bool, ncli: int, intena: bool, iflag: bool)

  datatype State = State(procs: seq<Proc>, cpus: seq<Cpu>, lock: Option<nat>, nextpid: int)

  datatype Action =
    // the scheduler of CPU c; Interrupt is a handler's wakeup() while it idles
    | Sti(c: nat) | SchedAcquire(c: nat) | Pick(c: nat, p: nat) | Back(c: nat) | SchedRelease(c: nat)
    | Interrupt(c: nat, chan: Chan)
    // the process on CPU c
    | Acquire(c: nat, op: Op) | Body(c: nat, pick: Option<nat>) | Swtch(c: nat) | Resume(c: nat) | Release(c: nat)
    | Lock(c: nat) | Unlock(c: nat) | Flag(c: nat, on: bool) | Stack(c: nat, ok: bool) | Copy(c: nat, ok: bool)

  // ------------------------------------------------------------ spinlock.c

  function PushCli(k: Cpu): Cpu {
    k.(intena := if k.ncli == 0 then k.iflag else k.intena, ncli := k.ncli + 1, iflag := false)
  }

  function PopCli(k: Cpu): Cpu {
    k.(ncli := k.ncli - 1, iflag := if k.ncli == 1 && k.intena then true else k.iflag)
  }

  // ------------------------------------------------------------ proc.c

  /** wakeup1. */
  function Wake(ps: seq<Proc>, chan: Chan): (r: seq<Proc>)
    ensures |r| == |ps|
  {
    seq(|ps|, i requires 0 <= i < |ps| =>
      if ps[i].state == SLEEPING && ps[i].chan == Some(chan) then ps[i].(state := RUNNABLE) else ps[i])
  }

  /** exit()'s loop: children of p go to init. */
  function Reparent(ps: seq<Proc>, p: nat): (r: seq<Proc>)
    ensures |r| == |ps|
  {
    seq(|ps|, i requires 0 <= i < |ps| =>
      if ps[i].parent == Some(p) then ps[i].(parent := Some(0)) else ps[i])
  }

  predicate HasZombie(ps: seq<Proc>, p: nat) {
    exists i :: 0 <= i < |ps| && ps[i].parent == Some(p) && ps[i].state == ZOMBIE
  }

  predicate HasKids(ps: seq<Proc>, p: nat) {
    exists i :: 0 <= i < |ps| && ps[i].parent == Some(p)
  }

  /** wakeup1(parent), the children to init (waking it for a zombie). */
  function Orphaned(ps: seq<Proc>, p: nat): (r: seq<Proc>)
    requires p < |ps|
    ensures |r| == |ps|
  {
    var a := if ps[p].parent.Some? then Wake(ps, OfProc(ps[p].parent.value)) else ps;
    Reparent(if HasZombie(a, p) then Wake(a, OfProc(0)) else a, p)
  }

  /** The table after p's exit, before the swtch. */
  function AfterExit(ps: seq<Proc>, p: nat): (r: seq<Proc>)
    requires p < |ps|
    ensures |r| == |ps|
  {
    var qs := Orphaned(ps, p);
    qs[p := qs[p].(state := ZOMBIE, at := Leaving(Gone))]
  }

  /** The first slot whose pid matches, the first free slots included. */
  predicate Matches(ps: seq<Proc>, i: nat, pid: int)
    requires i < |ps|
  {
    ps[i].pid == pid && forall j :: 0 <= j < i ==> ps[j].pid != pid
  }

  function Killed(ps: seq<Proc>, pid: int): (r: seq<Proc>)
    ensures |r| == |ps|
  {
    seq(|ps|, i requires 0 <= i < |ps| =>
      if Matches(ps, i, pid)
      then ps[i].(killed := true, state := if ps[i].state == SLEEPING then RUNNABLE else ps[i].state)
      else ps[i])
  }

  /** The slot after wait() reaps it. */
  function Reaped(q: Proc): Proc {
    q.(kstack := false, state := UNUSED, pid := 0, parent := None, killed := false, at := Nowhere)
  }

  /** The table after the critical section of p's operation. A section that ends in
      sched() leaves p at the swtch, still holding the lock. */
  function Section(s: State, p: nat, op: Op, pick: Option<nat>): (r: State)
    requires p < |s.procs| && BodyEnabled(s, p, op, pick)
    ensures |r.procs| == |s.procs| && r.cpus == s.cpus && r.lock == s.lock
  {
    var ps := s.procs;
    var me := ps[p];
    match op
    case Yield => s.(procs := ps[p := me.(state := RUNNABLE, at := Leaving(InSched(false)))])
    case Sleep(ch) => s.(procs := ps[p := me.(chan := Some(ch), state := SLEEPING, at := Leaving(InSched(false)))])
    case Exit => s.(procs := AfterExit(ps, p))
    case Wait =>
      if pick.Some? then
        s.(procs := ps[pick.value := Reaped(ps[pick.value])][p := me.(at := Done)])
      else if !HasKids(ps, p) || me.killed then s.(procs := ps[p := me.(at := Done)])
      else s.(procs := ps[p := me.(chan := Some(OfProc(p)), state := SLEEPING, at := Leaving(InSched(true)))])
    case Wakeup(ch) =>
      var qs := Wake(ps, ch);
      s.(procs := qs[p := qs[p].(at := Done)])
    case Kill(pid) =>
      var qs := Killed(ps, pid);
      s.(procs := qs[p := qs[p].(at := Done)])
    case Alloc =>
      if pick.Some? then
        s.(procs := ps[pick.value := ps[pick.value].(state := EMBRYO, pid := s.nextpid)]
                      [p := me.(at := Done, child := pick)],
           nextpid := s.nextpid + 1)
      else s.(procs := ps[p := me.(at := Done)])
    case Launch =>
      s.(procs := ps[me.child.value := ps[me.child.value].(state := RUNNABLE)][p := me.(at := Done, child := None)])
  }

  /** `pick`: the zombie child wait() found, the free slot allocproc() found. */
  predicate BodyEnabled(s: State, p: nat, op: Op, pick: Option<nat>)
    requires p < |s.procs|
  {
    match op
    case Wait =>
      if pick.Some? then
        && pick.value < |s.procs| && pick.value != p
        && s.procs[pick.value].parent == Some(p) && s.procs[pick.value].state == ZOMBIE
      else !HasZombie(s.procs, p)
    case Alloc =>
      if pick.Some? then pick.value < |s.procs| && pick.value != p && s.procs[pick.value].state == UNUSED
      else forall i :: 0 <= i < |s.procs| ==> s.procs[i].state != UNUSED
    case Launch => s.procs[p].child.Some? && s.procs[p].child.value < |s.procs| && s.procs[p].child.value != p
    case _ => true
  }

  /** What the callers of these operations guarantee: sleep holds one lock besides
      ptable.lock, yield, exit and wait none; fork is one call. An exit() of init panics before
      it takes the lock, see ExitPanics. */
  predicate Called(s: State, p: nat, op: Op)
    requires p < |s.procs|
  {
    var me := s.procs[p];
    && me.at == Run
    && match op
       case Sleep(_) => me.others == 1
       case Yield => me.others == 0
       case Exit => me.others == 0 && me.child == None && p != 0
       case Wait => me.others == 0 && me.child == None
       case Alloc => me.child == None
       case Launch => me.child.Some? && me.child.value < |s.procs| && s.procs[me.child.value].parent == Some(p)
       case _ => true
  }

  predicate OnProc(s: State, c: nat) {
    c < |s.cpus| && s.cpus[c].stack.Some? && s.cpus[c].stack.value < |s.procs|
  }

  predicate OnSched(s: State, c: nat) {
    c < |s.cpus| && s.cpus[c].stack == None
  }

  function Me(s: State, c: nat): nat
    requires OnProc(s, c)
  {
    s.cpus[c].stack.value
  }

  function At(s: State, c: nat): Point
    requires OnProc(s, c)
  {
    s.procs[Me(s, c)].at
  }

  /** The process on CPU c is inside fork() with the slot of its child. */
  predicate Filling(s: State, c: nat) {
    && OnProc(s, c) && At(s, c) == Run
    && s.procs[Me(s, c)].child.Some?
    && s.procs[Me(s, c)].child.value < |s.procs| && s.procs[Me(s, c)].child.value != Me(s, c)
    && s.procs[s.procs[Me(s, c)].child.value].parent == None
  }

  predicate Enabled(s: State, a: Action) {
    match a
    case Sti(c) => OnSched(s, c) && !s.cpus[c].inLock
    case SchedAcquire(c) => OnSched(s, c) && !s.cpus[c].inLock && s.lock == None
    case Pick(c, p) =>
      && OnSched(s, c) && s.cpus[c].inLock && s.cpus[c].proc == None
      && p < |s.procs| && s.procs[p].state == RUNNABLE
    case Back(c) => OnSched(s, c) && s.cpus[c].proc.Some?
    case SchedRelease(c) => OnSched(s, c) && s.cpus[c].inLock && s.cpus[c].proc == None
    case Interrupt(c, _) => OnSched(s, c) && !s.cpus[c].inLock && s.cpus[c].iflag && s.lock == None
    case Acquire(c, op) => OnProc(s, c) && s.lock == None && Called(s, Me(s, c), op)
    case Body(c, pick) => OnProc(s, c) && At(s, c).Held? && BodyEnabled(s, Me(s, c), At(s, c).op, pick)
    case Swtch(c) => OnProc(s, c) && At(s, c).Leaving?
    case Resume(c) => OnProc(s, c) && (At(s, c).InSched? || At(s, c).Fresh?)
    case Release(c) => OnProc(s, c) && At(s, c).Done?
    case Lock(c) => OnProc(s, c) && At(s, c) == Run
    case Unlock(c) => OnProc(s, c) && At(s, c) == Run && s.procs[Me(s, c)].others > 0
    case Flag(c, _) => OnProc(s, c) && At(s, c) == Run && s.procs[Me(s, c)].others == 0
    case Stack(c, _) => Filling(s, c) && !s.procs[s.procs[Me(s, c)].child.value].kstack
    case Copy(c, _) => Filling(s, c) && s.procs[s.procs[Me(s, c)].child.value].kstack
  }

  /** The thread's record of its interrupt flag at a pushcli on CPU k. */
  function Wanted(me: Proc, k: Cpu): bool {
    if k.ncli == 0 then k.iflag else me.want
  }

  /** A step of the process on CPU c, given its record and its CPU. */
  function DoProc(s: State, a: Action): (r: State)
    requires Enabled(s, a) && !OnSched(s, a.c)
  {
    var c := a.c;
    var k := s.cpus[c];
    var p := k.stack.value;
    var me := s.procs[p];
    match a
    case Acquire(_, op) =>
      // sleep() drops its other lock once it has ptable.lock
      if op.Sleep? then
        s.(lock := Some(c), procs := s.procs[p := me.(at := Held(op), others := 0, want := Wanted(me, k))],
           cpus := s.cpus[c := PopCli(PushCli(k))])
      else
        s.(lock := Some(c), procs := s.procs[p := me.(at := Held(op), want := Wanted(me, k))],
           cpus := s.cpus[c := PushCli(k)])
    case Body(_, pick) => Section(s, p, me.at.op, pick)
    case Swtch(_) =>
      s.(procs := s.procs[p := me.(at := me.at.next, cpu := None, intena := k.intena)],
         cpus := s.cpus[c := k.(stack := None, inLock := true)])
    case Resume(_) =>
      if me.at.Fresh? then
        s.(procs := s.procs[p := me.(at := Done, want := k.intena)])
      else
        s.(procs := s.procs[p := me.(at := if me.at.waiting then Held(Wait) else Done, chan := None)],
           cpus := s.cpus[c := k.(intena := me.intena)])
    case Release(_) => s.(lock := None, procs := s.procs[p := me.(at := Run)], cpus := s.cpus[c := PopCli(k)])
    case Lock(_) =>
      s.(procs := s.procs[p := me.(others := me.others + 1, want := Wanted(me, k))], cpus := s.cpus[c := PushCli(k)])
    case Unlock(_) => s.(procs := s.procs[p := me.(others := me.others - 1)], cpus := s.cpus[c := PopCli(k)])
    case Flag(_, on) => s.(cpus := s.cpus[c := k.(iflag := on)])
    case Stack(_, ok) =>
      var q := me.child.value;
      if ok then s.(procs := s.procs[q := s.procs[q].(kstack := true, at := Fresh)])
      else s.(procs := s.procs[q := s.procs[q].(state := UNUSED)][p := me.(child := None)])
    case Copy(_, ok) =>
      var q := me.child.value;
      if ok then s.(procs := s.procs[q := s.procs[q].(parent := Some(p))])
      else s.(procs := s.procs[q := s.procs[q].(kstack := false, state := UNUSED, at := Nowhere)]
                              [p := me.(child := None)])
  }

  function Do(s: State, a: Action): (r: State)
    requires Enabled(s, a)
  {
    var c := a.c;
    var k := s.cpus[c];
    match a
    case Sti(_) => s.(cpus := s.cpus[c := k.(iflag := true)])
    case SchedAcquire(_) => s.(lock := Some(c), cpus := s.cpus[c := PushCli(k).(inLock := true)])
    case Pick(_, p) =>
      s.(procs := s.procs[p := s.procs[p].(state := RUNNING, cpu := Some(c))],
         cpus := s.cpus[c := k.(proc := Some(p), stack := Some(p), inLock := false)])
    case Back(_) => s.(cpus := s.cpus[c := k.(proc := None)])
    case SchedRelease(_) => s.(lock := None, cpus := s.cpus[c := PopCli(k).(inLock := false)])
    case Interrupt(_, ch) => s.(procs := Wake(s.procs, ch))
    case _ => DoProc(s, a)
  }

  // ------------------------------------------------------------ what every step keeps

  /** The thread executing on CPU k holds ptable.lock. */
  predicate Holds(ps: seq<Proc>, k: Cpu) {
    if k.stack.Some? then k.stack.value < |ps| && ps[k.stack.value].at != Run else k.inLock
  }

  ghost predicate LockHeld(s: State) {
    && (s.lock.Some? ==> s.lock.value < |s.cpus|)
    && forall c :: 0 <= c < |s.cpus| ==> (Holds(s.procs, s.cpus[c]) <==> s.lock == Some(c))
  }

  /** A CPU's interrupt count matches the locks its thread holds. */
  predicate Counted(k: Cpu, held: nat) {
    k.ncli == held && (held > 0 ==> !k.iflag)
  }

  predicate CpuFine(ps: seq<Proc>, k: Cpu, c: nat) {
    if k.stack.Some? then
      && k.stack.value < |ps| && k.proc == k.stack && !k.inLock
      && var me := ps[k.stack.value];
         && me.cpu == Some(c)
         && Counted(k, me.others + if me.at == Run then 0 else 1)
         && (k.ncli > 0 && !me.at.Fresh? && !me.at.InSched? ==> k.intena == me.want)
    else
      && (k.proc.Some? ==> k.inLock) && Counted(k, if k.inLock then 1 else 0)
  }

  ghost predicate CpusFine(s: State) {
    forall c :: 0 <= c < |s.cpus| ==> CpuFine(s.procs, s.cpus[c], c)
  }

  /** The state of a slot that is leaving for `next`, or has left. */
  predicate Asleep(q: Proc, p: nat, next: Point) {
    match next
    case Gone => q.state == ZOMBIE && q.child == None && p != 0
    case InSched(w) =>
      && (q.state == RUNNABLE || (q.state == SLEEPING && (w ==> q.chan == Some(OfProc(p)))))
      && (w ==> q.child == None)
    case _ => false
  }

  /** The state a slot may be in, by where its thread is. */
  predicate SlotFine(q: Proc, p: nat) {
    && (q.cpu.Some? ==> q.kstack)
    && match q.at
       case Nowhere => q.cpu == None && q.others == 0 && (q.state == UNUSED || q.state == EMBRYO) && !q.kstack
       case Run => q.cpu.Some? && q.state == RUNNING
       case Held(op) =>
         && q.cpu.Some? && q.state == RUNNING
         && (op.Yield? || op.Sleep? || op.Exit? || op.Wait? ==> q.others == 0)
         && (op.Exit? || op.Wait? || op.Alloc? ==> q.child == None)
         && (op.Exit? ==> p != 0)
       case Done => q.cpu.Some? && q.state == RUNNING
       case Leaving(next) => q.cpu.Some? && q.others == 0 && Asleep(q, p, next)
       case Fresh =>
         && q.kstack && q.others == 0
         && if q.cpu.Some? then q.state == RUNNING else q.state == RUNNABLE || q.state == EMBRYO
       case InSched(w) =>
         && q.kstack && q.others == 0 && q.intena == q.want
         && if q.cpu.Some? then q.state == RUNNING && (w ==> q.child == None) else Asleep(q, p, q.at)
       case Gone => q.cpu == None && q.others == 0 && q.kstack && Asleep(q, p, Gone)
  }

  predicate Linked(cpus: seq<Cpu>, q: Proc, p: nat) {
    q.cpu.Some? ==> q.cpu.value < |cpus| && cpus[q.cpu.value].stack == Some(p)
  }

  ghost predicate SlotsFine(s: State) {
    forall p :: 0 <= p < |s.procs| ==> SlotFine(s.procs[p], p) && Linked(s.cpus, s.procs[p], p)
  }

  /** The machine half of the invariant: CPUs, stacks and the lock. */
  ghost predicate Machine(s: State) {
    LockHeld(s) && CpusFine(s) && SlotsFine(s)
  }

  predicate Living(q: Proc) {
    q.state == RUNNABLE || q.state == RUNNING || q.state == SLEEPING
  }

  /** A slot's parent: none for init and for free slots, the forking process for an
      embryo once set, and a living process for every started one. */
  predicate ParentFine(ps: seq<Proc>, q: nat)
    requires q < |ps|
  {
    match ps[q].parent
    case None => q == 0 || ps[q].state == UNUSED || ps[q].state == EMBRYO
    case Some(r) =>
      && q != 0 && r < |ps| && r != q && ps[q].state != UNUSED && Living(ps[r])
      && (ps[q].state == EMBRYO ==> ps[r].child == Some(q) && ps[q].kstack)
  }

  predicate ChildFine(ps: seq<Proc>, p: nat)
    requires p < |ps|
  {
    && (ps[p].child.Some? ==>
          && ps[p].child.value < |ps| && ps[p].child.value != p && Living(ps[p])
          && ps[ps[p].child.value].state == EMBRYO)
    && (ps[p].at == Held(Launch) ==> ps[p].child.Some? && ps[ps[p].child.value].parent == Some(p))
  }

  /** No two processes are filling the same slot. */
  ghost predicate OwnSlots(ps: seq<Proc>) {
    forall p, q :: 0 <= p < |ps| && 0 <= q < |ps| && ps[p].child.Some? && ps[p].child == ps[q].child ==> p == q
  }

  ghost predicate Family(ps: seq<Proc>) {
    && |ps| > 0 && Living(ps[0])
    && (forall q :: 0 <= q < |ps| ==> ParentFine(ps, q))
    && (forall p :: 0 <= p < |ps| ==> ChildFine(ps, p))
    && OwnSlots(ps)
  }

  /** Asleep in wait(). */
  predicate Waiting(q: Proc) {
    q.state == SLEEPING && (q.at == InSched(true) || q.at == Leaving(InSched(true)))
  }

  ghost predicate NoneLost(ps: seq<Proc>) {
    forall p, q :: 0 <= p < |ps| && 0 <= q < |ps| && Waiting(ps[p]) && ps[q].parent == Some(p) ==> ps[q].state != ZOMBIE
  }

  ghost predicate Inv(s: State) {
    Machine(s) && Family(s.procs) && NoneLost(s.procs)
  }

  // ------------------------------------------------------------ frames

  /** A change of CPU c and of the slot whose stack it is on, before or after. */
  lemma OneCpu(s: State, c: nat, k: Cpu, p: nat, me: Proc, lock: Option<nat>)
    requires Machine(s) && c < |s.cpus| && p < |s.procs|
    requires s.cpus[c].stack == None || s.cpus[c].stack == Some(p)
    requires s.procs[p].cpu == None || s.procs[p].cpu == Some(c)
    requires CpuFine(s.procs[p := me], k, c) && (k.stack == None || k.stack == Some(p))
    requires SlotFine(me, p) && (me.cpu.Some? ==> me.cpu == Some(c) && k.stack == Some(p))
    requires Holds(s.procs[p := me], k) ==> s.lock == None || s.lock == Some(c)
    requires lock == if Holds(s.procs[p := me], k) then Some(c) else if s.lock == Some(c) then None else s.lock
    ensures Machine(s.(procs := s.procs[p := me], cpus := s.cpus[c := k], lock := lock))
  {
    var t := s.(procs := s.procs[p := me], cpus := s.cpus[c := k], lock := lock);
    forall d | 0 <= d < |t.cpus|
      ensures CpuFine(t.procs, t.cpus[d], d) && (Holds(t.procs, t.cpus[d]) <==> t.lock == Some(d))
    {
      assert CpuFine(s.procs, s.cpus[d], d);
      assert Holds(s.procs, s.cpus[d]) <==> s.lock == Some(d);
    }
    forall q | 0 <= q < |t.procs|
      ensures SlotFine(t.procs[q], q) && Linked(t.cpus, t.procs[q], q)
    {
      assert SlotFine(s.procs[q], q) && Linked(s.cpus, s.procs[q], q);
    }
  }

  /** A change of a slot no CPU is on. */
  lemma OneSlot(s: State, q: nat, x: Proc)
    requires Machine(s) && q < |s.procs| && s.procs[q].cpu == None
    requires x.cpu == None && SlotFine(x, q)
    ensures Machine(s.(procs := s.procs[q := x]))
  {
    var t := s.(procs := s.procs[q := x]);
    forall d | 0 <= d < |t.cpus|
      ensures CpuFine(t.procs, t.cpus[d], d) && (Holds(t.procs, t.cpus[d]) <==> t.lock == Some(d))
    {
      assert CpuFine(s.procs, s.cpus[d], d);
      assert Holds(s.procs, s.cpus[d]) <==> s.lock == Some(d);
    }
    forall r | 0 <= r < |t.procs|
      ensures SlotFine(t.procs[r], r) && Linked(t.cpus, t.procs[r], r)
    {
      assert SlotFine(s.procs[r], r) && Linked(s.cpus, s.procs[r], r);
    }
  }

  /** What a wakeup, a kill or a new parent may change in a slot. */
  predicate Roused(a: Proc, b: Proc) {
    && b == a.(state := b.state, killed := b.killed, parent := b.parent)
    && (b.state == a.state || (a.state == SLEEPING && b.state == RUNNABLE))
  }

  lemma ManySlots(s: State, ps: seq<Proc>)
    requires Machine(s) && |ps| == |s.procs|
    requires forall i :: 0 <= i < |ps| ==> Roused(s.procs[i], ps[i])
    ensures Machine(s.(procs := ps))
  {
    var t := s.(procs := ps);
    forall d | 0 <= d < |t.cpus|
      ensures CpuFine(t.procs, t.cpus[d], d) && (Holds(t.procs, t.cpus[d]) <==> t.lock == Some(d))
    {
      assert CpuFine(s.procs, s.cpus[d], d);
      assert Holds(s.procs, s.cpus[d]) <==> s.lock == Some(d);
      if s.cpus[d].stack.Some? {
        assert Roused(s.procs[s.cpus[d].stack.value], ps[s.cpus[d].stack.value]);
      }
    }
    forall r | 0 <= r < |t.procs|
      ensures SlotFine(t.procs[r], r) && Linked(t.cpus, t.procs[r], r)
    {
      assert SlotFine(s.procs[r], r) && Linked(s.cpus, s.procs[r], r);
      assert Roused(s.procs[r], ps[r]);
    }
  }

  /** What the family half of the invariant sees of a slot does not change. */
  predicate SameKin(a: Proc, b: Proc) {
    && a.parent == b.parent && a.child == b.child && a.kstack == b.kstack
    && Living(a) == Living(b) && (!Living(a) ==> a.state == b.state)
    && (b.at == Held(Launch) ==> a.at == Held(Launch))
    && (Waiting(b) ==> Waiting(a))
  }

  lemma KinKept(ps: seq<Proc>, qs: seq<Proc>)
    requires Family(ps) && NoneLost(ps) && |qs| == |ps|
    requires forall i :: 0 <= i < |ps| ==> SameKin(ps[i], qs[i])
    ensures Family(qs) && NoneLost(qs)
  {
    forall q | 0 <= q < |qs|
      ensures ParentFine(qs, q) && ChildFine(qs, q)
    {
      assert SameKin(ps[q], qs[q]) && ParentFine(ps, q) && ChildFine(ps, q);
      if ps[q].parent.Some? {
        assert SameKin(ps[ps[q].parent.value], qs[ps[q].parent.value]);
      }
      if ps[q].child.Some? {
        assert SameKin(ps[ps[q].child.value], qs[ps[q].child.value]);
      }
    }
    forall p, q | 0 <= p < |qs| && 0 <= q < |qs|
      ensures qs[p].child.Some? && qs[p].child == qs[q].child ==> p == q
      ensures Waiting(qs[p]) && qs[q].parent == Some(p) ==> qs[q].state != ZOMBIE
    {
      assert SameKin(ps[p], qs[p]) && SameKin(ps[q], qs[q]);
    }
    assert SameKin(ps[0], qs[0]);
  }

  // ------------------------------------------------------------ steps of the scheduler

  lemma SchedulerKeeps(s: State, a: Action)
    requires Inv(s) && Enabled(s, a) && (a.Sti? || a.SchedAcquire? || a.Back? || a.SchedRelease?)
    ensures Inv(Do(s, a))
  {
    var t := Do(s, a);
    var c := a.c;
    assert CpuFine(s.procs, s.cpus[c], c) && (Holds(s.procs, s.cpus[c]) <==> s.lock == Some(c));
    forall d | 0 <= d < |t.cpus|
      ensures CpuFine(t.procs, t.cpus[d], d) && (Holds(t.procs, t.cpus[d]) <==> t.lock == Some(d))
    {
      assert CpuFine(s.procs, s.cpus[d], d);
      assert Holds(s.procs, s.cpus[d]) <==> s.lock == Some(d);
    }
    forall q | 0 <= q < |t.procs|
      ensures SlotFine(t.procs[q], q) && Linked(t.cpus, t.procs[q], q)
    {
      assert SlotFine(s.procs[q], q) && Linked(s.cpus, s.procs[q], q);
    }
  }

  lemma PickKeeps(s: State, c: nat, p: nat)
    requires Inv(s) && Enabled(s, Pick(c, p))
    ensures Inv(Do(s, Pick(c, p)))
  {
    var me := s.procs[p].(state := RUNNING, cpu := Some(c));
    assert CpuFine(s.procs, s.cpus[c], c) && (Holds(s.procs, s.cpus[c]) <==> s.lock == Some(c));
    assert SlotFine(s.procs[p], p) && Linked(s.cpus, s.procs[p], p);
    // a RUNNABLE process still on a CPU would hold the lock there
    forall d | 0 <= d < |s.cpus|
      ensures s.cpus[d].stack != Some(p)
    {
      assert CpuFine(s.procs, s.cpus[d], d) && (Holds(s.procs, s.cpus[d]) <==> s.lock == Some(d));
    }
    hide Machine, Family, NoneLost;
    OneStep(s, c, s.cpus[c].(proc := Some(p), stack := Some(p), inLock := false), p, me, s.lock);
  }

  lemma WakeKeeps(s: State, ch: Chan)
    requires Inv(s)
    ensures Inv(s.(procs := Wake(s.procs, ch)))
  {
    ManySlots(s, Wake(s.procs, ch));
    KinKept(s.procs, Wake(s.procs, ch));
  }

  // ------------------------------------------------------------ steps of a process

  /** What the invariant says of the process on CPU c. */
  lemma Here(s: State, c: nat)
    requires Machine(s) && OnProc(s, c)
    ensures CpuFine(s.procs, s.cpus[c], c) && SlotFine(s.procs[Me(s, c)], Me(s, c))
    ensures Holds(s.procs, s.cpus[c]) <==> s.lock == Some(c)
    ensures Holds(s.procs, s.cpus[c]) <==> At(s, c) != Run
  {
  }

  lemma HereInv(s: State, c: nat)
    requires Inv(s) && OnProc(s, c)
    ensures CpuFine(s.procs, s.cpus[c], c) && SlotFine(s.procs[Me(s, c)], Me(s, c))
    ensures At(s, c) != Run <==> s.lock == Some(c)
  {
    Here(s, c);
  }

  /** OneCpu for a slot whose family does not change. */
  lemma OneStep(s: State, c: nat, k: Cpu, p: nat, me: Proc, lock: Option<nat>)
    requires Inv(s) && c < |s.cpus| && p < |s.procs|
    requires s.cpus[c].stack == None || s.cpus[c].stack == Some(p)
    requires s.procs[p].cpu == None || s.procs[p].cpu == Some(c)
    requires CpuFine(s.procs[p := me], k, c) && (k.stack == None || k.stack == Some(p))
    requires SlotFine(me, p) && (me.cpu.Some? ==> me.cpu == Some(c) && k.stack == Some(p))
    requires Holds(s.procs[p := me], k) ==> s.lock == None || s.lock == Some(c)
    requires lock == if Holds(s.procs[p := me], k) then Some(c) else if s.lock == Some(c) then None else s.lock
    requires SameKin(s.procs[p], me)
    ensures Inv(s.(procs := s.procs[p := me], cpus := s.cpus[c := k], lock := lock))
  {
    hide Machine, Family, NoneLost;
    OneCpu(s, c, k, p, me, lock);
    KinKept(s.procs, s.procs[p := me]);
  }

  lemma AcquireKeeps(s: State, c: nat, op: Op)
    requires Inv(s) && Enabled(s, Acquire(c, op)) && !op.Launch?
    ensures Inv(Do(s, Acquire(c, op)))
  {
    Here(s, c);
    hide Machine, Family, NoneLost;
    var t := Do(s, Acquire(c, op));
    OneStep(s, c, t.cpus[c], Me(s, c), t.procs[Me(s, c)], Some(c));
  }

  lemma SwtchKeeps(s: State, c: nat)
    requires Inv(s) && Enabled(s, Swtch(c))
    ensures Inv(Do(s, Swtch(c)))
  {
    hide Inv;
    HereInv(s, c);
    var k := s.cpus[c];
    var p := Me(s, c);
    var me := s.procs[p];
    var j := k.(stack := None, inLock := true);
    var you := me.(at := me.at.next, cpu := None, intena := k.intena);
    assert Do(s, Swtch(c)) == s.(procs := s.procs[p := you], cpus := s.cpus[c := j], lock := s.lock);
    hide Do, Enabled;
    OneStep(s, c, j, p, you, s.lock);
  }

  lemma ResumeKeeps(s: State, c: nat)
    requires Inv(s) && Enabled(s, Resume(c))
    ensures Inv(Do(s, Resume(c)))
  {
    hide Inv;
    HereInv(s, c);
    var k := s.cpus[c];
    var p := Me(s, c);
    var me := s.procs[p];
    var j := if me.at.Fresh? then k else k.(intena := me.intena);
    var you := if me.at.Fresh? then me.(at := Done, want := k.intena)
               else me.(at := if me.at.waiting then Held(Wait) else Done, chan := None);
    assert Do(s, Resume(c)) == s.(procs := s.procs[p := you], cpus := s.cpus[c := j], lock := s.lock);
    hide Do, Enabled;
    OneStep(s, c, j, p, you, s.lock);
  }

  lemma ReleaseKeeps(s: State, c: nat)
    requires Inv(s) && Enabled(s, Release(c))
    ensures Inv(Do(s, Release(c)))
  {
    hide Inv;
    HereInv(s, c);
    var k := s.cpus[c];
    var p := Me(s, c);
    var me := s.procs[p];
    var j := PopCli(k);
    var you := me.(at := Run);
    assert Do(s, Release(c)) == s.(procs := s.procs[p := you], cpus := s.cpus[c := j], lock := None);
    hide Do, Enabled;
    OneStep(s, c, j, p, you, None);
  }

  lemma LockKeeps(s: State, c: nat)
    requires Inv(s) && Enabled(s, Lock(c))
    ensures Inv(Do(s, Lock(c)))
  {
    hide Inv;
    HereInv(s, c);
    var k := s.cpus[c];
    var p := Me(s, c);
    var me := s.procs[p];
    var j := PushCli(k);
    var you := me.(others := me.others + 1, want := Wanted(me, k));
    assert Do(s, Lock(c)) == s.(procs := s.procs[p := you], cpus := s.cpus[c := j], lock := s.lock);
    hide Do, Enabled;
    OneStep(s, c, j, p, you, s.lock);
  }

  lemma UnlockKeeps(s: State, c: nat)
    requires Inv(s) && Enabled(s, Unlock(c))
    ensures Inv(Do(s, Unlock(c)))
  {
    hide Inv;
    HereInv(s, c);
    var k := s.cpus[c];
    var p := Me(s, c);
    var me := s.procs[p];
    var j := PopCli(k);
    var you := me.(others := me.others - 1);
    assert Do(s, Unlock(c)) == s.(procs := s.procs[p := you], cpus := s.cpus[c := j], lock := s.lock);
    hide Do, Enabled;
    OneStep(s, c, j, p, you, s.lock);
  }

  lemma FlagKeeps(s: State, c: nat, on: bool)
    requires Inv(s) && Enabled(s, Flag(c, on))
    ensures Inv(Do(s, Flag(c, on)))
  {
    hide Inv;
    HereInv(s, c);
    var k := s.cpus[c];
    var p := Me(s, c);
    var me := s.procs[p];
    var j := k.(iflag := on);
    var you := me;
    assert Do(s, Flag(c, on)) == s.(procs := s.procs[p := you], cpus := s.cpus[c := j], lock := s.lock);
    hide Do, Enabled;
    OneStep(s, c, j, p, you, s.lock);
  }

  /** A section that changes only p, which stays alive and may go to sleep. */
  lemma SelfKin(ps: seq<Proc>, p: nat, me: Proc)
    requires Family(ps) && NoneLost(ps) && p < |ps|
    requires SameKin(ps[p], me.(state := RUNNABLE)) && Living(me)
    requires Waiting(me) ==> !HasZombie(ps, p)
    ensures Family(ps[p := me]) && NoneLost(ps[p := me])
  {
    var qs := ps[p := me];
    forall q | 0 <= q < |qs|
      ensures ParentFine(qs, q) && ChildFine(qs, q)
    {
      assert ParentFine(ps, q) && ChildFine(ps, q);
    }
    assert OwnSlots(qs);
    forall r, q | 0 <= r < |qs| && 0 <= q < |qs| && Waiting(qs[r]) && qs[q].parent == Some(r)
      ensures qs[q].state != ZOMBIE
    {
      assert ps[q].parent == Some(r);
    }
  }

  lemma SelfKeeps(s: State, c: nat, me: Proc)
    requires Inv(s) && OnProc(s, c) && At(s, c).Held?
    requires me == s.procs[Me(s, c)].(state := me.state, chan := me.chan, at := me.at)
    requires me.at.Done? || me.at == Leaving(InSched(false)) || me.at == Leaving(InSched(true))
    requires SlotFine(me, Me(s, c)) && (Waiting(me) ==> !HasZombie(s.procs, Me(s, c)))
    ensures Inv(s.(procs := s.procs[Me(s, c) := me]))
  {
    Here(s, c);
    hide Machine, Family, NoneLost;
    var p := Me(s, c);
    OneCpu(s, c, s.cpus[c], p, me, s.lock);
    assert s.(procs := s.procs[p := me], cpus := s.cpus[c := s.cpus[c]], lock := s.lock) ==
      s.(procs := s.procs[p := me]);
    SelfKin(s.procs, p, me);
  }

  // ------------------------------------------------------------ fork, exit and wait

  /** allocproc takes slot q for p. */
  lemma Taken(ps: seq<Proc>, p: nat, q: nat, pid: int)
    requires Family(ps) && NoneLost(ps) && p < |ps| && q < |ps| && p != q
    requires Living(ps[p]) && ps[p].state == RUNNING && ps[p].child == None && ps[q].state == UNUSED
    ensures var qs := ps[q := ps[q].(state := EMBRYO, pid := pid)][p := ps[p].(at := Done, child := Some(q))];
      Family(qs) && NoneLost(qs)
  {
    var qs := ps[q := ps[q].(state := EMBRYO, pid := pid)][p := ps[p].(at := Done, child := Some(q))];
    assert ParentFine(ps, q);
    forall r | 0 <= r < |qs|
      ensures ParentFine(qs, r) && ChildFine(qs, r)
    {
      assert ParentFine(ps, r) && ChildFine(ps, r);
    }
    forall r | 0 <= r < |ps|
      ensures ps[r].child != Some(q)
    {
      assert ChildFine(ps, r);
    }
    assert OwnSlots(qs) && NoneLost(qs);
  }

  /** The child slot q of p changes as an embryo: it gets its stack, or its parent. */
  lemma Grown(ps: seq<Proc>, p: nat, x: Proc)
    requires Family(ps) && NoneLost(ps) && p < |ps| && ps[p].child.Some? && ps[p].at == Run
    requires ChildFine(ps, p) && x.state == EMBRYO && !x.at.Held? && !Waiting(x)
    requires x.child == ps[ps[p].child.value].child
    requires x.parent == None || (x.parent == Some(p) && x.kstack)
    ensures Family(ps[ps[p].child.value := x]) && NoneLost(ps[ps[p].child.value := x])
  {
    var q := ps[p].child.value;
    var qs := ps[q := x];
    assert ChildFine(ps, q);
    forall r | 0 <= r < |qs|
      ensures ParentFine(qs, r) && ChildFine(qs, r)
    {
      assert ParentFine(ps, r) && ChildFine(ps, r);
      assert ps[r].child == Some(q) ==> r == p;
    }
    assert OwnSlots(qs) && NoneLost(qs);
  }

  /** fork() gives slot q back. */
  lemma Dropped(ps: seq<Proc>, p: nat, x: Proc)
    requires Family(ps) && NoneLost(ps) && p < |ps| && ps[p].child.Some? && ps[p].at == Run
    requires ChildFine(ps, p) && x.state == UNUSED && !x.at.Held?
    requires x.child == ps[ps[p].child.value].child && x.parent == None
    ensures var qs := ps[ps[p].child.value := x][p := ps[p].(child := None)]; Family(qs) && NoneLost(qs)
  {
    var q := ps[p].child.value;
    var qs := ps[q := x][p := ps[p].(child := None)];
    assert ChildFine(ps, q);
    forall r | 0 <= r < |qs|
      ensures ParentFine(qs, r) && ChildFine(qs, r)
    {
      assert ParentFine(ps, r) && ChildFine(ps, r);
      assert ps[r].child == Some(q) ==> r == p;
    }
    assert OwnSlots(qs) && NoneLost(qs);
  }

  /** fork() makes its child RUNNABLE. */
  lemma Launched(ps: seq<Proc>, p: nat)
    requires Family(ps) && NoneLost(ps) && p < |ps| && ps[p].at == Held(Launch) && ps[p].state == RUNNING
    ensures ChildFine(ps, p) && ps[p].child.Some?
    ensures var q := ps[p].child.value;
      var qs := ps[q := ps[q].(state := RUNNABLE)][p := ps[p].(at := Done, child := None)];
      Family(qs) && NoneLost(qs)
  {
    assert ChildFine(ps, p);
    var q := ps[p].child.value;
    var qs := ps[q := ps[q].(state := RUNNABLE)][p := ps[p].(at := Done, child := None)];
    assert ChildFine(ps, q) && ParentFine(ps, q);
    forall r | 0 <= r < |qs|
      ensures ParentFine(qs, r) && ChildFine(qs, r)
    {
      assert ParentFine(ps, r) && ChildFine(ps, r);
      assert ps[r].child == Some(q) ==> r == p;
    }
    assert OwnSlots(qs) && NoneLost(qs);
  }

  /** wait() frees a zombie child. */
  lemma Freed(ps: seq<Proc>, p: nat, q: nat)
    requires Family(ps) && NoneLost(ps) && p < |ps| && q < |ps| && p != q
    requires ps[p].state == RUNNING && ps[q].state == ZOMBIE && ps[q].parent == Some(p)
    ensures var qs := ps[q := Reaped(ps[q])][p := ps[p].(at := Done)]; Family(qs) && NoneLost(qs)
  {
    var qs := ps[q := Reaped(ps[q])][p := ps[p].(at := Done)];
    forall r | 0 <= r < |qs|
      ensures ParentFine(qs, r) && ChildFine(qs, r)
    {
      assert ParentFine(ps, r) && ChildFine(ps, r) && ChildFine(ps, q);
    }
    assert OwnSlots(qs) && NoneLost(qs);
  }

  lemma WakeZombie(ps: seq<Proc>, ch: Chan, p: nat)
    ensures HasZombie(Wake(ps, ch), p) == HasZombie(ps, p)
  {
    var qs := Wake(ps, ch);
    assert forall i :: 0 <= i < |ps| ==>
      qs[i].parent == ps[i].parent && (qs[i].state == ZOMBIE <==> ps[i].state == ZOMBIE);
  }

  /** A slot after Orphaned: the same but for a wakeup and a parent that was p. */
  lemma OrphanedAt(ps: seq<Proc>, p: nat, i: nat)
    requires p < |ps| && i < |ps|
    ensures Roused(ps[i], Orphaned(ps, p)[i])
    ensures Orphaned(ps, p)[i].parent == if ps[i].parent == Some(p) then Some(0) else ps[i].parent
    ensures ps[i].chan == Some(OfProc(i)) && ps[p].parent == Some(i) ==> Orphaned(ps, p)[i].state != SLEEPING
    ensures i == 0 && ps[i].chan == Some(OfProc(0)) && HasZombie(ps, p) ==> Orphaned(ps, p)[i].state != SLEEPING
  {
    if ps[p].parent.Some? {
      WakeZombie(ps, OfProc(ps[p].parent.value), p);
    }
    hide HasZombie;
  }

  /** What exit() does to slot i. */
  lemma AfterExitAt(ps: seq<Proc>, p: nat, i: nat)
    requires p < |ps| && i < |ps| && ps[p].state == RUNNING
    ensures var b := AfterExit(ps, p)[i];
      && b.parent == (if ps[i].parent == Some(p) then Some(0) else ps[i].parent)
      && b.child == ps[i].child && b.kstack == ps[i].kstack
      && (i != p ==> b.at == ps[i].at && Living(b) == Living(ps[i]) && (!Living(b) ==> b.state == ps[i].state))
      && (i != p && Waiting(b) ==> Waiting(ps[i]))
      && (i == p ==> b.state == ZOMBIE && b.at == Leaving(Gone))
  {
    OrphanedAt(ps, p, i);
    hide Orphaned;
  }

  /** A slot asleep in wait() after p's exit is not p's parent, nor init if p leaves it a zombie. */
  lemma StillWaiting(ps: seq<Proc>, p: nat, i: nat)
    requires p < |ps| && i < |ps| && SlotFine(ps[i], i) && Waiting(AfterExit(ps, p)[i])
    ensures i != p && ps[p].parent != Some(i) && (i == 0 ==> !HasZombie(ps, p))
  {
    OrphanedAt(ps, p, i);
    hide Orphaned;
  }

  lemma ExitedParent(ps: seq<Proc>, p: nat, i: nat)
    requires Family(ps) && p < |ps| && i < |ps| && p != 0 && ps[p].state == RUNNING && ps[p].child == None
    ensures ParentFine(AfterExit(ps, p), i)
  {
    assert ParentFine(ps, i) && Living(ps[0]);
    hide AfterExit, Family;
    AfterExitAt(ps, p, i);
    AfterExitAt(ps, p, 0);
    if ps[i].parent.Some? && ps[i].parent != Some(p) {
      AfterExitAt(ps, p, ps[i].parent.value);
    }
  }

  lemma ExitedChild(ps: seq<Proc>, p: nat, i: nat)
    requires Family(ps) && p < |ps| && i < |ps| && p != 0 && ps[p].state == RUNNING && ps[p].child == None
    ensures ChildFine(AfterExit(ps, p), i)
  {
    assert ChildFine(ps, i);
    AfterExitAt(ps, p, i);
    if ps[i].child.Some? {
      assert ParentFine(ps, ps[i].child.value);
      AfterExitAt(ps, p, ps[i].child.value);
    }
    hide AfterExit, Family;
  }

  lemma ExitedWait(ps: seq<Proc>, p: nat, a: nat, b: nat)
    requires NoneLost(ps) && p < |ps| && a < |ps| && b < |ps|
    requires ps[p].state == RUNNING && ParentFine(ps, p) && SlotFine(ps[a], a)
    requires Waiting(AfterExit(ps, p)[a]) && AfterExit(ps, p)[b].parent == Some(a)
    ensures AfterExit(ps, p)[b].state != ZOMBIE
  {
    StillWaiting(ps, p, a);
    AfterExitAt(ps, p, a);
    AfterExitAt(ps, p, b);
    hide AfterExit, SlotFine;
  }

  lemma Exited(ps: seq<Proc>, p: nat)
    requires Family(ps) && NoneLost(ps) && p < |ps| && p != 0 && ps[p].state == RUNNING && ps[p].child == None
    requires forall i :: 0 <= i < |ps| ==> SlotFine(ps[i], i)
    ensures Family(AfterExit(ps, p)) && NoneLost(AfterExit(ps, p))
  {
    var t := AfterExit(ps, p);
    forall i | 0 <= i < |t|
      ensures ParentFine(t, i) && ChildFine(t, i) && t[i].child == ps[i].child && Living(t[0])
    {
      ExitedParent(ps, p, i);
      ExitedChild(ps, p, i);
      AfterExitAt(ps, p, i);
      AfterExitAt(ps, p, 0);
      hide AfterExit;
    }
    forall a, b | 0 <= a < |t| && 0 <= b < |t| && Waiting(t[a]) && t[b].parent == Some(a)
      ensures t[b].state != ZOMBIE
    {
      assert ParentFine(ps, p);
      ExitedWait(ps, p, a, b);
    }
    hide AfterExit, ParentFine, ChildFine, SlotFine, Waiting;
  }

  // ------------------------------------------------------------ critical sections

  /** The process on c ends its section: only `at` and its fork() change. */
  lemma Ending(s: State, c: nat, ps: seq<Proc>, me: Proc)
    requires Machine(s) && OnProc(s, c) && At(s, c).Held?
    requires |ps| == |s.procs| && ps[Me(s, c)] == s.procs[Me(s, c)]
    requires Machine(s.(procs := ps))
    requires me == s.procs[Me(s, c)].(at := Done, child := me.child)
    ensures Machine(s.(procs := ps[Me(s, c) := me]))
  {
    Here(s, c);
    var t := s.(procs := ps);
    hide Machine;
    OneCpu(t, c, t.cpus[c], Me(s, c), me, t.lock);
    assert t.cpus[c := t.cpus[c]] == t.cpus;
  }

  lemma SleepSection(s: State, c: nat)
    requires Inv(s) && OnProc(s, c) && At(s, c).Held? && (At(s, c).op.Yield? || At(s, c).op.Sleep?)
    ensures Inv(Section(s, Me(s, c), At(s, c).op, None))
  {
    hide Inv;
    HereInv(s, c);
    SelfKeeps(s, c, Section(s, Me(s, c), At(s, c).op, None).procs[Me(s, c)]);
  }

  lemma ReapSection(s: State, c: nat, q: nat)
    requires Inv(s) && OnProc(s, c) && At(s, c) == Held(Wait) && BodyEnabled(s, Me(s, c), Wait, Some(q))
    ensures Inv(Section(s, Me(s, c), Wait, Some(q)))
  {
    Here(s, c);
    var p := Me(s, c);
    assert SlotFine(s.procs[q], q);
    ReapIdle(s, c, q);
    hide Machine, Family, NoneLost;
    var x := Reaped(s.procs[q]);
    OneSlot(s, q, x);
    Ending(s, c, s.procs[q := x], s.procs[p].(at := Done));
    Freed(s.procs, p, q);
  }

  lemma WaitSection(s: State, c: nat)
    requires Inv(s) && OnProc(s, c) && At(s, c) == Held(Wait) && BodyEnabled(s, Me(s, c), Wait, None)
    ensures Inv(Section(s, Me(s, c), Wait, None))
  {
    hide Inv, HasZombie, HasKids;
    HereInv(s, c);
    var p := Me(s, c);
    var me := if !HasKids(s.procs, p) || s.procs[p].killed then s.procs[p].(at := Done)
              else s.procs[p].(chan := Some(OfProc(p)), state := SLEEPING, at := Leaving(InSched(true)));
    assert Section(s, p, Wait, None) == s.(procs := s.procs[p := me]);
    hide Section;
    SelfKeeps(s, c, me);
  }

  /** A zombie's stack is in no CPU's use while another process holds the lock. */
  lemma ReapIdle(s: State, c: nat, q: nat)
    requires Machine(s) && OnProc(s, c) && At(s, c).Held? && q < |s.procs| && s.procs[q].state == ZOMBIE
    ensures s.procs[q].cpu == None && s.procs[q].at == Gone
    ensures forall d :: 0 <= d < |s.cpus| ==> s.cpus[d].stack != Some(q) && s.cpus[d].proc != Some(q)
  {
    Here(s, c);
    assert SlotFine(s.procs[q], q) && Linked(s.cpus, s.procs[q], q);
    var d := s.procs[q].cpu;
    assert d.Some? ==> (Holds(s.procs, s.cpus[d.value]) <==> s.lock == d);
    forall e | 0 <= e < |s.cpus|
      ensures s.cpus[e].stack != Some(q) && s.cpus[e].proc != Some(q)
    {
      assert CpuFine(s.procs, s.cpus[e], e);
      assert Holds(s.procs, s.cpus[e]) <==> s.lock == Some(e);
    }
  }

  lemma StirSection(s: State, c: nat, qs: seq<Proc>)
    requires Inv(s) && OnProc(s, c) && At(s, c).Held? && |qs| == |s.procs|
    requires forall i :: 0 <= i < |qs| ==> Roused(s.procs[i], qs[i]) && qs[i].parent == s.procs[i].parent
    ensures Inv(s.(procs := qs[Me(s, c) := qs[Me(s, c)].(at := Done)]))
  {
    Here(s, c);
    hide Machine, Family, NoneLost;
    var p := Me(s, c);
    ManySlots(s, qs);
    KinKept(s.procs, qs);
    assert Roused(s.procs[p], qs[p]);
    Ending(s.(procs := qs), c, qs, qs[p].(at := Done));
    KinKept(qs, qs[p := qs[p].(at := Done)]);
  }

  lemma ExitSection(s: State, c: nat)
    requires Inv(s) && OnProc(s, c) && At(s, c) == Held(Exit)
    ensures Inv(Section(s, Me(s, c), Exit, None))
  {
    Here(s, c);
    var p := Me(s, c);
    Exited(s.procs, p);
    forall i | 0 <= i < |s.procs|
      ensures Roused(s.procs[i], Orphaned(s.procs, p)[i])
    {
      OrphanedAt(s.procs, p, i);
    }
    hide Machine, Family, NoneLost, Orphaned;
    ManySlots(s, Orphaned(s.procs, p));
    var t := s.(procs := Orphaned(s.procs, p));
    assert Roused(s.procs[p], t.procs[p]);
    OneCpu(t, c, t.cpus[c], p, t.procs[p].(state := ZOMBIE, at := Leaving(Gone)), t.lock);
    assert t.cpus[c := t.cpus[c]] == t.cpus;
  }

  lemma AllocSection(s: State, c: nat, pick: Option<nat>)
    requires Inv(s) && OnProc(s, c) && At(s, c) == Held(Alloc) && BodyEnabled(s, Me(s, c), Alloc, pick)
    ensures Inv(Section(s, Me(s, c), Alloc, pick))
  {
    Here(s, c);
    var p := Me(s, c);
    if pick.Some? {
      var q := pick.value;
      assert SlotFine(s.procs[q], q);
      hide Machine, Family, NoneLost;
      var x := s.procs[q].(state := EMBRYO, pid := s.nextpid);
      OneSlot(s, q, x);
      Ending(s, c, s.procs[q := x], s.procs[p].(at := Done, child := pick));
      Taken(s.procs, p, q, s.nextpid);
      Renumber(s.(procs := s.procs[q := x][p := s.procs[p].(at := Done, child := pick)]), s.nextpid + 1);
    } else {
      hide Inv;
      SelfKeeps(s, c, s.procs[p].(at := Done));
    }
  }

  lemma Renumber(s: State, n: int)
    requires Machine(s)
    ensures Machine(s.(nextpid := n))
  {
    var t := s.(nextpid := n);
    assert LockHeld(t) && CpusFine(t) && SlotsFine(t);
  }

  lemma LaunchSection(s: State, c: nat)
    requires Inv(s) && OnProc(s, c) && At(s, c) == Held(Launch)
    ensures BodyEnabled(s, Me(s, c), Launch, None) && Inv(Section(s, Me(s, c), Launch, None))
  {
    Here(s, c);
    var p := Me(s, c);
    Launched(s.procs, p);
    var q := s.procs[p].child.value;
    assert SlotFine(s.procs[q], q) && ParentFine(s.procs, q);
    hide Machine, Family, NoneLost;
    var x := s.procs[q].(state := RUNNABLE);
    OneSlot(s, q, x);
    Ending(s, c, s.procs[q := x], s.procs[p].(at := Done, child := None));
  }

  lemma BodyKeeps(s: State, c: nat, pick: Option<nat>)
    requires Inv(s) && Enabled(s, Body(c, pick))
    ensures Inv(Do(s, Body(c, pick)))
  {
    hide Inv;
    match At(s, c).op
    case Wait => if pick.Some? { ReapSection(s, c, pick.value); } else { WaitSection(s, c); }
    case Alloc => AllocSection(s, c, pick);
    case Launch => LaunchSection(s, c);
    case Exit => ExitSection(s, c);
    case Yield => SleepSection(s, c);
    case Sleep(_) => SleepSection(s, c);
    case Wakeup(ch) => StirSection(s, c, Wake(s.procs, ch));
    case Kill(pid) => StirSection(s, c, Killed(s.procs, pid));
  }

  lemma LaunchAcquireKeeps(s: State, c: nat)
    requires Inv(s) && Enabled(s, Acquire(c, Launch))
    ensures Inv(Do(s, Acquire(c, Launch)))
  {
    Here(s, c);
    var p := Me(s, c);
    var t := Do(s, Acquire(c, Launch));
    hide Machine;
    OneCpu(s, c, t.cpus[c], p, t.procs[p], Some(c));
    assert SameKin(s.procs[p], t.procs[p].(at := Done));
    KinKept(s.procs, s.procs[p := t.procs[p].(at := Done)]);
    LaunchKin(s.procs, p, t.procs[p]);
  }

  lemma LaunchKin(ps: seq<Proc>, p: nat, me: Proc)
    requires Family(ps) && NoneLost(ps) && p < |ps| && me == ps[p].(at := Held(Launch), want := me.want)
    requires ps[p].child.Some? && ps[p].child.value < |ps| && ps[ps[p].child.value].parent == Some(p)
    ensures Family(ps[p := me]) && NoneLost(ps[p := me])
  {
    var qs := ps[p := me];
    assert ChildFine(ps, p);
    forall q | 0 <= q < |qs|
      ensures ParentFine(qs, q) && ChildFine(qs, q)
    {
      assert ParentFine(ps, q) && ChildFine(ps, q);
    }
    assert OwnSlots(qs) && NoneLost(qs);
  }

  /** Slot q of the child p is filling becomes x, and p keeps it or gives it back. */
  lemma FillKeeps(s: State, c: nat, x: Proc, keep: bool)
    requires Inv(s) && Filling(s, c)
    requires var q := s.procs[Me(s, c)].child.value;
      x.cpu == None && SlotFine(x, q) && x.child == s.procs[q].child
    requires if keep then x.state == EMBRYO && (x.parent == None || (x.parent == Some(Me(s, c)) && x.kstack))
             else x.state == UNUSED && x.parent == None
    ensures var p := Me(s, c); var q := s.procs[p].child.value; var qs := s.procs[q := x];
      Inv(s.(procs := if keep then qs else qs[p := s.procs[p].(child := None)]))
  {
    Here(s, c);
    var p := Me(s, c);
    assert ChildFine(s.procs, p);
    var q := s.procs[p].child.value;
    assert SlotFine(s.procs[q], q);
    hide Machine, Family, NoneLost;
    OneSlot(s, q, x);
    if keep {
      Grown(s.procs, p, x);
    } else {
      Dropped(s.procs, p, x);
      var u := s.(procs := s.procs[q := x]);
      OneCpu(u, c, u.cpus[c], p, s.procs[p].(child := None), u.lock);
      assert u.cpus[c := u.cpus[c]] == u.cpus;
    }
  }

  lemma FillingHere(s: State, c: nat)
    requires Inv(s) && Filling(s, c)
    ensures var q := s.procs[Me(s, c)].child.value;
      s.procs[q].cpu == None && s.procs[q].state == EMBRYO && SlotFine(s.procs[q], q)
  {
    assert ChildFine(s.procs, Me(s, c));
    assert SlotFine(s.procs[s.procs[Me(s, c)].child.value], s.procs[Me(s, c)].child.value);
  }

  lemma StackKeeps(s: State, c: nat, ok: bool)
    requires Inv(s) && Enabled(s, Stack(c, ok))
    ensures Inv(Do(s, Stack(c, ok)))
  {
    hide Inv;
    FillingHere(s, c);
    var p := Me(s, c);
    var q := s.procs[p].child.value;
    var x := if ok then s.procs[q].(kstack := true, at := Fresh) else s.procs[q].(state := UNUSED);
    var qs := s.procs[q := x];
    assert Do(s, Stack(c, ok)) == s.(procs := if ok then qs else qs[p := s.procs[p].(child := None)]);
    hide Do, Enabled;
    FillKeeps(s, c, x, ok);
  }

  lemma CopyKeeps(s: State, c: nat, ok: bool)
    requires Inv(s) && Enabled(s, Copy(c, ok))
    ensures Inv(Do(s, Copy(c, ok)))
  {
    hide Inv;
    FillingHere(s, c);
    var p := Me(s, c);
    var q := s.procs[p].child.value;
    var x := if ok then s.procs[q].(parent := Some(p))
      else s.procs[q].(kstack := false, state := UNUSED, at := Nowhere);
    var qs := s.procs[q := x];
    assert Do(s, Copy(c, ok)) == s.(procs := if ok then qs else qs[p := s.procs[p].(child := None)]);
    hide Do, Enabled;
    FillKeeps(s, c, x, ok);
  }

  // ------------------------------------------------------------ whole runs

  lemma StepKeeps(s: State, a: Action)
    requires Inv(s) && Enabled(s, a)
    ensures Inv(Do(s, a))
  {
    match a {
      case Pick(c, p) => PickKeeps(s, c, p);
      case Interrupt(_, ch) => WakeKeeps(s, ch);
      case Acquire(c, op) => if op.Launch? { LaunchAcquireKeeps(s, c); } else { AcquireKeeps(s, c, op); }
      case Body(c, pick) => BodyKeeps(s, c, pick);
      case Stack(c, ok) => StackKeeps(s, c, ok);
      case Copy(c, ok) => CopyKeeps(s, c, ok);
      case Swtch(c) => SwtchKeeps(s, c);
      case Resume(c) => ResumeKeeps(s, c);
      case Release(c) => ReleaseKeeps(s, c);
      case Lock(c) => LockKeeps(s, c);
      case Unlock(c) => UnlockKeeps(s, c);
      case Flag(c, on) => FlagKeeps(s, c, on);
      case _ => SchedulerKeeps(s, a);
    }
  }

  /** After userinit(): one RUNNABLE slot, init, and every CPU about to enter scheduler(). */
  ghost predicate Boot(s: State) {
    && |s.procs| > 0 && s.lock == None
    && s.procs[0].state == RUNNABLE && s.procs[0].at == Fresh && s.procs[0].kstack
    && (forall p :: 0 <= p < |s.procs| ==>
          Blank(s.procs[p]) && (p > 0 ==> s.procs[p].state == UNUSED && s.procs[p].at == Nowhere && !s.procs[p].kstack))
    && (forall c :: 0 <= c < |s.cpus| ==> s.cpus[c] == Cpu(None, None, false, 0, s.cpus[c].intena, s.cpus[c].iflag))
  }

  predicate Blank(q: Proc) {
    q.parent == None && q.cpu == None && q.child == None && q.others == 0
  }

  ghost predicate Runs(s: State, acts: seq<Action>, t: State)
    decreases |acts|
  {
    if acts == [] then s == t else Enabled(s, acts[0]) && Runs(Do(s, acts[0]), acts[1..], t)
  }

  lemma {:induction false} RunKeeps(s: State, acts: seq<Action>, t: State)
    requires Inv(s) && Runs(s, acts, t)
    ensures Inv(t)
    decreases |acts|
  {
    if acts != [] {
      StepKeeps(s, acts[0]);
      RunKeeps(Do(s, acts[0]), acts[1..], t);
    }
  }

  lemma BootInv(s: State)
    requires Boot(s)
    ensures Inv(s)
  {
    assert forall p :: 0 <= p < |s.procs| ==> Blank(s.procs[p]);
    assert Machine(s);
    assert Family(s.procs);
  }

  /** Whenever ptable.lock is free, a process is RUNNING exactly when it is some CPU's
      current process, and then of exactly one CPU, which is on its kernel stack. */
  lemma SchedulerExclusion(s: State, acts: seq<Action>, t: State, p: nat)
    requires Boot(s) && Runs(s, acts, t) && t.lock == None && p < |t.procs|
    ensures t.procs[p].state == RUNNING <==> exists c :: 0 <= c < |t.cpus| && t.cpus[c].proc == Some(p)
    ensures forall c, d :: 0 <= c < |t.cpus| && 0 <= d < |t.cpus| && t.cpus[c].proc == t.cpus[d].proc == Some(p) ==>
      c == d
    ensures forall c :: 0 <= c < |t.cpus| ==> t.cpus[c].stack == t.cpus[c].proc
  {
    BootInv(s);
    RunKeeps(s, acts, t);
    forall c | 0 <= c < |t.cpus|
      ensures t.cpus[c].stack == t.cpus[c].proc
      ensures t.cpus[c].proc == Some(p) ==> t.procs[p].cpu == Some(c) && t.procs[p].state == RUNNING
    {
      assert CpuFine(t.procs, t.cpus[c], c);
      assert Holds(t.procs, t.cpus[c]) <==> t.lock == Some(c);
      assert SlotFine(t.procs[p], p);
    }
    assert SlotFine(t.procs[p], p) && Linked(t.cpus, t.procs[p], p);
    if t.procs[p].state == RUNNING {
      assert t.cpus[t.procs[p].cpu.value].proc == Some(p);
    }
  }

  /** The conditions under which release, popcli and sched panic; acquire's is the subject of
      AcquireNeverPanics, exit's of InitExits. */
  predicate Panics(s: State, a: Action)
    requires Enabled(s, a)
  {
    var k := s.cpus[a.c];
    match a
    case SchedRelease(c) => s.lock != Some(c) || k.iflag || k.ncli < 1
    case Acquire(_, op) => op.Sleep? && (PushCli(k).iflag || PushCli(k).ncli < 1)
    case Release(c) => s.lock != Some(c) || k.iflag || k.ncli < 1
    case Unlock(_) => k.iflag || k.ncli < 1
    case Swtch(c) => s.lock != Some(c) || k.ncli != 1 || s.procs[Me(s, c)].state == RUNNING || k.iflag
    case Resume(c) => s.lock != Some(c)
    case _ => false
  }

  lemma CpuHere(s: State, c: nat)
    requires Inv(s) && c < |s.cpus|
    ensures CpuFine(s.procs, s.cpus[c], c) && (Holds(s.procs, s.cpus[c]) <==> s.lock == Some(c))
  {
  }

  /** ptable.lock is handed across swtch: whoever resumes inside sched() or forkret
      holds it on its own CPU, and no step of any run panics in release, popcli or sched. */
  lemma NoPanic(s: State, acts: seq<Action>, t: State, a: Action)
    requires Boot(s) && Runs(s, acts, t) && Enabled(t, a)
    ensures !Panics(t, a)
  {
    hide Inv, Boot, Runs, BodyEnabled, Called;
    BootInv(s);
    RunKeeps(s, acts, t);
    CpuHere(t, a.c);
    if OnProc(t, a.c) {
      HereInv(t, a.c);
    }
  }

  /** Wherever code may try to take ptable.lock, whether it is free or not, its CPU does not
      have it: the scheduler at the top of its loop, a process outside the functions of
      proc.c, and whatever an interrupt handler calls, since interrupts are on only then. */
  lemma AcquireNeverPanics(s: State, acts: seq<Action>, t: State, c: nat)
    requires Boot(s) && Runs(s, acts, t) && c < |t.cpus|
    ensures OnSched(t, c) && !t.cpus[c].inLock ==> t.lock != Some(c)
    ensures OnProc(t, c) && At(t, c) == Run ==> t.lock != Some(c)
    ensures t.cpus[c].iflag ==> t.lock != Some(c)
  {
    hide Inv, Boot, Runs;
    BootInv(s);
    RunKeeps(s, acts, t);
    CpuHere(t, c);
  }

  /** wait() never frees a kernel stack that a CPU is executing on. */
  lemma WaitFreesIdleStack(s: State, acts: seq<Action>, t: State, c: nat, q: nat)
    requires Boot(s) && Runs(s, acts, t) && Enabled(t, Body(c, Some(q))) && At(t, c) == Held(Wait)
    ensures forall d :: 0 <= d < |t.cpus| ==> t.cpus[d].stack != Some(q) && t.cpus[d].proc != Some(q)
  {
    BootInv(s);
    RunKeeps(s, acts, t);
    ReapIdle(t, c, q);
  }

  /** No process sleeps in wait() while it has a zombie child, and every started
      process but init has a parent that is neither free, new nor a zombie. */
  lemma NoLostExit(s: State, acts: seq<Action>, t: State, q: nat)
    requires Boot(s) && Runs(s, acts, t) && q < |t.procs|
    ensures Waiting(t.procs[q]) ==> !HasZombie(t.procs, q)
    ensures q != 0 && t.procs[q].state != UNUSED && t.procs[q].state != EMBRYO ==>
      && t.procs[q].parent.Some? && t.procs[q].parent.value < |t.procs|
      && Living(t.procs[t.procs[q].parent.value])
  {
    BootInv(s);
    RunKeeps(s, acts, t);
    assert ParentFine(t.procs, q);
  }

  /** When a thread lets go of its last lock, its interrupt flag is the one it had when
      it took its first, on whichever CPU and after however many swtches. */
  lemma FlagComesBack(s: State, acts: seq<Action>, t: State, a: Action)
    requires Boot(s) && Runs(s, acts, t) && Enabled(t, a) && (a.Release? || a.Unlock?)
    ensures Do(t, a).cpus[a.c].ncli == 0 ==> Do(t, a).cpus[a.c].iflag == t.procs[Me(t, a.c)].want
  {
    BootInv(s);
    RunKeeps(s, acts, t);
    Here(t, a.c);
  }

  /** `want` is that flag: only a thread's first lock, and its first start, record it. */
  lemma FlagIsOwn(s: State, a: Action, p: nat)
    requires Enabled(s, a) && p < |s.procs| && Do(s, a).procs[p].want != s.procs[p].want
    ensures s.cpus[a.c].stack == Some(p)
    ensures (s.cpus[a.c].ncli == 0 && Do(s, a).procs[p].want == s.cpus[a.c].iflag) || s.procs[p].at.Fresh?
  {
    if a.Body? {
      SectionWant(s, Me(s, a.c), At(s, a.c).op, a.pick, p);
    }
    hide Section;
  }

  /** exit()'s section changes no slot's flags. */
  lemma ExitSame(ps: seq<Proc>, p: nat, q: nat)
    requires p < |ps| && q < |ps|
    ensures AfterExit(ps, p)[q].want == ps[q].want && AfterExit(ps, p)[q].killed == ps[q].killed
  {
    hide Orphaned;
    OrphanedAt(ps, p, q);
    OrphanedKilled(ps, p, q);
  }

  lemma OrphanedKilled(ps: seq<Proc>, p: nat, q: nat)
    requires p < |ps| && q < |ps|
    ensures Orphaned(ps, p)[q].killed == ps[q].killed
  {
    hide HasZombie;
  }

  lemma WaitSame(s: State, p: nat, pick: Option<nat>, q: nat)
    requires p < |s.procs| && q < |s.procs| && BodyEnabled(s, p, Wait, pick)
    ensures var t := Section(s, p, Wait, pick).procs[q];
      t.want == s.procs[q].want && (t.killed <==> s.procs[q].killed && pick != Some(q))
  {
    hide HasZombie, HasKids;
  }

  lemma SectionWant(s: State, p: nat, op: Op, pick: Option<nat>, q: nat)
    requires p < |s.procs| && q < |s.procs| && BodyEnabled(s, p, op, pick)
    ensures Section(s, p, op, pick).procs[q].want == s.procs[q].want
  {
    SectionFlags(s, p, op, pick, q);
  }

  /** What a critical section does to a slot's flags. */
  lemma SectionFlags(s: State, p: nat, op: Op, pick: Option<nat>, q: nat)
    requires p < |s.procs| && q < |s.procs| && BodyEnabled(s, p, op, pick)
    ensures var t := Section(s, p, op, pick).procs[q];
      && t.want == s.procs[q].want
      && (t.killed <==>
            (s.procs[q].killed && !(op == Wait && pick == Some(q))) || (op.Kill? && Matches(s.procs, q, op.pid)))
  {
    hide AfterExit, HasKids, HasZombie, Matches;
    match op
    case Exit => ExitSame(s.procs, p, q);
    case Wait => WaitSame(s, p, pick, q);
    case _ =>
  }

  // ------------------------------------------------------------ killed

  /** The step is the critical section of a kill() whose pid is first found in slot q. */
  predicate Hits(s: State, a: Action, q: nat)
    requires Enabled(s, a) && q < |s.procs|
  {
    a.Body? && At(s, a.c).op.Kill? && Matches(s.procs, q, At(s, a.c).op.pid)
  }

  /** The step is the section of a wait() that frees slot q. */
  predicate Reaps(s: State, a: Action, q: nat)
    requires Enabled(s, a)
  {
    a.Body? && At(s, a.c).op == Wait && a.pick == Some(q)
  }

  /** A slot is marked killed exactly by a kill() that finds its pid there, whatever the slot
      is in use for, and unmarked exactly by the wait() that frees it; not by allocproc(). */
  lemma KilledExactly(s: State, a: Action, q: nat)
    requires Enabled(s, a) && q < |s.procs|
    ensures q < |Do(s, a).procs|
    ensures Do(s, a).procs[q].killed <==> (s.procs[q].killed && !Reaps(s, a, q)) || Hits(s, a, q)
  {
    hide Section, Matches, BodyEnabled, Called;
    if a.Body? {
      SectionFlags(s, Me(s, a.c), At(s, a.c).op, a.pick, q);
    }
  }

  /** Some wait() of the run frees slot q. */
  ghost predicate ReapedIn(s: State, acts: seq<Action>, q: nat)
    requires q < |s.procs|
    decreases |acts|
  {
    && acts != [] && Enabled(s, acts[0])
    && (Reaps(s, acts[0], q) || (q < |Do(s, acts[0]).procs| && ReapedIn(Do(s, acts[0]), acts[1..], q)))
  }

  /** Some kill() of the run finds slot q, which no wait() frees afterwards. */
  ghost predicate Marked(s: State, acts: seq<Action>, q: nat)
    requires q < |s.procs|
    decreases |acts|
  {
    && acts != [] && Enabled(s, acts[0]) && q < |Do(s, acts[0]).procs|
    && (Marked(Do(s, acts[0]), acts[1..], q) || (Hits(s, acts[0], q) && !ReapedIn(Do(s, acts[0]), acts[1..], q)))
  }

  /** Over a whole run: a slot is marked exactly if a kill() found it since it was last freed. So
      a process is born killed exactly if its slot was hit before, while it was free: kill(0)
      finds the first free slot that no process had yet or that wait() freed. */
  lemma {:induction false} KilledSince(s: State, acts: seq<Action>, t: State, q: nat)
    requires Runs(s, acts, t) && q < |s.procs|
    ensures q < |t.procs|
    ensures t.procs[q].killed <==> Marked(s, acts, q) || (s.procs[q].killed && !ReapedIn(s, acts, q))
    decreases |acts|
  {
    hide Enabled, Do, Hits, Reaps;
    if acts != [] {
      KilledExactly(s, acts[0], q);
      KilledSince(Do(s, acts[0]), acts[1..], t, q);
    }
  }

  /** The process on CPU c is where trap() calls exit() for a killed process. */
  predicate Dies(s: State, c: nat) {
    && OnProc(s, c) && At(s, c) == Run && s.procs[Me(s, c)].others == 0 && s.procs[Me(s, c)].child == None
    && s.procs[Me(s, c)].killed
  }

  /** exit() panics: the caller is init. */
  predicate ExitPanics(s: State, c: nat) {
    Dies(s, c) && Me(s, c) == 0
  }

  /** Some kill() of the run finds init. */
  ghost predicate HitsInit(s: State, acts: seq<Action>)
    requires 0 < |s.procs|
    decreases |acts|
  {
    && acts != [] && Enabled(s, acts[0]) && 0 < |Do(s, acts[0]).procs|
    && (Hits(s, acts[0], 0) || HitsInit(Do(s, acts[0]), acts[1..]))
  }

  lemma NotReaped(s: State, a: Action)
    requires Inv(s) && Enabled(s, a)
    ensures 0 < |s.procs| && !Reaps(s, a, 0)
  {
    assert ParentFine(s.procs, 0);
  }

  lemma {:induction false} InitStays(s: State, acts: seq<Action>, t: State)
    requires Inv(s) && Runs(s, acts, t)
    ensures 0 < |s.procs| && 0 < |t.procs|
    ensures t.procs[0].killed <==> s.procs[0].killed || HitsInit(s, acts)
    decreases |acts|
  {
    hide Inv, Enabled, Do, Hits, Reaps;
    InitThere(s);
    if acts != [] {
      NotReaped(s, acts[0]);
      KilledExactly(s, acts[0], 0);
      StepKeeps(s, acts[0]);
      InitStays(Do(s, acts[0]), acts[1..], t);
    }
  }

  lemma InitThere(s: State)
    requires Inv(s)
    ensures 0 < |s.procs|
  {
  }

  /** init is marked exactly if some kill() of the run found it, and only then can exit()'s
      panic come from the trap of a killed process. */
  lemma InitExits(s: State, acts: seq<Action>, t: State, c: nat)
    requires Boot(s) && !s.procs[0].killed && Runs(s, acts, t)
    ensures 0 < |t.procs| && (t.procs[0].killed <==> HitsInit(s, acts))
    ensures ExitPanics(t, c) ==> HitsInit(s, acts)
  {
    hide Inv, Runs, HitsInit;
    BootInv(s);
    InitStays(s, acts, t);
  }

  // ------------------------------------------------------------ two runs

  lemma {:induction false} Snoc(s: State, acts: seq<Action>, t: State, a: Action)
    requires Runs(s, acts, t) && Enabled(t, a)
    ensures Runs(s, acts + [a], Do(t, a))
    decreases |acts|
  {
    hide Enabled, Do;
    if acts == [] {
      assert Runs(Do(t, a), [], Do(t, a)) && ([] + [a])[1..] == [];
    } else {
      Snoc(Do(s, acts[0]), acts[1..], t, a);
      assert (acts + [a])[1..] == acts[1..] + [a];
    }
  }

  /** After userinit() on one CPU: init with pid 1, and one free slot. */
  function Small(): State {
    State([Proc(RUNNABLE, 1, None, None, false, true, Fresh, None, None, 0, false, false),
           Proc(UNUSED, 0, None, None, false, false, Nowhere, None, None, 0, false, false)],
          [Cpu(None, None, false, 0, false, false)], None, 2)
  }

  lemma Then(acts: seq<Action>, s: State, a: Action) returns (more: seq<Action>, t: State)
    requires Runs(Small(), acts, s) && Enabled(s, a)
    ensures Runs(Small(), more, t) && t == Do(s, a)
  {
    Snoc(Small(), acts, s, a);
    more, t := acts + [a], Do(s, a);
  }

  /** init running, outside of ptable.lock. */
  function Running(child: Proc, nextpid: int, kid: Option<nat>, killed: bool): State {
    State([Proc(RUNNING, 1, None, None, killed, true, Run, Some(0), kid, 0, false, false), child],
          [Cpu(Some(0), Some(0), false, 0, false, false)], None, nextpid)
  }

  lemma InitRuns() returns (acts: seq<Action>, s: State)
    ensures Runs(Small(), acts, s) && s == Running(Small().procs[1], 2, None, false)
  {
    hide Runs;
    RunsNothing(Small());
    acts, s := Then([], Small(), SchedAcquire(0));
    acts, s := Then(acts, s, Pick(0, 0));
    acts, s := Then(acts, s, Resume(0));
    acts, s := Then(acts, s, Release(0));
  }

  lemma RunsNothing(s: State)
    ensures Runs(s, [], s)
  {
  }

  /** init enters and leaves a critical section that does not sleep. */
  lemma Syscall(acts: seq<Action>, s: State, op: Op, pick: Option<nat>, child: Proc, nextpid: int, kid: Option<nat>,
          killed: bool) returns (more: seq<Action>, t: State)
    requires Runs(Small(), acts, s) && s.lock == None && OnProc(s, 0) && Me(s, 0) == 0 && |s.cpus| == 1
    requires |s.procs| == 2
    requires s == Running(s.procs[1], s.nextpid, s.procs[0].child, s.procs[0].killed)
    requires Called(s, 0, op) && !op.Sleep?
    requires var u := s.(procs := s.procs[0 := s.procs[0].(at := Held(op))]);
      && BodyEnabled(u, 0, op, pick)
      && Section(u, 0, op, pick).procs == [s.procs[0].(at := Done, child := kid, killed := killed), child]
      && Section(u, 0, op, pick).nextpid == nextpid
    ensures Runs(Small(), more, t) && t == Running(child, nextpid, kid, killed)
  {
    hide Runs, Called, BodyEnabled, Section;
    more, t := Then(acts, s, Acquire(0, op));
    SectionTable(t, s.(procs := s.procs[0 := s.procs[0].(at := Held(op))]), op, pick);
    more, t := Then(more, t, Body(0, pick));
    more, t := Then(more, t, Release(0));
  }

  /** A critical section looks only at the table. */
  lemma SectionTable(s: State, t: State, op: Op, pick: Option<nat>)
    requires 0 < |s.procs| && t.procs == s.procs && t.nextpid == s.nextpid && BodyEnabled(t, 0, op, pick)
    ensures BodyEnabled(s, 0, op, pick)
    ensures Section(s, 0, op, pick).procs == Section(t, 0, op, pick).procs
    ensures Section(s, 0, op, pick).nextpid == Section(t, 0, op, pick).nextpid
  {
    hide AfterExit, HasKids, HasZombie;
  }

  /** init kills itself: it comes to trap()'s call of exit(), which panics. */
  lemma InitDies() returns (acts: seq<Action>, t: State)
    ensures Boot(Small()) && !Small().procs[0].killed && Runs(Small(), acts, t) && ExitPanics(t, 0)
  {
    hide Runs;
    var s;
    acts, s := InitRuns();
    acts, t := Syscall(acts, s, Kill(1), None, s.procs[1], 2, None, true);
  }

  /** kill(0) finds the free slot, which allocproc() then takes. */
  lemma FreeSlotHit() returns (acts: seq<Action>, s: State)
    ensures Runs(Small(), acts, s)
    ensures s == Running(Small().procs[1].(killed := true, state := EMBRYO, pid := 2), 3, Some(1), false)
  {
    hide Runs;
    acts, s := InitRuns();
    var q := s.procs[1].(killed := true);
    acts, s := Syscall(acts, s, Kill(0), None, q, 2, None, false);
    acts, s := Syscall(acts, s, Alloc, Some(1), q.(state := EMBRYO, pid := 2), 3, Some(1), false);
  }

  /** The middle of fork(): the child's stack, and its parent. */
  lemma Forks(acts: seq<Action>, s: State, q: Proc) returns (more: seq<Action>, t: State)
    requires Runs(Small(), acts, s) && s == Running(q, 3, Some(1), false) && q.parent == None && !q.kstack
    ensures Runs(Small(), more, t)
    ensures t == Running(q.(kstack := true, at := Fresh, parent := Some(0)), 3, Some(1), false)
  {
    hide Runs, Section, BodyEnabled, Called;
    more, t := Then(acts, s, Stack(0, true));
    assert t == Running(q.(kstack := true, at := Fresh), 3, Some(1), false);
    more, t := Then(more, t, Copy(0, true));
  }

  /** The process that fork() makes of it is born killed, although no kill() named its pid. */
  lemma BornKilled() returns (acts: seq<Action>, t: State)
    ensures Boot(Small()) && Runs(Small(), acts, t) && |t.procs| == 2
    ensures t.procs[1].state == RUNNABLE && t.procs[1].pid == 2 && t.procs[1].parent == Some(0) && t.procs[1].killed
  {
    hide Runs, Do, DoProc, Enabled;
    var s;
    acts, s := FreeSlotHit();
    acts, s := Forks(acts, s, s.procs[1]);
    acts, t := Syscall(acts, s, Launch, None, s.procs[1].(state := RUNNABLE), 3, None, false);
  }
}
