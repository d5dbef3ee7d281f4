/** The states of process slots over the runs of module Sched: which steps move a slot from one
    state to which, and how long a sleeper sleeps. */
module SchedStates {
  import opened Common
  import opened Sched
  import opened ProcTable

  // ------------------------------------------------------------ what a step is for slot q

  /** The step is the critical section of q's own operation op. */
  predicate Does(s: State, a: Action, q: nat, op: Op)
    requires Enabled(s, a)
  {
    a.Body? && Me(s, a.c) == q && At(s, a.c).op == op
  }

  /** q goes to sleep: in sleep(), or in wait() with children, none of them a zombie, and not
      killed. */
  predicate Dozes(s: State, a: Action, q: nat)
    requires Enabled(s, a) && q < |s.procs|
  {
    && a.Body? && Me(s, a.c) == q
    && (At(s, a.c).op.Sleep?
        || (At(s, a.c).op == Wait && a.pick == None && !s.procs[q].killed
            && exists i :: 0 <= i < |s.procs| && s.procs[i].parent == Some(q)))
  }

  /** On this channel. */
  predicate FallsAsleep(s: State, a: Action, q: nat, ch: Chan)
    requires Enabled(s, a) && q < |s.procs|
  {
    Dozes(s, a, q) && ch == if At(s, a.c).op.Sleep? then At(s, a.c).op.chan else OfProc(q)
  }

  /** The step wakes the sleepers on ch: a wakeup(ch), of a process or of a handler, or an exit()
      whose caller has the parent with that address, or a zombie child for init. */
  predicate Wakens(s: State, a: Action, ch: Chan)
    requires Enabled(s, a)
  {
    match a
    case Interrupt(_, c) => c == ch
    case Body(c, _) =>
      var p, op := Me(s, c), At(s, c).op;
      || op == Wakeup(ch)
      || (op == Exit && ch.OfProc?
          && (s.procs[p].parent == Some(ch.p)
              || (ch.p == 0
                  && exists i :: 0 <= i < |s.procs| && s.procs[i].parent == Some(p) && s.procs[i].state == ZOMBIE)))
    case _ => false
  }

  /** The step ends q's sleep: a wakeup of its channel or a kill() that finds it. */
  predicate Rouses(s: State, a: Action, q: nat)
    requires Enabled(s, a) && q < |s.procs|
  {
    Hits(s, a, q) || (s.procs[q].chan.Some? && Wakens(s, a, s.procs[q].chan.value))
  }

  predicate AsleepOn(q: Proc, ch: Chan) { q.state == SLEEPING && q.chan == Some(ch) }

  /** allocproc() takes slot q, fork() starts it, or fork() gives it up. */
  predicate Allocates(s: State, a: Action, q: nat)
    requires Enabled(s, a)
  {
    a.Body? && At(s, a.c).op == Alloc && a.pick == Some(q)
  }

  predicate Launches(s: State, a: Action, q: nat)
    requires Enabled(s, a)
  {
    a.Body? && At(s, a.c).op == Launch && s.procs[Me(s, a.c)].child == Some(q)
  }

  predicate Abandons(s: State, a: Action, q: nat)
    requires Enabled(s, a)
  {
    (a.Stack? || a.Copy?) && !a.ok && s.procs[Me(s, a.c)].child == Some(q)
  }

  // ------------------------------------------------------------ critical sections

  /** Slot q after the section of process p, for operations that may change slots of others. */
  lemma OthersStates(s: State, p: nat, op: Op, pick: Option<nat>, q: nat)
    requires p < |s.procs| && q < |s.procs| && q != p && BodyEnabled(s, p, op, pick) && op != Exit
    ensures var x, y := s.procs[q], Section(s, p, op, pick).procs[q];
      && y.chan == x.chan
      && (op == Wait && pick == Some(q) ==> y.state == UNUSED)
      && (op == Alloc && pick == Some(q) ==> y.state == EMBRYO)
      && (op == Launch && s.procs[p].child == Some(q) ==> y.state == RUNNABLE)
      && (op.Kill? ==> y.state == if Matches(s.procs, q, op.pid) && x.state == SLEEPING then RUNNABLE else x.state)
      && (op.Wakeup? ==> y.state == if AsleepOn(x, op.chan) then RUNNABLE else x.state)
      && (op.Yield? || op.Sleep? ==> y.state == x.state)
      && ((op == Wait || op == Alloc) && pick != Some(q) ==> y.state == x.state)
      && (op == Launch && s.procs[p].child != Some(q) ==> y.state == x.state)
  {
    hide AfterExit, HasKids, HasZombie, Matches, Wake, Killed;
    if op.Wakeup? { WakeAt(s.procs, op.chan, q); }
    if op.Kill? { KilledAt(s.procs, op.pid, q); }
  }

  lemma KilledAt(ps: seq<Proc>, pid: int, q: nat)
    requires q < |ps|
    ensures Killed(ps, pid)[q].chan == ps[q].chan
    ensures Killed(ps, pid)[q].state ==
      if Matches(ps, q, pid) && ps[q].state == SLEEPING then RUNNABLE else ps[q].state
  {
    hide Matches;
  }

  /** The caller's own slot. */
  lemma OwnState(s: State, p: nat, op: Op, pick: Option<nat>)
    requires p < |s.procs| && BodyEnabled(s, p, op, pick) && s.procs[p].state == RUNNING
    ensures var x, y := s.procs[p], Section(s, p, op, pick).procs[p];
      && (op == Yield ==> y.state == RUNNABLE)
      && (op.Sleep? ==> AsleepOn(y, op.chan))
      && (op == Exit ==> y.state == ZOMBIE)
      && (op == Wait && pick == None && HasKids(s.procs, p) && !x.killed ==> AsleepOn(y, OfProc(p)))
      && (op == Wait && !(pick == None && HasKids(s.procs, p) && !x.killed) ==> y.state == RUNNING)
      && (op.Wakeup? || op.Kill? || op == Alloc || op == Launch ==> y.state == RUNNING)
  {
    hide Orphaned, HasKids, HasZombie, Matches;
  }

  // ------------------------------------------------------------ one step

  /** The process on CPU c is RUNNING when its section starts, and the slot that fork() fills is
      an embryo. */
  lemma Caller(s: State, a: Action)
    requires Inv(s) && Enabled(s, a)
    ensures a.Body? || a.Stack? || a.Copy? || a.Resume? ==> s.procs[Me(s, a.c)].state == RUNNING
    ensures a.Stack? || a.Copy? || (a.Body? && At(s, a.c).op == Launch) ==>
      && s.procs[Me(s, a.c)].child.Some? && s.procs[Me(s, a.c)].child.value < |s.procs|
      && s.procs[s.procs[Me(s, a.c)].child.value].state == EMBRYO
  {
    if OnProc(s, a.c) {
      HereInv(s, a.c);
      assert ChildFine(s.procs, Me(s, a.c));
    }
    hide Inv;
  }

  /** A step, other than a critical section, and slot q. */
  lemma PlainStates(s: State, a: Action, q: nat)
    requires Inv(s) && Enabled(s, a) && q < |s.procs| && !a.Body?
    ensures q < |Do(s, a).procs|
    ensures var x, y := s.procs[q], Do(s, a).procs[q];
      && (a.Pick? && a.p == q ==> y.state == RUNNING)
      && (Abandons(s, a, q) ==> y.state == UNUSED)
      && (a.Interrupt? ==> y.state == if AsleepOn(x, a.chan) then RUNNABLE else x.state)
      && (!(a.Pick? && a.p == q) && !Abandons(s, a, q) && !a.Interrupt? ==> y.state == x.state)
      && (y.state == SLEEPING ==> y.chan == x.chan)
  {
    hide Section, BodyEnabled, Called, Inv;
    Caller(s, a);
  }

  /** The state of slot q after the step. */
  ghost predicate Next(s: State, a: Action, q: nat, y: PState)
    requires Enabled(s, a) && q < |s.procs|
  {
    var x := s.procs[q].state;
    && (y == SLEEPING <==> (x == SLEEPING && !Rouses(s, a, q)) || Dozes(s, a, q))
    && (y == RUNNABLE <==>
          || (x == RUNNABLE && !(a.Pick? && a.p == q)) || (x == SLEEPING && Rouses(s, a, q))
          || Does(s, a, q, Yield) || Launches(s, a, q))
    && (y == RUNNING <==>
          || (a.Pick? && a.p == q)
          || (x == RUNNING && !Does(s, a, q, Yield) && !Does(s, a, q, Exit) && !Dozes(s, a, q)))
    && (y == ZOMBIE <==> (x == ZOMBIE && !Reaps(s, a, q)) || Does(s, a, q, Exit))
    && (y == EMBRYO <==> (x == EMBRYO && !Launches(s, a, q) && !Abandons(s, a, q)) || Allocates(s, a, q))
    && (y == UNUSED <==> (x == UNUSED && !Allocates(s, a, q)) || Reaps(s, a, q) || Abandons(s, a, q))
  }

  lemma OwnMove(s: State, a: Action)
    requires Inv(s) && Enabled(s, a) && a.Body?
    ensures Me(s, a.c) < |Do(s, a).procs|
    ensures var q := Me(s, a.c); var y := Do(s, a).procs[q];
      && Next(s, a, q, y.state)
      && (Dozes(s, a, q) ==> y.chan == Some(if At(s, a.c).op.Sleep? then At(s, a.c).op.chan else OfProc(q)))
  {
    hide Inv, Section, Matches;
    Caller(s, a);
    OwnState(s, Me(s, a.c), At(s, a.c).op, a.pick);
  }

  lemma OtherMove(s: State, a: Action, q: nat)
    requires Inv(s) && Enabled(s, a) && a.Body? && q < |s.procs| && q != Me(s, a.c)
    ensures q < |Do(s, a).procs|
    ensures Next(s, a, q, Do(s, a).procs[q].state) && Do(s, a).procs[q].chan == s.procs[q].chan
  {
    hide Inv, Section, Matches, AfterExit;
    Caller(s, a);
    var p, op := Me(s, a.c), At(s, a.c).op;
    if op == Exit {
      ExitSlot(s.procs, p, q);
      ExitSection(s, p, a.pick);
    } else {
      OthersStates(s, p, op, a.pick, q);
    }
  }

  lemma ExitSection(s: State, p: nat, pick: Option<nat>)
    requires p < |s.procs|
    ensures Section(s, p, Exit, pick).procs == AfterExit(s.procs, p)
  {
  }

  lemma PlainMove(s: State, a: Action, q: nat)
    requires Inv(s) && Enabled(s, a) && !a.Body? && q < |s.procs|
    ensures q < |Do(s, a).procs| && Next(s, a, q, Do(s, a).procs[q].state)
    ensures Do(s, a).procs[q].state == SLEEPING ==> Do(s, a).procs[q].chan == s.procs[q].chan
  {
    hide Inv, Section, Matches, Do;
    Caller(s, a);
    PlainStates(s, a, q);
  }

  /** The edges of the state diagram: for every step and every slot, exactly when the slot is in
      each state afterwards. */
  lemma StateMoves(s: State, a: Action, q: nat)
    requires Inv(s) && Enabled(s, a) && q < |s.procs|
    ensures q < |Do(s, a).procs|
    ensures var x, y := s.procs[q].state, Do(s, a).procs[q].state;
      && (y == SLEEPING <==> (x == SLEEPING && !Rouses(s, a, q)) || Dozes(s, a, q))
      && (y == RUNNABLE <==>
            || (x == RUNNABLE && !(a.Pick? && a.p == q)) || (x == SLEEPING && Rouses(s, a, q))
            || Does(s, a, q, Yield) || Launches(s, a, q))
      && (y == RUNNING <==>
            || (a.Pick? && a.p == q)
            || (x == RUNNING && !Does(s, a, q, Yield) && !Does(s, a, q, Exit) && !Dozes(s, a, q)))
      && (y == ZOMBIE <==> (x == ZOMBIE && !Reaps(s, a, q)) || Does(s, a, q, Exit))
      && (y == EMBRYO <==> (x == EMBRYO && !Launches(s, a, q) && !Abandons(s, a, q)) || Allocates(s, a, q))
      && (y == UNUSED <==> (x == UNUSED && !Allocates(s, a, q)) || Reaps(s, a, q) || Abandons(s, a, q))
  {
    hide Inv, Section, Do, Rouses, Dozes, Does, Launches, Abandons, Allocates, Reaps;
    if !a.Body? {
      PlainMove(s, a, q);
    } else if q == Me(s, a.c) {
      OwnMove(s, a);
    } else {
      OtherMove(s, a, q);
    }
  }

  lemma NotWhileRunning(s: State, a: Action, q: nat)
    requires Inv(s) && Enabled(s, a) && q < |s.procs| && s.procs[q].state == SLEEPING
    ensures !Dozes(s, a, q) && !(a.Body? && q == Me(s, a.c))
  {
    hide Inv;
    Caller(s, a);
  }

  /** After a step slot q sleeps on ch exactly if it went to sleep on ch in that step, or slept on
      it before and the step was neither a wakeup of ch nor a kill() that found q. */
  lemma AsleepExactly(s: State, a: Action, q: nat, ch: Chan)
    requires Inv(s) && Enabled(s, a) && q < |s.procs|
    ensures q < |Do(s, a).procs|
    ensures AsleepOn(Do(s, a).procs[q], ch) <==>
      FallsAsleep(s, a, q, ch) || (AsleepOn(s.procs[q], ch) && !Wakens(s, a, ch) && !Hits(s, a, q))
    ensures Do(s, a).procs[q].state == SLEEPING && (s.procs[q].state == SLEEPING ==> s.procs[q].chan.Some?) ==>
      Do(s, a).procs[q].chan.Some?
  {
    hide Inv, Section, Do, Dozes, Does, Launches, Abandons, Allocates, Reaps, Wakens, Hits;
    if s.procs[q].state == SLEEPING {
      NotWhileRunning(s, a, q);
    }
    if !a.Body? {
      PlainMove(s, a, q);
      NoDoze(s, a, q);
    } else if q == Me(s, a.c) {
      OwnMove(s, a);
    } else {
      OtherMove(s, a, q);
      NoDoze(s, a, q);
    }
  }

  lemma NoDoze(s: State, a: Action, q: nat)
    requires Enabled(s, a) && q < |s.procs| && !(a.Body? && q == Me(s, a.c))
    ensures !Dozes(s, a, q)
  {
  }

  // ------------------------------------------------------------ whole runs

  /** No step of the run is a wakeup of ch or a kill() that finds q. */
  ghost predicate Undisturbed(s: State, acts: seq<Action>, q: nat, ch: Chan)
    requires q < |s.procs|
    decreases |acts|
  {
    || acts == []
    || (Enabled(s, acts[0]) && !Wakens(s, acts[0], ch) && !Hits(s, acts[0], q) && q < |Do(s, acts[0]).procs|
        && Undisturbed(Do(s, acts[0]), acts[1..], q, ch))
  }

  /** Some step of the run puts q to sleep on ch, and the rest of it leaves q undisturbed. */
  ghost predicate SleepsSince(s: State, acts: seq<Action>, q: nat, ch: Chan)
    requires q < |s.procs|
    decreases |acts|
  {
    && acts != [] && Enabled(s, acts[0]) && q < |Do(s, acts[0]).procs|
    && (SleepsSince(Do(s, acts[0]), acts[1..], q, ch)
        || (FallsAsleep(s, acts[0], q, ch) && Undisturbed(Do(s, acts[0]), acts[1..], q, ch)))
  }

  /** Over every run: a slot sleeps on ch exactly if it was put to sleep on ch and no wakeup of ch
      and no kill() that found it has come since. */
  lemma {:induction false} SleepsUntil(s: State, acts: seq<Action>, t: State, q: nat, ch: Chan)
    requires Inv(s) && Runs(s, acts, t) && q < |s.procs|
    ensures q < |t.procs|
    ensures AsleepOn(t.procs[q], ch) <==>
      SleepsSince(s, acts, q, ch) || (AsleepOn(s.procs[q], ch) && Undisturbed(s, acts, q, ch))
    ensures t.procs[q].state == SLEEPING && (s.procs[q].state == SLEEPING ==> s.procs[q].chan.Some?) ==>
      t.procs[q].chan.Some?
    decreases |acts|
  {
    hide Inv, Enabled, Do, Wakens, Hits, FallsAsleep, AsleepOn;
    if acts != [] {
      AsleepExactly(s, acts[0], q, ch);
      StepKeeps(s, acts[0]);
      SleepsUntil(Do(s, acts[0]), acts[1..], t, q, ch);
    }
  }

  /** So, from boot: a sleeper has a channel, went to sleep on it in the run, and no kill() has
      found it since, whether it is marked killed or not. */
  lemma SleeperUnhit(s: State, acts: seq<Action>, t: State, q: nat)
    requires Boot(s) && Runs(s, acts, t) && q < |s.procs| && q < |t.procs| && t.procs[q].state == SLEEPING
    ensures t.procs[q].chan.Some? && SleepsSince(s, acts, q, t.procs[q].chan.value)
  {
    hide Inv, Runs, SleepsSince, Undisturbed;
    BootInv(s);
    SleepsUntil(s, acts, t, q, OfProc(0));
    SleepsUntil(s, acts, t, q, t.procs[q].chan.value);
  }

  // ------------------------------------------------------------ pids

  /** Every pid has been given out, and to one slot only; 0 is that of slots wait() freed and of
      slots never used. */
  ghost predicate Pids(s: State) {
    && s.nextpid > 0 && (forall p :: 0 <= p < |s.procs| ==> 0 <= s.procs[p].pid < s.nextpid)
    && forall p, q :: 0 <= p < |s.procs| && 0 <= q < |s.procs| && p != q && s.procs[p].pid == s.procs[q].pid ==>
         s.procs[p].pid == 0
  }

  /** allocproc() numbers a slot, wait() takes its number away, and nothing else touches pids. */
  lemma PidMoves(s: State, a: Action, q: nat)
    requires Enabled(s, a) && q < |s.procs|
    ensures q < |Do(s, a).procs|
    ensures Do(s, a).procs[q].pid ==
      if Allocates(s, a, q) then s.nextpid else if Reaps(s, a, q) then 0 else s.procs[q].pid
    ensures Do(s, a).nextpid ==
      if a.Body? && At(s, a.c).op == Alloc && a.pick.Some? then s.nextpid + 1 else s.nextpid
  {
    hide Section, Matches, BodyEnabled, Called;
    if a.Body? {
      SectionPids(s, Me(s, a.c), At(s, a.c).op, a.pick, q);
    }
  }

  lemma SectionPids(s: State, p: nat, op: Op, pick: Option<nat>, q: nat)
    requires p < |s.procs| && q < |s.procs| && BodyEnabled(s, p, op, pick)
    ensures var t := Section(s, p, op, pick);
      && t.procs[q].pid ==
           (if op == Alloc && pick == Some(q) then s.nextpid
            else if op == Wait && pick == Some(q) then 0 else s.procs[q].pid)
      && t.nextpid == if op == Alloc && pick.Some? then s.nextpid + 1 else s.nextpid
  {
    hide AfterExit, HasKids, HasZombie, Matches;
    if op == Exit {
      ExitPids(s.procs, p, q);
    }
  }

  lemma ExitPids(ps: seq<Proc>, p: nat, q: nat)
    requires p < |ps| && q < |ps|
    ensures AfterExit(ps, p)[q].pid == ps[q].pid
  {
    hide Orphaned, Disturbed;
    OrphanedSlot(ps, p, q);
  }

  lemma SameCount(s: State, a: Action)
    requires Enabled(s, a)
    ensures |Do(s, a).procs| == |s.procs|
  {
    hide Section, BodyEnabled, Called;
  }

  lemma OneSlot(s: State, a: Action, p: nat, q: nat)
    requires Enabled(s, a) && p != q
    ensures !(Allocates(s, a, p) && Allocates(s, a, q))
    ensures Allocates(s, a, p) ==> a.Body? && At(s, a.c).op == Alloc && a.pick.Some?
  {
  }

  lemma PidsKept(s: State, a: Action)
    requires Pids(s) && Enabled(s, a)
    ensures Pids(Do(s, a)) && |Do(s, a).procs| == |s.procs|
  {
    hide Enabled, Do, Reaps, Allocates;
    SameCount(s, a);
    var t := Do(s, a);
    forall p, q | 0 <= p < |s.procs| && 0 <= q < |s.procs| && p != q
      ensures t.procs[p].pid == t.procs[q].pid ==> t.procs[p].pid == 0
    {
      PidMoves(s, a, p);
      PidMoves(s, a, q);
      OneSlot(s, a, p, q);
    }
    forall p | 0 <= p < |s.procs|
      ensures 0 <= t.procs[p].pid < t.nextpid
    {
      PidMoves(s, a, p);
      OneSlot(s, a, p, p + 1);
    }
    if |s.procs| == 0 {
      NoSlots(s, a);
    } else {
      PidMoves(s, a, 0);
    }
  }

  lemma NoSlots(s: State, a: Action)
    requires Enabled(s, a) && |s.procs| == 0
    ensures Do(s, a).nextpid == s.nextpid
  {
  }

  /** In every run from boot, with the slots but init's numbered 0: no two slots have the same pid
      other than 0, free ones with the pid of a failed fork included. So a kill() finds one
      slot at most. */
  lemma {:induction false} OnePerPid(s: State, acts: seq<Action>, t: State)
    requires Pids(s) && Runs(s, acts, t)
    ensures Pids(t) && |t.procs| == |s.procs|
    decreases |acts|
  {
    hide Enabled, Do, Pids;
    if acts != [] {
      PidsKept(s, acts[0]);
      OnePerPid(Do(s, acts[0]), acts[1..], t);
    }
  }
}
