/** The loops of proc.c over the process table, each against the function the step
    relation of module Sched uses for it. All run under ptable.lock. */
module ProcTable {
  import opened Common
  import opened Sched

  /** A slot after wakeup1. */
  function Stirred(q: Proc, chan: Chan): Proc {
    if q.state == SLEEPING && q.chan == Some(chan) then q.(state := RUNNABLE) else q
  }

  /** A slot of exit()'s table with its loop at slot i: init woken if a zombie child was
      met, the parent changed if the slot is behind. */
  function HandedOver(q: Proc, p: nat, woke: bool, behind: bool): Proc {
    var x := if woke then Stirred(q, OfProc(0)) else q;
    if behind && x.parent == Some(p) then x.(parent := Some(0)) else x
  }

  predicate ZombieBelow(ps: seq<Proc>, p: nat, i: nat)
    requires i <= |ps|
  {
    exists j :: 0 <= j < i && ps[j].parent == Some(p) && ps[j].state == ZOMBIE
  }

  /** What wait() finds. */
  datatype Found = Child(q: nat, pid: int) | Nobody | Sleeps

  class Table {
    var procs: array<Proc>

    /** wakeup1. */
    method Wakeup1(chan: Chan)
      modifies procs
      ensures procs[..] == Wake(old(procs[..]), chan)
      ensures forall i :: 0 <= i < procs.Length ==> procs[i] == old(procs[i]).(state := procs[i].state)
      ensures forall i :: 0 <= i < procs.Length ==>
        var x := old(procs[i]);
        procs[i].state == if x.state == SLEEPING && x.chan == Some(chan) then RUNNABLE else x.state
    {
      var i := 0;
      while i < procs.Length
        invariant 0 <= i <= procs.Length
        invariant forall j :: 0 <= j < i ==> procs[j] == Stirred(old(procs[j]), chan)
        invariant forall j :: i <= j < procs.Length ==> procs[j] == old(procs[j])
      {
        if procs[i].state == SLEEPING && procs[i].chan == Some(chan) {
          procs[i] := procs[i].(state := RUNNABLE);
        }
        i := i + 1;
      }
    }

    /** exit()'s loop: the children of p go to init, which is woken for each zombie. */
    method Disinherit(p: nat)
      modifies procs
      ensures procs[..] == Handed(old(procs[..]), p, procs.Length)
    {
      ghost var a := procs[..];
      HandedNone(a, p);
      hide Handed, Wake;
      var i := 0;
      while i < procs.Length
        invariant 0 <= i <= procs.Length && |a| == procs.Length && procs[..] == Handed(a, p, i)
      {
        HandedNext(a, p, i);
        assert procs[..][i] == procs[i];
        if procs[i].parent == Some(p) {
          procs[i] := procs[i].(parent := Some(0));
          assert procs[..] == Handed(a, p, i)[i := Handed(a, p, i)[i].(parent := Some(0))];
          if procs[i].state == ZOMBIE {
            Wakeup1(OfProc(0));
          }
        }
        i := i + 1;
      }
    }

    /** exit()'s critical section. */
    method Exit(p: nat)
      requires p < procs.Length
      modifies procs
      ensures procs[..] == AfterExit(old(procs[..]), p)
      ensures procs[p].state == ZOMBIE
      ensures forall i :: 0 <= i < procs.Length && i != p ==> Left(old(procs[..]), p, old(procs[i]), procs[i])
      ensures forall i :: 0 <= i < procs.Length && old(procs[i]).parent == Some(p) ==> procs[i].parent == Some(0)
    {
      ghost var ps := procs[..];
      if procs[p].parent.Some? {
        Wakeup1(OfProc(procs[p].parent.value));
      }
      HandedAll(procs[..], p);
      hide Handed, Wake, Reparent, HasZombie, Disturbed;
      Disinherit(p);
      assert procs[..] == Orphaned(ps, p);
      procs[p] := procs[p].(state := ZOMBIE, at := Leaving(Gone));
      assert forall i :: 0 <= i < procs.Length ==> procs[..][i] == procs[i] && old(procs[i]) == ps[i];
      forall i | 0 <= i < procs.Length
        ensures i != p ==> Left(ps, p, ps[i], procs[i])
        ensures i == p ==> procs[i].state == ZOMBIE
        ensures procs[i].parent == if ps[i].parent == Some(p) then Some(0) else ps[i].parent
      {
        ExitSlot(ps, p, i);
      }
      hide AfterExit;
    }

    /** One turn of wait()'s outer loop: a zombie child is freed and its pid returned; or
        there is no child, or the caller was killed; or it sleeps. */
    method Wait(p: nat) returns (r: Found)
      requires p < procs.Length && procs[p].state != ZOMBIE
      modifies procs
      ensures r.Child? <==> HasZombie(old(procs[..]), p)
      ensures r.Child? ==> r.q < procs.Length && r.q != p && old(procs[r.q]).parent == Some(p)
      ensures r.Child? ==> old(procs[r.q]).state == ZOMBIE && r.pid == old(procs[r.q]).pid
      ensures r.Child? ==>
        forall j :: 0 <= j < r.q ==> !(old(procs[j]).parent == Some(p) && old(procs[j]).state == ZOMBIE)
      ensures r.Child? ==> procs[..] == old(procs[..])[r.q := Reaped(old(procs[r.q]))]
      ensures r.Child? ==> procs[r.q].state == UNUSED && procs[r.q].pid == 0 && procs[r.q].parent == None
      ensures r.Child? ==> !procs[r.q].kstack && !procs[r.q].killed
      ensures !r.Child? ==> procs[..] == old(procs[..])
      ensures !r.Child? ==> (r.Nobody? <==> !HasKids(procs[..], p) || procs[p].killed)
    {
      var havekids := false;
      var i := 0;
      while i < procs.Length
        invariant 0 <= i <= procs.Length && procs[..] == old(procs[..])
        invariant havekids <==> exists j :: 0 <= j < i && procs[j].parent == Some(p)
        invariant forall j :: 0 <= j < i ==> !(procs[j].parent == Some(p) && procs[j].state == ZOMBIE)
      {
        if procs[i].parent == Some(p) {
          havekids := true;
          if procs[i].state == ZOMBIE {
            var pid := procs[i].pid;
            assert procs[..][i] == old(procs[..])[i];
            procs[i] := procs[i].(kstack := false, at := Nowhere);
            procs[i] := procs[i].(state := UNUSED, pid := 0, parent := None, killed := false);
            return Child(i, pid);
          }
        }
        i := i + 1;
      }
      assert forall j :: 0 <= j < procs.Length ==> procs[..][j] == procs[j];
      if !havekids || procs[p].killed {
        return Nobody;
      }
      return Sleeps;
    }

    /** kill: the first slot with that pid is marked and, if it slept, RUNNABLE; no other slot
        changes, and nothing at all if no slot has the pid. */
    method Kill(pid: int) returns (r: int, ghost at: nat)
      modifies procs
      ensures procs[..] == Killed(old(procs[..]), pid)
      ensures r == 0 <==> exists i :: 0 <= i < procs.Length && old(procs[i]).pid == pid
      ensures r == 0 ==> at < procs.Length && old(procs[at]).pid == pid
      ensures r == 0 ==> forall i :: 0 <= i < at ==> old(procs[i]).pid != pid
      ensures r == 0 ==> procs[at].killed && procs[at].state != SLEEPING
      ensures r == 0 && old(procs[at]).state == SLEEPING ==> procs[at].state == RUNNABLE
      ensures r == 0 && old(procs[at]).state != SLEEPING ==> procs[at].state == old(procs[at]).state
      ensures r == 0 ==> procs[at] == old(procs[at]).(killed := true, state := procs[at].state)
      ensures forall i :: 0 <= i < procs.Length && !(r == 0 && i == at) ==> procs[i] == old(procs[i])
    {
      var i := 0;
      while i < procs.Length
        invariant 0 <= i <= procs.Length && procs[..] == old(procs[..])
        invariant forall j :: 0 <= j < i ==> procs[j].pid != pid
      {
        if procs[i].pid == pid {
          assert procs[..][i] == old(procs[..])[i];
          assert forall j :: 0 <= j < i ==> old(procs[..])[j].pid != pid;
          procs[i] := procs[i].(killed := true);
          if procs[i].state == SLEEPING {
            procs[i] := procs[i].(state := RUNNABLE);
          }
          return 0, i;
        }
        i := i + 1;
      }
      assert forall j :: 0 <= j < procs.Length ==> procs[..][j] == procs[j];
      return -1, 0;
    }

    /** allocproc's search: the first free slot, now an embryo. */
    method Alloc(nextpid: int) returns (r: Option<nat>)
      modifies procs
      ensures r.Some? ==> r.value < procs.Length && old(procs[r.value]).state == UNUSED
      ensures r.Some? ==> (forall j :: 0 <= j < r.value ==> old(procs[j]).state != UNUSED)
      ensures r.Some? ==> procs[..] == old(procs[..])[r.value := old(procs[r.value]).(state := EMBRYO, pid := nextpid)]
      ensures r.None? ==> procs[..] == old(procs[..]) && forall i :: 0 <= i < procs.Length ==> procs[i].state != UNUSED
    {
      var i := 0;
      while i < procs.Length
        invariant 0 <= i <= procs.Length && procs[..] == old(procs[..])
        invariant forall j :: 0 <= j < i ==> procs[j].state != UNUSED
      {
        if procs[i].state == UNUSED {
          assert procs[..][i] == old(procs[..])[i];
          assert forall j :: 0 <= j < i ==> old(procs[..])[j].state != UNUSED;
          procs[i] := procs[i].(state := EMBRYO, pid := nextpid);
          return Some(i);
        }
        i := i + 1;
      }
      return None;
    }
  }

  /** p's exit wakes this slot: it sleeps on the parent of p, or on init and p has a zombie child. */
  predicate Disturbed(ps: seq<Proc>, p: nat, q: Proc)
    requires p < |ps|
  {
    && q.state == SLEEPING && q.chan.Some? && q.chan.value.OfProc?
    && (ps[p].parent == Some(q.chan.value.p) || (q.chan.value.p == 0 && HasZombie(ps, p)))
  }

  /** A slot after another process's exit. */
  ghost predicate Left(ps: seq<Proc>, p: nat, x: Proc, y: Proc)
    requires p < |ps|
  {
    && y == x.(parent := y.parent, state := y.state)
    && y.parent == (if x.parent == Some(p) then Some(0) else x.parent)
    && y.state == if Disturbed(ps, p, x) then RUNNABLE else x.state
  }

  lemma WakeAt(ps: seq<Proc>, ch: Chan, i: nat)
    requires i < |ps|
    ensures Wake(ps, ch)[i] == Stirred(ps[i], ch)
  {
  }

  lemma ReparentAt(ps: seq<Proc>, p: nat, i: nat)
    requires i < |ps|
    ensures Reparent(ps, p)[i] == if ps[i].parent == Some(p) then ps[i].(parent := Some(0)) else ps[i]
  {
  }

  lemma OrphanedSlot(ps: seq<Proc>, p: nat, i: nat)
    requires p < |ps| && i < |ps|
    ensures Left(ps, p, ps[i], Orphaned(ps, p)[i])
  {
    hide HasZombie, Wake, Reparent;
    var a := ps;
    if ps[p].parent.Some? {
      a := Wake(ps, OfProc(ps[p].parent.value));
      WakeZombie(ps, OfProc(ps[p].parent.value), p);
      WakeAt(ps, OfProc(ps[p].parent.value), i);
    }
    WakeAt(a, OfProc(0), i);
    ReparentAt(if HasZombie(a, p) then Wake(a, OfProc(0)) else a, p, i);
  }

  lemma ExitSlot(ps: seq<Proc>, p: nat, i: nat)
    requires p < |ps| && i < |ps|
    ensures i != p ==> Left(ps, p, ps[i], AfterExit(ps, p)[i])
    ensures i == p ==> AfterExit(ps, p)[i].state == ZOMBIE
    ensures AfterExit(ps, p)[i].parent == if ps[i].parent == Some(p) then Some(0) else ps[i].parent
  {
    hide Orphaned, Disturbed;
    OrphanedSlot(ps, p, i);
  }

  lemma NextBelow(ps: seq<Proc>, p: nat, i: nat)
    requires i < |ps|
    ensures ZombieBelow(ps, p, i + 1) <==> ZombieBelow(ps, p, i) || (ps[i].parent == Some(p) && ps[i].state == ZOMBIE)
  {
  }

  lemma WholeBelow(ps: seq<Proc>, p: nat)
    ensures ZombieBelow(ps, p, |ps|) <==> HasZombie(ps, p)
  {
  }

  /** The table with exit()'s loop at slot i. */
  function Handed(a: seq<Proc>, p: nat, i: nat): (r: seq<Proc>)
    requires i <= |a|
    ensures |r| == |a|
  {
    seq(|a|, j requires 0 <= j < |a| => HandedOver(a[j], p, ZombieBelow(a, p, i), j < i))
  }

  lemma HandedNone(a: seq<Proc>, p: nat)
    ensures Handed(a, p, 0) == a
  {
  }

  lemma HandedNext(a: seq<Proc>, p: nat, i: nat)
    requires i < |a|
    ensures var b := Handed(a, p, i); var c := b[i := b[i].(parent := Some(0))];
      Handed(a, p, i + 1) ==
        if b[i].parent != Some(p) then b else if b[i].state == ZOMBIE then Wake(c, OfProc(0)) else c
  {
    NextBelow(a, p, i);
    hide ZombieBelow;
    var b := Handed(a, p, i);
    var c := b[i := b[i].(parent := Some(0))];
    var d := Handed(a, p, i + 1);
    var e := if b[i].parent != Some(p) then b else if b[i].state == ZOMBIE then Wake(c, OfProc(0)) else c;
    forall j | 0 <= j < |a|
      ensures d[j] == e[j]
    {
    }
  }

  lemma HandedAll(a: seq<Proc>, p: nat)
    ensures Handed(a, p, |a|) == Reparent(if HasZombie(a, p) then Wake(a, OfProc(0)) else a, p)
  {
    WholeBelow(a, p);
  }
}
