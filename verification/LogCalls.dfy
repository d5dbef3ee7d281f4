/** log.c's calls, run to their end, as steps of module LogRun: what the methods of class Log do
    to the disk, the pinned buffers and the fields is what whole runs are made of. */
module LogCalls {
  import opened Common
  import opened LogDisk
  import opened LogRun
  import opened Log

  /** The fields of the log are those of the run's state. */
  ghost predicate Shows(log: Log, s: State)
    reads log, log.block
  {
    && log.Valid() && log.disk == s.disk && log.cache == s.cache && log.Lh() == s.lh
    && log.outstanding == s.outstanding && log.committing == s.committing
  }

  function Repeat(a: Action, k: nat): (r: seq<Action>)
    ensures |r| == k
  {
    seq(k, _ => a)
  }

  lemma Repeated(acts: seq<Action>, a: Action, k: nat)
    ensures acts + Repeat(a, 0) == acts && acts + Repeat(a, k + 1) == acts + Repeat(a, k) + [a]
  {
  }

  /** The state after the first k writes of the commit that s has just begun. */
  function Committed(s: State, k: nat, now: Store): State
    requires s.phase.Committing?
  {
    s.(disk := now.disk, cache := now.cache, phase := Committing(s.phase.from, s.phase.pins, k),
       cut := if k > |s.lh| then |s.trace| else s.cut)
  }

  lemma {:induction false} CommitWrites(l: Layout, d0: Disk, acts: seq<Action>, s: State, k: nat, now: Store)
    requires Exec(l, d0, acts) == Some(s) && s.phase.Committing? && s.phase.k == 0 && k <= CommitLen(s.lh)
    requires Steps(l, s.lh, Store(s.disk, s.cache), 0, k) == Some(now)
    ensures Exec(l, d0, acts + Repeat(CommitWrite, k)) == Some(Committed(s, k, now))
  {
    hide Exec, CanWrite, Write;
    Repeated(acts, CommitWrite, k);
    if k == 0 {
    } else {
      Repeated(acts, CommitWrite, k - 1);
      var was := Steps(l, s.lh, Store(s.disk, s.cache), 0, k - 1).value;
      CommitWrites(l, d0, acts, s, k - 1, was);
      Extend(l, d0, acts + Repeat(CommitWrite, k - 1), CommitWrite);
    }
  }

  /** The state after the first k writes of the recovery that s has just begun. */
  function Recovered(s: State, k: nat, now: Store): State
    requires s.phase.Recovering?
  {
    s.(disk := now.disk, cache := now.cache, phase := Recovering(s.phase.from, k))
  }

  lemma {:induction false} RecoverWrites(l: Layout, d0: Disk, acts: seq<Action>, s: State, k: nat, now: Store)
    requires Exec(l, d0, acts) == Some(s) && s.phase.Recovering? && s.phase.k == 0 && Loads(l, s.phase.from)
    requires var h := Header(l, s.phase.from);
      k <= |h| + 1 && Steps(l, h, Store(s.disk, s.cache), |h| + 1, |h| + 1 + k) == Some(now)
    ensures Exec(l, d0, acts + Repeat(RecoverWrite, k)) == Some(Recovered(s, k, now))
  {
    hide Exec, CanWrite, Write, Loads, Header;
    Repeated(acts, RecoverWrite, k);
    if k == 0 {
    } else {
      var h := Header(l, s.phase.from);
      Repeated(acts, RecoverWrite, k - 1);
      var was := Steps(l, h, Store(s.disk, s.cache), |h| + 1, |h| + 1 + (k - 1)).value;
      RecoverWrites(l, d0, acts, s, k - 1, was);
      Extend(l, d0, acts + Repeat(RecoverWrite, k - 1), RecoverWrite);
    }
  }

  /** begin_op is let in exactly if the run can take the step, and takes it. */
  method BeginCall(log: Log, ghost s: State, ghost op: nat) returns (admitted: bool)
    requires Shows(log, s) && s.phase.Running? && op !in s.left
    modifies log`outstanding
    ensures admitted <==> Enabled(log.l, s, BeginOp(op))
    ensures Shows(log, if admitted then Do(log.l, s, BeginOp(op)) else s)
  {
    admitted := log.BeginOp();
  }

  /** log_write of a buffer that its call holds is the two steps of the run, one after the other,
      or its panic, exactly if the run cannot take the first. */
  method WriteCall(log: Log, ghost s: State, ghost op: nat, at: nat, data: Block) returns (r: Outcome)
    requires Shows(log, s) && Inv(log.l, s) && s.phase.Running? && op in s.left && op !in s.checked && log.l.Home(at)
    requires at !in s.checked.Values && Gets(log.l, Store(s.disk, s.cache), at, Busy(s.cache, s.checked))
    modifies log`n, log`cache, log.block
    ensures r.Done? <==> Enabled(log.l, s, CheckLog(op, at))
    ensures r.Done? ==> Enabled(log.l, Do(log.l, s, CheckLog(op, at)), LogWrite(op, at, data))
    ensures Shows(log, if r.Done? then Do(log.l, Do(log.l, s, CheckLog(op, at)), LogWrite(op, at, data)) else s)
  {
    r := log.LogWrite(at, data);
  }

  lemma HeaderApart(l: Layout, s: State)
    requires Inv(l, s) && s.phase.Running?
    ensures !s.committing && l.start !in s.cache && forall i :: 0 <= i < |s.lh| ==> s.lh[i] != l.start
  {
    hide InvHistory;
  }

  /** end_op of call op: its step; and, if it is the last, the writes of the commit, one step each,
      and the step that ends it. If the commit stops, the run can go no further with it. */
  method EndCall(log: Log, ghost d0: Disk, ghost acts: seq<Action>, ghost op: nat)
    returns (ok: bool, ghost more: seq<Action>)
    requires Loads(log.l, d0) && Exec(log.l, d0, acts).Some? && Shows(log, Exec(log.l, d0, acts).value)
    requires Enabled(log.l, Exec(log.l, d0, acts).value, EndOp(op))
    modifies log
    ensures more != [] && more[0] == EndOp(op) && Exec(log.l, d0, acts + more).Some?
    ensures ok ==> Shows(log, Exec(log.l, d0, acts + more).value) && Exec(log.l, d0, acts + more).value.phase.Running?
    ensures !ok ==>
      var t := Exec(log.l, d0, acts + more).value;
      && log.disk == t.disk && log.cache == t.cache && t.phase.Committing? && t.phase.k < CommitLen(t.lh)
      && !Enabled(log.l, t, CommitWrite)
  {
    hide Exec, Steps, CanWrite, LogDisk.Write, Trails, CommitTrail, CommitAt, Pinned, Committable, Inv, Loads;
    ghost var l, s := log.l, Exec(log.l, d0, acts).value;
    RunShape(l, d0, acts);
    HeaderApart(l, s);
    assert forall j :: 0 <= j < log.n ==> log.block[j] == log.Lh()[j];
    var committed;
    ghost var k;
    committed, ok, k := log.EndOp();
    Extend(l, d0, acts, EndOp(op));
    more := [EndOp(op)];
    if s.outstanding == 1 {
      ghost var now := log.St();
      ghost var begun := acts + [EndOp(op)];
      CommitWrites(l, d0, begun, Exec(l, d0, begun).value, k, now);
      ghost var writes := Repeat(CommitWrite, k);
      more := [EndOp(op)] + writes;
      assert begun + writes == acts + more;
      if ok {
        Extend(l, d0, acts + more, CommitDone);
        assert acts + more + [CommitDone] == acts + (more + [CommitDone]);
        more := more + [CommitDone];
      }
    }
  }

  /** recover_from_log after a crash: the header, the writes, one step each, and the end. If it
      stops, the run can go no further. */
  method RecoverCall(log: Log, ghost d0: Disk, ghost acts: seq<Action>) returns (ok: bool, ghost more: seq<Action>)
    requires Loads(log.l, d0) && Exec(log.l, d0, acts).Some? && Exec(log.l, d0, acts).value.phase.Down?
    requires log.Valid() && log.disk == Exec(log.l, d0, acts).value.disk && log.cache == map[]
    requires log.outstanding == 0 && !log.committing
    modifies log, log.block
    ensures more != [] && more[0] == ReadHead && Exec(log.l, d0, acts + more).Some?
    ensures ok ==> Shows(log, Exec(log.l, d0, acts + more).value) && Exec(log.l, d0, acts + more).value.phase.Running?
    ensures !ok ==>
      var t := Exec(log.l, d0, acts + more).value;
      && log.disk == t.disk && log.cache == t.cache && t.phase.Recovering?
      && !Enabled(log.l, t, RecoverWrite) && !Enabled(log.l, t, RecoverDone)
  {
    hide Exec, Steps, CanWrite, LogDisk.Write, Trails, RecoverTrail, Recover, Clean, Loads, ValidHead, Header, Inv,
      HeadN, Fits;
    ghost var l, s := log.l, Exec(log.l, d0, acts).value;
    RunShape(l, d0, acts);
    DownLoads(l, s);
    ghost var h := Header(l, s.disk);
    ghost var k;
    ok, k := log.RecoverFromLog();
    Extend(l, d0, acts, ReadHead);
    ghost var begun := acts + [ReadHead];
    ghost var writes := Repeat(RecoverWrite, k - (|h| + 1));
    RecoverWrites(l, d0, begun, Exec(l, d0, begun).value, k - (|h| + 1), log.St());
    more := [ReadHead] + writes;
    assert begun + writes == acts + more;
    if ok {
      Extend(l, d0, acts + more, RecoverDone);
      assert acts + more + [RecoverDone] == acts + (more + [RecoverDone]);
      more := more + [RecoverDone];
    }
  }

  lemma DownLoads(l: Layout, s: State)
    requires Inv(l, s) && s.phase.Down?
    ensures Loads(l, s.disk) && s.cache == map[] && s.lh == [] && s.left == map[] && s.outstanding == 0 && !s.committing
  {
  }
}
