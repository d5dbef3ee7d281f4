/** Whole runs of log.c: begin_op, log_write, end_op, commits and crashes in any
    order and any number, one atomic step at a time. A call may log_write as often as it
    likes, and end_op commits whatever there is, whether it fits the log area or not.

    log_write is two steps, as in the source: its panic tests read lh.n before
    the lock is taken, so other calls may append between the test and the append. */
module LogRun {
  import opened Common
  import opened LogDisk
  import opened Sums

  /** What the file-system calls did, in order. */
  datatype Event = Began(op: nat) | Wrote(op: nat, at: nat, data: Block) | Ended(op: nat)

  /** Committing and Recovering carry what they started from and how many of their block
      writes are on the disk. Smashed: log_write has stored past the end of lh.block, over
      whatever lies there; nothing is said about what the kernel does afterwards. */
  datatype Phase =
    | Running
    | Committing(from: Disk, pins: map<nat, Block>, k: nat)
    | Down
    | Recovering(from: Disk, k: nat)
    | Smashed

  /** `cache` holds the buffers pinned by log_write; `left` the unused part of each
      outstanding call's reservation; `checked` the calls between log_write's tests and its
      append, with the block whose busy buffer they hold. `trace`, `cut` and `acked` are
      history: the surviving events, how many of them are durable, and how many a returned commit covers. */
  datatype State = State(
    disk: Disk, phase: Phase, lh: seq<nat>, cache: map<nat, Block>,
    outstanding: int, committing: bool,
    left: map<nat, nat>, checked: map<nat, nat>,
    trace: seq<Event>, cut: nat, acked: nat)

  datatype Action =
    | BeginOp(op: nat) | CheckLog(op: nat, at: nat) | LogWrite(op: nat, at: nat, data: Block) | EndOp(op: nat)
    | CommitWrite | CommitDone
    | Crash | ReadHead | RecoverWrite | RecoverDone

  /** begin_op goes on (instead of sleeping) when the log has room for one more call. */
  predicate Admits(n: nat, outstanding: int) {
    n + (outstanding + 1) * MAXOPBLOCKS <= LOGSIZE
  }

  /** log_write's first panic. */
  predicate TooBig(l: Layout, n: nat) {
    n >= LOGSIZE || n >= l.size - 1
  }

  /** Log absorption: a block already in the transaction keeps its entry. */
  function Absorb(lh: seq<nat>, b: nat): seq<nat> {
    if b in lh then lh else lh + [b]
  }

  /** The value of block b after the events. */
  function Replay(d0: Disk, t: seq<Event>, b: nat): Block
    requires b < |d0|
  {
    if t == [] then d0[b]
    else
      var e := t[|t| - 1];
      if e.Wrote? && e.at == b then e.data else Replay(d0, t[..|t| - 1], b)
  }

  /** The calls begun and not ended. */
  function Open(t: seq<Event>): set<nat> {
    if t == [] then {} else OpenAfter(Open(t[..|t| - 1]), t[|t| - 1])
  }

  function OpenAfter(o: set<nat>, e: Event): set<nat> {
    match e
    case Began(op) => o + {op}
    case Ended(op) => o - {op}
    case Wrote(_, _, _) => o
  }

  /** How many buffers calls in log_write hold for blocks that are not pinned. */
  function Busy(cache: map<nat, Block>, checked: map<nat, nat>): nat {
    |checked.Values - cache.Keys|
  }

  predicate Enabled(l: Layout, s: State, a: Action) {
    match a
    case BeginOp(op) => s.phase.Running? && op !in s.left && !s.committing && Admits(|s.lh|, s.outstanding)
    case CheckLog(op, at) =>
      && s.phase.Running? && op in s.left && op !in s.checked && !TooBig(l, |s.lh|) && s.outstanding >= 1
      && l.Home(at) && at !in s.checked.Values && Gets(l, Store(s.disk, s.cache), at, Busy(s.cache, s.checked))
    case LogWrite(op, at, _) => s.phase.Running? && op in s.checked && s.checked[op] == at && op in s.left && l.Home(at)
    case EndOp(op) => s.phase.Running? && op in s.left && op !in s.checked
    case CommitWrite =>
      s.phase.Committing? && s.phase.k < CommitLen(s.lh) && CanWrite(l, s.lh, Store(s.disk, s.cache), s.phase.k)
    case CommitDone => s.phase.Committing? && s.phase.k == CommitLen(s.lh)
    case Crash => !s.phase.Smashed? && s.cut <= |s.trace|
    case ReadHead => s.phase.Down? && Loads(l, s.disk)
    case RecoverWrite =>
      && s.phase.Recovering? && Loads(l, s.phase.from) && s.phase.k <= |Header(l, s.phase.from)|
      && CanWrite(l, Header(l, s.phase.from), Store(s.disk, s.cache), |Header(l, s.phase.from)| + 1 + s.phase.k)
    case RecoverDone =>
      s.phase.Recovering? && Loads(l, s.phase.from) && s.phase.k == |Header(l, s.phase.from)| + 1
  }

  /** One append: log absorption, the pin, and one unit of the call's reservation, if it has
      any left. */
  function Appended(s: State, op: nat, at: nat, data: Block): State
    requires op in s.left
  {
    s.(lh := Absorb(s.lh, at), cache := s.cache[at := data],
       left := s.left[op := if s.left[op] > 0 then s.left[op] - 1 else 0], checked := s.checked - {op},
       trace := s.trace + [Wrote(op, at, data)])
  }

  /** A call's part of end_op. */
  function Ending(s: State, op: nat): State {
    s.(outstanding := s.outstanding - 1, left := s.left - {op}, trace := s.trace + [Ended(op)])
  }

  function Do(l: Layout, s: State, a: Action): State
    requires Enabled(l, s, a)
  {
    match a
    case BeginOp(op) =>
      s.(outstanding := s.outstanding + 1, left := s.left[op := MAXOPBLOCKS], trace := s.trace + [Began(op)])
    case CheckLog(op, at) => s.(checked := s.checked[op := at])
    case LogWrite(op, at, data) =>
      if at !in s.lh && |s.lh| >= LOGSIZE then s.(phase := Smashed) else Appended(s, op, at, data)
    case EndOp(op) =>
      if s.outstanding != 1 then Ending(s, op)
      else Ending(s, op).(committing := true, phase := Committing(s.disk, s.cache, 0))
    case CommitWrite =>
      var t := Write(l, s.lh, Store(s.disk, s.cache), s.phase.k);
      s.(disk := t.disk, cache := t.cache, phase := Committing(s.phase.from, s.phase.pins, s.phase.k + 1),
         cut := if s.phase.k == |s.lh| then |s.trace| else s.cut)
    case CommitDone =>
      s.(phase := Running, lh := [], committing := false, cut := |s.trace|, acked := |s.trace|)
    case Crash =>
      State(s.disk, Down, [], map[], 0, false, map[], map[], s.trace[..s.cut], s.cut, s.acked)
    case ReadHead =>
      s.(phase := Recovering(s.disk, 0))
    case RecoverWrite =>
      var h := Header(l, s.phase.from);
      var t := Write(l, h, Store(s.disk, s.cache), |h| + 1 + s.phase.k);
      s.(disk := t.disk, cache := t.cache, phase := Recovering(s.phase.from, s.phase.k + 1))
    case RecoverDone => s.(phase := Running)
  }

  function Boot(d0: Disk): State {
    State(d0, Down, [], map[], 0, false, map[], map[], [], 0, 0)
  }

  /** The state after the actions, if each was possible when its turn came. */
  function Exec(l: Layout, d0: Disk, acts: seq<Action>): Option<State> {
    if acts == [] then Some(Boot(d0))
    else
      match Exec(l, d0, acts[..|acts| - 1])
      case None => None
      case Some(s) => if Enabled(l, s, acts[|acts| - 1]) then Some(Do(l, s, acts[|acts| - 1])) else None
  }

  // ------------------------------------------------------------ invariants

  ghost predicate InvCalls(s: State) {
    && s.outstanding == |s.left|
    && s.checked.Keys <= s.left.Keys
    && (forall op :: op in s.left ==> s.left[op] <= MAXOPBLOCKS)
    && (s.committing <==> s.phase.Committing?)
    && (s.phase.Committing? || s.phase.Down? || s.phase.Recovering? ==> s.left == map[])
    && Open(s.trace) == s.left.Keys
  }

  ghost predicate InvHistory(s: State) {
    && s.acked <= s.cut <= |s.trace|
    && Open(s.trace[..s.cut]) == {}
    && (s.phase.Down? || s.phase.Recovering? ==> s.cut == |s.trace| && s.lh == [])
    && forall i :: 0 <= i < |s.trace| && s.trace[i].Wrote? ==> s.trace[i].op in Open(s.trace[..i])
  }

  /** The in-memory header is a list of home blocks without repetition, as long as the array
      at most, and a buffer is pinned exactly for each of them, until its home block is
      written. The header on the disk can be loaded. */
  ghost predicate InvShape(l: Layout, s: State) {
    && Loads(l, s.disk) && |s.lh| <= LOGSIZE && Distinct(s.lh)
    && (forall i :: 0 <= i < |s.lh| ==> l.Home(s.lh[i]))
    && match s.phase
       case Running => forall b :: b in s.cache <==> b in s.lh
       case Smashed => forall b :: b in s.cache <==> b in s.lh
       case Committing(d, pins, k) =>
         && (forall b :: b in pins <==> b in s.lh) && k <= CommitLen(s.lh)
         && Pinned(s.cache, s.lh[Installed(s.lh, k)..]) && (k == 0 ==> s.cache == pins && s.disk == d)
       case Down => s.cache == map[]
       case Recovering(d, k) => s.cache == map[] && Loads(l, d) && k <= |Header(l, d)| + 1
  }

  /** What every run keeps. */
  ghost predicate Inv(l: Layout, s: State) {
    InvCalls(s) && InvHistory(s) && InvShape(l, s)
  }

  ghost predicate Pending(l: Layout, d0: Disk, d: Disk, lh: seq<nat>, cache: map<nat, Block>, trace: seq<Event>)
    requires |d0| == l.nblocks
  {
    && Clean(l, d)
    && (forall i :: 0 <= i < |lh| ==> lh[i] in cache && l.Home(lh[i]))
    && forall b: nat :: l.Home(b) ==> Replay(d0, trace, b) == Target(d, lh, cache, b)
  }

  /** What the disk means; kept by runs whose commits fit the log area. */
  ghost predicate InvDisk(l: Layout, d0: Disk, s: State) {
    && l.Valid() && |d0| == l.nblocks && s.cut <= |s.trace|
    && ValidHead(l, s.disk)
    && (forall b: nat :: l.Home(b) ==> Meaning(l, s.disk, b) == Replay(d0, s.trace[..s.cut], b))
    && match s.phase
       case Running => Pending(l, d0, s.disk, s.lh, s.cache, s.trace)
       case Smashed => true
       case Committing(d, pins, k) =>
         && Pending(l, d0, d, s.lh, pins, s.trace)
         && (k == 0 ==> s.disk == d)
         && (k > 0 ==>
               && Committable(l, s.lh, pins) && Pinned(pins, s.lh) && |pins| < l.nbuf && k <= CommitLen(s.lh)
               && s.disk == CommitAt(l, d, s.lh, pins, k) && s.cache == PinsLeft(s.lh, pins, Installed(s.lh, k)))
       case Down => true
       case Recovering(d, k) =>
         ValidHead(l, d) && k <= HeadN(l, d) + 1 && s.disk == RecoverAt(l, d, k)
  }

  /** The unused reservations fit beside the transaction; kept by runs whose calls keep to
      theirs. */
  ghost predicate InvBooks(s: State) {
    |s.lh| + Sum(s.left) <= LOGSIZE
  }

  lemma OpenAppend(t: seq<Event>, e: Event)
    ensures (t + [e])[..|t|] == t
    ensures Open(t + [e]) == OpenAfter(Open(t), e)
  {
    assert (t + [e])[..|t|] == t;
  }

  lemma HistoryAppend(s: State, e: Event)
    requires InvHistory(s) && (e.Wrote? ==> e.op in Open(s.trace))
    ensures forall i :: 0 <= i < |s.trace + [e]| && (s.trace + [e])[i].Wrote? ==>
              (s.trace + [e])[i].op in Open((s.trace + [e])[..i])
    ensures (s.trace + [e])[..s.cut] == s.trace[..s.cut]
  {
    var t := s.trace + [e];
    forall i | 0 <= i < |t| && t[i].Wrote? ensures t[i].op in Open(t[..i]) {
      assert t[..i] == s.trace[..i];
      assert i == |s.trace| ==> s.trace[..i] == s.trace;
    }
    assert t[..s.cut] == s.trace[..s.cut];
  }

  // ------------------------------------------------------------ calls and history, in every run

  lemma BeginCalls(l: Layout, s: State, op: nat)
    requires InvCalls(s) && InvHistory(s) && Enabled(l, s, BeginOp(op))
    ensures var t := Do(l, s, BeginOp(op)); InvCalls(t) && InvHistory(t)
  {
    hide Open;
    OpenAppend(s.trace, Began(op));
    HistoryAppend(s, Began(op));
    assert s.left[op := MAXOPBLOCKS].Keys == s.left.Keys + {op};
    assert |s.left[op := MAXOPBLOCKS].Keys| == |s.left.Keys| + 1;
  }

  lemma WriteCalls(l: Layout, s: State, op: nat, at: nat, data: Block)
    requires InvCalls(s) && InvHistory(s) && Enabled(l, s, LogWrite(op, at, data))
    ensures var t := Do(l, s, LogWrite(op, at, data)); InvCalls(t) && InvHistory(t)
  {
    hide Open;
    OpenAppend(s.trace, Wrote(op, at, data));
    HistoryAppend(s, Wrote(op, at, data));
    var n := if s.left[op] > 0 then s.left[op] - 1 else 0;
    assert s.left[op := n].Keys == s.left.Keys;
    assert |s.left[op := n].Keys| == |s.left.Keys|;
  }

  lemma EndCalls(l: Layout, s: State, op: nat)
    requires InvCalls(s) && InvHistory(s) && Enabled(l, s, EndOp(op))
    ensures var t := Do(l, s, EndOp(op)); InvCalls(t) && InvHistory(t)
  {
    hide Open;
    OpenAppend(s.trace, Ended(op));
    HistoryAppend(s, Ended(op));
    assert (s.left - {op}).Keys == s.left.Keys - {op};
    assert |(s.left - {op}).Keys| == |s.left.Keys| - 1;
    assert s.outstanding == 1 ==> (s.left - {op}).Keys == {};
  }

  lemma CrashCalls(l: Layout, s: State)
    requires InvCalls(s) && InvHistory(s) && Enabled(l, s, Crash)
    ensures var t := Do(l, s, Crash); InvCalls(t) && InvHistory(t)
  {
    var t := Do(l, s, Crash);
    assert t.trace[..t.cut] == t.trace;
    forall i | 0 <= i < |t.trace| && t.trace[i].Wrote? ensures t.trace[i].op in Open(t.trace[..i]) {
      assert t.trace[..i] == s.trace[..i];
    }
  }

  /** Every step keeps the count of the calls and the shape of the history. */
  lemma CallsKept(l: Layout, s: State, a: Action)
    requires InvCalls(s) && InvHistory(s) && Enabled(l, s, a)
    ensures InvCalls(Do(l, s, a)) && InvHistory(Do(l, s, a))
  {
    hide CanWrite, Write, Loads, Gets, Busy, InvCalls, InvHistory;
    match a {
      case BeginOp(op) => BeginCalls(l, s, op);
      case LogWrite(op, at, data) => WriteCalls(l, s, op, at, data);
      case EndOp(op) => EndCalls(l, s, op);
      case Crash => CrashCalls(l, s);
      case CheckLog(op, at) => CheckCalls(l, s, op, at);
      case _ => RestCalls(l, s, a);
    }
  }

  lemma CheckCalls(l: Layout, s: State, op: nat, at: nat)
    requires InvCalls(s) && InvHistory(s) && Enabled(l, s, CheckLog(op, at))
    ensures var t := Do(l, s, CheckLog(op, at)); InvCalls(t) && InvHistory(t)
  {
    hide Open, Gets, Busy;
    assert s.checked[op := at].Keys == s.checked.Keys + {op};
  }

  lemma RestCalls(l: Layout, s: State, a: Action)
    requires InvCalls(s) && InvHistory(s) && Enabled(l, s, a)
    requires a.CommitWrite? || a.CommitDone? || a.ReadHead? || a.RecoverWrite? || a.RecoverDone?
    ensures InvCalls(Do(l, s, a)) && InvHistory(Do(l, s, a))
  {
    hide Open, CanWrite, Write, Loads;
    assert s.trace[..|s.trace|] == s.trace;
  }

  // ------------------------------------------------------------ header and pins, in every run

  lemma AbsorbKeeps(l: Layout, lh: seq<nat>, at: nat)
    requires Distinct(lh) && l.Home(at) && forall i :: 0 <= i < |lh| ==> l.Home(lh[i])
    ensures Distinct(Absorb(lh, at)) && (forall b :: b in Absorb(lh, at) <==> b in lh || b == at)
    ensures forall i :: 0 <= i < |Absorb(lh, at)| ==> l.Home(Absorb(lh, at)[i])
  {
  }

  /** A block write changes the header only when it is one of write_head's. */
  lemma WriteLoads(l: Layout, lh: seq<nat>, s: Store, k: nat)
    requires Loads(l, s.disk) && CanWrite(l, lh, s, k) && forall i :: 0 <= i < |lh| ==> l.Home(lh[i])
    ensures Loads(l, Write(l, lh, s, k).disk)
  {
    hide Turn, Gets;
    var d := Write(l, lh, s, k).disk;
    assert !l.Home(l.start);
    if k != |lh| && k != 2 * |lh| + 1 {
      assert d[l.start] == s.disk[l.start];
    }
  }

  lemma WritePins(l: Layout, lh: seq<nat>, s: Store, k: nat)
    requires CanWrite(l, lh, s, k) && Pinned(s.cache, lh[Installed(lh, k)..])
    ensures Pinned(Write(l, lh, s, k).cache, lh[Installed(lh, k + 1)..])
  {
    hide Turn, Gets, HeadBlock;
    var t := Write(l, lh, s, k);
    var m := Installed(lh, k);
    if |lh| < k <= 2 * |lh| {
      assert lh[m..] == [lh[m]] + lh[m + 1..];
    }
  }

  lemma CommitShape(l: Layout, s: State)
    requires InvShape(l, s) && Enabled(l, s, CommitWrite)
    ensures InvShape(l, Do(l, s, CommitWrite))
  {
    hide CanWrite, Write, Loads, Pinned, Distinct;
    WriteLoads(l, s.lh, Store(s.disk, s.cache), s.phase.k);
    WritePins(l, s.lh, Store(s.disk, s.cache), s.phase.k);
  }

  lemma NoPins(lh: seq<nat>, cache: map<nat, Block>, k: nat)
    requires Pinned(cache, lh[Installed(lh, k)..]) && k == CommitLen(lh)
    ensures cache == map[]
  {
    assert Installed(lh, k) == |lh|;
    assert cache.Keys == {};
  }

  lemma RecoverShape(l: Layout, s: State)
    requires InvShape(l, s) && Enabled(l, s, RecoverWrite)
    ensures InvShape(l, Do(l, s, RecoverWrite))
  {
    hide CanWrite, Loads, Pinned, Distinct, Turn, Gets, HeadBlock;
    var h := Header(l, s.phase.from);
    WriteLoads(l, h, Store(s.disk, s.cache), |h| + 1 + s.phase.k);
    assert Write(l, h, Store(s.disk, s.cache), |h| + 1 + s.phase.k).cache.Keys == {};
  }

  lemma BeginsCommit(lh: seq<nat>, cache: map<nat, Block>)
    requires forall b :: b in cache <==> b in lh
    ensures Pinned(cache, lh[Installed(lh, 0)..])
  {
    assert lh[0..] == lh;
  }

  /** Every step keeps the header and the pins in step. */
  lemma ShapeKept(l: Layout, s: State, a: Action)
    requires InvCalls(s) && InvHistory(s) && InvShape(l, s) && Enabled(l, s, a)
    ensures InvShape(l, Do(l, s, a))
  {
    hide CanWrite, Write, Loads, Pinned, Distinct, Open, Absorb, Gets, Busy;
    match a {
      case LogWrite(op, at, data) => AbsorbKeeps(l, s.lh, at); AbsorbLength(s.lh, at);
      case EndOp(op) => BeginsCommit(s.lh, s.cache);
      case CommitWrite => CommitShape(l, s);
      case CommitDone => NoPins(s.lh, s.cache, s.phase.k); NoneDistinct();
      case Crash => NoneDistinct();
      case RecoverWrite => RecoverShape(l, s);
      case _ =>
    }
  }

  lemma AbsorbLength(lh: seq<nat>, at: nat)
    ensures |Absorb(lh, at)| == |lh| + if at in lh then 0 else 1
  {
  }

  lemma NoneDistinct()
    ensures Distinct([])
  {
  }

  // ------------------------------------------------------------ what the disk means

  lemma ReplayAppend(d0: Disk, t: seq<Event>, e: Event, b: nat)
    requires b < |d0|
    ensures Replay(d0, t + [e], b) == if e.Wrote? && e.at == b then e.data else Replay(d0, t, b)
  {
    assert (t + [e])[..|t|] == t;
  }

  lemma TargetWrite(l: Layout, d: Disk, lh: seq<nat>, cache: map<nat, Block>, at: nat, data: Block, b: nat)
    requires b < |d| && forall i :: 0 <= i < |lh| ==> lh[i] in cache
    ensures Target(d, Absorb(lh, at), cache[at := data], b) == if b == at then data else Target(d, lh, cache, b)
  {
  }

  lemma WriteDisk(l: Layout, d0: Disk, s: State, op: nat, at: nat, data: Block)
    requires InvDisk(l, d0, s) && Enabled(l, s, LogWrite(op, at, data))
    ensures InvDisk(l, d0, Do(l, s, LogWrite(op, at, data)))
  {
    var t := Do(l, s, LogWrite(op, at, data));
    if t.phase.Running? {
      forall b: nat | l.Home(b) ensures Replay(d0, t.trace, b) == Target(s.disk, t.lh, t.cache, b) {
        ReplayAppend(d0, s.trace, Wrote(op, at, data), b);
        TargetWrite(l, s.disk, s.lh, s.cache, at, data, b);
      }
      assert t.trace[..t.cut] == s.trace[..s.cut];
    }
  }

  /** begin_op and end_op touch no block. */
  lemma MarkDisk(l: Layout, d0: Disk, s: State, e: Event, t: State)
    requires InvDisk(l, d0, s) && s.phase.Running? && !e.Wrote?
    requires t.trace == s.trace + [e] && t.cut == s.cut && t.disk == s.disk && t.lh == s.lh && t.cache == s.cache
    requires t.phase == Running || t.phase == Committing(s.disk, s.cache, 0)
    ensures InvDisk(l, d0, t)
  {
    forall b: nat | l.Home(b) ensures Replay(d0, t.trace, b) == Target(s.disk, t.lh, t.cache, b) {
      ReplayAppend(d0, s.trace, e, b);
    }
    assert t.trace[..t.cut] == s.trace[..s.cut];
  }

  /** A block write of a commit that fits is the next of CommitAt's. */
  lemma CommitWrites(l: Layout, d0: Disk, s: State)
    requires Inv(l, s) && InvDisk(l, d0, s) && Enabled(l, s, CommitWrite) && |s.lh| < l.size
    ensures var d, pins, k := s.phase.from, s.phase.pins, s.phase.k; var t := Do(l, s, CommitWrite);
      && Committable(l, s.lh, pins) && Pinned(pins, s.lh) && |pins| < l.nbuf
      && s.disk == CommitAt(l, d, s.lh, pins, k)
      && t.disk == CommitAt(l, d, s.lh, pins, k + 1) && t.cache == PinsLeft(s.lh, pins, Installed(s.lh, k + 1))
  {
    hide CommitAt, CanWrite, Write, PinsLeft, Meaning, Replay, Target, InvCalls, InvHistory;
    var d, pins, k := s.phase.from, s.phase.pins, s.phase.k;
    PinsNone(s.lh, pins);
    CommitNone(l, d, s.lh, pins);
    CommitGoes(l, d, s.lh, pins, k);
  }

  lemma CommitNone(l: Layout, d: Disk, lh: seq<nat>, pins: map<nat, Block>)
    ensures Committable(l, lh, pins) && Fits(l, d) ==> CommitAt(l, d, lh, pins, 0) == d
  {
  }

  lemma CommitWriteDisk(l: Layout, d0: Disk, s: State)
    requires Inv(l, s) && InvDisk(l, d0, s) && Enabled(l, s, CommitWrite) && |s.lh| < l.size
    ensures InvDisk(l, d0, Do(l, s, CommitWrite))
  {
    hide Meaning, CommitAt, Target, Replay, ValidHead, CanWrite, Write, PinsLeft, Pinned, Committable, InvCalls,
      InvHistory, InvShape;
    CommitWrites(l, d0, s);
    var t := Do(l, s, CommitWrite);
    var d, k := s.phase.from, s.phase.k;
    CommitCrash(l, d, s.lh, s.phase.pins, k);
    CommitCrash(l, d, s.lh, s.phase.pins, k + 1);
    assert s.trace[..|s.trace|] == s.trace;
    forall b: nat | l.Home(b) ensures Meaning(l, t.disk, b) == Replay(d0, t.trace[..t.cut], b) {
      assert Meaning(l, s.disk, b) == Replay(d0, s.trace[..s.cut], b);
    }
  }

  lemma CleanMeans(l: Layout, d: Disk)
    requires Clean(l, d)
    ensures ValidHead(l, d)
    ensures forall b: nat :: l.Home(b) ==> Meaning(l, d, b) == d[b] && Target(d, [], map[], b) == d[b]
  {
  }

  /** The disk a commit that fits leaves. */
  lemma CommitLeaves(l: Layout, d0: Disk, s: State)
    requires Inv(l, s) && InvDisk(l, d0, s) && Enabled(l, s, CommitDone)
    ensures s.cache == map[] && Clean(l, s.disk)
    ensures forall b: nat :: l.Home(b) ==> s.disk[b] == Replay(d0, s.trace, b)
  {
    hide CommitAt, Meaning, Replay, ValidHead, InvCalls, InvHistory, Distinct, PinsLeft, Loads;
    NoPins(s.lh, s.cache, s.phase.k);
    if s.lh != [] {
      CommitCompletes(l, s.phase.from, s.lh, s.phase.pins);
    } else {
      CleanMeans(l, s.phase.from);
    }
  }

  lemma CommitDoneDisk(l: Layout, d0: Disk, s: State)
    requires Inv(l, s) && InvDisk(l, d0, s) && Enabled(l, s, CommitDone)
    ensures InvDisk(l, d0, Do(l, s, CommitDone))
  {
    hide CommitAt, Meaning, Replay, ValidHead, Target, InvCalls, InvHistory, InvShape, PinsLeft, Clean;
    CommitLeaves(l, d0, s);
    CleanMeans(l, s.disk);
    assert s.trace[..|s.trace|] == s.trace;
  }

  lemma RecoverWriteIs(l: Layout, s: State)
    requires s.phase.Recovering? && Enabled(l, s, RecoverWrite) && s.cache == map[]
    requires ValidHead(l, s.phase.from) && s.phase.k <= HeadN(l, s.phase.from) + 1
    requires s.disk == RecoverAt(l, s.phase.from, s.phase.k)
    ensures s.phase.k <= HeadN(l, s.phase.from)
    ensures Do(l, s, RecoverWrite) == s.(disk := RecoverAt(l, s.phase.from, s.phase.k + 1),
                                         phase := Recovering(s.phase.from, s.phase.k + 1))
  {
    hide RecoverAt, CanWrite, Write, Loads;
    RecoverGoes(l, s.phase.from, s.phase.k);
  }

  lemma RecoverWriteDisk(l: Layout, d0: Disk, s: State)
    requires Inv(l, s) && InvDisk(l, d0, s) && Enabled(l, s, RecoverWrite)
    ensures InvDisk(l, d0, Do(l, s, RecoverWrite))
  {
    hide Meaning, RecoverAt, Replay, Do, CanWrite, InvCalls, InvHistory, ValidHead, Pending, Committable;
    RecoverWriteIs(l, s);
    RecoveryCrash(l, s.phase.from, s.phase.k);
    RecoveryCrash(l, s.phase.from, s.phase.k + 1);
  }

  lemma RecoverDoneDisk(l: Layout, d0: Disk, s: State)
    requires Inv(l, s) && InvDisk(l, d0, s) && Enabled(l, s, RecoverDone)
    ensures InvDisk(l, d0, Do(l, s, RecoverDone))
  {
    ValidLoads(l, s.phase.from);
    RecoverInstalls(l, s.phase.from);
    assert s.trace[..s.cut] == s.trace;
  }

  lemma RestDisk(l: Layout, d0: Disk, s: State, a: Action)
    requires Inv(l, s) && InvDisk(l, d0, s) && Enabled(l, s, a) && (a.Crash? || a.ReadHead? || a.CheckLog?)
    ensures InvDisk(l, d0, Do(l, s, a))
  {
    assert s.trace[..s.cut][..s.cut] == s.trace[..s.cut];
    assert a.ReadHead? ==> s.disk == RecoverAt(l, s.disk, 0);
  }

  /** Every step keeps what the disk means, unless it writes for a transaction that does not
      fit the log area. */
  lemma StepKeeps(l: Layout, d0: Disk, s: State, a: Action)
    requires Inv(l, s) && Enabled(l, s, a)
    ensures Inv(l, Do(l, s, a))
    ensures InvDisk(l, d0, s) && (a.CommitWrite? ==> |s.lh| < l.size) ==> InvDisk(l, d0, Do(l, s, a))
  {
    hide InvCalls, InvHistory, InvShape, InvDisk, CanWrite, Write, Loads;
    CallsKept(l, s, a);
    ShapeKept(l, s, a);
    if InvDisk(l, d0, s) && (a.CommitWrite? ==> |s.lh| < l.size) {
      match a {
        case BeginOp(op) => MarkDisk(l, d0, s, Began(op), Do(l, s, a));
        case EndOp(op) => MarkDisk(l, d0, s, Ended(op), Do(l, s, a));
        case LogWrite(op, at, data) => WriteDisk(l, d0, s, op, at, data);
        case CommitWrite => CommitWriteDisk(l, d0, s);
        case CommitDone => CommitDoneDisk(l, d0, s);
        case RecoverWrite => RecoverWriteDisk(l, d0, s);
        case RecoverDone => RecoverDoneDisk(l, d0, s);
        case _ => RestDisk(l, d0, s, a);
      }
    }
  }

  // ------------------------------------------------------------ reservations

  /** begin_op's test leaves room for a whole reservation. */
  lemma Reserve(left: map<nat, nat>, op: nat, n: nat)
    requires op !in left && Admits(n, |left|)
    requires forall o :: o in left ==> left[o] <= MAXOPBLOCKS
    ensures n + Sum(left[op := MAXOPBLOCKS]) <= LOGSIZE
  {
    SumUpdate(left, op, MAXOPBLOCKS);
    assert left - {op} == left;
    SumAtMost(left, MAXOPBLOCKS);
  }

  /** One log_write uses one unit of its call's reservation. */
  lemma Spend(left: map<nat, nat>, op: nat)
    requires op in left && left[op] > 0
    ensures Sum(left[op := left[op] - 1]) == Sum(left) - 1
  {
    SumUpdate(left, op, left[op] - 1);
    SumRemove(left, op);
  }

  /** Every step of calls that keep to their reservations keeps the unused part of those beside
      the transaction within LOGSIZE. */
  lemma BooksKept(l: Layout, s: State, a: Action)
    requires Inv(l, s) && InvBooks(s) && Enabled(l, s, a) && (a.LogWrite? ==> s.left[a.op] > 0)
    ensures InvBooks(Do(l, s, a))
  {
    hide InvHistory, InvShape, CanWrite, Write, Loads, Open, Sum;
    match a {
      case BeginOp(op) => Reserve(s.left, op, |s.lh|);
      case LogWrite(op, at, data) =>
        Spend(s.left, op);
        AbsorbLength(s.lh, at);
      case EndOp(op) => SumRemove(s.left, op);
      case CommitDone => SumNone();
      case Crash => SumNone();
      case _ =>
    }
  }

  lemma SumNone()
    ensures Sum<nat>(map[]) == 0
  {
  }

  // ------------------------------------------------------------ whole runs

  /** No block write of a commit is for a transaction that does not fit the log area. */
  predicate Fitting(l: Layout, d0: Disk, acts: seq<Action>)
    decreases |acts|
  {
    if acts == [] then true
    else
      var pre := acts[..|acts| - 1];
      && Fitting(l, d0, pre)
      && (acts[|acts| - 1].CommitWrite? && Exec(l, d0, pre).Some? ==> |Exec(l, d0, pre).value.lh| < l.size)
  }

  /** No call makes more than MAXOPBLOCKS log_writes. */
  predicate Reserved(l: Layout, d0: Disk, acts: seq<Action>)
    decreases |acts|
  {
    if acts == [] then true
    else
      var pre, a := acts[..|acts| - 1], acts[|acts| - 1];
      && Reserved(l, d0, pre)
      && (a.LogWrite? && Exec(l, d0, pre).Some? && a.op in Exec(l, d0, pre).value.left ==>
            Exec(l, d0, pre).value.left[a.op] > 0)
  }

  lemma BootInv(l: Layout, d0: Disk)
    requires Loads(l, d0)
    ensures Inv(l, Boot(d0)) && InvBooks(Boot(d0))
    ensures ValidHead(l, d0) ==> InvDisk(l, Recover(l, d0), Boot(d0))
  {
    assert Open([]) == {};
    SumNone();
    if ValidHead(l, d0) { RecoverInstalls(l, d0); }
  }

  lemma {:induction false} RunShape(l: Layout, d0: Disk, acts: seq<Action>)
    requires Loads(l, d0) && Exec(l, d0, acts).Some?
    ensures Inv(l, Exec(l, d0, acts).value)
    ensures Reserved(l, d0, acts) ==> InvBooks(Exec(l, d0, acts).value)
  {
    hide Inv, InvBooks, Do, Enabled;
    if acts == [] {
      BootInv(l, d0);
    } else {
      var pre, a := acts[..|acts| - 1], acts[|acts| - 1];
      RunShape(l, d0, pre);
      StepKeeps(l, d0, Exec(l, d0, pre).value, a);
      if Reserved(l, d0, acts) { RunBooks(l, d0, pre, a); }
    }
  }

  lemma RunBooks(l: Layout, d0: Disk, pre: seq<Action>, a: Action)
    requires Exec(l, d0, pre).Some? && Inv(l, Exec(l, d0, pre).value) && InvBooks(Exec(l, d0, pre).value)
    requires Enabled(l, Exec(l, d0, pre).value, a) && Reserved(l, d0, pre + [a])
    ensures InvBooks(Do(l, Exec(l, d0, pre).value, a))
  {
    hide Inv, InvBooks, Do;
    assert (pre + [a])[..|pre|] == pre;
    BooksKept(l, Exec(l, d0, pre).value, a);
  }

  /** The meaning of the disk is kept by every run whose commits fit, from whatever disk an
      earlier crash left: what counts as original is what recovery makes of it. */
  lemma {:induction false} RunKeeps(l: Layout, d0: Disk, acts: seq<Action>)
    requires ValidHead(l, d0) && Exec(l, d0, acts).Some? && Fitting(l, d0, acts)
    ensures Inv(l, Exec(l, d0, acts).value) && InvDisk(l, Recover(l, d0), Exec(l, d0, acts).value)
  {
    hide Inv, InvDisk, Do, Enabled, Recover;
    ValidLoads(l, d0);
    if acts == [] {
      BootInv(l, d0);
    } else {
      var pre, a := acts[..|acts| - 1], acts[|acts| - 1];
      RunKeeps(l, d0, pre);
      StepKeeps(l, Recover(l, d0), Exec(l, d0, pre).value, a);
    }
  }

  // ------------------------------------------------------------ main results

  /** Disk r shows the events applied to d0. */
  ghost predicate Shows(l: Layout, r: Disk, d0: Disk, t: seq<Event>)
    requires |r| == |d0| == l.nblocks
  {
    forall b: nat :: l.Home(b) ==> r[b] == Replay(d0, t, b)
  }

  /** Whole-run safety. Stop any run whose commits fit anywhere, crash any number of
      recoveries anywhere, and let one finish: the home blocks are exactly the first `cut`
      events applied to the original disk, recovered, no call is half inside that
      prefix, and it contains every group whose commit returned. */
  lemma WholeRunSafety(l: Layout, d0: Disk, acts: seq<Action>, crashes: seq<nat>)
    requires ValidHead(l, d0) && Exec(l, d0, acts).Some? && Fitting(l, d0, acts)
    ensures var s := Exec(l, d0, acts).value;
            && ValidHead(l, s.disk)
            && s.acked <= s.cut <= |s.trace|
            && Open(s.trace[..s.cut]) == {}
            && var r := Recover(l, Interrupted(l, s.disk, crashes));
               Clean(l, r) && Shows(l, r, Recover(l, d0), s.trace[..s.cut])
  {
    RunKeeps(l, d0, acts);
    var s := Exec(l, d0, acts).value;
    InterruptedMeaning(l, s.disk, crashes);
    RecoverInstalls(l, Interrupted(l, s.disk, crashes));
  }

  /** Between commits, a buffer read sees every event so far: the pinned buffer
      if there is one, the disk otherwise. */
  lemma ReadsAreCurrent(l: Layout, d0: Disk, acts: seq<Action>, b: nat)
    requires ValidHead(l, d0) && Exec(l, d0, acts).Some? && Fitting(l, d0, acts) && l.Home(b)
    requires Exec(l, d0, acts).value.phase.Running?
    ensures var s := Exec(l, d0, acts).value;
            |s.disk| == l.nblocks && Replay(Recover(l, d0), s.trace, b) == Look(Store(s.disk, s.cache), b)
  {
    hide InvCalls, InvHistory;
    RunKeeps(l, d0, acts);
  }

  /** A call open at i and closed in t[..c] ended in between. */
  lemma {:induction false} EndsBetween(t: seq<Event>, i: nat, c: nat, op: nat)
    requires i <= c <= |t| && op in Open(t[..i]) && op !in Open(t[..c])
    ensures exists e :: i <= e < c && t[e] == Ended(op)
    decreases c
  {
    if i == c {
      assert false;
    } else {
      assert t[..c][..c - 1] == t[..c - 1];
      if op in Open(t[..c - 1]) {
        assert t[c - 1] == Ended(op);
      } else {
        EndsBetween(t, i, c - 1, op);
      }
    }
  }

  /** All or nothing: a write inside the durable prefix belongs to a call that
      ended inside it, so no later write is part of the same call. */
  lemma AllOrNothing(l: Layout, d0: Disk, acts: seq<Action>, i: nat)
    requires Loads(l, d0) && Exec(l, d0, acts).Some?
    requires var s := Exec(l, d0, acts).value; i < s.cut && i < |s.trace| && s.trace[i].Wrote?
    ensures var s := Exec(l, d0, acts).value;
            exists e :: i < e < s.cut && e < |s.trace| && s.trace[e] == Ended(s.trace[i].op)
  {
    RunShape(l, d0, acts);
    var s := Exec(l, d0, acts).value;
    EndsBetween(s.trace, i, s.cut, s.trace[i].op);
  }

  // ------------------------------------------------------------ when a step cannot be taken

  ghost function Elems(lh: seq<nat>): set<nat> { set b | b in lh }

  lemma {:induction false} CountList(lh: seq<nat>)
    requires Distinct(lh)
    ensures |Elems(lh)| == |lh|
  {
    if lh == [] {
      assert Elems(lh) == {};
    } else {
      var rest, x := lh[..|lh| - 1], lh[|lh| - 1];
      CountList(rest);
      assert lh == rest + [x];
      assert Elems(lh) == Elems(rest) + {x};
    }
  }

  lemma CountPins(lh: seq<nat>, pins: map<nat, Block>)
    requires Distinct(lh) && forall b :: b in pins <==> b in lh
    ensures |pins| == |lh|
  {
    CountList(lh);
    assert pins.Keys == Elems(lh);
    assert |pins| == |pins.Keys|;
  }

  /** A log area without room for an entry never gets one. */
  lemma {:induction false} NoRoomNoEntry(l: Layout, d0: Disk, acts: seq<Action>)
    requires l.size == 1 && Exec(l, d0, acts).Some?
    ensures Exec(l, d0, acts).value.lh == [] && Exec(l, d0, acts).value.checked == map[]
  {
    hide Do, Enabled;
    if acts != [] {
      NoRoomNoEntry(l, d0, acts[..|acts| - 1]);
      NoRoomStep(l, Exec(l, d0, acts[..|acts| - 1]).value, acts[|acts| - 1]);
    }
  }

  lemma NoRoomStep(l: Layout, s: State, a: Action)
    requires l.size == 1 && Enabled(l, s, a) && s.lh == [] && s.checked == map[]
    ensures Do(l, s, a).lh == [] && Do(l, s, a).checked == map[]
  {
    hide CanWrite, Write, Loads, Gets, Busy;
  }

  lemma CommitStart(l: Layout, s: State)
    requires Inv(l, s) && s.phase.Committing? && s.phase.k == 0
    ensures Fits(l, s.disk) && |s.lh| <= LOGSIZE && |s.cache| == |s.lh| && l.start !in s.cache
    ensures forall b :: b in s.cache <==> b in s.lh
    ensures forall b :: b in s.cache ==> l.Home(b)
  {
    hide InvCalls, InvHistory, Distinct;
    CountPins(s.lh, s.cache);
  }

  lemma FirstWrite(l: Layout, s: State)
    requires Inv(l, s) && s.phase.Committing? && s.phase.k == 0 && s.lh != [] && l.size > 1
    ensures CanWrite(l, s.lh, Store(s.disk, s.cache), 0) <==> |s.lh| < l.nbuf
  {
    hide Inv, Turn, Gets, HeadBlock;
    CommitStart(l, s);
    assert s.lh[0] in s.lh;
    TurnGets(l, Store(s.disk, s.cache), l.start + 1, s.lh[0]);
  }

  /** commit() panics for want of a buffer exactly when the transaction has as many blocks as
      there are buffers. */
  lemma CommitPanicsExactly(l: Layout, d0: Disk, acts: seq<Action>)
    requires Loads(l, d0) && Exec(l, d0, acts).Some?
    requires var s := Exec(l, d0, acts).value; s.phase.Committing? && s.phase.k == 0 && s.lh != []
    ensures Enabled(l, Exec(l, d0, acts).value, CommitWrite) <==> |Exec(l, d0, acts).value.lh| < l.nbuf
  {
    hide Inv;
    RunShape(l, d0, acts);
    if l.size == 1 {
      NoRoomNoEntry(l, d0, acts);
    } else {
      HasSize(l, d0, acts);
      FirstWrite(l, Exec(l, d0, acts).value);
    }
  }

  lemma HasSize(l: Layout, d0: Disk, acts: seq<Action>)
    requires Exec(l, d0, acts).Some? && Inv(l, Exec(l, d0, acts).value)
    ensures l.size >= 1
  {
  }

  lemma CommitGoesOn(l: Layout, d0: Disk, s: State)
    requires Inv(l, s) && InvDisk(l, d0, s) && s.phase.Committing? && |s.lh| < l.size && |s.lh| < l.nbuf
    ensures Enabled(l, s, CommitWrite) || Enabled(l, s, CommitDone)
  {
    hide InvCalls, InvHistory, CanWrite, CommitAt, Meaning, Distinct, Loads, Replay, Target, PinsLeft;
    if 0 < s.phase.k < CommitLen(s.lh) {
      CommitGoes(l, s.phase.from, s.lh, s.phase.pins, s.phase.k);
    } else if s.phase.k < CommitLen(s.lh) {
      FirstWrite(l, s);
    }
  }

  lemma RecoverGoesOn(l: Layout, d0: Disk, s: State)
    requires Inv(l, s) && InvDisk(l, d0, s) && s.phase.Recovering?
    ensures Enabled(l, s, RecoverWrite) || Enabled(l, s, RecoverDone)
  {
    hide InvCalls, InvHistory, CanWrite, RecoverAt, Meaning, Distinct, Loads, Replay;
    ValidLoads(l, s.phase.from);
    if s.phase.k <= HeadN(l, s.phase.from) { RecoverGoes(l, s.phase.from, s.phase.k); }
  }

  /** That is the only way a commit that fits, or a recovery, comes to a stop. */
  lemma NeverStuck(l: Layout, d0: Disk, acts: seq<Action>)
    requires ValidHead(l, d0) && Exec(l, d0, acts).Some? && Fitting(l, d0, acts)
    ensures var s := Exec(l, d0, acts).value;
      && (s.phase.Down? ==> Enabled(l, s, ReadHead))
      && (s.phase.Recovering? ==> Enabled(l, s, RecoverWrite) || Enabled(l, s, RecoverDone))
      && (s.phase.Committing? && |s.lh| < l.size && |s.lh| < l.nbuf ==>
            Enabled(l, s, CommitWrite) || Enabled(l, s, CommitDone))
  {
    hide InvCalls, InvHistory, InvDisk, CanWrite, Loads;
    RunKeeps(l, d0, acts);
    var s := Exec(l, d0, acts).value;
    if s.phase.Recovering? { RecoverGoesOn(l, Recover(l, d0), s); }
    if s.phase.Committing? && |s.lh| < l.size && |s.lh| < l.nbuf { CommitGoesOn(l, Recover(l, d0), s); }
  }

  /** Every commit fits if the log area is larger than LOGSIZE, if nothing fits it at all, or if
      a transaction that does not fit it cannot get its buffers. */
  lemma {:induction false} AlwaysFits(l: Layout, d0: Disk, acts: seq<Action>)
    requires ValidHead(l, d0) && Exec(l, d0, acts).Some? && (l.size > LOGSIZE || l.size == 1 || l.size >= l.nbuf)
    ensures Fitting(l, d0, acts)
  {
    hide InvCalls, InvHistory, CanWrite, CommitAt, RecoverAt, Meaning, Distinct, Loads, Do;
    if acts != [] {
      var pre, a := acts[..|acts| - 1], acts[|acts| - 1];
      AlwaysFits(l, d0, pre);
      if a.CommitWrite? {
        RunKeeps(l, d0, pre);
        if l.size == 1 { NoRoomNoEntry(l, d0, pre); }
        else if Exec(l, d0, pre).value.phase.k == 0 { FirstWrite(l, Exec(l, d0, pre).value); }
      }
    }
  }

  // ------------------------------------------------------------ how long a transaction can get

  /** The most entries at which log_write's test still passes, plus one. */
  function Limit(l: Layout): int {
    if LOGSIZE <= l.size - 1 then LOGSIZE else l.size - 1
  }

  /** At most three calls can have passed the test before the last of them appends, and each
      holds a buffer, as each block of the transaction does. */
  ghost predicate InvLimit(l: Layout, s: State) {
    && s.outstanding <= 3 && |s.lh| + |s.checked| <= Limit(l) + 2 && |s.cache| + Busy(s.cache, s.checked) <= l.nbuf
    && (s.phase.Smashed? ==> LOGSIZE - 1 <= Limit(l) && LOGSIZE < l.nbuf)
  }

  lemma CheckLimit(l: Layout, s: State, op: nat, at: nat)
    requires Inv(l, s) && InvLimit(l, s) && Enabled(l, s, CheckLog(op, at)) && l.Valid()
    ensures InvLimit(l, Do(l, s, CheckLog(op, at)))
  {
    hide InvHistory, InvShape, Loads, Open;
    Checks(s.left, s.checked, op, at);
    HeldCount(s.cache, s.checked, op, at);
  }

  lemma Checks(left: map<nat, nat>, checked: map<nat, nat>, op: nat, at: nat)
    requires checked.Keys <= left.Keys && op in left && op !in checked
    ensures |checked[op := at]| == |checked| + 1 && |checked[op := at]| <= |left|
  {
    var c := checked[op := at];
    assert |left| == |left.Keys| && |c| == |c.Keys| && |checked| == |checked.Keys|;
    assert c.Keys == checked.Keys + {op};
    Fewer(c.Keys, left.Keys);
  }

  lemma OneAdded<T>(y: set<T>, c: set<T>, at: T)
    ensures |(y + {at}) - c| <= |y - c| + if at in c then 0 else 1
  {
    if at in c {
      assert (y + {at}) - c == y - c;
    } else {
      assert (y + {at}) - c == (y - c) + {at};
    }
  }

  lemma HeldCount(cache: map<nat, Block>, checked: map<nat, nat>, op: nat, at: nat)
    requires op !in checked
    ensures Busy(cache, checked[op := at]) <= Busy(cache, checked) + if at in cache then 0 else 1
  {
    HeldMore(checked, op, at);
    OneAdded(checked.Values, cache.Keys, at);
  }

  lemma HeldMore(checked: map<nat, nat>, op: nat, at: nat)
    requires op !in checked
    ensures checked[op := at].Values == checked.Values + {at}
  {
    var c := checked[op := at];
    assert c[op] == at;
    forall x | x in checked.Values
      ensures x in c.Values
    {
      var o :| o in checked && checked[o] == x;
      assert c[o] == x;
    }
  }

  lemma OneMoved<T>(y: set<T>, z: set<T>, c: set<T>, at: T)
    requires z <= y && at in y
    ensures |z - (c + {at})| + (if at in c then 0 else 1) <= |y - c|
  {
    if at in c {
      Fewer(z - (c + {at}), y - c);
    } else {
      Fewer((z - (c + {at})) + {at}, y - c);
    }
  }

  lemma CheckedLess(checked: map<nat, nat>, op: nat)
    requires op in checked
    ensures |checked - {op}| == |checked| - 1 && (checked - {op}).Values <= checked.Values
    ensures checked[op] in checked.Values
  {
    var c := checked - {op};
    assert |c| == |c.Keys| && |checked| == |checked.Keys| && c.Keys == checked.Keys - {op};
  }

  lemma OnePin(cache: map<nat, Block>, at: nat, data: Block)
    ensures cache[at := data].Keys == cache.Keys + {at} && |cache[at := data]| == |cache| + if at in cache then 0 else 1
  {
    var d := cache[at := data];
    assert |d| == |d.Keys| && |cache| == |cache.Keys| && d.Keys == cache.Keys + {at};
    assert at in cache ==> d.Keys == cache.Keys;
  }

  /** An append turns a busy buffer into a dirty one. */
  lemma HeldLess(cache: map<nat, Block>, checked: map<nat, nat>, op: nat, at: nat, data: Block)
    requires op in checked && checked[op] == at
    ensures |checked - {op}| == |checked| - 1
    ensures |cache[at := data]| + Busy(cache[at := data], checked - {op}) <= |cache| + Busy(cache, checked)
    ensures at !in cache ==> Busy(cache, checked) >= 1
  {
    CheckedLess(checked, op);
    OnePin(cache, at, data);
    OneMoved(checked.Values, (checked - {op}).Values, cache.Keys, at);
  }

  lemma WriteLimit(l: Layout, s: State, op: nat, at: nat, data: Block)
    requires Inv(l, s) && InvLimit(l, s) && Enabled(l, s, LogWrite(op, at, data)) && l.Valid()
    ensures InvLimit(l, Do(l, s, LogWrite(op, at, data)))
  {
    hide InvCalls, InvHistory, Loads, Open, Absorb, Busy, Distinct;
    AbsorbLength(s.lh, at);
    HeldLess(s.cache, s.checked, op, at, data);
    CountPins(s.lh, s.cache);
  }

  lemma LimitKept(l: Layout, s: State, a: Action)
    requires Inv(l, s) && InvLimit(l, s) && Enabled(l, s, a) && l.Valid()
    ensures InvLimit(l, Do(l, s, a))
  {
    hide InvHistory, InvShape, CanWrite, Write, Loads, Open, Busy, Gets;
    match a {
      case CheckLog(op, at) => CheckLimit(l, s, op, at);
      case LogWrite(op, at, data) => WriteLimit(l, s, op, at, data);
      case CommitWrite => NotChecked(s); FewerPins(l, s.lh, Store(s.disk, s.cache), s.phase.k);
      case RecoverWrite =>
        var h := Header(l, s.phase.from);
        NotChecked(s);
        FewerPins(l, h, Store(s.disk, s.cache), |h| + 1 + s.phase.k);
      case Crash => NoneHeld(map[], map[]);
      case _ =>
    }
  }

  /** Outside of calls no buffer is held by one. */
  lemma NotChecked(s: State)
    requires InvCalls(s) && s.left == map[]
    ensures forall cache: map<nat, Block> :: Busy(cache, s.checked) == 0
  {
    assert s.checked.Keys == {};
    assert s.checked.Values == {};
  }

  lemma FewerPins(l: Layout, lh: seq<nat>, s: Store, k: nat)
    requires CanWrite(l, lh, s, k)
    ensures |Write(l, lh, s, k).cache| <= |s.cache|
  {
    hide CanWrite, HeadBlock;
    var c := Write(l, lh, s, k).cache;
    Fewer(c.Keys, s.cache.Keys);
    assert |c| == |c.Keys| && |s.cache| == |s.cache.Keys|;
  }

  lemma NoneHeld(cache: map<nat, Block>, checked: map<nat, nat>)
    requires checked == map[]
    ensures checked.Values == {} && Busy(cache, checked) == 0
  {
    assert checked.Values == {};
  }

  lemma BootLimit(l: Layout, d0: Disk)
    requires Loads(l, d0)
    ensures InvLimit(l, Boot(d0)) && l.Valid()
  {
    NoneHeld(map[], map[]);
  }

  lemma {:induction false} RunLimit(l: Layout, d0: Disk, acts: seq<Action>)
    requires Loads(l, d0) && Exec(l, d0, acts).Some?
    ensures InvLimit(l, Exec(l, d0, acts).value)
  {
    hide Inv, Do, Enabled;
    BootLimit(l, d0);
    if acts != [] {
      RunLimit(l, d0, acts[..|acts| - 1]);
      RunShape(l, d0, acts[..|acts| - 1]);
      LimitKept(l, Exec(l, d0, acts[..|acts| - 1]).value, acts[|acts| - 1]);
    }
  }

  // ------------------------------------------------------------ reaching the limits

  /** There are home blocks enough to fill the log, and one right behind it. */
  predicate Roomy(l: Layout) {
    l.size + LOGSIZE + 2 <= l.nblocks && l.start + l.size < l.nblocks
  }

  /** The call op, still inside its reservation, would panic in log_write of block at. */
  predicate Panics(l: Layout, d0: Disk, acts: seq<Action>, op: nat, at: nat) {
    && Exec(l, d0, acts).Some? && Reserved(l, d0, acts)
    && var s := Exec(l, d0, acts).value;
    && s.phase.Running? && op in s.left && s.left[op] > 0 && op !in s.checked
    && l.Home(at) && at !in s.checked.Values && Gets(l, Store(s.disk, s.cache), at, Busy(s.cache, s.checked))
    && (TooBig(l, |s.lh|) || s.outstanding < 1)
  }

  /** Calls inside their reservations have made a transaction that the log area has no room for. */
  predicate Overruns(l: Layout, d0: Disk, acts: seq<Action>) {
    Exec(l, d0, acts).Some? && Reserved(l, d0, acts) && |Exec(l, d0, acts).value.lh| > l.size - 1
  }

  /** Calls have stored past the end of lh.block. */
  predicate Smashes(l: Layout, d0: Disk, acts: seq<Action>) {
    Exec(l, d0, acts).Some? && Exec(l, d0, acts).value.phase.Smashed?
  }

  lemma Extend(l: Layout, d0: Disk, acts: seq<Action>, a: Action)
    requires Exec(l, d0, acts).Some? && Enabled(l, Exec(l, d0, acts).value, a)
    ensures Exec(l, d0, acts + [a]) == Some(Do(l, Exec(l, d0, acts).value, a))
    ensures Reserved(l, d0, acts) && (a.LogWrite? ==> Exec(l, d0, acts).value.left[a.op] > 0) ==>
      Reserved(l, d0, acts + [a])
  {
    hide Enabled, Do;
    assert (acts + [a])[..|acts|] == acts;
  }

  /** The i-th home block, leaving out the one behind the log. */
  function HomeNo(l: Layout, i: nat): nat {
    if i < l.start then i else i + l.size + 1
  }

  /** Three calls share the first k appends so that calls 1 and 2 both have one left at 28. */
  function Writer(k: nat): nat {
    if k < 10 then 0 else if k < 19 then 1 else 2
  }

  /** No event is a write of block b. */
  ghost predicate Spares(t: seq<Event>, b: nat) {
    forall i :: 0 <= i < |t| ==> !(t[i].Wrote? && t[i].at == b)
  }

  ghost predicate Filled(l: Layout, s: State, k: nat) {
    && s.phase.Running? && !s.committing && s.outstanding == 3 && s.checked == map[]
    && |s.lh| == k && (forall i :: 0 <= i < k ==> s.lh[i] == HomeNo(l, i))
    && 0 in s.left && 1 in s.left && 2 in s.left
    && s.left[0] == (if k <= 10 then 10 - k else 0)
    && s.left[1] == (if k <= 10 then 10 else if k <= 19 then 20 - k else 1)
    && s.left[2] == (if k <= 19 then 10 else 29 - k)
    && Spares(s.trace, l.start + l.size)
  }

  lemma BootUp(l: Layout, d0: Disk) returns (acts: seq<Action>)
    requires ValidHead(l, d0)
    ensures Exec(l, d0, acts).Some? && Reserved(l, d0, acts)
    ensures Exec(l, d0, acts).value == Boot(d0).(phase := Running, disk := Recover(l, d0))
  {
    hide Exec, Reserved, CanWrite, Write, RecoverAt;
    ValidLoads(l, d0);
    RecoverAll(l, d0);
    acts := Recovers(l, d0, HeadN(l, d0) + 1);
    Extend(l, d0, acts, RecoverDone);
    acts := acts + [RecoverDone];
  }

  lemma ExecNone(l: Layout, d0: Disk)
    ensures Exec(l, d0, []) == Some(Boot(d0)) && Reserved(l, d0, [])
  {
  }

  lemma RecoverAll(l: Layout, d: Disk)
    requires ValidHead(l, d)
    ensures RecoverAt(l, d, HeadN(l, d) + 1) == Recover(l, d)
  {
  }

  lemma RecoverNone(l: Layout, d: Disk)
    requires ValidHead(l, d)
    ensures RecoverAt(l, d, 0) == d
  {
  }

  /** The first k writes of the first recovery. */
  lemma {:induction false} Recovers(l: Layout, d0: Disk, k: nat) returns (acts: seq<Action>)
    requires ValidHead(l, d0) && k <= HeadN(l, d0) + 1
    ensures Exec(l, d0, acts) == Some(Boot(d0).(phase := Recovering(d0, k), disk := RecoverAt(l, d0, k)))
    ensures Reserved(l, d0, acts)
  {
    hide Exec, Reserved, CanWrite, Write, Loads, RecoverAt;
    ValidLoads(l, d0);
    if k == 0 {
      ExecNone(l, d0);
      RecoverNone(l, d0);
      Extend(l, d0, [], ReadHead);
      acts := [] + [ReadHead];
    } else {
      acts := Recovers(l, d0, k - 1);
      RecoverGoes(l, d0, k - 1);
      Extend(l, d0, acts, RecoverWrite);
      acts := acts + [RecoverWrite];
    }
  }

  /** Boot, recover and begin three calls. */
  lemma Warm(l: Layout, d0: Disk) returns (acts: seq<Action>)
    requires ValidHead(l, d0)
    ensures Exec(l, d0, acts).Some? && Filled(l, Exec(l, d0, acts).value, 0) && Reserved(l, d0, acts)
    ensures Exec(l, d0, acts).value.disk == Recover(l, d0)
  {
    hide Exec, Reserved, CanWrite, Write, Loads, ValidHead, Recover;
    acts := BootUp(l, d0);
    Extend(l, d0, acts, BeginOp(0));
    acts := acts + [BeginOp(0)];
    Extend(l, d0, acts, BeginOp(1));
    acts := acts + [BeginOp(1)];
    Extend(l, d0, acts, BeginOp(2));
    acts := acts + [BeginOp(2)];
  }

  /** A block that is not in the transaction gets a buffer while there are some. */
  lemma GetsNew(l: Layout, s: State, at: nat)
    requires Inv(l, s) && s.phase.Running? && l.Home(at) && |s.lh| + |s.checked.Values| < l.nbuf
    ensures Gets(l, Store(s.disk, s.cache), at, Busy(s.cache, s.checked))
  {
    hide InvCalls, InvHistory, Distinct;
    CountPins(s.lh, s.cache);
    Fewer(s.checked.Values - s.cache.Keys, s.checked.Values);
  }

  /** log_write's test, passed by a call that holds a block no other call holds. */
  lemma Check(l: Layout, d0: Disk, pre: seq<Action>, op: nat, at: nat) returns (acts: seq<Action>)
    requires Loads(l, d0) && Exec(l, d0, pre).Some? && Reserved(l, d0, pre)
    requires var s := Exec(l, d0, pre).value;
      && s.phase.Running? && op in s.left && op !in s.checked && !TooBig(l, |s.lh|) && s.outstanding >= 1
      && l.Home(at) && at !in s.checked.Values && |s.lh| + |s.checked.Values| < l.nbuf
    ensures var s := Exec(l, d0, pre).value;
      && Exec(l, d0, acts) == Some(s.(checked := s.checked[op := at])) && Reserved(l, d0, acts)
      && s.checked[op := at].Values == s.checked.Values + {at}
  {
    hide Exec, Reserved, Inv, Gets, Busy, Loads, CanWrite, Write;
    RunShape(l, d0, pre);
    GetsNew(l, Exec(l, d0, pre).value, at);
    HeldMore(Exec(l, d0, pre).value.checked, op, at);
    Extend(l, d0, pre, CheckLog(op, at));
    acts := pre + [CheckLog(op, at)];
  }

  /** Its append, of a block that is new. */
  lemma Append(l: Layout, d0: Disk, pre: seq<Action>, op: nat, at: nat, data: Block) returns (acts: seq<Action>)
    requires Exec(l, d0, pre).Some?
    requires var s := Exec(l, d0, pre).value;
      && s.phase.Running? && op in s.left && op in s.checked && s.checked[op] == at && l.Home(at) && at !in s.lh
      && |s.lh| < LOGSIZE
    ensures var s := Exec(l, d0, pre).value;
      && Exec(l, d0, acts).Some? && (Reserved(l, d0, pre) && s.left[op] > 0 ==> Reserved(l, d0, acts))
      && var t := Exec(l, d0, acts).value;
      && t == s.(lh := s.lh + [at], cache := s.cache[at := data], left := t.left, checked := s.checked - {op},
                 trace := s.trace + [Wrote(op, at, data)])
      && t.left == s.left[op := if s.left[op] > 0 then s.left[op] - 1 else 0]
  {
    hide Exec, Reserved, CanWrite, Write, Loads, Gets;
    Extend(l, d0, pre, LogWrite(op, at, data));
    acts := pre + [LogWrite(op, at, data)];
  }

  /** Two appends of new blocks, by two calls that have passed the test. */
  lemma AppendTwo(l: Layout, d0: Disk, pre: seq<Action>, o1: nat, a: nat, x: Block, o2: nat, b: nat, y: Block)
    returns (acts: seq<Action>)
    requires Exec(l, d0, pre).Some? && o1 != o2 && a != b && l.Home(a) && l.Home(b)
    requires var s := Exec(l, d0, pre).value;
      && s.phase.Running? && o1 in s.left && o2 in s.left && o1 in s.checked && s.checked[o1] == a && o2 in s.checked
      && s.checked[o2] == b
      && a !in s.lh && b !in s.lh && |s.lh| + 1 < LOGSIZE
    ensures var s := Exec(l, d0, pre).value;
      && Exec(l, d0, acts).Some? && (Reserved(l, d0, pre) && s.left[o1] > 0 && s.left[o2] > 0 ==> Reserved(l, d0, acts))
      && var t := Exec(l, d0, acts).value;
      && t == s.(lh := s.lh + [a] + [b], cache := t.cache, left := t.left, checked := s.checked - {o1} - {o2},
                 trace := s.trace + [Wrote(o1, a, x)] + [Wrote(o2, b, y)])
      && t.left.Keys == s.left.Keys && b in t.cache && t.cache[b] == y
  {
    hide Exec, Reserved;
    acts := Append(l, d0, pre, o1, a, x);
    acts := Append(l, d0, acts, o2, b, y);
  }

  /** Two calls pass the test one after the other. */
  lemma CheckTwo(l: Layout, d0: Disk, pre: seq<Action>, o1: nat, a: nat, o2: nat, b: nat) returns (acts: seq<Action>)
    requires Loads(l, d0) && Exec(l, d0, pre).Some? && Reserved(l, d0, pre) && o1 != o2 && a != b && l.Home(a)
    requires l.Home(b)
    requires var s := Exec(l, d0, pre).value;
      && s.phase.Running? && o1 in s.left && o2 in s.left && s.checked == map[] && !TooBig(l, |s.lh|)
      && s.outstanding >= 1
      && |s.lh| + 1 < l.nbuf
    ensures var s := Exec(l, d0, pre).value;
      && Exec(l, d0, acts) == Some(s.(checked := map[o1 := a, o2 := b])) && Reserved(l, d0, acts)
      && (map[o1 := a, o2 := b]).Values == {a, b}
  {
    hide Exec, Reserved, Loads, TooBig;
    var s := Exec(l, d0, pre).value;
    NoneHeld(s.cache, s.checked);
    acts := Check(l, d0, pre, o1, a);
    assert s.checked.Values + {a} == {a};
    acts := Check(l, d0, acts, o2, b);
    assert s.checked[o1 := a][o2 := b] == map[o1 := a, o2 := b];
  }

  lemma HomeNos(l: Layout, i: nat, j: nat)
    requires l.Valid() && Roomy(l) && i <= LOGSIZE && j < i
    ensures l.Home(HomeNo(l, i)) && l.Home(HomeNo(l, j)) && HomeNo(l, i) != HomeNo(l, j)
    ensures HomeNo(l, i) != l.start + l.size
    ensures HomeNo(l, j) != l.start + l.size
  {
  }

  lemma {:induction false} Fill(l: Layout, d0: Disk, k: nat) returns (acts: seq<Action>)
    requires ValidHead(l, d0) && Roomy(l)
    requires k <= LOGSIZE - 2 && k <= l.size - 1
    ensures Exec(l, d0, acts).Some? && Filled(l, Exec(l, d0, acts).value, k) && Reserved(l, d0, acts)
    ensures Exec(l, d0, acts).value.disk == Recover(l, d0)
  {
    hide Exec, Reserved, Loads, Recover, HomeNo, ValidHead, Filled;
    if k == 0 {
      acts := Warm(l, d0);
    } else {
      acts := Fill(l, d0, k - 1);
      LayoutOf(l, d0);
      ValidLoads(l, d0);
      acts := FillMore(l, d0, acts, k - 1, d0[0]);
    }
  }

  lemma FillMore(l: Layout, d0: Disk, pre: seq<Action>, k: nat, data: Block) returns (acts: seq<Action>)
    requires Loads(l, d0) && l.Valid() && Roomy(l) && k < LOGSIZE - 2 && k < l.size - 1
    requires Exec(l, d0, pre).Some? && Filled(l, Exec(l, d0, pre).value, k) && Reserved(l, d0, pre)
    ensures Exec(l, d0, acts).Some? && Filled(l, Exec(l, d0, acts).value, k + 1) && Reserved(l, d0, acts)
    ensures Exec(l, d0, acts).value.disk == Exec(l, d0, pre).value.disk
  {
    hide Exec, Reserved, Loads, HomeNo, Filled, Writer, Spares;
    var s := Exec(l, d0, pre).value;
    FilledReady(l, s, k);
    var mid := Check(l, d0, pre, Writer(k), HomeNo(l, k));
    acts := Append(l, d0, mid, Writer(k), HomeNo(l, k), data);
    FilledNext(l, s, Exec(l, d0, acts).value, k, data);
  }

  lemma FilledReady(l: Layout, s: State, k: nat)
    requires l.Valid() && Roomy(l) && Filled(l, s, k) && k <= LOGSIZE - 2
    ensures s.phase.Running? && s.outstanding == 3 && s.checked == map[] && s.checked.Values == {} && |s.lh| == k
    ensures 0 in s.left && 1 in s.left && 2 in s.left && s.left[1] > 0 && s.left[2] > 0
    ensures k < LOGSIZE - 2 ==> Writer(k) in s.left && s.left[Writer(k)] > 0
    ensures HomeNo(l, k) !in s.lh && HomeNo(l, k + 1) !in s.lh && l.start + l.size !in s.lh
    ensures HomeNo(l, k) != HomeNo(l, k + 1)
    ensures l.Home(HomeNo(l, k)) && l.Home(HomeNo(l, k + 1)) && HomeNo(l, k) != l.start + l.size
    ensures HomeNo(l, k + 1) != l.start + l.size
    ensures Spares(s.trace, l.start + l.size)
  {
    hide HomeNo, Spares;
    HomeNos(l, k + 1, k);
    NoneBehind(l, s, k);
    NoneHeld(s.cache, s.checked);
  }

  lemma FilledNext(l: Layout, s: State, t: State, k: nat, data: Block)
    requires Filled(l, s, k) && k < LOGSIZE - 2 && HomeNo(l, k) != l.start + l.size
    requires var op, at := Writer(k), HomeNo(l, k);
      && t == s.(lh := s.lh + [at], cache := t.cache, left := t.left, checked := s.checked[op := at] - {op},
                 trace := s.trace + [Wrote(op, at, data)])
      && op in s.left && t.left == s.left[op := if s.left[op] > 0 then s.left[op] - 1 else 0]
    ensures Filled(l, t, k + 1)
  {
    hide HomeNo, Spares;
    SparesMore(s.trace, Wrote(Writer(k), HomeNo(l, k), data), l.start + l.size);
    assert s.checked[Writer(k) := HomeNo(l, k)] - {Writer(k)} == map[];
  }

  lemma SparesMore(t: seq<Event>, e: Event, b: nat)
    requires Spares(t, b) && !(e.Wrote? && e.at == b)
    ensures Spares(t + [e], b)
  {
  }

  /** Reservation. Calls that keep to MAXOPBLOCKS log_writes can reach a panic in
      log_write exactly when the log area is no larger than LOGSIZE. */
  lemma PanicExactly(l: Layout, d0: Disk)
    requires ValidHead(l, d0) && Roomy(l)
    ensures (exists acts: seq<Action>, op: nat, at: nat :: Panics(l, d0, acts, op, at)) <==> l.size <= LOGSIZE
  {
    hide Exec, Reserved, CanWrite, Write, Loads, ValidHead;
    if l.size <= LOGSIZE {
      PanicRun(l, d0);
    } else {
      forall acts: seq<Action>, op: nat, at: nat ensures !Panics(l, d0, acts, op, at) {
        NoPanic(l, d0, acts, op, at);
      }
    }
  }

  lemma NoPanic(l: Layout, d0: Disk, acts: seq<Action>, op: nat, at: nat)
    requires ValidHead(l, d0) && l.size > LOGSIZE
    ensures !Panics(l, d0, acts, op, at)
  {
    if Panics(l, d0, acts, op, at) {
      ValidLoads(l, d0);
      RunShape(l, d0, acts);
      SumRemove(Exec(l, d0, acts).value.left, op);
    }
  }

  lemma PanicRun(l: Layout, d0: Disk)
    requires ValidHead(l, d0) && Roomy(l) && l.size <= LOGSIZE
    ensures exists acts: seq<Action>, op: nat, at: nat :: Panics(l, d0, acts, op, at)
  {
    hide Exec, Reserved, Loads, Gets, Busy, Recover, HomeNo, Inv, ValidHead, Filled;
    LayoutOf(l, d0);
    ValidLoads(l, d0);
    var k := if l.size <= LOGSIZE - 1 then l.size - 1 else LOGSIZE - 2;
    var acts := Fill(l, d0, k);
    var s := Exec(l, d0, acts).value;
    FilledReady(l, s, k);
    if l.size == LOGSIZE {
      acts := Check(l, d0, acts, 1, HomeNo(l, k));
      acts := Append(l, d0, acts, 1, HomeNo(l, k), d0[0]);
      NoneHeld(s.cache, Exec(l, d0, acts).value.checked);
    }
    RunShape(l, d0, acts);
    GetsNew(l, Exec(l, d0, acts).value, HomeNo(l, k + 1));
    assert Panics(l, d0, acts, 2, HomeNo(l, k + 1));
  }

  /** The tests before the lock do not stop two calls from both taking the last slot. */
  lemma OverrunRun(l: Layout, d0: Disk, v: Block) returns (acts: seq<Action>)
    requires ValidHead(l, d0) && Roomy(l) && 2 <= l.size <= LOGSIZE
    ensures Exec(l, d0, acts).Some? && Reserved(l, d0, acts)
    ensures var s := Exec(l, d0, acts).value;
      && s.phase.Running? && s.outstanding == 3 && 0 in s.left && 1 in s.left && 2 in s.left && s.checked == map[]
      && |s.lh| == l.size
      && s.lh[l.size - 1] in s.cache && s.cache[s.lh[l.size - 1]] == v
      && Spares(s.trace, l.start + l.size) && l.start + l.size !in s.lh && s.disk == Recover(l, d0)
  {
    hide Exec, Reserved, Loads, Recover, HomeNo, ValidHead, Spares, Filled;
    LayoutOf(l, d0);
    ValidLoads(l, d0);
    var k := l.size - 2;
    var a, b := HomeNo(l, k), HomeNo(l, k + 1);
    acts := Fill(l, d0, k);
    var s := Exec(l, d0, acts).value;
    FilledReady(l, s, k);
    acts := CheckTwo(l, d0, acts, 2, b, 1, a);
    acts := AppendTwo(l, d0, acts, 1, a, d0[0], 2, b, v);
    assert map[2 := b, 1 := a] - {1} - {2} == map[];
    SparesMore(s.trace, Wrote(1, a, d0[0]), l.start + l.size);
    SparesMore(s.trace + [Wrote(1, a, d0[0])], Wrote(2, b, v), l.start + l.size);
  }

  lemma NoneBehind(l: Layout, s: State, k: nat)
    requires l.Valid() && Roomy(l) && Filled(l, s, k) && k <= LOGSIZE - 2
    ensures l.start + l.size !in s.lh && HomeNo(l, k) !in s.lh && HomeNo(l, k + 1) !in s.lh
  {
    forall i | 0 <= i < k
      ensures s.lh[i] != l.start + l.size && s.lh[i] != HomeNo(l, k) && s.lh[i] != HomeNo(l, k + 1)
    {
      HomeNos(l, k, i);
      HomeNos(l, k + 1, i);
    }
  }

  /** An overrun of the log area by calls inside their reservations is reachable exactly when
      2 <= log.size <= LOGSIZE. */
  lemma OverrunExactly(l: Layout, d0: Disk)
    requires ValidHead(l, d0) && Roomy(l)
    ensures (exists acts: seq<Action> :: Overruns(l, d0, acts)) <==> 2 <= l.size <= LOGSIZE
  {
    hide Exec, Reserved, ValidHead;
    if 2 <= l.size <= LOGSIZE {
      var acts := OverrunRun(l, d0, Other(Block([])));
      assert Overruns(l, d0, acts);
    } else {
      forall acts: seq<Action> ensures !Overruns(l, d0, acts) {
        if Overruns(l, d0, acts) {
          ValidLoads(l, d0);
          RunShape(l, d0, acts);
          if l.size == 1 { NoRoomNoEntry(l, d0, acts); }
        }
      }
    }
  }

  /** Calls that do not keep to their reservations can store past lh.block exactly when
      log.size >= LOGSIZE and there are more than LOGSIZE buffers: three of them pass the test
      together, one entry short of it, each with a buffer of its own. */
  lemma OverflowExactly(l: Layout, d0: Disk)
    requires ValidHead(l, d0) && Roomy(l)
    ensures (exists acts: seq<Action> :: Smashes(l, d0, acts)) <==> l.size >= LOGSIZE && l.nbuf > LOGSIZE
  {
    hide Exec, ValidHead;
    if l.size >= LOGSIZE && l.nbuf > LOGSIZE {
      var acts := OverflowRun(l, d0);
      assert Smashes(l, d0, acts);
    } else {
      forall acts: seq<Action> ensures !Smashes(l, d0, acts) {
        if Smashes(l, d0, acts) {
          ValidLoads(l, d0);
          RunLimit(l, d0, acts);
        }
      }
    }
  }

  lemma OverflowRun(l: Layout, d0: Disk) returns (acts: seq<Action>)
    requires ValidHead(l, d0) && Roomy(l) && l.size >= LOGSIZE && l.nbuf > LOGSIZE
    ensures Smashes(l, d0, acts)
  {
    hide Exec, Reserved, Loads, Recover, HomeNo, ValidHead, Spares, Filled, Smashes;
    LayoutOf(l, d0);
    ValidLoads(l, d0);
    var k := LOGSIZE - 2;
    var a, b, c := HomeNo(l, k), HomeNo(l, k + 1), HomeNo(l, k + 2);
    acts := Fill(l, d0, k);
    var s := Exec(l, d0, acts).value;
    HomeNos(l, k + 2, k);
    HomeNos(l, k + 2, k + 1);
    FilledReady(l, s, k);
    NoneThere(l, s, k);
    acts := CheckTwo(l, d0, acts, 2, c, 1, b);
    acts := Check(l, d0, acts, 0, a);
    acts := AppendTwo(l, d0, acts, 0, a, d0[0], 1, b, d0[0]);
    acts := SmashLast(l, d0, acts, 2, c, d0[0]);
  }

  lemma SmashLast(l: Layout, d0: Disk, pre: seq<Action>, op: nat, at: nat, data: Block) returns (acts: seq<Action>)
    requires Exec(l, d0, pre).Some?
    requires var s := Exec(l, d0, pre).value;
      && s.phase.Running? && op in s.left && op in s.checked && s.checked[op] == at && l.Home(at) && at !in s.lh
      && |s.lh| >= LOGSIZE
    ensures Smashes(l, d0, acts)
  {
    hide Exec, Reserved, CanWrite, Write, Loads, Gets;
    Extend(l, d0, pre, LogWrite(op, at, data));
    acts := pre + [LogWrite(op, at, data)];
  }

  lemma NoneThere(l: Layout, s: State, k: nat)
    requires l.Valid() && Roomy(l) && Filled(l, s, k) && k <= LOGSIZE - 2
    ensures HomeNo(l, k + 2) !in s.lh
  {
    forall i | 0 <= i < k
      ensures s.lh[i] != HomeNo(l, k + 2)
    {
      HomeNos(l, k + 2, i);
    }
  }

  // ------------------------------------------------------------ an overrun is not survived

  /** A block with other words. */
  function Other(x: Block): (r: Block)
    ensures r != x && |r.words| == 128
  {
    var w := if |x.words| > 0 && x.words[0] == 0 then 1 else 0;
    var r := Block(seq(128, _ => w));
    assert r.words[0] == w;
    r
  }

  lemma {:induction false} SparedReplay(d0: Disk, t: seq<Event>, b: nat)
    requires b < |d0| && Spares(t, b)
    ensures Replay(d0, t, b) == d0[b]
  {
    if t != [] {
      SparedReplay(d0, t[..|t| - 1], b);
    }
  }

  /** The three calls end, and the last of them commits. */
  lemma EndAll(l: Layout, d0: Disk, pre: seq<Action>) returns (acts: seq<Action>)
    requires Exec(l, d0, pre).Some? && Reserved(l, d0, pre)
    requires var s := Exec(l, d0, pre).value; s.phase.Running? && s.outstanding == 3 && 0 in s.left && 1 in s.left
    requires var s := Exec(l, d0, pre).value; 2 in s.left && s.checked == map[]
    ensures Exec(l, d0, acts).Some? && Reserved(l, d0, acts)
    ensures var s, t := Exec(l, d0, pre).value, Exec(l, d0, acts).value;
      && t.disk == s.disk && t.cache == s.cache && t.lh == s.lh && t.phase == Committing(s.disk, s.cache, 0)
      && t.trace == s.trace + [Ended(0)] + [Ended(1)] + [Ended(2)]
  {
    hide Exec, Reserved, CanWrite, Write, Loads;
    Extend(l, d0, pre, EndOp(0));
    acts := pre + [EndOp(0)];
    Extend(l, d0, acts, EndOp(1));
    acts := acts + [EndOp(1)];
    Extend(l, d0, acts, EndOp(2));
    acts := acts + [EndOp(2)];
  }

  /** The first k turns of write_log for a transaction of log.size blocks; the last of those
      goes past the log area. */
  lemma {:induction false} LogPast(l: Layout, d0: Disk, pre: seq<Action>, k: nat) returns (acts: seq<Action>)
    requires Loads(l, d0) && Roomy(l) && l.size >= 2 && Exec(l, d0, pre).Some? && Reserved(l, d0, pre)
    requires var s := Exec(l, d0, pre).value;
      s.phase.Committing? && s.phase.k == 0 && |s.lh| == l.size < l.nbuf && l.start + l.size !in s.lh && k <= l.size
    ensures Exec(l, d0, acts).Some? && Reserved(l, d0, acts)
    ensures var s, t := Exec(l, d0, pre).value, Exec(l, d0, acts).value;
      && t.phase == Committing(s.phase.from, s.phase.pins, k) && t.cache == s.cache && t.lh == s.lh
      && t.trace == s.trace
      && |t.disk| == |s.disk| && l.start < |s.disk| && t.disk[l.start] == s.disk[l.start]
      && (k == l.size ==>
            l.start + l.size < |t.disk| && s.lh[k - 1] in s.cache && t.disk[l.start + l.size] == s.cache[s.lh[k - 1]])
  {
    hide Exec, Reserved, Inv, CanWrite, Write, Loads;
    RunShape(l, d0, pre);
    CommitDisk(l, Exec(l, d0, pre).value);
    if k == 0 {
      acts := pre;
    } else {
      acts := LogPast(l, d0, pre, k - 1);
      TurnPast(l, Exec(l, d0, pre).value, Exec(l, d0, acts).value, k - 1);
      Extend(l, d0, acts, CommitWrite);
      acts := acts + [CommitWrite];
    }
  }

  lemma CommitDisk(l: Layout, s: State)
    requires Inv(l, s) && s.phase.Committing?
    ensures l.start < |s.disk| == l.nblocks
  {
  }

  lemma TurnPast(l: Layout, s: State, t: State, k: nat)
    requires Inv(l, s) && Roomy(l) && s.phase.Committing? && s.phase.k == 0 && k < |s.lh| == l.size < l.nbuf
    requires l.size >= 2
    requires l.start + l.size !in s.lh && t.cache == s.cache && t.lh == s.lh && |t.disk| == |s.disk|
    requires l.start < |s.disk| && t.disk[l.start] == s.disk[l.start]
    ensures s.lh[k] in s.cache && l.start + k + 1 < |t.disk| && CanWrite(l, s.lh, Store(t.disk, t.cache), k)
    ensures Write(l, s.lh, Store(t.disk, t.cache), k) == Store(t.disk[l.start + k + 1 := s.cache[s.lh[k]]], s.cache)
  {
    hide Inv, Turn, Gets, HeadBlock;
    CommitStart(l, s);
    assert s.lh[k] in s.lh;
    TurnGets(l, Store(t.disk, t.cache), l.start + k + 1, s.lh[k]);
  }

  /** After a crash and a recovery now, with `crashes` before it, the home blocks are some prefix
      of the history that cuts no call in two and contains every group whose commit returned. */
  ghost predicate Survives(l: Layout, d0: Disk, s: State, crashes: seq<nat>)
    requires ValidHead(l, d0)
  {
    && ValidHead(l, s.disk)
    && exists c :: s.acked <= c <= |s.trace| && Open(s.trace[..c]) == {}
         && Shows(l, Recover(l, Interrupted(l, s.disk, crashes)), Recover(l, d0), s.trace[..c])
  }

  ghost predicate Safe(l: Layout, d0: Disk, acts: seq<Action>, crashes: seq<nat>)
    requires ValidHead(l, d0)
  {
    Exec(l, d0, acts).Some? ==> Survives(l, d0, Exec(l, d0, acts).value, crashes)
  }

  /** The transaction of log.size blocks, committed up to its last log block: a crash now
      leaves, in the block behind the log, bytes that no prefix of the history puts there. */
  lemma OverrunLoses(l: Layout, d0: Disk) returns (acts: seq<Action>)
    requires ValidHead(l, d0) && Roomy(l) && 2 <= l.size <= LOGSIZE && l.size < l.nbuf
    ensures Exec(l, d0, acts).Some? && Reserved(l, d0, acts) && ValidHead(l, Exec(l, d0, acts).value.disk)
    ensures var s := Exec(l, d0, acts).value;
      forall c :: 0 <= c <= |s.trace| ==> !Shows(l, Recover(l, s.disk), Recover(l, d0), s.trace[..c])
  {
    hide Exec, Reserved, CanWrite, Write, ValidHead, Recover, Loads, Committable;
    var x := l.start + l.size;
    ValidLoads(l, d0);
    RecoverInstalls(l, d0);
    LayoutOf(l, d0);
    acts := OverrunRun(l, d0, Other(Recover(l, d0)[x]));
    acts := EndAll(l, d0, acts);
    acts := LogPast(l, d0, acts, l.size);
    var s := Exec(l, d0, acts).value;
    StaysClean(l, Recover(l, d0), s.disk);
    forall c | 0 <= c <= |s.trace|
      ensures !Shows(l, Recover(l, s.disk), Recover(l, d0), s.trace[..c])
    {
      SparedReplay(Recover(l, d0), s.trace[..c], x);
      assert l.Home(x);
    }
  }

  lemma LayoutOf(l: Layout, d: Disk)
    requires ValidHead(l, d)
    ensures l.Valid() && |d| == l.nblocks
  {
  }

  lemma StaysClean(l: Layout, d: Disk, e: Disk)
    requires Clean(l, d) && |e| == |d| && l.start < |d| && e[l.start] == d[l.start]
    ensures ValidHead(l, e) && forall b: nat :: l.Home(b) ==> Recover(l, e)[b] == e[b]
  {
    CleanMeans(l, e);
    RecoverInstalls(l, e);
  }

  /** Every run is survived if and only if no transaction both passes the log area and gets its
      buffers, whether or not calls keep to their reservations. */
  lemma SafetyExactly(l: Layout, d0: Disk)
    requires ValidHead(l, d0) && Roomy(l)
    ensures (forall acts: seq<Action>, crashes: seq<nat> :: Safe(l, d0, acts, crashes)) <==>
      !(2 <= l.size <= LOGSIZE && l.size < l.nbuf)
    ensures (forall acts: seq<Action>, crashes: seq<nat> :: Reserved(l, d0, acts) ==> Safe(l, d0, acts, crashes))
            <==> !(2 <= l.size <= LOGSIZE && l.size < l.nbuf)
  {
    hide Exec, Reserved, ValidHead, Recover, Safe;
    if 2 <= l.size <= LOGSIZE && l.size < l.nbuf {
      var acts := OverrunLoses(l, d0);
      NotSafe(l, d0, acts);
    } else {
      LayoutOf(l, d0);
      forall acts: seq<Action>, crashes: seq<nat> ensures Safe(l, d0, acts, crashes) {
        IsSafe(l, d0, acts, crashes);
      }
    }
  }

  lemma NotSafe(l: Layout, d0: Disk, acts: seq<Action>)
    requires ValidHead(l, d0) && Exec(l, d0, acts).Some? && ValidHead(l, Exec(l, d0, acts).value.disk)
    requires var s := Exec(l, d0, acts).value;
      forall c :: 0 <= c <= |s.trace| ==> !Shows(l, Recover(l, s.disk), Recover(l, d0), s.trace[..c])
    ensures !Safe(l, d0, acts, [])
  {
    hide Exec, ValidHead, Recover, Shows;
  }

  lemma IsSafe(l: Layout, d0: Disk, acts: seq<Action>, crashes: seq<nat>)
    requires ValidHead(l, d0) && l.size >= 1 && !(2 <= l.size <= LOGSIZE && l.size < l.nbuf)
    ensures Safe(l, d0, acts, crashes)
  {
    hide Exec, ValidHead, Recover, Shows;
    if Exec(l, d0, acts).Some? {
      AlwaysFits(l, d0, acts);
      WholeRunSafety(l, d0, acts, crashes);
    }
  }
}
