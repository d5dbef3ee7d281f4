/** log.c in its own form: the in-memory header and counters as fields, its loops
    as loops. Each method is proved to put the disk through exactly the states that
    LogDisk and LogRun reason about. */
module Log {
  import opened Common
  import opened LogDisk
  import opened LogRun

  datatype Outcome = Done | TooBigATransaction | OutsideOfTrans

  /** The disks that a run of block writes went through, latest last. */
  datatype Trail = Start | Then(before: Trail, disk: Disk)

  /** The disks of block writes i to k of a commit or a recovery. */
  ghost function Trails(t: Trail, l: Layout, lh: seq<nat>, s: Store, i: nat, k: nat): Trail
    requires Steps(l, lh, s, i, k).Some?
    decreases k
  {
    if k <= i then t else Then(Trails(t, l, lh, s, i, k - 1), Steps(l, lh, s, i, k).value.disk)
  }

  /** The disks of the first k block writes of a recovery. */
  ghost function RecoverTrail(t: Trail, l: Layout, d: Disk, k: nat): Trail
    requires ValidHead(l, d) && k <= HeadN(l, d) + 1
  {
    if k == 0 then t else Then(RecoverTrail(t, l, d, k - 1), RecoverAt(l, d, k))
  }

  /** The disks of the first k block writes of a commit. */
  ghost function CommitTrail(t: Trail, l: Layout, d: Disk, lh: seq<nat>, c: map<nat, Block>, k: nat): Trail
    requires Committable(l, lh, c) && Fits(l, d) && k <= CommitLen(lh)
  {
    if k == 0 then t else Then(CommitTrail(t, l, d, lh, c, k - 1), CommitAt(l, d, lh, c, k))
  }

  lemma {:induction false} TrailsCommit(t: Trail, l: Layout, d: Disk, lh: seq<nat>, pins: map<nat, Block>, k: nat)
    requires Committable(l, lh, pins) && Pinned(pins, lh) && Fits(l, d) && k <= CommitLen(lh) && |pins| < l.nbuf
    ensures Steps(l, lh, Store(d, pins), 0, k) ==
      Some(Store(CommitAt(l, d, lh, pins, k), PinsLeft(lh, pins, Installed(lh, k))))
    ensures Trails(t, l, lh, Store(d, pins), 0, k) == CommitTrail(t, l, d, lh, pins, k)
  {
    hide CommitAt, Steps, PinsLeft, Pinned, Committable;
    StepsCommit(l, d, lh, pins, k);
    if k > 0 {
      TrailsCommit(t, l, d, lh, pins, k - 1);
    }
  }

  lemma {:induction false} TrailsRecover(t: Trail, l: Layout, d: Disk, k: nat)
    requires ValidHead(l, d) && k <= HeadN(l, d) + 1
    ensures Loads(l, d)
    ensures var h := Header(l, d); var s := Store(d, map[]);
      && Steps(l, h, s, |h| + 1, |h| + 1 + k) == Some(Store(RecoverAt(l, d, k), map[]))
      && Trails(t, l, h, s, |h| + 1, |h| + 1 + k) == RecoverTrail(t, l, d, k)
  {
    hide RecoverAt, Steps;
    StepsRecover(l, d, k);
    if k > 0 {
      TrailsRecover(t, l, d, k - 1);
    }
  }

  lemma TrailsNext(t: Trail, l: Layout, lh: seq<nat>, s: Store, i: nat, k: nat, now: Store)
    requires i <= k && Steps(l, lh, s, i, k) == Some(now)
    ensures Steps(l, lh, s, i, k + 1) == if CanWrite(l, lh, now, k) then Some(Write(l, lh, now, k)) else None
    ensures CanWrite(l, lh, now, k) ==>
      Trails(t, l, lh, s, i, k + 1) == Then(Trails(t, l, lh, s, i, k), Write(l, lh, now, k).disk)
  {
    hide CanWrite, Write;
  }

  class Log {
    const l: Layout
    var disk: Disk
    /** Buffers with B_DIRTY set; every other buffer equals its disk block. */
    var cache: map<nat, Block>
    var n: int
    var block: array<nat>
    var outstanding: int
    var committing: bool
    /** The disk after every block write since the object was made: what a crash can leave. */
    ghost var history: Trail

    ghost predicate Valid()
      reads this, block
    {
      && Fits(l, disk)
      && block.Length == LOGSIZE && 0 <= n <= LOGSIZE
    }

    /** The block numbers of the transaction. */
    ghost function Lh(): (lh: seq<nat>)
      requires Valid()
      reads this, block
      ensures |lh| == n
    {
      block[..n]
    }

    ghost function St(): Store
      reads this
    {
      Store(disk, cache)
    }

    constructor (l: Layout, disk: Disk)
      requires Fits(l, disk)
      ensures Valid() && fresh(block) && this.l == l && this.disk == disk
      ensures n == 0 && outstanding == 0 && !committing && cache == map[] && history == Start
    {
      this.l, this.disk, cache := l, disk, map[];
      n, outstanding, committing, history := 0, 0, false, Start;
      block := new nat[LOGSIZE];
    }

    /** bread, with `busy` buffers held that are not dirty: the pinned buffer if there is one, the
        disk block otherwise. Not `ok`: no such block, or no buffer. */
    method Bread(b: nat, busy: nat) returns (data: Block, ok: bool)
      ensures ok <==> Gets(l, St(), b, busy)
      ensures ok ==> b < |disk| && data == Look(St(), b)
    {
      if b >= |disk| || (b !in cache && |cache| + busy >= l.nbuf) {
        return Block([]), false;
      }
      return if b in cache then cache[b] else disk[b], true;
    }

    /** bwrite: one atomic disk write; the buffer is no longer dirty. */
    method Bwrite(b: nat, data: Block)
      requires b < |disk|
      modifies this`disk, this`cache, this`history
      ensures St() == Put(old(St()), b, data) && history == Then(old(history), disk)
    {
      disk := disk[b := data];
      cache := cache - {b};
      history := Then(history, disk);
    }

    /** write_log. Not `ok`: turn `k` did not get its buffers. */
    method WriteLog() returns (ok: bool, ghost k: nat)
      requires Valid() && l.start !in cache
      modifies this`disk, this`cache, this`history
      ensures Valid() && Lh() == old(Lh()) && l.start !in cache && k <= n && (ok <==> k == n)
      ensures Steps(l, Lh(), old(St()), 0, k) == Some(St()) && history == Trails(old(history), l, Lh(), old(St()), 0, k)
      ensures !ok ==> !CanWrite(l, Lh(), St(), k)
    {
      hide Steps, Trails, CanWrite, Write, Gets;
      ghost var s0, lh := St(), Lh();
      StepsNone(history, l, lh, s0, 0);
      var tail := 0;
      k := 0;
      while tail < n
        invariant 0 <= tail <= n && k == tail && Valid() && Lh() == lh && l.start !in cache
        invariant Steps(l, lh, s0, 0, tail) == Some(St()) && history == Trails(old(history), l, lh, s0, 0, tail)
      {
        TrailsNext(old(history), l, lh, s0, 0, tail, St());
        LogTurnIs(l, lh, St(), tail);
        assert lh[tail] == block[tail];
        var to, from;
        to, ok := Bread(l.start + tail + 1, 0);
        if !ok {
          return false, k;
        }
        if block[tail] == l.start + tail + 1 {
          return false, k;
        }
        from, ok := Bread(block[tail], if l.start + tail + 1 in cache then 0 else 1);
        if !ok {
          return false, k;
        }
        Bwrite(l.start + tail + 1, from);
        tail, k := tail + 1, k + 1;
      }
      return true, k;
    }

    /** write_head. */
    method WriteHead() returns (ok: bool)
      requires Valid() && l.start !in cache
      modifies this`disk, this`cache, this`history
      ensures Valid() && Lh() == old(Lh()) && l.start !in cache && (ok <==> Gets(l, old(St()), l.start, 0))
      ensures ok ==> St() == Put(old(St()), l.start, HeadBlock(old(disk)[l.start], Lh()))
      ensures ok ==> history == Then(old(history), disk)
      ensures !ok ==> St() == old(St()) && history == old(history)
    {
      var h;
      h, ok := Bread(l.start, 0);
      if !ok {
        return;
      }
      var hb := h.words[0 := n];
      var i := 0;
      while i < n
        invariant 0 <= i <= n
        invariant |hb| == 128 && hb[0] == n
        invariant forall j :: 1 <= j <= i ==> hb[j] == block[j - 1]
        invariant forall j :: i < j < 128 ==> j >= 1 ==> hb[j] == h.words[j]
      {
        hb := hb[i + 1 := block[i]];
        i := i + 1;
      }
      assert hb == HeadBlock(h, Lh()).words;
      Bwrite(l.start, Block(hb));
    }

    /** install_trans: from the log area to the home blocks. The commit or the recovery it is part
        of began with store s0, trail t0 and write i. */
    method InstallTrans(ghost t0: Trail, ghost s0: Store, ghost i: nat) returns (ok: bool, ghost k: nat)
      requires Valid() && l.start !in cache && i <= n + 1 && (forall j :: 0 <= j < n ==> block[j] != l.start)
      requires Steps(l, Lh(), s0, i, n + 1) == Some(St()) && history == Trails(t0, l, Lh(), s0, i, n + 1)
      modifies this`disk, this`cache, this`history
      ensures Valid() && Lh() == old(Lh()) && l.start !in cache && n + 1 <= k <= 2 * n + 1 && (ok <==> k == 2 * n + 1)
      ensures Steps(l, Lh(), s0, i, k) == Some(St()) && history == Trails(t0, l, Lh(), s0, i, k)
      ensures !ok ==> !CanWrite(l, Lh(), St(), k)
    {
      hide Steps, Trails, CanWrite, Write, Gets;
      ghost var lh := Lh();
      var tail := 0;
      k := n + 1;
      while tail < n
        invariant 0 <= tail <= n && k == n + 1 + tail && Valid() && Lh() == lh && l.start !in cache
        invariant Steps(l, lh, s0, i, k) == Some(St()) && history == Trails(t0, l, lh, s0, i, k)
      {
        TrailsNext(t0, l, lh, s0, i, k, St());
        InstallTurnIs(l, lh, St(), tail);
        assert lh[tail] == block[tail];
        var lbuf, dbuf;
        lbuf, ok := Bread(l.start + tail + 1, 0);
        if !ok {
          return false, k;
        }
        if block[tail] == l.start + tail + 1 {
          return false, k;
        }
        dbuf, ok := Bread(block[tail], if l.start + tail + 1 in cache then 0 else 1);
        if !ok {
          return false, k;
        }
        Bwrite(block[tail], lbuf);
        tail, k := tail + 1, k + 1;
      }
      return true, k;
    }

    /** install_trans, lh.n = 0, write_head: the end of commit() and of a recovery. */
    method InstallAndErase(ghost t0: Trail, ghost s0: Store, ghost i: nat) returns (ok: bool, ghost k: nat)
      requires Valid() && l.start !in cache && i <= n + 1 && (forall j :: 0 <= j < n ==> block[j] != l.start)
      requires Steps(l, Lh(), s0, i, n + 1) == Some(St()) && history == Trails(t0, l, Lh(), s0, i, n + 1)
      modifies this`disk, this`cache, this`n, this`history
      ensures Valid() && l.start !in cache && old(n) + 1 <= k <= 2 * old(n) + 2 && (ok <==> k == 2 * old(n) + 2)
      ensures ok ==> n == 0
      ensures Steps(l, old(Lh()), s0, i, k) == Some(St()) && history == Trails(t0, l, old(Lh()), s0, i, k)
      ensures !ok ==> !CanWrite(l, old(Lh()), St(), k)
    {
      hide Steps, Trails, CanWrite, Write;
      ghost var lh := Lh();
      ok, k := InstallTrans(t0, s0, i);
      if !ok {
        return;
      }
      n := 0;
      assert Lh() == [];
      HeadIs(l, lh, St(), k);
      TrailsNext(t0, l, lh, s0, i, k, St());
      ok := WriteHead();
      if ok {
        k := k + 1;
      }
    }

    /** commit. It goes through the writes that LogRun takes one at a time, whether or not the
        transaction fits the log area, and stops before the first that does not get its
        buffers. Where it fits and there are buffers, the disk passes through CommitAt(1),
        CommitAt(2), ... and nothing else, after which every pinned block is at home and the
        log is empty. */
    method Commit() returns (ok: bool, ghost k: nat)
      requires Valid() && l.start !in cache && (forall j :: 0 <= j < n ==> block[j] != l.start)
      modifies this`disk, this`cache, this`n, this`history
      ensures Valid() && k <= CommitLen(old(Lh())) && (ok <==> k == CommitLen(old(Lh()))) && (ok ==> n == 0)
      ensures Steps(l, old(Lh()), old(St()), 0, k) == Some(St())
      ensures history == Trails(old(history), l, old(Lh()), old(St()), 0, k)
      ensures !ok ==> !CanWrite(l, old(Lh()), St(), k)
      ensures Committable(l, old(Lh()), old(cache)) && Pinned(old(cache), old(Lh())) && |old(cache)| < l.nbuf ==>
        && ok && cache == map[]
        && disk == CommitAt(l, old(disk), old(Lh()), old(cache), CommitLen(old(Lh())))
        && history == CommitTrail(old(history), l, old(disk), old(Lh()), old(cache), CommitLen(old(Lh())))
    {
      hide Steps, Trails, CanWrite, Write, Pinned, Committable, CommitAt, CommitTrail;
      ghost var t0, s0, lh := history, St(), Lh();
      StepsNone(t0, l, lh, s0, 0);
      ok, k := true, 0;
      if n > 0 {
        ok, k := WriteAll(t0, s0);
      }
      CommitFit(t0, l, lh, s0, k, St(), history);
    }

    /** commit of a transaction that is not empty. */
    method WriteAll(ghost t0: Trail, ghost s0: Store) returns (ok: bool, ghost k: nat)
      requires Valid() && l.start !in cache && (forall j :: 0 <= j < n ==> block[j] != l.start) && s0 == St()
      requires t0 == history
      modifies this`disk, this`cache, this`n, this`history
      ensures Valid() && k <= 2 * old(n) + 2 && (ok <==> k == 2 * old(n) + 2) && (ok ==> n == 0)
      ensures Steps(l, old(Lh()), s0, 0, k) == Some(St()) && history == Trails(t0, l, old(Lh()), s0, 0, k)
      ensures !ok ==> !CanWrite(l, old(Lh()), St(), k)
    {
      hide Steps, Trails, CanWrite, Write;
      ghost var lh := Lh();
      ok, k := WriteLog();
      if !ok {
        return;
      }
      HeadIs(l, lh, St(), k);
      TrailsNext(t0, l, lh, s0, 0, k, St());
      ok := WriteHead();
      if !ok {
        return;
      }
      k := k + 1;
      ok, k := InstallAndErase(t0, s0, 0);
    }

    /** read_head, from any header that the array can take. */
    method ReadHead()
      requires Valid() && Loads(l, disk) && cache == map[]
      modifies this`n, block
      ensures Valid() && Lh() == Header(l, disk)
    {
      hide Loads, Gets, Header;
      ghost var h := Header(l, disk);
      HeadGets(l, St());
      var b, ok := Bread(l.start, 0);
      n := b.words[0];
      var i := 0;
      while i < n
        modifies block
        invariant 0 <= i <= n
        invariant forall j :: 0 <= j < i ==> block[j] == h[j]
      {
        assert h[i] == b.words[i + 1];
        block[i] := b.words[i + 1];
        i := i + 1;
      }
    }

    /** recover_from_log. */
    method RecoverFromLog() returns (ok: bool, ghost k: nat)
      requires Valid() && Loads(l, disk) && cache == map[]
      modifies this`disk, this`cache, this`n, this`history, block
      ensures var h := Header(l, old(disk));
        && Valid() && |h| + 1 <= k <= 2 * |h| + 2 && (ok <==> k == 2 * |h| + 2) && (ok ==> n == 0)
        && Steps(l, h, old(St()), |h| + 1, k) == Some(St())
        && history == Trails(old(history), l, h, old(St()), |h| + 1, k)
        && (!ok ==> !CanWrite(l, h, St(), k))
      ensures ValidHead(l, old(disk)) ==>
        && ok && cache == map[] && disk == Recover(l, old(disk)) && Clean(l, disk)
        && history == RecoverTrail(old(history), l, old(disk), HeadN(l, old(disk)) + 1)
    {
      hide Steps, Trails, CanWrite, Write, Recover, RecoverTrail, Clean;
      ghost var h, s0, t0 := Header(l, disk), St(), history;
      ReadHead();
      StepsNone(t0, l, h, s0, |h| + 1);
      assert forall j :: 0 <= j < n ==> block[j] == h[j];
      ok, k := InstallAndErase(t0, s0, |h| + 1);
      if ValidHead(l, s0.disk) {
        RecoverFit(t0, l, s0.disk, k, St(), history);
      }
    }

    /** One turn of begin_op's loop: the call is let in, or would sleep. */
    method BeginOp() returns (admitted: bool)
      requires Valid()
      modifies this`outstanding
      ensures Valid() && admitted == (!committing && Admits(n, old(outstanding)))
      ensures outstanding == if admitted then old(outstanding) + 1 else old(outstanding)
    {
      if committing {
        admitted := false;
      } else if n + (outstanding + 1) * MAXOPBLOCKS > LOGSIZE {
        admitted := false;
      } else {
        outstanding := outstanding + 1;
        admitted := true;
      }
    }

    /** end_op: the last call out commits; a panic exactly when a commit is under way, or when
        the commit does not get its buffers. */
    method EndOp() returns (committed: bool, ok: bool, ghost k: nat)
      requires Valid() && l.start !in cache && (forall j :: 0 <= j < n ==> block[j] != l.start)
      modifies this
      ensures Valid() && block == old(block) && outstanding == old(outstanding) - 1
      ensures ok ==> !old(committing) && !committing && (committed <==> outstanding == 0)
      ensures old(committing) ==> !ok && !committed && committing
      ensures !old(committing) && outstanding != 0 ==> ok && !committed
      ensures !old(committing) && outstanding == 0 ==>
        && k <= CommitLen(old(Lh())) && (ok <==> k == CommitLen(old(Lh()))) && (ok ==> committed && n == 0)
        && Steps(l, old(Lh()), old(St()), 0, k) == Some(St())
        && history == Trails(old(history), l, old(Lh()), old(St()), 0, k)
        && (!ok ==> !CanWrite(l, old(Lh()), St(), k))
      ensures
        && !old(committing) && outstanding == 0 && Committable(l, old(Lh()), old(cache))
        && Pinned(old(cache), old(Lh())) && |old(cache)| < l.nbuf ==>
        && ok && n == 0 && cache == map[]
        && disk == CommitAt(l, old(disk), old(Lh()), old(cache), CommitLen(old(Lh())))
        && history == CommitTrail(old(history), l, old(disk), old(Lh()), old(cache), CommitLen(old(Lh())))
      ensures old(committing) || outstanding != 0 ==> Lh() == old(Lh()) && cache == old(cache) && disk == old(disk)
      ensures old(committing) || outstanding != 0 ==> history == old(history)
    {
      hide Steps, Trails, CanWrite, Write, Pinned, Committable, CommitAt, CommitTrail;
      outstanding := outstanding - 1;
      committed, k := false, 0;
      if committing {
        return false, false, 0;
      }
      if outstanding == 0 {
        committed, committing := true, true;
      }
      ok := true;
      if committed {
        ok, k := Commit();
        if !ok {
          return;
        }
        committing := false;
      }
    }

    /** log_write: the panics in their order, absorption, and the pin. */
    method LogWrite(b: nat, data: Block) returns (r: Outcome)
      requires Valid()
      modifies this`n, this`cache, block
      ensures Valid()
      ensures r == if TooBig(l, old(n)) then TooBigATransaction
                   else if outstanding < 1 then OutsideOfTrans else Done
      ensures r.Done? ==> Lh() == Absorb(old(Lh()), b) && cache == old(cache)[b := data]
      ensures !r.Done? ==> Lh() == old(Lh()) && cache == old(cache)
    {
      if n >= LOGSIZE || n >= l.size - 1 {
        assert Lh() == old(Lh());
        return TooBigATransaction;
      }
      if outstanding < 1 {
        assert Lh() == old(Lh());
        return OutsideOfTrans;
      }
      ghost var lh := Lh();
      var i := 0;
      while i < n && block[i] != b
        invariant 0 <= i <= n
        invariant forall j :: 0 <= j < i ==> lh[j] != b
      {
        assert lh[i] == block[i];
        i := i + 1;
      }
      block[i] := b;
      if i == n {
        assert b !in lh;
        n := n + 1;
        assert Lh() == lh + [b];
      } else {
        assert lh[i] == b;
        assert Lh() == lh;
      }
      cache := cache[b := data];
      r := Done;
    }
  }

  lemma StepsNone(t: Trail, l: Layout, lh: seq<nat>, s: Store, i: nat)
    ensures Steps(l, lh, s, i, i) == Some(s) && Trails(t, l, lh, s, i, i) == t
  {
  }

  /** A commit that fits and has its buffers is not stopped. */
  lemma CommitFit(t: Trail, l: Layout, lh: seq<nat>, s: Store, k: nat, now: Store, trail: Trail)
    requires Fits(l, s.disk) && k <= CommitLen(lh) && Steps(l, lh, s, 0, k) == Some(now)
    requires trail == Trails(t, l, lh, s, 0, k)
    requires k < CommitLen(lh) ==> !CanWrite(l, lh, now, k)
    ensures Committable(l, lh, s.cache) && Pinned(s.cache, lh) && |s.cache| < l.nbuf ==>
      && k == CommitLen(lh) && now == Store(CommitAt(l, s.disk, lh, s.cache, k), map[])
      && trail == CommitTrail(t, l, s.disk, lh, s.cache, k)
  {
    hide Steps, Trails, CanWrite, Write, Pinned, Committable, CommitAt, CommitTrail, PinsLeft;
    if Committable(l, lh, s.cache) && Pinned(s.cache, lh) && |s.cache| < l.nbuf {
      TrailsCommit(t, l, s.disk, lh, s.cache, k);
      PinsNone(lh, s.cache);
      if k < CommitLen(lh) { CommitGoes(l, s.disk, lh, s.cache, k); }
    }
  }

  lemma RecoverFit(t: Trail, l: Layout, d: Disk, k: nat, now: Store, trail: Trail)
    requires ValidHead(l, d) && Loads(l, d)
    requires var h := Header(l, d);
      && |h| + 1 <= k <= 2 * |h| + 2 && Steps(l, h, Store(d, map[]), |h| + 1, k) == Some(now)
      && trail == Trails(t, l, h, Store(d, map[]), |h| + 1, k)
      && (k < 2 * |h| + 2 ==> !CanWrite(l, h, now, k))
    ensures k == 2 * HeadN(l, d) + 2 && now == Store(Recover(l, d), map[]) && Clean(l, Recover(l, d))
    ensures trail == RecoverTrail(t, l, d, HeadN(l, d) + 1)
  {
    hide Steps, Trails, CanWrite, Write;
    ValidLoads(l, d);
    var i := k - HeadN(l, d) - 1;
    TrailsRecover(t, l, d, i);
    RecoverInstalls(l, d);
    if i <= HeadN(l, d) { RecoverGoes(l, d, i); }
  }
}
