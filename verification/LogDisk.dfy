/** The on-disk side of log.c: the physical redo log, the disk after each single
    block write of commit() and recover_from_log(), and what a crash between any
    two of those writes leaves behind. */
module LogDisk {
  import opened Common

  const MAXOPBLOCKS := 10
  const LOGSIZE := MAXOPBLOCKS * 3

  /** A 512-byte block as its 128 words; only the header's words are looked into. */
  datatype Block = Block(words: seq<int>)
  type Disk = seq<Block>

  /** log.start and log.size, the size of the disk and the number of buffers (NBUF, which
      param.h makes equal to LOGSIZE). The log area is the header block `start` and the
      `size - 1` blocks after it. */
  datatype Layout = Layout(start: nat, size: nat, nblocks: nat, nbuf: nat) {
    predicate Valid() { 1 <= size && start + size <= nblocks && LOGSIZE <= nbuf }

    predicate Home(b: int) { 0 <= b < nblocks && !(start <= b < start + size) }
  }

  /** The disk has the layout's size, and a header block of full length. */
  predicate Fits(l: Layout, d: Disk) {
    l.Valid() && |d| == l.nblocks && |d[l.start].words| == 128
  }

  /** The header block as write_head leaves it: n, the n block numbers, and
      whatever was there before in the remaining words. */
  function HeadBlock(h: Block, lh: seq<nat>): (r: Block)
    requires |lh| <= LOGSIZE && |h.words| == 128
    ensures |r.words| == 128
    ensures r.words[0] == |lh| && forall j :: 1 <= j <= |lh| ==> r.words[j] == lh[j - 1]
  {
    Block([|lh|] + seq(|lh|, i requires 0 <= i < |lh| => lh[i]) + h.words[1 + |lh|..])
  }

  /** A header that read_head can load: it fits the in-memory array, and names home blocks
      only. */
  predicate Loads(l: Layout, d: Disk) {
    && Fits(l, d)
    && var h := d[l.start].words;
    && 0 <= h[0] <= LOGSIZE
    && forall j :: 1 <= j <= h[0] ==> l.Home(h[j])
  }

  /** What read_head loads. */
  function Header(l: Layout, d: Disk): (lh: seq<nat>)
    requires Loads(l, d)
    ensures |lh| <= LOGSIZE && |lh| == d[l.start].words[0]
    ensures forall i :: 0 <= i < |lh| ==> l.Home(lh[i]) && lh[i] == d[l.start].words[i + 1]
  {
    seq(d[l.start].words[0], i requires 0 <= i < d[l.start].words[0] => d[l.start].words[i + 1])
  }

  /** It also fits the log area. */
  predicate ValidHead(l: Layout, d: Disk) {
    && Fits(l, d)
    && var h := d[l.start].words;
    && 0 <= h[0] <= LOGSIZE && h[0] < l.size
    && forall j :: 1 <= j <= h[0] ==> l.Home(h[j])
  }

  predicate Clean(l: Layout, d: Disk) {
    Fits(l, d) && d[l.start].words[0] == 0
  }

  function HeadN(l: Layout, d: Disk): nat
    requires ValidHead(l, d)
  {
    d[l.start].words[0]
  }

  function Entry(l: Layout, d: Disk, i: nat): (r: nat)
    requires ValidHead(l, d) && i < HeadN(l, d)
    ensures l.Home(r)
  {
    d[l.start].words[i + 1]
  }

  // ------------------------------------------------------------ recovery

  /** install_trans after k turns: the first k log blocks copied home. */
  function InstallAt(l: Layout, d: Disk, k: nat): (r: Disk)
    requires ValidHead(l, d) && k <= HeadN(l, d)
    ensures |r| == |d|
  {
    if k == 0 then d else InstallAt(l, d, k - 1)[Entry(l, d, k - 1) := d[l.start + k]]
  }

  /** recover_from_log: install everything, then write an empty header. */
  function Recover(l: Layout, d: Disk): (r: Disk)
    requires ValidHead(l, d)
    ensures |r| == |d|
  {
    InstallAt(l, d, HeadN(l, d))[l.start := HeadBlock(d[l.start], [])]
  }

  /** The disk after the first k block writes of a recovery. */
  function RecoverAt(l: Layout, d: Disk, k: nat): (r: Disk)
    requires ValidHead(l, d) && k <= HeadN(l, d) + 1
    ensures |r| == |d|
  {
    if k <= HeadN(l, d) then InstallAt(l, d, k) else Recover(l, d)
  }

  /** The block that the first n log entries give to home block b; the home
      block itself when none names it. Later entries win. */
  function Replayed(l: Layout, d: Disk, b: nat, n: nat): Block
    requires ValidHead(l, d) && n <= HeadN(l, d) && l.Home(b)
    decreases n
  {
    if n == 0 then d[b]
    else if Entry(l, d, n - 1) == b then d[l.start + n]
    else Replayed(l, d, b, n - 1)
  }

  /** The durable value of home block b: what a completed recovery puts there. */
  function Meaning(l: Layout, d: Disk, b: nat): Block
    requires ValidHead(l, d) && l.Home(b)
  {
    Replayed(l, d, b, HeadN(l, d))
  }

  ghost predicate SameMeaning(l: Layout, d: Disk, e: Disk) {
    ValidHead(l, d) && ValidHead(l, e) && forall b: nat :: l.Home(b) ==> Meaning(l, d, b) == Meaning(l, e, b)
  }

  /** The first k turns of install_trans install the first k entries and leave
      the log area alone. */
  lemma {:induction false} InstallPrefix(l: Layout, d: Disk, k: nat)
    requires ValidHead(l, d) && k <= HeadN(l, d)
    ensures forall a :: l.start <= a < l.start + l.size ==> InstallAt(l, d, k)[a] == d[a]
    ensures forall b: nat :: l.Home(b) ==> InstallAt(l, d, k)[b] == Replayed(l, d, b, k)
  {
    if k > 0 {
      InstallPrefix(l, d, k - 1);
    }
  }

  /** One turn of install_trans finds its log block as it was. */
  lemma InstallTurn(l: Layout, d: Disk, k: nat)
    requires ValidHead(l, d) && k < HeadN(l, d)
    ensures l.start + k + 1 < |d| && Entry(l, d, k) < |d| && !l.Home(l.start + k + 1)
    ensures InstallAt(l, d, k)[l.start + k + 1] == d[l.start + k + 1]
    ensures InstallAt(l, d, k + 1) == InstallAt(l, d, k)[Entry(l, d, k) := d[l.start + k + 1]]
    ensures InstallAt(l, d, k + 1) == RecoverAt(l, d, k + 1)
    ensures Fits(l, InstallAt(l, d, k + 1))
  {
    InstallPrefix(l, d, k);
    InstallPrefix(l, d, k + 1);
  }

  lemma InstallKeepsHead(l: Layout, d: Disk, k: nat)
    requires ValidHead(l, d) && k <= HeadN(l, d)
    ensures Fits(l, InstallAt(l, d, k)) && InstallAt(l, d, k)[l.start] == d[l.start]
  {
    InstallPrefix(l, d, k);
  }

  /** Installing the first m entries early changes no replay of m or more. */
  lemma {:induction false} ReplayedAgrees(l: Layout, d: Disk, e: Disk, b: nat, m: nat, n: nat)
    requires ValidHead(l, d) && ValidHead(l, e) && m <= n <= HeadN(l, d) && l.Home(b)
    requires forall a :: l.start <= a < l.start + l.size ==> e[a] == d[a]
    requires e[b] == Replayed(l, d, b, m)
    ensures Replayed(l, e, b, n) == Replayed(l, d, b, n)
  {
    if n > 0 && Entry(l, d, n - 1) != b {
      ReplayedAgrees(l, d, e, b, if m == n then n - 1 else m, n - 1);
    }
  }

  /** A completed recovery puts every block's meaning at home and empties the header. */
  lemma RecoverInstalls(l: Layout, d: Disk)
    requires ValidHead(l, d)
    ensures Clean(l, Recover(l, d))
    ensures forall b: nat :: l.Home(b) ==> Recover(l, d)[b] == Meaning(l, d, b)
  {
    InstallPrefix(l, d, HeadN(l, d));
  }

  /** A crash after any number of recovery writes loses nothing: the disk still
      means the same, so recovering again gives the same home blocks. */
  lemma RecoveryCrash(l: Layout, d: Disk, k: nat)
    requires ValidHead(l, d) && k <= HeadN(l, d) + 1
    ensures SameMeaning(l, RecoverAt(l, d, k), d)
  {
    if k <= HeadN(l, d) {
      var e := InstallAt(l, d, k);
      InstallPrefix(l, d, k);
      forall b: nat | l.Home(b) ensures Meaning(l, e, b) == Meaning(l, d, b) {
        ReplayedAgrees(l, d, e, b, k, HeadN(l, d));
      }
    } else {
      RecoverInstalls(l, d);
    }
  }

  /** The disk reached from d by recoveries that each crash after the given number of writes. */
  function Interrupted(l: Layout, d: Disk, crashes: seq<nat>): (r: Disk)
    requires ValidHead(l, d)
    ensures ValidHead(l, r)
    decreases |crashes|
  {
    if crashes == [] then d
    else
      var k := if crashes[0] <= HeadN(l, d) then crashes[0] else HeadN(l, d) + 1;
      RecoveryCrash(l, d, k);
      Interrupted(l, RecoverAt(l, d, k), crashes[1..])
  }

  lemma {:induction false} InterruptedMeaning(l: Layout, d: Disk, crashes: seq<nat>)
    requires ValidHead(l, d)
    ensures SameMeaning(l, Interrupted(l, d, crashes), d)
    decreases |crashes|
  {
    if crashes != [] {
      var k := if crashes[0] <= HeadN(l, d) then crashes[0] else HeadN(l, d) + 1;
      RecoveryCrash(l, d, k);
      InterruptedMeaning(l, RecoverAt(l, d, k), crashes[1..]);
    }
  }

  // ------------------------------------------------------------ commit

  /** What commit() needs of the in-memory header and the pinned buffers. */
  predicate Committable(l: Layout, lh: seq<nat>, cache: map<nat, Block>) {
    && l.Valid()
    && |lh| <= LOGSIZE && |lh| < l.size
    && forall i :: 0 <= i < |lh| ==> lh[i] in cache && l.Home(lh[i])
  }

  /** write_log after k turns. */
  function LogAt(l: Layout, d: Disk, lh: seq<nat>, cache: map<nat, Block>, k: nat): (r: Disk)
    requires Committable(l, lh, cache) && Fits(l, d) && k <= |lh|
    ensures |r| == |d|
  {
    if k == 0 then d else LogAt(l, d, lh, cache, k - 1)[l.start + k := cache[lh[k - 1]]]
  }

  /** write_log, then write_head: the commit point. */
  function Logged(l: Layout, d: Disk, lh: seq<nat>, cache: map<nat, Block>): (r: Disk)
    requires Committable(l, lh, cache) && Fits(l, d)
    ensures |r| == |d|
  {
    LogAt(l, d, lh, cache, |lh|)[l.start := HeadBlock(d[l.start], lh)]
  }

  /** write_log moves no home block and leaves the header. */
  lemma {:induction false} LogPrefix(l: Layout, d: Disk, lh: seq<nat>, cache: map<nat, Block>, k: nat)
    requires Committable(l, lh, cache) && Fits(l, d) && k <= |lh|
    ensures forall b :: l.Home(b) ==> LogAt(l, d, lh, cache, k)[b] == d[b]
    ensures forall i :: 0 <= i < k ==> LogAt(l, d, lh, cache, k)[l.start + 1 + i] == cache[lh[i]]
    ensures LogAt(l, d, lh, cache, k)[l.start] == d[l.start]
  {
    if k > 0 {
      LogPrefix(l, d, lh, cache, k - 1);
    }
  }

  lemma LoggedShape(l: Layout, d: Disk, lh: seq<nat>, cache: map<nat, Block>)
    requires Committable(l, lh, cache) && Fits(l, d)
    ensures var e := Logged(l, d, lh, cache);
            && ValidHead(l, e) && HeadN(l, e) == |lh|
            && (forall b :: l.Home(b) ==> e[b] == d[b])
            && (forall i :: 0 <= i < |lh| ==> e[l.start + 1 + i] == cache[lh[i]] && Entry(l, e, i) == lh[i])
  {
    LogPrefix(l, d, lh, cache, |lh|);
  }

  /** How many blocks commit() writes. */
  function CommitLen(lh: seq<nat>): nat {
    if lh == [] then 0 else 2 * |lh| + 2
  }

  /** The disk after the first k block writes of commit(): log blocks, header, home
      blocks, empty header. From the header on it is a recovery. */
  function CommitAt(l: Layout, d: Disk, lh: seq<nat>, cache: map<nat, Block>, k: nat): (r: Disk)
    requires Committable(l, lh, cache) && Fits(l, d) && k <= CommitLen(lh)
    ensures |r| == |d|
  {
    if k <= |lh| then LogAt(l, d, lh, cache, k)
    else
      LoggedShape(l, d, lh, cache);
      RecoverAt(l, Logged(l, d, lh, cache), k - |lh| - 1)
  }

  /** Each of commit()'s steps writes one block: log block k, the header, home block
      k - |lh| - 1, the empty header. */
  lemma CommitStep(l: Layout, d: Disk, lh: seq<nat>, cache: map<nat, Block>, k: nat)
    requires Committable(l, lh, cache) && Fits(l, d) && k < CommitLen(lh)
    ensures var n := |lh|;
            var e := CommitAt(l, d, lh, cache, k);
            CommitAt(l, d, lh, cache, k + 1) ==
              if k < n then e[l.start + k + 1 := cache[lh[k]]]
              else if k == n then e[l.start := HeadBlock(d[l.start], lh)]
              else if k <= 2 * n then e[lh[k - n - 1] := cache[lh[k - n - 1]]]
              else e[l.start := HeadBlock(HeadBlock(d[l.start], lh), [])]
  {
    hide ValidHead, Committable, HeadBlock, InstallAt;
    if k < |lh| {
      hide RecoverAt, Logged;
    } else if k == |lh| {
      LoggedShape(l, d, lh, cache);
      InstallNone(l, Logged(l, d, lh, cache));
    } else if k <= 2 * |lh| {
      CommitHome(l, d, lh, cache, k);
    } else {
      CommitEnd(l, d, lh, cache);
    }
  }

  lemma InstallNone(l: Layout, d: Disk)
    requires ValidHead(l, d)
    ensures InstallAt(l, d, 0) == d
  {
  }

  /** install_trans's part of it. */
  lemma CommitHome(l: Layout, d: Disk, lh: seq<nat>, cache: map<nat, Block>, k: nat)
    requires Committable(l, lh, cache) && Fits(l, d) && |lh| < k <= 2 * |lh|
    ensures var i := k - |lh| - 1;
      CommitAt(l, d, lh, cache, k + 1) == CommitAt(l, d, lh, cache, k)[lh[i] := cache[lh[i]]]
  {
    hide ValidHead, HeadBlock, LogAt, Logged, Recover, InstallAt;
    LoggedShape(l, d, lh, cache);
    var mid, i := Logged(l, d, lh, cache), k - |lh| - 1;
    InstallTurn(l, mid, i);
    assert mid[l.start + 1 + i] == cache[lh[i]];
  }

  /** commit() ends as a recovery does. */
  lemma CommitEnd(l: Layout, d: Disk, lh: seq<nat>, cache: map<nat, Block>)
    requires Committable(l, lh, cache) && Fits(l, d) && lh != []
    ensures ValidHead(l, Logged(l, d, lh, cache)) && HeadN(l, Logged(l, d, lh, cache)) == |lh|
    ensures CommitAt(l, d, lh, cache, CommitLen(lh)) == Recover(l, Logged(l, d, lh, cache))
    ensures CommitAt(l, d, lh, cache, CommitLen(lh) - 1) == InstallAt(l, Logged(l, d, lh, cache), |lh|)
    ensures Logged(l, d, lh, cache)[l.start] == HeadBlock(d[l.start], lh)
  {
    LoggedShape(l, d, lh, cache);
  }

  /** The home blocks a transaction asks for. */
  function Target(d: Disk, lh: seq<nat>, cache: map<nat, Block>, b: nat): Block
    requires b < |d|
  {
    if b in lh && b in cache then cache[b] else d[b]
  }

  lemma {:induction false} LoggedReplay(l: Layout, d: Disk, lh: seq<nat>, cache: map<nat, Block>,
                                        e: Disk, b: nat, n: nat)
    requires Committable(l, lh, cache) && Fits(l, d) && l.Home(b) && n <= |lh|
    requires ValidHead(l, e) && HeadN(l, e) == |lh| && e[b] == d[b]
    requires forall i :: 0 <= i < |lh| ==> e[l.start + 1 + i] == cache[lh[i]] && Entry(l, e, i) == lh[i]
    ensures Replayed(l, e, b, n) == Target(d, lh[..n], cache, b)
  {
    if n > 0 {
      LoggedReplay(l, d, lh, cache, e, b, n - 1);
      assert lh[..n] == lh[..n - 1] + [lh[n - 1]];
      assert e[l.start + 1 + (n - 1)] == cache[lh[n - 1]];
    }
  }

  /** write_head is the commit point: the logged disk means the whole transaction. */
  lemma CommitPoint(l: Layout, d: Disk, lh: seq<nat>, cache: map<nat, Block>)
    requires Committable(l, lh, cache) && Fits(l, d)
    ensures ValidHead(l, Logged(l, d, lh, cache))
    ensures forall b: nat :: l.Home(b) ==> Meaning(l, Logged(l, d, lh, cache), b) == Target(d, lh, cache, b)
  {
    LoggedShape(l, d, lh, cache);
    assert lh[..|lh|] == lh;
    forall b: nat | l.Home(b) ensures Meaning(l, Logged(l, d, lh, cache), b) == Target(d, lh, cache, b) {
      LoggedReplay(l, d, lh, cache, Logged(l, d, lh, cache), b, |lh|);
    }
  }

  /** A crash after any k of commit()'s writes: up to and including the last
      log block the disk means the old home blocks; from the header write on it
      means the transaction. */
  lemma CommitCrash(l: Layout, d: Disk, lh: seq<nat>, cache: map<nat, Block>, k: nat)
    requires Committable(l, lh, cache) && Clean(l, d) && k <= CommitLen(lh)
    ensures ValidHead(l, CommitAt(l, d, lh, cache, k))
    ensures forall b: nat :: l.Home(b) ==>
              Meaning(l, CommitAt(l, d, lh, cache, k), b) == if k <= |lh| then d[b] else Target(d, lh, cache, b)
  {
    if k <= |lh| {
      LogPrefix(l, d, lh, cache, k);
    } else {
      CommitPoint(l, d, lh, cache);
      LoggedShape(l, d, lh, cache);
      RecoveryCrash(l, Logged(l, d, lh, cache), k - |lh| - 1);
    }
  }

  /** Crash atomicity. Crash commit() after any k writes, crash any number of
      recoveries anywhere, and let one recovery finish: the header is empty and
      the home blocks are all as before the transaction or all as after it. */
  lemma CrashAtomicity(l: Layout, d: Disk, lh: seq<nat>, cache: map<nat, Block>, k: nat, crashes: seq<nat>)
    requires Committable(l, lh, cache) && Clean(l, d) && k <= CommitLen(lh)
    ensures ValidHead(l, CommitAt(l, d, lh, cache, k))
    ensures var r := Recover(l, Interrupted(l, CommitAt(l, d, lh, cache, k), crashes));
            && Clean(l, r)
            && forall b: nat :: l.Home(b) ==>
                 r[b] == if k <= |lh| then d[b] else Target(d, lh, cache, b)
  {
    CommitCrash(l, d, lh, cache, k);
    var e := CommitAt(l, d, lh, cache, k);
    InterruptedMeaning(l, e, crashes);
    RecoverInstalls(l, Interrupted(l, e, crashes));
  }

  /** A completed commit leaves a clean log and the transaction at home. */
  lemma CommitCompletes(l: Layout, d: Disk, lh: seq<nat>, cache: map<nat, Block>)
    requires Committable(l, lh, cache) && Clean(l, d)
    ensures var r := CommitAt(l, d, lh, cache, CommitLen(lh));
            Clean(l, r) && forall b: nat :: l.Home(b) ==> r[b] == Target(d, lh, cache, b)
  {
    if lh != [] {
      CommitPoint(l, d, lh, cache);
      LoggedShape(l, d, lh, cache);
      RecoverInstalls(l, Logged(l, d, lh, cache));
    }
  }

  // ------------------------------------------------------------ one write at a time, through the buffers

  /** The disk, and the buffers with B_DIRTY set; every other buffer equals its disk block. */
  datatype Store = Store(disk: Disk, cache: map<nat, Block>)

  /** What bread returns. */
  function Look(s: Store, b: nat): Block
    requires b < |s.disk|
  {
    if b in s.cache then s.cache[b] else s.disk[b]
  }

  /** bwrite: one atomic disk write; the buffer is no longer dirty. */
  function Put(s: Store, b: nat, x: Block): (t: Store)
    requires b < |s.disk|
    ensures |t.disk| == |s.disk|
  {
    Store(s.disk[b := x], s.cache - {b})
  }

  /** bread of a block that nobody holds returns: the block exists, and is pinned or finds a
      buffer that is neither dirty nor among the `busy` ones that are held and not dirty. */
  predicate Gets(l: Layout, s: Store, b: nat, busy: nat) {
    b < |s.disk| && (b in s.cache || |s.cache| + busy < l.nbuf)
  }

  /** The two breads of a turn of write_log or install_trans. For twice the same block the
      second would wait for the first. */
  predicate Turn(l: Layout, s: Store, log: nat, home: nat) {
    Gets(l, s, log, 0) && home != log && Gets(l, s, home, if log in s.cache then 0 else 1)
  }

  /** Block write k of commit() with the in-memory header lh, whatever its length, gets its
      buffers. From write |lh| + 1 on it is also write k - |lh| - 1 of a recovery. */
  predicate CanWrite(l: Layout, lh: seq<nat>, s: Store, k: nat) {
    && Fits(l, s.disk) && l.start !in s.cache && |lh| <= LOGSIZE && k < 2 * |lh| + 2
    && if k < |lh| then Turn(l, s, l.start + k + 1, lh[k])
       else if |lh| < k <= 2 * |lh| then Turn(l, s, l.start + (k - |lh|), lh[k - |lh| - 1])
       else Gets(l, s, l.start, 0)
  }

  function Write(l: Layout, lh: seq<nat>, s: Store, k: nat): (t: Store)
    requires CanWrite(l, lh, s, k)
    ensures |t.disk| == |s.disk|
  {
    if k < |lh| then Put(s, l.start + k + 1, Look(s, lh[k]))
    else if k == |lh| then Put(s, l.start, HeadBlock(Look(s, l.start), lh))
    else if k <= 2 * |lh| then Put(s, lh[k - |lh| - 1], Look(s, l.start + (k - |lh|)))
    else Put(s, l.start, HeadBlock(Look(s, l.start), []))
  }

  /** Only blocks of the transaction are pinned. */
  ghost predicate Pinned(cache: map<nat, Block>, lh: seq<nat>) {
    forall b :: b in cache ==> b in lh
  }

  /** How many home blocks the first k writes have installed. */
  function Installed(lh: seq<nat>, k: nat): (m: nat)
    ensures m <= |lh|
  {
    if k <= |lh| + 1 then 0 else if k - |lh| - 1 <= |lh| then k - |lh| - 1 else |lh|
  }

  /** The pins that are left once the first m home blocks are written. */
  ghost function PinsLeft(lh: seq<nat>, pins: map<nat, Block>, m: nat): map<nat, Block>
    requires m <= |lh|
  {
    pins - set b | b in lh[..m]
  }

  lemma PinsNone(lh: seq<nat>, pins: map<nat, Block>)
    ensures PinsLeft(lh, pins, 0) == pins
    ensures Pinned(pins, lh) ==> PinsLeft(lh, pins, |lh|) == map[]
  {
    assert lh[..|lh|] == lh;
    assert Pinned(pins, lh) ==> PinsLeft(lh, pins, |lh|).Keys == {};
  }

  lemma PinsNext(lh: seq<nat>, pins: map<nat, Block>, m: nat)
    requires m < |lh|
    ensures PinsLeft(lh, pins, m + 1) == PinsLeft(lh, pins, m) - {lh[m]}
  {
    assert lh[..m + 1] == lh[..m] + [lh[m]];
  }

  /** Block b left the pins, or is still there. */
  lemma PinsCount(lh: seq<nat>, pins: map<nat, Block>, m: nat, b: nat)
    requires m <= |lh| && b in pins
    ensures |PinsLeft(lh, pins, m)| <= |pins|
    ensures b in PinsLeft(lh, pins, m) || |PinsLeft(lh, pins, m)| < |pins|
  {
    var rest := PinsLeft(lh, pins, m);
    Fewer(rest.Keys, pins.Keys);
    assert b !in rest ==> rest.Keys < pins.Keys;
    assert |rest| == |rest.Keys| && |pins| == |pins.Keys|;
  }

  lemma Fewer<T>(x: set<T>, y: set<T>)
    requires x <= y
    ensures |x| <= |y|
    ensures x < y ==> |x| < |y|
  {
    assert y == x + (y - x);
  }

  lemma ValidLoads(l: Layout, d: Disk)
    requires ValidHead(l, d)
    ensures Loads(l, d) && |Header(l, d)| == HeadN(l, d)
    ensures forall i :: 0 <= i < HeadN(l, d) ==> Header(l, d)[i] == Entry(l, d, i)
  {
  }

  /** The two writes of write_head. */
  lemma HeadIs(l: Layout, lh: seq<nat>, s: Store, k: nat)
    requires Fits(l, s.disk) && l.start !in s.cache && |lh| <= LOGSIZE && (k == |lh| || k == 2 * |lh| + 1)
    ensures CanWrite(l, lh, s, k) <==> Gets(l, s, l.start, 0)
    ensures CanWrite(l, lh, s, k) ==>
      Write(l, lh, s, k) == Put(s, l.start, HeadBlock(s.disk[l.start], if k == |lh| then lh else []))
  {
  }

  lemma TurnIn(l: Layout, s: Store, log: nat, home: nat)
    requires Turn(l, s, log, home)
    ensures log < |s.disk| && home < |s.disk|
  {
  }

  /** Turn `tail` of write_log. */
  lemma LogTurnIs(l: Layout, lh: seq<nat>, s: Store, tail: nat)
    requires Fits(l, s.disk) && l.start !in s.cache && |lh| <= LOGSIZE && tail < |lh|
    ensures CanWrite(l, lh, s, tail) <==> Turn(l, s, l.start + tail + 1, lh[tail])
    ensures CanWrite(l, lh, s, tail) ==>
      && l.start + tail + 1 < |s.disk| && lh[tail] < |s.disk|
      && Write(l, lh, s, tail) == Put(s, l.start + tail + 1, Look(s, lh[tail]))
  {
    hide Turn, Gets, HeadBlock;
    if CanWrite(l, lh, s, tail) { TurnIn(l, s, l.start + tail + 1, lh[tail]); }
  }

  /** Turn `tail` of install_trans. */
  lemma InstallTurnIs(l: Layout, lh: seq<nat>, s: Store, tail: nat)
    requires Fits(l, s.disk) && l.start !in s.cache && |lh| <= LOGSIZE && tail < |lh|
    ensures CanWrite(l, lh, s, |lh| + 1 + tail) <==> Turn(l, s, l.start + tail + 1, lh[tail])
    ensures CanWrite(l, lh, s, |lh| + 1 + tail) ==>
      && l.start + tail + 1 < |s.disk| && lh[tail] < |s.disk|
      && Write(l, lh, s, |lh| + 1 + tail) == Put(s, lh[tail], Look(s, l.start + tail + 1))
  {
    hide Turn, Gets, HeadBlock;
    if CanWrite(l, lh, s, |lh| + 1 + tail) { TurnIn(l, s, l.start + tail + 1, lh[tail]); }
  }

  lemma TurnGets(l: Layout, s: Store, log: nat, home: nat)
    requires log < |s.disk| && home < |s.disk| && log != home && log !in s.cache
    ensures home in s.cache ==> (Turn(l, s, log, home) <==> |s.cache| < l.nbuf)
    ensures |s.cache| + 1 < l.nbuf ==> Turn(l, s, log, home)
    ensures s.cache - {log} == s.cache
  {
  }

  lemma HeadGets(l: Layout, s: Store)
    requires Fits(l, s.disk) && l.start !in s.cache && |s.cache| < l.nbuf
    ensures Gets(l, s, l.start, 0) && Look(s, l.start) == s.disk[l.start] && s.cache - {l.start} == s.cache
  {
  }

  /** The log area is not pinned. */
  lemma LogArea(l: Layout, lh: seq<nat>, pins: map<nat, Block>, i: nat)
    requires Committable(l, lh, pins) && Pinned(pins, lh) && i < |lh|
    ensures l.start !in pins && l.start + i + 1 !in pins && l.start + i + 1 < l.nblocks && lh[i] in pins
    ensures lh[i] < l.nblocks && lh[i] != l.start + i + 1
  {
  }

  /** Where the transaction fits, commit()'s writes are those of CommitAt: first write_log's. */
  lemma LogGoes(l: Layout, d: Disk, lh: seq<nat>, pins: map<nat, Block>, k: nat)
    requires Committable(l, lh, pins) && Pinned(pins, lh) && Fits(l, d) && k < |lh|
    ensures var s := Store(CommitAt(l, d, lh, pins, k), pins);
      && (CanWrite(l, lh, s, k) <==> |pins| < l.nbuf)
      && (CanWrite(l, lh, s, k) ==> Write(l, lh, s, k) == Store(CommitAt(l, d, lh, pins, k + 1), pins))
  {
    hide CommitAt, LogAt, HeadBlock, Turn, Gets, Pinned;
    LogArea(l, lh, pins, k);
    CommitFits(l, d, lh, pins, k);
    CommitStep(l, d, lh, pins, k);
    TurnGets(l, Store(CommitAt(l, d, lh, pins, k), pins), l.start + k + 1, lh[k]);
  }

  lemma CommitFits(l: Layout, d: Disk, lh: seq<nat>, pins: map<nat, Block>, k: nat)
    requires Committable(l, lh, pins) && Fits(l, d) && k <= CommitLen(lh)
    ensures Fits(l, CommitAt(l, d, lh, pins, k))
    ensures CommitAt(l, d, lh, pins, k)[l.start] ==
      if k <= |lh| then d[l.start]
      else if k < CommitLen(lh) then HeadBlock(d[l.start], lh)
      else HeadBlock(HeadBlock(d[l.start], lh), [])
    ensures k > |lh| ==> forall i :: 0 <= i < |lh| ==> CommitAt(l, d, lh, pins, k)[l.start + i + 1] == pins[lh[i]]
  {
    if k <= |lh| {
      LogPrefix(l, d, lh, pins, k);
    } else {
      LoggedShape(l, d, lh, pins);
      var mid := Logged(l, d, lh, pins);
      InstallPrefix(l, mid, if k - |lh| - 1 <= |lh| then k - |lh| - 1 else |lh|);
    }
  }

  lemma HeadGoes(l: Layout, d: Disk, lh: seq<nat>, pins: map<nat, Block>, k: nat, rest: map<nat, Block>)
    requires Committable(l, lh, pins) && Fits(l, d) && lh != [] && (k == |lh| || k == 2 * |lh| + 1)
    requires l.start !in rest && |rest| < l.nbuf
    ensures var s := Store(CommitAt(l, d, lh, pins, k), rest);
      CanWrite(l, lh, s, k) && Write(l, lh, s, k) == Store(CommitAt(l, d, lh, pins, k + 1), rest)
  {
    hide CommitAt, LogAt, HeadBlock, Turn, Gets;
    CommitFits(l, d, lh, pins, k);
    CommitStep(l, d, lh, pins, k);
    HeadGets(l, Store(CommitAt(l, d, lh, pins, k), rest));
  }

  lemma InstallGoes(l: Layout, d: Disk, lh: seq<nat>, pins: map<nat, Block>, i: nat)
    requires Committable(l, lh, pins) && Pinned(pins, lh) && Fits(l, d) && i < |lh| && |pins| < l.nbuf
    ensures var k := |lh| + 1 + i; var s := Store(CommitAt(l, d, lh, pins, k), PinsLeft(lh, pins, i));
      && CanWrite(l, lh, s, k)
      && Write(l, lh, s, k) == Store(CommitAt(l, d, lh, pins, k + 1), PinsLeft(lh, pins, i + 1))
  {
    hide CommitAt, LogAt, HeadBlock, Turn, Gets, Pinned, PinsLeft;
    var k := |lh| + 1 + i;
    LogArea(l, lh, pins, i);
    CommitFits(l, d, lh, pins, k);
    CommitStep(l, d, lh, pins, k);
    PinsFewer(lh, pins, i);
    PinsCount(lh, pins, i, lh[i]);
    PinsNext(lh, pins, i);
    TurnGets(l, Store(CommitAt(l, d, lh, pins, k), PinsLeft(lh, pins, i)), l.start + i + 1, lh[i]);
  }

  lemma PinsFewer(lh: seq<nat>, pins: map<nat, Block>, m: nat)
    requires m <= |lh|
    ensures forall b :: b in PinsLeft(lh, pins, m) ==> b in pins
    ensures |PinsLeft(lh, pins, m)| <= |pins|
  {
    Fewer(PinsLeft(lh, pins, m).Keys, pins.Keys);
    assert |PinsLeft(lh, pins, m)| == |PinsLeft(lh, pins, m).Keys|;
  }

  /** All of it: the first write goes through exactly when fewer blocks are pinned than there
      are buffers, and then so do the others, and they are those of CommitAt. */
  lemma CommitGoes(l: Layout, d: Disk, lh: seq<nat>, pins: map<nat, Block>, k: nat)
    requires Committable(l, lh, pins) && Pinned(pins, lh) && Fits(l, d) && k < CommitLen(lh)
    ensures var s := Store(CommitAt(l, d, lh, pins, k), PinsLeft(lh, pins, Installed(lh, k)));
      && (|pins| < l.nbuf ==>
            && CanWrite(l, lh, s, k)
            && Write(l, lh, s, k) == Store(CommitAt(l, d, lh, pins, k + 1), PinsLeft(lh, pins, Installed(lh, k + 1))))
      && (k == 0 ==> (CanWrite(l, lh, s, k) <==> |pins| < l.nbuf))
  {
    hide CommitAt, CanWrite, Write, PinsLeft, Pinned;
    PinsNone(lh, pins);
    LogArea(l, lh, pins, 0);
    if k < |lh| {
      LogGoes(l, d, lh, pins, k);
    } else if |pins| < l.nbuf {
      if |lh| < k <= 2 * |lh| {
        InstallGoes(l, d, lh, pins, k - |lh| - 1);
      } else {
        PinsFewer(lh, pins, Installed(lh, k));
        HeadGoes(l, d, lh, pins, k, PinsLeft(lh, pins, Installed(lh, k)));
      }
    }
  }

  lemma RecoverStep(l: Layout, d: Disk, k: nat)
    requires ValidHead(l, d) && k <= HeadN(l, d)
    ensures Fits(l, RecoverAt(l, d, k)) && RecoverAt(l, d, k)[l.start] == d[l.start]
    ensures k < HeadN(l, d) ==> l.start + k + 1 < |d| && Entry(l, d, k) != l.start + k + 1
    ensures RecoverAt(l, d, k + 1) ==
      if k < HeadN(l, d) then RecoverAt(l, d, k)[Entry(l, d, k) := RecoverAt(l, d, k)[l.start + k + 1]]
                                     else RecoverAt(l, d, k)[l.start := HeadBlock(d[l.start], [])]
  {
    InstallKeepsHead(l, d, k);
    if k < HeadN(l, d) {
      InstallTurn(l, d, k);
    }
  }

  lemma RecoverTurn(l: Layout, lh: seq<nat>, d: Disk, e: Disk, k: nat)
    requires Fits(l, d) && |lh| <= LOGSIZE && k < |lh| && l.start + k + 1 < |d| && lh[k] < |d|
    requires lh[k] != l.start + k + 1
    requires e == d[lh[k] := d[l.start + k + 1]]
    ensures var s := Store(d, map[]); CanWrite(l, lh, s, |lh| + 1 + k)
    ensures var s := Store(d, map[]); Write(l, lh, s, |lh| + 1 + k) == Store(e, map[])
  {
    hide Turn, Gets, CanWrite, Write;
    var s := Store(d, map[]);
    InstallTurnIs(l, lh, s, k);
    TurnGets(l, s, l.start + k + 1, lh[k]);
    assert s.cache - {lh[k]} == map[];
  }

  lemma RecoverErase(l: Layout, lh: seq<nat>, d: Disk)
    requires Fits(l, d) && |lh| <= LOGSIZE
    ensures CanWrite(l, lh, Store(d, map[]), 2 * |lh| + 1)
    ensures Write(l, lh, Store(d, map[]), 2 * |lh| + 1) == Store(d[l.start := HeadBlock(d[l.start], [])], map[])
  {
    hide Turn, Gets, CanWrite, Write, HeadBlock;
    HeadIs(l, lh, Store(d, map[]), 2 * |lh| + 1);
    HeadGets(l, Store(d, map[]));
  }

  /** The writes of a recovery from a header that fits: each gets its buffers. */
  lemma RecoverGoes(l: Layout, d: Disk, k: nat)
    requires ValidHead(l, d) && k <= HeadN(l, d)
    ensures Loads(l, d)
    ensures var lh, s := Header(l, d), Store(RecoverAt(l, d, k), map[]);
      CanWrite(l, lh, s, |lh| + 1 + k) && Write(l, lh, s, |lh| + 1 + k) == Store(RecoverAt(l, d, k + 1), map[])
  {
    hide RecoverAt, HeadBlock, ValidHead, Loads, CanWrite, Write, Fits;
    ValidLoads(l, d);
    RecoverStep(l, d, k);
    if k < HeadN(l, d) {
      RecoverTurn(l, Header(l, d), RecoverAt(l, d, k), RecoverAt(l, d, k + 1), k);
    } else {
      RecoverErase(l, Header(l, d), RecoverAt(l, d, k));
    }
  }

  /** Block writes i to k, or none of it when one of them does not get its buffers. */
  function Steps(l: Layout, lh: seq<nat>, s: Store, i: nat, k: nat): (r: Option<Store>)
    ensures r.Some? ==> |r.value.disk| == |s.disk|
    decreases k
  {
    if k <= i then Some(s)
    else
      match Steps(l, lh, s, i, k - 1)
      case None => None
      case Some(t) => if CanWrite(l, lh, t, k - 1) then Some(Write(l, lh, t, k - 1)) else None
  }

  /** A step that is not taken ends it. */
  lemma {:induction false} StepsEnd(l: Layout, lh: seq<nat>, s: Store, i: nat, j: nat, k: nat)
    requires i <= j <= k && Steps(l, lh, s, i, j).None?
    ensures Steps(l, lh, s, i, k).None?
    decreases k - j
  {
    hide CanWrite, Write;
    if j < k {
      StepsEnd(l, lh, s, i, j, k - 1);
    }
  }

  /** Where the transaction fits and there are buffers, they are commit()'s disks. */
  lemma {:induction false} StepsCommit(l: Layout, d: Disk, lh: seq<nat>, pins: map<nat, Block>, k: nat)
    requires Committable(l, lh, pins) && Pinned(pins, lh) && Fits(l, d) && k <= CommitLen(lh) && |pins| < l.nbuf
    ensures Steps(l, lh, Store(d, pins), 0, k) ==
      Some(Store(CommitAt(l, d, lh, pins, k), PinsLeft(lh, pins, Installed(lh, k))))
  {
    hide CanWrite, Write, PinsLeft, Pinned, Committable;
    if k == 0 {
      PinsNone(lh, pins);
    } else {
      hide CommitAt;
      StepsCommit(l, d, lh, pins, k - 1);
      CommitGoes(l, d, lh, pins, k - 1);
    }
  }

  /** From a header that fits, they are a recovery's disks. */
  lemma {:induction false} StepsRecover(l: Layout, d: Disk, k: nat)
    requires ValidHead(l, d) && k <= HeadN(l, d) + 1
    ensures Loads(l, d)
    ensures var h := Header(l, d);
      Steps(l, h, Store(d, map[]), |h| + 1, |h| + 1 + k) == Some(Store(RecoverAt(l, d, k), map[]))
  {
    hide CanWrite, Write;
    ValidLoads(l, d);
    if k > 0 {
      StepsRecover(l, d, k - 1);
      RecoverGoes(l, d, k - 1);
    }
  }
}
