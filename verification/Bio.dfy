/** bio.c: the doubly linked ring of buffers. Buffer n is bcache.head. The disk is
    iderw's, done at once; ide.c's queue is the subject of module Ide. */
module Bio {
  import opened Common

  type Data = seq<nat>

  datatype Key = Key(dev: int, blockno: int)

  datatype Buf = Buf(key: Key, busy: bool, valid: bool, dirty: bool, data: Data, prev: nat, next: nat)

  /** What bget and bread come to: a busy buffer, a wait for one, or a panic, in bget for want
      of a buffer or in iderw for want of a block. */
  datatype Got = Buffer(b: nat) | Waits(b: nat) | NoBuffers | NoBlock(b: nat)

  // ------------------------------------------------------------ the ring

  predicate Link(bs: seq<Buf>, a: nat, c: nat) {
    a < |bs| && c < |bs| && bs[a].next == c && bs[c].prev == a
  }

  /** Each element of the path leads to the next, and back. */
  predicate Chain(bs: seq<Buf>, path: seq<nat>) {
    |path| < 2 || (Link(bs, path[0], path[1]) && Chain(bs, path[1..]))
  }

  /** Every number below the length, once. */
  ghost predicate Whole(ring: seq<nat>) {
    && Distinct(ring)
    && (forall i :: 0 <= i < |ring| ==> ring[i] < |ring|)
    && (forall b :: 0 <= b < |ring| ==> b in ring)
  }

  /** The ring as a list, most recently used first: all buffers but the head, once each. */
  ghost predicate Ring(bs: seq<Buf>, ring: seq<nat>) {
    |bs| == |ring| + 1 && Whole(ring) && Chain(bs, [|ring|] + ring + [|ring|])
  }

  lemma {:induction false} ChainAt(bs: seq<Buf>, path: seq<nat>, i: nat)
    requires Chain(bs, path) && i + 1 < |path|
    ensures Link(bs, path[i], path[i + 1])
  {
    if i > 0 {
      ChainAt(bs, path[1..], i - 1);
    }
  }

  /** Two chains joined by a link. */
  lemma {:induction false} ChainJoin(bs: seq<Buf>, p: seq<nat>, q: seq<nat>)
    requires p != [] && q != [] && Chain(bs, p) && Chain(bs, q) && Link(bs, p[|p| - 1], q[0])
    ensures Chain(bs, p + q)
  {
    if |p| == 1 {
      assert (p + q)[1..] == q;
    } else {
      ChainJoin(bs, p[1..], q);
      assert (p + q)[1..] == p[1..] + q;
    }
  }

  lemma {:induction false} ChainSplit(bs: seq<Buf>, p: seq<nat>, q: seq<nat>)
    requires Chain(bs, p + q)
    ensures Chain(bs, p) && Chain(bs, q)
    ensures p != [] && q != [] ==> Link(bs, p[|p| - 1], q[0])
  {
    if p == [] {
      assert p + q == q;
    } else {
      assert (p + q)[1..] == p[1..] + q;
      if |p + q| >= 2 { ChainSplit(bs, p[1..], q); }
    }
  }

  /** A chain survives changes that keep the links out of all but its last element and
      into all but its first. */
  lemma {:induction false} ChainKept(bs: seq<Buf>, cs: seq<Buf>, p: seq<nat>)
    requires Chain(bs, p) && |cs| == |bs|
    requires forall i :: 0 <= i < |p| - 1 ==> p[i] < |bs| && cs[p[i]].next == bs[p[i]].next
    requires forall i :: 1 <= i < |p| ==> p[i] < |bs| && cs[p[i]].prev == bs[p[i]].prev
    ensures Chain(cs, p)
  {
    if |p| >= 2 {
      ChainKept(bs, cs, p[1..]);
    }
  }

  /** brelse's first two writes. */
  function Unlinked(bs: seq<Buf>, b: nat): (r: seq<Buf>)
    requires b < |bs| && bs[b].next < |bs| && bs[b].prev < |bs|
    ensures |r| == |bs|
  {
    var cs := bs[bs[b].next := bs[bs[b].next].(prev := bs[b].prev)];
    cs[cs[b].prev := cs[cs[b].prev].(next := cs[b].next)]
  }

  /** Its other four. */
  function Fronted(bs: seq<Buf>, b: nat): (r: seq<Buf>)
    requires 0 < |bs| && b < |bs| - 1 && bs[|bs| - 1].next < |bs|
    ensures |r| == |bs|
  {
    var h := |bs| - 1;
    var cs := bs[b := bs[b].(next := bs[h].next, prev := h)];
    var ds := cs[cs[h].next := cs[cs[h].next].(prev := b)];
    ds[h := ds[h].(next := b)]
  }

  /** The buffers apart from the pointers. */
  predicate SameBufs(bs: seq<Buf>, cs: seq<Buf>) {
    |cs| == |bs| && forall i :: 0 <= i < |bs| ==> cs[i] == bs[i].(prev := cs[i].prev, next := cs[i].next)
  }

  lemma UnlinkedAt(bs: seq<Buf>, b: nat)
    requires b < |bs| && bs[b].next < |bs| && bs[b].prev < |bs| && bs[b].next != b && bs[b].prev != b
    ensures var cs := Unlinked(bs, b); SameBufs(bs, cs) && forall i :: 0 <= i < |bs| ==>
      && cs[i].next == (if i == bs[b].prev then bs[b].next else bs[i].next)
      && cs[i].prev == (if i == bs[b].next then bs[b].prev else bs[i].prev)
  {
  }

  lemma UnlinkChain(bs: seq<Buf>, p: seq<nat>, b: nat, q: seq<nat>)
    requires Chain(bs, p + [b] + q) && p != [] && q != []
    requires b !in p && b !in q && Distinct(p) && Distinct(q)
    requires q[0] !in p[1..] && p[|p| - 1] !in q[..|q| - 1]
    ensures b < |bs| && bs[b].next == q[0] < |bs| && bs[b].prev == p[|p| - 1] < |bs|
    ensures Chain(Unlinked(bs, b), p + q) && SameBufs(bs, Unlinked(bs, b))
  {
    hide Chain;
    ChainSplit(bs, p + [b], q);
    ChainSplit(bs, p, [b]);
    assert Link(bs, p[|p| - 1], b) && Link(bs, b, q[0]);
    InRange(bs, p);
    InRange(bs, q);
    UnlinkedAt(bs, b);
    hide Unlinked, SameBufs;
    var cs := Unlinked(bs, b);
    ChainKept(bs, cs, p);
    ChainKept(bs, cs, q);
    assert Link(cs, p[|p| - 1], q[0]);
    ChainJoin(cs, p, q);
  }

  lemma {:induction false} InRange(bs: seq<Buf>, p: seq<nat>)
    requires Chain(bs, p) && |p| >= 1 && (|p| == 1 ==> p[0] < |bs|)
    ensures forall i :: 0 <= i < |p| ==> p[i] < |bs|
  {
    if |p| >= 2 {
      InRange(bs, p[1..]);
    }
  }

  lemma FrontedAt(bs: seq<Buf>, b: nat)
    requires 0 < |bs| && b < |bs| - 1 && bs[|bs| - 1].next < |bs| && bs[|bs| - 1].next != b
    ensures var h := |bs| - 1; var cs := Fronted(bs, b); SameBufs(bs, cs) && forall i :: 0 <= i < |bs| ==>
      && cs[i].next == (if i == h then b else if i == b then bs[h].next else bs[i].next)
      && cs[i].prev == (if i == bs[h].next then b else if i == b then h else bs[i].prev)
  {
  }

  /** The new links out of and into b, and the rest of the ring as it was. */
  lemma FrontLinks(bs: seq<Buf>, q: seq<nat>, b: nat)
    requires 0 < |bs| && b < |bs| - 1 && b !in q && |q| > 0 && q[|q| - 1] == |bs| - 1 && Distinct(q)
    requires Chain(bs, q) && Link(bs, |bs| - 1, q[0])
    ensures Chain(Fronted(bs, b), q) && Link(Fronted(bs, b), b, q[0]) && Link(Fronted(bs, b), |bs| - 1, b)
    ensures SameBufs(bs, Fronted(bs, b))
  {
    var h := |bs| - 1;
    hide Chain;
    InRange(bs, q);
    assert forall i :: 0 <= i < |q| - 1 ==> q[i] != h && q[i] != b;
    assert forall i :: 1 <= i < |q| ==> q[i] != q[0] && q[i] != b;
    FrontedAt(bs, b);
    hide Distinct, Fronted, SameBufs;
    ChainKept(bs, Fronted(bs, b), q);
  }

  lemma ChainOne(bs: seq<Buf>, b: nat)
    ensures Chain(bs, [b])
  {
  }

  lemma FrontChain(bs: seq<Buf>, rest: seq<nat>, b: nat)
    requires 0 < |bs| && b < |bs| - 1 && b !in rest && Chain(bs, [|bs| - 1] + rest + [|bs| - 1])
    requires Distinct(rest + [|bs| - 1])
    ensures bs[|bs| - 1].next < |bs| && SameBufs(bs, Fronted(bs, b))
    ensures Chain(Fronted(bs, b), [|bs| - 1] + ([b] + rest) + [|bs| - 1])
  {
    hide Fronted, Distinct, SameBufs, Chain, Link;
    var h := |bs| - 1;
    var q := rest + [h];
    assert [h] + rest + [h] == [h] + q;
    ChainSplit(bs, [h], q);
    FrontLinks(bs, q, b);
    var cs := Fronted(bs, b);
    ChainOne(cs, b);
    ChainOne(cs, h);
    ChainJoin(cs, [b], q);
    ChainJoin(cs, [h], [b] + q);
    assert [h] + ([b] + q) == [h] + ([b] + rest) + [h];
  }

  lemma Apart(h: nat, a: seq<nat>, c: seq<nat>)
    requires Distinct(a + c) && h !in a && h !in c
    ensures var p, q := [h] + a, c + [h]; q[0] !in p[1..] && p[|p| - 1] !in q[..|q| - 1] && Distinct(p) && Distinct(q)
  {
    var p, q := [h] + a, c + [h];
    assert p[1..] == a && q[..|q| - 1] == c;
    assert forall i :: 0 <= i < |a| ==> (a + c)[i] == a[i];
    assert forall i :: 0 <= i < |c| ==> (a + c)[|a| + i] == c[i];
    if c != [] { assert (a + c)[|a|] == c[0]; }
    if a != [] { assert (a + c)[|a| - 1] == a[|a| - 1]; }
  }

  lemma WholeMoved(a: seq<nat>, b: nat, c: seq<nat>)
    requires Whole(a + [b] + c)
    ensures Whole([b] + (a + c)) && b < |a| + 1 + |c| && b !in a && b !in c
    ensures forall i :: 0 <= i < |a + c| ==> (a + c)[i] < |a| + 1 + |c|
  {
    var ring, r := a + [b] + c, [b] + (a + c);
    RestDistinct(a, b, c);
    assert ring[|a|] == b;
    forall i | 1 <= i < |r|
      ensures r[i] < |ring| && r[i] != b
    {
      assert r[i] == ring[if i <= |a| then i - 1 else i];
      assert r[i] == (a + c)[i - 1];
    }
    assert forall i :: 0 <= i < |a + c| ==> (a + c)[i] == r[i + 1];
    forall x | 0 <= x < |r|
      ensures x in r
    {
      assert x in ring;
    }
  }

  /** brelse moves the buffer to the front of the ring and changes no other order. */
  lemma ReleaseRing(bs: seq<Buf>, a: seq<nat>, b: nat, c: seq<nat>)
    requires Ring(bs, a + [b] + c)
    ensures b < |bs| - 1 && bs[b].next < |bs| && bs[b].prev < |bs| && Unlinked(bs, b)[|bs| - 1].next < |bs|
    ensures Ring(Fronted(Unlinked(bs, b), b), [b] + (a + c)) && SameBufs(bs, Fronted(Unlinked(bs, b), b))
  {
    hide Chain;
    var ring := a + [b] + c;
    var h := |ring|;
    WholeMoved(a, b, c);
    RestDistinct(a, b, c);
    assert h !in a + c;
    Apart(h, a, c);
    assert Distinct((a + c) + [h]);
    hide Whole, Distinct;
    assert [h] + ring + [h] == ([h] + a) + [b] + (c + [h]);
    UnlinkChain(bs, [h] + a, b, c + [h]);
    assert ([h] + a) + (c + [h]) == [h] + (a + c) + [h];
    FrontChain(Unlinked(bs, b), a + c, b);
    hide Unlinked, Fronted;
    SameTwice(bs, Unlinked(bs, b), Fronted(Unlinked(bs, b), b));
  }

  lemma SameTwice(bs: seq<Buf>, cs: seq<Buf>, ds: seq<Buf>)
    requires SameBufs(bs, cs) && SameBufs(cs, ds)
    ensures SameBufs(bs, ds)
  {
  }

  lemma RestDistinct(a: seq<nat>, b: nat, c: seq<nat>)
    requires Distinct(a + [b] + c)
    ensures Distinct(a) && Distinct(c) && Distinct(a + c) && b !in a && b !in c
  {
    var ring := a + [b] + c;
    forall i, j | 0 <= i < j < |a + c|
      ensures (a + c)[i] != (a + c)[j]
    {
      var x, y := if i < |a| then i else i + 1, if j < |a| then j else j + 1;
      assert ring[x] == (a + c)[i] && ring[y] == (a + c)[j];
    }
    forall i, j | 0 <= i < j < |a|
      ensures a[i] != a[j]
    {
      assert ring[i] == a[i] && ring[j] == a[j];
    }
    forall i, j | 0 <= i < j < |c|
      ensures c[i] != c[j]
    {
      assert ring[|a| + 1 + i] == c[i] && ring[|a| + 1 + j] == c[j];
    }
    assert ring[|a|] == b;
    assert forall i :: 0 <= i < |a| ==> ring[i] == a[i];
    assert forall i :: 0 <= i < |c| ==> ring[|a| + 1 + i] == c[i];
  }

  // ------------------------------------------------------------ the cache

  predicate Real(k: Key) { k.dev != -1 }

  /** bget may recycle it. */
  predicate Idle(x: Buf) { !x.busy && !x.dirty }

  ghost predicate Unique(bs: seq<Buf>, n: nat)
    requires n <= |bs|
  {
    forall i, j :: 0 <= i < n && 0 <= j < n && Real(bs[i].key) && bs[i].key == bs[j].key ==> i == j
  }

  /** What a buffer holds, against the disk and the bytes last released for its block. Only
      bget's buffer for a block the disk does not have is without either. */
  predicate Faithful(x: Buf, disk: map<Key, Data>, last: map<Key, Data>) {
    if !Real(x.key) then !x.busy && !x.valid && !x.dirty
    else if x.key !in disk then x.busy && !x.valid && !x.dirty
    else
      && x.key in last
      && (!x.busy ==> x.valid && x.data == last[x.key])
      && (Idle(x) || !x.valid ==> disk[x.key] == last[x.key])
      && (!x.valid ==> !x.dirty)
  }

  ghost predicate Held(bs: seq<Buf>, n: nat, k: Key)
    requires n <= |bs|
  {
    exists i :: 0 <= i < n && bs[i].key == k
  }

  /** Buffers are faithful, and a block no buffer holds is as last released on disk. */
  ghost predicate Truthful(bs: seq<Buf>, n: nat, disk: map<Key, Data>, last: map<Key, Data>)
    requires n <= |bs|
  {
    && last.Keys == disk.Keys
    && (forall i :: 0 <= i < n ==> Faithful(bs[i], disk, last))
    && (forall k :: k in disk && Real(k) && !Held(bs, n, k) ==> disk[k] == last[k])
  }

  /** The ring is in order of release, latest first. */
  ghost predicate InOrder(ring: seq<nat>, stamp: seq<nat>, clock: nat)
    requires |stamp| == |ring|
  {
    && (forall i :: 0 <= i < |ring| ==> ring[i] < |stamp| && stamp[ring[i]] < clock)
    && (forall i, j :: 0 <= i < j < |ring| ==> stamp[ring[j]] < stamp[ring[i]])
  }

  lemma ReleaseOrder(a: seq<nat>, b: nat, c: seq<nat>, stamp: seq<nat>, clock: nat)
    requires |stamp| == |a| + 1 + |c| && InOrder(a + [b] + c, stamp, clock) && Distinct(a + [b] + c)
    ensures b < |stamp| && InOrder([b] + (a + c), stamp[b := clock], clock + 1)
  {
    var ring, r := a + [b] + c, [b] + (a + c);
    assert ring[|a|] == b;
    forall i | 1 <= i < |r|
      ensures r[i] == ring[if i <= |a| then i - 1 else i] && r[i] != b
    {
    }
    RestDistinct(a, b, c);
    forall i, j | 0 <= i < j < |r|
      ensures stamp[b := clock][r[j]] < stamp[b := clock][r[i]]
    {
      var x := if i <= |a| then i - 1 else i;
      var y := if j <= |a| then j - 1 else j;
      assert r[j] == ring[y];
      if i > 0 { assert r[i] == ring[x]; }
    }
  }

  lemma {:induction false} NextIn(bs: seq<Buf>, ring: seq<nat>, i: nat)
    requires Ring(bs, ring) && i <= |ring|
    ensures var path := [|ring|] + ring + [|ring|]; Link(bs, path[i], path[i + 1])
  {
    ChainAt(bs, [|ring|] + ring + [|ring|], i);
  }

  /** The ring does not see what is in the buffers. */
  lemma {:induction false} SamePath(bs: seq<Buf>, cs: seq<Buf>, path: seq<nat>)
    requires Chain(bs, path) && |cs| == |bs|
    requires forall i :: 0 <= i < |bs| ==> cs[i].prev == bs[i].prev && cs[i].next == bs[i].next
    ensures Chain(cs, path)
  {
    if |path| >= 2 {
      SamePath(bs, cs, path[1..]);
    }
  }

  lemma SamePlaces(bs: seq<Buf>, cs: seq<Buf>, ring: seq<nat>)
    requires Ring(bs, ring) && |cs| == |bs|
    requires forall i :: 0 <= i < |bs| ==> cs[i].prev == bs[i].prev && cs[i].next == bs[i].next
    ensures Ring(cs, ring)
  {
    SamePath(bs, cs, [|ring|] + ring + [|ring|]);
  }

  lemma OnePlace(bs: seq<Buf>, b: nat, x: Buf, ring: seq<nat>)
    requires Ring(bs, ring) && b < |bs| && x.prev == bs[b].prev && x.next == bs[b].next
    ensures Ring(bs[b := x], ring)
  {
    SamePlaces(bs, bs[b := x], ring);
  }

  lemma HeldStill(bs: seq<Buf>, cs: seq<Buf>, n: nat, k: Key)
    requires n <= |bs| && n <= |cs| && forall i :: 0 <= i < n && bs[i].key == k ==> cs[i].key == k
    ensures Held(bs, n, k) ==> Held(cs, n, k)
  {
  }

  lemma SameTruth(bs: seq<Buf>, cs: seq<Buf>, n: nat, disk: map<Key, Data>, last: map<Key, Data>)
    requires n <= |bs| && SameBufs(bs, cs) && Unique(bs, n) && Truthful(bs, n, disk, last)
    ensures Unique(cs, n) && Truthful(cs, n, disk, last)
  {
    forall j | 0 <= j < n
      ensures Faithful(cs[j], disk, last)
    {
      assert Faithful(bs[j], disk, last);
    }
    forall k | k in disk && Real(k) && !Held(cs, n, k)
      ensures disk[k] == last[k]
    {
      HeldStill(bs, cs, n, k);
    }
  }

  /** A change of one buffer and of the disk and the record of its own block. */
  lemma OneBuf(bs: seq<Buf>, n: nat, i: nat, x: Buf, disk: map<Key, Data>, last: map<Key, Data>, disk2: map<Key, Data>,
          last2: map<Key, Data>)
    requires n <= |bs| && i < n && Unique(bs, n) && Truthful(bs, n, disk, last)
    requires x.key == bs[i].key && Real(x.key) && Faithful(x, disk2, last2)
    requires disk2.Keys == disk.Keys && last2.Keys == last.Keys
    requires forall k :: k in disk && k != x.key ==> disk2[k] == disk[k] && last2[k] == last[k]
    ensures Unique(bs[i := x], n) && Truthful(bs[i := x], n, disk2, last2)
  {
    var cs := bs[i := x];
    forall j | 0 <= j < n
      ensures Faithful(cs[j], disk2, last2)
    {
      assert Faithful(bs[j], disk, last);
    }
    forall k | k in disk2 && Real(k) && !Held(cs, n, k)
      ensures disk2[k] == last2[k]
    {
      HeldStill(bs, cs, n, k);
    }
  }

  /** An idle buffer is given to a block that no buffer holds. */
  lemma Recycled(bs: seq<Buf>, n: nat, i: nat, x: Buf, disk: map<Key, Data>, last: map<Key, Data>)
    requires n <= |bs| && i < n && Unique(bs, n) && Truthful(bs, n, disk, last) && Idle(bs[i])
    requires Real(x.key) && !Held(bs, n, x.key) && x.busy && !x.valid && !x.dirty
    ensures Unique(bs[i := x], n) && Truthful(bs[i := x], n, disk, last)
  {
    var cs := bs[i := x];
    forall j | 0 <= j < n
      ensures Faithful(cs[j], disk, last)
    {
      assert Faithful(bs[j], disk, last);
    }
    forall k | k in disk && Real(k) && !Held(cs, n, k)
      ensures disk[k] == last[k]
    {
      assert Faithful(bs[i], disk, last);
      if k != bs[i].key {
        HeldStill(bs, cs, n, k);
      }
    }
  }

  lemma Trusted(bs: seq<Buf>, n: nat, b: nat, disk: map<Key, Data>, last: map<Key, Data>)
    requires n <= |bs| && b < n && Truthful(bs, n, disk, last)
    ensures Faithful(bs[b], disk, last) && last.Keys == disk.Keys
  {
  }

  /** When bget does not wait, no buffer of the block was busy. */
  lemma OneBusy(bs: seq<Buf>, n: nat, k: Key, g: Got)
    requires n <= |bs| && Unique(bs, n) && Real(k)
    requires g.Waits? ==> g.b < n && bs[g.b].key == k && bs[g.b].busy
    requires g.NoBuffers? ==> !Held(bs, n, k)
    requires (g.Buffer? || g.NoBlock?) && Held(bs, n, k) ==> g.b < n && bs[g.b].key == k && !bs[g.b].busy
    ensures g.Waits? <==> exists i :: 0 <= i < n && bs[i].key == k && bs[i].busy
  {
  }

  /** The ring binit leaves: the last buffer first. */
  function Down(k: nat): (r: seq<nat>)
    ensures |r| == k
  {
    seq(k, i requires 0 <= i < k => k - 1 - i)
  }

  predicate Blank(x: Buf) { !x.busy && !x.valid && !x.dirty }

  lemma DownNext(b: nat, n: nat)
    requires b < n
    ensures Distinct(Down(b) + [n]) && b !in Down(b) && [b] + Down(b) == Down(b + 1)
  {
    var r := Down(b) + [n];
    forall i, j | 0 <= i < j < |r|
      ensures r[i] != r[j]
    {
    }
  }

  /** One turn of binit. */
  lemma InitTurn(bs: seq<Buf>, b: nat)
    requires b + 1 < |bs| && Chain(bs, [|bs| - 1] + Down(b) + [|bs| - 1])
    ensures bs[|bs| - 1].next < |bs| && SameBufs(bs, Fronted(bs, b))
    ensures var cs := Fronted(bs, b);
      Chain(cs[b := cs[b].(key := Key(-1, cs[b].key.blockno))], [|bs| - 1] + Down(b + 1) + [|bs| - 1])
  {
    var n := |bs| - 1;
    hide Chain, Distinct, Fronted, Down, SameBufs;
    DownNext(b, n);
    FrontChain(bs, Down(b), b);
    var cs := Fronted(bs, b);
    SamePath(cs, cs[b := cs[b].(key := Key(-1, cs[b].key.blockno))], [n] + ([b] + Down(b)) + [n]);
  }

  lemma DownWhole(n: nat)
    ensures Whole(Down(n)) && InOrder(Down(n), seq(n, i => i), n)
  {
    forall x | 0 <= x < n
      ensures x in Down(n)
    {
      assert Down(n)[n - 1 - x] == x;
    }
  }

  class Bcache {
    var bufs: seq<Buf>
    var disk: map<Key, Data>
    const n: nat
    ghost var ring: seq<nat>
    ghost var last: map<Key, Data>
    ghost var stamp: seq<nat>
    ghost var clock: nat

    ghost predicate Valid()
      reads this
    {
      && |ring| == n && |bufs| == n + 1 && Ring(bufs, ring) && Unique(bufs, n) && Truthful(bufs, n, disk, last)
      && |stamp| == n && InOrder(ring, stamp, clock)
    }

    /** binit: each buffer in turn to the front of an empty ring, no block in any. */
    constructor (n: nat, disk: map<Key, Data>)
      ensures Valid() && this.n == n && this.disk == disk && last == disk && ring == Down(n)
      ensures forall b :: 0 <= b < n ==> !Real(bufs[b].key) && Idle(bufs[b])
    {
      this.n, this.disk, this.last := n, disk, disk;
      var bs := seq(n + 1, _ => Buf(Key(0, 0), false, false, false, [], n, n));
      var b := 0;
      assert [n] + Down(0) + [n] == [n, n];
      hide Chain;
      while b < n
        invariant 0 <= b <= n && |bs| == n + 1 && Chain(bs, [n] + Down(b) + [n])
        invariant forall i :: 0 <= i < b ==> !Real(bs[i].key)
        invariant forall i :: 0 <= i < n ==> Blank(bs[i])
      {
        InitTurn(bs, b);
        ghost var cs := Fronted(bs, b);
        bs := bs[b := bs[b].(next := bs[n].next, prev := n)];
        bs := bs[bs[n].next := bs[bs[n].next].(prev := b)];
        bs := bs[n := bs[n].(next := b)];
        assert bs == cs;
        bs := bs[b := bs[b].(key := Key(-1, bs[b].key.blockno))];
        b := b + 1;
      }
      DownWhole(n);
      bufs := bs;
      ring := Down(n);
      stamp := seq(n, i => i);
      clock := n;
    }

    /** The first buffer of the ring that holds k. */
    method Find(k: Key) returns (found: bool, b: nat)
      requires Valid()
      ensures found ==> b < n && bufs[b].key == k
      ensures !found ==> !Held(bufs, n, k)
    {
      ghost var path := [n] + ring + [n];
      ghost var i := 0;
      NextIn(bufs, ring, 0);
      b := bufs[n].next;
      while b != n
        invariant 0 <= i <= n && b == path[i + 1]
        invariant forall j :: 0 <= j < i ==> bufs[ring[j]].key != k
        decreases n - i
      {
        assert b == ring[i];
        if bufs[b].key == k {
          return true, b;
        }
        NextIn(bufs, ring, i + 1);
        b := bufs[b].next;
        i := i + 1;
      }
      forall c | 0 <= c < n
        ensures bufs[c].key != k
      {
        assert c in ring;
        var j :| 0 <= j < n && ring[j] == c;
      }
      return false, 0;
    }

    /** The buffer longest released among those neither busy nor dirty. */
    method Oldest() returns (found: bool, b: nat)
      requires Valid()
      ensures found ==> b < n && Idle(bufs[b]) && forall c :: 0 <= c < n && Idle(bufs[c]) ==> stamp[b] <= stamp[c]
      ensures !found ==> forall c :: 0 <= c < n ==> !Idle(bufs[c])
    {
      ghost var path := [n] + ring + [n];
      ghost var i := n;
      NextIn(bufs, ring, n);
      b := bufs[n].prev;
      while b != n
        invariant 0 <= i <= n && b == path[i]
        invariant forall j :: i <= j < n ==> !Idle(bufs[ring[j]])
        decreases i
      {
        assert i > 0 && b == ring[i - 1];
        if Idle(bufs[b]) {
          forall c | 0 <= c < n && Idle(bufs[c])
            ensures stamp[b] <= stamp[c]
          {
            assert c in ring;
            var j :| 0 <= j < n && ring[j] == c;
          }
          return true, b;
        }
        NextIn(bufs, ring, i - 1);
        b := bufs[b].prev;
        i := i - 1;
      }
      forall c | 0 <= c < n
        ensures !Idle(bufs[c])
      {
        assert c in ring;
        var j :| 0 <= j < n && ring[j] == c;
      }
      return false, 0;
    }

    /** bget: the cached buffer if it is free, a wait if it is not, else the clean buffer
        that was released longest ago, emptied. A dirty buffer is never taken. */
    method Bget(k: Key) returns (g: Got)
      requires Valid() && Real(k)
      modifies this`bufs
      ensures Valid() && !g.NoBlock?
      ensures g.Buffer? ==> g.b < n && bufs[g.b].busy && bufs[g.b].key == k && bufs == old(bufs)[g.b := bufs[g.b]]
      ensures g.Buffer? && Held(old(bufs), n, k) ==> bufs[g.b] == old(bufs)[g.b].(busy := true) && !old(bufs)[g.b].busy
      ensures g.Buffer? && !Held(old(bufs), n, k) ==> !bufs[g.b].valid && !bufs[g.b].dirty && Idle(old(bufs)[g.b])
      ensures g.Buffer? && !Held(old(bufs), n, k) ==>
        forall c :: 0 <= c < n && Idle(old(bufs)[c]) ==> stamp[g.b] <= stamp[c]
      ensures g.Waits? ==> bufs == old(bufs) && g.b < n && bufs[g.b].key == k && bufs[g.b].busy
      ensures g.NoBuffers? ==> bufs == old(bufs) && !Held(bufs, n, k) && forall c :: 0 <= c < n ==> !Idle(bufs[c])
    {
      var found, b := Find(k);
      if found {
        if bufs[b].busy {
          return Waits(b);
        }
        ghost var x := bufs[b].(busy := true);
        OnePlace(bufs, b, x, ring);
        OneBuf(bufs, n, b, x, disk, last, disk, last);
        bufs := bufs[b := bufs[b].(busy := true)];
        return Buffer(b);
      }
      found, b := Oldest();
      if !found {
        return NoBuffers;
      }
      ghost var x := bufs[b].(key := k, busy := true, valid := false, dirty := false);
      OnePlace(bufs, b, x, ring);
      Recycled(bufs, n, b, x, disk, last);
      bufs := bufs[b := bufs[b].(key := k, busy := true, valid := false, dirty := false)];
      return Buffer(b);
    }

    /** iderw, as memide.c does it: a dirty buffer to the disk, else the disk to the buffer. A
        panic exactly when the buffer is not busy, has nothing to do, or the block is not
        there. */
    method Iderw(b: nat) returns (ok: bool)
      requires Valid() && b < n
      modifies this`bufs, this`disk
      ensures Valid()
      ensures ok <==> old(bufs)[b].busy && (!old(bufs)[b].valid || old(bufs)[b].dirty) && old(bufs)[b].key in old(disk)
      ensures !ok ==> bufs == old(bufs) && disk == old(disk)
      ensures ok ==> bufs == old(bufs)[b := bufs[b]] && bufs[b].key == old(bufs)[b].key && bufs[b].busy
      ensures ok ==> bufs[b].valid && !bufs[b].dirty && bufs[b].key in disk && disk[bufs[b].key] == bufs[b].data
      ensures ok && old(bufs)[b].dirty ==>
        bufs[b] == old(bufs)[b].(dirty := false, valid := true) && disk == old(disk)[bufs[b].key := bufs[b].data]
      ensures ok && !old(bufs)[b].dirty ==> disk == old(disk)
    {
      hide Ring, InOrder, Unique, Truthful;
      if !bufs[b].busy || (bufs[b].valid && !bufs[b].dirty) || bufs[b].key !in disk {
        return false;
      }
      Trusted(bufs, n, b, disk, last);
      ghost var bs, d := bufs, disk;
      if bufs[b].dirty {
        disk := disk[bufs[b].key := bufs[b].data];
        bufs := bufs[b := bufs[b].(dirty := false, valid := true)];
      } else {
        bufs := bufs[b := bufs[b].(data := disk[bufs[b].key], valid := true)];
      }
      SamePlaces(bs, bufs, ring);
      OneBuf(bs, n, b, bufs[b], d, last, disk, last);
      return true;
    }

    /** bread: the bytes last released for the block. */
    method Bread(k: Key) returns (g: Got)
      requires Valid() && Real(k)
      modifies this`bufs, this`disk
      ensures Valid() && disk == old(disk)
      ensures g.Buffer? ==> k in disk && g.b < n && bufs[g.b].busy && bufs[g.b].valid && bufs[g.b].key == k
      ensures g.Buffer? ==> bufs[g.b].data == last[k]
      ensures g.Buffer? ==> bufs == old(bufs)[g.b := bufs[g.b]]
      ensures g.Buffer? && (old(bufs)[g.b].busy || old(bufs)[g.b].dirty) ==>
        !old(bufs)[g.b].busy && bufs[g.b] == old(bufs)[g.b].(busy := true)
      ensures g.Waits? || g.NoBuffers? ==> bufs == old(bufs)
      ensures g.Waits? <==> exists i :: 0 <= i < n && old(bufs)[i].key == k && old(bufs)[i].busy
      ensures g.NoBuffers? <==> !Held(old(bufs), n, k) && forall c :: 0 <= c < n ==> !Idle(old(bufs)[c])
      ensures g.NoBlock? <==> !g.Waits? && !g.NoBuffers? && k !in disk
      ensures g.NoBlock? ==> g.b < n && Idle(old(bufs)[g.b]) && bufs == old(bufs)[g.b := bufs[g.b]]
    {
      hide Ring, InOrder, Unique;
      ghost var bs := bufs;
      g := Bget(k);
      assert |bufs| == n + 1;
      if g.Buffer? {
        Trusted(bufs, n, g.b, disk, last);
        Trusted(bs, n, g.b, disk, last);
        if !bufs[g.b].valid {
          var ok := Iderw(g.b);
          if !ok {
            g := NoBlock(g.b);
          }
        }
      }
      OneBusy(bs, n, k, g);
    }

    /** A client changes the data of its busy buffer. */
    method Edit(b: nat, data: Data)
      requires Valid() && b < n && bufs[b].busy && bufs[b].valid
      modifies this`bufs
      ensures Valid() && bufs == old(bufs)[b := old(bufs)[b].(data := data)]
    {
      assert Faithful(bufs[b], disk, last);
      OnePlace(bufs, b, bufs[b].(data := data), ring);
      OneBuf(bufs, n, b, bufs[b].(data := data), disk, last, disk, last);
      bufs := bufs[b := bufs[b].(data := data)];
    }

    /** log_write's part: the buffer stays until it is written. */
    method MarkDirty(b: nat)
      requires Valid() && b < n && bufs[b].busy && bufs[b].valid
      modifies this`bufs
      ensures Valid() && bufs == old(bufs)[b := old(bufs)[b].(dirty := true)]
    {
      assert Faithful(bufs[b], disk, last);
      OnePlace(bufs, b, bufs[b].(dirty := true), ring);
      OneBuf(bufs, n, b, bufs[b].(dirty := true), disk, last, disk, last);
      bufs := bufs[b := bufs[b].(dirty := true)];
    }

    /** bwrite: a panic exactly when the buffer is not busy. */
    method Bwrite(b: nat) returns (ok: bool)
      requires Valid() && b < n && (bufs[b].busy ==> bufs[b].valid)
      modifies this`bufs, this`disk
      ensures Valid() && (ok <==> old(bufs)[b].busy)
      ensures ok ==> bufs == old(bufs)[b := old(bufs)[b].(dirty := false)]
      ensures ok ==> disk == old(disk)[bufs[b].key := bufs[b].data]
      ensures !ok ==> bufs == old(bufs) && disk == old(disk)
    {
      if !bufs[b].busy {
        return false;
      }
      Trusted(bufs, n, b, disk, last);
      MarkDirty(b);
      ok := Iderw(b);
    }

    /** brelse's six pointer writes. */
    method MoveToFront(b: nat)
      requires |bufs| == n + 1 && b < n && bufs[b].next < |bufs| && bufs[b].prev < |bufs|
      requires Unlinked(bufs, b)[n].next < |bufs|
      modifies this`bufs
      ensures bufs == Fronted(Unlinked(old(bufs), b), b)
    {
      ghost var bs := bufs;
      var nx := bufs[b].next;
      bufs := bufs[nx := bufs[nx].(prev := bufs[b].prev)];
      var pv := bufs[b].prev;
      bufs := bufs[pv := bufs[pv].(next := bufs[b].next)];
      assert bufs == Unlinked(bs, b);
      hide Unlinked;
      var first := bufs[n].next;
      bufs := bufs[b := bufs[b].(next := first, prev := n)];
      bufs := bufs[first := bufs[first].(prev := b)];
      bufs := bufs[n := bufs[n].(next := b)];
    }

    /** brelse: its bytes become the last released, and it the most recent of the ring. A
        panic exactly when the buffer is not busy. */
    method Brelse(b: nat) returns (ok: bool)
      requires Valid() && b < n
      requires bufs[b].busy ==> bufs[b].valid && bufs[b].key in disk
      requires bufs[b].busy ==> (bufs[b].dirty || bufs[b].data == disk[bufs[b].key])
      modifies this`bufs, this`ring, this`last, this`stamp, this`clock
      ensures Valid() && (ok <==> old(bufs)[b].busy)
      ensures !ok ==> bufs == old(bufs) && ring == old(ring) && last == old(last)
      ensures ok ==> last == old(last)[old(bufs)[b].key := old(bufs)[b].data]
      ensures ok ==> SameBufs(old(bufs)[b := old(bufs)[b].(busy := false)], bufs)
      ensures ok ==> MovedUp(old(ring), ring, b)
    {
      hide Ring, InOrder, Unique, Truthful, Fronted, Unlinked, MovedUp, Faithful, SameBufs;
      if !bufs[b].busy {
        return false;
      }
      ghost var bs := bufs;
      ghost var r := ReleasePlan(bufs, ring, stamp, clock, b);
      MoveToFront(b);
      Released(bs, bufs, n, b, disk, last);
      OnePlace(bufs, b, bufs[b].(busy := false), r);
      bufs := bufs[b := bufs[b].(busy := false)];
      last := last[bs[b].key := bs[b].data];
      ring := r;
      stamp, clock := stamp[b := clock], clock + 1;
      return true;
    }
  }

  /** The ring with b taken out and put first. */
  ghost predicate MovedUp(ring: seq<nat>, r: seq<nat>, b: nat) {
    exists i :: 0 <= i < |ring| && ring[i] == b && r == [b] + (ring[..i] + ring[i + 1..])
  }

  lemma ReleasePlan(bs: seq<Buf>, ring: seq<nat>, stamp: seq<nat>, clock: nat, b: nat) returns (r: seq<nat>)
    requires Ring(bs, ring) && |stamp| == |ring| && InOrder(ring, stamp, clock) && b < |ring|
    ensures bs[b].next < |bs| && bs[b].prev < |bs| && Unlinked(bs, b)[|bs| - 1].next < |bs|
    ensures Ring(Fronted(Unlinked(bs, b), b), r) && SameBufs(bs, Fronted(Unlinked(bs, b), b))
    ensures |r| == |ring| && InOrder(r, stamp[b := clock], clock + 1) && MovedUp(ring, r, b)
  {
    assert b in ring;
    var i :| 0 <= i < |ring| && ring[i] == b;
    var a, c := ring[..i], ring[i + 1..];
    assert ring == a + [b] + c;
    ReleaseRing(bs, a, b, c);
    ReleaseOrder(a, b, c, stamp, clock);
    r := [b] + (a + c);
  }

  lemma Released(bs: seq<Buf>, ds: seq<Buf>, n: nat, b: nat, disk: map<Key, Data>, last: map<Key, Data>)
    requires n < |bs| && b < n && SameBufs(bs, ds) && Unique(bs, n) && Truthful(bs, n, disk, last)
    requires bs[b].busy && bs[b].valid && bs[b].key in disk && (bs[b].dirty || bs[b].data == disk[bs[b].key])
    ensures var es := ds[b := ds[b].(busy := false)]; var last2 := last[bs[b].key := bs[b].data];
      Unique(es, n) && Truthful(es, n, disk, last2) && SameBufs(bs[b := bs[b].(busy := false)], es)
  {
    var last2 := last[bs[b].key := bs[b].data];
    assert Faithful(bs[b], disk, last);
    OneBuf(bs, n, b, bs[b].(busy := false), disk, last, disk, last2);
    SameTruth(bs[b := bs[b].(busy := false)], ds[b := ds[b].(busy := false)], n, disk, last2);
  }
}
