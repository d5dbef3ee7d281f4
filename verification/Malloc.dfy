/** The Kernighan and Ritchie storage allocator of umalloc.c. Addresses and sizes
    count in header units of 8 bytes, as the pointer arithmetic of the source does. */
module FreeList {

  /** A run of units: a header and what it governs. */
  datatype Blk = Blk(at: int, size: nat) {
    function End(): int { at + size }
    predicate Has(u: int) { at <= u < End() }
  }

  /** The free list read from `base` on: one pass in address order, no two blocks
      touching. base is the only block without units. */
  ghost predicate Coalesced(fs: seq<Blk>, base: int) {
    && |fs| >= 1 && fs[0] == Blk(base, 0)
    && (forall i :: 1 <= i < |fs| ==> fs[i].size > 0)
    && Ordered(fs)
  }

  ghost predicate Ordered(fs: seq<Blk>) {
    forall i, j :: 0 <= i < j < |fs| ==> fs[i].End() < fs[j].at
  }

  ghost predicate Before(xs: seq<Blk>, ys: seq<Blk>) {
    forall i, j :: 0 <= i < |xs| && 0 <= j < |ys| ==> xs[i].End() < ys[j].at
  }

  ghost predicate Covers(fs: seq<Blk>, u: int) {
    exists i :: 0 <= i < |fs| && fs[i].Has(u)
  }

  /** b fits between fs[j] and its successor. */
  ghost predicate Gap(fs: seq<Blk>, j: nat, b: Blk) {
    && j < |fs| && b.size > 0
    && fs[j].at < b.at && fs[j].End() <= b.at
    && (j + 1 < |fs| ==> b.End() <= fs[j + 1].at)
  }

  /** b in front of fs, joined with the first block if they touch. */
  function Cons(b: Blk, fs: seq<Blk>): (r: seq<Blk>)
    ensures r != [] && r[0].at == b.at && |r| <= |fs| + 1
  {
    if fs != [] && b.End() == fs[0].at then [Blk(b.at, b.size + fs[0].size)] + fs[1..]
    else [b] + fs
  }

  /** The list after free() puts b behind fs[j]: joined with the block above it,
      then with the block below. */
  function Insert(fs: seq<Blk>, j: nat, b: Blk): seq<Blk>
    requires j < |fs|
  {
    fs[..j] + Cons(fs[j], Cons(b, fs[j + 1..]))
  }

  /** The list after malloc() takes the last n units of fs[i]. */
  function Take(fs: seq<Blk>, i: nat, n: nat): seq<Blk>
    requires i < |fs| && n <= fs[i].size
  {
    if n == fs[i].size then fs[..i] + fs[i + 1..]
    else fs[i := Blk(fs[i].at, fs[i].size - n)]
  }

  lemma OrderedConcat(xs: seq<Blk>, ys: seq<Blk>)
    requires Ordered(xs) && Ordered(ys) && Before(xs, ys)
    ensures Ordered(xs + ys)
  {
  }

  lemma CoversConcat(xs: seq<Blk>, ys: seq<Blk>, u: int)
    ensures Covers(xs + ys, u) <==> Covers(xs, u) || Covers(ys, u)
  {
    if i :| 0 <= i < |xs| && xs[i].Has(u) {
      assert (xs + ys)[i].Has(u);
    }
    if i :| 0 <= i < |ys| && ys[i].Has(u) {
      assert (xs + ys)[|xs| + i].Has(u);
    }
  }

  lemma ConsCovers(b: Blk, fs: seq<Blk>, u: int)
    requires fs != [] ==> b.End() <= fs[0].at
    ensures Covers(Cons(b, fs), u) <==> b.Has(u) || Covers(fs, u)
  {
    assert forall x: Blk :: Covers([x], u) <==> x.Has(u) by {
      forall x: Blk ensures Covers([x], u) <==> x.Has(u) {
        assert [x][0] == x;
      }
    }
    if fs != [] && b.End() == fs[0].at {
      CoversConcat([Blk(b.at, b.size + fs[0].size)], fs[1..], u);
      assert fs == [fs[0]] + fs[1..];
      CoversConcat([fs[0]], fs[1..], u);
    } else {
      CoversConcat([b], fs, u);
    }
  }

  ghost predicate Solid(fs: seq<Blk>) {
    Ordered(fs) && forall i :: 0 <= i < |fs| ==> fs[i].size > 0
  }

  lemma ConsOrdered(b: Blk, fs: seq<Blk>)
    requires Solid(fs) && (fs != [] ==> b.End() <= fs[0].at)
    ensures Ordered(Cons(b, fs))
    ensures b.size > 0 ==> Solid(Cons(b, fs))
  {
  }

  lemma Parts(fs: seq<Blk>, base: int, j: nat)
    requires Coalesced(fs, base) && j < |fs|
    ensures Ordered(fs[..j]) && Solid(fs[j + 1..])
    ensures forall i :: 0 <= i < j ==> fs[..j][i].End() < fs[j].at
  {
  }

  lemma InsertCoalesced(fs: seq<Blk>, base: int, j: nat, b: Blk)
    requires Coalesced(fs, base) && Gap(fs, j, b)
    ensures Coalesced(Insert(fs, j, b), base)
  {
    Parts(fs, base, j);
    ConsOrdered(b, fs[j + 1..]);
    ConsOrdered(fs[j], Cons(b, fs[j + 1..]));
    var left, right := fs[..j], Cons(fs[j], Cons(b, fs[j + 1..]));
    InsertOrdered(left, fs[j], right);
    if j > 0 {
      PositiveConcat(left, right);
    }
  }

  lemma InsertOrdered(xs: seq<Blk>, p: Blk, ys: seq<Blk>)
    requires Ordered(xs) && Ordered(ys) && ys != [] && ys[0].at == p.at
    requires forall i :: 0 <= i < |xs| ==> xs[i].End() < p.at
    ensures Ordered(xs + ys)
  {
    assert forall j :: 0 < j < |ys| ==> ys[0].End() < ys[j].at;
    OrderedConcat(xs, ys);
  }

  lemma PositiveConcat(xs: seq<Blk>, ys: seq<Blk>)
    requires forall i :: 1 <= i < |xs| ==> xs[i].size > 0
    requires xs != [] && forall i :: 0 <= i < |ys| ==> ys[i].size > 0
    ensures forall i :: 1 <= i < |xs + ys| ==> (xs + ys)[i].size > 0
  {
  }

  lemma InsertCovers(fs: seq<Blk>, base: int, j: nat, b: Blk, u: int)
    requires Coalesced(fs, base) && Gap(fs, j, b)
    ensures Covers(Insert(fs, j, b), u) <==> Covers(fs, u) || b.Has(u)
  {
    var up := Cons(b, fs[j + 1..]);
    ConsCovers(b, fs[j + 1..], u);
    ConsCovers(fs[j], up, u);
    CoversConcat(fs[..j], Cons(fs[j], up), u);
    CoversSplit(fs, j, u);
  }

  lemma CoversSplit(fs: seq<Blk>, j: nat, u: int)
    requires j < |fs|
    ensures Covers(fs, u) <==> Covers(fs[..j], u) || fs[j].Has(u) || Covers(fs[j + 1..], u)
  {
    if i :| 0 <= i < |fs| && fs[i].Has(u) {
      if i < j {
        assert fs[..j][i].Has(u);
      } else if i > j {
        assert fs[j + 1..][i - j - 1].Has(u);
      }
    }
  }

  lemma TakeCoalesced(fs: seq<Blk>, base: int, i: nat, n: nat)
    requires Coalesced(fs, base) && 1 <= i < |fs| && 0 < n <= fs[i].size
    ensures Coalesced(Take(fs, i, n), base)
  {
  }

  /** What malloc hands out is the end of a free block, and nothing else changes hands. */
  lemma TakeCovers(fs: seq<Blk>, base: int, i: nat, n: nat, u: int)
    requires Coalesced(fs, base) && 1 <= i < |fs| && 0 < n <= fs[i].size
    ensures Covers(Take(fs, i, n), u) <==> Covers(fs, u) && !Blk(fs[i].End() - n, n).Has(u)
  {
    var f, g := fs[i], Take(fs, i, n);
    CoversSplit(fs, i, u);
    if n == f.size {
      CoversConcat(fs[..i], fs[i + 1..], u);
    } else {
      CoversSplit(g, i, u);
      assert g[..i] == fs[..i] && g[i + 1..] == fs[i + 1..];
    }
    if f.Has(u) {
      assert !Covers(fs[..i], u) && !Covers(fs[i + 1..], u);
    }
  }

  /** A coalesced list is determined by the units it covers: the order in which
      blocks were freed leaves no trace. */
  lemma {:induction false} Canonical(fs: seq<Blk>, gs: seq<Blk>, base: int)
    requires Coalesced(fs, base) && Coalesced(gs, base)
    requires forall u :: Covers(fs, u) <==> Covers(gs, u)
    ensures fs == gs
  {
    if fs != gs {
      var k := FirstDifference(fs, gs, base);
      if k == |fs| {
        assert gs[k].Has(gs[k].at);
        CoveredHere(gs, fs, base, k);
      } else if k == |gs| {
        CoveredHere(fs, gs, base, k);
      } else if fs[k].at < gs[k].at {
        CoveredHere(fs, gs, base, k);
      } else if gs[k].at < fs[k].at {
        CoveredHere(gs, fs, base, k);
      } else if fs[k].size < gs[k].size {
        EndCovered(gs, fs, base, k);
      } else {
        EndCovered(fs, gs, base, k);
      }
    }
  }

  lemma FirstDifference(fs: seq<Blk>, gs: seq<Blk>, base: int) returns (k: nat)
    requires Coalesced(fs, base) && Coalesced(gs, base) && fs != gs
    ensures 1 <= k <= |fs| && k <= |gs| && fs[..k] == gs[..k]
    ensures k < |fs| || k < |gs|
    ensures k < |fs| && k < |gs| ==> fs[k] != gs[k]
  {
    k := 1;
    while k < |fs| && k < |gs| && fs[k] == gs[k]
      invariant 1 <= k <= |fs| && k <= |gs| && fs[..k] == gs[..k]
    {
      k := k + 1;
    }
  }

  /** gs has no block where fs[k] starts. */
  lemma CoveredHere(fs: seq<Blk>, gs: seq<Blk>, base: int, k: nat)
    requires Coalesced(fs, base) && Coalesced(gs, base) && 1 <= k < |fs| && k <= |gs| && fs[..k] == gs[..k]
    requires k < |gs| ==> fs[k].at < gs[k].at
    ensures Covers(fs, fs[k].at) && !Covers(gs, fs[k].at)
  {
    assert fs[k].Has(fs[k].at);
    forall i | 0 <= i < |gs| ensures !gs[i].Has(fs[k].at) {
      if i < k {
        assert gs[i] == gs[..k][i] == fs[i];
      }
    }
  }

  /** gs[k] ends before fs[k] does, and its next block starts later still. */
  lemma EndCovered(fs: seq<Blk>, gs: seq<Blk>, base: int, k: nat)
    requires Coalesced(fs, base) && Coalesced(gs, base) && 1 <= k < |fs| && k < |gs| && fs[..k] == gs[..k]
    requires fs[k].at == gs[k].at && gs[k].size < fs[k].size
    ensures Covers(fs, gs[k].End()) && !Covers(gs, gs[k].End())
  {
    var e := gs[k].End();
    assert fs[k].Has(e);
  }
}

module Malloc {
  import opened FreeList
  import opened Sums

  datatype Header = Header(ptr: int, size: nat)

  /** xs is a run of linked headers; the last one points to `last`. */
  ghost predicate Linked(mem: map<int, Header>, xs: seq<Blk>, last: int) {
    xs != [] ==>
      && xs[0].at in mem && mem[xs[0].at] == Header(Head(xs[1..], last), xs[0].size)
      && Linked(mem, xs[1..], last)
  }

  function Head(xs: seq<Blk>, last: int): int {
    if xs == [] then last else xs[0].at
  }

  /** The address of the header after xs[i]. */
  function Next(xs: seq<Blk>, i: nat, last: int): int
    requires i < |xs|
  {
    if i + 1 < |xs| then xs[i + 1].at else last
  }

  lemma {:induction false} LinkedAt(mem: map<int, Header>, xs: seq<Blk>, last: int, i: nat)
    requires Linked(mem, xs, last) && i < |xs|
    ensures xs[i].at in mem && mem[xs[i].at] == Header(Next(xs, i, last), xs[i].size)
  {
    if i > 0 {
      LinkedAt(mem, xs[1..], last, i - 1);
    }
  }

  lemma {:induction false} LinkedConcat(mem: map<int, Header>, xs: seq<Blk>, ys: seq<Blk>, last: int)
    ensures Linked(mem, xs + ys, last) <==> Linked(mem, xs, Head(ys, last)) && Linked(mem, ys, last)
  {
    if xs == [] {
      assert xs + ys == ys;
    } else {
      LinkedConcat(mem, xs[1..], ys, last);
      assert (xs + ys)[1..] == xs[1..] + ys;
    }
  }

  /** The header free() writes for b when the block after it is at `next`. */
  function Front(mem: map<int, Header>, b: Blk, next: int): Header {
    if b.End() == next && next in mem then Header(mem[next].ptr, b.size + mem[next].size) else Header(next, b.size)
  }

  ghost predicate Below(a: int, xs: seq<Blk>) {
    forall i :: 0 <= i < |xs| ==> a < xs[i].at
  }

  ghost predicate Above(a: int, xs: seq<Blk>) {
    forall i :: 0 <= i < |xs| ==> xs[i].at < a
  }

  /** Headers elsewhere do not matter. */
  lemma {:induction false} LinkedElsewhere(mem: map<int, Header>, xs: seq<Blk>, last: int, a: int, h: Header)
    requires Linked(mem, xs, last) && forall i :: 0 <= i < |xs| ==> xs[i].at != a
    ensures Linked(mem[a := h], xs, last)
  {
    if xs != [] {
      LinkedElsewhere(mem, xs[1..], last, a, h);
    }
  }

  lemma LinkCons(mem: map<int, Header>, b: Blk, fs: seq<Blk>, last: int)
    requires Linked(mem, fs, last) && Below(b.at, fs) && (fs == [] ==> b.End() != last)
    ensures Linked(mem[b.at := Front(mem, b, Head(fs, last))], Cons(b, fs), last)
  {
    var h := Front(mem, b, Head(fs, last));
    LinkedElsewhere(mem, fs, last, b.at, h);
    assert Cons(b, fs)[1..] == if fs != [] && b.End() == fs[0].at then fs[1..] else fs;
  }

  /** The memory after free()'s two header writes. */
  function Freed(mem: map<int, Header>, p: Blk, b: Blk, next: int): map<int, Header> {
    var m := mem[b.at := Front(mem, b, next)];
    m[p.at := Front(m, p, b.at)]
  }

  lemma LinkBetween(mem: map<int, Header>, left: seq<Blk>, p: Blk, b: Blk, right: seq<Blk>, last: int)
    requires Linked(mem, left + ([p] + right), last) && (right == [] ==> b.End() != last)
    requires Below(b.at, right) && Below(p.at, Cons(b, right)) && Above(p.at, left) && Above(b.at, left)
    ensures Linked(Freed(mem, p, b, Head(right, last)), left + Cons(p, Cons(b, right)), last)
  {
    LinkedConcat(mem, left, [p] + right, last);
    LinkedTail(mem, p, right, last);
    LinkCons(mem, b, right, last);
    var m := mem[b.at := Front(mem, b, Head(right, last))];
    LinkCons(m, p, Cons(b, right), last);
    LinkedElsewhere(mem, left, p.at, b.at, m[b.at]);
    LinkedElsewhere(m, left, p.at, p.at, Front(m, p, b.at));
    LinkedConcat(m[p.at := Front(m, p, b.at)], left, Cons(p, Cons(b, right)), last);
  }

  /** free()'s two header writes turn the linked list fs into the linked list Insert(fs, j, b). */
  lemma LinkInsert(mem: map<int, Header>, fs: seq<Blk>, base: int, j: nat, b: Blk)
    requires Coalesced(fs, base) && Gap(fs, j, b) && Linked(mem, fs, base)
    ensures Linked(Freed(mem, fs[j], b, Next(fs, j, base)), Insert(fs, j, b), base)
  {
    Bounded(fs, base, j, b);
    Halves(fs, j);
    LinkBetween(mem, fs[..j], fs[j], b, fs[j + 1..], base);
  }

  lemma Halves(fs: seq<Blk>, j: nat)
    requires j < |fs|
    ensures fs == fs[..j] + ([fs[j]] + fs[j + 1..])
  {
  }

  /** Everything above b is above b, everything below below. */
  lemma Bounded(fs: seq<Blk>, base: int, j: nat, b: Blk)
    requires Coalesced(fs, base) && Gap(fs, j, b)
    ensures base < b.at && fs[j].at < b.at
    ensures Below(b.at, fs[j + 1..]) && Below(fs[j].at, Cons(b, fs[j + 1..]))
    ensures Above(fs[j].at, fs[..j]) && Above(b.at, fs[..j])
  {
  }

  // ------------------------------------------------------------ ownership

  ghost predicate InUse(live: map<int, nat>, a: int, u: int) {
    a in live && Blk(a, live[a]).Has(u)
  }

  ghost predicate Live(live: map<int, nat>, u: int) {
    exists a :: InUse(live, a, u)
  }

  /** Every unit obtained from sbrk (core) is in exactly one free block or in
      exactly one block handed out, and no other unit is. */
  ghost predicate Books(base: int, brk: int, fs: seq<Blk>, live: map<int, nat>, core: set<int>) {
    && Coalesced(fs, base)
    && (forall a :: a in live ==> live[a] > 0)
    && (forall u :: u in core <==> Covers(fs, u) || Live(live, u))
    && (forall u :: !(Covers(fs, u) && Live(live, u)))
    && (forall a, c, u :: InUse(live, a, u) && InUse(live, c, u) ==> a == c)
    && (forall u :: u in core ==> base < u < brk)
  }

  lemma BooksFree(base: int, brk: int, fs: seq<Blk>, live: map<int, nat>, core: set<int>, j: nat, a: int)
    requires Books(base, brk, fs, live, core) && a in live && Gap(fs, j, Blk(a, live[a]))
    ensures Books(base, brk, Insert(fs, j, Blk(a, live[a])), live - {a}, core)
    ensures forall u :: Covers(Insert(fs, j, Blk(a, live[a])), u) <==> Covers(fs, u) || Blk(a, live[a]).Has(u)
  {
    var b, rest := Blk(a, live[a]), live - {a};
    InsertCoalesced(fs, base, j, b);
    forall u ensures Covers(Insert(fs, j, b), u) <==> Covers(fs, u) || b.Has(u) {
      InsertCovers(fs, base, j, b, u);
    }
    assert forall c, u :: InUse(rest, c, u) <==> InUse(live, c, u) && c != a;
    forall u ensures Live(live, u) <==> Live(rest, u) || b.Has(u) {
      assert InUse(live, a, u) <==> b.Has(u);
      if c :| InUse(live, c, u) {
        assert c != a ==> InUse(rest, c, u);
      }
    }
    forall u ensures !(b.Has(u) && Live(rest, u)) {
      assert InUse(live, a, u) <==> b.Has(u);
    }
  }

  /** Handing out the last n units of fs[i]. */
  lemma BooksTake(base: int, brk: int, fs: seq<Blk>, live: map<int, nat>, core: set<int>, i: nat, n: nat)
    requires Books(base, brk, fs, live, core) && 1 <= i < |fs| && 0 < n <= fs[i].size
    ensures fs[i].End() - n !in live
    ensures Books(base, brk, Take(fs, i, n), live[fs[i].End() - n := n], core)
    ensures forall u :: Covers(Take(fs, i, n), u) <==> Covers(fs, u) && !Blk(fs[i].End() - n, n).Has(u)
  {
    var b := Blk(fs[i].End() - n, n);
    var more := live[b.at := n];
    TakeCoalesced(fs, base, i, n);
    forall u ensures Covers(Take(fs, i, n), u) <==> Covers(fs, u) && !b.Has(u) {
      TakeCovers(fs, base, i, n, u);
    }
    assert forall u :: b.Has(u) ==> fs[i].Has(u);
    assert forall u :: b.Has(u) ==> Covers(fs, u);
    assert b.Has(b.at) && (b.at in live ==> InUse(live, b.at, b.at) && Live(live, b.at));
    assert forall a, u :: InUse(live, a, u) ==> Live(live, u);
    Grown(live, b);
    Owners(live, b, more);
  }

  /** One more block in use. */
  lemma Grown(live: map<int, nat>, b: Blk)
    requires b.at !in live
    ensures forall a, u :: InUse(live[b.at := b.size], a, u) <==> InUse(live, a, u) || (a == b.at && b.Has(u))
    ensures forall u :: Live(live[b.at := b.size], u) <==> Live(live, u) || b.Has(u)
  {
    var more := live[b.at := b.size];
    assert forall a, u :: InUse(more, a, u) <==> InUse(live, a, u) || (a == b.at && b.Has(u));
    forall u ensures Live(more, u) <==> Live(live, u) || b.Has(u) {
      if b.Has(u) {
        assert InUse(more, b.at, u);
      }
      if a :| InUse(live, a, u) {
        assert InUse(more, a, u);
      }
    }
  }

  lemma Owners(live: map<int, nat>, b: Blk, more: map<int, nat>)
    requires forall a, u :: InUse(more, a, u) <==> InUse(live, a, u) || (a == b.at && b.Has(u))
    requires forall a, c, u :: InUse(live, a, u) && InUse(live, c, u) ==> a == c
    requires forall u :: b.Has(u) ==> !Live(live, u)
    ensures forall a, c, u :: InUse(more, a, u) && InUse(more, c, u) ==> a == c
  {
    forall a, c, u | InUse(more, a, u) && InUse(more, c, u) ensures a == c {
      assert InUse(live, a, u) ==> Live(live, u);
      assert InUse(live, c, u) ==> Live(live, u);
    }
  }

  ghost function Range(at: int, n: nat): set<int> {
    set u | at <= u < at + n && Blk(at, n).Has(u)
  }

  /** New memory from sbrk, in use until free() puts it on the list. */
  lemma BooksGrow(base: int, brk: int, fs: seq<Blk>, live: map<int, nat>, core: set<int>, at: int, n: nat)
    requires Books(base, brk, fs, live, core) && base < brk <= at && n > 0
    ensures at !in live && forall u :: u in (core + Range(at, n)) - core <==> Blk(at, n).Has(u)
    ensures Books(base, at + n, fs, live[at := n], core + Range(at, n))
  {
    assert at in live ==> InUse(live, at, at) && Live(live, at);
    assert forall u :: u in Range(at, n) <==> Blk(at, n).Has(u);
    assert forall u :: Live(live, u) ==> u in core;
    Grown(live, Blk(at, n));
    Owners(live, Blk(at, n), live[at := n]);
  }

  function Size(fs: seq<Blk>): nat {
    if fs == [] then 0 else Size(fs[..|fs| - 1]) + fs[|fs| - 1].size
  }

  lemma {:induction false} RangeSize(at: int, n: nat)
    ensures |Range(at, n)| == n
  {
    if n > 0 {
      RangeSize(at, n - 1);
      assert Blk(at, n).Has(at + n - 1);
      assert Range(at, n) == Range(at, n - 1) + {at + n - 1};
    }
  }

  lemma {:induction false} CountFree(fs: seq<Blk>) returns (s: set<int>)
    requires Ordered(fs)
    ensures |s| == Size(fs) && forall u :: u in s <==> Covers(fs, u)
  {
    if fs == [] {
      s := {};
    } else {
      var k, b := |fs| - 1, fs[|fs| - 1];
      var r := CountFree(fs[..k]);
      RangeSize(b.at, b.size);
      s := r + Range(b.at, b.size);
      hide Covers, Ordered, Range;
      CountLast(fs, r);
    }
  }

  lemma CountLast(fs: seq<Blk>, r: set<int>)
    requires Ordered(fs) && fs != [] && forall u :: u in r <==> Covers(fs[..|fs| - 1], u)
    ensures var b := fs[|fs| - 1]; r !! Range(b.at, b.size)
    ensures var b := fs[|fs| - 1]; forall u :: u in r + Range(b.at, b.size) <==> Covers(fs, u)
  {
    var k, b := |fs| - 1, fs[|fs| - 1];
    assert fs[k + 1..] == [];
    forall u
      ensures u in r + Range(b.at, b.size) <==> Covers(fs, u)
      ensures !(u in r && u in Range(b.at, b.size))
    {
      CoversSplit(fs, k, u);
      assert u in Range(b.at, b.size) <==> b.Has(u);
    }
  }

  lemma {:induction false} CountLive(live: map<int, nat>) returns (s: set<int>)
    requires forall a, c, u :: InUse(live, a, u) && InUse(live, c, u) ==> a == c
    ensures |s| == Sum(live) && forall u :: u in s <==> Live(live, u)
    decreases |live|
  {
    if live == map[] {
      s := {};
    } else {
      var a := Pick(live);
      var rest := live - {a};
      assert forall c, u :: InUse(rest, c, u) <==> InUse(live, c, u) && c != a;
      var r := CountLive(rest);
      var mine := Range(a, live[a]);
      RangeSize(a, live[a]);
      SumRemove(live, a);
      s := r + mine;
      assert forall u :: u in mine <==> InUse(live, a, u);
      forall u ensures u in s <==> Live(live, u) {
        if c :| InUse(live, c, u) {
          assert c != a ==> InUse(rest, c, u);
        }
      }
      assert r !! mine;
    }
  }

  lemma Split(f: set<int>, v: set<int>, core: set<int>, fs: seq<Blk>, live: map<int, nat>)
    requires forall u :: u in f <==> Covers(fs, u)
    requires forall u :: u in v <==> Live(live, u)
    requires forall u :: u in core <==> Covers(fs, u) || Live(live, u)
    requires forall u :: !(Covers(fs, u) && Live(live, u))
    ensures |core| == |f| + |v|
  {
    hide Covers, Live;
    assert forall u :: u in core <==> u in f + v;
    assert core == f + v;
    forall u ensures !(u in f && u in v) {
      assert !(Covers(fs, u) && Live(live, u));
    }
    assert f * v == {};
  }

  /** Conservation: free units and units handed out add up to the units obtained. */
  lemma Conservation(base: int, brk: int, fs: seq<Blk>, live: map<int, nat>, core: set<int>)
    requires Books(base, brk, fs, live, core)
    ensures Size(fs) + Sum(live) == |core|
  {
    var f := CountFree(fs);
    var v := CountLive(live);
    Split(f, v, core, fs, live);
  }

  /** The place of a block in use in the free list exists. */
  lemma FindGap(base: int, brk: int, fs: seq<Blk>, live: map<int, nat>, core: set<int>, a: int) returns (t: nat)
    requires Books(base, brk, fs, live, core) && a in live
    ensures t < |fs| && fs[t].at < a && (t + 1 < |fs| ==> a < fs[t + 1].at)
  {
    assert InUse(live, a, a);
    assert a in core;
    t := 0;
    while t + 1 < |fs| && fs[t + 1].at <= a
      invariant t < |fs| && fs[t].at < a
    {
      t := t + 1;
      assert fs[t].Has(fs[t].at) && Covers(fs, fs[t].at);
      assert Live(live, a);
    }
  }

  /** Free and used blocks share no unit, so a block between two headers lies in the gap. */
  lemma InGap(base: int, brk: int, fs: seq<Blk>, live: map<int, nat>, core: set<int>, j: nat, a: int)
    requires Books(base, brk, fs, live, core) && a in live
    requires j < |fs| && fs[j].at < a && (j + 1 < |fs| ==> a < fs[j + 1].at)
    ensures Gap(fs, j, Blk(a, live[a]))
  {
    assert InUse(live, a, a) && Live(live, a);
    assert fs[j].Has(a) ==> Covers(fs, a);
    if j + 1 < |fs| {
      var next := fs[j + 1].at;
      assert fs[j + 1].Has(next) && Covers(fs, next);
      assert InUse(live, a, next) ==> Live(live, next);
    }
  }

  /** No header of the free list, base included, is the header of a block in use. */
  lemma HeadersApart(base: int, brk: int, fs: seq<Blk>, live: map<int, nat>, core: set<int>, i: nat)
    requires Books(base, brk, fs, live, core) && i < |fs|
    ensures fs[i].at !in live
  {
    var a := fs[i].at;
    assert a in live ==> InUse(live, a, a) && Live(live, a);
    assert i > 0 ==> fs[i].Has(a) && Covers(fs, a);
  }

  lemma NotListed(base: int, brk: int, fs: seq<Blk>, live: map<int, nat>, core: set<int>, a: int)
    requires Books(base, brk, fs, live, core) && base < brk <= a
    ensures forall i :: 0 <= i < |fs| ==> fs[i].at != a
  {
    forall i | 0 <= i < |fs| ensures fs[i].at != a {
      assert i > 0 ==> fs[i].Has(fs[i].at) && Covers(fs, fs[i].at);
    }
  }

  /** malloc()'s header write for an exact fit. */
  lemma LinkTakeAll(mem: map<int, Header>, fs: seq<Blk>, base: int, i: nat)
    requires Coalesced(fs, base) && Linked(mem, fs, base) && 1 <= i < |fs|
    ensures fs[i].at in mem
    ensures Linked(mem[fs[i - 1].at := Header(mem[fs[i].at].ptr, fs[i - 1].size)], Take(fs, i, fs[i].size), base)
  {
    hide Linked, Coalesced, Above, Below;
    AroundTwo(fs, base, i);
    LinkSkip(mem, fs[..i - 1], fs[i - 1], fs[i], fs[i + 1..], base);
  }

  lemma AroundTwo(fs: seq<Blk>, base: int, i: nat)
    requires Coalesced(fs, base) && 1 <= i < |fs|
    ensures var left, q, rest := fs[..i - 1], fs[i - 1], fs[i + 1..];
      && fs == left + ([q] + ([fs[i]] + rest)) && Take(fs, i, fs[i].size) == left + ([q] + rest)
      && Above(q.at, left) && Below(q.at, rest)
  {
    hide Coalesced;
    Apart(fs, base, i);
    CutTwo(fs, i);
  }

  lemma CutTwo(fs: seq<Blk>, i: nat)
    requires 1 <= i < |fs|
    ensures fs == fs[..i - 1] + ([fs[i - 1]] + ([fs[i]] + fs[i + 1..]))
    ensures fs[..i] + fs[i + 1..] == fs[..i - 1] + ([fs[i - 1]] + fs[i + 1..])
  {
  }

  lemma Apart(fs: seq<Blk>, base: int, i: nat)
    requires Coalesced(fs, base) && 1 <= i < |fs|
    ensures Above(fs[i - 1].at, fs[..i - 1]) && Below(fs[i - 1].at, fs[i + 1..])
  {
  }

  /** malloc()'s header writes when it splits a block. */
  lemma LinkTakeSome(mem: map<int, Header>, fs: seq<Blk>, base: int, i: nat, n: nat, h: Header)
    requires Coalesced(fs, base) && Linked(mem, fs, base) && 1 <= i < |fs| && 0 < n < fs[i].size
    ensures fs[i].at in mem
    ensures Linked(mem[fs[i].at := Header(mem[fs[i].at].ptr, fs[i].size - n)][fs[i].End() - n := h],
      Take(fs, i, n), base)
  {
    var left, x, rest := fs[..i], Blk(fs[i].at, fs[i].size - n), fs[i + 1..];
    Halves(fs, i);
    assert fs[i := x] == left + ([x] + rest);
    LinkShrink(mem, left, fs[i], x, rest, base);
    LinkedElsewhere(mem[fs[i].at := Header(mem[fs[i].at].ptr, x.size)], Take(fs, i, n), base, fs[i].End() - n, h);
  }

  /** prevp->ptr = p->ptr takes p out of the list. */
  lemma LinkSkip(mem: map<int, Header>, left: seq<Blk>, q: Blk, p: Blk, rest: seq<Blk>, last: int)
    requires Linked(mem, left + ([q] + ([p] + rest)), last) && Above(q.at, left) && Below(q.at, rest)
    ensures p.at in mem && Linked(mem[q.at := Header(mem[p.at].ptr, q.size)], left + ([q] + rest), last)
  {
    LinkedConcat(mem, left, [q] + ([p] + rest), last);
    LinkedTail(mem, q, [p] + rest, last);
    LinkedTail(mem, p, rest, last);
    var h := Header(mem[p.at].ptr, q.size);
    LinkedElsewhere(mem, left, q.at, q.at, h);
    LinkedElsewhere(mem, rest, last, q.at, h);
    LinkedTail(mem[q.at := h], q, rest, last);
    LinkedConcat(mem[q.at := h], left, [q] + rest, last);
  }

  /** p->size -= n leaves a smaller block in p's place. */
  lemma LinkShrink(mem: map<int, Header>, left: seq<Blk>, p: Blk, x: Blk, rest: seq<Blk>, last: int)
    requires Linked(mem, left + ([p] + rest), last) && Above(p.at, left) && Below(p.at, rest) && x.at == p.at
    ensures p.at in mem && Linked(mem[p.at := Header(mem[p.at].ptr, x.size)], left + ([x] + rest), last)
  {
    LinkedConcat(mem, left, [p] + rest, last);
    LinkedTail(mem, p, rest, last);
    var h := Header(mem[p.at].ptr, x.size);
    LinkedElsewhere(mem, left, p.at, p.at, h);
    LinkedElsewhere(mem, rest, last, p.at, h);
    LinkedTail(mem[p.at := h], x, rest, last);
    LinkedConcat(mem[p.at := h], left, [x] + rest, last);
  }

  lemma LinkedTail(mem: map<int, Header>, p: Blk, rest: seq<Blk>, last: int)
    ensures Linked(mem, [p] + rest, last) <==>
              p.at in mem && mem[p.at] == Header(Head(rest, last), p.size) && Linked(mem, rest, last)
  {
    assert ([p] + rest)[1..] == rest;
  }

  // ------------------------------------------------------------ the allocator

  /** The k-th block after fs[s] on the circle. */
  ghost function Around(s: nat, k: nat, n: nat): (r: nat)
    requires s < n && k < n
    ensures r < n
  {
    if s + 1 + k < n then s + 1 + k else s + 1 + k - n
  }

  /** fs[i] is the first block after fs[s], around the circle, of at least n units. */
  ghost predicate FirstFit(fs: seq<Blk>, s: nat, n: nat, i: nat) {
    && s < |fs| && i < |fs| && fs[i].size >= n
    && exists k :: 0 <= k < |fs| && i == Around(s, k, |fs|)
                   && forall m :: 0 <= m < k ==> fs[Around(s, m, |fs|)].size < n
  }

  /** Once the list has grown by b, at the top, a block that is large enough when none was
      before ends where b does. */
  lemma NewestFits(base: int, was: seq<Blk>, brk: int, fs: seq<Blk>, live: map<int, nat>, core: set<int>, b: Blk,
          n: nat, i: nat)
    requires Coalesced(was, base) && (forall j :: 0 <= j < |was| ==> was[j].size < n)
    requires Books(base, brk, fs, live, core)
    requires brk == b.End() && forall u :: Covers(fs, u) <==> Covers(was, u) || b.Has(u)
    requires i < |fs| && fs[i].size >= n > 0
    ensures fs[i].End() == brk
  {
    var e := fs[i].End();
    if forall u :: fs[i].Has(u) ==> Covers(was, u) {
      var j := RunInOne(was, base, fs[i]);
    } else {
      var u :| fs[i].Has(u) && !Covers(was, u);
      assert Covers(fs, u);
      assert b.Has(e) ==> Covers(fs, e);
      assert fs[i].Has(e - 1);
      assert Covers(fs, e - 1) && e - 1 in core;
    }
  }

  lemma FitSize(fs: seq<Blk>, s: nat, n: nat, i: nat)
    requires FirstFit(fs, s, n, i)
    ensures i < |fs| && fs[i].size >= n
  {
  }

  lemma WholeCircle(fs: seq<Blk>, s: nat, n: nat, i: nat)
    requires s < |fs| && i < |fs|
    requires forall k :: 0 <= k < |fs| ==> fs[Around(s, k, |fs|)].size < n
    ensures fs[i].size < n
  {
    var k := if i > s then i - s - 1 else |fs| - s - 1 + i;
    assert Around(s, k, |fs|) == i;
  }

  ghost predicate Headed(mem: map<int, Header>, live: map<int, nat>) {
    forall a :: a in live ==> a in mem && mem[a].size == live[a]
  }

  /** free() keeps the whole invariant. */
  lemma FreeKeeps(base: int, brk: int, mem: map<int, Header>, fs: seq<Blk>, live: map<int, nat>, core: set<int>,
          j: nat, a: int)
    returns (m: map<int, Header>, g: seq<Blk>)
    requires Books(base, brk, fs, live, core) && Linked(mem, fs, base) && Headed(mem, live)
    requires a in live && Gap(fs, j, Blk(a, live[a]))
    ensures fs[j].at in mem && mem[fs[j].at] == Header(Next(fs, j, base), fs[j].size) && Next(fs, j, base) in mem
    ensures m == Freed(mem, fs[j], Blk(a, live[a]), Next(fs, j, base))
    ensures Books(base, brk, g, live - {a}, core) && Linked(m, g, base) && Headed(m, live - {a})
    ensures j < |g| && g[j].at == fs[j].at && base <= fs[j].at < a && a in mem && mem[a].size == live[a]
    ensures forall u :: Covers(g, u) <==> Covers(fs, u) || Blk(a, live[a]).Has(u)
  {
    m, g := Freed(mem, fs[j], Blk(a, live[a]), Next(fs, j, base)), Insert(fs, j, Blk(a, live[a]));
    LinkInsert(mem, fs, base, j, Blk(a, live[a]));
    BooksFree(base, brk, fs, live, core, j, a);
    HeadersApart(base, brk, fs, live, core, j);
    LinkedAt(mem, fs, base, j);
    LinkedAt(mem, fs, base, if j + 1 < |fs| then j + 1 else 0);
  }

  /** A run of free units lies in one free block: the list is coalesced. */
  lemma RunInOne(fs: seq<Blk>, base: int, b: Blk) returns (i: nat)
    requires Coalesced(fs, base) && b.size > 0 && forall u :: b.Has(u) ==> Covers(fs, u)
    ensures i < |fs| && fs[i].size >= b.size
  {
    assert b.Has(b.at);
    i :| 0 <= i < |fs| && fs[i].Has(b.at);
    var e := fs[i].End();
    assert b.Has(e) ==> Covers(fs, e);
  }

  lemma Ascends(fs: seq<Blk>, base: int, i: nat)
    requires Coalesced(fs, base) && 1 <= i < |fs|
    ensures base <= fs[i - 1].at < fs[i].at
  {
  }

  /** The memory after malloc() takes the last n units of the block at p, whose predecessor is q. */
  function Taken(mem: map<int, Header>, q: int, p: int, n: nat): map<int, Header>
    requires q in mem && p in mem && n <= mem[p].size
  {
    if mem[p].size == n then mem[q := Header(mem[p].ptr, mem[q].size)]
    else
      var m := mem[p := Header(mem[p].ptr, mem[p].size - n)];
      var a := p + m[p].size;
      m[a := Header(if a in m then m[a].ptr else 0, n)]
  }

  /** malloc() keeps the whole invariant. */
  lemma TakeKeeps(base: int, brk: int, mem: map<int, Header>, fs: seq<Blk>, live: map<int, nat>, core: set<int>,
          i: nat, n: nat)
    returns (m: map<int, Header>, g: seq<Blk>, a: int)
    requires Books(base, brk, fs, live, core) && Linked(mem, fs, base) && Headed(mem, live)
    requires 1 <= i < |fs| && 0 < n <= fs[i].size
    ensures fs[i - 1].at in mem && fs[i].at in mem && mem[fs[i].at].size == fs[i].size
    ensures m == Taken(mem, fs[i - 1].at, fs[i].at, n)
    ensures a == fs[i].at + (fs[i].size - n) && a !in live && base <= fs[i - 1].at < a
    ensures Books(base, brk, g, live[a := n], core) && Linked(m, g, base) && Headed(m, live[a := n])
    ensures i - 1 < |g| && g[i - 1].at == fs[i - 1].at && g == Take(fs, i, n)
    ensures forall u :: Covers(g, u) <==> Covers(fs, u) && !Blk(a, n).Has(u)
  {
    hide Books, Covers, Linked, Ordered, Coalesced, Headed, Take;
    BaseFirst(base, brk, fs, live, core);
    Ascends(fs, base, i);
    LinkedAt(mem, fs, base, i);
    LinkedAt(mem, fs, base, i - 1);
    m, g, a := Taken(mem, fs[i - 1].at, fs[i].at, n), Take(fs, i, n), fs[i].End() - n;
    BooksTake(base, brk, fs, live, core, i, n);
    HeadersApart(base, brk, fs, live, core, i);
    HeadersApart(base, brk, fs, live, core, i - 1);
    TakeAt(fs, i, n);
    TakenLinks(mem, fs, base, i, n);
    TakenHeads(mem, live, fs[i - 1].at, fs[i].at, n);
  }

  lemma TakeAt(fs: seq<Blk>, i: nat, n: nat)
    requires 1 <= i < |fs| && n <= fs[i].size
    ensures i - 1 < |Take(fs, i, n)| && Take(fs, i, n)[i - 1] == fs[i - 1]
  {
  }

  lemma TakenLinks(mem: map<int, Header>, fs: seq<Blk>, base: int, i: nat, n: nat)
    requires Coalesced(fs, base) && Linked(mem, fs, base) && 1 <= i < |fs| && 0 < n <= fs[i].size
    requires fs[i - 1].at in mem && fs[i].at in mem
    requires mem[fs[i].at].size == fs[i].size && mem[fs[i - 1].at].size == fs[i - 1].size
    ensures Linked(Taken(mem, fs[i - 1].at, fs[i].at, n), Take(fs, i, n), base)
  {
    hide Linked;
    var m := Taken(mem, fs[i - 1].at, fs[i].at, n);
    if n == fs[i].size {
      LinkTakeAll(mem, fs, base, i);
    } else {
      var a := fs[i].End() - n;
      LinkTakeSome(mem, fs, base, i, n, m[a]);
      assert m == mem[fs[i].at := Header(mem[fs[i].at].ptr, fs[i].size - n)][a := m[a]];
    }
  }

  lemma TakenHeads(mem: map<int, Header>, live: map<int, nat>, q: int, p: int, n: nat)
    requires Headed(mem, live) && q in mem && p in mem && 0 < n <= mem[p].size && q !in live && p !in live
    ensures Headed(Taken(mem, q, p, n), live[p + (mem[p].size - n) := n])
  {
  }

  /** Units for a header and nbytes of payload. */
  function Units(nbytes: nat): (n: nat)
    ensures n >= 1 && 8 * (n - 1) >= nbytes && 8 * (n - 2) < nbytes
  {
    (nbytes + 8 - 1) / 8 + 1
  }

  /** What morecore asks sbrk for: at least 4096 units. */
  function Grant(nu: nat): (n: nat)
    ensures n >= 4096 && n >= nu && (n == 4096 || n == nu)
  {
    if nu < 4096 then 4096 else nu
  }

  /** Of the free blocks that begin below a, `at` is the last. */
  ghost predicate LastBelow(fs: seq<Blk>, at: int, a: int) {
    && at < a && (exists i :: 0 <= i < |fs| && fs[i].at == at)
    && forall i :: 0 <= i < |fs| && fs[i].at < a ==> fs[i].at <= at
  }

  /** The same, a block that ends at a not counted: what is left of the block that the units
      from a on were taken from. */
  ghost predicate LastBehind(fs: seq<Blk>, at: int, a: int) {
    && at < a && (exists i :: 0 <= i < |fs| && fs[i].at == at && fs[i].End() != a)
    && forall i :: 0 <= i < |fs| && fs[i].at < a && fs[i].End() != a ==> fs[i].at <= at
  }

  lemma GapBelow(base: int, brk: int, fs: seq<Blk>, live: map<int, nat>, core: set<int>, j: nat, b: Blk)
    requires Books(base, brk, fs, live, core) && Gap(fs, j, b)
    ensures LastBelow(fs, fs[j].at, b.at)
  {
  }

  lemma TakeBehind(base: int, fs: seq<Blk>, i: nat, n: nat)
    requires Coalesced(fs, base) && 1 <= i < |fs| && 0 < n <= fs[i].size
    ensures LastBehind(Take(fs, i, n), fs[i - 1].at, fs[i].End() - n)
  {
    var g, a := Take(fs, i, n), fs[i].End() - n;
    assert g[i - 1] == fs[i - 1];
    forall k | 0 <= k < |g|
      ensures g[k].at < a && g[k].End() != a ==> g[k].at <= fs[i - 1].at
    {
      TakenAt(fs, i, n, k);
    }
  }

  lemma TakenAt(fs: seq<Blk>, i: nat, n: nat, k: nat)
    requires Ordered(fs) && i < |fs| && 0 < n <= fs[i].size && k < |Take(fs, i, n)|
    ensures k < i ==> Take(fs, i, n)[k] == fs[k] && (k + 1 < i ==> fs[k].at <= fs[k].End() < fs[i - 1].at)
    ensures k >= i ==> Take(fs, i, n)[k].at >= fs[i].End() || Take(fs, i, n)[k].End() == fs[i].End() - n
  {
  }

  lemma BaseFirst(base: int, brk: int, fs: seq<Blk>, live: map<int, nat>, core: set<int>)
    requires Books(base, brk, fs, live, core)
    ensures Coalesced(fs, base) && fs != [] && fs[0] == Blk(base, 0)
  {
  }

  /** A header is in one place of the list. */
  lemma OnePlace(base: int, brk: int, fs: seq<Blk>, live: map<int, nat>, core: set<int>, i: nat, j: nat)
    requires Books(base, brk, fs, live, core) && i < |fs| && j < |fs| && fs[i].at == fs[j].at
    ensures i == j
  {
  }

  class Allocator {
    /** The address of the static header `base`. */
    const base: int
    var mem: map<int, Header>
    var freep: int
    /** The end of the memory obtained so far. */
    var brk: int
    ghost var fs: seq<Blk>
    /** The place of freep in fs. */
    ghost var cur: nat
    /** The blocks handed out, by the address of their header. */
    ghost var live: map<int, nat>
    /** Every unit obtained from sbrk. */
    ghost var core: set<int>

    ghost predicate Valid()
      reads this
    {
      && 0 < base < brk
      && Books(base, brk, fs, live, core)
      && Headed(mem, live)
      && if freep == 0 then fs == [Blk(base, 0)] && live == map[]
         else Linked(mem, fs, base) && cur < |fs| && freep == fs[cur].at
    }

    constructor (base: int, brk: int)
      requires 0 < base < brk
      ensures Valid() && this.base == base && live == map[] && core == {} && fs == [Blk(base, 0)]
    {
      this.base, this.brk, mem, freep := base, brk, map[], 0;
      fs, cur, live, core := [Blk(base, 0)], 0, map[], {};
      new;
      assert forall u :: !Covers(fs, u) && !Live(live, u);
    }

    /** free's walk to the list header below bp: it ends, whatever freep is. */
    method Place(bp: int) returns (p: int, ghost j: nat)
      requires Valid() && freep != 0 && bp in live
      ensures j < |fs| && p == fs[j].at && Gap(fs, j, Blk(bp, live[bp]))
      ensures exists i :: 0 <= i < |fs| && p == fs[i].at && Gap(fs, i, Blk(bp, live[bp]))
    {
      ghost var t := FindGap(base, brk, fs, live, core, bp);
      p, j := freep, cur;
      LinkedAt(mem, fs, base, j);
      while !(bp > p && bp < mem[p].ptr)
        invariant 0 <= j < |fs| && p == fs[j].at && p in mem && mem[p].ptr == Next(fs, j, base)
        decreases if j <= t then t - j else |fs| - j + t
      {
        if p >= mem[p].ptr && (bp > p || bp < mem[p].ptr) {
          break;
        }
        p := mem[p].ptr;
        j := if j + 1 < |fs| then j + 1 else 0;
        LinkedAt(mem, fs, base, j);
      }
      assert base <= fs[t].at && (j + 1 < |fs| ==> p < fs[j + 1].at);
      InGap(base, brk, fs, live, core, j, bp);
    }

    /** free's header writes. */
    method Link(p: int, bp: int)
      requires p in mem && bp in mem && mem[p].ptr in mem && p != bp
      modifies this`mem
      ensures mem == Freed(old(mem), Blk(p, old(mem)[p].size), Blk(bp, old(mem)[bp].size), old(mem)[p].ptr)
    {
      if bp + mem[bp].size == mem[p].ptr {
        mem := mem[bp := Header(mem[mem[p].ptr].ptr, mem[bp].size + mem[mem[p].ptr].size)];
      } else {
        mem := mem[bp := Header(mem[p].ptr, mem[bp].size)];
      }
      if p + mem[p].size == bp {
        mem := mem[p := Header(mem[bp].ptr, mem[p].size + mem[bp].size)];
      } else {
        mem := mem[p := Header(bp, mem[p].size)];
      }
    }

    /** free: the block goes back to the list, joined with both neighbours it touches. */
    method Free(ap: int)
      requires Valid() && freep != 0 && ap - 1 in live
      modifies this`mem, this`freep, this`fs, this`cur, this`live
      ensures Valid() && freep != 0 && live == old(live) - {ap - 1} && LastBelow(old(fs), freep, ap - 1)
      ensures forall u :: Covers(fs, u) <==> Covers(old(fs), u) || Blk(ap - 1, old(live)[ap - 1]).Has(u)
    {
      hide Books, Linked, Covers, Headed, LastBelow;
      var bp := ap - 1;
      var p, j := Place(bp);
      GapBelow(base, brk, fs, live, core, j, Blk(bp, live[bp]));
      ghost var m, g := FreeKeeps(base, brk, mem, fs, live, core, j, bp);
      Link(p, bp);
      assert mem == m;
      freep := p;
      fs, live, cur := g, live - {bp}, j;
    }

    /** morecore: at least 4096 units from sbrk, put on the list by free. `ok` and
        `gap` are sbrk's answer: whether it grants the memory, and how many units
        others obtained in between. */
    method MoreCore(nu: nat, ok: bool, gap: nat) returns (p: int)
      requires Valid() && freep != 0 && nu > 0
      modifies this`mem, this`freep, this`brk, this`fs, this`cur, this`live, this`core
      ensures Valid() && freep != 0 && live == old(live)
      ensures !ok ==> p == 0 && fs == old(fs) && core == old(core) && brk == old(brk) && freep == old(freep)
      ensures !ok ==> cur == old(cur) && mem == old(mem)
      ensures ok ==> brk - (old(brk) + gap) == if nu < 4096 then 4096 else nu
      ensures ok ==> LastBelow(old(fs), freep, old(brk) + gap)
      ensures ok ==> p == freep && (exists i :: 0 <= i < |fs| && fs[i].size >= nu)
      ensures ok ==> core == old(core) + Range(old(brk) + gap, Grant(nu)) && brk == old(brk) + gap + Grant(nu)
      ensures ok ==> forall u :: Covers(fs, u) <==> Covers(old(fs), u) || Blk(old(brk) + gap, Grant(nu)).Has(u)
      ensures ok ==> forall u :: Covers(fs, u) <==> Covers(old(fs), u) || u in core - old(core)
    {
      hide Books, Linked, Covers, LastBelow;
      var n := if nu < 4096 then 4096 else nu;
      if !ok {
        return 0;
      }
      var hp := brk + gap;
      BooksGrow(base, brk, fs, live, core, hp, n);
      NotListed(base, brk, fs, live, core, hp);
      LinkedElsewhere(mem, fs, base, hp, Header(if hp in mem then mem[hp].ptr else 0, n));
      mem := mem[hp := Header(if hp in mem then mem[hp].ptr else 0, n)];
      live, core, brk := live[hp := n], core + Range(hp, n), hp + n;
      assert Linked(mem, fs, base);
      Free(hp + 1);
      assert live == old(live);
      BaseFirst(base, brk, fs, live, core);
      ghost var i := RunInOne(fs, base, Blk(hp, n));
      p := freep;
    }

    /** malloc's first use: base becomes the whole list. */
    method Init()
      requires Valid() && freep == 0
      modifies this`mem, this`freep, this`cur
      ensures Valid() && freep == base
    {
      mem := mem[base := Header(base, 0)];
      freep, cur := base, 0;
      assert Linked(mem, fs[1..], base);
    }

    /** One turn of malloc's loop around the circle, from the block after freep to
        freep itself: the first block of at least nunits and its predecessor. */
    method Seek(nunits: nat) returns (found: bool, prevp: int, p: int, ghost i: nat)
      requires Valid() && freep != 0 && nunits > 0
      ensures found ==> 1 <= i < |fs| && prevp == fs[i - 1].at && p == fs[i].at && FirstFit(fs, cur, nunits, i)
      ensures found <==> exists j :: 0 <= j < |fs| && fs[j].size >= nunits
    {
      hide Books, Linked, Headed, Coalesced;
      BaseFirst(base, brk, fs, live, core);
      prevp, found := freep, false;
      ghost var k, q := 0, cur;
      LinkedAt(mem, fs, base, cur);
      p, i := mem[prevp].ptr, Around(cur, 0, |fs|);
      while true
        invariant 0 <= k < |fs| && i == Around(cur, k, |fs|) && p == fs[i].at
        invariant 0 <= q < |fs| && prevp == fs[q].at && i == if q + 1 < |fs| then q + 1 else 0
        invariant forall m :: 0 <= m < k ==> fs[Around(cur, m, |fs|)].size < nunits
        decreases |fs| - k
      {
        LinkedAt(mem, fs, base, i);
        if mem[p].size >= nunits {
          found := true;
          return;
        }
        if p == freep {
          OnePlace(base, brk, fs, live, core, i, cur);
          forall j | 0 <= j < |fs| ensures fs[j].size < nunits {
            WholeCircle(fs, cur, nunits, j);
          }
          return;
        }
        q, k := i, k + 1;
        i := Around(cur, k, |fs|);
        prevp, p := p, mem[p].ptr;
      }
    }

    /** malloc's use of the block it found: all of it, or its last nunits. */
    method Carve(prevp: int, p0: int, ghost i: nat, nunits: nat) returns (r: int)
      requires Valid() && freep != 0 && nunits > 0
      requires 1 <= i < |fs| && prevp == fs[i - 1].at && p0 == fs[i].at && fs[i].size >= nunits
      modifies this`mem, this`freep, this`fs, this`cur, this`live
      ensures Valid() && freep != 0 && r - 1 == old(fs)[i].End() - nunits && r - 1 > base
      ensures r - 1 !in old(live) && live == old(live)[r - 1 := nunits]
      ensures freep == prevp && LastBehind(fs, freep, r - 1)
      ensures forall u :: Covers(fs, u) <==> Covers(old(fs), u) && !Blk(r - 1, nunits).Has(u)
    {
      hide Books, Covers, Linked, Headed, LastBehind, Take, Coalesced;
      BaseFirst(base, brk, fs, live, core);
      TakeBehind(base, fs, i, nunits);
      ghost var m, g, a := TakeKeeps(base, brk, mem, fs, live, core, i, nunits);
      var p := p0;
      if mem[p].size == nunits {
        mem := mem[prevp := Header(mem[p].ptr, mem[prevp].size)];
      } else {
        mem := mem[p := Header(mem[p].ptr, mem[p].size - nunits)];
        p := p + mem[p].size;
        mem := mem[p := Header(if p in mem then mem[p].ptr else 0, nunits)];
      }
      assert mem == m && p == a;
      freep := prevp;
      fs, cur, live := g, i - 1, live[a := nunits];
      r := p + 1;
    }

    /** malloc: a block of its own for the caller, big enough, at the end of the first
        free block after freep that can give it, or of the memory newly obtained when no
        free block can; nothing when sbrk refuses then. After morecore the walk starts
        again behind freep and cannot fail. */
    method Malloc(nbytes: nat, ok: bool, gap: nat) returns (r: int)
      requires Valid()
      modifies this
      ensures Valid() && freep != 0
      ensures r == 0 <==> !ok && forall i :: 0 <= i < |old(fs)| ==> old(fs)[i].size < Units(nbytes)
      ensures r == 0 ==> live == old(live) && fs == old(fs) && core == old(core)
      ensures r != 0 ==> r - 1 !in old(live) && live == old(live)[r - 1 := Units(nbytes)]
      ensures core == old(core) || (ok && core == old(core) + Range(old(brk) + gap, Grant(Units(nbytes))))
      ensures brk == old(brk) <==> r == 0 || exists i :: 0 <= i < |old(fs)| && old(fs)[i].size >= Units(nbytes)
      ensures r != 0 && brk == old(brk) ==>
        && core == old(core)
        && exists i :: 0 <= i < |old(fs)| && FirstFit(old(fs), old(cur), Units(nbytes), i)
                       && r - 1 == old(fs)[i].End() - Units(nbytes)
      ensures r != 0 && brk != old(brk) ==> r - 1 == brk - Units(nbytes)
      ensures brk != old(brk) ==>
        brk - (old(brk) + gap) == if Units(nbytes) < 4096 then 4096 else Units(nbytes)
      ensures r != 0 ==> LastBehind(fs, freep, r - 1)
      ensures r != 0 ==> forall u :: Covers(fs, u) <==>
                (Covers(old(fs), u) || u in core - old(core)) && !Blk(r - 1, Units(nbytes)).Has(u)
    {
      hide Books, Covers, Linked, Headed, Range, FirstFit, Coalesced, LastBelow, LastBehind;
      BaseFirst(base, brk, fs, live, core);
      var nunits := (nbytes + 8 - 1) / 8 + 1;
      if freep == 0 {
        Init();
      }
      var found, prevp, p, i := Seek(nunits);
      if !found {
        ghost var was, brk0 := fs, brk;
        p := MoreCore(nunits, ok, gap);
        if p == 0 {
          return 0;
        }
        found, prevp, p, i := Seek(nunits);
        FitSize(fs, cur, nunits, i);
        NewestFits(base, was, brk, fs, live, core, Blk(brk0 + gap, Grant(nunits)), nunits, i);
      } else {
        FitSize(fs, cur, nunits, i);
      }
      r := Carve(prevp, p, i, nunits);
    }
  }
}
